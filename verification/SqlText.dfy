/** SQL predicates as text: what the compiler writes, and how Postgres reads it back. */
module SqlText {
  import opened Prelude

  datatype Token<A> = LP | RP | NotSign | AndSign | OrSign | Literal(b: bool) | Test(a: A)

  /** What the text was meant to say: groups are parenthesised as written, even around a single part. */
  datatype Phrase<A> =
    | Constant(b: bool)
    | Atom(a: A)
    | Negation(p: Phrase<A>)
    | Group(conj: bool, parts: seq<Phrase<A>>)

  /** What Postgres makes of it: parentheses are gone, and with them the groups of one. */
  datatype Expr<A> =
    | Known(b: bool)
    | Leaf(a: A)
    | Not(e: Expr<A>)
    | And(parts: seq<Expr<A>>)
    | Or(parts: seq<Expr<A>>)

  function Joiner<A>(conj: bool): Token<A> {
    if conj then AndSign else OrSign
  }

  function Join<A>(parts: seq<seq<Token<A>>>, sep: Token<A>): seq<Token<A>> {
    if parts == [] then []
    else if |parts| == 1 then parts[0]
    else parts[0] + [sep] + Join(parts[1..], sep)
  }

  function Print<A>(p: Phrase<A>): (ts: seq<Token<A>>)
    decreases p
  {
    match p
    case Constant(b) => [Literal(b)]
    case Atom(a) => [Test(a)]
    case Negation(q) => [NotSign] + Print(q)
    case Group(conj, parts) => [LP] + Join(PrintAll(parts), Joiner(conj)) + [RP]
  }

  function PrintAll<A>(ps: seq<Phrase<A>>): (out: seq<seq<Token<A>>>)
    ensures |out| == |ps| && forall i :: 0 <= i < |ps| ==> out[i] == Print(ps[i])
    decreases ps
  {
    seq(|ps|, i requires 0 <= i < |ps| => Print(ps[i]))
  }

  /** No group is written without a part: the compiler writes TRUE or FALSE instead. */
  predicate WellFormed<A>(p: Phrase<A>)
    decreases p
  {
    match p
    case Negation(q) => WellFormed(q)
    case Group(_, parts) => parts != [] && forall i :: 0 <= i < |parts| ==> WellFormed(parts[i])
    case _ => true
  }

  function Meant<A>(p: Phrase<A>): Expr<A>
    decreases p
  {
    match p
    case Constant(b) => Known(b)
    case Atom(a) => Leaf(a)
    case Negation(q) => Not(Meant(q))
    case Group(conj, parts) => Grouped(conj, MeantAll(parts))
  }

  function MeantAll<A>(ps: seq<Phrase<A>>): (out: seq<Expr<A>>)
    ensures |out| == |ps| && forall i :: 0 <= i < |ps| ==> out[i] == Meant(ps[i])
    decreases ps
  {
    seq(|ps|, i requires 0 <= i < |ps| => Meant(ps[i]))
  }

  function Grouped<A>(conj: bool, parts: seq<Expr<A>>): Expr<A> {
    if |parts| == 1 then parts[0] else if conj then And(parts) else Or(parts)
  }

  // --------------------------------------------------- the reader: NOT binds before AND, AND before OR

  /** What was read, and what is left of the text. */
  datatype Read<T, A> = Read(value: T, rest: seq<Token<A>>)

  function ReadOr<A>(ts: seq<Token<A>>): (r: Option<Read<Expr<A>, A>>)
    ensures r.Some? ==> |r.value.rest| < |ts|
    decreases |ts|, 4
  {
    match ReadOrs(ts)
    case None => None
    case Some(list) => Some(Read(Grouped(false, list.value), list.rest))
  }

  function ReadOrs<A>(ts: seq<Token<A>>): (r: Option<Read<seq<Expr<A>>, A>>)
    ensures r.Some? ==> |r.value.rest| < |ts|
    decreases |ts|, 3
  {
    match ReadAnds(ts)
    case None => None
    case Some(list) =>
      var first := Grouped(true, list.value);
      if list.rest != [] && list.rest[0].OrSign? then
        match ReadOrs(list.rest[1..])
        case None => None
        case Some(more) => Some(Read([first] + more.value, more.rest))
      else Some(Read([first], list.rest))
  }

  function ReadAnds<A>(ts: seq<Token<A>>): (r: Option<Read<seq<Expr<A>>, A>>)
    ensures r.Some? ==> |r.value.rest| < |ts|
    decreases |ts|, 2
  {
    match ReadNot(ts)
    case None => None
    case Some(first) =>
      if first.rest != [] && first.rest[0].AndSign? then
        match ReadAnds(first.rest[1..])
        case None => None
        case Some(more) => Some(Read([first.value] + more.value, more.rest))
      else Some(Read([first.value], first.rest))
  }

  function ReadNot<A>(ts: seq<Token<A>>): (r: Option<Read<Expr<A>, A>>)
    ensures r.Some? ==> |r.value.rest| < |ts|
    decreases |ts|, 1
  {
    if ts == [] then None
    else match ts[0]
      case NotSign =>
        (match ReadNot(ts[1..])
         case None => None
         case Some(inner) => Some(Read(Not(inner.value), inner.rest)))
      case Literal(b) => Some(Read(Known(b), ts[1..]))
      case Test(a) => Some(Read(Leaf(a), ts[1..]))
      case LP =>
        (match ReadOr(ts[1..])
         case None => None
         case Some(inner) =>
           if inner.rest != [] && inner.rest[0].RP? then Some(Read(inner.value, inner.rest[1..])) else None)
      case _ => None
  }

  /** The whole text, with nothing left over. */
  function Parse<A>(ts: seq<Token<A>>): Option<Expr<A>> {
    match ReadOr(ts)
    case Some(whole) => if whole.rest == [] then Some(whole.value) else None
    case None => None
  }

  /** A rest that cannot be read as a continuation. */
  predicate Closed<A>(rest: seq<Token<A>>) {
    rest == [] || rest[0].RP?
  }

  lemma JoinFirst<A>(parts: seq<Phrase<A>>, sep: Token<A>, rest: seq<Token<A>>)
    requires |parts| > 1
    ensures Join(PrintAll(parts), sep) + rest == Print(parts[0]) + ([sep] + (Join(PrintAll(parts[1..]), sep) + rest))
  {
    assert PrintAll(parts)[1..] == PrintAll(parts[1..]);
  }

  lemma MeantFirst<A>(parts: seq<Phrase<A>>)
    requires |parts| > 1
    ensures MeantAll(parts) == [Meant(parts[0])] + MeantAll(parts[1..])
  {
  }

  lemma {:induction false} ReadsBack<A>(p: Phrase<A>, rest: seq<Token<A>>)
    requires WellFormed(p)
    ensures ReadNot(Print(p) + rest) == Some(Read(Meant(p), rest))
    decreases p, 1
  {
    var ts := Print(p) + rest;
    match p {
      case Constant(b) => assert ts[1..] == rest;
      case Atom(a) => assert ts[1..] == rest;
      case Negation(q) =>
        assert ts[1..] == Print(q) + rest;
        ReadsBack(q, rest);
      case Group(conj, parts) =>
        var inner := Join(PrintAll(parts), Joiner(conj)) + ([RP] + rest);
        assert ts[1..] == inner;
        if conj {
          AndsReadBack(parts, [RP] + rest);
          assert ReadOrs(inner) == Some(Read([Meant(p)], [RP] + rest));
        } else {
          OrsReadBack(parts, [RP] + rest);
        }
        assert ReadOr(inner) == Some(Read(Meant(p), [RP] + rest));
        assert ([RP] + rest)[1..] == rest;
    }
  }

  lemma {:induction false} AndsReadBack<A>(parts: seq<Phrase<A>>, rest: seq<Token<A>>)
    requires parts != [] && forall i :: 0 <= i < |parts| ==> WellFormed(parts[i])
    requires Closed(rest)
    ensures ReadAnds(Join(PrintAll(parts), AndSign) + rest) == Some(Read(MeantAll(parts), rest))
    decreases parts, 0
  {
    hide Print, Meant, ReadNot, WellFormed;
    if |parts| == 1 {
      ReadsBack(parts[0], rest);
      assert MeantAll(parts) == [Meant(parts[0])];
      assert Join(PrintAll(parts), AndSign) == Print(parts[0]);
    } else {
      var more := Join(PrintAll(parts[1..]), AndSign) + rest;
      JoinFirst(parts, AndSign, rest);
      ReadsBack(parts[0], [AndSign] + more);
      assert ([AndSign] + more)[1..] == more;
      AndsReadBack(parts[1..], rest);
      MeantFirst(parts);
    }
  }

  /** One part of an OR, seen by the reader of ANDs. */
  lemma {:induction false} OnePart<A>(p: Phrase<A>, rest: seq<Token<A>>)
    requires WellFormed(p) && (rest == [] || !rest[0].AndSign?)
    ensures ReadAnds(Print(p) + rest) == Some(Read([Meant(p)], rest))
    decreases p, 2
  {
    ReadsBack(p, rest);
  }

  lemma {:induction false} OrsReadBack<A>(parts: seq<Phrase<A>>, rest: seq<Token<A>>)
    requires parts != [] && forall i :: 0 <= i < |parts| ==> WellFormed(parts[i])
    requires Closed(rest)
    ensures ReadOrs(Join(PrintAll(parts), OrSign) + rest) == Some(Read(MeantAll(parts), rest))
    decreases parts, 0
  {
    hide Print, Meant, ReadAnds, WellFormed;
    if |parts| == 1 {
      OnePart(parts[0], rest);
      assert MeantAll(parts) == [Meant(parts[0])];
      assert Join(PrintAll(parts), OrSign) == Print(parts[0]);
    } else {
      var more := Join(PrintAll(parts[1..]), OrSign) + rest;
      JoinFirst(parts, OrSign, rest);
      OnePart(parts[0], [OrSign] + more);
      assert ([OrSign] + more)[1..] == more;
      OrsReadBack(parts[1..], rest);
      MeantFirst(parts);
    }
  }

  /** Read back under NOT before AND before OR, the text says what it was meant to say. */
  lemma ParsesAsMeant<A>(p: Phrase<A>)
    requires WellFormed(p)
    ensures Parse(Print(p)) == Some(Meant(p))
  {
    assert Print(p) + [] == Print(p);
    OnePart(p, []);
    assert ReadOrs(Print(p)) == Some(Read([Meant(p)], []));
  }
}
