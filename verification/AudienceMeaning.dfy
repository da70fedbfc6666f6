/** The compiled predicate answers what the rule asks. */
module AudienceMeaning {
  import opened Prelude
  import opened Audience
  import opened LikePattern
  import opened AudienceCompiler
  import SqlText

  /** The rule's own parameters stand at the placeholders after `base`. */
  predicate Holds(params: seq<Param>, base: nat, own: seq<Param>) {
    base + |own| <= |params| && params[base..base + |own|] == own
  }

  function SourceOf(f: Field, base: nat): Source {
    match f
    case Plain(c) => Of(c)
    case Attribute(_) => Stored(base + 1)
  }

  /** Where the value of a leaf is bound, past the key of an attribute. */
  function Slot(f: Field, base: nat): nat {
    if f.Attribute? then base + 2 else base + 1
  }

  function FieldShapeOf(f: Field): FieldShape {
    match f
    case Plain(c) => Listed(c)
    case Attribute(_) => SomeAttribute
  }

  lemma ItsOwnPlaceholders(w: World, params: seq<Param>, base: nat, f: Field, own: seq<Param>, c: Contact)
    requires Holds(params, base, KeyParams(f) + own) && |own| <= 1
    ensures !KindOf(f).TagsKind? ==> SourceValue(w, params, SourceOf(f, base), c) == ValueOf(w, f, c)
    ensures own != [] ==> Bound(params, Slot(f, base)) == Some(own[0])
    ensures f.Attribute? ==> KeyOf(params, base + 1) == Some(f.key)
  {
    var all := KeyParams(f) + own;
    assert forall i {:trigger all[i]} :: 0 <= i < |all| ==> params[base + i] == params[base..base + |all|][i];
    if f.Attribute? {
      assert all[0] == PText(f.key);
    }
    if own != [] {
      assert all[|all| - 1] == own[0];
    }
  }

  lemma TwoParts(w: World, params: seq<Param>, conj: bool, a: Phrase, b: Phrase, c: Contact)
    ensures
      var l, r := Eval(w, params, SqlText.Meant(a), c), Eval(w, params, SqlText.Meant(b), c);
      Eval(w, params, SqlText.Meant(SqlText.Group(conj, [a, b])), c) == if conj then Both(l, r) else Either(l, r)
  {
    var x, y := SqlText.Meant(a), SqlText.Meant(b);
    assert SqlText.MeantAll([a, b]) == [x, y];
    assert SqlText.Meant(SqlText.Group(conj, [a, b])) == if conj then SqlText.And([x, y]) else SqlText.Or([x, y]);
    hide SqlText.Meant;
    EvalTwo(w, params, x, y, c);
  }

  lemma EvalTwo(w: World, params: seq<Param>, x: Expr, y: Expr, c: Contact)
    ensures EvalAnd(w, params, [x, y], c) == Both(Eval(w, params, x, c), Eval(w, params, y, c))
    ensures EvalOr(w, params, [x, y], c) == Either(Eval(w, params, x, c), Eval(w, params, y, c))
  {
    assert [x, y][1..] == [y] && [y][1..] == [];
    assert EvalAnd(w, params, [y], c) == Both(Eval(w, params, y, c), True);
    assert EvalOr(w, params, [y], c) == Either(Eval(w, params, y, c), False);
  }

  lemma OnePartOnly(w: World, params: seq<Param>, a: Atom, c: Contact)
    ensures Eval(w, params, SqlText.Meant(One(a)), c) == EvalAtom(w, params, a, c)
  {
    assert SqlText.MeantAll([SqlText.Atom(a)]) == [SqlText.Leaf(a)];
  }

  function EvalPhrase(w: World, params: seq<Param>, p: Phrase, c: Contact): Truth {
    Eval(w, params, SqlText.Meant(p), c)
  }

  lemma OrNullIs(w: World, params: seq<Param>, e: Source, q: Phrase, c: Contact)
    ensures EvalPhrase(w, params, OrNull(e, q), c) ==
            if SourceValue(w, params, e, c).Null? then True else Either(False, EvalPhrase(w, params, q, c))
  {
    TwoParts(w, params, false, SqlText.Atom(IsNull(e)), q, c);
  }

  lemma PresenceMeans(w: World, now: real, f: Field, leaf: Leaf, c: Contact, params: seq<Param>, base: nat)
    requires Resolve(leaf.field) == Some(f) && LeafOk(w, leaf) && (leaf.op.IsSet? || leaf.op.IsNotSet?)
    requires Holds(params, base, KeyParams(f))
    ensures EvalPhrase(w, params, LeafPhrase(FieldShapeOf(f), leaf.op, false, base), c) == LeafReading(w, now, leaf, c)
  {
    assert KeyParams(f) + [] == KeyParams(f);
    ItsOwnPlaceholders(w, params, base, f, [], c);
  }

  lemma AgeMeans(w: World, now: real, f: Field, leaf: Leaf, c: Contact, params: seq<Param>, base: nat)
    requires Resolve(leaf.field) == Some(f) && LeafOk(w, leaf) && (leaf.op.WithinDays? || leaf.op.NotWithinDays?)
    requires Holds(params, base, LeafParams(w, now, leaf))
    ensures EvalPhrase(w, params, LeafPhrase(FieldShapeOf(f), leaf.op, true, base), c) == LeafReading(w, now, leaf, c)
  {
    hide *;
    AgeParts(w, now, f, leaf, c, base);
    var e, p, since := SourceOf(f, base), Slot(f, base), Time(Since(now, leaf.value.value.n));
    ItsOwnPlaceholders(w, params, base, f, [PTime(Since(now, leaf.value.value.n))], c);
    AgeCompares(w, params, e, p, Since(now, leaf.value.value.n), c);
    AtomIs(w, params, Comparison(e, AtLeast, p, false), c);
    AtomIs(w, params, Comparison(e, Less, p, false), c);
    OrNullIs(w, params, e, SqlText.Atom(Comparison(e, Less, p, false)), c);
  }

  /** The pieces of an age test: its parameters, its text and its reading. */
  lemma AgeParts(w: World, now: real, f: Field, leaf: Leaf, c: Contact, base: nat)
    requires Resolve(leaf.field) == Some(f) && LeafOk(w, leaf) && (leaf.op.WithinDays? || leaf.op.NotWithinDays?)
    ensures leaf.value.Some? && leaf.value.value.VNumber? && !KindOf(f).TagsKind? && SourceOf(f, base) != Of(Email)
    ensures ValueOf(w, f, c).Null? || ValueOf(w, f, c).Time?
    ensures LeafParams(w, now, leaf) == KeyParams(f) + [PTime(Since(now, leaf.value.value.n))]
    ensures
      var e, p := SourceOf(f, base), Slot(f, base);
      LeafPhrase(FieldShapeOf(f), leaf.op, true, base) ==
      if leaf.op.WithinDays? then SqlText.Atom(Comparison(e, AtLeast, p, false))
      else OrNull(e, SqlText.Atom(Comparison(e, Less, p, false)))
    ensures
      var value, since := ValueOf(w, f, c), Since(now, leaf.value.value.n);
      LeafReading(w, now, leaf, c) ==
      if value.Null? then (if leaf.op.WithinDays? then Unknown else True)
      else Know((value.t >= since) == leaf.op.WithinDays?)
  {
    ValueKinds(w, f, c);
    hide Since, ValueOf;
  }

  lemma AgeCompares(w: World, params: seq<Param>, e: Source, p: nat, since: real, c: Contact)
    requires Bound(params, p) == Some(PTime(since)) && e != Of(Email)
    ensures
      var value := SourceValue(w, params, e, c);
      && (value.Null? ==> EvalAtom(w, params, Comparison(e, AtLeast, p, false), c) == Unknown)
      && (value.Time? ==>
            && EvalAtom(w, params, Comparison(e, AtLeast, p, false), c) == Know(value.t >= since)
            && Either(False, EvalAtom(w, params, Comparison(e, Less, p, false), c)) == Know(!(value.t >= since)))
  {
    hide SourceValue;
  }

  lemma ContainsMeans(w: World, now: real, f: Field, leaf: Leaf, c: Contact, params: seq<Param>, base: nat, numeric: bool)
    requires Resolve(leaf.field) == Some(f) && LeafOk(w, leaf) && (leaf.op.Contains? || leaf.op.NotContains?)
    requires Holds(params, base, LeafParams(w, now, leaf))
    ensures EvalPhrase(w, params, LeafPhrase(FieldShapeOf(f), leaf.op, numeric, base), c) == LeafReading(w, now, leaf, c)
  {
    hide EvalPhrase, LeafPhrase, LeafReading, Holds, LeafParams, LeafOk;
    if KindOf(f).TagsKind? {
      TagContainsMeans(w, now, f, leaf, c, params, base, numeric);
    } else {
      TextContainsMeans(w, now, f, leaf, c, params, base, numeric);
    }
  }

  /** The pieces of a substring test on tags. */
  lemma TagContainsParts(w: World, now: real, f: Field, leaf: Leaf, c: Contact, base: nat, numeric: bool)
    requires Resolve(leaf.field) == Some(f) && LeafOk(w, leaf) && (leaf.op.Contains? || leaf.op.NotContains?)
    requires KindOf(f).TagsKind?
    ensures leaf.value.Some?
    ensures LeafParams(w, now, leaf) == KeyParams(f) + [PTexts([TextOf(w, leaf.value.value)])]
    ensures
      var a := TagsContain(Slot(f, base));
      LeafPhrase(FieldShapeOf(f), leaf.op, numeric, base) ==
      if leaf.op.Contains? then SqlText.Atom(a) else SqlText.Negation(One(a))
    ensures LeafReading(w, now, leaf, c) == Know((TextOf(w, leaf.value.value) in c.tags) == leaf.op.Contains?)
  {
    hide TextOf;
  }

  lemma HoldsTag(w: World, params: seq<Param>, p: nat, wanted: string, c: Contact)
    requires Bound(params, p) == Some(PTexts([wanted]))
    ensures EvalAtom(w, params, TagsContain(p), c) == Know(wanted in c.tags)
  {
    assert [wanted][0] == wanted;
  }

  lemma TagContainsMeans(w: World, now: real, f: Field, leaf: Leaf, c: Contact, params: seq<Param>, base: nat, numeric: bool)
    requires Resolve(leaf.field) == Some(f) && LeafOk(w, leaf) && (leaf.op.Contains? || leaf.op.NotContains?)
    requires KindOf(f).TagsKind? && Holds(params, base, LeafParams(w, now, leaf))
    ensures EvalPhrase(w, params, LeafPhrase(FieldShapeOf(f), leaf.op, numeric, base), c) == LeafReading(w, now, leaf, c)
  {
    hide *;
    TagContainsParts(w, now, f, leaf, c, base, numeric);
    var wanted, a := TextOf(w, leaf.value.value), TagsContain(Slot(f, base));
    ItsOwnPlaceholders(w, params, base, f, [PTexts([wanted])], c);
    HoldsTag(w, params, Slot(f, base), wanted, c);
    OnePartOnly(w, params, a, c);
    AtomIs(w, params, a, c);
    DeniedIs(w, params, a, c);
    KnownDenied(wanted in c.tags);
  }

  lemma TextContainsMeans(w: World, now: real, f: Field, leaf: Leaf, c: Contact, params: seq<Param>, base: nat,
                          numeric: bool)
    requires Resolve(leaf.field) == Some(f) && LeafOk(w, leaf) && (leaf.op.Contains? || leaf.op.NotContains?)
    requires !KindOf(f).TagsKind? && Holds(params, base, LeafParams(w, now, leaf))
    ensures EvalPhrase(w, params, LeafPhrase(FieldShapeOf(f), leaf.op, numeric, base), c) == LeafReading(w, now, leaf, c)
  {
    hide *;
    ContainsParts(w, now, f, leaf, c, base, numeric);
    var e, p, wanted, value := SourceOf(f, base), Slot(f, base), TextOf(w, leaf.value.value), ValueOf(w, f, c);
    ItsOwnPlaceholders(w, params, base, f, [PText(Pattern(wanted))], c);
    if value.Text? {
      PatternIsSubstring(w, wanted, value.s);
    }
    LikeIs(w, params, e, p, Pattern(wanted), c);
    AtomIs(w, params, ILike(e, p), c);
    AtomIs(w, params, NotILike(e, p), c);
    OrNullIs(w, params, e, SqlText.Atom(NotILike(e, p)), c);
  }

  /** The pieces of a substring test: its parameters, its text and its reading. */
  lemma ContainsParts(w: World, now: real, f: Field, leaf: Leaf, c: Contact, base: nat, numeric: bool)
    requires Resolve(leaf.field) == Some(f) && LeafOk(w, leaf) && (leaf.op.Contains? || leaf.op.NotContains?)
    requires !KindOf(f).TagsKind?
    ensures leaf.value.Some? && (ValueOf(w, f, c).Null? || ValueOf(w, f, c).Text?)
    ensures LeafParams(w, now, leaf) == KeyParams(f) + [PText(Pattern(TextOf(w, leaf.value.value)))]
    ensures
      var e, p := SourceOf(f, base), Slot(f, base);
      LeafPhrase(FieldShapeOf(f), leaf.op, numeric, base) ==
      if leaf.op.Contains? then SqlText.Atom(ILike(e, p)) else OrNull(e, SqlText.Atom(NotILike(e, p)))
    ensures
      var value := ValueOf(w, f, c);
      LeafReading(w, now, leaf, c) ==
      if value.Null? then (if leaf.op.Contains? then Unknown else True)
      else Know(Within(w, TextOf(w, leaf.value.value), value.s) == leaf.op.Contains?)
  {
    ValueKinds(w, f, c);
    hide Pattern, Within, TextOf, ValueOf;
  }

  lemma LikeIs(w: World, params: seq<Param>, e: Source, p: nat, pattern: string, c: Contact)
    requires Bound(params, p) == Some(PText(pattern))
    ensures
      var value := SourceValue(w, params, e, c);
      && (value.Text? ==> EvalAtom(w, params, ILike(e, p), c) == Know(Like(w, pattern, value.s)))
      && (value.Text? ==> Either(False, EvalAtom(w, params, NotILike(e, p), c)) == Know(!Like(w, pattern, value.s)))
      && (value.Null? ==> EvalAtom(w, params, ILike(e, p), c) == Unknown)
  {
    hide SourceValue, Like;
  }

  /** The pieces of a list test on tags. */
  lemma TagListParts(w: World, now: real, f: Field, leaf: Leaf, c: Contact, base: nat)
    requires Resolve(leaf.field) == Some(f) && LeafOk(w, leaf) && (leaf.op.In? || leaf.op.NotIn?) && KindOf(f).TagsKind?
    ensures leaf.value.Some? && leaf.value.value.VList?
    ensures LeafParams(w, now, leaf) == KeyParams(f) + [PTexts(Texts(w, leaf.value.value.items))]
    ensures
      var a := TagsOverlap(Slot(f, base));
      LeafPhrase(FieldShapeOf(f), leaf.op, false, base) == if leaf.op.In? then SqlText.Atom(a) else SqlText.Negation(One(a))
    ensures
      var items := leaf.value.value.items;
      var shared := exists i :: 0 <= i < |items| && ItemTextOf(w, items[i]) in c.tags;
      LeafReading(w, now, leaf, c) == Know(shared == leaf.op.In?)
  {
    hide Texts, ItemTextOf;
  }

  lemma OverlapIs(w: World, params: seq<Param>, p: nat, items: seq<Item>, c: Contact)
    requires Bound(params, p) == Some(PTexts(Texts(w, items)))
    ensures EvalAtom(w, params, TagsOverlap(p), c) ==
            Know(exists i :: 0 <= i < |items| && ItemTextOf(w, items[i]) in c.tags)
  {
    var ss := Texts(w, items);
    assert forall i :: 0 <= i < |items| ==> ss[i] == ItemTextOf(w, items[i]);
    hide Texts, ItemTextOf;
  }

  lemma KnownDenied(b: bool)
    ensures Negate(Know(b)) == Know(b == false) && Know(b) == Know(b == true)
  {
  }

  lemma TagListMeans(w: World, now: real, f: Field, leaf: Leaf, c: Contact, params: seq<Param>, base: nat)
    requires Resolve(leaf.field) == Some(f) && LeafOk(w, leaf) && (leaf.op.In? || leaf.op.NotIn?) && KindOf(f).TagsKind?
    requires Holds(params, base, LeafParams(w, now, leaf))
    ensures EvalPhrase(w, params, LeafPhrase(FieldShapeOf(f), leaf.op, false, base), c) == LeafReading(w, now, leaf, c)
  {
    hide *;
    TagListParts(w, now, f, leaf, c, base);
    var items, a := leaf.value.value.items, TagsOverlap(Slot(f, base));
    ItsOwnPlaceholders(w, params, base, f, [PTexts(Texts(w, items))], c);
    OverlapIs(w, params, Slot(f, base), items, c);
    OnePartOnly(w, params, a, c);
    AtomIs(w, params, a, c);
    DeniedIs(w, params, a, c);
    KnownDenied(exists i :: 0 <= i < |items| && ItemTextOf(w, items[i]) in c.tags);
  }

  lemma ListMeans(w: World, now: real, f: Field, leaf: Leaf, c: Contact, params: seq<Param>, base: nat)
    requires Resolve(leaf.field) == Some(f) && LeafOk(w, leaf) && (leaf.op.In? || leaf.op.NotIn?)
    requires !KindOf(f).TagsKind?
    requires Holds(params, base, LeafParams(w, now, leaf))
    ensures EvalPhrase(w, params, LeafPhrase(FieldShapeOf(f), leaf.op, false, base), c) == LeafReading(w, now, leaf, c)
  {
    hide *;
    ListParts(w, now, f, leaf, c, base);
    var items := leaf.value.value.items;
    var e, p, asTime := SourceOf(f, base), Slot(f, base), KindOf(f).TimestampKind?;
    var a := EqualsAny(e, p, asTime);
    ItsOwnPlaceholders(w, params, base, f, [ListParam(w, KindOf(f), items)], c);
    ValueKinds(w, f, c);
    AmongMeans(w, KindOf(f), items, ValueOf(w, f, c));
    EqualsAnyIs(w, params, e, p, asTime, c);
    OnePartOnly(w, params, a, c);
    AtomIs(w, params, a, c);
    DeniedIs(w, params, a, c);
    OrNullIs(w, params, e, SqlText.Negation(One(a)), c);
    NullIsUnlisted(w, items, ValueOf(w, f, c));
    DenialOf(AmongItems(w, items, ValueOf(w, f, c)));
  }

  /** The pieces of a list test: its parameters, its text and its reading. */
  lemma ListParts(w: World, now: real, f: Field, leaf: Leaf, c: Contact, base: nat)
    requires Resolve(leaf.field) == Some(f) && LeafOk(w, leaf) && (leaf.op.In? || leaf.op.NotIn?)
    requires !KindOf(f).TagsKind?
    ensures leaf.value.Some? && leaf.value.value.VList? && ListFor(KindOf(f), leaf.value)
    ensures KindOf(f).NumberKind? ==> forall x :: x in leaf.value.value.items ==> x.ItemNumber?
    ensures LeafParams(w, now, leaf) == KeyParams(f) + [ListParam(w, KindOf(f), leaf.value.value.items)]
    ensures
      var e, a := SourceOf(f, base), EqualsAny(SourceOf(f, base), Slot(f, base), KindOf(f).TimestampKind?);
      LeafPhrase(FieldShapeOf(f), leaf.op, false, base) ==
      if leaf.op.In? then SqlText.Atom(a) else OrNull(e, SqlText.Negation(One(a)))
    ensures
      var t := AmongItems(w, leaf.value.value.items, ValueOf(w, f, c));
      LeafReading(w, now, leaf, c) == if leaf.op.In? then t else Know(t != True)
  {
    hide ListParam, AmongItems, ValueOf;
  }

  lemma EqualsAnyIs(w: World, params: seq<Param>, e: Source, p: nat, asTime: bool, c: Contact)
    ensures EvalAtom(w, params, EqualsAny(e, p, asTime), c) ==
            AmongThese(w, SourceValue(w, params, e, c), Bound(params, p), asTime)
  {
  }

  lemma DeniedIs(w: World, params: seq<Param>, a: Atom, c: Contact)
    ensures EvalPhrase(w, params, SqlText.Negation(One(a)), c) == Negate(Eval(w, params, SqlText.Meant(One(a)), c))
  {
    hide One, EvalAtom;
  }

  lemma DenialOf(t: Truth)
    ensures t != Abort && t != Unknown ==> Either(False, Negate(t)) == Know(t != True)
    ensures Know(Unknown != True) == True
  {
  }

  lemma NullIsUnlisted(w: World, items: seq<Item>, value: Sql)
    ensures value.Null? <==> AmongItems(w, items, value) == Unknown
    ensures value.Unusable? <==> AmongItems(w, items, value) == Abort
  {
  }

  /** `= ANY` over the bound list asks whether the value is one of the items. */
  lemma AmongMeans(w: World, kind: Kind, items: seq<Item>, value: Sql)
    requires ListFor(kind, Some(VList(items))) && !kind.TagsKind?
    requires match value case Number(_) => kind.NumberKind? case Time(_) => kind.TimestampKind?
                         case Text(_) => kind.TextKind? || kind.AttributeKind? case Null => true case Unusable => false
    ensures AmongThese(w, value, Some(ListParam(w, kind, items)), kind.TimestampKind?) == AmongItems(w, items, value)
  {
    match value {
      case Null =>
      case Unusable =>
      case Number(n) =>
        var ns := ListParam(w, kind, items).ns;
        assert n in ns <==> exists i :: 0 <= i < |items| && items[i] == ItemNumber(n) by {
          if i :| 0 <= i < |items| && items[i] == ItemNumber(n) {
            assert ns[i] == n;
          }
          if n in ns {
            var i :| 0 <= i < |ns| && ns[i] == n;
            assert items[i] in items && items[i] == ItemNumber(n);
          }
        }
      case Text(s) =>
        var ss := Texts(w, items);
        assert forall i :: 0 <= i < |items| ==> ss[i] == ItemTextOf(w, items[i]);
      case Time(t) =>
        var ss := Texts(w, items);
        assert forall i :: 0 <= i < |items| ==> ss[i] == ItemTextOf(w, items[i]);
    }
  }

  lemma ValueKinds(w: World, f: Field, c: Contact)
    requires !KindOf(f).TagsKind?
    ensures match ValueOf(w, f, c) case Number(_) => KindOf(f).NumberKind? case Time(_) => KindOf(f).TimestampKind?
                                   case Text(_) => KindOf(f).TextKind? || KindOf(f).AttributeKind?
                                   case Null => true case Unusable => false
  {
  }

  /** A value and an operand of its kind can be compared: only a missing value leaves the answer open. */
  lemma ComparesFully(w: World, anyCase: bool, rel: Rel, f: Field, c: Contact, v: Value)
    requires Comparable(w, KindOf(f), Some(v))
    ensures
      var t := Compare(w, anyCase, rel, ValueOf(w, f, c), Wanted(w, KindOf(f), v));
      && t != Abort
      && (t == Unknown <==> ValueOf(w, f, c).Null?)
      && !Wanted(w, KindOf(f), v).Null?
  {
    ValueKinds(w, f, c);
    hide ValueOf, TextRel, RealRel, Folded;
  }

  lemma LeafPhraseOf(f: Field, op: Operator, numeric: bool, base: nat)
    ensures
      var e, p, asTime := SourceOf(f, base), Slot(f, base), KindOf(f).TimestampKind?;
      && (op.Eq? ==> LeafPhrase(FieldShapeOf(f), op, numeric, base) == SqlText.Atom(Comparison(e, Equal, p, asTime)))
      && (op.Neq? ==> LeafPhrase(FieldShapeOf(f), op, numeric, base) == SqlText.Atom(DistinctFrom(e, p, asTime)))
      && (Ordering(op) && !(f.Attribute? && numeric) ==>
            LeafPhrase(FieldShapeOf(f), op, numeric, base) == SqlText.Atom(Comparison(e, RelOf(op), p, asTime)))
      && (Ordering(op) && f.Attribute? && numeric ==>
            LeafPhrase(FieldShapeOf(f), op, numeric, base) ==
            NumericPhrase(base + 1, RelOf(op), p))
  {
  }

  lemma AtomIs(w: World, params: seq<Param>, a: Atom, c: Contact)
    ensures EvalPhrase(w, params, SqlText.Atom(a), c) == EvalAtom(w, params, a, c)
  {
  }

  /** The value's own placeholder, cast as the column asks, is the operand wanted. */
  lemma OperandIsWanted(w: World, params: seq<Param>, base: nat, f: Field, asNumber: bool, v: Value, c: Contact)
    requires Comparable(w, KindOf(f), Some(v)) && asNumber == KindOf(f).NumberKind?
    requires Holds(params, base, KeyParams(f) + [SingleParam(w, asNumber, v)])
    ensures SourceValue(w, params, SourceOf(f, base), c) == ValueOf(w, f, c)
    ensures Operand(w, params, Slot(f, base), KindOf(f).TimestampKind?) == Wanted(w, KindOf(f), v)
  {
    ItsOwnPlaceholders(w, params, base, f, [SingleParam(w, asNumber, v)], c);
    hide Holds, ValueOf, SourceValue, SourceOf, Slot;
  }

  lemma EqualityMeans(w: World, now: real, f: Field, leaf: Leaf, c: Contact, params: seq<Param>, base: nat)
    requires Resolve(leaf.field) == Some(f) && LeafOk(w, leaf) && (leaf.op.Eq? || leaf.op.Neq?)
    requires Holds(params, base, LeafParams(w, now, leaf))
    ensures EvalPhrase(w, params, LeafPhrase(FieldShapeOf(f), leaf.op, leaf.value.value.VNumber?, base), c)
            == LeafReading(w, now, leaf, c)
  {
    var v := leaf.value.value;
    assert LeafParams(w, now, leaf) == KeyParams(f) + [SingleParam(w, KindOf(f).NumberKind?, v)];
    OperandIsWanted(w, params, base, f, KindOf(f).NumberKind?, v, c);
    ComparesFully(w, f == Plain(Email), Equal, f, c, v);
    LeafPhraseOf(f, leaf.op, v.VNumber?, base);
    var e, p, asTime := SourceOf(f, base), Slot(f, base), KindOf(f).TimestampKind?;
    AtomIs(w, params, if leaf.op.Eq? then Comparison(e, Equal, p, asTime) else DistinctFrom(e, p, asTime), c);
    hide Holds, EvalPhrase, LeafPhrase, Compare, ValueOf, SourceValue, Wanted, Operand, OperandOk, LeafParams;
  }

  lemma OrderMeans(w: World, now: real, f: Field, leaf: Leaf, c: Contact, params: seq<Param>, base: nat)
    requires Resolve(leaf.field) == Some(f) && LeafOk(w, leaf) && Ordering(leaf.op)
    requires Holds(params, base, LeafParams(w, now, leaf))
    ensures EvalPhrase(w, params, LeafPhrase(FieldShapeOf(f), leaf.op, leaf.value.value.VNumber?, base), c)
            == LeafReading(w, now, leaf, c)
  {
    var kind, v := KindOf(f), leaf.value.value;
    var asNumber := kind.NumberKind? || (kind.AttributeKind? && v.VNumber?);
    var own := SingleParam(w, asNumber, v);
    assert LeafParams(w, now, leaf) == KeyParams(f) + [own];
    assert LeafReading(w, now, leaf, c) == Orders(w, f, RelOf(leaf.op), v, c);
    LeafPhraseOf(f, leaf.op, v.VNumber?, base);
    var e, p, key, rel := SourceOf(f, base), Slot(f, base), base + 1, RelOf(leaf.op);
    hide LeafReading, LeafParams, LeafPhrase, Holds, EvalPhrase, OperandOk;
    if f.Attribute? && v.VNumber? {
      ItsOwnPlaceholders(w, params, base, f, [own], c);
      NumericMeans(w, params, c, key, f.key, rel, p, v.n);
    } else {
      OperandIsWanted(w, params, base, f, asNumber, v, c);
      AtomIs(w, params, Comparison(e, rel, p, kind.TimestampKind?), c);
    }
  }

  lemma NumericMeans(w: World, params: seq<Param>, c: Contact, key: nat, name: string, rel: Rel, p: nat, n: real)
    requires KeyOf(params, key) == Some(name) && Bound(params, p) == Some(PNumber(n))
    ensures EvalPhrase(w, params, NumericPhrase(key, rel, p), c)
            == NumberInAttribute(c, name, rel, n)
  {
    TwoParts(w, params, true, SqlText.Atom(TypeIsNumber(key)), SqlText.Atom(NumericComparison(key, rel, p)), c);
    GuardedCast(w, params, c, key, name, rel, p, n);
    hide EvalAtom, Both, NumberInAttribute;
  }

  /** The type test keeps the cast from ever meeting text that is no number. */
  lemma GuardedCast(w: World, params: seq<Param>, c: Contact, key: nat, name: string, rel: Rel, p: nat, n: real)
    requires KeyOf(params, key) == Some(name) && Bound(params, p) == Some(PNumber(n))
    ensures Both(EvalAtom(w, params, TypeIsNumber(key), c), EvalAtom(w, params, NumericComparison(key, rel, p), c))
            == NumberInAttribute(c, name, rel, n)
  {
  }

  lemma AnyListMeans(w: World, now: real, f: Field, leaf: Leaf, c: Contact, params: seq<Param>, base: nat)
    requires Resolve(leaf.field) == Some(f) && LeafOk(w, leaf) && (leaf.op.In? || leaf.op.NotIn?)
    requires Holds(params, base, LeafParams(w, now, leaf))
    ensures EvalPhrase(w, params, LeafPhrase(FieldShapeOf(f), leaf.op, false, base), c) == LeafReading(w, now, leaf, c)
  {
    hide EvalPhrase, LeafPhrase, LeafReading, Holds, LeafParams, LeafOk;
    if KindOf(f).TagsKind? {
      TagListMeans(w, now, f, leaf, c, params, base);
    } else {
      ListMeans(w, now, f, leaf, c, params, base);
    }
  }

  lemma LeafMeans(w: World, now: real, leaf: Leaf, c: Contact, params: seq<Param>, base: nat)
    requires LeafOk(w, leaf) && Holds(params, base, LeafParams(w, now, leaf))
    ensures EvalPhrase(w, params, RulePhrase(LeafShape(leaf), base), c) == LeafReading(w, now, leaf, c)
  {
    var f := Resolve(leaf.field).value;
    var numeric := leaf.value.Some? && leaf.value.value.VNumber?;
    assert RulePhrase(LeafShape(leaf), base) == LeafPhrase(FieldShapeOf(f), leaf.op, numeric, base);
    hide LeafPhrase, LeafReading, EvalPhrase, Holds;
    match leaf.op {
      case IsSet =>
        assert LeafParams(w, now, leaf) == KeyParams(f);
        PresenceMeans(w, now, f, leaf, c, params, base);
      case IsNotSet =>
        assert LeafParams(w, now, leaf) == KeyParams(f);
        PresenceMeans(w, now, f, leaf, c, params, base);
      case WithinDays => AgeMeans(w, now, f, leaf, c, params, base);
      case NotWithinDays => AgeMeans(w, now, f, leaf, c, params, base);
      case Contains => ContainsMeans(w, now, f, leaf, c, params, base, numeric);
      case NotContains => ContainsMeans(w, now, f, leaf, c, params, base, numeric);
      case In => AnyListMeans(w, now, f, leaf, c, params, base);
      case NotIn => AnyListMeans(w, now, f, leaf, c, params, base);
      case Eq => EqualityMeans(w, now, f, leaf, c, params, base);
      case Neq => EqualityMeans(w, now, f, leaf, c, params, base);
      case _ => OrderMeans(w, now, f, leaf, c, params, base);
    }
  }

  // ------------------------------------------------------------------------- whole rules

  lemma HoldsSplit(params: seq<Param>, base: nat, a: seq<Param>, b: seq<Param>)
    requires Holds(params, base, a + b)
    ensures Holds(params, base, a) && Holds(params, base + |a|, b)
  {
    assert params[base..base + |a|] == (a + b)[..|a|];
    assert params[base + |a|..base + |a| + |b|] == (a + b)[|a|..];
  }

  lemma {:induction false} AndIsEvery(w: World, params: seq<Param>, es: seq<Expr>, ts: seq<Truth>, c: Contact)
    requires |es| == |ts| && Abort !in ts
    requires forall i :: 0 <= i < |es| ==> Eval(w, params, es[i], c) == ts[i]
    ensures EvalAnd(w, params, es, c) == Every(ts)
  {
    if es != [] {
      AndIsEvery(w, params, es[1..], ts[1..], c);
      assert ts == [ts[0]] + ts[1..];
    }
  }

  lemma {:induction false} OrIsAny(w: World, params: seq<Param>, es: seq<Expr>, ts: seq<Truth>, c: Contact)
    requires |es| == |ts| && Abort !in ts
    requires forall i :: 0 <= i < |es| ==> Eval(w, params, es[i], c) == ts[i]
    ensures EvalOr(w, params, es, c) == Any(ts)
  {
    if es != [] {
      OrIsAny(w, params, es[1..], ts[1..], c);
      assert ts == [ts[0]] + ts[1..];
    }
  }

  /** Each phrase answers what is read. */
  predicate Agrees(w: World, params: seq<Param>, ps: seq<Phrase>, ts: seq<Truth>, c: Contact) {
    && |ps| == |ts| && Abort !in ts
    && forall i :: 0 <= i < |ps| ==> EvalPhrase(w, params, ps[i], c) == ts[i]
  }

  lemma AgreesStep(w: World, params: seq<Param>, ps: seq<Phrase>, ts: seq<Truth>, c: Contact, p: Phrase, t: Truth)
    requires Agrees(w, params, ps, ts, c) && EvalPhrase(w, params, p, c) == t != Abort
    ensures Agrees(w, params, ps + [p], ts + [t], c)
  {
    hide EvalPhrase;
  }

  lemma GroupMeans(w: World, params: seq<Param>, conj: bool, ps: seq<Phrase>, ts: seq<Truth>, c: Contact)
    requires Agrees(w, params, ps, ts, c)
    ensures EvalPhrase(w, params, GroupPhrase(conj, ps), c) == if conj then Every(ts) else Any(ts)
  {
    var es := SqlText.MeantAll(ps);
    if |ps| == 1 {
      assert ts == [ts[0]];
    } else if conj {
      AndIsEvery(w, params, es, ts, c);
    } else {
      OrIsAny(w, params, es, ts, c);
    }
  }

  lemma {:induction false} RuleMeans(w: World, now: real, r: Rule, c: Contact, params: seq<Param>, base: nat)
    requires RuleOk(w, r) && Holds(params, base, RuleParams(w, now, r))
    ensures EvalPhrase(w, params, RulePhrase(ShapeOf(w, r), base), c) == Reading(w, now, r, c)
    decreases r, 1
  {
    hide EvalPhrase, Holds, LeafOk, LeafReading, LeafParams, LeafPhrase;
    if r.Test? {
      LeafMeans(w, now, r.leaf, c, params, base);
    } else {
      assert RulesOk(w, r.rules);
      RulesMean(w, now, r.rules, c, params, base);
      var ps, ts := RulePhrases(ShapesOf(w, r.rules), base), Readings(w, now, r.rules, c);
      GroupMeans(w, params, r.AllOf?, ps, ts, c);
      NegationMeans(w, params, GroupPhrase(false, ps), c);
    }
  }

  lemma NegationMeans(w: World, params: seq<Param>, p: Phrase, c: Contact)
    ensures EvalPhrase(w, params, SqlText.Negation(p), c) == Negate(EvalPhrase(w, params, p, c))
  {
  }

  lemma {:induction false} RulesMean(w: World, now: real, rs: seq<Rule>, c: Contact, params: seq<Param>, base: nat)
    requires RulesOk(w, rs) && Holds(params, base, RulesParams(w, now, rs))
    ensures Agrees(w, params, RulePhrases(ShapesOf(w, rs), base), Readings(w, now, rs, c), c)
    decreases rs, 0
  {
    hide *;
    if rs == [] {
      NothingAgrees(w, now, rs, c, params, base);
    } else {
      var n := |rs| - 1;
      var front, last := rs[..n], rs[n];
      RulesSplit(w, rs);
      ParamsSplit(w, now, rs);
      PhrasesSplit(w, rs, base);
      ReadingsSplit(w, now, rs, c);
      var there := base + BindsAll(ShapesOf(w, front));
      HoldsSplit(params, base, RulesParams(w, now, front), RuleParams(w, now, last));
      RulesMean(w, now, front, c, params, base);
      RuleMeans(w, now, last, c, params, there);
      NeverAborts(w, now, last, c);
      AgreesStep(w, params, RulePhrases(ShapesOf(w, front), base), Readings(w, now, front, c), c,
                 RulePhrase(ShapeOf(w, last), there), Reading(w, now, last, c));
    }
  }

  lemma NothingAgrees(w: World, now: real, rs: seq<Rule>, c: Contact, params: seq<Param>, base: nat)
    requires rs == []
    ensures RulesOk(w, rs) && Agrees(w, params, RulePhrases(ShapesOf(w, rs), base), Readings(w, now, rs, c), c)
  {
  }

  lemma RulesSplit(w: World, rs: seq<Rule>)
    requires RulesOk(w, rs) && rs != []
    ensures RulesOk(w, rs[..|rs| - 1]) && RuleOk(w, rs[|rs| - 1])
  {
  }

  lemma ParamsSplit(w: World, now: real, rs: seq<Rule>)
    requires RulesOk(w, rs) && rs != []
    ensures RulesParams(w, now, rs) == RulesParams(w, now, rs[..|rs| - 1]) + RuleParams(w, now, rs[|rs| - 1])
  {
  }

  lemma PhrasesSplit(w: World, rs: seq<Rule>, base: nat)
    requires RulesOk(w, rs) && rs != []
    ensures
      var front := ShapesOf(w, rs[..|rs| - 1]);
      RulePhrases(ShapesOf(w, rs), base) ==
      RulePhrases(front, base) + [RulePhrase(ShapeOf(w, rs[|rs| - 1]), base + BindsAll(front))]
  {
    hide RuleOk, ShapeOf, RulePhrase;
    assert ShapesOf(w, rs)[..|rs| - 1] == ShapesOf(w, rs[..|rs| - 1]);
  }

  lemma ReadingsSplit(w: World, now: real, rs: seq<Rule>, c: Contact)
    requires RulesOk(w, rs) && rs != []
    ensures Readings(w, now, rs, c) == Readings(w, now, rs[..|rs| - 1], c) + [Reading(w, now, rs[|rs| - 1], c)]
  {
    hide RuleOk, Reading;
  }

  // ------------------------------------------------------------------------- the shape

  lemma LeafWellFormed(field: FieldShape, op: Operator, numeric: bool, base: nat)
    ensures SqlText.WellFormed(LeafPhrase(field, op, numeric, base))
  {
    assert forall a :: SqlText.WellFormed(One(a));
  }

  lemma {:induction false} RuleWellFormed(s: Shape, base: nat)
    ensures SqlText.WellFormed(RulePhrase(s, base))
    decreases s, 1
  {
    match s {
      case Single(field, op, numeric) => LeafWellFormed(field, op, numeric, base);
      case Several(_, _, parts) => RulesWellFormed(parts, base);
    }
  }

  lemma {:induction false} RulesWellFormed(ss: seq<Shape>, base: nat)
    ensures forall i :: 0 <= i < |ss| ==> SqlText.WellFormed(RulePhrases(ss, base)[i])
    decreases ss, 0
  {
    if ss != [] {
      var n := |ss| - 1;
      RulesWellFormed(ss[..n], base);
      RuleWellFormed(ss[n], base + BindsAll(ss[..n]));
    }
  }

  /** The placeholders of a phrase. */
  function Slots(p: Phrase): set<nat>
    decreases p
  {
    match p
    case Constant(_) => {}
    case Atom(a) => AtomSlots(a)
    case Negation(q) => Slots(q)
    case Group(_, parts) => SlotsOfAll(parts)
  }

  function SlotsOfAll(ps: seq<Phrase>): set<nat>
    decreases ps
  {
    if ps == [] then {} else SlotsOfAll(ps[..|ps| - 1]) + Slots(ps[|ps| - 1])
  }

  function SourceSlots(e: Source): set<nat> {
    if e.Stored? then {e.key} else {}
  }

  function AtomSlots(a: Atom): set<nat> {
    match a
    case IsNull(e) => SourceSlots(e)
    case IsNotNull(e) => SourceSlots(e)
    case NoTags => {}
    case SomeTags => {}
    case Comparison(e, _, p, _) => SourceSlots(e) + {p}
    case DistinctFrom(e, p, _) => SourceSlots(e) + {p}
    case ILike(e, p) => SourceSlots(e) + {p}
    case NotILike(e, p) => SourceSlots(e) + {p}
    case TagsContain(p) => {p}
    case TagsOverlap(p) => {p}
    case EqualsAny(e, p, _) => SourceSlots(e) + {p}
    case TypeIsNumber(key) => {key}
    case NumericComparison(key, _, p) => {key, p}
  }

  ghost predicate IsRange(slots: set<nat>, base: nat, count: nat) {
    forall p :: p in slots <==> base < p <= base + count
  }

  lemma LeafSlots(field: FieldShape, op: Operator, numeric: bool, base: nat)
    ensures Slots(LeafPhrase(field, op, numeric, base)) ==
            (if field.SomeAttribute? then {base + 1} else {}) +
            (if op.IsSet? || op.IsNotSet? then {} else {base + KeyBinds(field) + 1})
  {
    var key, p := base + 1, base + KeyBinds(field) + 1;
    var e := if field.SomeAttribute? then Stored(key) else Of(field.column);
    var asTime := field.Listed? && ColumnKind(field.column).TimestampKind?;
    if op.NotWithinDays? {
      OrNullSlots(e, SqlText.Atom(Comparison(e, Less, p, false)));
      hide SlotsOfAll, OrNull;
    } else if op.NotContains? {
      DeniedSlots(TagsContain(p));
      OrNullSlots(e, SqlText.Atom(NotILike(e, p)));
      hide SlotsOfAll, OrNull, One;
    } else if op.NotIn? {
      DeniedSlots(TagsOverlap(p));
      DeniedSlots(EqualsAny(e, p, asTime));
      OrNullSlots(e, SqlText.Negation(One(EqualsAny(e, p, asTime))));
      hide SlotsOfAll, OrNull, One;
    } else {
      TwoSlots(true, SqlText.Atom(TypeIsNumber(key)), SqlText.Atom(NumericComparison(key, RelOf(op), p)));
      hide SlotsOfAll;
    }
  }

  lemma OrNullSlots(e: Source, q: Phrase)
    ensures Slots(OrNull(e, q)) == SourceSlots(e) + Slots(q)
  {
    TwoSlots(false, SqlText.Atom(IsNull(e)), q);
  }

  lemma DeniedSlots(a: Atom)
    ensures Slots(SqlText.Negation(One(a))) == AtomSlots(a)
  {
    OneSlots(a);
  }

  lemma OneSlots(a: Atom)
    ensures Slots(One(a)) == AtomSlots(a)
  {
    var ps: seq<Phrase> := [SqlText.Atom(a)];
    assert ps[..0] == [];
    assert SlotsOfAll(ps) == SlotsOfAll([]) + Slots(ps[0]);
  }

  lemma TwoSlots(conj: bool, a: Phrase, b: Phrase)
    ensures Slots(SqlText.Group(conj, [a, b])) == Slots(a) + Slots(b)
  {
    var ps := [a, b];
    assert ps[..1] == [a] && [a][..0] == [];
    assert SlotsOfAll([a]) == SlotsOfAll([]) + Slots(a);
    assert SlotsOfAll(ps) == SlotsOfAll([a]) + Slots(b);
  }

  /** A rule's text holds exactly the placeholders of its own parameters: none missing, none shared, none out of range. */
  lemma {:induction false} PlaceholdersExact(s: Shape, base: nat)
    ensures IsRange(Slots(RulePhrase(s, base)), base, Binds(s))
    decreases s, 1
  {
    match s {
      case Single(field, op, numeric) => LeafSlots(field, op, numeric, base);
      case Several(_, _, parts) => PlaceholdersOfAll(parts, base);
    }
  }

  lemma {:induction false} PlaceholdersOfAll(ss: seq<Shape>, base: nat)
    ensures IsRange(SlotsOfAll(RulePhrases(ss, base)), base, BindsAll(ss))
    decreases ss, 0
  {
    if ss != [] {
      var n := |ss| - 1;
      var ps := RulePhrases(ss, base);
      assert ps[..n] == RulePhrases(ss[..n], base);
      PlaceholdersOfAll(ss[..n], base);
      PlaceholdersExact(ss[n], base + BindsAll(ss[..n]));
    }
  }
}
