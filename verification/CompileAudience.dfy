/** The compiler itself: one pass over the rules that writes text and binds values as it goes. */
module CompileAudience {
  import opened Prelude
  import opened Audience
  import opened LikePattern
  import opened AudienceCompiler
  import opened AudienceMeaning
  import SqlText

  /** Where a rule stands in its definition. */
  datatype Step = InAll | InAny | InNone | At(index: nat)

  type Path = seq<Step>

  type Text = seq<Token>

  datatype Compiled = Compiled(sql: Text, params: seq<Param>)

  /** The only way a value reaches the query. */
  class ParamBag {
    var values: seq<Param>

    constructor ()
      ensures values == []
    {
      values := [];
    }

    method Bind(value: Param) returns (placeholder: nat)
      modifies this
      ensures values == old(values) + [value] && placeholder == |values|
    {
      values := values + [value];
      placeholder := |values|;
    }
  }

  // ------------------------------------------------------------------- what is refused, and where

  /** The first rule, in reading order, that does not compile. */
  function FirstFault(w: World, r: Rule, at: Path): Option<Path>
    decreases r
  {
    match r
    case Test(leaf) => if LeafOk(w, leaf) then None else Some(at)
    case AllOf(rs) => FirstFaultIn(w, rs, at + [InAll])
    case AnyOf(rs) => FirstFaultIn(w, rs, at + [InAny])
    case NoneOf(rs) => FirstFaultIn(w, rs, at + [InNone])
  }

  function FirstFaultIn(w: World, rs: seq<Rule>, at: Path): Option<Path>
    decreases rs
  {
    if rs == [] then None
    else
      var n := |rs| - 1;
      match FirstFaultIn(w, rs[..n], at)
      case Some(path) => Some(path)
      case None => FirstFault(w, rs[n], at + [At(n)])
  }

  lemma {:induction false} FaultIffRefused(w: World, r: Rule, at: Path)
    ensures FirstFault(w, r, at).None? <==> RuleOk(w, r)
    decreases r, 1
  {
    match r {
      case Test(_) =>
      case AllOf(rs) => FaultInIffRefused(w, rs, at + [InAll]);
      case AnyOf(rs) => FaultInIffRefused(w, rs, at + [InAny]);
      case NoneOf(rs) => FaultInIffRefused(w, rs, at + [InNone]);
    }
  }

  lemma {:induction false} FaultInIffRefused(w: World, rs: seq<Rule>, at: Path)
    ensures FirstFaultIn(w, rs, at).None? <==> RulesOk(w, rs)
    decreases rs, 0
  {
    if rs != [] {
      var n := |rs| - 1;
      FaultInIffRefused(w, rs[..n], at);
      FaultIffRefused(w, rs[n], at + [At(n)]);
      assert RulesOk(w, rs) <==> RulesOk(w, rs[..n]) && RuleOk(w, rs[n]);
    }
  }

  // ------------------------------------------------------------------------- leaves

  /** What a leaf's compilation leaves behind, once its field is resolved and `base` placeholders were taken before it. */
  ghost predicate Emits(w: World, now: real, f: Field, leaf: Leaf, at: Path, base: nat,
                        r: Result<Text, Path>, before: seq<Param>, after: seq<Param>) {
    if OperandOk(w, KindOf(f), leaf.op, leaf.value) then
      && r.Ok?
      && after == before + ValueParams(w, now, KindOf(f), leaf.op, leaf.value)
      && r.value == SqlText.Print(LeafPhrase(FieldShapeOf(f), leaf.op, leaf.value.Some? && leaf.value.value.VNumber?, base))
    else r == Err(at)
  }

  /** `base` placeholders, then the field's key, if it has one. */
  predicate Resolved(f: Field, e: Source, base: nat, values: seq<Param>) {
    e == SourceOf(f, base) && |values| == base + |KeyParams(f)|
  }

  lemma PrintDenied(a: Atom)
    ensures SqlText.Print(SqlText.Negation(One(a))) == [SqlText.NotSign, SqlText.LP, SqlText.Test(a), SqlText.RP]
  {
    assert SqlText.PrintAll([SqlText.Atom(a)]) == [[SqlText.Test(a)]];
    assert SqlText.Print(One(a)) == [SqlText.LP, SqlText.Test(a), SqlText.RP];
  }

  lemma PrintTwo(conj: bool, a: Phrase, b: Phrase)
    ensures SqlText.Print(SqlText.Group(conj, [a, b])) ==
            [SqlText.LP] + SqlText.Print(a) + [SqlText.Joiner(conj)] + SqlText.Print(b) + [SqlText.RP]
  {
    var x, y := SqlText.Print(a), SqlText.Print(b);
    assert SqlText.PrintAll([a, b]) == [x, y];
    assert [x, y][1..] == [y];
    assert SqlText.Join([x, y], SqlText.Joiner(conj)) == x + [SqlText.Joiner(conj)] + y;
  }

  method CompilePresence(w: World, now: real, f: Field, e: Source, leaf: Leaf, at: Path, bag: ParamBag, ghost base: nat)
    returns (r: Result<Text, Path>)
    requires leaf.op.IsSet? || leaf.op.IsNotSet?
    requires Resolved(f, e, base, bag.values)
    modifies bag
    ensures Emits(w, now, f, leaf, at, base, r, old(bag.values), bag.values)
  {
    if leaf.value.Some? { return Err(at); }
    if KindOf(f).TagsKind? {
      return Ok([SqlText.Test(if leaf.op.IsSet? then SomeTags else NoTags)]);
    }
    r := Ok([SqlText.Test(if leaf.op.IsSet? then IsNotNull(e) else IsNull(e))]);
  }

  method CompileAge(w: World, now: real, f: Field, e: Source, leaf: Leaf, at: Path, bag: ParamBag, ghost base: nat)
    returns (r: Result<Text, Path>)
    requires leaf.op.WithinDays? || leaf.op.NotWithinDays?
    requires Resolved(f, e, base, bag.values)
    modifies bag
    ensures Emits(w, now, f, leaf, at, base, r, old(bag.values), bag.values)
  {
    if !KindOf(f).TimestampKind? || !Numeric(leaf.value) || leaf.value.value.n < 0.0 { return Err(at); }
    var since := bag.Bind(PTime(Since(now, leaf.value.value.n)));
    if leaf.op.WithinDays? {
      return Ok([SqlText.Test(Comparison(e, AtLeast, since, false))]);
    }
    PrintTwo(false, SqlText.Atom(IsNull(e)), SqlText.Atom(Comparison(e, Less, since, false)));
    r := Ok([SqlText.LP, SqlText.Test(IsNull(e)), SqlText.OrSign,
             SqlText.Test(Comparison(e, Less, since, false)), SqlText.RP]);
  }

  method CompileContains(w: World, now: real, f: Field, e: Source, leaf: Leaf, at: Path, bag: ParamBag, ghost base: nat)
    returns (r: Result<Text, Path>)
    requires leaf.op.Contains? || leaf.op.NotContains?
    requires Resolved(f, e, base, bag.values)
    modifies bag
    ensures Emits(w, now, f, leaf, at, base, r, old(bag.values), bag.values)
  {
    if KindOf(f).NumberKind? || KindOf(f).TimestampKind? || !OneValue(leaf.value) { return Err(at); }
    var wanted := TextOf(w, leaf.value.value);
    if KindOf(f).TagsKind? {
      var tags := bag.Bind(PTexts([wanted]));
      if leaf.op.Contains? { return Ok([SqlText.Test(TagsContain(tags))]); }
      PrintDenied(TagsContain(tags));
      return Ok([SqlText.NotSign, SqlText.LP, SqlText.Test(TagsContain(tags)), SqlText.RP]);
    }
    var pattern := bag.Bind(PText(['%'] + EscapeLike(wanted) + ['%']));
    if leaf.op.Contains? { return Ok([SqlText.Test(ILike(e, pattern))]); }
    PrintTwo(false, SqlText.Atom(IsNull(e)), SqlText.Atom(NotILike(e, pattern)));
    r := Ok([SqlText.LP, SqlText.Test(IsNull(e)), SqlText.OrSign, SqlText.Test(NotILike(e, pattern)), SqlText.RP]);
  }

  method CompileIn(w: World, now: real, f: Field, e: Source, leaf: Leaf, at: Path, bag: ParamBag, ghost base: nat)
    returns (r: Result<Text, Path>)
    requires leaf.op.In? || leaf.op.NotIn?
    requires Resolved(f, e, base, bag.values)
    modifies bag
    ensures Emits(w, now, f, leaf, at, base, r, old(bag.values), bag.values)
  {
    if leaf.value.None? || !leaf.value.value.VList? || leaf.value.value.items == [] { return Err(at); }
    var items := leaf.value.value.items;
    var wanted: nat;
    if KindOf(f).NumberKind? {
      var numbers := Numbers(items);
      if numbers.None? { return Err(at); }
      assert numbers.value == ListParam(w, KindOf(f), items).ns;
      wanted := bag.Bind(PNumbers(numbers.value));
    } else {
      wanted := bag.Bind(PTexts(Texts(w, items)));
    }
    if KindOf(f).TagsKind? {
      if leaf.op.In? { return Ok([SqlText.Test(TagsOverlap(wanted))]); }
      PrintDenied(TagsOverlap(wanted));
      return Ok([SqlText.NotSign, SqlText.LP, SqlText.Test(TagsOverlap(wanted)), SqlText.RP]);
    }
    var among := EqualsAny(e, wanted, KindOf(f).TimestampKind?);
    if leaf.op.In? { return Ok([SqlText.Test(among)]); }
    PrintDenied(among);
    PrintTwo(false, SqlText.Atom(IsNull(e)), SqlText.Negation(One(among)));
    r := Ok([SqlText.LP, SqlText.Test(IsNull(e)), SqlText.OrSign,
             SqlText.NotSign, SqlText.LP, SqlText.Test(among), SqlText.RP, SqlText.RP]);
  }

  /** list.map, refusing the first item that is no number. */
  method Numbers(items: seq<Item>) returns (out: Option<seq<real>>)
    ensures out.Some? <==> forall x :: x in items ==> x.ItemNumber?
    ensures out.Some? ==> |out.value| == |items| && forall i :: 0 <= i < |items| ==> items[i] == ItemNumber(out.value[i])
  {
    var ns: seq<real> := [];
    for i := 0 to |items|
      invariant |ns| == i && forall j :: 0 <= j < i ==> items[j] == ItemNumber(ns[j])
    {
      if !items[i].ItemNumber? { return None; }
      ns := ns + [items[i].n];
    }
    out := Some(ns);
  }

  method CompileEquality(w: World, now: real, f: Field, e: Source, leaf: Leaf, at: Path, bag: ParamBag, ghost base: nat)
    returns (r: Result<Text, Path>)
    requires leaf.op.Eq? || leaf.op.Neq?
    requires Resolved(f, e, base, bag.values)
    modifies bag
    ensures Emits(w, now, f, leaf, at, base, r, old(bag.values), bag.values)
  {
    if !Comparable(w, KindOf(f), leaf.value) { return Err(at); }
    var v := leaf.value.value;
    var wanted := bag.Bind(if KindOf(f).NumberKind? then PNumber(v.n) else PText(TextOf(w, v)));
    var asTime := KindOf(f).TimestampKind?;
    r := Ok([SqlText.Test(if leaf.op.Eq? then Comparison(e, Equal, wanted, asTime) else DistinctFrom(e, wanted, asTime))]);
  }

  method CompileOrdering(w: World, now: real, f: Field, e: Source, leaf: Leaf, at: Path, bag: ParamBag, ghost base: nat)
    returns (r: Result<Text, Path>)
    requires Ordering(leaf.op)
    requires Resolved(f, e, base, bag.values)
    modifies bag
    ensures Emits(w, now, f, leaf, at, base, r, old(bag.values), bag.values)
  {
    if !Comparable(w, KindOf(f), leaf.value) { return Err(at); }
    var rel, v := RelOf(leaf.op), leaf.value.value;
    if f.Attribute? && v.VNumber? {
      var number := bag.Bind(PNumber(v.n));
      PrintTwo(true, SqlText.Atom(TypeIsNumber(e.key)), SqlText.Atom(NumericComparison(e.key, rel, number)));
      return Ok([SqlText.LP, SqlText.Test(TypeIsNumber(e.key)), SqlText.AndSign,
                 SqlText.Test(NumericComparison(e.key, rel, number)), SqlText.RP]);
    }
    var wanted := bag.Bind(if KindOf(f).NumberKind? then PNumber(v.n) else PText(TextOf(w, v)));
    r := Ok([SqlText.Test(Comparison(e, rel, wanted, KindOf(f).TimestampKind?))]);
  }

  /** One leaf: its field, then its operator's block. */
  method CompileLeaf(w: World, now: real, leaf: Leaf, at: Path, bag: ParamBag) returns (r: Result<Text, Path>)
    modifies bag
    ensures if LeafOk(w, leaf) then r.Ok? else r == Err(at)
    ensures r.Ok? ==> bag.values == old(bag.values) + LeafParams(w, now, leaf)
    ensures r.Ok? ==> r.value == SqlText.Print(RulePhrase(LeafShape(leaf), |old(bag.values)|))
  {
    hide LeafPhrase, ValueParams, SqlText.Print;
    if leaf.op.Unlisted? { return Err(at); }
    var field := Resolve(leaf.field);
    if field.None? { return Err(at); }
    ghost var base := |bag.values|;
    var f := field.value;
    var e := if f.Plain? then Of(f.column) else Stored(0);
    if f.Attribute? {
      var key := bag.Bind(PText(f.key));
      e := Stored(key);
    }
    assert bag.values == old(bag.values) + KeyParams(f);
    if leaf.op.IsSet? || leaf.op.IsNotSet? {
      r := CompilePresence(w, now, f, e, leaf, at, bag, base);
    } else if leaf.op.WithinDays? || leaf.op.NotWithinDays? {
      r := CompileAge(w, now, f, e, leaf, at, bag, base);
    } else if leaf.op.Contains? || leaf.op.NotContains? {
      r := CompileContains(w, now, f, e, leaf, at, bag, base);
    } else if leaf.op.In? || leaf.op.NotIn? {
      r := CompileIn(w, now, f, e, leaf, at, bag, base);
    } else if leaf.op.Eq? || leaf.op.Neq? {
      r := CompileEquality(w, now, f, e, leaf, at, bag, base);
    } else {
      r := CompileOrdering(w, now, f, e, leaf, at, bag, base);
    }
  }

  // ------------------------------------------------------------------------- groups

  method CompileRule(w: World, now: real, rule: Rule, at: Path, bag: ParamBag) returns (r: Result<Text, Path>)
    modifies bag
    ensures match FirstFault(w, rule, at) case None => r.Ok? && RuleOk(w, rule) case Some(path) => r == Err(path)
    ensures r.Ok? ==> bag.values == old(bag.values) + RuleParams(w, now, rule)
    ensures r.Ok? ==> r.value == SqlText.Print(RulePhrase(ShapeOf(w, rule), |old(bag.values)|))
    decreases rule, 1
  {
    FaultIffRefused(w, rule, at);
    hide LeafOk, LeafParams, LeafPhrase;
    match rule {
      case Test(leaf) => r := CompileLeaf(w, now, leaf, at, bag);
      case AllOf(rs) => r := Combine(w, now, rs, true, at + [InAll], bag);
      case AnyOf(rs) => r := Combine(w, now, rs, false, at + [InAny], bag);
      case NoneOf(rs) =>
        r := Combine(w, now, rs, false, at + [InNone], bag);
        r := match r case Ok(text) => Ok([SqlText.NotSign] + text) case Err(path) => Err(path);
    }
  }

  method Combine(w: World, now: real, rules: seq<Rule>, conj: bool, at: Path, bag: ParamBag)
    returns (r: Result<Text, Path>)
    modifies bag
    ensures match FirstFaultIn(w, rules, at) case None => r.Ok? && RulesOk(w, rules) case Some(path) => r == Err(path)
    ensures r.Ok? ==> bag.values == old(bag.values) + RulesParams(w, now, rules)
    ensures r.Ok? ==> r.value == SqlText.Print(GroupPhrase(conj, RulePhrases(ShapesOf(w, rules), |old(bag.values)|)))
    decreases rules, 0
  {
    hide *;
    ghost var before := bag.values;
    var parts: seq<Text> := [];
    NoParts(w, now, rules, at, before);
    for i := 0 to |rules|
      invariant Partial(w, now, rules[..i], at, before, bag.values, parts)
    {
      ghost var middle, soFar := bag.values, parts;
      assert rules[..i + 1] == rules[..i] + [rules[i]];
      assert |rules[..i]| == i;
      var part := CompileRule(w, now, rules[i], at + [At(i)], bag);
      if part.Err? {
        FaultHere(w, now, rules[..i], rules[i], at, before, middle, soFar);
        FaultStays(w, rules, at, i + 1);
        return part;
      }
      PartDone(w, now, rules[..i], rules[i], at, before, middle, soFar, bag.values, part.value);
      parts := parts + [part.value];
    }
    assert rules[..|rules|] == rules;
    PartsDone(w, now, rules, at, conj, before, bag.values, parts);
    if rules == [] { return Ok([SqlText.Literal(conj)]); }
    r := Ok([SqlText.LP] + SqlText.Join(parts, SqlText.Joiner(conj)) + [SqlText.RP]);
  }

  /** The rules compiled so far, without a fault. */
  ghost predicate Partial(w: World, now: real, rs: seq<Rule>, at: Path,
                          before: seq<Param>, after: seq<Param>, parts: seq<Text>) {
    && FirstFaultIn(w, rs, at).None? && RulesOk(w, rs)
    && after == before + RulesParams(w, now, rs)
    && parts == SqlText.PrintAll(RulePhrases(ShapesOf(w, rs), |before|))
  }

  lemma NoParts(w: World, now: real, rules: seq<Rule>, at: Path, before: seq<Param>)
    ensures Partial(w, now, rules[..0], at, before, before, [])
  {
  }

  lemma FaultHere(w: World, now: real, front: seq<Rule>, last: Rule, at: Path,
                  before: seq<Param>, middle: seq<Param>, parts: seq<Text>)
    requires Partial(w, now, front, at, before, middle, parts)
    ensures FirstFaultIn(w, front + [last], at) == FirstFault(w, last, at + [At(|front|)])
  {
    hide FirstFault;
    assert (front + [last])[..|front|] == front;
  }

  lemma PartDone(w: World, now: real, front: seq<Rule>, last: Rule, at: Path, before: seq<Param>, middle: seq<Param>,
                 parts: seq<Text>, after: seq<Param>, part: Text)
    requires Partial(w, now, front, at, before, middle, parts)
    requires FirstFault(w, last, at + [At(|front|)]).None? && RuleOk(w, last)
    requires after == middle + RuleParams(w, now, last)
    requires part == SqlText.Print(RulePhrase(ShapeOf(w, last), |middle|))
    ensures Partial(w, now, front + [last], at, before, after, parts + [part])
  {
    hide FirstFault, RuleOk, RulesOk, RuleParams, RulesParams, RulePhrase, RulePhrases, ShapeOf, ShapesOf, FirstFaultIn,
      SqlText.Print, SqlText.PrintAll, BindsAll, Binds;
    FaultHere(w, now, front, last, at, before, middle, parts);
    RulesJoin(w, front, last);
    PartStep(w, now, front, last, |before|);
  }

  lemma PartsDone(w: World, now: real, rules: seq<Rule>, at: Path, conj: bool,
                  before: seq<Param>, after: seq<Param>, parts: seq<Text>)
    requires Partial(w, now, rules, at, before, after, parts)
    ensures FirstFaultIn(w, rules, at).None? && RulesOk(w, rules)
    ensures after == before + RulesParams(w, now, rules)
    ensures SqlText.Print(GroupPhrase(conj, RulePhrases(ShapesOf(w, rules), |before|))) ==
            if rules == [] then [SqlText.Literal(conj)]
            else [SqlText.LP] + SqlText.Join(parts, SqlText.Joiner(conj)) + [SqlText.RP]
  {
    hide RulesOk, FirstFaultIn, RulesParams, SqlText.Print;
    PrintGroup(conj, RulePhrases(ShapesOf(w, rules), |before|));
  }

  lemma PrintGroup(conj: bool, ps: seq<Phrase>)
    ensures SqlText.Print(GroupPhrase(conj, ps)) ==
            if ps == [] then [SqlText.Literal(conj)]
            else [SqlText.LP] + SqlText.Join(SqlText.PrintAll(ps), SqlText.Joiner(conj)) + [SqlText.RP]
  {
  }

  /** The first fault of a prefix is the first fault. */
  lemma {:induction false} FaultStays(w: World, rules: seq<Rule>, at: Path, k: nat)
    requires k <= |rules| && FirstFaultIn(w, rules[..k], at).Some?
    ensures FirstFaultIn(w, rules, at) == FirstFaultIn(w, rules[..k], at)
    decreases |rules|
  {
    if k == |rules| {
      assert rules[..k] == rules;
    } else {
      assert rules[..|rules| - 1][..k] == rules[..k];
      FaultStays(w, rules[..|rules| - 1], at, k);
    }
  }

  lemma PartStep(w: World, now: real, front: seq<Rule>, last: Rule, base: nat)
    requires RulesOk(w, front) && RuleOk(w, last) && RulesOk(w, front + [last])
    ensures RulesParams(w, now, front + [last]) == RulesParams(w, now, front) + RuleParams(w, now, last)
    ensures SqlText.PrintAll(RulePhrases(ShapesOf(w, front + [last]), base)) ==
            SqlText.PrintAll(RulePhrases(ShapesOf(w, front), base))
            + [SqlText.Print(RulePhrase(ShapeOf(w, last), base + |RulesParams(w, now, front)|))]
  {
    hide *;
    assert (front + [last])[..|front + [last]| - 1] == front;
    ParamsSplit(w, now, front + [last]);
    PhrasesSplit(w, front + [last], base);
    PrintAllStep(RulePhrases(ShapesOf(w, front), base), RulePhrase(ShapeOf(w, last), base + BindsAll(ShapesOf(w, front))));
  }

  lemma RulesJoin(w: World, front: seq<Rule>, last: Rule)
    requires RulesOk(w, front) && RuleOk(w, last)
    ensures RulesOk(w, front + [last])
  {
    hide RuleOk;
  }

  lemma PrintAllStep(ps: seq<Phrase>, p: Phrase)
    ensures SqlText.PrintAll(ps + [p]) == SqlText.PrintAll(ps) + [SqlText.Print(p)]
  {
    hide SqlText.Print;
  }
}
