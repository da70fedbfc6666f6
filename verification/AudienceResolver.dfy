/** Whole definitions: compiled, evaluated on a contact, and explained when they turn one away. */
module AudienceResolver {
  import opened Prelude
  import opened Audience
  import opened AudienceCompiler
  import opened AudienceMeaning
  import opened CompileAudience
  import SqlText

  // ------------------------------------------------------------------------ definitions

  function GroupShapes(w: World, g: Option<seq<Rule>>): seq<Shape>
    requires GroupOk(w, g)
  {
    if g.Some? then ShapesOf(w, g.value) else []
  }

  function GroupParams(w: World, now: real, g: Option<seq<Rule>>): (own: seq<Param>)
    requires GroupOk(w, g)
    ensures |own| == BindsAll(GroupShapes(w, g))
  {
    if g.Some? then RulesParams(w, now, g.value) else []
  }

  function DefinitionParams(w: World, now: real, d: Definition): seq<Param>
    requires DefinitionOk(w, d)
  {
    GroupParams(w, now, d.all) + GroupParams(w, now, d.any) + GroupParams(w, now, d.none)
  }

  /** The shape of a definition: the shapes of the groups it has. */
  datatype DefinitionShape = DefinitionShape(all: Option<seq<Shape>>, any: Option<seq<Shape>>, none: Option<seq<Shape>>)

  function ShapeOfGroup(w: World, g: Option<seq<Rule>>): Option<seq<Shape>>
    requires GroupOk(w, g)
  {
    if g.Some? then Some(ShapesOf(w, g.value)) else None
  }

  function ShapeOfDefinition(w: World, d: Definition): DefinitionShape
    requires DefinitionOk(w, d)
  {
    DefinitionShape(ShapeOfGroup(w, d.all), ShapeOfGroup(w, d.any), ShapeOfGroup(w, d.none))
  }

  function BindsOf(g: Option<seq<Shape>>): nat {
    if g.Some? then BindsAll(g.value) else 0
  }

  /** The part of one group, if the definition has it. */
  function GroupPart(g: Option<seq<Shape>>, conj: bool, negated: bool, base: nat): seq<Phrase> {
    if g.None? then []
    else
      var group := GroupPhrase(conj, RulePhrases(g.value, base));
      [if negated then SqlText.Negation(group) else group]
  }

  function Parts(s: DefinitionShape): seq<Phrase> {
    GroupPart(s.all, true, false, 0) +
    GroupPart(s.any, false, false, BindsOf(s.all)) +
    GroupPart(s.none, false, true, BindsOf(s.all) + BindsOf(s.any))
  }

  function WholePhrase(parts: seq<Phrase>): Phrase {
    if parts == [] then SqlText.Constant(true)
    else if |parts| == 1 then parts[0]
    else SqlText.Group(true, parts)
  }

  /** The text of a definition is a function of its shape alone. */
  function DefinitionText(s: DefinitionShape): Text {
    SqlText.Print(WholePhrase(Parts(s)))
  }

  function FirstFaultOf(w: World, d: Definition): Option<Path> {
    var all := if d.all.Some? then FirstFaultIn(w, d.all.value, [InAll]) else None;
    var any := if d.any.Some? then FirstFaultIn(w, d.any.value, [InAny]) else None;
    var none := if d.none.Some? then FirstFaultIn(w, d.none.value, [InNone]) else None;
    if all.Some? then all else if any.Some? then any else none
  }

  /** compileAudience: the first fault in reading order is reported; otherwise text by shape, parameters by value. */
  method Compile(w: World, now: real, d: Definition) returns (r: Result<Compiled, Path>)
    ensures r.Ok? <==> DefinitionOk(w, d)
    ensures r.Err? ==> FirstFaultOf(w, d) == Some(r.error)
    ensures r.Ok? ==> r.value == Compiled(DefinitionText(ShapeOfDefinition(w, d)), DefinitionParams(w, now, d))
  {
    hide *;
    var bag := new ParamBag();
    var all := CompileGroup(w, now, d.all, true, false, [InAll], bag);
    if all.Err? { GroupFaults(w, d); return Err(all.error); }
    var any := CompileGroup(w, now, d.any, false, false, [InAny], bag);
    if any.Err? { GroupFaults(w, d); return Err(any.error); }
    var none := CompileGroup(w, now, d.none, false, true, [InNone], bag);
    if none.Err? { GroupFaults(w, d); return Err(none.error); }
    var parts := all.value + any.value + none.value;
    DefinitionParts(w, now, d);
    ghost var a, b := |GroupParams(w, now, d.all)|, |GroupParams(w, now, d.any)|;
    PrintThree(GroupPart(ShapeOfGroup(w, d.all), true, false, 0), GroupPart(ShapeOfGroup(w, d.any), false, false, a),
               GroupPart(ShapeOfGroup(w, d.none), false, true, a + b));
    if parts == [] { return Ok(Compiled([SqlText.Literal(true)], bag.values)); }
    var sql := if |parts| == 1 then parts[0] else [SqlText.LP] + SqlText.Join(parts, SqlText.AndSign) + [SqlText.RP];
    r := Ok(Compiled(sql, bag.values));
  }

  /** A definition compiles when its groups do; its first fault is the first of theirs. */
  lemma GroupFaults(w: World, d: Definition)
    ensures DefinitionOk(w, d) <==> GroupOk(w, d.all) && GroupOk(w, d.any) && GroupOk(w, d.none)
    ensures !GroupOk(w, d.all) ==> FirstFaultOf(w, d) == FirstFaultIn(w, d.all.value, [InAll])
    ensures GroupOk(w, d.all) && !GroupOk(w, d.any) ==> FirstFaultOf(w, d) == FirstFaultIn(w, d.any.value, [InAny])
    ensures GroupOk(w, d.all) && GroupOk(w, d.any) && !GroupOk(w, d.none) ==>
              FirstFaultOf(w, d) == FirstFaultIn(w, d.none.value, [InNone])
  {
    hide FirstFaultIn, RulesOk;
    if d.all.Some? { FaultInIffRefused(w, d.all.value, [InAll]); }
    if d.any.Some? { FaultInIffRefused(w, d.any.value, [InAny]); }
    if d.none.Some? { FaultInIffRefused(w, d.none.value, [InNone]); }
  }

  lemma DefinitionParts(w: World, now: real, d: Definition)
    requires GroupOk(w, d.all) && GroupOk(w, d.any) && GroupOk(w, d.none)
    ensures DefinitionOk(w, d)
    ensures DefinitionParams(w, now, d) ==
            [] + GroupParams(w, now, d.all) + GroupParams(w, now, d.any) + GroupParams(w, now, d.none)
    ensures
      var a, b := |GroupParams(w, now, d.all)|, |GroupParams(w, now, d.any)|;
      DefinitionText(ShapeOfDefinition(w, d)) ==
      SqlText.Print(WholePhrase(
        GroupPart(ShapeOfGroup(w, d.all), true, false, 0) + GroupPart(ShapeOfGroup(w, d.any), false, false, a)
        + GroupPart(ShapeOfGroup(w, d.none), false, true, a + b)))
  {
    hide RulesOk, RulesParams, ShapesOf, GroupPart, SqlText.Print, WholePhrase;
  }

  predicate GroupOk(w: World, g: Option<seq<Rule>>) {
    g.Some? ==> RulesOk(w, g.value)
  }

  method CompileGroup(w: World, now: real, g: Option<seq<Rule>>, conj: bool, negated: bool, at: Path, bag: ParamBag)
    returns (r: Result<seq<Text>, Path>)
    modifies bag
    ensures r.Ok? <==> GroupOk(w, g)
    ensures r.Err? ==> g.Some? && FirstFaultIn(w, g.value, at) == Some(r.error)
    ensures r.Ok? ==> bag.values == old(bag.values) + GroupParams(w, now, g)
    ensures r.Ok? ==> r.value == SqlText.PrintAll(GroupPart(ShapeOfGroup(w, g), conj, negated, |old(bag.values)|))
  {
    if g.None? { return Ok([]); }
    FaultInIffRefused(w, g.value, at);
    hide RulesOk, FirstFaultIn;
    var text := Combine(w, now, g.value, conj, at, bag);
    if text.Err? { return Err(text.error); }
    r := Ok([if negated then [SqlText.NotSign] + text.value else text.value]);
  }

  lemma PrintConcat(x: seq<Phrase>, y: seq<Phrase>)
    ensures SqlText.PrintAll(x + y) == SqlText.PrintAll(x) + SqlText.PrintAll(y)
  {
    hide SqlText.Print;
  }

  lemma PrintThree(x: seq<Phrase>, y: seq<Phrase>, z: seq<Phrase>)
    ensures
      var parts := SqlText.PrintAll(x) + SqlText.PrintAll(y) + SqlText.PrintAll(z);
      SqlText.Print(WholePhrase(x + y + z)) ==
      if parts == [] then [SqlText.Literal(true)]
      else if |parts| == 1 then parts[0]
      else [SqlText.LP] + SqlText.Join(parts, SqlText.AndSign) + [SqlText.RP]
  {
    hide *;
    PrintConcat(x + y, z);
    PrintConcat(x, y);
    PrintWhole(x + y + z);
  }

  lemma PrintWhole(ps: seq<Phrase>)
    ensures
      var parts := SqlText.PrintAll(ps);
      SqlText.Print(WholePhrase(ps)) ==
      if parts == [] then [SqlText.Literal(true)]
      else if |parts| == 1 then parts[0]
      else [SqlText.LP] + SqlText.Join(parts, SqlText.AndSign) + [SqlText.RP]
  {
  }

  // ------------------------------------------------------------------ what Postgres answers

  /** The compiled predicate, read by Postgres, on one contact. `more` are the parameters of the query around it. */
  function Answer(w: World, q: Compiled, more: seq<Param>, c: Contact): Truth {
    match SqlText.Parse(q.sql)
    case Some(e) => Eval(w, q.params + more, e, c)
    case None => Abort
  }

  lemma {:induction false} WholeMeans(w: World, params: seq<Param>, ps: seq<Phrase>, ts: seq<Truth>, c: Contact)
    requires Agrees(w, params, ps, ts, c)
    ensures EvalPhrase(w, params, WholePhrase(ps), c) == Every(ts)
  {
    GroupMeans(w, params, true, ps, ts, c);
  }

  lemma PartWellFormed(g: Option<seq<Shape>>, conj: bool, negated: bool, base: nat)
    ensures
      var part := GroupPart(g, conj, negated, base);
      forall i :: 0 <= i < |part| ==> SqlText.WellFormed(part[i])
  {
    if g.Some? {
      RulesWellFormed(g.value, base);
      hide RulePhrases;
      assert SqlText.WellFormed(GroupPhrase(conj, RulePhrases(g.value, base)));
    }
  }

  lemma WholeWellFormed(s: DefinitionShape)
    ensures SqlText.WellFormed(WholePhrase(Parts(s)))
  {
    PartWellFormed(s.all, true, false, 0);
    PartWellFormed(s.any, false, false, BindsOf(s.all));
    PartWellFormed(s.none, false, true, BindsOf(s.all) + BindsOf(s.any));
    hide GroupPart, BindsOf;
    assert forall i :: 0 <= i < |Parts(s)| ==> SqlText.WellFormed(Parts(s)[i]);
  }

  function GroupReading(w: World, now: real, g: Option<seq<Rule>>, conj: bool, negated: bool, c: Contact): seq<Truth>
    requires GroupOk(w, g)
  {
    if g.None? then []
    else
      var t := if conj then Every(Readings(w, now, g.value, c)) else Any(Readings(w, now, g.value, c));
      [if negated then Negate(t) else t]
  }

  lemma PresentGroupMeans(w: World, now: real, rules: seq<Rule>, conj: bool, negated: bool,
                          c: Contact, params: seq<Param>, base: nat)
    requires RulesOk(w, rules) && Holds(params, base, RulesParams(w, now, rules))
    ensures
      var group := GroupPhrase(conj, RulePhrases(ShapesOf(w, rules), base));
      var ts := Readings(w, now, rules, c);
      var t := if conj then Every(ts) else Any(ts);
      && t != Abort
      && EvalPhrase(w, params, group, c) == t
      && EvalPhrase(w, params, SqlText.Negation(group), c) == Negate(t)
  {
    hide *;
    RulesMean(w, now, rules, c, params, base);
    var ps, ts := RulePhrases(ShapesOf(w, rules), base), Readings(w, now, rules, c);
    GroupMeans(w, params, conj, ps, ts, c);
    NegationMeans(w, params, GroupPhrase(conj, ps), c);
    NoAbort(w, params, ps, ts, c);
  }

  lemma NoAbort(w: World, params: seq<Param>, ps: seq<Phrase>, ts: seq<Truth>, c: Contact)
    requires Agrees(w, params, ps, ts, c)
    ensures Every(ts) != Abort && Any(ts) != Abort
  {
  }

  lemma GroupPartMeans(w: World, now: real, g: Option<seq<Rule>>, conj: bool, negated: bool,
                       c: Contact, params: seq<Param>, base: nat)
    requires GroupOk(w, g) && Holds(params, base, GroupParams(w, now, g))
    ensures Agrees(w, params, GroupPart(ShapeOfGroup(w, g), conj, negated, base),
                   GroupReading(w, now, g, conj, negated, c), c)
  {
    hide RulesOk, RulesParams, Holds, RulePhrases, ShapesOf, Reading, Every, Any, GroupPhrase, EvalPhrase;
    if g.Some? {
      PresentGroupMeans(w, now, g.value, conj, negated, c, params, base);
    }
  }

  lemma ThreeMean(w: World, params: seq<Param>, ps: seq<Phrase>, ts: seq<Truth>, qs: seq<Phrase>, us: seq<Truth>,
                  rs: seq<Phrase>, vs: seq<Truth>, c: Contact)
    requires Agrees(w, params, ps, ts, c) && Agrees(w, params, qs, us, c) && Agrees(w, params, rs, vs, c)
    ensures EvalPhrase(w, params, WholePhrase(ps + qs + rs), c) == Every(ts + us + vs)
  {
    hide EvalPhrase;
    WholeMeans(w, params, ps + qs + rs, ts + us + vs, c);
  }

  /** The compiled text, read back by Postgres with its parameters, answers exactly what the definition asks. */
  lemma CompiledIsReading(w: World, now: real, d: Definition, more: seq<Param>, c: Contact)
    requires DefinitionOk(w, d)
    ensures Answer(w, Compiled(DefinitionText(ShapeOfDefinition(w, d)), DefinitionParams(w, now, d)), more, c)
            == DefinitionReading(w, now, d, c)
  {
    hide *;
    var s := ShapeOfDefinition(w, d);
    WholeWellFormed(s);
    SqlText.ParsesAsMeant(WholePhrase(Parts(s)));
    DefinitionMeans(w, now, d, c, DefinitionParams(w, now, d) + more) by { ParamsHold(w, now, d, more); }
    AnswerIs(w, s, DefinitionParams(w, now, d), more, c);
  }

  lemma AnswerIs(w: World, s: DefinitionShape, own: seq<Param>, more: seq<Param>, c: Contact)
    requires SqlText.Parse(SqlText.Print(WholePhrase(Parts(s)))) == Some(SqlText.Meant(WholePhrase(Parts(s))))
    ensures Answer(w, Compiled(DefinitionText(s), own), more, c) == EvalPhrase(w, own + more, WholePhrase(Parts(s)), c)
  {
    hide Parts, WholePhrase, SqlText.Parse, SqlText.Print, SqlText.Meant, Eval;
  }

  lemma DefinitionMeans(w: World, now: real, d: Definition, c: Contact, params: seq<Param>)
    requires DefinitionOk(w, d) && GroupsHold(w, now, d, params)
    ensures EvalPhrase(w, params, WholePhrase(Parts(ShapeOfDefinition(w, d))), c) == DefinitionReading(w, now, d, c)
  {
    hide *;
    PartsOf(w, now, d);
    var s := ShapeOfDefinition(w, d);
    var a, b := |GroupParams(w, now, d.all)|, |GroupParams(w, now, d.any)|;
    EachGroupHolds(w, now, d, params);
    GroupPartMeans(w, now, d.all, true, false, c, params, 0);
    GroupPartMeans(w, now, d.any, false, false, c, params, a);
    GroupPartMeans(w, now, d.none, false, true, c, params, a + b);
    ThreeMean(w, params, GroupPart(s.all, true, false, 0), GroupReading(w, now, d.all, true, false, c),
              GroupPart(s.any, false, false, a), GroupReading(w, now, d.any, false, false, c),
              GroupPart(s.none, false, true, a + b), GroupReading(w, now, d.none, false, true, c), c);
    AbsentGroups(w, now, d, c);
  }

  /** Each group's own parameters stand behind those of the groups before it. */
  predicate GroupsHold(w: World, now: real, d: Definition, params: seq<Param>)
    requires DefinitionOk(w, d)
  {
    var pa, pb, pc := GroupParams(w, now, d.all), GroupParams(w, now, d.any), GroupParams(w, now, d.none);
    Holds(params, 0, pa) && Holds(params, |pa|, pb) && Holds(params, |pa| + |pb|, pc)
  }

  lemma EachGroupHolds(w: World, now: real, d: Definition, params: seq<Param>)
    requires DefinitionOk(w, d) && GroupsHold(w, now, d, params)
    ensures GroupOk(w, d.all) && GroupOk(w, d.any) && GroupOk(w, d.none)
    ensures
      var a, b := |GroupParams(w, now, d.all)|, |GroupParams(w, now, d.any)|;
      && Holds(params, 0, GroupParams(w, now, d.all))
      && Holds(params, a, GroupParams(w, now, d.any))
      && Holds(params, a + b, GroupParams(w, now, d.none))
  {
    hide Holds, RulesOk, GroupParams;
  }

  lemma ParamsHold(w: World, now: real, d: Definition, more: seq<Param>)
    requires DefinitionOk(w, d)
    ensures GroupsHold(w, now, d, DefinitionParams(w, now, d) + more)
  {
    hide RulesOk, RulesParams;
    ThreeHold(DefinitionParams(w, now, d) + more,
              GroupParams(w, now, d.all), GroupParams(w, now, d.any), GroupParams(w, now, d.none));
  }

  lemma ThreeHold(params: seq<Param>, x: seq<Param>, y: seq<Param>, z: seq<Param>)
    requires x + y + z <= params
    ensures Holds(params, 0, x) && Holds(params, |x|, y) && Holds(params, |x| + |y|, z)
  {
    assert Holds(params, 0, x + y + z);
    hide Holds;
    HoldsSplit(params, 0, x + y, z);
    HoldsSplit(params, 0, x, y);
  }

  lemma PartsOf(w: World, now: real, d: Definition)
    requires DefinitionOk(w, d)
    ensures GroupOk(w, d.all) && GroupOk(w, d.any) && GroupOk(w, d.none)
    ensures
      var s := ShapeOfDefinition(w, d);
      var a, b := |GroupParams(w, now, d.all)|, |GroupParams(w, now, d.any)|;
      && s == DefinitionShape(ShapeOfGroup(w, d.all), ShapeOfGroup(w, d.any), ShapeOfGroup(w, d.none))
      && Parts(s) ==
         GroupPart(s.all, true, false, 0) + GroupPart(s.any, false, false, a) + GroupPart(s.none, false, true, a + b)
  {
    hide RulesOk, RulesParams, ShapesOf, RulePhrases;
  }

  /** A group that is absent asks nothing. */
  lemma AbsentGroups(w: World, now: real, d: Definition, c: Contact)
    requires DefinitionOk(w, d)
    ensures Every(GroupReading(w, now, d.all, true, false, c) + GroupReading(w, now, d.any, false, false, c)
                  + GroupReading(w, now, d.none, false, true, c)) == DefinitionReading(w, now, d, c)
  {
    hide RulesOk, Reading;
  }

  lemma {:induction false} SlotsConcat(x: seq<Phrase>, y: seq<Phrase>)
    ensures SlotsOfAll(x + y) == SlotsOfAll(x) + SlotsOfAll(y)
    decreases |y|
  {
    if y == [] {
      assert x + y == x;
    } else {
      var n := |y| - 1;
      assert (x + y)[..|x + y| - 1] == x + y[..n];
      SlotsConcat(x, y[..n]);
    }
  }

  lemma GroupSlots(g: Option<seq<Shape>>, conj: bool, negated: bool, base: nat)
    ensures IsRange(SlotsOfAll(GroupPart(g, conj, negated, base)), base, BindsOf(g))
  {
    if g.Some? {
      PlaceholdersOfAll(g.value, base);
      var ps := RulePhrases(g.value, base);
      var group := GroupPhrase(conj, ps);
      assert Slots(group) == SlotsOfAll(ps);
      var part := GroupPart(g, conj, negated, base);
      assert part[..0] == [] && SlotsOfAll(part) == SlotsOfAll([]) + Slots(part[0]);
    }
  }

  /** The text of a definition holds exactly the placeholders 1 to the number of its parameters. */
  lemma DefinitionPlaceholders(w: World, now: real, d: Definition)
    requires DefinitionOk(w, d)
    ensures IsRange(Slots(WholePhrase(Parts(ShapeOfDefinition(w, d)))), 0, |DefinitionParams(w, now, d)|)
  {
    hide *;
    var s := ShapeOfDefinition(w, d);
    var a, b := BindsOf(s.all), BindsOf(s.any);
    PartsOf(w, now, d);
    CountParams(w, now, d);
    GroupSlots(s.all, true, false, 0);
    GroupSlots(s.any, false, false, a);
    GroupSlots(s.none, false, true, a + b);
    ThreeRanges(GroupPart(s.all, true, false, 0), GroupPart(s.any, false, false, a), GroupPart(s.none, false, true, a + b),
                a, b, BindsOf(s.none));
  }

  lemma CountParams(w: World, now: real, d: Definition)
    requires DefinitionOk(w, d)
    ensures GroupOk(w, d.all) && GroupOk(w, d.any) && GroupOk(w, d.none)
    ensures
      var s := ShapeOfDefinition(w, d);
      && |GroupParams(w, now, d.all)| == BindsOf(s.all) && |GroupParams(w, now, d.any)| == BindsOf(s.any)
      && |DefinitionParams(w, now, d)| == BindsOf(s.all) + BindsOf(s.any) + BindsOf(s.none)
  {
    hide RulesOk, ShapesOf, BindsAll;
  }

  lemma ThreeRanges(x: seq<Phrase>, y: seq<Phrase>, z: seq<Phrase>, a: nat, b: nat, c: nat)
    requires IsRange(SlotsOfAll(x), 0, a) && IsRange(SlotsOfAll(y), a, b) && IsRange(SlotsOfAll(z), a + b, c)
    ensures IsRange(Slots(WholePhrase(x + y + z)), 0, a + b + c)
  {
    hide SlotsOfAll, WholePhrase;
    SlotsConcat(x, y);
    SlotsConcat(x + y, z);
    WholeSlots(x + y + z);
  }

  lemma WholeSlots(ps: seq<Phrase>)
    ensures Slots(WholePhrase(ps)) == SlotsOfAll(ps)
  {
    if |ps| == 1 {
      assert ps[..0] == [] && SlotsOfAll(ps) == SlotsOfAll([]) + Slots(ps[0]);
    }
  }

  // ---------------------------------------------------------------------------- the resolver

  datatype Explanation =
    | NoSuchContact
    | RefusedByAll(index: nat)
    | RefusedByAny
    | RefusedByNone(index: nat)
    | NothingFailed

  datatype Match = Matched | NotMatched(why: Explanation)

  predicate Accepted(w: World, now: real, d: Definition, contact: Option<Contact>)
    requires DefinitionOk(w, d)
  {
    contact.Some? && DefinitionReading(w, now, d, contact.value) == True
  }

  /** The one predicate, narrowed to a single contact: a row comes back when it is true. */
  method Evaluate(w: World, now: real, d: Definition, contact: Option<Contact>, tenantId: string, contactId: string)
    returns (r: Result<bool, Path>)
    ensures r.Ok? <==> DefinitionOk(w, d)
    ensures r.Err? ==> FirstFaultOf(w, d) == Some(r.error)
    ensures r.Ok? ==> (r.value <==> Accepted(w, now, d, contact))
  {
    var compiled := Compile(w, now, d);
    if compiled.Err? { return Err(compiled.error); }
    if contact.None? { return Ok(false); }
    var more := [PText(tenantId), PText(contactId)];
    CompiledIsReading(w, now, d, more, contact.value);
    hide DefinitionText, DefinitionParams, DefinitionReading, DefinitionOk;
    r := Ok(Answer(w, compiled.value, more, contact.value) == True);
  }

  function JustThis(r: Rule): Definition {
    Definition(Some([r]), None, None)
  }

  lemma JustThisIs(w: World, now: real, r: Rule, c: Contact)
    requires RuleOk(w, r)
    ensures DefinitionOk(w, JustThis(r))
    ensures DefinitionReading(w, now, JustThis(r), c) == True <==> Reading(w, now, r, c) == True
  {
    hide Reading, RuleOk;
    assert Readings(w, now, [r], c) == [Reading(w, now, r, c)];
  }

  /** The first `k` rules are all true, or none of them is. */
  predicate AllAre(ts: seq<Truth>, k: nat, accepted: bool)
    requires k <= |ts|
  {
    forall i :: 0 <= i < k ==> (ts[i] == True <==> accepted)
  }

  predicate AllTrue(ts: seq<Truth>) {
    AllAre(ts, |ts|, true)
  }

  predicate NoneTrue(ts: seq<Truth>) {
    AllAre(ts, |ts|, false)
  }

  function ReadingsOf(w: World, now: real, g: Option<seq<Rule>>, c: Contact): seq<Truth>
    requires GroupOk(w, g)
  {
    if g.Some? then Readings(w, now, g.value, c) else []
  }

  /** What each explanation says about the contact. */
  ghost predicate Justified(w: World, now: real, d: Definition, c: Contact, why: Explanation)
    requires DefinitionOk(w, d)
  {
    var all, any, none := ReadingsOf(w, now, d.all, c), ReadingsOf(w, now, d.any, c), ReadingsOf(w, now, d.none, c);
    var anyFine := any == [] || Any(any) == True;
    match why
    case NoSuchContact => false
    case RefusedByAll(i) => i < |all| && all[i] != True && AllAre(all, i, true)
    case RefusedByAny => AllTrue(all) && !anyFine
    case RefusedByNone(i) => AllTrue(all) && anyFine && i < |none| && none[i] == True && AllAre(none, i, false)
    case NothingFailed => AllTrue(all) && anyFine && NoneTrue(none)
  }

  /** #explain: the first top-level rule that turns the contact away. */
  method Explain(w: World, now: real, d: Definition, contact: Option<Contact>, tenantId: string, contactId: string)
    returns (why: Explanation)
    requires DefinitionOk(w, d)
    ensures if contact.Some? then Justified(w, now, d, contact.value, why) else why == NoSuchContact
  {
    if contact.None? { return NoSuchContact; }
    hide Reading, RulesOk, DefinitionReading;
    if d.all.Some? {
      var failed := FirstAnswering(w, now, d.all.value, false, contact, tenantId, contactId);
      if failed.Some? { return RefusedByAll(failed.value); }
    }
    if d.any.Some? && d.any.value != [] {
      JustAnyIs(w, now, d.any.value, contact.value);
      var ok := Evaluate(w, now, Definition(None, Some(d.any.value), None), contact, tenantId, contactId);
      if !ok.value { return RefusedByAny; }
    }
    if d.none.Some? {
      var excluded := FirstAnswering(w, now, d.none.value, true, contact, tenantId, contactId);
      if excluded.Some? { return RefusedByNone(excluded.value); }
    }
    why := NothingFailed;
  }

  /** The loop over one group: each rule is evaluated on its own until one gives the answer looked for. */
  method FirstAnswering(w: World, now: real, rules: seq<Rule>, wanted: bool, contact: Option<Contact>,
                        tenantId: string, contactId: string) returns (found: Option<nat>)
    requires RulesOk(w, rules) && contact.Some?
    ensures
      var ts := Readings(w, now, rules, contact.value);
      match found
      case Some(i) => i < |ts| && (ts[i] == True <==> wanted) && AllAre(ts, i, !wanted)
      case None => AllAre(ts, |ts|, !wanted)
  {
    hide Reading, RuleOk, DefinitionReading;
    for i := 0 to |rules|
      invariant AllAre(Readings(w, now, rules, contact.value), i, !wanted)
    {
      JustThisIs(w, now, rules[i], contact.value);
      var answer := Evaluate(w, now, JustThis(rules[i]), contact, tenantId, contactId);
      if answer.value == wanted { return Some(i); }
    }
    found := None;
  }

  lemma JustAnyIs(w: World, now: real, rules: seq<Rule>, c: Contact)
    requires RulesOk(w, rules)
    ensures DefinitionOk(w, Definition(None, Some(rules), None))
    ensures DefinitionReading(w, now, Definition(None, Some(rules), None), c) == True <==>
            Any(Readings(w, now, rules, c)) == True
  {
    hide Reading, RulesOk;
  }

  method Matches(w: World, now: real, d: Definition, contact: Option<Contact>, tenantId: string, contactId: string)
    returns (r: Result<Match, Path>)
    ensures r.Ok? <==> DefinitionOk(w, d)
    ensures r.Ok? ==> (r.value.Matched? <==> Accepted(w, now, d, contact))
    ensures r.Ok? && r.value.NotMatched? ==>
      if contact.Some? then Justified(w, now, d, contact.value, r.value.why) else r.value.why == NoSuchContact
  {
    var matched := Evaluate(w, now, d, contact, tenantId, contactId);
    if matched.Err? { return Err(matched.error); }
    if matched.value { return Ok(Matched); }
    var why := Explain(w, now, d, contact, tenantId, contactId);
    r := Ok(NotMatched(why));
  }

  /** The last resort is reached, on an unchanged contact, exactly when `any` is empty or a `none` rule is unknown. */
  lemma UnexplainedExactly(w: World, now: real, d: Definition, c: Contact, why: Explanation)
    requires DefinitionOk(w, d) && DefinitionReading(w, now, d, c) != True && Justified(w, now, d, c, why)
    ensures why.NothingFailed? <==>
      && AllTrue(ReadingsOf(w, now, d.all, c))
      && (ReadingsOf(w, now, d.any, c) == [] || Any(ReadingsOf(w, now, d.any, c)) == True)
      && NoneTrue(ReadingsOf(w, now, d.none, c))
      && (d.any == Some([]) || Unknown in ReadingsOf(w, now, d.none, c))
  {
    hide Reading, RulesOk;
    NeverAbortsIn(w, now, d.none, c);
    var none := ReadingsOf(w, now, d.none, c);
    if why.NothingFailed? && Unknown !in none {
      assert forall t :: t in none ==> t == False;
    }
  }

  lemma NeverAbortsIn(w: World, now: real, g: Option<seq<Rule>>, c: Contact)
    requires GroupOk(w, g)
    ensures Abort !in ReadingsOf(w, now, g, c)
  {
    if g.Some? {
      forall i | 0 <= i < |g.value| ensures Readings(w, now, g.value, c)[i] != Abort {
        NeverAborts(w, now, g.value[i], c);
      }
    }
  }
}
