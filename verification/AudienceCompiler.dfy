/** From rules to SQL: the text, its parameters, and what Postgres answers. */
module AudienceCompiler {
  import opened Prelude
  import opened Audience
  import opened LikePattern
  import SqlText

  // -------------------------------------------------------------- the target language

  datatype Param = PText(s: string) | PNumber(n: real) | PTime(t: real) | PTexts(ss: seq<string>) | PNumbers(ns: seq<real>)

  /** The expression of a field: a column, or `c.attributes ->> $key`. */
  datatype Source = Of(column: Column) | Stored(key: nat)

  /** One comparison of the emitted SQL. Numbers are `$n` placeholders; `asTime` is the ::timestamptz cast. */
  datatype Atom =
    | IsNull(e: Source) | IsNotNull(e: Source)
    | NoTags | SomeTags
    | Comparison(e: Source, rel: Rel, p: nat, asTime: bool)
    | DistinctFrom(e: Source, p: nat, asTime: bool)
    | ILike(e: Source, p: nat) | NotILike(e: Source, p: nat)
    | TagsContain(p: nat) | TagsOverlap(p: nat)
    | EqualsAny(e: Source, p: nat, asTime: bool)
    | TypeIsNumber(key: nat)
    | NumericComparison(key: nat, rel: Rel, p: nat)

  type Token = SqlText.Token<Atom>
  type Phrase = SqlText.Phrase<Atom>
  type Expr = SqlText.Expr<Atom>

  function Bound(params: seq<Param>, p: nat): Option<Param> {
    if 1 <= p <= |params| then Some(params[p - 1]) else None
  }

  function KeyOf(params: seq<Param>, p: nat): Option<string> {
    match Bound(params, p)
    case Some(PText(s)) => Some(s)
    case _ => None
  }

  function SourceValue(w: World, params: seq<Param>, e: Source, c: Contact): Sql {
    match e
    case Of(column) => ColumnValue(c, column)
    case Stored(p) =>
      match KeyOf(params, p)
      case Some(key) => AttributeText(w, c, key)
      case None => Unusable
  }

  function Operand(w: World, params: seq<Param>, p: nat, asTime: bool): Sql {
    match Bound(params, p)
    case Some(PText(s)) => if asTime then Time(w.instant(s)) else Text(s)
    case Some(PNumber(n)) => Number(n)
    case Some(PTime(t)) => Time(t)
    case _ => Unusable
  }

  function Matches(w: World, params: seq<Param>, e: Source, p: nat, c: Contact): Truth {
    match (SourceValue(w, params, e, c), Bound(params, p))
    case (Null, Some(PText(_))) => Unknown
    case (Text(s), Some(PText(pattern))) => Know(Like(w, pattern, s))
    case _ => Abort
  }

  function AmongThese(w: World, value: Sql, list: Option<Param>, asTime: bool): Truth {
    match (value, list)
    case (Null, Some(_)) => Unknown
    case (Text(s), Some(PTexts(ss))) => if asTime then Abort else Know(s in ss)
    case (Number(n), Some(PNumbers(ns))) => Know(n in ns)
    case (Time(t), Some(PTexts(ss))) => if asTime then Know(exists i :: 0 <= i < |ss| && w.instant(ss[i]) == t) else Abort
    case _ => Abort
  }

  /** The ::numeric cast of an attribute's text: a stored number casts back, other text may abort the query. */
  function CastStored(w: World, c: Contact, key: string): Sql {
    if key !in c.attributes then Null
    else match c.attributes[key]
      case JNull => Null
      case JNumber(n) => Number(n)
      case j =>
        match w.numeric(JsonText(w, j).s)
        case Some(n) => Number(n)
        case None => Unusable
  }

  function EvalAtom(w: World, params: seq<Param>, a: Atom, c: Contact): Truth {
    match a
    case IsNull(e) => Know(SourceValue(w, params, e, c) == Null)
    case IsNotNull(e) => Know(SourceValue(w, params, e, c) != Null)
    case NoTags => Know(c.tags == [])
    case SomeTags => Know(c.tags != [])
    case Comparison(e, rel, p, asTime) =>
      Compare(w, e == Of(Email), rel, SourceValue(w, params, e, c), Operand(w, params, p, asTime))
    case DistinctFrom(e, p, asTime) =>
      var a, b := SourceValue(w, params, e, c), Operand(w, params, p, asTime);
      if a.Null? || b.Null? then Know(a != b) else Negate(Compare(w, e == Of(Email), Equal, a, b))
    case ILike(e, p) => Matches(w, params, e, p, c)
    case NotILike(e, p) => Negate(Matches(w, params, e, p, c))
    case TagsContain(p) =>
      (match Bound(params, p)
       case Some(PTexts(ss)) => Know(forall i :: 0 <= i < |ss| ==> ss[i] in c.tags)
       case _ => Abort)
    case TagsOverlap(p) =>
      (match Bound(params, p)
       case Some(PTexts(ss)) => Know(exists i :: 0 <= i < |ss| && ss[i] in c.tags)
       case _ => Abort)
    case EqualsAny(e, p, asTime) => AmongThese(w, SourceValue(w, params, e, c), Bound(params, p), asTime)
    case TypeIsNumber(p) =>
      (match KeyOf(params, p)
       case Some(key) => if key in c.attributes then Know(c.attributes[key].JNumber?) else Unknown
       case None => Abort)
    case NumericComparison(k, rel, p) =>
      (match KeyOf(params, k)
       case Some(key) => Compare(w, false, rel, CastStored(w, c, key), Operand(w, params, p, false))
       case None => Abort)
  }

  /** AND and OR, read from the left: what settles the answer spares the rest, so a cast behind AND is guarded. */
  function Both(l: Truth, r: Truth): Truth {
    if l.False? || l.Abort? then l else if r.False? || r.Abort? || l.True? then r else Unknown
  }

  function Either(l: Truth, r: Truth): Truth {
    if l.True? || l.Abort? then l else if r.True? || r.Abort? || l.False? then r else Unknown
  }

  function Eval(w: World, params: seq<Param>, e: Expr, c: Contact): Truth
    decreases e
  {
    match e
    case Known(b) => Know(b)
    case Leaf(a) => EvalAtom(w, params, a, c)
    case Not(x) => Negate(Eval(w, params, x, c))
    case And(xs) => EvalAnd(w, params, xs, c)
    case Or(xs) => EvalOr(w, params, xs, c)
  }

  function EvalAnd(w: World, params: seq<Param>, es: seq<Expr>, c: Contact): Truth
    decreases es
  {
    if es == [] then True else Both(Eval(w, params, es[0], c), EvalAnd(w, params, es[1..], c))
  }

  function EvalOr(w: World, params: seq<Param>, es: seq<Expr>, c: Contact): Truth
    decreases es
  {
    if es == [] then False else Either(Eval(w, params, es[0], c), EvalOr(w, params, es[1..], c))
  }

  // ---------------------------------------------------------- what the text depends on

  datatype FieldShape = Listed(column: Column) | SomeAttribute

  /** The shape of a rule: its fields, operators and value kinds, without its values and keys. */
  datatype Shape =
    | Single(field: FieldShape, op: Operator, numeric: bool)
    | Several(conj: bool, negated: bool, parts: seq<Shape>)

  function LeafShape(leaf: Leaf): Shape
    requires Resolve(leaf.field).Some?
  {
    var field := match Resolve(leaf.field).value case Plain(c) => Listed(c) case Attribute(_) => SomeAttribute;
    Single(field, leaf.op, leaf.value.Some? && leaf.value.value.VNumber?)
  }

  function ShapeOf(w: World, r: Rule): Shape
    requires RuleOk(w, r)
    decreases r
  {
    match r
    case Test(leaf) => LeafShape(leaf)
    case AllOf(rs) => Several(true, false, ShapesOf(w, rs))
    case AnyOf(rs) => Several(false, false, ShapesOf(w, rs))
    case NoneOf(rs) => Several(false, true, ShapesOf(w, rs))
  }

  function ShapesOf(w: World, rs: seq<Rule>): (ss: seq<Shape>)
    requires RulesOk(w, rs)
    ensures |ss| == |rs|
    decreases rs
  {
    seq(|rs|, i requires 0 <= i < |rs| => ShapeOf(w, rs[i]))
  }

  function KeyBinds(field: FieldShape): nat {
    if field.SomeAttribute? then 1 else 0
  }

  /** How many placeholders a rule of this shape takes. */
  function Binds(s: Shape): nat
    decreases s
  {
    match s
    case Single(field, op, _) => KeyBinds(field) + (if op.IsSet? || op.IsNotSet? then 0 else 1)
    case Several(_, _, parts) => BindsAll(parts)
  }

  function BindsAll(ss: seq<Shape>): nat
    decreases ss
  {
    if ss == [] then 0 else BindsAll(ss[..|ss| - 1]) + Binds(ss[|ss| - 1])
  }

  function One(a: Atom): Phrase {
    SqlText.Group(true, [SqlText.Atom(a)])
  }

  function OrNull(e: Source, q: Phrase): Phrase {
    SqlText.Group(false, [SqlText.Atom(IsNull(e)), q])
  }

  /** The cast of an attribute to a number, behind the test that it is one. */
  function NumericPhrase(key: nat, rel: Rel, p: nat): Phrase {
    SqlText.Group(true, [SqlText.Atom(TypeIsNumber(key)), SqlText.Atom(NumericComparison(key, rel, p))])
  }

  /** The phrase of one leaf, when `base` placeholders are taken: its key, if any, comes first. */
  function LeafPhrase(field: FieldShape, op: Operator, numeric: bool, base: nat): Phrase {
    var key := base + 1;
    var p := base + KeyBinds(field) + 1;
    var e := if field.SomeAttribute? then Stored(key) else Of(field.column);
    var kind := if field.SomeAttribute? then AttributeKind else ColumnKind(field.column);
    var asTime := kind.TimestampKind?;
    match op
    case IsSet => SqlText.Atom(if kind.TagsKind? then SomeTags else IsNotNull(e))
    case IsNotSet => SqlText.Atom(if kind.TagsKind? then NoTags else IsNull(e))
    case WithinDays => SqlText.Atom(Comparison(e, AtLeast, p, false))
    case NotWithinDays => OrNull(e, SqlText.Atom(Comparison(e, Less, p, false)))
    case Contains => SqlText.Atom(if kind.TagsKind? then TagsContain(p) else ILike(e, p))
    case NotContains =>
      if kind.TagsKind? then SqlText.Negation(One(TagsContain(p))) else OrNull(e, SqlText.Atom(NotILike(e, p)))
    case In => SqlText.Atom(if kind.TagsKind? then TagsOverlap(p) else EqualsAny(e, p, asTime))
    case NotIn =>
      if kind.TagsKind? then SqlText.Negation(One(TagsOverlap(p)))
      else OrNull(e, SqlText.Negation(One(EqualsAny(e, p, asTime))))
    case Eq => SqlText.Atom(Comparison(e, Equal, p, asTime))
    case Neq => SqlText.Atom(DistinctFrom(e, p, asTime))
    case _ =>
      if kind.AttributeKind? && numeric then
        NumericPhrase(key, RelOf(op), p)
      else SqlText.Atom(Comparison(e, RelOf(op), p, asTime))
  }

  function GroupPhrase(conj: bool, ps: seq<Phrase>): Phrase {
    if ps == [] then SqlText.Constant(conj) else SqlText.Group(conj, ps)
  }

  function RulePhrase(s: Shape, base: nat): Phrase
    decreases s
  {
    match s
    case Single(field, op, numeric) => LeafPhrase(field, op, numeric, base)
    case Several(conj, negated, parts) =>
      var group := GroupPhrase(conj, RulePhrases(parts, base));
      if negated then SqlText.Negation(group) else group
  }

  function RulePhrases(ss: seq<Shape>, base: nat): (ps: seq<Phrase>)
    ensures |ps| == |ss|
    decreases ss
  {
    if ss == [] then []
    else
      var n := |ss| - 1;
      RulePhrases(ss[..n], base) + [RulePhrase(ss[n], base + BindsAll(ss[..n]))]
  }

  // -------------------------------------------------------------------- the parameters

  function KeyParams(f: Field): seq<Param> {
    if f.Attribute? then [PText(f.key)] else []
  }

  function Texts(w: World, items: seq<Item>): seq<string> {
    seq(|items|, i requires 0 <= i < |items| => ItemTextOf(w, items[i]))
  }

  function ValueParams(w: World, now: real, kind: Kind, op: Operator, value: Option<Value>): seq<Param>
    requires OperandOk(w, kind, op, value)
  {
    match op
    case IsSet => []
    case IsNotSet => []
    case WithinDays => [PTime(Since(now, value.value.n))]
    case NotWithinDays => [PTime(Since(now, value.value.n))]
    case Contains => [Needle(w, kind, value.value)]
    case NotContains => [Needle(w, kind, value.value)]
    case In => [ListParam(w, kind, value.value.items)]
    case NotIn => [ListParam(w, kind, value.value.items)]
    case Eq => [SingleParam(w, kind.NumberKind?, value.value)]
    case Neq => [SingleParam(w, kind.NumberKind?, value.value)]
    case _ => [SingleParam(w, kind.NumberKind? || (kind.AttributeKind? && value.value.VNumber?), value.value)]
  }

  function Needle(w: World, kind: Kind, v: Value): Param {
    if kind.TagsKind? then PTexts([TextOf(w, v)]) else PText(Pattern(TextOf(w, v)))
  }

  function ListParam(w: World, kind: Kind, items: seq<Item>): Param
    requires kind.NumberKind? ==> forall x :: x in items ==> x.ItemNumber?
  {
    if kind.NumberKind? then PNumbers(seq(|items|, i requires 0 <= i < |items| => items[i].n)) else PTexts(Texts(w, items))
  }

  function SingleParam(w: World, asNumber: bool, v: Value): Param
    requires asNumber ==> v.VNumber?
  {
    if asNumber then PNumber(v.n) else PText(TextOf(w, v))
  }

  function LeafParams(w: World, now: real, leaf: Leaf): (own: seq<Param>)
    requires LeafOk(w, leaf)
    ensures |own| == Binds(LeafShape(leaf))
  {
    var f := Resolve(leaf.field).value;
    KeyParams(f) + ValueParams(w, now, KindOf(f), leaf.op, leaf.value)
  }

  function RuleParams(w: World, now: real, r: Rule): (own: seq<Param>)
    requires RuleOk(w, r)
    ensures |own| == Binds(ShapeOf(w, r))
    decreases r
  {
    match r
    case Test(leaf) => LeafParams(w, now, leaf)
    case AllOf(rs) => RulesParams(w, now, rs)
    case AnyOf(rs) => RulesParams(w, now, rs)
    case NoneOf(rs) => RulesParams(w, now, rs)
  }

  function RulesParams(w: World, now: real, rs: seq<Rule>): (own: seq<Param>)
    requires RulesOk(w, rs)
    ensures |own| == BindsAll(ShapesOf(w, rs))
    decreases rs
  {
    if rs == [] then []
    else
      var n := |rs| - 1;
      assert ShapesOf(w, rs)[..n] == ShapesOf(w, rs[..n]);
      RulesParams(w, now, rs[..n]) + RuleParams(w, now, rs[n])
  }
}
