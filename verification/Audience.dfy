/** The audience rules, the contacts they select, and what each rule says about a contact, NULLs included. */
module Audience {
  import opened Prelude

  // --------------------------------------------------------------- truth values

  /** SQL's three truth values, and a query that fails instead of answering. */
  datatype Truth = True | False | Unknown | Abort

  function Know(b: bool): Truth { if b then True else False }

  function Negate(t: Truth): Truth {
    match t
    case True => False
    case False => True
    case _ => t
  }

  // -------------------------------------------------------------------- contacts

  datatype Json = JNull | JBool(b: bool) | JNumber(n: real) | JString(s: string) | JOther(text: string)

  datatype Column = Tags | Email | Phone | Locale | Timezone | FirstName | LastName
    | OrderCount | LifetimeValue | FirstOrderAt | LastOrderAt | CreatedAt

  /**
   * A row of contacts; a column that is absent from its map is NULL. What is proved holds whichever columns are;
   * `Storable` says which ones the schema lets be.
   */
  datatype Contact = Contact(
    tags: seq<string>, texts: map<Column, string>, numbers: map<Column, real>, times: map<Column, real>,
    attributes: map<string, Json>)

  /** A contact the table accepts: four columns are never NULL, and there is an email or a phone. */
  predicate Storable(c: Contact) {
    && Locale in c.texts
    && OrderCount in c.numbers && c.numbers[OrderCount] >= 0.0
    && LifetimeValue in c.numbers && c.numbers[LifetimeValue] >= 0.0
    && CreatedAt in c.times
    && (Email in c.texts || Phone in c.texts)
  }

  datatype Sql = Null | Text(s: string) | Number(n: real) | Time(t: real) | Unusable

  /**
   * What is fixed outside this repository: case folding, the collation, and how JavaScript and Postgres
   * turn numbers into text and text into instants and numbers.
   */
  datatype World = World(
    fold: char -> char, before: (string, string) -> bool,
    show: real -> string, parsable: string -> bool,
    render: real -> string, instant: string -> real, numeric: string -> Option<real>)

  // ----------------------------------------------------------------------- rules

  datatype Operator = Eq | Neq | Gt | Gte | Lt | Lte | Contains | NotContains | In | NotIn
    | IsSet | IsNotSet | WithinDays | NotWithinDays | Unlisted(name: string)

  datatype Item = ItemText(s: string) | ItemNumber(n: real)

  datatype Value = VText(s: string) | VNumber(n: real) | VBool(b: bool) | VList(items: seq<Item>)

  datatype Leaf = Leaf(field: string, op: Operator, value: Option<Value>)

  datatype Rule = Test(leaf: Leaf) | AllOf(rules: seq<Rule>) | AnyOf(rules: seq<Rule>) | NoneOf(rules: seq<Rule>)

  datatype Definition = Definition(all: Option<seq<Rule>>, any: Option<seq<Rule>>, none: Option<seq<Rule>>)

  // ---------------------------------------------------------------------- fields

  datatype Kind = TextKind | NumberKind | TimestampKind | TagsKind | AttributeKind

  datatype Field = Plain(column: Column) | Attribute(key: string)

  function ColumnNamed(path: string): Option<Column> {
    if path == "tags" then Some(Tags)
    else if path == "email" then Some(Email)
    else if path == "phone" then Some(Phone)
    else if path == "locale" then Some(Locale)
    else if path == "timezone" then Some(Timezone)
    else if path == "first_name" then Some(FirstName)
    else if path == "last_name" then Some(LastName)
    else if path == "order_count" then Some(OrderCount)
    else if path == "lifetime_value" then Some(LifetimeValue)
    else if path == "first_order_at" then Some(FirstOrderAt)
    else if path == "last_order_at" then Some(LastOrderAt)
    else if path == "created_at" then Some(CreatedAt)
    else None
  }

  function ColumnKind(c: Column): Kind {
    match c
    case Tags => TagsKind
    case OrderCount => NumberKind
    case LifetimeValue => NumberKind
    case FirstOrderAt => TimestampKind
    case LastOrderAt => TimestampKind
    case CreatedAt => TimestampKind
    case _ => TextKind
  }

  function KindOf(f: Field): Kind {
    match f
    case Plain(c) => ColumnKind(c)
    case Attribute(_) => AttributeKind
  }

  predicate WordChar(c: char) {
    'A' <= c <= 'Z' || 'a' <= c <= 'z' || '0' <= c <= '9' || c == '_'
  }

  predicate KeyAllowed(key: string) {
    1 <= |key| <= 64 && WordChar(key[0]) && forall i :: 0 < i < |key| ==> WordChar(key[i]) || key[i] in ".-"
  }

  const ATTRIBUTE_PREFIX := "attributes."

  /** The allow-list: a known column, or a well-formed attribute key. */
  function Resolve(path: string): Option<Field> {
    if ATTRIBUTE_PREFIX <= path then
      var key := path[|ATTRIBUTE_PREFIX|..];
      if KeyAllowed(key) then Some(Attribute(key)) else None
    else
      match ColumnNamed(path)
      case Some(c) => Some(Plain(c))
      case None => None
  }

  // ------------------------------------------------------------- rejected leaves

  predicate Ordering(op: Operator) {
    op.Gt? || op.Gte? || op.Lt? || op.Lte?
  }

  predicate OneValue(v: Option<Value>) {
    v.Some? && !v.value.VList?
  }

  predicate Instant(w: World, v: Option<Value>) {
    v.Some? && v.value.VText? && w.parsable(v.value.s)
  }

  predicate Numeric(v: Option<Value>) {
    v.Some? && v.value.VNumber?
  }

  predicate ListFor(kind: Kind, v: Option<Value>) {
    && v.Some? && v.value.VList? && v.value.items != []
    && (kind.NumberKind? ==> forall x :: x in v.value.items ==> x.ItemNumber?)
  }

  /** A value an operator can be compared with, for a field of this kind. */
  predicate Comparable(w: World, kind: Kind, v: Option<Value>) {
    match kind
    case TagsKind => false
    case NumberKind => Numeric(v)
    case TimestampKind => Instant(w, v)
    case _ => OneValue(v)
  }

  /** The leaves that compile; every other one is refused. */
  predicate LeafOk(w: World, leaf: Leaf) {
    Resolve(leaf.field).Some? && OperandOk(w, KindOf(Resolve(leaf.field).value), leaf.op, leaf.value)
  }

  predicate OperandOk(w: World, kind: Kind, op: Operator, value: Option<Value>) {
    match op
    case Unlisted(_) => false
    case IsSet => value.None?
    case IsNotSet => value.None?
    case WithinDays => kind.TimestampKind? && Numeric(value) && value.value.n >= 0.0
    case NotWithinDays => kind.TimestampKind? && Numeric(value) && value.value.n >= 0.0
    case Contains => !kind.NumberKind? && !kind.TimestampKind? && OneValue(value)
    case NotContains => !kind.NumberKind? && !kind.TimestampKind? && OneValue(value)
    case In => ListFor(kind, value)
    case NotIn => ListFor(kind, value)
    case _ => Comparable(w, kind, value)
  }

  // --------------------------------------------------------------- direct reading

  datatype Rel = Equal | Less | AtMost | More | AtLeast

  function RelOf(op: Operator): Rel {
    match op
    case Gt => More
    case Gte => AtLeast
    case Lt => Less
    case Lte => AtMost
    case _ => Equal
  }

  predicate RealRel(rel: Rel, a: real, b: real) {
    match rel
    case Equal => a == b
    case Less => a < b
    case AtMost => a <= b
    case More => a > b
    case AtLeast => a >= b
  }

  predicate TextRel(w: World, rel: Rel, a: string, b: string) {
    match rel
    case Equal => a == b
    case Less => w.before(a, b)
    case AtMost => a == b || w.before(a, b)
    case More => w.before(b, a)
    case AtLeast => a == b || w.before(b, a)
  }

  function Folded(w: World, s: string): string {
    seq(|s|, i requires 0 <= i < |s| => w.fold(s[i]))
  }

  /** SQL's comparison: NULL on either side is unknown. `anyCase` is the citext column's. */
  function Compare(w: World, anyCase: bool, rel: Rel, a: Sql, b: Sql): Truth {
    if a.Unusable? || b.Unusable? then Abort
    else if a.Null? || b.Null? then Unknown
    else if a.Text? && b.Text? then
      Know(if anyCase then TextRel(w, rel, Folded(w, a.s), Folded(w, b.s)) else TextRel(w, rel, a.s, b.s))
    else if a.Number? && b.Number? then Know(RealRel(rel, a.n, b.n))
    else if a.Time? && b.Time? then Know(RealRel(rel, a.t, b.t))
    else Abort
  }

  function JsonText(w: World, j: Json): Sql {
    match j
    case JNull => Null
    case JBool(b) => Text(if b then "true" else "false")
    case JNumber(n) => Text(w.render(n))
    case JString(s) => Text(s)
    case JOther(text) => Text(text)
  }

  function AttributeText(w: World, c: Contact, key: string): Sql {
    if key in c.attributes then JsonText(w, c.attributes[key]) else Null
  }

  function ColumnValue(c: Contact, column: Column): Sql {
    match ColumnKind(column)
    case TextKind => if column in c.texts then Text(c.texts[column]) else Null
    case NumberKind => if column in c.numbers then Number(c.numbers[column]) else Null
    case TimestampKind => if column in c.times then Time(c.times[column]) else Null
    case _ => Unusable
  }

  function ValueOf(w: World, f: Field, c: Contact): Sql {
    match f
    case Plain(column) => ColumnValue(c, column)
    case Attribute(key) => AttributeText(w, c, key)
  }

  /** String(value). */
  function TextOf(w: World, v: Value): string {
    match v
    case VText(s) => s
    case VNumber(n) => w.show(n)
    case VBool(b) => if b then "true" else "false"
    case VList(_) => ""
  }

  function ItemTextOf(w: World, x: Item): string {
    match x
    case ItemText(s) => s
    case ItemNumber(n) => w.show(n)
  }

  const MS_PER_DAY := 86400000.0

  /** JavaScript keeps whole milliseconds, cutting toward zero. */
  function Whole(x: real): real {
    if x >= 0.0 then x.Floor as real else -((-x).Floor as real)
  }

  function Since(now: real, days: real): real {
    Whole(now - days * MS_PER_DAY)
  }

  /** The needle occurs in the text, whatever the case of either. */
  predicate Within(w: World, needle: string, text: string) {
    exists i :: 0 <= i <= |text| && StartsWith(w, needle, text[i..])
  }

  predicate StartsWith(w: World, needle: string, text: string) {
    |needle| <= |text| && forall k :: 0 <= k < |needle| ==> w.fold(needle[k]) == w.fold(text[k])
  }

  /** The operand of a comparison, as the column's type. */
  function Wanted(w: World, kind: Kind, v: Value): Sql {
    match kind
    case NumberKind => if v.VNumber? then Number(v.n) else Unusable
    case TimestampKind => Time(w.instant(TextOf(w, v)))
    case _ => Text(TextOf(w, v))
  }

  function AmongItems(w: World, items: seq<Item>, value: Sql): Truth {
    match value
    case Null => Unknown
    case Text(s) => Know(exists i :: 0 <= i < |items| && ItemTextOf(w, items[i]) == s)
    case Number(n) => Know(exists i :: 0 <= i < |items| && items[i] == ItemNumber(n))
    case Time(t) => Know(exists i :: 0 <= i < |items| && w.instant(ItemTextOf(w, items[i])) == t)
    case Unusable => Abort
  }

  /** An attribute holds whatever was stored there: only a number can be compared with a number. */
  function NumberInAttribute(c: Contact, key: string, rel: Rel, n: real): Truth {
    if key !in c.attributes then Unknown
    else match c.attributes[key]
      case JNumber(x) => Know(RealRel(rel, x, n))
      case _ => False
  }

  function Orders(w: World, f: Field, rel: Rel, v: Value, c: Contact): Truth {
    if f.Attribute? && v.VNumber? then NumberInAttribute(c, f.key, rel, v.n)
    else Compare(w, f == Plain(Email), rel, ValueOf(w, f, c), Wanted(w, KindOf(f), v))
  }

  /** What a leaf without a negative operator says about a contact. */
  function Affirms(w: World, now: real, f: Field, op: Operator, value: Option<Value>, c: Contact): Truth
    requires OperandOk(w, KindOf(f), op, value)
  {
    match op
    case IsSet => if KindOf(f).TagsKind? then Know(c.tags != []) else Know(ValueOf(w, f, c) != Null)
    case WithinDays => Compare(w, false, AtLeast, ValueOf(w, f, c), Time(Since(now, value.value.n)))
    case Contains =>
      if KindOf(f).TagsKind? then Know(TextOf(w, value.value) in c.tags)
      else (match ValueOf(w, f, c)
            case Null => Unknown
            case Text(s) => Know(Within(w, TextOf(w, value.value), s))
            case _ => Abort)
    case In =>
      if KindOf(f).TagsKind? then
        Know(exists i :: 0 <= i < |value.value.items| && ItemTextOf(w, value.value.items[i]) in c.tags)
      else AmongItems(w, value.value.items, ValueOf(w, f, c))
    case Eq => Compare(w, f == Plain(Email), Equal, ValueOf(w, f, c), Wanted(w, KindOf(f), value.value))
    case Gt => Orders(w, f, More, value.value, c)
    case Gte => Orders(w, f, AtLeast, value.value, c)
    case Lt => Orders(w, f, Less, value.value, c)
    case Lte => Orders(w, f, AtMost, value.value, c)
    case _ => Abort
  }

  /** The operator a negative one denies. */
  function Twin(op: Operator): Option<Operator> {
    match op
    case Neq => Some(Eq)
    case NotContains => Some(Contains)
    case NotIn => Some(In)
    case IsNotSet => Some(IsSet)
    case NotWithinDays => Some(WithinDays)
    case _ => None
  }

  /** A negative operator accepts exactly the contacts its twin does not: an unknown value is not the value asked for. */
  function LeafReading(w: World, now: real, leaf: Leaf, c: Contact): Truth
    requires LeafOk(w, leaf)
  {
    var f := Resolve(leaf.field).value;
    match Twin(leaf.op)
    case Some(op) => Know(Affirms(w, now, f, op, leaf.value, c) != True)
    case None => Affirms(w, now, f, leaf.op, leaf.value, c)
  }

  predicate RuleOk(w: World, r: Rule)
    decreases r
  {
    match r
    case Test(leaf) => LeafOk(w, leaf)
    case AllOf(rs) => forall i :: 0 <= i < |rs| ==> RuleOk(w, rs[i])
    case AnyOf(rs) => forall i :: 0 <= i < |rs| ==> RuleOk(w, rs[i])
    case NoneOf(rs) => forall i :: 0 <= i < |rs| ==> RuleOk(w, rs[i])
  }

  predicate RulesOk(w: World, rs: seq<Rule>) {
    forall i :: 0 <= i < |rs| ==> RuleOk(w, rs[i])
  }

  /** All of them: one definite no settles it, then one unknown. */
  function Every(ts: seq<Truth>): Truth {
    if Abort in ts then Abort else if False in ts then False else if Unknown in ts then Unknown else True
  }

  function Any(ts: seq<Truth>): Truth {
    if Abort in ts then Abort else if True in ts then True else if Unknown in ts then Unknown else False
  }

  function Reading(w: World, now: real, r: Rule, c: Contact): Truth
    requires RuleOk(w, r)
    decreases r
  {
    match r
    case Test(leaf) => LeafReading(w, now, leaf, c)
    case AllOf(rs) => Every(Readings(w, now, rs, c))
    case AnyOf(rs) => Any(Readings(w, now, rs, c))
    case NoneOf(rs) => Negate(Any(Readings(w, now, rs, c)))
  }

  function Readings(w: World, now: real, rs: seq<Rule>, c: Contact): (ts: seq<Truth>)
    requires RulesOk(w, rs)
    ensures |ts| == |rs| && forall i :: 0 <= i < |rs| ==> ts[i] == Reading(w, now, rs[i], c)
    decreases rs
  {
    seq(|rs|, i requires 0 <= i < |rs| => Reading(w, now, rs[i], c))
  }

  predicate DefinitionOk(w: World, d: Definition) {
    && (d.all.Some? ==> RulesOk(w, d.all.value))
    && (d.any.Some? ==> RulesOk(w, d.any.value))
    && (d.none.Some? ==> RulesOk(w, d.none.value))
  }

  /** A whole definition: its groups must all hold, and an absent group asks nothing. */
  function DefinitionReading(w: World, now: real, d: Definition, c: Contact): Truth
    requires DefinitionOk(w, d)
  {
    var all := if d.all.Some? then Every(Readings(w, now, d.all.value, c)) else True;
    var any := if d.any.Some? then Any(Readings(w, now, d.any.value, c)) else True;
    var none := if d.none.Some? then Negate(Any(Readings(w, now, d.none.value, c))) else True;
    Every([all, any, none])
  }

  // --------------------------------------------------------- the plain Boolean reading

  /** The rule as an operator means it: a leaf either accepts the contact or does not. */
  predicate Plainly(w: World, now: real, r: Rule, c: Contact)
    requires RuleOk(w, r)
    decreases r
  {
    match r
    case Test(leaf) => LeafReading(w, now, leaf, c) == True
    case AllOf(rs) => forall i :: 0 <= i < |rs| ==> Plainly(w, now, rs[i], c)
    case AnyOf(rs) => exists i :: 0 <= i < |rs| && Plainly(w, now, rs[i], c)
    case NoneOf(rs) => !exists i :: 0 <= i < |rs| && Plainly(w, now, rs[i], c)
  }

  predicate NoNone(r: Rule)
    decreases r
  {
    match r
    case Test(_) => true
    case AllOf(rs) => forall i :: 0 <= i < |rs| ==> NoNone(rs[i])
    case AnyOf(rs) => forall i :: 0 <= i < |rs| ==> NoNone(rs[i])
    case NoneOf(_) => false
  }

  predicate PlainlyDefined(w: World, now: real, d: Definition, c: Contact)
    requires DefinitionOk(w, d)
  {
    && (d.all.Some? ==> forall i :: 0 <= i < |d.all.value| ==> Plainly(w, now, d.all.value[i], c))
    && (d.any.Some? ==> exists i :: 0 <= i < |d.any.value| && Plainly(w, now, d.any.value[i], c))
    && (d.none.Some? ==> !exists i :: 0 <= i < |d.none.value| && Plainly(w, now, d.none.value[i], c))
  }

  lemma LeafNeverAborts(w: World, now: real, leaf: Leaf, c: Contact)
    requires LeafOk(w, leaf)
    ensures LeafReading(w, now, leaf, c) != Abort
  {
    var f := Resolve(leaf.field).value;
    if Twin(leaf.op).None? {
      AffirmsNeverAborts(w, now, f, leaf.op, leaf.value, c);
    }
    hide Affirms;
  }

  lemma AffirmsNeverAborts(w: World, now: real, f: Field, op: Operator, value: Option<Value>, c: Contact)
    requires OperandOk(w, KindOf(f), op, value) && Twin(op).None?
    ensures Affirms(w, now, f, op, value, c) != Abort
  {
    hide TextRel, RealRel, Folded, Within, TextOf, Since;
  }

  lemma {:induction false} NeverAborts(w: World, now: real, r: Rule, c: Contact)
    requires RuleOk(w, r)
    ensures Reading(w, now, r, c) != Abort
    decreases r
  {
    if r.Test? {
      LeafNeverAborts(w, now, r.leaf, c);
    } else {
      forall i | 0 <= i < |r.rules| ensures Reading(w, now, r.rules[i], c) != Abort {
        NeverAborts(w, now, r.rules[i], c);
      }
    }
  }

  /** Without a `none` group, acceptance is the plain reading, even where values are missing. */
  lemma {:induction false} NoNoneIsPlain(w: World, now: real, r: Rule, c: Contact)
    requires RuleOk(w, r) && NoNone(r)
    ensures Reading(w, now, r, c) == True <==> Plainly(w, now, r, c)
    decreases r
  {
    hide LeafReading, LeafOk;
    NeverAborts(w, now, r, c);
    if !r.Test? {
      var ts := Readings(w, now, r.rules, c);
      forall i | 0 <= i < |r.rules| ensures ts[i] == True <==> Plainly(w, now, r.rules[i], c) {
        NoNoneIsPlain(w, now, r.rules[i], c);
      }
      assert Plainly(w, now, r, c) <==>
        if r.AllOf? then forall i :: 0 <= i < |ts| ==> ts[i] == True else exists i :: 0 <= i < |ts| && ts[i] == True;
    }
  }

  // ------------------------------------------------------- where the two readings part

  /** The contact has no value that this operator could be answered with. */
  predicate NoValueFor(w: World, f: Field, op: Operator, value: Option<Value>, c: Contact) {
    if KindOf(f).TagsKind? then false
    else if f.Attribute? && Ordering(op) && Numeric(value) then f.key !in c.attributes
    else ValueOf(w, f, c).Null?
  }

  /** A missing value under an operator that does not take missing values in. */
  predicate Blank(w: World, leaf: Leaf, c: Contact)
    requires LeafOk(w, leaf)
  {
    Twin(leaf.op).None? && !leaf.op.IsSet? && NoValueFor(w, Resolve(leaf.field).value, leaf.op, leaf.value, c)
  }

  /** A leaf has no answer exactly when it asks, positively, about a value the contact does not have. */
  lemma UnknownIsBlank(w: World, now: real, leaf: Leaf, c: Contact)
    requires LeafOk(w, leaf)
    ensures LeafReading(w, now, leaf, c) == Unknown <==> Blank(w, leaf, c)
  {
  }

  /** No blank can change the outcome of the rule, read plainly. */
  predicate Settled(w: World, now: real, r: Rule, c: Contact)
    requires RuleOk(w, r)
    decreases r
  {
    match r
    case Test(leaf) => !Blank(w, leaf, c)
    case AllOf(rs) =>
      || (forall i :: 0 <= i < |rs| ==> Settled(w, now, rs[i], c))
      || (exists i :: 0 <= i < |rs| && Settled(w, now, rs[i], c) && !Plainly(w, now, rs[i], c))
    case AnyOf(rs) =>
      || (forall i :: 0 <= i < |rs| ==> Settled(w, now, rs[i], c))
      || (exists i :: 0 <= i < |rs| && Settled(w, now, rs[i], c) && Plainly(w, now, rs[i], c))
    case NoneOf(rs) =>
      || (forall i :: 0 <= i < |rs| ==> Settled(w, now, rs[i], c))
      || (exists i :: 0 <= i < |rs| && Settled(w, now, rs[i], c) && Plainly(w, now, rs[i], c))
  }

  /** What is read of a rule: its plain outcome if it is settled, and otherwise nothing. */
  function Outcome(settled: bool, plainly: bool): Truth {
    if settled then Know(plainly) else Unknown
  }

  lemma LeafOutcome(w: World, now: real, leaf: Leaf, c: Contact)
    requires LeafOk(w, leaf)
    ensures LeafReading(w, now, leaf, c) == Outcome(!Blank(w, leaf, c), LeafReading(w, now, leaf, c) == True)
  {
    UnknownIsBlank(w, now, leaf, c);
    LeafNeverAborts(w, now, leaf, c);
    hide LeafReading, Blank;
  }

  /** For every rule that compiles: the plain outcome when it is settled, NULL when it is not. */
  lemma {:induction false} ReadingIsOutcome(w: World, now: real, r: Rule, c: Contact)
    requires RuleOk(w, r)
    ensures Reading(w, now, r, c) == Outcome(Settled(w, now, r, c), Plainly(w, now, r, c))
    decreases r
  {
    hide LeafReading, LeafOk, Blank;
    NeverAborts(w, now, r, c);
    if r.Test? {
      LeafOutcome(w, now, r.leaf, c);
    } else {
      forall i | 0 <= i < |r.rules|
        ensures Readings(w, now, r.rules, c)[i] == Outcome(Settled(w, now, r.rules[i], c), Plainly(w, now, r.rules[i], c))
      {
        ReadingIsOutcome(w, now, r.rules[i], c);
      }
      if r.AllOf? {
        AllIsOutcome(w, now, r.rules, c);
      } else {
        AnyIsOutcome(w, now, r.rules, c);
      }
    }
  }

  lemma AllIsOutcome(w: World, now: real, rs: seq<Rule>, c: Contact)
    requires RulesOk(w, rs)
    requires forall i :: 0 <= i < |rs| ==>
      Readings(w, now, rs, c)[i] == Outcome(Settled(w, now, rs[i], c), Plainly(w, now, rs[i], c))
    ensures Every(Readings(w, now, rs, c)) ==
            Outcome(Settled(w, now, AllOf(rs), c), forall i :: 0 <= i < |rs| ==> Plainly(w, now, rs[i], c))
  {
    var ts := Readings(w, now, rs, c);
    assert forall i :: 0 <= i < |ts| ==> ts[i] in ts;
    hide Reading, RuleOk;
  }

  lemma AnyIsOutcome(w: World, now: real, rs: seq<Rule>, c: Contact)
    requires RulesOk(w, rs)
    requires forall i :: 0 <= i < |rs| ==>
      Readings(w, now, rs, c)[i] == Outcome(Settled(w, now, rs[i], c), Plainly(w, now, rs[i], c))
    ensures Any(Readings(w, now, rs, c)) ==
            Outcome(Settled(w, now, AnyOf(rs), c), exists i :: 0 <= i < |rs| && Plainly(w, now, rs[i], c))
  {
    var ts := Readings(w, now, rs, c);
    assert forall i :: 0 <= i < |ts| ==> ts[i] in ts;
    hide Reading, RuleOk;
  }

  // ---------------------------------------------------------------------- whole definitions

  /** A definition as the rule it stands for: all of the groups it has. */
  function AsRule(d: Definition): Rule {
    AllOf((if d.all.Some? then [AllOf(d.all.value)] else [])
          + (if d.any.Some? then [AnyOf(d.any.value)] else [])
          + (if d.none.Some? then [NoneOf(d.none.value)] else []))
  }

  lemma DefinitionIsRule(w: World, now: real, d: Definition, c: Contact)
    requires DefinitionOk(w, d)
    ensures RuleOk(w, AsRule(d))
    ensures Reading(w, now, AsRule(d), c) == DefinitionReading(w, now, d, c)
    ensures Plainly(w, now, AsRule(d), c) == PlainlyDefined(w, now, d, c)
  {
    var rs := AsRule(d).rules;
    assert forall i :: 0 <= i < |rs| ==> RuleOk(w, rs[i]);
    GroupsRead(w, now, d, c);
    GroupsPlainly(w, now, d, c);
  }

  lemma GroupsRead(w: World, now: real, d: Definition, c: Contact)
    requires DefinitionOk(w, d) && RuleOk(w, AsRule(d))
    ensures Reading(w, now, AsRule(d), c) == DefinitionReading(w, now, d, c)
  {
    var rs := AsRule(d).rules;
    var ts := Readings(w, now, rs, c);
    var all := if d.all.Some? then [Every(Readings(w, now, d.all.value, c))] else [];
    var any := if d.any.Some? then [Any(Readings(w, now, d.any.value, c))] else [];
    var none := if d.none.Some? then [Negate(Any(Readings(w, now, d.none.value, c)))] else [];
    assert ts == all + any + none;
    hide Readings, Any;
  }

  lemma GroupsPlainly(w: World, now: real, d: Definition, c: Contact)
    requires DefinitionOk(w, d) && RuleOk(w, AsRule(d))
    ensures Plainly(w, now, AsRule(d), c) == PlainlyDefined(w, now, d, c)
  {
    var rs := AsRule(d).rules;
    var n := if d.all.Some? then 1 else 0;
    var m := n + if d.any.Some? then 1 else 0;
    if d.all.Some? { assert rs[0] == AllOf(d.all.value); }
    if d.any.Some? { assert rs[n] == AnyOf(d.any.value); }
    if d.none.Some? { assert rs[m] == NoneOf(d.none.value); }
    assert |rs| == m + if d.none.Some? then 1 else 0;
    hide LeafReading;
  }

  predicate SettledDefinition(w: World, now: real, d: Definition, c: Contact)
    requires DefinitionOk(w, d)
  {
    DefinitionIsRule(w, now, d, c);
    Settled(w, now, AsRule(d), c)
  }

  /**
   * Every definition, groups nested in any way: the answer is the plain one exactly when no missing value can change
   * it, and there is no answer otherwise. No contact is accepted that should not be, and one that should be is turned
   * away exactly when the definition is not settled.
   */
  lemma PlainExactlyWhenSettled(w: World, now: real, d: Definition, c: Contact)
    requires DefinitionOk(w, d)
    ensures
      var answer, plain := DefinitionReading(w, now, d, c), PlainlyDefined(w, now, d, c);
      && (answer == Know(plain) <==> SettledDefinition(w, now, d, c))
      && (answer == Unknown <==> !SettledDefinition(w, now, d, c))
      && (answer == True ==> plain)
      && (plain && answer != True <==> plain && !SettledDefinition(w, now, d, c))
  {
    DefinitionIsRule(w, now, d, c);
    ReadingIsOutcome(w, now, AsRule(d), c);
    hide Reading, Plainly, Settled, DefinitionReading, PlainlyDefined;
  }

  // ------------------------------------------------------------------ groups without nesting

  predicate AllNoNone(group: Option<seq<Rule>>) {
    group.Some? ==> forall i :: 0 <= i < |group.value| ==> NoNone(group.value[i])
  }

  /** Where `none` groups stand at the top only, what is left open is one of their rules. */
  lemma PlainUnlessUndecided(w: World, now: real, d: Definition, c: Contact)
    requires DefinitionOk(w, d) && AllNoNone(d.all) && AllNoNone(d.any) && AllNoNone(d.none)
    ensures (DefinitionReading(w, now, d, c) == True <==> PlainlyDefined(w, now, d, c)) <==>
            !(PlainlyDefined(w, now, d, c) && d.none.Some?
              && exists i :: 0 <= i < |d.none.value| && !Settled(w, now, d.none.value[i], c))
  {
    hide NoNone, Plainly, Reading, Settled, RuleOk;
    if d.all.Some? { EveryIs(w, now, d.all.value, c); }
    if d.any.Some? { AnyIs(w, now, d.any.value, c); }
    if d.none.Some? {
      AnyIs(w, now, d.none.value, c);
      forall i | 0 <= i < |d.none.value|
        ensures Readings(w, now, d.none.value, c)[i] == Unknown <==> !Settled(w, now, d.none.value[i], c)
      {
        ReadingIsOutcome(w, now, d.none.value[i], c);
      }
    }
  }

  lemma GroupIsPlain(w: World, now: real, rs: seq<Rule>, c: Contact)
    requires RulesOk(w, rs) && AllNoNone(Some(rs))
    ensures Abort !in Readings(w, now, rs, c)
    ensures forall i :: 0 <= i < |rs| ==> (Readings(w, now, rs, c)[i] == True <==> Plainly(w, now, rs[i], c))
  {
    forall i | 0 <= i < |rs|
      ensures Readings(w, now, rs, c)[i] == True <==> Plainly(w, now, rs[i], c)
      ensures Readings(w, now, rs, c)[i] != Abort
    {
      NoNoneIsPlain(w, now, rs[i], c);
      NeverAborts(w, now, rs[i], c);
    }
  }

  lemma EveryIs(w: World, now: real, rs: seq<Rule>, c: Contact)
    requires RulesOk(w, rs) && AllNoNone(Some(rs))
    ensures Every(Readings(w, now, rs, c)) == True <==> forall i :: 0 <= i < |rs| ==> Plainly(w, now, rs[i], c)
    ensures Every(Readings(w, now, rs, c)) != Abort
  {
    GroupIsPlain(w, now, rs, c);
    var ts := Readings(w, now, rs, c);
    assert forall i :: 0 <= i < |ts| ==> ts[i] in ts;
  }

  lemma AnyIs(w: World, now: real, rs: seq<Rule>, c: Contact)
    requires RulesOk(w, rs) && AllNoNone(Some(rs))
    ensures Any(Readings(w, now, rs, c)) == True <==> exists i :: 0 <= i < |rs| && Plainly(w, now, rs[i], c)
    ensures Any(Readings(w, now, rs, c)) != Abort
    ensures Any(Readings(w, now, rs, c)) == Unknown <==>
      (exists i :: 0 <= i < |rs| && Readings(w, now, rs, c)[i] == Unknown)
      && !exists i :: 0 <= i < |rs| && Plainly(w, now, rs[i], c)
  {
    GroupIsPlain(w, now, rs, c);
    var ts := Readings(w, now, rs, c);
    assert forall i :: 0 <= i < |ts| ==> ts[i] in ts;
  }

  /**
   * It happens to contacts the table holds: "none of first_name = 'x'", for one with an email and no first name,
   * who should be accepted and is not.
   */
  lemma NoneCanBeUndecided(w: World, now: real)
    ensures
      var d := Definition(None, None, Some([Test(Leaf("first_name", Eq, Some(VText("x"))))]));
      var c := Contact([], map[Email := "a@example.com", Locale := "en"],
                       map[OrderCount := 0.0, LifetimeValue := 0.0], map[CreatedAt := 0.0], map[]);
      && Storable(c)
      && DefinitionOk(w, d) && PlainlyDefined(w, now, d, c) && !SettledDefinition(w, now, d, c)
      && DefinitionReading(w, now, d, c) == Unknown
  {
    var leaf := Leaf("first_name", Eq, Some(VText("x")));
    var d := Definition(None, None, Some([Test(leaf)]));
    var c := Contact([], map[Email := "a@example.com", Locale := "en"],
                     map[OrderCount := 0.0, LifetimeValue := 0.0], map[CreatedAt := 0.0], map[]);
    assert "attributes."[0] == 'a' && "first_name"[0] == 'f';
    assert Resolve("first_name") == Some(Plain(FirstName));
    assert LeafReading(w, now, leaf, c) == Unknown;
    assert Readings(w, now, [Test(leaf)], c) == [Unknown];
    assert DefinitionReading(w, now, d, c) == Unknown;
    hide LeafReading;
    assert PlainlyDefined(w, now, d, c);
    PlainExactlyWhenSettled(w, now, d, c);
  }
}
