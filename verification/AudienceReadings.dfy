/** What each operator says of a contact, kind of field by kind of field, in terms of what the contact holds. */
module AudienceReadings {
  import opened Prelude
  import opened Audience

  // --------------------------------------------------------------------------- fields

  function PathTo(column: Column): string {
    match column
    case Tags => "tags"
    case Email => "email"
    case Phone => "phone"
    case Locale => "locale"
    case Timezone => "timezone"
    case FirstName => "first_name"
    case LastName => "last_name"
    case OrderCount => "order_count"
    case LifetimeValue => "lifetime_value"
    case FirstOrderAt => "first_order_at"
    case LastOrderAt => "last_order_at"
    case CreatedAt => "created_at"
  }

  predicate KeyCharacter(c: char, first: bool) {
    || 'a' <= c <= 'z' || 'A' <= c <= 'Z' || '0' <= c <= '9' || c == '_'
    || (!first && (c == '.' || c == '-'))
  }

  lemma NamesColumn(column: Column)
    ensures ColumnNamed(PathTo(column)) == Some(column)
    ensures PathTo(column)[0] != 'a'
  {
  }

  lemma ColumnIsNamed(path: string, column: Column)
    requires ColumnNamed(path) == Some(column)
    ensures path == PathTo(column)
  {
    match column
    case Tags => assert path == "tags";
    case Email => assert path == "email";
    case Phone => assert path == "phone";
    case Locale => assert path == "locale";
    case Timezone => assert path == "timezone";
    case FirstName => assert path == "first_name";
    case LastName => assert path == "last_name";
    case OrderCount => assert path == "order_count";
    case LifetimeValue => assert path == "lifetime_value";
    case FirstOrderAt => assert path == "first_order_at";
    case LastOrderAt => assert path == "last_order_at";
    case CreatedAt => assert path == "created_at";
  }

  /** A path is a column by its name, or an attribute by a key of 1 to 64 characters, or refused. */
  lemma FieldsResolve(path: string, column: Column)
    ensures Resolve(path) == Some(Plain(column)) <==> path == PathTo(column)
  {
    NamesColumn(column);
    if ColumnNamed(path).Some? {
      ColumnIsNamed(path, ColumnNamed(path).value);
    }
    assert ATTRIBUTE_PREFIX[0] == 'a';
    hide ColumnNamed, PathTo, KeyAllowed;
  }

  lemma AttributesResolve(key: string)
    ensures Resolve("attributes." + key) ==
      if 1 <= |key| <= 64 && forall i :: 0 <= i < |key| ==> KeyCharacter(key[i], i == 0)
      then Some(Attribute(key)) else None
  {
    var path := ATTRIBUTE_PREFIX + key;
    assert path[|ATTRIBUTE_PREFIX|..] == key;
    hide ColumnNamed;
  }

  // -------------------------------------------------------------------- presence

  predicate Has(c: Contact, f: Field) {
    match f
    case Plain(Tags) => c.tags != []
    case Plain(column) => column in c.texts || column in c.numbers || column in c.times
    case Attribute(key) => key in c.attributes && c.attributes[key] != JNull
  }

  /** Each column is stored in the map of its type. */
  predicate Typed(c: Contact) {
    && c.texts.Keys <= {Email, Phone, Locale, Timezone, FirstName, LastName}
    && c.numbers.Keys <= {OrderCount, LifetimeValue}
    && c.times.Keys <= {FirstOrderAt, LastOrderAt, CreatedAt}
  }

  lemma PresenceSays(w: World, now: real, leaf: Leaf, f: Field, c: Contact)
    requires Resolve(leaf.field) == Some(f) && leaf.value.None? && (leaf.op.IsSet? || leaf.op.IsNotSet?) && Typed(c)
    ensures LeafOk(w, leaf) && LeafReading(w, now, leaf, c) == Know(Has(c, f) == leaf.op.IsSet?)
  {
    hide Resolve;
  }

  // --------------------------------------------------------------------- numbers

  predicate Compares(op: Operator) {
    op.Eq? || op.Neq? || op.Gt? || op.Gte? || op.Lt? || op.Lte?
  }

  predicate Stands(op: Operator, a: real, b: real)
    requires Compares(op)
  {
    match op
    case Eq => a == b
    case Neq => a != b
    case Gt => a > b
    case Gte => !(a < b)
    case Lt => a < b
    case Lte => !(a > b)
  }

  /** A missing value is unequal to everything, and otherwise compares with nothing. */
  function Missing(op: Operator): Truth {
    if op.Neq? then True else Unknown
  }

  lemma NumberSays(w: World, now: real, leaf: Leaf, column: Column, n: real, c: Contact)
    requires Resolve(leaf.field) == Some(Plain(column)) && column in {OrderCount, LifetimeValue}
    requires Compares(leaf.op) && leaf.value == Some(VNumber(n))
    ensures LeafOk(w, leaf)
    ensures LeafReading(w, now, leaf, c) ==
      if column in c.numbers then Know(Stands(leaf.op, c.numbers[column], n)) else Missing(leaf.op)
  {
    hide Resolve;
  }

  // ------------------------------------------------------------------- timestamps

  lemma TimeSays(w: World, now: real, leaf: Leaf, column: Column, text: string, c: Contact)
    requires Resolve(leaf.field) == Some(Plain(column)) && column in {FirstOrderAt, LastOrderAt, CreatedAt}
    requires Compares(leaf.op) && leaf.value == Some(VText(text)) && w.parsable(text)
    ensures LeafOk(w, leaf)
    ensures LeafReading(w, now, leaf, c) ==
      if column in c.times then Know(Stands(leaf.op, c.times[column], w.instant(text))) else Missing(leaf.op)
  {
    hide Resolve;
  }

  /** The instant is whole, and cuts less than a millisecond off, toward the clock's zero. */
  predicate Cuts(exact: real, cut: real) {
    && cut.Floor as real == cut
    && if exact >= 0.0 then cut <= exact < cut + 1.0 else cut - 1.0 < exact <= cut
  }

  /** The last so many days of 24 hours, boundary included; what has no date is not within any. */
  lemma AgeSays(w: World, now: real, leaf: Leaf, column: Column, days: real, c: Contact) returns (since: real)
    requires Resolve(leaf.field) == Some(Plain(column)) && column in {FirstOrderAt, LastOrderAt, CreatedAt}
    requires (leaf.op.WithinDays? || leaf.op.NotWithinDays?) && leaf.value == Some(VNumber(days)) && days >= 0.0
    ensures Cuts(now - days * 24.0 * 60.0 * 60.0 * 1000.0, since)
    ensures LeafOk(w, leaf)
    ensures LeafReading(w, now, leaf, c) ==
      if column in c.times then Know((c.times[column] >= since) == leaf.op.WithinDays?)
      else if leaf.op.WithinDays? then Unknown else True
  {
    since := Since(now, days);
    DaysInMs(days);
    CutToward(now - days * 86400000.0);
    hide Resolve, Whole, Cuts;
    AgeRead(w, now, leaf, column, days, c);
  }

  lemma DaysInMs(days: real)
    ensures days * 24.0 * 60.0 * 60.0 * 1000.0 == days * 86400000.0
  {
  }

  lemma AgeRead(w: World, now: real, leaf: Leaf, column: Column, days: real, c: Contact)
    requires Resolve(leaf.field) == Some(Plain(column)) && column in {FirstOrderAt, LastOrderAt, CreatedAt}
    requires (leaf.op.WithinDays? || leaf.op.NotWithinDays?) && leaf.value == Some(VNumber(days)) && days >= 0.0
    ensures LeafOk(w, leaf)
    ensures LeafReading(w, now, leaf, c) ==
      if column in c.times then Know((c.times[column] >= Since(now, days)) == leaf.op.WithinDays?)
      else if leaf.op.WithinDays? then Unknown else True
  {
    hide Resolve, Since;
  }

  lemma WholeIsWhole(n: int)
    ensures (n as real).Floor == n
  {
  }

  lemma CutToward(x: real)
    ensures Cuts(x, Whole(x))
  {
    WholeIsWhole(x.Floor);
    WholeIsWhole(-(-x).Floor);
    assert x.Floor as real <= x < x.Floor as real + 1.0;
    assert -(((-x).Floor) as real) == (-(-x).Floor) as real;
  }

  // ------------------------------------------------------------------------- text

  predicate TextColumn(column: Column) {
    column in {Email, Phone, Locale, Timezone, FirstName, LastName}
  }

  /** The text a value is compared as. */
  predicate Written(w: World, v: Value, s: string) {
    match v
    case VText(t) => s == t
    case VNumber(n) => s == w.show(n)
    case VBool(true) => s == "true"
    case VBool(false) => s == "false"
    case VList(_) => false
  }

  predicate SameButForCase(w: World, a: string, b: string) {
    |a| == |b| && forall i :: 0 <= i < |a| ==> w.fold(a[i]) == w.fold(b[i])
  }

  /** Only email addresses are equal whatever their case. */
  lemma TextEqualitySays(w: World, now: real, leaf: Leaf, column: Column, s: string, c: Contact)
    requires Resolve(leaf.field) == Some(Plain(column)) && TextColumn(column)
    requires (leaf.op.Eq? || leaf.op.Neq?) && leaf.value.Some? && Written(w, leaf.value.value, s)
    ensures LeafOk(w, leaf)
    ensures LeafReading(w, now, leaf, c) ==
      if column !in c.texts then Missing(leaf.op)
      else
        var same := if column.Email? then SameButForCase(w, c.texts[column], s) else c.texts[column] == s;
        Know(same == leaf.op.Eq?)
  {
    if column in c.texts { FoldedAlike(w, c.texts[column], s); }
    hide Resolve, Folded, SameButForCase;
  }

  lemma FoldedAlike(w: World, a: string, b: string)
    ensures Folded(w, a) == Folded(w, b) <==> SameButForCase(w, a, b)
  {
    if Folded(w, a) == Folded(w, b) {
      forall i | 0 <= i < |a| ensures w.fold(a[i]) == w.fold(b[i]) {
        assert Folded(w, a)[i] == Folded(w, b)[i];
      }
    }
  }

  /** The collation decides which text comes first; of two equal ones neither does. */
  predicate InOrder(w: World, op: Operator, a: string, b: string)
    requires Ordering(op)
  {
    match op
    case Gt => w.before(b, a)
    case Gte => w.before(b, a) || a == b
    case Lt => w.before(a, b)
    case Lte => w.before(a, b) || a == b
  }

  lemma TextOrderSays(w: World, now: real, leaf: Leaf, column: Column, s: string, c: Contact)
    requires Resolve(leaf.field) == Some(Plain(column)) && TextColumn(column) && !column.Email?
    requires Ordering(leaf.op) && leaf.value.Some? && Written(w, leaf.value.value, s)
    ensures LeafOk(w, leaf)
    ensures LeafReading(w, now, leaf, c) ==
      if column in c.texts then Know(InOrder(w, leaf.op, c.texts[column], s)) else Unknown
  {
    hide Resolve;
  }

  /** The text with the case of every character folded away. */
  predicate Caseless(w: World, s: string, folded: string) {
    |folded| == |s| && forall i :: 0 <= i < |s| ==> folded[i] == w.fold(s[i])
  }

  /** Email addresses are put in order as if they had no case either. */
  lemma EmailOrderSays(w: World, now: real, leaf: Leaf, s: string, a: string, b: string, c: Contact)
    requires Resolve(leaf.field) == Some(Plain(Email)) && Email in c.texts
    requires Ordering(leaf.op) && leaf.value.Some? && Written(w, leaf.value.value, s)
    requires Caseless(w, c.texts[Email], a) && Caseless(w, s, b)
    ensures LeafOk(w, leaf) && LeafReading(w, now, leaf, c) == Know(InOrder(w, leaf.op, a, b))
  {
    assert Folded(w, c.texts[Email]) == a && Folded(w, s) == b;
    hide Resolve, Folded, Caseless;
  }

  predicate StandsAt(w: World, text: string, needle: string, a: nat) {
    a + |needle| <= |text| && SameButForCase(w, text[a..a + |needle|], needle)
  }

  /** The needle stands somewhere in the text, whatever the case of either. */
  predicate Contained(w: World, text: string, needle: string) {
    exists a: nat :: a <= |text| && StandsAt(w, text, needle, a)
  }

  lemma StandsIsStarts(w: World, text: string, needle: string, a: nat)
    requires a <= |text|
    ensures StandsAt(w, text, needle, a) <==> StartsWith(w, needle, text[a..])
  {
    if a + |needle| <= |text| {
      var part := text[a..a + |needle|];
      assert forall k :: 0 <= k < |needle| ==> part[k] == text[a..][k];
    }
  }

  lemma ContainedIsWithin(w: World, text: string, needle: string)
    ensures Contained(w, text, needle) <==> Within(w, needle, text)
  {
    if Contained(w, text, needle) {
      var a: nat :| a <= |text| && StandsAt(w, text, needle, a);
      StandsIsStarts(w, text, needle, a);
    }
    if Within(w, needle, text) {
      var a :| 0 <= a <= |text| && StartsWith(w, needle, text[a..]);
      StandsIsStarts(w, text, needle, a);
    }
  }

  lemma ContainsSays(w: World, now: real, leaf: Leaf, column: Column, s: string, c: Contact)
    requires Resolve(leaf.field) == Some(Plain(column)) && TextColumn(column)
    requires (leaf.op.Contains? || leaf.op.NotContains?) && leaf.value.Some? && Written(w, leaf.value.value, s)
    ensures LeafOk(w, leaf)
    ensures LeafReading(w, now, leaf, c) ==
      if column in c.texts then Know(Contained(w, c.texts[column], s) == leaf.op.Contains?)
      else if leaf.op.Contains? then Unknown else True
  {
    if column in c.texts { ContainedIsWithin(w, c.texts[column], s); }
    hide Resolve, Contained, Within;
  }

  // ------------------------------------------------------------------------- tags

  lemma TagSays(w: World, now: real, leaf: Leaf, s: string, c: Contact)
    requires Resolve(leaf.field) == Some(Plain(Tags))
    requires (leaf.op.Contains? || leaf.op.NotContains?) && leaf.value.Some? && Written(w, leaf.value.value, s)
    ensures LeafOk(w, leaf)
    ensures LeafReading(w, now, leaf, c) == Know((s in c.tags) == leaf.op.Contains?)
  {
    hide Resolve;
  }

  // ------------------------------------------------------------------------ lists

  predicate WrittenItem(w: World, x: Item, s: string) {
    match x
    case ItemText(t) => s == t
    case ItemNumber(n) => s == w.show(n)
  }

  /** Some item of the list is this text. */
  predicate Lists(w: World, items: seq<Item>, s: string) {
    exists i :: 0 <= i < |items| && WrittenItem(w, items[i], s)
  }

  lemma ItemIsListed(w: World, items: seq<Item>, s: string)
    ensures Lists(w, items, s) <==> exists i :: 0 <= i < |items| && ItemTextOf(w, items[i]) == s
  {
    if i :| 0 <= i < |items| && ItemTextOf(w, items[i]) == s {
      assert WrittenItem(w, items[i], s);
    }
    if Lists(w, items, s) {
      var i :| 0 <= i < |items| && WrittenItem(w, items[i], s);
      assert ItemTextOf(w, items[i]) == s;
    }
  }

  /** Some tag the contact has is in the list. */
  lemma TagListSays(w: World, now: real, leaf: Leaf, items: seq<Item>, c: Contact)
    requires Resolve(leaf.field) == Some(Plain(Tags))
    requires (leaf.op.In? || leaf.op.NotIn?) && leaf.value == Some(VList(items)) && items != []
    ensures LeafOk(w, leaf)
    ensures LeafReading(w, now, leaf, c) == Know((exists t :: t in c.tags && Lists(w, items, t)) == leaf.op.In?)
  {
    SharedTag(w, items, c);
    hide Resolve, ItemTextOf, Lists;
  }

  lemma SharedTag(w: World, items: seq<Item>, c: Contact)
    ensures (exists t :: t in c.tags && Lists(w, items, t)) <==>
            (exists i :: 0 <= i < |items| && ItemTextOf(w, items[i]) in c.tags)
  {
    hide Lists;
    if t :| t in c.tags && Lists(w, items, t) {
      ItemIsListed(w, items, t);
    }
    if i :| 0 <= i < |items| && ItemTextOf(w, items[i]) in c.tags {
      ItemIsListed(w, items, ItemTextOf(w, items[i]));
    }
  }

  lemma TextListSays(w: World, now: real, leaf: Leaf, column: Column, items: seq<Item>, c: Contact)
    requires Resolve(leaf.field) == Some(Plain(column))
    requires (leaf.op.In? || leaf.op.NotIn?) && leaf.value == Some(VList(items)) && items != []
    requires TextColumn(column)
    ensures LeafOk(w, leaf)
    ensures LeafReading(w, now, leaf, c) ==
      if column in c.texts then Know(Lists(w, items, c.texts[column]) == leaf.op.In?)
      else if leaf.op.In? then Unknown else True
  {
    if column in c.texts { ItemIsListed(w, items, c.texts[column]); }
    hide Resolve, ItemTextOf, Lists;
  }

  lemma NumberListSays(w: World, now: real, leaf: Leaf, column: Column, items: seq<Item>, c: Contact)
    requires Resolve(leaf.field) == Some(Plain(column))
    requires (leaf.op.In? || leaf.op.NotIn?) && leaf.value == Some(VList(items)) && items != []
    requires column in {OrderCount, LifetimeValue}
    ensures LeafOk(w, leaf) <==> forall x :: x in items ==> x.ItemNumber?
    ensures LeafOk(w, leaf) ==>
      LeafReading(w, now, leaf, c) ==
      if column in c.numbers then Know((ItemNumber(c.numbers[column]) in items) == leaf.op.In?)
      else if leaf.op.In? then Unknown else True
  {
    hide Resolve, ItemTextOf, Lists;
  }

  /** The list names the same instant, however it is written. */
  lemma SharedInstant(w: World, items: seq<Item>, t: real)
    ensures (exists s: string :: Lists(w, items, s) && w.instant(s) == t) <==>
            (exists i :: 0 <= i < |items| && w.instant(ItemTextOf(w, items[i])) == t)
  {
    hide Lists;
    if s: string :| Lists(w, items, s) && w.instant(s) == t {
      ItemIsListed(w, items, s);
    }
    if i :| 0 <= i < |items| && w.instant(ItemTextOf(w, items[i])) == t {
      ItemIsListed(w, items, ItemTextOf(w, items[i]));
    }
  }

  lemma TimeListSays(w: World, now: real, leaf: Leaf, column: Column, items: seq<Item>, c: Contact)
    requires Resolve(leaf.field) == Some(Plain(column))
    requires (leaf.op.In? || leaf.op.NotIn?) && leaf.value == Some(VList(items)) && items != []
    requires column in {FirstOrderAt, LastOrderAt, CreatedAt}
    ensures LeafOk(w, leaf)
    ensures LeafReading(w, now, leaf, c) ==
      if column in c.times then
        Know((exists s: string :: Lists(w, items, s) && w.instant(s) == c.times[column]) == leaf.op.In?)
      else if leaf.op.In? then Unknown else True
  {
    if column in c.times { SharedInstant(w, items, c.times[column]); }
    hide Resolve, ItemTextOf, Lists;
  }

  // ------------------------------------------------------------------- attributes

  /** The text Postgres gives for a stored attribute, if there is one. */
  predicate StoredAs(w: World, c: Contact, key: string, t: string) {
    && key in c.attributes
    && match c.attributes[key]
       case JNull => false
       case JBool(true) => t == "true"
       case JBool(false) => t == "false"
       case JNumber(n) => t == w.render(n)
       case JString(s) => t == s
       case JOther(text) => t == text
  }

  predicate NothingStored(c: Contact, key: string) {
    key !in c.attributes || c.attributes[key] == JNull
  }

  lemma AttributeTextSays(w: World, now: real, leaf: Leaf, key: string, t: string, s: string, c: Contact)
    requires Resolve(leaf.field) == Some(Attribute(key)) && leaf.value.Some? && Written(w, leaf.value.value, s)
    requires StoredAs(w, c, key, t)
    ensures leaf.op.Eq? || leaf.op.Neq? ==>
      LeafOk(w, leaf) && LeafReading(w, now, leaf, c) == Know((t == s) == leaf.op.Eq?)
    ensures leaf.op.Contains? || leaf.op.NotContains? ==>
      LeafOk(w, leaf) && LeafReading(w, now, leaf, c) == Know(Contained(w, t, s) == leaf.op.Contains?)
    ensures Ordering(leaf.op) && !leaf.value.value.VNumber? ==>
      LeafOk(w, leaf) && LeafReading(w, now, leaf, c) == Know(InOrder(w, leaf.op, t, s))
  {
    ContainedIsWithin(w, t, s);
    hide Resolve, Contained, Within;
  }

  lemma AttributeListSays(w: World, now: real, leaf: Leaf, key: string, t: string, items: seq<Item>, c: Contact)
    requires Resolve(leaf.field) == Some(Attribute(key)) && StoredAs(w, c, key, t)
    requires (leaf.op.In? || leaf.op.NotIn?) && leaf.value == Some(VList(items)) && items != []
    ensures LeafOk(w, leaf) && LeafReading(w, now, leaf, c) == Know(Lists(w, items, t) == leaf.op.In?)
  {
    ItemIsListed(w, items, t);
    hide Resolve, ItemTextOf, Lists;
  }

  /** An attribute that holds true is equal to true, and not to false. */
  lemma BooleansSay(w: World, now: real, field: string, key: string, stored: bool, asked: bool, c: Contact)
    requires Resolve(field) == Some(Attribute(key)) && key in c.attributes && c.attributes[key] == JBool(stored)
    ensures
      var leaf := Leaf(field, Eq, Some(VBool(asked)));
      LeafOk(w, leaf) && LeafReading(w, now, leaf, c) == Know(stored == asked)
  {
    assert "true"[0] != "false"[0];
    AttributeTextSays(w, now, Leaf(field, Eq, Some(VBool(asked))), key, if stored then "true" else "false",
                      if asked then "true" else "false", c);
    hide LeafOk, LeafReading;
  }

  /** Against a number only a stored number compares: any other stored value is a definite no, none at all is unknown. */
  lemma AttributeNumberSays(w: World, now: real, leaf: Leaf, key: string, n: real, c: Contact)
    requires Resolve(leaf.field) == Some(Attribute(key)) && Ordering(leaf.op) && leaf.value == Some(VNumber(n))
    ensures LeafOk(w, leaf)
    ensures LeafReading(w, now, leaf, c) ==
      if key !in c.attributes then Unknown
      else Know(c.attributes[key].JNumber? && Stands(leaf.op, c.attributes[key].n, n))
  {
    hide Resolve;
  }

  /** Of an attribute that is absent, or null, every other question with a value has the answer of a missing value. */
  lemma NothingStoredSays(w: World, now: real, leaf: Leaf, key: string, c: Contact)
    requires Resolve(leaf.field) == Some(Attribute(key)) && LeafOk(w, leaf) && NothingStored(c, key)
    requires leaf.value.Some? && !(Ordering(leaf.op) && leaf.value.value.VNumber?)
    ensures LeafReading(w, now, leaf, c) == if leaf.op.Neq? || leaf.op.NotContains? || leaf.op.NotIn? then True else Unknown
  {
    hide Resolve;
  }

  // ------------------------------------------------------------------------ what is refused

  predicate Presence(leaf: Leaf) {
    (leaf.op.IsSet? || leaf.op.IsNotSet?) && leaf.value.None?
  }

  predicate OneAsked(leaf: Leaf) {
    leaf.value.Some? && !leaf.value.value.VList?
  }

  predicate SomeListed(leaf: Leaf) {
    (leaf.op.In? || leaf.op.NotIn?) && leaf.value.Some? && leaf.value.value.VList? && |leaf.value.value.items| > 0
  }

  /** Which operators, with which values, a field of each kind takes; every other leaf is refused. */
  lemma LeafAccepted(w: World, leaf: Leaf, f: Field)
    requires Resolve(leaf.field) == Some(f)
    ensures LeafOk(w, leaf) <==>
      || Presence(leaf)
      || (f == Plain(Tags) && ((OneAsked(leaf) && (leaf.op.Contains? || leaf.op.NotContains?)) || SomeListed(leaf)))
      || (f in {Plain(OrderCount), Plain(LifetimeValue)}
          && (|| (Compares(leaf.op) && leaf.value.Some? && leaf.value.value.VNumber?)
              || (SomeListed(leaf) && forall x :: x in leaf.value.value.items ==> x.ItemNumber?)))
      || (f in {Plain(FirstOrderAt), Plain(LastOrderAt), Plain(CreatedAt)}
          && (|| (Compares(leaf.op) && leaf.value.Some? && leaf.value.value.VText? && w.parsable(leaf.value.value.s))
              || ((leaf.op.WithinDays? || leaf.op.NotWithinDays?)
                  && leaf.value.Some? && leaf.value.value.VNumber? && leaf.value.value.n >= 0.0)
              || SomeListed(leaf)))
      || ((f.Attribute? || TextColumn(f.column))
          && (|| (OneAsked(leaf) && (Compares(leaf.op) || leaf.op.Contains? || leaf.op.NotContains?))
              || SomeListed(leaf)))
  {
    hide Resolve;
  }
}
