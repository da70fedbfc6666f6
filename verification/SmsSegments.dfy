/** Counting SMS segments (3GPP TS 23.038 section 6.2.1 and TS 23.040 section 9.2.3.24.1). */
module SmsSegments {
  import opened Prelude

  /** One-septet characters of the GSM 7 bit default alphabet. */
  const GSM7_BASE: string := GSM7_SIGNS + GSM7_GREEK + GSM7_MARKS + GSM7_UPPER + GSM7_LOWER

  const GSM7_SIGNS: string := "@£$¥èéùìòÇ\nØø\rÅå"
  const GSM7_GREEK: string := "Δ_ΦΓΛΩΠΨΣΘΞÆæßÉ"
  const GSM7_MARKS: string := " !\"#¤%&'()*+,-./0123456789:;<=>?"
  const GSM7_UPPER: string := "¡ABCDEFGHIJKLMNOPQRSTUVWXYZÄÖÑÜ§"
  const GSM7_LOWER: string := "¿abcdefghijklmnopqrstuvwxyzäöñüà"

  /** Two septets each: an escape and a code. */
  const GSM7_EXTENDED: string := "^{}\\[~]|€"

  function Total(costs: seq<nat>): nat {
    if costs == [] then 0 else Total(costs[..|costs| - 1]) + costs[|costs| - 1]
  }

  lemma TotalStep(costs: seq<nat>, x: nat)
    ensures Total(costs + [x]) == Total(costs) + x
  {
    assert (costs + [x])[..|costs|] == costs;
  }

  // ------------------------------------------------------------------ what a packing is

  function Flatten(groups: seq<seq<nat>>): seq<nat> {
    if groups == [] then [] else Flatten(groups[..|groups| - 1]) + groups[|groups| - 1]
  }

  /** The characters in order, cut into consecutive segments that each fit: no character is ever split. */
  ghost predicate IsPacking(groups: seq<seq<nat>>, costs: seq<nat>, multi: nat) {
    && groups != []
    && Flatten(groups) == costs
    && forall i :: 0 <= i < |groups| ==> Total(groups[i]) <= multi
  }

  predicate UnitCosts(costs: seq<nat>) {
    forall i :: 0 <= i < |costs| ==> 1 <= costs[i] <= 2
  }

  datatype Packed = Packed(segments: nat, used: nat)

  /** One more character: in the current segment if it fits, else in the next. */
  function Place(p: Packed, cost: nat, multi: nat): Packed {
    if p.used + cost > multi then Packed(p.segments + 1, cost) else Packed(p.segments, p.used + cost)
  }

  function Greedy(costs: seq<nat>, multi: nat): Packed {
    if costs == [] then Packed(1, 0) else Place(Greedy(costs[..|costs| - 1], multi), costs[|costs| - 1], multi)
  }

  lemma NextSegment(groups: seq<seq<nat>>, costs: seq<nat>, x: nat, multi: nat)
    requires IsPacking(groups, costs, multi) && x <= multi
    ensures IsPacking(groups + [[x]], costs + [x], multi) && Total([x]) == x
  {
    assert (groups + [[x]])[..|groups|] == groups;
    TotalStep([], x);
    assert [] + [x] == [x];
  }

  lemma SameSegment(groups: seq<seq<nat>>, costs: seq<nat>, x: nat, multi: nat)
    requires IsPacking(groups, costs, multi) && Total(groups[|groups| - 1]) + x <= multi
    ensures
      var last := |groups| - 1;
      var tail := groups[last] + [x];
      IsPacking(groups[last := tail], costs + [x], multi) && Total(tail) == Total(groups[last]) + x
  {
    var last := |groups| - 1;
    var after := groups[last := groups[last] + [x]];
    assert after[..last] == groups[..last];
    TotalStep(groups[last], x);
    assert Flatten(after) == Flatten(groups) + [x];
  }

  lemma {:induction false} GreedyPacks(costs: seq<nat>, multi: nat) returns (groups: seq<seq<nat>>)
    requires UnitCosts(costs) && multi >= 2
    ensures IsPacking(groups, costs, multi) && |groups| == Greedy(costs, multi).segments
    ensures Total(groups[|groups| - 1]) == Greedy(costs, multi).used
  {
    if costs == [] {
      groups := [[]];
      assert Flatten(groups[..0]) == [];
    } else {
      var n := |costs| - 1;
      var before := GreedyPacks(costs[..n], multi);
      var last := |before| - 1;
      assert costs == costs[..n] + [costs[n]];
      if Greedy(costs[..n], multi).used + costs[n] > multi {
        NextSegment(before, costs[..n], costs[n], multi);
        groups := before + [[costs[n]]];
      } else {
        SameSegment(before, costs[..n], costs[n], multi);
        groups := before[last := before[last] + [costs[n]]];
      }
    }
  }

  predicate AtMostLex(p: Packed, segments: nat, used: nat) {
    p.segments < segments || (p.segments == segments && p.used <= used)
  }

  /** However the characters are packed, the greedy packing has got no further. */
  lemma {:induction false} GreedyIsLeast(groups: seq<seq<nat>>, costs: seq<nat>, multi: nat)
    requires IsPacking(groups, costs, multi)
    ensures AtMostLex(Greedy(costs, multi), |groups|, Total(groups[|groups| - 1]))
    decreases |groups| + |costs|
  {
    var last := |groups| - 1;
    var front, tail := groups[..last], groups[last];
    assert Flatten(groups) == Flatten(front) + tail;
    if tail == [] {
      if front != [] {
        assert Flatten(front) == costs;
        GreedyIsLeast(front, costs, multi);
      }
    } else {
      var n, k := |costs| - 1, |tail| - 1;
      var shorter := groups[last := tail[..k]];
      assert shorter[..last] == front && tail == tail[..k] + [tail[k]];
      assert Flatten(shorter) == costs[..n] && costs[n] == tail[k];
      GreedyIsLeast(shorter, costs[..n], multi);
    }
  }

  /** Every segment but the last is full but for one unit at most. */
  lemma {:induction false} GreedyBounds(costs: seq<nat>, multi: nat)
    requires UnitCosts(costs) && multi >= 2
    ensures
      var p := Greedy(costs, multi);
      && p.segments >= 1 && p.used <= multi && (costs != [] ==> p.used > 0)
      && (p.segments - 1) * (multi - 1) + p.used <= Total(costs) <= (p.segments - 1) * multi + p.used
  {
    if costs != [] {
      var n := |costs| - 1;
      GreedyBounds(costs[..n], multi);
      var p := Greedy(costs[..n], multi);
      if p.used + costs[n] > multi {
        assert p.segments * (multi - 1) == (p.segments - 1) * (multi - 1) + (multi - 1);
        assert p.segments * multi == (p.segments - 1) * multi + multi;
      }
    }
  }

  /** packSegments. */
  method PackSegments(costs: seq<nat>, single: nat, multi: nat) returns (segments: nat)
    requires UnitCosts(costs) && 2 <= multi <= single
    ensures segments == 1 <==> Total(costs) <= single
    ensures Total(costs) > single ==> exists groups :: IsPacking(groups, costs, multi) && |groups| == segments
    ensures Total(costs) > single ==> forall groups :: IsPacking(groups, costs, multi) ==> segments <= |groups|
    ensures Total(costs) > single ==> (segments - 1) * (multi - 1) < Total(costs) <= segments * multi
    ensures Total(costs) > single ==> segments == Greedy(costs, multi).segments
  {
    if Total(costs) <= single { return 1; }
    segments := 1;
    var used: nat := 0;
    for i := 0 to |costs|
      invariant Greedy(costs[..i], multi) == Packed(segments, used)
    {
      assert costs[..i + 1][..i] == costs[..i];
      if used + costs[i] > multi {
        segments := segments + 1;
        used := 0;
      }
      used := used + costs[i];
    }
    assert costs[..|costs|] == costs;
    GreedyBounds(costs, multi);
    assert segments * multi == (segments - 1) * multi + multi;
    var packing := PackingExists(costs, multi);
    forall groups | IsPacking(groups, costs, multi) ensures segments <= |groups| {
      GreedyIsLeast(groups, costs, multi);
    }
  }

  lemma PackingExists(costs: seq<nat>, multi: nat) returns (groups: seq<seq<nat>>)
    requires UnitCosts(costs) && multi >= 2
    ensures IsPacking(groups, costs, multi) && |groups| == Greedy(costs, multi).segments
  {
    groups := GreedyPacks(costs, multi);
  }

  // ------------------------------------------------------------------------ smsSegments

  datatype Encoding = Gsm7 | Ucs2

  predicate InBase(c: char) {
    c in GSM7_BASE
  }

  predicate InExtended(c: char) {
    c in GSM7_EXTENDED
  }

  predicate Gsm(c: char) {
    InBase(c) || InExtended(c)
  }

  function GsmCost(c: char): (cost: nat)
    ensures 1 <= cost <= 2
  {
    if InBase(c) then 1 else 2
  }

  lemma GsmMeans()
    ensures forall c :: Gsm(c) <==> c in GSM7_BASE || c in GSM7_EXTENDED
    ensures forall c :: Gsm(c) <==> InBase(c) || InExtended(c)
    ensures forall c :: GsmCost(c) == if InBase(c) then 1 else 2
    ensures forall c :: Gsm(c) ==> (EscapedChar(c) <==> !InBase(c))
  {
    hide GSM7_BASE, GSM7_EXTENDED;
  }

  /** UTF-16 code units. */
  function Ucs2Cost(c: char): (cost: nat)
    ensures 1 <= cost <= 2
  {
    if c as int > 0xffff then 2 else 1
  }

  /** Sent as an escape and a code. */
  predicate EscapedChar(c: char) {
    c in GSM7_EXTENDED && c !in GSM7_BASE
  }

  /** Outside the basic multilingual plane, so a pair of UTF-16 units. */
  predicate Supplementary(c: char) {
    c as int >= 0x1_0000
  }

  /** One unit for every character, and one more for those that need two. */
  lemma {:induction false} UnitsAre(text: string, cost: char -> nat, double: char -> bool)
    requires forall i :: 0 <= i < |text| ==> cost(text[i]) == if double(text[i]) then 2 else 1
    ensures Total(Costs(text, cost)) == |text| + Count(double, text)
  {
    if text != [] {
      var n := |text| - 1;
      assert Costs(text, cost)[..n] == Costs(text[..n], cost);
      UnitsAre(text[..n], cost, double);
    }
  }

  function Costs(text: string, cost: char -> nat): seq<nat> {
    seq(|text|, i requires 0 <= i < |text| => cost(text[i]))
  }

  lemma CostsStep(text: string, k: nat, cost: char -> nat)
    requires k < |text|
    ensures Costs(text[..k + 1], cost) == Costs(text[..k], cost) + [cost(text[k])]
  {
  }

  method CountSegments(text: string) returns (segments: nat, encoding: Encoding, units: nat)
    ensures encoding == Gsm7 <==> forall i :: 0 <= i < |text| ==> text[i] in GSM7_BASE || text[i] in GSM7_EXTENDED
    ensures units == |text| + Count(if encoding == Gsm7 then EscapedChar else Supplementary, text)
    ensures
      var (costs, single, multi) :=
        if encoding == Gsm7 then (Costs(text, GsmCost), 160, 153) else (Costs(text, Ucs2Cost), 70, 67);
      && units == Total(costs)
      && (segments == 1 <==> units <= single)
      && (units > single ==> segments == Greedy(costs, multi).segments)
  {
    GsmMeans();
    hide InBase, InExtended, Gsm, GsmCost, EscapedChar, GSM7_BASE, GSM7_EXTENDED;
    var costs: seq<nat> := [];
    var gsm := true;
    var i := 0;
    while i < |text|
      invariant i <= |text| && gsm
      invariant costs == Costs(text[..i], GsmCost)
      invariant forall j :: 0 <= j < i ==> Gsm(text[j])
    {
      CostsStep(text, i, GsmCost);
      if InBase(text[i]) {
        costs := costs + [1];
      } else if InExtended(text[i]) {
        costs := costs + [2];
      } else {
        gsm := false;
        break;
      }
      i := i + 1;
    }
    if !gsm {
      costs := [];
      for k := 0 to |text|
        invariant costs == Costs(text[..k], Ucs2Cost)
      {
        CostsStep(text, k, Ucs2Cost);
        costs := costs + [Ucs2Cost(text[k])];
      }
      assert text[..|text|] == text;
      assert forall k :: 0 <= k < |costs| ==> costs[k] == Ucs2Cost(text[k]);
      UnitsAre(text, Ucs2Cost, Supplementary);
      segments := PackSegments(costs, 70, 67);
      return segments, Ucs2, Total(costs);
    }
    assert text[..|text|] == text;
    assert forall k :: 0 <= k < |costs| ==> costs[k] == GsmCost(text[k]);
    UnitsAre(text, GsmCost, EscapedChar);
    segments := PackSegments(costs, 160, 153);
    return segments, Gsm7, Total(costs);
  }

  // ------------------------------------------------ why dividing the units is not enough

  function Doubles(n: nat): seq<nat> {
    seq(n, i => 2)
  }

  /** Only `multi / 2` two-unit characters fit in a segment, whatever is left over. */
  lemma {:induction false} DoublesPack(n: nat, multi: nat)
    requires multi >= 2 && n >= 1
    ensures
      var p, per := Greedy(Doubles(n), multi), multi / 2;
      && p.segments >= 1
      && (p.segments - 1) * per < n <= p.segments * per
      && p.used == 2 * (n - (p.segments - 1) * per)
  {
    var per := multi / 2;
    assert Doubles(n)[..n - 1] == Doubles(n - 1);
    if n == 1 {
      assert Greedy(Doubles(0), multi) == Packed(1, 0);
    } else {
      DoublesPack(n - 1, multi);
      var s := Greedy(Doubles(n - 1), multi).segments;
      assert s * per == (s - 1) * per + per;
      assert (s + 1) * per == s * per + per;
    }
  }

  lemma NoEuroInSigns()
    ensures '€' !in GSM7_SIGNS && '€' !in GSM7_GREEK
  {
  }

  lemma NoEuroInMarks()
    ensures '€' !in GSM7_MARKS
  {
  }

  lemma NoEuroInLetters()
    ensures '€' !in GSM7_UPPER && '€' !in GSM7_LOWER
  {
  }

  lemma EuroIsEscaped()
    ensures EscapedChar('€') && Gsm('€')
  {
    NoEuroInSigns();
    NoEuroInMarks();
    NoEuroInLetters();
    hide GSM7_SIGNS, GSM7_GREEK, GSM7_MARKS, GSM7_UPPER, GSM7_LOWER;
  }

  /** 153 euro signs are 306 septets, an even two segments; they take three. */
  lemma EuroSigns()
    ensures
      var text: string := seq(153, i => '€');
      && (forall i :: 0 <= i < |text| ==> Gsm(text[i]))
      && Total(Costs(text, GsmCost)) == 2 * 153 && Greedy(Costs(text, GsmCost), 153).segments == 3
  {
    EuroIsEscaped();
    hide InBase, InExtended, GSM7_BASE, GSM7_EXTENDED;
    GsmMeans();
    var text: string := seq(153, i => '€');
    assert Costs(text, GsmCost) == Doubles(153);
    DoublesPack(153, 153);
    TotalDoubles(153);
  }

  lemma {:induction false} TotalDoubles(n: nat)
    ensures Total(Doubles(n)) == 2 * n
  {
    if n > 0 {
      assert Doubles(n)[..n - 1] == Doubles(n - 1);
      TotalDoubles(n - 1);
    }
  }
}
