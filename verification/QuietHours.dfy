/** When a message may be sent, on the recipient's clock. */
module QuietHours {
  import opened Prelude

  const MINUTE := 60000
  const DAY := 86400000
  const HORIZON := 14

  /** A time of day, 'HH:mm', in minutes. */
  type TimeOfDay = m: int | 0 <= m < 1440 witness 0

  /**
   * A time zone: the wall clock at an instant, and the instant chosen for a wall time, which may depend on
   * the instant one starts from when the wall time is ambiguous. Both are in milliseconds.
   */
  datatype Zone = Zone(local: int -> int, at: (int, int) -> int)

  /** A wall time that a gap swallows comes back later, by less than `gap`; every other one comes back as it is. */
  ghost predicate GapsBelow(z: Zone, gap: int) {
    forall wall, from {:trigger z.at(wall, from)} :: wall <= z.local(z.at(wall, from)) < wall + gap
  }

  function Fixed(offset: int): Zone {
    Zone(t => t + offset, (wall, from) => wall - offset)
  }

  function Date(z: Zone, t: int): int {
    z.local(t) / DAY
  }

  function MinuteOfDay(z: Zone, t: int): int {
    z.local(t) % DAY / MINUTE
  }

  /** 0 is Sunday; the day the clock counts from was a Thursday. */
  function Weekday(date: int): int {
    (date + 4) % 7
  }

  /** The calendar: 1 January 1970 was a Thursday, 1 January 2024 a Monday, and weekdays follow each other. */
  lemma WeekdaysFollow(date: int)
    ensures Weekday(0) == 4 && Weekday(19723) == 1
    ensures 0 <= Weekday(date) <= 6
    ensures Weekday(date + 1) == if Weekday(date) == 6 then 0 else Weekday(date) + 1
  {
  }

  // ------------------------------------------------------------------------ the window

  datatype Config = Config(
    floorStart: TimeOfDay, floorEnd: TimeOfDay,
    windowStart: Option<TimeOfDay>, windowEnd: Option<TimeOfDay>, sendDays: seq<int>)

  datatype Window = Window(start: TimeOfDay, end: TimeOfDay)

  predicate Inside(w: Window, minute: int) {
    w.start <= minute < w.end
  }

  /** A campaign can only narrow the tenant's floor; a window without a minute is refused. */
  function EffectiveWindow(c: Config): (w: Option<Window>)
    ensures w.None? <==> !exists m: int :: AllowedMinute(c, m)
    ensures w.Some? ==> forall m: int :: Inside(w.value, m) <==> AllowedMinute(c, m)
  {
    var start := if c.windowStart.Some? then Max(c.floorStart, c.windowStart.value) else c.floorStart;
    var end := if c.windowEnd.Some? then Min(c.floorEnd, c.windowEnd.value) else c.floorEnd;
    assert start < end ==> AllowedMinute(c, start);
    if start >= end then None else Some(Window(start, end))
  }

  /** In the tenant's floor and in the campaign's window. */
  predicate AllowedMinute(c: Config, m: int) {
    && c.floorStart <= m < c.floorEnd
    && (c.windowStart.Some? ==> c.windowStart.value <= m)
    && (c.windowEnd.Some? ==> m < c.windowEnd.value)
  }

  /** The instant is in the window, on a permitted weekday, on the recipient's clock. */
  predicate InSlot(z: Zone, w: Window, days: seq<int>, t: int) {
    Inside(w, MinuteOfDay(z, t)) && Weekday(Date(z, t)) in days
  }

  // ---------------------------------------------------------------------- going through the dates

  function StartOfDay(z: Zone, t: int): int {
    z.at(Date(z, t) * DAY, t)
  }

  /** plus({ days: 1 }).startOf('day') */
  function NextDay(z: Zone, t: int): int {
    StartOfDay(z, z.at(z.local(t) + DAY, t))
  }

  /** The instant the window opens on the date of `day`, unless a gap pushes it out of the window. */
  function OpeningOn(z: Zone, day: int, w: Window): (at: Option<int>)
  {
    var t := z.at(Date(z, day) * DAY + w.start * MINUTE, day);
    if Inside(w, MinuteOfDay(z, t)) then Some(t) else None
  }

  /** The `i`th date looked at. */
  function DayNumber(z: Zone, first: int, i: nat): int {
    if i == 0 then first else NextDay(z, DayNumber(z, first, i - 1))
  }

  function FirstDay(z: Zone, target: int, w: Window, days: seq<int>): int {
    if MinuteOfDay(z, target) >= w.end || Weekday(Date(z, target)) !in days then NextDay(z, target)
    else StartOfDay(z, target)
  }

  predicate Offers(z: Zone, day: int, w: Window, days: seq<int>) {
    Weekday(Date(z, day)) in days && OpeningOn(z, day, w).Some?
  }

  /** Nothing is offered on the first `k` dates. */
  ghost predicate NoneOffers(z: Zone, first: int, w: Window, days: seq<int>, k: nat) {
    forall j: nat {:trigger DayNumber(z, first, j)} :: j < k ==> !Offers(z, DayNumber(z, first, j), w, days)
  }

  datatype Decision = Eligible(at: int) | Deferred(nextEligibleAt: int)

  datatype Failure = EmptyWindow | NoSendDays | UnknownZone | NoSlot

  /** What is decided about a target in a zone, for a window and permitted days. */
  ghost predicate Decides(z: Zone, target: int, w: Window, days: seq<int>, r: Result<Decision, Failure>) {
    if InSlot(z, w, days, target) then r == Ok(Eligible(target))
    else
      var first := FirstDay(z, target, w, days);
      match r
      case Ok(Deferred(at)) =>
        exists i: nat {:trigger DayNumber(z, first, i)} ::
          && i < 14
          && Offers(z, DayNumber(z, first, i), w, days)
          && OpeningOn(z, DayNumber(z, first, i), w) == Some(at)
          && NoneOffers(z, first, w, days, i)
      case Err(NoSlot) => NoneOffers(z, first, w, days, 14)
      case _ => false
  }

  /** resolveSendTime. */
  method ResolveSendTime(target: int, timezone: Option<string>, tenantTimezone: string, zones: map<string, Zone>, c: Config)
    returns (r: Result<Decision, Failure>)
    ensures
      var name := if timezone.Some? then timezone.value else tenantTimezone;
      if EffectiveWindow(c).None? then r == Err(EmptyWindow)
      else if c.sendDays == [] then r == Err(NoSendDays)
      else if name !in zones then r == Err(UnknownZone)
      else Decides(zones[name], target, EffectiveWindow(c).value, c.sendDays, r)
  {
    var name := if timezone.Some? then timezone.value else tenantTimezone;
    var window := EffectiveWindow(c);
    if window.None? { return Err(EmptyWindow); }
    if c.sendDays == [] { return Err(NoSendDays); }
    if name !in zones { return Err(UnknownZone); }
    var z, w := zones[name], window.value;
    hide EffectiveWindow, MinuteOfDay, Date, Weekday, OpeningOn, NextDay, StartOfDay;

    var minute := MinuteOfDay(z, target);
    var onSendDay := Weekday(Date(z, target)) in c.sendDays;
    if Inside(w, minute) && onSendDay { return Ok(Eligible(target)); }

    var day := if minute >= w.end || !onSendDay then NextDay(z, target) else StartOfDay(z, target);
    ghost var first := day;
    assert first == FirstDay(z, target, w, c.sendDays);
    for i := 0 to HORIZON
      invariant day == DayNumber(z, first, i)
      invariant NoneOffers(z, first, w, c.sendDays, i)
    {
      if Weekday(Date(z, day)) in c.sendDays {
        var opening := OpeningOn(z, day, w);
        if opening.Some? { return Ok(Deferred(opening.value)); }
      }
      day := NextDay(z, day);
    }
    r := Err(NoSlot);
  }

  // ------------------------------------------------------------------ what the decision is worth

  /** An opening that is offered lies on its own date: a shift of less than a day cannot come round to the window again. */
  lemma OpeningIsInSlot(z: Zone, day: int, w: Window, days: seq<int>)
    requires GapsBelow(z, DAY) && Offers(z, day, w, days)
    ensures InSlot(z, w, days, OpeningOn(z, day, w).value)
    ensures Date(z, OpeningOn(z, day, w).value) == Date(z, day)
  {
    var d, wall := Date(z, day), Date(z, day) * DAY + w.start * MINUTE;
    var t := z.at(wall, day);
    var local := z.local(t);
    assert wall <= local < wall + DAY;
    SameDate(d, w.start, local);
  }

  lemma SameDate(d: int, start: int, local: int)
    requires 0 <= start < 1440 && d * DAY + start * MINUTE <= local < d * DAY + start * MINUTE + DAY
    ensures local % DAY / MINUTE >= start ==> local / DAY == d
  {
    if local >= d * DAY + DAY {
      var rest := local - (d + 1) * DAY;
      assert 0 <= rest < start * MINUTE;
      DivMod(local, d + 1, rest);
      assert rest / MINUTE < start;
    } else {
      DivMod(local, d, local - d * DAY);
    }
  }

  lemma DivMod(local: int, d: int, rest: int)
    requires local == d * DAY + rest && 0 <= rest < DAY
    ensures local / DAY == d && local % DAY == rest
  {
  }

  /** Whatever is decided is in the window on a permitted day, and asking again about it says so. */
  lemma DecisionHolds(z: Zone, target: int, w: Window, days: seq<int>, r: Result<Decision, Failure>)
    requires GapsBelow(z, DAY) && Decides(z, target, w, days, r) && r.Ok?
    ensures
      var at := match r.value case Eligible(at) => at case Deferred(at) => at;
      && InSlot(z, w, days, at)
      && forall again :: Decides(z, at, w, days, again) ==> again == Ok(Eligible(at))
  {
    if r.value.Deferred? {
      var first := FirstDay(z, target, w, days);
      var i: nat :| i < HORIZON && Offers(z, DayNumber(z, first, i), w, days)
        && OpeningOn(z, DayNumber(z, first, i), w) == Some(r.value.nextEligibleAt);
      OpeningIsInSlot(z, DayNumber(z, first, i), w, days);
    }
  }

  /** scheduleWithin: the instant to store, never outside the window or on a day that is not permitted. */
  method ScheduleWithin(target: int, timezone: Option<string>, tenantTimezone: string, zones: map<string, Zone>, c: Config)
    returns (r: Result<int, Failure>)
    requires forall name :: name in zones ==> GapsBelow(zones[name], DAY)
    ensures r.Ok? ==>
      var name := if timezone.Some? then timezone.value else tenantTimezone;
      && name in zones && EffectiveWindow(c).Some?
      && InSlot(zones[name], EffectiveWindow(c).value, c.sendDays, r.value)
      && (InSlot(zones[name], EffectiveWindow(c).value, c.sendDays, target) ==> r.value == target)
  {
    hide Decides, InSlot, EffectiveWindow;
    var name := if timezone.Some? then timezone.value else tenantTimezone;
    var decision := ResolveSendTime(target, timezone, tenantTimezone, zones, c);
    match decision {
      case Err(failure) => return Err(failure);
      case Ok(d) =>
        var z, w := zones[name], EffectiveWindow(c).value;
        DecisionHolds(z, target, w, c.sendDays, decision);
        if InSlot(z, w, c.sendDays, target) { TargetStays(z, target, w, c.sendDays, decision); }
        return Ok(match d case Eligible(at) => at case Deferred(at) => at);
    }
  }

  lemma TargetStays(z: Zone, target: int, w: Window, days: seq<int>, r: Result<Decision, Failure>)
    requires Decides(z, target, w, days, r) && InSlot(z, w, days, target)
    ensures r == Ok(Eligible(target))
  {
  }

  /** The start of a date lies on it, however long the gap it falls in. */
  lemma StartKeepsDate(z: Zone, t: int)
    requires GapsBelow(z, DAY)
    ensures Date(z, StartOfDay(z, t)) == Date(z, t)
  {
    var d := Date(z, t);
    var local := z.local(z.at(d * DAY, t));
    DivMod(local, d, local - d * DAY);
  }

  /**
   * A step never repeats a date and skips one at most: exactly when a gap carries the same time of the
   * next day into the day after it.
   */
  lemma StepsOneDateOrTwo(z: Zone, t: int)
    requires GapsBelow(z, DAY)
    ensures
      var skips := z.local(z.at(z.local(t) + DAY, t)) >= (Date(z, t) + 2) * DAY;
      Date(z, NextDay(z, t)) == Date(z, t) + if skips then 2 else 1
  {
    var d := Date(z, t);
    var next := z.at(z.local(t) + DAY, t);
    var k := if z.local(next) >= (d + 2) * DAY then d + 2 else d + 1;
    DivMod(z.local(t), d, z.local(t) % DAY);
    DivMod(z.local(next), k, z.local(next) - k * DAY);
    StartKeepsDate(z, next);
  }

  const HOUR := 3600000

  /** A zone whose clock goes twenty hours ahead at an instant, and again twenty-three hours later. */
  function Leaping(): Zone {
    Zone(t => if t < 0 then t else if t < 23 * HOUR then t + 20 * HOUR else t + 40 * HOUR,
         (wall, from) => if wall < 20 * HOUR then wall else if wall < 63 * HOUR then wall - 20 * HOUR
                         else wall - 40 * HOUR)
  }

  /** Gaps of less than a day are not enough for the walk to see every date: here date 1 goes by unseen. */
  lemma LongGapsSkipADate()
    ensures GapsBelow(Leaping(), DAY) && !GapsBelow(Leaping(), DAY / 2)
    ensures Date(Leaping(), 10 * HOUR) == 1
    ensures
      var first := StartOfDay(Leaping(), 0);
      && Date(Leaping(), first) == 0 && Date(Leaping(), NextDay(Leaping(), first)) == 2
  {
    var z := Leaping();
    assert z.local(z.at(0, 0)) == 20 * HOUR;
    StepsOneDateOrTwo(z, StartOfDay(z, 0));
  }

  /** With gaps of half a day at most, each step goes to the next date. */
  lemma {:induction false} DatesInOrder(z: Zone, t: int, i: nat)
    requires GapsBelow(z, DAY / 2)
    ensures Date(z, DayNumber(z, StartOfDay(z, t), i)) == Date(z, t) + i
    ensures z.local(DayNumber(z, StartOfDay(z, t), i)) % DAY < DAY / 2
  {
    if i == 0 {
      StartsItsDate(z, t);
    } else {
      DatesInOrder(z, t, i - 1);
      var day := DayNumber(z, StartOfDay(z, t), i - 1);
      var next := z.at(z.local(day) + DAY, day);
      var d := Date(z, t) + i - 1;
      DivMod(z.local(day), z.local(day) / DAY, z.local(day) % DAY);
      DivMod(z.local(next), d + 1, z.local(next) - (d + 1) * DAY);
      StartsItsDate(z, next);
    }
  }

  lemma StartsItsDate(z: Zone, t: int)
    requires GapsBelow(z, DAY / 2)
    ensures Date(z, StartOfDay(z, t)) == Date(z, t)
    ensures z.local(StartOfDay(z, t)) % DAY < DAY / 2
  {
    var d := Date(z, t);
    var local := z.local(z.at(d * DAY, t));
    DivMod(local, d, local - d * DAY);
  }

  /** At most one of the dates looked at has no opening. */
  ghost predicate OneClosedAtMost(z: Zone, first: int, w: Window) {
    forall i: nat, j: nat {:trigger DayNumber(z, first, i), DayNumber(z, first, j)} ::
      i < j < HORIZON ==> OpeningOn(z, DayNumber(z, first, i), w).Some? || OpeningOn(z, DayNumber(z, first, j), w).Some?
  }

  /** Every weekday comes twice in a fortnight. */
  lemma WeekdayComesTwice(date: int, weekday: int) returns (i: nat)
    requires 0 <= weekday < 7
    ensures i < 7 && Weekday(date + i) == weekday && Weekday(date + i + 7) == weekday
  {
    i := (weekday - Weekday(date)) % 7;
  }

  /** The walk comes to the date, and the window opens on it. */
  ghost predicate Served(z: Zone, first: int, w: Window, date: int) {
    exists i: nat {:trigger DayNumber(z, first, i)} ::
      i < HORIZON && Date(z, DayNumber(z, first, i)) == date && OpeningOn(z, DayNumber(z, first, i), w).Some?
  }

  /**
   * In any zone: a permitted weekday is found, so long as gaps make the walk miss at most one date of the
   * fortnight, skipped or without an opening.
   */
  lemma AlwaysASlot(z: Zone, target: int, w: Window, days: seq<int>, weekday: int, r: Result<Decision, Failure>)
    requires Decides(z, target, w, days, r)
    requires 0 <= weekday < 7 && weekday in days
    requires
      var first := FirstDay(z, target, w, days);
      forall d, e :: Date(z, first) <= d < e < Date(z, first) + HORIZON ==> Served(z, first, w, d) || Served(z, first, w, e)
    ensures r.Ok?
  {
    var first := FirstDay(z, target, w, days);
    var i := WeekdayComesTwice(Date(z, first), weekday);
    hide OpeningOn, MinuteOfDay, Weekday, DayNumber, FirstDay, Date, InSlot;
    var d := Date(z, first) + i;
    var date := if Served(z, first, w, d) then d else d + 7;
    assert Served(z, first, w, date) && Weekday(date) == weekday;
    var j: nat :| j < HORIZON && Date(z, DayNumber(z, first, j)) == date && OpeningOn(z, DayNumber(z, first, j), w).Some?;
    assert Offers(z, DayNumber(z, first, j), w, days);
  }

  /** With gaps of half a day at most, no date is skipped, and one may be without an opening. */
  lemma AlwaysASlotInOrder(z: Zone, target: int, w: Window, days: seq<int>, weekday: int, r: Result<Decision, Failure>)
    requires GapsBelow(z, DAY / 2) && Decides(z, target, w, days, r)
    requires 0 <= weekday < 7 && weekday in days
    requires OneClosedAtMost(z, FirstDay(z, target, w, days), w)
    ensures r.Ok?
  {
    var first := FirstDay(z, target, w, days);
    var from := FirstIsAStart(z, target, w, days);
    DatesInOrder(z, from, 0);
    var start := Date(z, first);
    forall d, e | start <= d < e < start + HORIZON
      ensures Served(z, first, w, d) || Served(z, first, w, e)
    {
      DatesInOrder(z, from, d - start);
      DatesInOrder(z, from, e - start);
      hide OpeningOn, DayNumber, FirstDay, Date, StartOfDay;
      assert OpeningOn(z, DayNumber(z, first, d - start), w).Some? || OpeningOn(z, DayNumber(z, first, e - start), w).Some?;
    }
    hide *;
    AlwaysASlot(z, target, w, days, weekday, r);
  }

  lemma FirstIsAStart(z: Zone, target: int, w: Window, days: seq<int>) returns (from: int)
    ensures FirstDay(z, target, w, days) == StartOfDay(z, from)
  {
    if MinuteOfDay(z, target) >= w.end || Weekday(Date(z, target)) !in days {
      from := z.at(z.local(target) + DAY, target);
    } else {
      from := target;
    }
  }

  // ------------------------------------------------------------------- zones without changes

  lemma FixedHasNoGaps(offset: int)
    ensures GapsBelow(Fixed(offset), 1)
  {
  }

  /** In a fixed zone every date is as long as the next, and the window opens on each of them. */
  lemma {:induction false} FixedDay(offset: int, first: int, i: nat)
    requires first == StartOfDay(Fixed(offset), first)
    ensures DayNumber(Fixed(offset), first, i) + offset == (Date(Fixed(offset), first) + i) * DAY
  {
    var z := Fixed(offset);
    if i > 0 {
      FixedDay(offset, first, i - 1);
      var day := DayNumber(z, first, i - 1);
      DivMod(day + offset + DAY, Date(z, first) + i, 0);
    }
  }

  lemma FixedOpening(offset: int, day: int, w: Window)
    requires w.start < w.end
    ensures OpeningOn(Fixed(offset), day, w) == Some(Date(Fixed(offset), day) * DAY + w.start * MINUTE - offset)
  {
    var d := Date(Fixed(offset), day);
    DivMod(d * DAY + w.start * MINUTE, d, w.start * MINUTE);
  }

  /** In a zone whose offset never changes, a deferred message goes at the first instant that would be eligible. */
  lemma EarliestInFixedZone(offset: int, target: int, w: Window, days: seq<int>, at: int, t: int)
    requires w.start < w.end
    requires Decides(Fixed(offset), target, w, days, Ok(Deferred(at)))
    ensures target <= at && InSlot(Fixed(offset), w, days, at)
    ensures target <= t < at ==> !InSlot(Fixed(offset), w, days, t)
  {
    var z := Fixed(offset);
    FixedHasNoGaps(offset);
    DecisionHolds(z, target, w, days, Ok(Deferred(at)));
    var first := FirstDay(z, target, w, days);
    var i: nat :| i < HORIZON && Offers(z, DayNumber(z, first, i), w, days)
      && OpeningOn(z, DayNumber(z, first, i), w) == Some(at)
      && NoneOffers(z, first, w, days, i);
    FixedFirst(offset, target, w, days);
    FixedDates(offset, first, i, w);
    var d := Date(z, first);
    assert at + offset == (d + i) * DAY + w.start * MINUTE;
    if target <= t < at {
      FixedEarlier(offset, target, w, days, first, i, at, t);
    }
  }

  /** And there always is one, when any weekday is permitted. */
  lemma FixedZoneAlwaysDecides(offset: int, target: int, w: Window, days: seq<int>, weekday: int,
                               r: Result<Decision, Failure>)
    requires w.start < w.end && 0 <= weekday < 7 && weekday in days
    requires Decides(Fixed(offset), target, w, days, r)
    ensures r.Ok?
  {
    var z, first := Fixed(offset), FirstDay(Fixed(offset), target, w, days);
    FixedHasNoGaps(offset);
    FixedFirst(offset, target, w, days);
    forall i: nat, j: nat {:trigger DayNumber(z, first, i), DayNumber(z, first, j)} | i < j < HORIZON
      ensures OpeningOn(z, DayNumber(z, first, i), w).Some?
    {
      FixedDates(offset, first, i, w);
    }
    hide OpeningOn, DayNumber, FirstDay, Decides;
    AlwaysASlotInOrder(z, target, w, days, weekday, r);
  }

  lemma FixedFirst(offset: int, target: int, w: Window, days: seq<int>)
    ensures
      var z := Fixed(offset);
      var first := FirstDay(z, target, w, days);
      && first == StartOfDay(z, first)
      && Date(z, first) == Date(z, target) +
           (if MinuteOfDay(z, target) >= w.end || Weekday(Date(z, target)) !in days then 1 else 0)
  {
    var z := Fixed(offset);
    DivMod(z.local(target) + DAY, Date(z, target) + 1, z.local(target) % DAY);
    DivMod(Date(z, target) * DAY, Date(z, target), 0);
    DivMod((Date(z, target) + 1) * DAY, Date(z, target) + 1, 0);
  }

  lemma FixedDates(offset: int, first: int, i: nat, w: Window)
    requires first == StartOfDay(Fixed(offset), first) && w.start < w.end
    ensures
      var z := Fixed(offset);
      var day := DayNumber(z, first, i);
      && Date(z, day) == Date(z, first) + i
      && OpeningOn(z, day, w) == Some((Date(z, first) + i) * DAY + w.start * MINUTE - offset)
  {
    var z := Fixed(offset);
    FixedDay(offset, first, i);
    DivMod((Date(z, first) + i) * DAY, Date(z, first) + i, 0);
    FixedOpening(offset, DayNumber(z, first, i), w);
  }

  lemma FixedEarlier(offset: int, target: int, w: Window, days: seq<int>, first: int, i: nat, at: int, t: int)
    requires w.start < w.end && first == FirstDay(Fixed(offset), target, w, days)
    requires !InSlot(Fixed(offset), w, days, target)
    requires at + offset == (Date(Fixed(offset), first) + i) * DAY + w.start * MINUTE && target <= t < at
    requires NoneOffers(Fixed(offset), first, w, days, i)
    ensures !InSlot(Fixed(offset), w, days, t)
  {
    var z := Fixed(offset);
    FixedFirst(offset, target, w, days);
    var d, e := Date(z, first), Date(z, t);
    if e == d + i {
      DivMod(t + offset, e, t + offset - e * DAY);
    } else if d <= e < d + i {
      FixedDates(offset, first, e - d, w);
      assert !Offers(z, DayNumber(z, first, e - d), w, days);
    } else {
      assert e == Date(z, target);
    }
  }
}
