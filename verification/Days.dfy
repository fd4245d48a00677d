/** Splitting dates into local days. Times are milliseconds since the epoch; a zone is a constant offset in
    milliseconds, a whole number of seconds. */
module Days {
  import opened Divisions
  import opened StableSort

  const SECOND: int := 1000
  const DAY: int := 86400000

  type Offset = o: int | o % 1000 == 0 witness 0

  datatype NamedDay = NamedDay(day: int, dayStart: int, dayEnd: int)

  /** The local calendar day of a time, as the number of days since the epoch's. */
  function LocalDay(t: int, zone: Offset): int {
    (t + zone) / DAY
  }

  /** Guesses that local midnight is midnight UTC, reads the local clock then, and moves back by the difference. */
  function MidnightInTimeZone(t: int, zone: Offset): int {
    var utcGuess := LocalDay(t, zone) * DAY;
    var zonedMillis := (utcGuess + zone) / SECOND * SECOND;
    utcGuess - (zonedMillis - utcGuess)
  }

  function StartAndEndOfDay(t: int, zone: Offset): (int, int) {
    (MidnightInTimeZone(t, zone), MidnightInTimeZone(t + DAY, zone) - SECOND)
  }

  /** A local day with its interval, under the name of its number. */
  function DayOf(zone: Offset): int -> NamedDay {
    t => NamedDay(LocalDay(t, zone), StartAndEndOfDay(t, zone).0, StartAndEndOfDay(t, zone).1)
  }

  predicate DateIsBetween(t: int, start: int, end: int) {
    start <= t <= end
  }

  /** The first index from `j` on whose date does not lie between two times. */
  function Next(dates: seq<int>, j: nat, start: int, end: int): (n: nat)
    requires j <= |dates|
    ensures j <= n <= |dates|
    decreases |dates| - j
  {
    if j < |dates| && DateIsBetween(dates[j], start, end) then Next(dates, j + 1, start, end) else j
  }

  /** From index `i` on: the day of that date, then those of the dates that it does not cover. */
  function SplitFrom(dates: seq<int>, dayOf: int -> NamedDay, i: nat): seq<NamedDay>
    requires i <= |dates|
    decreases |dates| - i
  {
    if i == |dates| then []
    else [dayOf(dates[i])] + SplitFrom(dates, dayOf, Next(dates, i + 1, dates[i], dayOf(dates[i]).dayEnd))
  }

  function Split(dates: seq<int>, dayOf: int -> NamedDay): seq<NamedDay> {
    SplitFrom(dates, dayOf, 0)
  }

  function Leq(): (int, int) -> bool {
    (a: int, b: int) => a <= b
  }

  lemma NextDay(dates: seq<int>, dayOf: int -> NamedDay, before: seq<NamedDay>, i: nat, next: nat)
    requires i < |dates| && next == Next(dates, i + 1, dates[i], dayOf(dates[i]).dayEnd)
    ensures before + [dayOf(dates[i])] + SplitFrom(dates, dayOf, next) == before + SplitFrom(dates, dayOf, i)
  {
    assert SplitFrom(dates, dayOf, i) == [dayOf(dates[i])] + SplitFrom(dates, dayOf, next);
  }

  method DatesToDayNames(dates: seq<int>, dayOf: int -> NamedDay) returns (namedDays: seq<NamedDay>)
    ensures namedDays == Split(Sort(dates, Leq()), dayOf)
  {
    namedDays := [];
    if |dates| == 0 {
      return;
    }
    var sortedDates := Sort(dates, Leq());
    var i := 0;
    while i < |sortedDates|
      invariant i <= |sortedDates|
      invariant namedDays + SplitFrom(sortedDates, dayOf, i) == Split(sortedDates, dayOf)
    {
      ghost var first, before := i, namedDays;
      var start := sortedDates[i];
      var day := dayOf(start);
      var j := i + 1;
      while j < |sortedDates|
        invariant first <= i && j == i + 1 <= |sortedDates|
        invariant Next(sortedDates, first + 1, start, day.dayEnd) == Next(sortedDates, j, start, day.dayEnd)
      {
        if !DateIsBetween(sortedDates[j], start, day.dayEnd) {
          break;
        }
        i := i + 1;
        j := j + 1;
      }
      namedDays := namedDays + [day];
      i := i + 1;
      NextDay(sortedDates, dayOf, before, first, i);
    }
  }

  // ---- Calendars ----

  /** Days come in order, a date is not before the start of its day, and a day's interval covers its dates but
      for late ones. */
  ghost predicate Calendar(dayOf: int -> NamedDay, late: int -> bool) {
    forall t, u :: CalendarAt(dayOf, late, t, u)
  }

  ghost predicate CalendarAt(dayOf: int -> NamedDay, late: int -> bool, t: int, u: int) {
    && (t <= u ==> dayOf(t).day <= dayOf(u).day)
    && dayOf(t).dayStart <= t
    && (Covers(dayOf(t), u) <==> dayOf(u).day == dayOf(t).day && !late(u))
  }

  predicate Covers(d: NamedDay, t: int) {
    DateIsBetween(t, d.dayStart, d.dayEnd)
  }

  /** In the last second of its local day, but for that second's first instant. */
  function Late(zone: Offset): int -> bool {
    t => (t + zone) % DAY > DAY - SECOND
  }

  /** With a constant offset, midnight starts the local day, and its interval misses only its last second. */
  lemma ConstantOffsetIsACalendar(zone: Offset)
    ensures Calendar(DayOf(zone), Late(zone))
  {
    forall t, u
      ensures CalendarAt(DayOf(zone), Late(zone), t, u)
    {
      IntervalOfDay(t, u, zone);
    }
  }

  lemma MidnightStartsTheDay(t: int, zone: Offset)
    ensures MidnightInTimeZone(t, zone) == LocalDay(t, zone) * DAY - zone
  {
    WholeSeconds(LocalDay(t, zone), zone);
  }

  lemma LocalDayLater(t: int, zone: Offset)
    ensures LocalDay(t + DAY, zone) == LocalDay(t, zone) + 1
  {
    OneDayLater(t + zone);
    assert t + DAY + zone == t + zone + DAY;
  }

  lemma DayHasInterval(t: int, zone: Offset)
    ensures var day := LocalDay(t, zone);
            DayOf(zone)(t) == NamedDay(day, day * DAY - zone, (day + 1) * DAY - zone - SECOND)
  {
    MidnightStartsTheDay(t, zone);
    MidnightStartsTheDay(t + DAY, zone);
    LocalDayLater(t, zone);
  }

  lemma IntervalOfDay(t: int, u: int, zone: Offset)
    ensures CalendarAt(DayOf(zone), Late(zone), t, u)
  {
    DayHasInterval(t, zone);
    DayHasInterval(u, zone);
    DayFromMidnight(DayOf(zone), Late(zone), t, u, zone);
  }

  lemma DayFromMidnight(dayOf: int -> NamedDay, late: int -> bool, t: int, u: int, zone: Offset)
    requires var day := LocalDay(t, zone);
             dayOf(t) == NamedDay(day, day * DAY - zone, (day + 1) * DAY - zone - SECOND)
    requires dayOf(u).day == LocalDay(u, zone) && (late(u) <==> (u + zone) % DAY > DAY - SECOND)
    ensures CalendarAt(dayOf, late, t, u)
  {
    WithinDay(u + zone, (t + zone) / DAY);
    DaysInOrder(t + zone, u + zone);
  }

  // ---- What the days are ----

  ghost predicate Ascending(dates: seq<int>) {
    forall i, j | 0 <= i < j < |dates| :: dates[i] <= dates[j]
  }

  ghost predicate DistinctDays(days: seq<NamedDay>) {
    forall i, j | 0 <= i < j < |days| :: days[i].day < days[j].day
  }

  /** From index `i` on, no late date follows another one of its day. */
  ghost predicate NoLateRepeat(dates: seq<int>, dayOf: int -> NamedDay, late: int -> bool, i: nat) {
    forall k | i < k < |dates| :: late(dates[k]) ==> dayOf(dates[k - 1]).day < dayOf(dates[k]).day
  }

  lemma {:induction false} NextCovers(dates: seq<int>, j: nat, start: int, end: int, k: nat)
    requires j <= |dates| && k < |dates|
    ensures var n := Next(dates, j, start, end);
            (j <= k < n ==> DateIsBetween(dates[k], start, end)) && (k == n ==> !DateIsBetween(dates[k], start, end))
    decreases |dates| - j
  {
    if j == |dates| || !DateIsBetween(dates[j], start, end) {
    } else {
      NextCovers(dates, j + 1, start, end, k);
    }
  }

  /** The dates one step covers, and the one after them. */
  lemma Step(dates: seq<int>, dayOf: int -> NamedDay, late: int -> bool, i: nat, k: nat)
    requires Calendar(dayOf, late) && Ascending(dates) && i < k < |dates|
    ensures var n := Next(dates, i + 1, dates[i], dayOf(dates[i]).dayEnd);
            && (k < n ==> dayOf(dates[k]).day == dayOf(dates[i]).day && !late(dates[k]))
            && (k == n ==>
                  || dayOf(dates[i]).day < dayOf(dates[k]).day
                  || (dayOf(dates[i]).day == dayOf(dates[k]).day && late(dates[k])))
  {
    NextCovers(dates, i + 1, dates[i], dayOf(dates[i]).dayEnd, k);
    assert CalendarAt(dayOf, late, dates[i], dates[k]);
  }

  lemma {:induction false} SplitGivesDaysOfDates(dates: seq<int>, dayOf: int -> NamedDay, i: nat, k: nat)
    returns (t: int)
    requires i <= |dates| && k < |SplitFrom(dates, dayOf, i)|
    ensures t in dates && SplitFrom(dates, dayOf, i)[k] == dayOf(t)
    decreases |dates| - i
  {
    if k == 0 {
      t := dates[i];
    } else {
      t := SplitGivesDaysOfDates(dates, dayOf, Next(dates, i + 1, dates[i], dayOf(dates[i]).dayEnd), k - 1);
    }
  }

  lemma {:induction false} SplitMissesNoDay(dates: seq<int>, dayOf: int -> NamedDay, late: int -> bool, i: nat, j: nat)
    returns (k: nat)
    requires Calendar(dayOf, late) && Ascending(dates) && i <= j < |dates|
    ensures k < |SplitFrom(dates, dayOf, i)| && SplitFrom(dates, dayOf, i)[k].day == dayOf(dates[j]).day
    decreases |dates| - i
  {
    var n := Next(dates, i + 1, dates[i], dayOf(dates[i]).dayEnd);
    if j == i {
      k := 0;
    } else if j < n {
      Step(dates, dayOf, late, i, j);
      k := 0;
    } else {
      var tail := SplitMissesNoDay(dates, dayOf, late, n, j);
      k := tail + 1;
    }
  }

  ghost predicate NonDecreasing(days: seq<NamedDay>) {
    forall i, j | 0 <= i < j < |days| :: days[i].day <= days[j].day
  }

  /** The returned days never go back, and never repeat exactly when no late date follows another one of its day. */
  lemma {:induction false} DaysAreDistinctIffNoLateRepeat(
      dates: seq<int>, dayOf: int -> NamedDay, late: int -> bool, i: nat)
    requires Calendar(dayOf, late) && Ascending(dates) && i <= |dates|
    ensures NonDecreasing(SplitFrom(dates, dayOf, i))
    ensures DistinctDays(SplitFrom(dates, dayOf, i)) <==> NoLateRepeat(dates, dayOf, late, i)
    decreases |dates| - i
  {
    if i == |dates| {
    } else {
      var n := Next(dates, i + 1, dates[i], dayOf(dates[i]).dayEnd);
      var tail := SplitFrom(dates, dayOf, n);
      DaysAreDistinctIffNoLateRepeat(dates, dayOf, late, n);
      assert n < |dates| ==> tail[0] == dayOf(dates[n]);
      if n < |dates| {
        Step(dates, dayOf, late, i, n);
      }
      PrependKeepsOrder(dayOf(dates[i]), tail);
      NoLateRepeatSplits(dates, dayOf, late, i, n);
    }
  }

  lemma PrependKeepsOrder(d: NamedDay, days: seq<NamedDay>)
    requires NonDecreasing(days)
    requires days != [] ==> d.day <= days[0].day
    ensures NonDecreasing([d] + days)
    ensures DistinctDays([d] + days) <==> DistinctDays(days) && (days != [] ==> d.day < days[0].day)
  {
    var all := [d] + days;
    assert forall i | 0 < i < |all| :: all[i] == days[i - 1];
    if DistinctDays(all) {
      forall i, j | 0 <= i < j < |days|
        ensures days[i].day < days[j].day
      {
        assert all[i + 1].day < all[j + 1].day;
      }
      assert days != [] ==> all[0].day < all[1].day;
    }
  }

  lemma NoLateRepeatSplits(dates: seq<int>, dayOf: int -> NamedDay, late: int -> bool, i: nat, n: nat)
    requires Calendar(dayOf, late) && Ascending(dates) && i < |dates|
    requires n == Next(dates, i + 1, dates[i], dayOf(dates[i]).dayEnd)
    ensures NoLateRepeat(dates, dayOf, late, i) <==>
            && NoLateRepeat(dates, dayOf, late, n)
            && (n < |dates| ==> dayOf(dates[i]).day < dayOf(dates[n]).day)
  {
    forall k | i < k < n
      ensures !late(dates[k]) && dayOf(dates[k]).day == dayOf(dates[i]).day
    {
      Step(dates, dayOf, late, i, k);
    }
    if n < |dates| {
      Step(dates, dayOf, late, i, n);
      assert dayOf(dates[n - 1]).day == dayOf(dates[i]).day;
    }
    if NoLateRepeat(dates, dayOf, late, n) && (n < |dates| ==> dayOf(dates[i]).day < dayOf(dates[n]).day) {
      forall k | i < k < |dates| && late(dates[k])
        ensures dayOf(dates[k - 1]).day < dayOf(dates[k]).day
      {
      }
    }
  }

  ghost predicate InExactlyOne(t: int, days: seq<NamedDay>) {
    exists k :: 0 <= k < |days| && Covers(days[k], t) && forall j | 0 <= j < |days| && Covers(days[j], t) :: j == k
  }

  lemma CoversOnTimeDates(dates: seq<int>, dayOf: int -> NamedDay, late: int -> bool, k: nat, t: int)
    requires Calendar(dayOf, late) && k < |Split(dates, dayOf)|
    ensures Covers(Split(dates, dayOf)[k], t) <==> dayOf(t).day == Split(dates, dayOf)[k].day && !late(t)
  {
    var source := SplitGivesDaysOfDates(dates, dayOf, 0, k);
    assert CalendarAt(dayOf, late, source, t);
  }

  ghost predicate AllOnTime(dates: seq<int>, late: int -> bool) {
    forall t | t in dates :: !late(t)
  }

  ghost predicate EachInExactlyOne(dates: seq<int>, days: seq<NamedDay>) {
    forall t | t in dates :: InExactlyOne(t, days)
  }

  lemma OnTimeDateInExactlyOne(dates: seq<int>, dayOf: int -> NamedDay, late: int -> bool, i: nat)
    requires Calendar(dayOf, late) && Ascending(dates) && i < |dates|
    requires DistinctDays(Split(dates, dayOf)) && !late(dates[i])
    ensures InExactlyOne(dates[i], Split(dates, dayOf))
  {
    var t, days := dates[i], Split(dates, dayOf);
    var k := SplitMissesNoDay(dates, dayOf, late, 0, i);
    CoversOnTimeDates(dates, dayOf, late, k, t);
    forall j | 0 <= j < |days| && Covers(days[j], t)
      ensures j == k
    {
      CoversOnTimeDates(dates, dayOf, late, j, t);
    }
  }

  /** Every date lies in exactly one of the returned intervals exactly when none is late. */
  lemma EachDateInOneDayIffNoneIsLate(dates: seq<int>, dayOf: int -> NamedDay, late: int -> bool)
    requires Calendar(dayOf, late) && Ascending(dates)
    ensures EachInExactlyOne(dates, Split(dates, dayOf)) <==> AllOnTime(dates, late)
  {
    var days := Split(dates, dayOf);
    if EachInExactlyOne(dates, days) {
      forall t | t in dates
        ensures !late(t)
      {
        var k :| 0 <= k < |days| && Covers(days[k], t);
        CoversOnTimeDates(dates, dayOf, late, k, t);
      }
    }
    if AllOnTime(dates, late) {
      DaysAreDistinctIffNoLateRepeat(dates, dayOf, late, 0);
      forall t | t in dates
        ensures InExactlyOne(t, days)
      {
        var i :| 0 <= i < |dates| && dates[i] == t;
        OnTimeDateInExactlyOne(dates, dayOf, late, i);
      }
    }
  }

  predicate HasDay(days: seq<NamedDay>, day: int) {
    exists k :: 0 <= k < |days| && days[k].day == day
  }

  predicate OnDay(dates: seq<int>, dayOf: int -> NamedDay, day: int) {
    exists t :: t in dates && dayOf(t).day == day
  }

  lemma SplitHasTheDaysOfDates(dates: seq<int>, dayOf: int -> NamedDay, late: int -> bool, day: int)
    requires Calendar(dayOf, late) && Ascending(dates)
    ensures HasDay(Split(dates, dayOf), day) <==> OnDay(dates, dayOf, day)
  {
    var days := Split(dates, dayOf);
    if HasDay(days, day) {
      var k :| 0 <= k < |days| && days[k].day == day;
      var t := SplitGivesDaysOfDates(dates, dayOf, 0, k);
    }
    if OnDay(dates, dayOf, day) {
      var t :| t in dates && dayOf(t).day == day;
      var i :| 0 <= i < |dates| && dates[i] == t;
      var k := SplitMissesNoDay(dates, dayOf, late, 0, i);
    }
  }

  /** In a zone with a constant offset, dates in whole seconds get exactly their local days, in order and
      without repetition, and each date lies in exactly one of them. */
  lemma WholeSecondsSplitIntoTheirDays(dates: seq<int>, zone: Offset, day: int)
    requires forall t | t in dates :: t % SECOND == 0
    ensures var days := Split(Sort(dates, Leq()), DayOf(zone));
            && DistinctDays(days)
            && (HasDay(days, day) <==> OnDay(dates, DayOf(zone), day))
            && EachInExactlyOne(dates, days)
  {
    var sorted := Sort(dates, Leq());
    ConstantOffsetIsACalendar(zone);
    AscendingWhenSorted(dates);
    forall t
      ensures t in sorted <==> t in dates
    {
      SameElements(dates, Leq(), t);
    }
    WholeSecondsAreOnTime(sorted, zone);
    DaysAreDistinctIffNoLateRepeat(sorted, DayOf(zone), Late(zone), 0);
    EachDateInOneDayIffNoneIsLate(sorted, DayOf(zone), Late(zone));
    SplitHasTheDaysOfDates(sorted, DayOf(zone), Late(zone), day);
  }

  lemma WholeSecondsAreOnTime(dates: seq<int>, zone: Offset)
    requires forall t | t in dates :: t % SECOND == 0
    ensures AllOnTime(dates, Late(zone))
  {
  }

  lemma AscendingWhenSorted(dates: seq<int>)
    ensures Ascending(Sort(dates, Leq()))
  {
    SortSorts(dates, Leq());
    var sorted := Sort(dates, Leq());
    forall i, j | 0 <= i < j < |sorted|
      ensures sorted[i] <= sorted[j]
    {
      assert Leq()(sorted[i], sorted[j]);
    }
  }

  lemma FirstDay(t: int)
    requires 0 <= t < DAY
    ensures DayOf(0)(t) == NamedDay(0, 0, DAY - SECOND)
  {
    assert LocalDay(t, 0) == 0 && LocalDay(t + DAY, 0) == 1;
  }

  /** A date behind the end of its own day, after another date of that day, repeats the day. */
  lemma LateDateRepeatsItsDay(dates: seq<int>, dayOf: int -> NamedDay)
    requires |dates| == 2 && dayOf(dates[0]) == dayOf(dates[1]) && dayOf(dates[0]).dayEnd < dates[1]
    ensures Split(dates, dayOf) == [dayOf(dates[0]), dayOf(dates[0])]
  {
    assert Next(dates, 1, dates[0], dayOf(dates[0]).dayEnd) == 1;
    assert Next(dates, 2, dates[1], dayOf(dates[1]).dayEnd) == 2;
    assert SplitFrom(dates, dayOf, 1) == [dayOf(dates[1])] + SplitFrom(dates, dayOf, 2);
  }

  /** Half a second before midnight, after another date of the same day, the day comes twice. */
  lemma SubSecondsRepeatADay()
    ensures var days := Split([0, DAY - 500], DayOf(0)); |days| == 2 && days[0] == days[1]
  {
    FirstDay(0);
    FirstDay(DAY - 500);
    LateDateRepeatsItsDay([0, DAY - 500], DayOf(0));
  }
}
