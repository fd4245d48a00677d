/** Time stamps in the layout NocoDB gives for a column of dates and times: year, month and day, then hour, minute
    and second, then the offset from UTC. */
module TimeStamps {
  import opened Wrappers
  import opened TextOrder
  import opened Divisions

  // ---- Numbers in text ----

  predicate IsDigit(c: char) {
    '0' <= c <= '9'
  }

  predicate AreDigits(s: string) {
    forall i | 0 <= i < |s| :: IsDigit(s[i])
  }

  function Power10(n: nat): (p: nat)
    ensures p > 0
  {
    if n == 0 then 1 else 10 * Power10(n - 1)
  }

  function Number(s: string): int
    requires AreDigits(s)
  {
    if s == "" then 0 else (s[0] as int - '0' as int) * Power10(|s| - 1) + Number(s[1..])
  }

  lemma {:induction false} NumberIsBounded(s: string)
    requires AreDigits(s)
    ensures 0 <= Number(s) < Power10(|s|)
  {
    if s == "" {
    } else {
      NumberIsBounded(s[1..]);
      LeadingDigitIsBounded(s[0] as int - '0' as int, Power10(|s| - 1), Number(s[1..]));
    }
  }

  const DIGITS := "0123456789"

  lemma DigitsAreDecimal(c: char)
    ensures IsDigit(c) <==> exists n :: 0 <= n < 10 && c == DIGITS[n]
    ensures IsDigit(c) ==> 0 <= Number([c]) < 10 && DIGITS[Number([c])] == c
  {
    assert forall n | 0 <= n < 10 :: DIGITS[n] as int == '0' as int + n;
    if IsDigit(c) {
      var n := c as int - '0' as int;
      assert Power10(0) == 1 && Number([c][1..]) == 0;
      assert Number([c]) == n;
      assert DIGITS[n] as int as char == c;
    }
  }

  /** Each further digit takes ten times what the others stand for, and adds what it stands for. */
  lemma {:induction false} NumbersAreDecimal(s: string, c: char)
    requires AreDigits(s) && IsDigit(c)
    ensures AreDigits(s + [c]) && Number(s + [c]) == 10 * Number(s) + Number([c])
  {
    if s == "" {
      assert s + [c] == [c];
    } else {
      NumbersAreDecimal(s[1..], c);
      assert (s + [c])[1..] == s[1..] + [c];
      assert (s[0] as int - '0' as int) * Power10(|s|) == 10 * ((s[0] as int - '0' as int) * Power10(|s| - 1));
    }
  }

  /** Of texts with the same number of digits, the one that sorts first is the smaller number. */
  lemma {:induction false} DigitsSortAsNumbers(a: string, b: string)
    requires AreDigits(a) && AreDigits(b) && |a| == |b|
    ensures TextLeq(a, b) <==> Number(a) <= Number(b)
    ensures a == b <==> Number(a) == Number(b)
  {
    if a == "" {
    } else {
      DigitsSortAsNumbers(a[1..], b[1..]);
      NumberIsBounded(a[1..]);
      NumberIsBounded(b[1..]);
      var p, x, y := Power10(|a| - 1), a[0] as int - '0' as int, b[0] as int - '0' as int;
      LeadingDigitDecides(x, y, p, Number(a[1..]), Number(b[1..]));
      assert a == [a[0]] + a[1..] && b == [b[0]] + b[1..];
    }
  }

  // ---- The calendar ----

  predicate IsLeap(year: nat) {
    year % 4 == 0 && (year % 100 != 0 || year % 400 == 0)
  }

  function DaysInMonth(year: nat, month: nat): nat {
    if month == 2 then (if IsLeap(year) then 29 else 28) else if month in {4, 6, 9, 11} then 30 else 31
  }

  function DaysBeforeMonth(year: nat, month: nat): nat
    requires month > 0
  {
    if month == 1 then 0 else DaysBeforeMonth(year, month - 1) + DaysInMonth(year, month - 1)
  }

  function DaysInYear(year: nat): nat {
    if IsLeap(year) then 366 else 365
  }

  function DaysBeforeYear(year: nat): nat {
    if year == 0 then 0 else DaysBeforeYear(year - 1) + DaysInYear(year - 1)
  }

  lemma {:induction false} MonthsFollow(year: nat, month: nat, later: nat)
    requires 0 < month < later
    ensures DaysBeforeMonth(year, month) + DaysInMonth(year, month) <= DaysBeforeMonth(year, later)
  {
    if later == month + 1 {
    } else {
      MonthsFollow(year, month, later - 1);
    }
  }

  lemma DaysOfYear(year: nat)
    ensures DaysBeforeMonth(year, 13) == DaysInYear(year)
    ensures DaysBeforeMonth(year, 2) == 31
    ensures forall month | 3 <= month <= 13 ::
              DaysBeforeMonth(year, month) ==
              [59, 90, 120, 151, 181, 212, 243, 273, 304, 334, 365][month - 3] + OneIf(IsLeap(year))
  {
    var leap := OneIf(IsLeap(year));
    assert DaysBeforeMonth(year, 2) == 31;
    assert DaysBeforeMonth(year, 3) == 59 + leap;
    assert DaysBeforeMonth(year, 4) == 90 + leap;
    assert DaysBeforeMonth(year, 5) == 120 + leap;
    assert DaysBeforeMonth(year, 6) == 151 + leap;
    assert DaysBeforeMonth(year, 7) == 181 + leap;
    assert DaysBeforeMonth(year, 8) == 212 + leap;
    assert DaysBeforeMonth(year, 9) == 243 + leap;
    assert DaysBeforeMonth(year, 10) == 273 + leap;
    assert DaysBeforeMonth(year, 11) == 304 + leap;
    assert DaysBeforeMonth(year, 12) == 334 + leap;
  }

  lemma LeapYearsCount(year: nat)
    ensures OneIf(IsLeap(year)) == OneIf(year % 4 == 0) - OneIf(year % 100 == 0) + OneIf(year % 400 == 0)
  {
    CenturiesDivideBy4(year);
    FourCenturiesDivideBy100(year);
  }

  /** The number of leap years before a year: one every four years but for every hundredth, and again every four
      hundredth. */
  function LeapYearsBefore(year: nat): int {
    (year + 3) / 4 - (year + 99) / 100 + (year + 399) / 400
  }

  lemma NextYear(year: nat)
    ensures LeapYearsBefore(year + 1) == LeapYearsBefore(year) + OneIf(IsLeap(year))
  {
    LeapYearsCount(year);
    NextFour(year);
    NextCentury(year);
    NextFourCenturies(year);
  }

  function DaysByCount(year: nat): int {
    365 * year + LeapYearsBefore(year)
  }

  lemma SameStep(year: nat)
    ensures DaysBeforeYear(year + 1) - DaysBeforeYear(year) == DaysByCount(year + 1) - DaysByCount(year)
  {
    NextYear(year);
  }

  /** The calendar is the Gregorian one. */
  lemma {:induction false} GregorianYears(year: nat)
    ensures DaysBeforeYear(year) == DaysByCount(year)
  {
    if year == 0 {
    } else {
      GregorianYears(year - 1);
      SameStep(year - 1);
    }
  }

  lemma {:induction false} YearsFollow(year: nat, later: nat)
    requires year < later
    ensures DaysBeforeYear(year) + DaysInYear(year) <= DaysBeforeYear(later)
  {
    if later == year + 1 {
    } else {
      YearsFollow(year, later - 1);
    }
  }

  // ---- Stamps ----

  datatype Stamp = Stamp(
    year: string, month: string, day: string, separator: char, hour: string, minute: string, second: string,
    zone: string)

  predicate IsField(s: string, width: nat, least: nat, bound: nat) {
    |s| == width && AreDigits(s) && least <= Number(s) < bound
  }

  /** The offset in seconds. */
  function Offset(zone: string): Option<int> {
    if zone == "Z" then Some(0)
    else if && |zone| == 6 && zone[0] in {'+', '-'} && zone[3] == ':'
            && IsField(zone[1..3], 2, 0, 24) && IsField(zone[4..], 2, 0, 60)
    then
      var seconds := 3600 * Number(zone[1..3]) + 60 * Number(zone[4..]);
      Some(if zone[0] == '-' then -seconds else seconds)
    else None
  }

  /** The offset of a zone: hours and minutes behind a sign, or "Z". */
  lemma OffsetsOfZones(sign: char, hours: string, minutes: string)
    requires |hours| == |minutes| == 2
    ensures Offset("Z") == Some(0)
    ensures var zone := [sign] + (hours + (":" + minutes));
            (Offset(zone).Some? <==>
              && sign in {'+', '-'} && AreDigits(hours) && Number(hours) < 24
              && AreDigits(minutes) && Number(minutes) < 60)
            && (Offset(zone).Some? ==>
                  Offset(zone).value == (if sign == '+' then 1 else -1) * (3600 * Number(hours) + 60 * Number(minutes)))
  {
    var zone := [sign] + (hours + (":" + minutes));
    assert zone[1..3] == hours && zone[3] == ':' && zone[4..] == minutes;
    if AreDigits(hours) && AreDigits(minutes) {
      NumberIsBounded(hours);
      NumberIsBounded(minutes);
    }
  }

  predicate IsStamp(s: Stamp) {
    && IsField(s.year, 4, 0, 10000)
    && IsField(s.month, 2, 1, 13)
    && IsField(s.day, 2, 1, DaysInMonth(Number(s.year), Number(s.month)) + 1)
    && s.separator in {' ', 'T'}
    && IsField(s.hour, 2, 0, 24) && IsField(s.minute, 2, 0, 60) && IsField(s.second, 2, 0, 60)
    && Offset(s.zone).Some?
  }

  /** A number with leading zeros. */
  function Digits(n: nat, width: nat): string {
    if width == 0 then "" else Digits(n / 10, width - 1) + [DIGITS[n % 10]]
  }

  lemma {:induction false} DigitsOfNumber(n: nat, width: nat)
    requires n < Power10(width)
    ensures |Digits(n, width)| == width && AreDigits(Digits(n, width)) && Number(Digits(n, width)) == n
  {
    if width == 0 {
    } else {
      WithoutLastDigit(n, Power10(width - 1));
      DigitsOfNumber(n / 10, width - 1);
      var c := DIGITS[n % 10];
      DigitsAreDecimal(c);
      assert DIGITS[n % 10] as int == '0' as int + n % 10;
      NumbersAreDecimal(Digits(n / 10, width - 1), c);
    }
  }

  lemma SmallPowers()
    ensures Power10(0) == 1 && Power10(1) == 10 && Power10(2) == 100 && Power10(4) == 10000
  {
    assert Power10(3) == 1000;
  }

  function StampOf(
      year: nat, month: nat, day: nat, separator: char, hour: nat, minute: nat, second: nat, zone: string): Stamp {
    Stamp(Digits(year, 4), Digits(month, 2), Digits(day, 2), separator,
          Digits(hour, 2), Digits(minute, 2), Digits(second, 2), zone)
  }

  /** Every second of every day of the calendar has a stamp, and nothing else has. */
  lemma StampsAreTimes(
      year: nat, month: nat, day: nat, separator: char, hour: nat, minute: nat, second: nat, zone: string)
    requires year < 10000 && month < 100 && day < 100 && hour < 100 && minute < 100 && second < 100
    ensures IsStamp(StampOf(year, month, day, separator, hour, minute, second, zone)) <==>
            && 1 <= month <= 12 && 1 <= day <= DaysInMonth(year, month)
            && hour <= 23 && minute <= 59 && second <= 59
            && separator in {' ', 'T'} && Offset(zone).Some?
  {
    SmallPowers();
    DigitsOfNumber(year, 4);
    DigitsOfNumber(month, 2);
    DigitsOfNumber(day, 2);
    DigitsOfNumber(hour, 2);
    DigitsOfNumber(minute, 2);
    DigitsOfNumber(second, 2);
  }

  function TimeText(s: Stamp): string {
    s.hour + (":" + (s.minute + (":" + (s.second + s.zone))))
  }

  function Text(s: Stamp): string {
    s.year + ("-" + (s.month + ("-" + (s.day + ([s.separator] + TimeText(s))))))
  }

  function Read(text: string): Option<Stamp> {
    if |text| < 19 || text[4] != '-' || text[7] != '-' || text[13] != ':' || text[16] != ':' then None
    else
      var s := Stamp(text[..4], text[5..7], text[8..10], text[10], text[11..13], text[14..16], text[17..19],
                     text[19..]);
      if IsStamp(s) then Some(s) else None
  }

  /** Reading and writing are inverse. */
  lemma ReadText(text: string, s: Stamp)
    ensures Read(text) == Some(s) <==> IsStamp(s) && text == Text(s)
  {
    if Read(text) == Some(s) {
      ReadIsText(text, s);
    }
    if IsStamp(s) && text == Text(s) {
      TextIsRead(s);
    }
  }

  lemma ReadIsText(text: string, s: Stamp)
    requires Read(text) == Some(s)
    ensures text == Text(s)
  {
    Cut(text, 17, 19);
    Cut(text, 16, 17);
    Cut(text, 14, 16);
    Cut(text, 13, 14);
    Cut(text, 11, 13);
    Cut(text, 10, 11);
    Cut(text, 8, 10);
    Cut(text, 7, 8);
    Cut(text, 5, 7);
    Cut(text, 4, 5);
    Cut(text, 0, 4);
    assert text[0..] == text;
  }

  lemma Cut(text: string, i: nat, j: nat)
    requires i <= j <= |text|
    ensures text[i..] == text[i..j] + text[j..]
    ensures j == i + 1 ==> text[i..j] == [text[i]]
  {
  }

  lemma FieldsOfDate(text: string, year: string, month: string, day: string, tail: string)
    requires text == year + ("-" + (month + ("-" + (day + tail))))
    requires |year| == 4 && |month| == |day| == 2
    ensures |text| == 10 + |tail| && text[..4] == year && text[4] == '-' && text[5..7] == month && text[7] == '-'
    ensures text[8..10] == day && text[10..] == tail
  {
    Behind(text, 0, year, "-" + (month + ("-" + (day + tail))));
    Behind(text, 4, "-", month + ("-" + (day + tail)));
    Behind(text, 5, month, "-" + (day + tail));
    Behind(text, 7, "-", day + tail);
    Behind(text, 8, day, tail);
  }

  lemma FieldsOfTime(text: string, hour: string, minute: string, second: string, zone: string)
    requires |text| >= 11 && text[11..] == hour + (":" + (minute + (":" + (second + zone))))
    requires |hour| == |minute| == |second| == 2
    ensures |text| >= 19 && text[11..13] == hour && text[13] == ':' && text[14..16] == minute && text[16] == ':'
    ensures text[17..19] == second && text[19..] == zone
  {
    Behind(text, 11, hour, ":" + (minute + (":" + (second + zone))));
    Behind(text, 13, ":", minute + (":" + (second + zone)));
    Behind(text, 14, minute, ":" + (second + zone));
    Behind(text, 16, ":", second + zone);
    Behind(text, 17, second, zone);
  }

  /** Where the fields of a text of the right widths are. */
  lemma FieldsOfText(s: Stamp)
    requires |s.year| == 4 && |s.month| == |s.day| == |s.hour| == |s.minute| == |s.second| == 2
    ensures var text := Text(s);
            && |text| >= 19
            && text[..4] == s.year && text[4] == '-' && text[5..7] == s.month && text[7] == '-' && text[8..10] == s.day
            && text[10] == s.separator
            && text[11..13] == s.hour && text[13] == ':' && text[14..16] == s.minute && text[16] == ':'
            && text[17..19] == s.second && text[19..] == s.zone
  {
    FieldsOfDate(Text(s), s.year, s.month, s.day, [s.separator] + TimeText(s));
    Behind(Text(s), 10, [s.separator], TimeText(s));
    FieldsOfTime(Text(s), s.hour, s.minute, s.second, s.zone);
  }

  lemma TextIsRead(s: Stamp)
    requires IsStamp(s)
    ensures Read(Text(s)) == Some(s)
  {
    FieldsOfText(s);
  }

  lemma Behind(text: string, i: nat, head: string, tail: string)
    requires i <= |text| && text[i..] == head + tail
    ensures i + |head| <= |text| && text[i..i + |head|] == head && text[i + |head|..] == tail
    ensures head != "" ==> text[i] == head[0]
  {
    assert text[i..][..|head|] == head && text[i..][|head|..] == tail;
    assert text[i..][..|head|] == text[i..i + |head|];
    assert head != "" ==> text[i..][0] == text[i];
  }

  function Day(s: Stamp): nat
    requires IsStamp(s)
  {
    DaysBeforeYear(Number(s.year)) + DaysBeforeMonth(Number(s.year), Number(s.month)) + Number(s.day)
  }

  function Clock(s: Stamp): nat
    requires IsStamp(s)
  {
    3600 * Number(s.hour) + 60 * Number(s.minute) + Number(s.second)
  }

  /** The local time the stamp shows, in seconds since a fixed one. */
  function Local(s: Stamp): int
    requires IsStamp(s)
  {
    86400 * Day(s) + Clock(s)
  }

  /** The time it stands for. */
  function Instant(s: Stamp): int
    requires IsStamp(s)
  {
    Local(s) - Offset(s.zone).value
  }

  lemma InstantInNumbers(
      year: nat, month: nat, day: nat, hour: nat, minute: nat, second: nat, zone: string)
    requires year < 10000 && 1 <= month <= 12 && 1 <= day <= DaysInMonth(year, month)
    requires hour < 24 && minute < 60 && second < 60 && Offset(zone).Some?
    ensures var s := StampOf(year, month, day, 'T', hour, minute, second, zone);
            IsStamp(s) &&
            Instant(s) == 86400 * (DaysBeforeYear(year) + DaysBeforeMonth(year, month) + day)
                          + 3600 * hour + 60 * minute + second - Offset(zone).value
  {
    StampsAreTimes(year, month, day, 'T', hour, minute, second, zone);
    SmallPowers();
    DigitsOfNumber(year, 4);
    DigitsOfNumber(month, 2);
    DigitsOfNumber(day, 2);
    DigitsOfNumber(hour, 2);
    DigitsOfNumber(minute, 2);
    DigitsOfNumber(second, 2);
  }

  /** In any zone, a time some days after the start of a day is as many times 86,400 seconds later, and the seconds of
      its clock. */
  lemma SecondsBetween(
      year: nat, month: nat, day: nat, year': nat, month': nat, day': nat, hour: nat, minute: nat, second: nat,
      zone: string, days: int)
    requires year < 10000 && 1 <= month <= 12 && 1 <= day <= DaysInMonth(year, month)
    requires year' < 10000 && 1 <= month' <= 12 && 1 <= day' <= DaysInMonth(year', month')
    requires hour < 24 && minute < 60 && second < 60 && Offset(zone).Some?
    requires DaysBeforeYear(year') + DaysBeforeMonth(year', month') + day' ==
             DaysBeforeYear(year) + DaysBeforeMonth(year, month) + day + days
    ensures var s := StampOf(year, month, day, 'T', 0, 0, 0, zone);
            var t := StampOf(year', month', day', 'T', hour, minute, second, zone);
            && IsStamp(s) && IsStamp(t)
            && Instant(t) - Instant(s) == 86400 * days + 3600 * hour + 60 * minute + second
  {
    InstantInNumbers(year, month, day, 0, 0, 0, zone);
    InstantInNumbers(year', month', day', hour, minute, second, zone);
  }

  /** A stamp further west stands for a later time. */
  lemma WestIsLater(s: Stamp, hours: string, minutes: string)
    requires IsStamp(s.(zone := "Z")) && |hours| == |minutes| == 2
    requires AreDigits(hours) && Number(hours) < 24 && AreDigits(minutes) && Number(minutes) < 60
    ensures var west := s.(zone := "-" + (hours + (":" + minutes)));
            && IsStamp(west)
            && Instant(west) == Instant(s.(zone := "Z")) + 3600 * Number(hours) + 60 * Number(minutes)
  {
    OffsetsOfZones('-', hours, minutes);
  }

  // ---- The order of stamps ----

  /** Fields of the same width before anything else decide, if they differ. */
  lemma {:induction false} HeadDecides(p: string, q: string, a: string, b: string)
    requires |p| == |q|
    ensures TextLeq(p + a, q + b) <==> if p == q then TextLeq(a, b) else TextLeq(p, q)
  {
    if p == "" {
      assert p + a == a && q + b == b;
    } else {
      HeadDecides(p[1..], q[1..], a, b);
      assert (p + a)[1..] == p[1..] + a && (q + b)[1..] == q[1..] + b;
      assert p == [p[0]] + p[1..] && q == [q[0]] + q[1..];
    }
  }

  lemma FieldDecides(x: string, y: string, mark: string, a: string, b: string)
    requires AreDigits(x) && AreDigits(y) && |x| == |y|
    ensures TextLeq(x + (mark + a), y + (mark + b)) <==>
            Number(x) < Number(y) || (Number(x) == Number(y) && TextLeq(a, b))
  {
    DigitsSortAsNumbers(x, y);
    HeadDecides(x, y, mark + a, mark + b);
    HeadDecides(mark, mark, a, b);
  }

  predicate SameForm(s: Stamp, t: Stamp) {
    s.separator == t.separator && s.zone == t.zone
  }

  lemma TimesSortByClock(s: Stamp, t: Stamp)
    requires IsStamp(s) && IsStamp(t)
    ensures TextLeq(TimeText(s), TimeText(t)) <==>
              Clock(s) < Clock(t) || (Clock(s) == Clock(t) && TextLeq(s.zone, t.zone))
  {
    FieldDecides(s.hour, t.hour, ":", s.minute + (":" + (s.second + s.zone)), t.minute + (":" + (t.second + t.zone)));
    FieldDecides(s.minute, t.minute, ":", s.second + s.zone, t.second + t.zone);
    DigitsSortAsNumbers(s.second, t.second);
    HeadDecides(s.second, t.second, s.zone, t.zone);
  }

  lemma DaysSortByDate(s: Stamp, t: Stamp)
    requires IsStamp(s) && IsStamp(t)
    ensures Day(s) < Day(t) <==>
            || Number(s.year) < Number(t.year)
            || (Number(s.year) == Number(t.year) && Number(s.month) < Number(t.month))
            || (Number(s.year) == Number(t.year) && Number(s.month) == Number(t.month) && Number(s.day) < Number(t.day))
    ensures Day(s) == Day(t) <==>
            Number(s.year) == Number(t.year) && Number(s.month) == Number(t.month) && Number(s.day) == Number(t.day)
  {
    EarlierDate(s, t);
    EarlierDate(t, s);
  }

  lemma EarlierDate(s: Stamp, t: Stamp)
    requires IsStamp(s) && IsStamp(t)
    ensures Number(s.year) < Number(t.year) ==> Day(s) < Day(t)
    ensures Number(s.year) == Number(t.year) && Number(s.month) < Number(t.month) ==> Day(s) < Day(t)
  {
    var y, m := Number(s.year), Number(s.month);
    if y < Number(t.year) {
      YearsFollow(y, Number(t.year));
      DaysOfYear(y);
      MonthsFollow(y, m, 13);
    } else if m < Number(t.month) {
      MonthsFollow(y, m, Number(t.month));
    }
  }

  /** Whatever their offsets, stamps sort by the local time they show, and by the text of the offset if that is
      the same. */
  lemma StampsSortByLocalTime(s: Stamp, t: Stamp)
    requires IsStamp(s) && IsStamp(t) && s.separator == t.separator
    ensures TextLeq(Text(s), Text(t)) <==> Local(s) < Local(t) || (Local(s) == Local(t) && TextLeq(s.zone, t.zone))
  {
    var a, b := [s.separator] + TimeText(s), [t.separator] + TimeText(t);
    FieldDecides(s.year, t.year, "-", s.month + ("-" + (s.day + a)), t.month + ("-" + (t.day + b)));
    FieldDecides(s.month, t.month, "-", s.day + a, t.day + b);
    FieldDecides(s.day, t.day, [s.separator], TimeText(s), TimeText(t));
    TimesSortByClock(s, t);
    DaysSortByDate(s, t);
  }

  /** Stamps with the same separator and offset sort as text like the times they stand for. */
  lemma StampsSortByTime(s: Stamp, t: Stamp)
    requires IsStamp(s) && IsStamp(t) && SameForm(s, t)
    ensures TextLeq(Text(s), Text(t)) <==> Instant(s) <= Instant(t)
  {
    StampsSortByLocalTime(s, t);
    TextIsTotal(s.zone, t.zone, "");
  }

  /** With different offsets they sort against the time exactly when the offsets differ by more than what the
      clocks show. */
  lemma StampsSortAgainstTimeIff(s: Stamp, t: Stamp)
    requires IsStamp(s) && IsStamp(t) && s.separator == t.separator && Local(s) < Local(t)
    ensures TextLeq(Text(s), Text(t)) && !TextLeq(Text(t), Text(s))
    ensures Instant(s) > Instant(t) <==> Offset(t.zone).value - Offset(s.zone).value > Local(t) - Local(s)
  {
    StampsSortByLocalTime(s, t);
    StampsSortByLocalTime(t, s);
  }
}
