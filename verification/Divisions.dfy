/** Facts about products, quotients and remainders that calendars, clocks and digits need. */
module Divisions {
  function OneIf(b: bool): int {
    if b then 1 else 0
  }

  lemma FourDividesHundreds(n: int, k: int)
    requires n == 100 * k
    ensures n % 4 == 0
  {
    assert n == 4 * (25 * k);
  }

  lemma HundredDividesFourHundreds(n: int, k: int)
    requires n == 400 * k
    ensures n % 100 == 0
  {
    assert n == 100 * (4 * k);
  }

  lemma CenturiesDivideBy4(year: nat)
    ensures year % 100 == 0 ==> year % 4 == 0
  {
    if year % 100 == 0 {
      FourDividesHundreds(year, year / 100);
    }
  }

  lemma FourCenturiesDivideBy100(year: nat)
    ensures year % 400 == 0 ==> year % 100 == 0
  {
    if year % 400 == 0 {
      HundredDividesFourHundreds(year, year / 400);
    }
  }

  lemma NextFour(year: nat)
    ensures (year + 4) / 4 == (year + 3) / 4 + OneIf(year % 4 == 0)
  {
  }

  lemma NextCentury(year: nat)
    ensures (year + 100) / 100 == (year + 99) / 100 + OneIf(year % 100 == 0)
  {
  }

  lemma NextFourCenturies(year: nat)
    ensures (year + 400) / 400 == (year + 399) / 400 + OneIf(year % 400 == 0)
  {
  }

  lemma ThousandsDivide(n: int)
    ensures (1000 * n) / 1000 == n
  {
  }

  /** Rounding whole days and seconds, in milliseconds, down to seconds changes nothing. */
  lemma WholeSeconds(days: int, millis: int)
    requires millis % 1000 == 0
    ensures (days * 86400000 + millis) / 1000 * 1000 == days * 86400000 + millis
  {
    var seconds := millis / 1000;
    assert millis == 1000 * seconds;
    assert days * 86400000 + millis == 1000 * (86400 * days + seconds);
    ThousandsDivide(86400 * days + seconds);
  }

  lemma OneDayLater(millis: int)
    ensures (millis + 86400000) / 86400000 == millis / 86400000 + 1
  {
  }

  /** A time lies between the start of a day and the start of its last second exactly if it is of that day, and not
      in the rest of that second. */
  lemma WithinDay(millis: int, day: int)
    ensures day * 86400000 <= millis <= (day + 1) * 86400000 - 1000 <==>
            millis / 86400000 == day && millis % 86400000 <= 86400000 - 1000
  {
    var quotient, rest := millis / 86400000, millis % 86400000;
    assert millis == quotient * 86400000 + rest;
  }

  lemma DaysInOrder(millis: int, later: int)
    ensures millis / 86400000 * 86400000 <= millis
    ensures millis <= later ==> millis / 86400000 <= later / 86400000
  {
  }

  lemma WithoutLastDigit(n: nat, p: nat)
    requires n < 10 * p
    ensures n / 10 < p && n == 10 * (n / 10) + n % 10
  {
  }

  lemma LeadingDigitDecides(x: int, y: int, p: nat, rest: nat, rest': nat)
    requires rest < p && rest' < p
    ensures x < y ==> x * p + rest < y * p + rest'
    ensures y < x ==> y * p + rest' < x * p + rest
  {
    if x < y {
      assert (x + 1) * p <= y * p;
    } else if y < x {
      assert (y + 1) * p <= x * p;
    }
  }

  lemma LeadingDigitIsBounded(digit: nat, p: nat, rest: nat)
    requires digit < 10 && rest < p
    ensures 0 <= digit * p + rest < 10 * p
  {
    LeadingDigitDecides(digit, 10, p, rest, 0);
    assert digit * p >= 0;
  }
}
