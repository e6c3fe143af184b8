/** Calendar years of the proleptic Gregorian calendar, in UTC, for instants counted from 1970. */
module Calendar {
  const DAY_MS := 86400000

  predicate IsLeap(year: int) { year % 4 == 0 && (year % 100 != 0 || year % 400 == 0) }

  /** How many days lie between the first of January 1970 and the first of January of the year. */
  function FirstDay(year: int): int {
    var y := year - 1;
    365 * (year - 1970) + y / 4 - y / 100 + y / 400 - 477
  }

  /** Years follow each other without a gap: 365 days, and one more in leap years. */
  lemma YearLength(year: int)
    ensures FirstDay(1970) == 0
    ensures FirstDay(year + 1) == FirstDay(year) + if IsLeap(year) then 366 else 365
  {
    StepOfQuotient(year, 4);
    StepOfQuotient(year, 100);
    StepOfQuotient(year, 400);
    assert year % 100 == 0 ==> year % 4 == 0 by {
      if year % 100 == 0 { MultipleOfMultiple(year, 4, 25); }
    }
    assert year % 400 == 0 ==> year % 100 == 0 by {
      if year % 400 == 0 { MultipleOfMultiple(year, 100, 4); }
    }
  }

  lemma StepOfQuotient(n: int, d: int)
    requires d > 1
    ensures n / d - (n - 1) / d == if n % d == 0 then 1 else 0
  {
    var q, r := (n - 1) / d, (n - 1) % d;
    assert n == q * d + r + 1;
    if r + 1 == d {
      assert n == (q + 1) * d;
      UniqueQuotient(n, d, q + 1, 0);
    } else {
      UniqueQuotient(n, d, q, r + 1);
    }
  }

  lemma UniqueQuotient(n: int, d: int, q: int, r: int)
    requires d > 0 && 0 <= r < d && n == q * d + r
    ensures n / d == q && n % d == r
  {
    var k := n / d - q;
    assert k * d == r - n % d;
    MultipleBound(k, d);
  }

  lemma MultipleBound(k: int, d: int)
    requires d > 0
    ensures k >= 1 ==> k * d >= d
    ensures k <= -1 ==> k * d <= -d
  {
    if k >= 1 {
      assert (k - 1) * d >= 0;
    } else if k <= -1 {
      assert (-k - 1) * d >= 0;
    }
  }

  lemma MultipleOfMultiple(n: int, d: int, k: int)
    requires d > 0 && k > 0 && n % (d * k) == 0
    ensures n % d == 0
  {
    var q := n / (d * k);
    assert n == q * k * d;
    UniqueQuotient(n, d, q * k, 0);
  }

  /** Searching upwards from a year that starts no later than the day. */
  function YearFrom(day: int, guess: int): (year: int)
    requires FirstDay(guess) <= day
    ensures FirstDay(year) <= day < FirstDay(year + 1)
    decreases day - FirstDay(guess)
  {
    hide FirstDay;
    YearLength(guess);
    if day < FirstDay(guess + 1) then guess else YearFrom(day, guess + 1)
  }

  lemma {:induction false} EarlyEnough(years: nat)
    ensures FirstDay(1970 - years) + years <= 0
  {
    hide FirstDay;
    YearLength(1970 - years);
    if years > 0 { EarlyEnough(years - 1); }
  }

  /** The UTC calendar year of an instant: the year between whose first days it lies. */
  function YearOf(ms: int): (year: int)
    ensures FirstDay(year) * DAY_MS <= ms < FirstDay(year + 1) * DAY_MS
  {
    hide FirstDay;
    var day := ms / DAY_MS;
    YearLength(1970);
    EarlyEnough(if day < 0 then -day else 0);
    YearFrom(day, if day < 0 then 1970 + day else 1970)
  }

  lemma {:induction false} YearsAreOrdered(a: int, b: int)
    requires a <= b
    ensures FirstDay(a) <= FirstDay(b)
    decreases b - a
  {
    hide FirstDay;
    if a < b {
      YearLength(b - 1);
      YearsAreOrdered(a, b - 1);
    }
  }

  /** Every instant belongs to exactly one year: the one whose first day it has reached, but not the next one's. */
  lemma YearIsExact(ms: int, year: int)
    ensures YearOf(ms) == year <==> FirstDay(year) * DAY_MS <= ms < FirstDay(year + 1) * DAY_MS
  {
    hide FirstDay;
    var y := YearOf(ms);
    if y < year { YearsAreOrdered(y + 1, year); }
    if year < y { YearsAreOrdered(year + 1, y); }
  }
}
