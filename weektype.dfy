/** ISO 8601 week numbers and the odd/even week rotation, on day numbers.
    The week of a day is numbered by the Thursday of its Monday-to-Sunday
    week: counted from 1 January of that Thursday's year, week 1 is the week
    holding the year's first Thursday (ISO 8601:2004, definition 2.2.10 and
    section 4.1.4). */
module WeekParity {
  import opened Domain

  /** `Date.prototype.getDay`: 0 = Sunday, 1 = Monday, .., 6 = Saturday.
      Day 0, 1 January 1970, was a Thursday. */
  function JsWeekday(d: Day): (w: int)
    ensures 0 <= w < 7
    ensures w == 4 <==> d % 7 == 0
  {
    (d + 4) % 7
  }

  /** Monday = 1 .. Sunday = 7: `d.getDay() || 7`. */
  function IsoWeekday(d: Day): (w: int)
    ensures 1 <= w <= 7
    ensures w % 7 == JsWeekday(d)
  {
    var j := JsWeekday(d);
    if j == 0 then 7 else j
  }

  predicate IsLeapYear(y: int)
  {
    y % 4 == 0 && (y % 100 != 0 || y % 400 == 0)
  }

  /** The number of leap years before year `y`, counted from year 0. */
  function LeapYearsBefore(y: int): int
  {
    (y - 1) / 4 - (y - 1) / 100 + (y - 1) / 400
  }

  /** The day number of 1 January of year `y` (proleptic Gregorian calendar). */
  function YearStart(y: int): Day
  {
    365 * (y - 1970) + LeapYearsBefore(y) - LeapYearsBefore(1970)
  }

  /** A year has 366 days when it is a leap year and 365 otherwise. */
  lemma YearLength(y: int)
    ensures YearStart(y + 1) - YearStart(y) == if IsLeapYear(y) then 366 else 365
  {
    MultiplesUpTo(y);
    CenturiesAreLeap(y);
  }

  /** Going from `y - 1` to `y` adds one multiple of 4, 100 or 400 exactly
      when that number divides `y`. */
  lemma MultiplesUpTo(y: int)
    ensures y / 4 - (y - 1) / 4 == if y % 4 == 0 then 1 else 0
    ensures y / 100 - (y - 1) / 100 == if y % 100 == 0 then 1 else 0
    ensures y / 400 - (y - 1) / 400 == if y % 400 == 0 then 1 else 0
  {
    MultiplesOf4(y);
    MultiplesOf100(y);
    MultiplesOf400(y);
  }

  lemma MultiplesOf4(y: int)
    ensures y / 4 - (y - 1) / 4 == if y % 4 == 0 then 1 else 0
  {
  }

  lemma MultiplesOf100(y: int)
    ensures y / 100 - (y - 1) / 100 == if y % 100 == 0 then 1 else 0
  {
  }

  lemma MultiplesOf400(y: int)
    ensures y / 400 - (y - 1) / 400 == if y % 400 == 0 then 1 else 0
  {
  }

  lemma CenturiesAreLeap(y: int)
    ensures y % 400 == 0 ==> y % 100 == 0
    ensures y % 100 == 0 ==> y % 4 == 0
  {
    if y % 400 == 0 {
      var q := y / 400;
      assert y == 400 * q;
      assert y / 100 == 4 * q;
    }
    if y % 100 == 0 {
      var q := y / 100;
      assert y == 100 * q;
      assert y / 4 == 25 * q;
    }
  }


  lemma YearBounds(y: int)
    ensures 365 <= YearStart(y + 1) - YearStart(y) <= 366
  {
    YearLength(y);
  }

  /** Later years start later: at least 365 days per year in between. */
  lemma {:induction false} YearStartGrows(a: int, b: int)
    requires a <= b
    ensures YearStart(b) - YearStart(a) >= 365 * (b - a)
    decreases b - a
  {
    if a < b {
      YearStartGrows(a, b - 1);
      YearBounds(b - 1);
    }
  }

  /** The year of day `d`: the `y` whose 1 January is on or before `d` while
      that of `y + 1` is after it (`Date.prototype.getFullYear`). */
  function YearOf(d: Day): (y: int)
    ensures YearStart(y) <= d < YearStart(y + 1)
  {
    if d >= 0 then YearFrom(1970, d) else YearBefore(1969, d)
  }

  function YearFrom(y: int, d: Day): (r: int)
    requires YearStart(y) <= d
    ensures YearStart(r) <= d < YearStart(r + 1)
    decreases d - YearStart(y)
  {
    YearBounds(y);
    if d < YearStart(y + 1) then y else YearFrom(y + 1, d)
  }

  function YearBefore(y: int, d: Day): (r: int)
    requires d < YearStart(y + 1)
    ensures YearStart(r) <= d < YearStart(r + 1)
    decreases YearStart(y + 1) - d
  {
    YearBounds(y);
    if YearStart(y) <= d then y else YearBefore(y - 1, d)
  }

  /** Only one year contains a given day. */
  lemma YearOfUnique(d: Day, y: int)
    requires YearStart(y) <= d < YearStart(y + 1)
    ensures YearOf(d) == y
  {
    YearsDisjoint(YearOf(d), y, d);
  }

  lemma YearsDisjoint(r: int, y: int, d: Day)
    requires YearStart(r) <= d < YearStart(r + 1)
    requires YearStart(y) <= d < YearStart(y + 1)
    ensures r == y
  {
    if r < y {
      YearStartGrows(r + 1, y);
    } else if r > y {
      YearStartGrows(y + 1, r);
    }
  }

  /** The Thursday of `d`'s Monday-to-Sunday week: `d + 4 - (d.getDay() || 7)`. */
  function ThursdayOf(d: Day): (t: Day)
    ensures JsWeekday(t) == 4
    ensures d - 3 <= t <= d + 3
  {
    d + 4 - IsoWeekday(d)
  }

  /** `Math.ceil(n / k)` for whole numbers. */
  function CeilDiv(n: int, k: int): (r: int)
    requires k > 0
    ensures (r - 1) * k < n <= r * k
  {
    (n + k - 1) / k
  }

  /** The week of the year `t` falls in, counted from its 1 January:
      `Math.ceil(((t - yearStart) / 86400000 + 1) / 7)`. */
  function WeekOfYear(t: Day): (n: int)
    ensures 1 <= n <= 53
  {
    var y := YearOf(t);
    YearBounds(y);
    CeilDiv(t - YearStart(y) + 1, 7)
  }

  /** `getISOWeekNumber`: the week of the Thursday of `d`'s week, counted from
      1 January of the Thursday's year. */
  function IsoWeekNumber(d: Day): (n: int)
    ensures 1 <= n <= 53
  {
    WeekOfYear(ThursdayOf(d))
  }

  /** `getWeekType`. */
  function WeekTypeOf(d: Day): (p: Parity)
  {
    if IsoWeekNumber(d) % 2 == 1 then Odd else Even
  }

  /** ODD exactly for the odd week numbers, EVEN for the even ones. */
  lemma WeekTypeIsParity(d: Day)
    ensures WeekTypeOf(d) == Odd <==> IsoWeekNumber(d) % 2 == 1
    ensures WeekTypeOf(d) == Even <==> IsoWeekNumber(d) % 2 == 0
  {
  }

  /** Monday to Sunday of one week share their Thursday, hence their week
      number and their week type (Sunday counts as day 7, not day 0). */
  lemma {:induction false} SameWeek(monday: Day, k: int)
    requires IsoWeekday(monday) == 1 && 0 <= k < 7
    ensures ThursdayOf(monday + k) == ThursdayOf(monday)
    ensures IsoWeekNumber(monday + k) == IsoWeekNumber(monday)
    ensures WeekTypeOf(monday + k) == WeekTypeOf(monday)
  {
    assert IsoWeekday(monday + k) == k + 1;
  }

  /** Week 1 is exactly the week whose Thursday falls in the first seven days
      of its year, i.e. the week of the year's first Thursday. */
  lemma WeekOneHoldsFirstThursday(d: Day)
    ensures IsoWeekNumber(d) == 1 <==> ThursdayOf(d) - YearStart(YearOf(ThursdayOf(d))) < 7
  {
  }

  /** The week of `t`, given the year it falls in. */
  lemma WeekOfYearIn(t: Day, y: int)
    requires YearStart(y) <= t < YearStart(y + 1)
    ensures WeekOfYear(t) == CeilDiv(t - YearStart(y) + 1, 7)
  {
    YearOfUnique(t, y);
  }

  /** Seven days later the week of the year goes up by one, or restarts at 1
      in the next year. */
  lemma NextWeekOfYear(t: Day)
    ensures WeekOfYear(t + 7) == WeekOfYear(t) + 1 || (WeekOfYear(t + 7) == 1 && WeekOfYear(t) >= 52)
  {
    var y := YearOf(t);
    if t + 7 < YearStart(y + 1) {
      WeekInSameYear(t, y);
    } else {
      WeekIntoNextYear(t, y);
    }
  }

  lemma WeekInSameYear(t: Day, y: int)
    requires YearStart(y) <= t && t + 7 < YearStart(y + 1)
    ensures WeekOfYear(t + 7) == WeekOfYear(t) + 1
  {
    WeekOfYearIn(t, y);
    WeekOfYearIn(t + 7, y);
    CeilDivShift(t - YearStart(y) + 1);
  }

  lemma WeekIntoNextYear(t: Day, y: int)
    requires YearStart(y) <= t < YearStart(y + 1) <= t + 7
    ensures WeekOfYear(t + 7) == 1 && WeekOfYear(t) >= 52
  {
    LastWeekOfYear(t, y);
    WeekOfYearIn(t, y);
    WeekOfYearIn(t + 7, y + 1);
  }

  /** Seven days after a day of the last week of year `y` lie in the first
      week of year `y + 1`. */
  lemma LastWeekOfYear(t: Day, y: int)
    requires YearStart(y) <= t < YearStart(y + 1) <= t + 7
    ensures t + 7 < YearStart(y + 2)
    ensures CeilDiv(t + 7 - YearStart(y + 1) + 1, 7) == 1 && CeilDiv(t - YearStart(y) + 1, 7) >= 52
  {
    YearBounds(y);
    YearBounds(y + 1);
    WeekWraps(t - YearStart(y), t + 7 - YearStart(y + 1));
  }

  lemma CeilDivShift(n: int)
    ensures CeilDiv(n + 7, 7) == CeilDiv(n, 7) + 1
  {
  }

  /** Crossing into the next year, from the last week of a 365- or 366-day
      year, at day `n` of it, into its week 1, at day `m` of the next. */
  lemma WeekWraps(n: int, m: int)
    requires 0 <= m < 7 && 358 <= n
    ensures CeilDiv(m + 1, 7) == 1 && CeilDiv(n + 1, 7) >= 52
  {
  }

  /** One week later the week number goes up by one, or restarts at 1 after
      week 52 or 53. */
  lemma NextWeekNumber(d: Day)
    ensures IsoWeekNumber(d + 7) == IsoWeekNumber(d) + 1 || (IsoWeekNumber(d + 7) == 1 && IsoWeekNumber(d) >= 52)
  {
    ThursdayShift(d);
    NextWeekOfYear(ThursdayOf(d));
  }

  lemma ThursdayShift(d: Day)
    ensures ThursdayOf(d + 7) == ThursdayOf(d) + 7
  {
    assert (d + 7 + 4) % 7 == (d + 4) % 7;
  }

  /** The rotation alternates from one week to the next, except when week 53
      is followed by week 1: both are ODD. */
  lemma ParityAlternates(d: Day)
    ensures WeekTypeOf(d + 7) != WeekTypeOf(d) <==> IsoWeekNumber(d) != 53
  {
    var w, w' := IsoWeekNumber(d), IsoWeekNumber(d + 7);
    NextWeekNumber(d);
    ParityStep(w, w');
  }

  lemma ParityStep(w: int, w': int)
    requires 1 <= w <= 53 && 1 <= w' <= 53
    requires w' == w + 1 || (w' == 1 && w >= 52)
    ensures (w' % 2 == 1) != (w % 2 == 1) <==> w != 53
  {
  }

  /** Monday 30 December 2024 lies in week 1 (of 2025), an ODD week. */
  lemma LateDecemberInWeekOne()
    ensures YearOf(20087) == 2024 && IsoWeekday(20087) == 1
    ensures IsoWeekNumber(20087) == 1 && WeekTypeOf(20087) == Odd
  {
    YearOfUnique(20087, 2024);
    YearOfUnique(20090, 2025);
  }

  /** Friday 1 January 2021 lies in week 53 (of 2020) and Friday 8 January
      2021 in week 1 (of 2021): two weeks in a row are both ODD. */
  lemma EarlyJanuaryInWeek53()
    ensures YearOf(18628) == 2021 && IsoWeekday(18628) == 5
    ensures IsoWeekNumber(18628) == 53 && IsoWeekNumber(18628 + 7) == 1
    ensures WeekTypeOf(18628) == Odd && WeekTypeOf(18628 + 7) == Odd
  {
    assert YearStart(2021) == 18628 && YearStart(2022) == 18993;
    YearOfUnique(18628, 2021);
    assert IsoWeekday(18628) == 5;
    LastThursdayOf2020();
    FirstThursdayOf2021();
  }

  lemma LastThursdayOf2020()
    ensures IsoWeekNumber(18628) == 53 && WeekTypeOf(18628) == Odd
  {
    assert YearStart(2020) == 18262 && YearStart(2021) == 18628;
    YearOfUnique(18627, 2020);
    assert ThursdayOf(18628) == 18627;
    assert WeekOfYear(18627) == CeilDiv(366, 7) == 53;
  }

  lemma FirstThursdayOf2021()
    ensures IsoWeekNumber(18635) == 1 && WeekTypeOf(18635) == Odd
  {
    assert YearStart(2021) == 18628 && YearStart(2022) == 18993;
    YearOfUnique(18634, 2021);
    assert ThursdayOf(18635) == 18634;
    assert WeekOfYear(18634) == CeilDiv(7, 7) == 1;
  }
}
