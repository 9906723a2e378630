/** The calendar-day value of lib/day.js.

    A `Day` wraps a dayjs value. dayjs is modelled explicitly as a Gregorian
    (year, month, date) triple whose month is zero-based, as dayjs's `month()`
    returns it. dayjs compares two values by the instant each stands for; for
    values at the start of a day that instant is determined by the day's
    ordinal number, its count of days since 0001-01-01 (proleptic Gregorian
    calendar), so comparisons, `add(1, 'days')` and `subtract(1, 'days')` are
    stated on that ordinal. */
module Days {
  import opened Options
  import opened Decimal

  /** The dayjs value: `year()`, zero-based `month()` and `date()`. */
  datatype Dayjs = Dayjs(year: int, month: int, date: int)

  predicate IsLeapYear(y: int)
  {
    y % 4 == 0 && (y % 100 != 0 || y % 400 == 0)
  }

  /** Number of days in zero-based month `m` of year `y`. */
  function DaysInMonth(y: int, m: int): (n: int)
    requires 0 <= m < 12
    ensures 28 <= n <= 31
  {
    if m == 1 then (if IsLeapYear(y) then 29 else 28)
    else if m == 3 || m == 5 || m == 8 || m == 10 then 30
    else 31
  }

  function DaysInYear(y: int): int
  {
    if IsLeapYear(y) then 366 else 365
  }

  predicate IsValid(dj: Dayjs)
  {
    0 <= dj.month < 12 && 1 <= dj.date <= DaysInMonth(dj.year, dj.month)
  }

  /** A dayjs value naming a real calendar date (no overflowing month or date). */
  type ValidDayjs = dj: Dayjs | IsValid(dj) witness Dayjs(1970, 0, 1)

  /** The `Day` class: an immutable wrapper around its `dayj` field. */
  datatype Day = Day(dayj: ValidDayjs)

  // ---------------------------------------------------------------------------
  // The calendar arithmetic that dayjs performs

  /** Leap years among years 1..n (for n >= 0). */
  function LeapYearsThrough(n: int): int
  {
    n / 4 - n / 100 + n / 400
  }

  function DaysBeforeYear(y: int): int
  {
    365 * (y - 1) + LeapYearsThrough(y - 1)
  }

  /** Days of year `y` that come before zero-based month `m`. */
  function DaysBeforeMonth(y: int, m: int): int
    requires 0 <= m <= 12
  {
    var common :=
      if m == 0 then 0 else if m == 1 then 31 else if m == 2 then 59
      else if m == 3 then 90 else if m == 4 then 120 else if m == 5 then 151
      else if m == 6 then 181 else if m == 7 then 212 else if m == 8 then 243
      else if m == 9 then 273 else if m == 10 then 304 else if m == 11 then 334
      else 365;
    common + (if m >= 2 && IsLeapYear(y) then 1 else 0)
  }

  /** The day's number on the calendar line: 0 for 0001-01-01. */
  function Ordinal(dj: ValidDayjs): int
  {
    DaysBeforeYear(dj.year) + DaysBeforeMonth(dj.year, dj.month) + dj.date - 1
  }

  lemma MonthStep(y: int, m: int)
    requires 0 <= m < 12
    ensures DaysBeforeMonth(y, m + 1) == DaysBeforeMonth(y, m) + DaysInMonth(y, m)
  {
  }

  lemma YearStep(y: int)
    ensures DaysBeforeYear(y + 1) == DaysBeforeYear(y) + DaysInYear(y)
    ensures DaysBeforeMonth(y, 12) == DaysInYear(y)
  {
    LeapYearStep(y);
  }

  /** Year `y` adds one to the count of leap years exactly when it is a leap year. */
  lemma LeapYearStep(y: int)
    ensures LeapYearsThrough(y) == LeapYearsThrough(y - 1) + (if IsLeapYear(y) then 1 else 0)
  {
    DivStep(y, 4);
    DivStep(y, 100);
    DivStep(y, 400);
    if y % 400 == 0 {
      MultipleDivides(y, 400, 100);
    }
    if y % 100 == 0 {
      MultipleDivides(y, 100, 4);
    }
  }

  /** Passing from `y - 1` to `y` adds one to the quotient by `k` exactly at multiples of `k`. */
  lemma DivStep(y: int, k: int)
    requires k > 0
    ensures y / k - (y - 1) / k == if y % k == 0 then 1 else 0
  {
    var q, r := (y - 1) / k, (y - 1) % k;
    assert y - 1 == k * q + r && 0 <= r < k;
    if r == k - 1 {
      assert y == k * (q + 1) + 0;
      DivUnique(y, k, q + 1, 0);
    } else {
      assert y == k * q + (r + 1);
      DivUnique(y, k, q, r + 1);
    }
  }

  /** Euclidean division is unique. */
  lemma DivUnique(y: int, k: int, q: int, r: int)
    requires k > 0 && 0 <= r < k && y == k * q + r
    ensures y / k == q && y % k == r
  {
    var q', r' := y / k, y % k;
    assert y == k * q' + r' && 0 <= r' < k;
    if q > q' {
      MulGap(k, q, q');
      assert false;
    } else if q < q' {
      MulGap(k, q', q);
      assert false;
    }
  }

  /** Multiples of `k` with different factors lie at least `k` apart. */
  lemma MulGap(k: int, a: int, b: int)
    requires k > 0 && a > b
    ensures k * a - k * b >= k
  {
    MulAtLeast(k, a - b);
    assert k * (a - b) == k * a - k * b;
  }

  lemma {:induction false} MulAtLeast(k: int, d: int)
    requires k > 0 && d >= 1
    ensures k * d >= k
    decreases d
  {
    if d > 1 {
      MulAtLeast(k, d - 1);
      assert k * d == k * (d - 1) + k;
    }
  }

  /** A multiple of `m` is a multiple of every divisor `k` of `m`. */
  lemma MultipleDivides(y: int, m: int, k: int)
    requires k > 0 && m > 0 && m % k == 0 && y % m == 0
    ensures y % k == 0
  {
    var a, b := y / m, m / k;
    assert y == m * a && m == k * b;
    assert y == k * (b * a) + 0;
    DivUnique(y, k, b * a, 0);
  }

  /** dayjs's `add(1, 'days')`: the next calendar day, rolling over month and year ends. */
  function Add1(dj: ValidDayjs): (r: ValidDayjs)
    ensures Ordinal(r) == Ordinal(dj) + 1
  {
    if dj.date < DaysInMonth(dj.year, dj.month) then
      Dayjs(dj.year, dj.month, dj.date + 1)
    else if dj.month < 11 then
      MonthStep(dj.year, dj.month);
      Dayjs(dj.year, dj.month + 1, 1)
    else
      YearStep(dj.year);
      Dayjs(dj.year + 1, 0, 1)
  }

  /** dayjs's `subtract(1, 'days')`: the previous calendar day. */
  function Subtract1(dj: ValidDayjs): (r: ValidDayjs)
    ensures Ordinal(r) == Ordinal(dj) - 1
  {
    if dj.date > 1 then
      Dayjs(dj.year, dj.month, dj.date - 1)
    else if dj.month > 0 then
      MonthStep(dj.year, dj.month - 1);
      Dayjs(dj.year, dj.month - 1, DaysInMonth(dj.year, dj.month - 1))
    else
      YearStep(dj.year - 1);
      Dayjs(dj.year - 1, 11, 31)
  }

  /** (year, month, date) compared lexicographically. */
  predicate LexBefore(a: Dayjs, b: Dayjs)
  {
    a.year < b.year
    || (a.year == b.year && a.month < b.month)
    || (a.year == b.year && a.month == b.month && a.date < b.date)
  }

  lemma {:induction false} DaysBeforeYearGrows(y1: int, y2: int)
    requires y1 < y2
    ensures DaysBeforeYear(y1) + DaysInYear(y1) <= DaysBeforeYear(y2)
    decreases y2 - y1
  {
    YearStep(y1);
    if y1 + 1 < y2 {
      DaysBeforeYearGrows(y1 + 1, y2);
    }
  }

  lemma MonthsGrow(y: int, m1: int, m2: int)
    requires 0 <= m1 < m2 < 12
    ensures DaysBeforeMonth(y, m1) + DaysInMonth(y, m1) <= DaysBeforeMonth(y, m2)
  {
  }

  lemma OrdinalWithinYear(dj: ValidDayjs)
    ensures DaysBeforeYear(dj.year) <= Ordinal(dj) < DaysBeforeYear(dj.year) + DaysInYear(dj.year)
  {
    YearStep(dj.year);
    if dj.month < 11 {
      MonthsGrow(dj.year, dj.month, 11);
    }
  }

  /** The ordinal grows with the (year, month, date) order. */
  lemma OrdinalFollowsLex(a: ValidDayjs, b: ValidDayjs)
    requires LexBefore(a, b)
    ensures Ordinal(a) < Ordinal(b)
  {
    if a.year < b.year {
      OrdinalWithinYear(a);
      OrdinalWithinYear(b);
      DaysBeforeYearGrows(a.year, b.year);
    } else if a.month < b.month {
      MonthsGrow(a.year, a.month, b.month);
    }
  }

  // ---------------------------------------------------------------------------
  // Construction

  /** A (year, month, date) triple with a one-based month that names a real date. */
  predicate IsValidDate(year: int, month: int, date: int)
  {
    1 <= month <= 12 && 1 <= date <= DaysInMonth(year, month - 1)
  }

  function Year(d: Day): int { d.dayj.year }
  function Month(d: Day): int { d.dayj.month + 1 }
  function Date(d: Day): int { d.dayj.date }

  /** `new Day(year, month, date)`: the month is given one-based and stored zero-based. */
  function New(year: int, month: int, date: int): (d: Day)
    requires IsValidDate(year, month, date)
    ensures Year(d) == year && Month(d) == month && Date(d) == date
  {
    Day(Dayjs(year, month - 1, date))
  }

  /** `Day.fromDayjs`: adds one back to dayjs's zero-based month. */
  function FromDayjs(dj: ValidDayjs): (d: Day)
    ensures d.dayj == dj
  {
    New(dj.year, dj.month + 1, dj.date)
  }

  /** Building a day and reading its dayjs value back gives the same day. */
  lemma NewRoundTrip(year: int, month: int, date: int)
    requires IsValidDate(year, month, date)
    ensures FromDayjs(New(year, month, date).dayj) == New(year, month, date)
  {
  }

  // ---------------------------------------------------------------------------
  // Comparisons installed on Day.prototype: each applies the dayjs method to `dayj`

  predicate IsBefore(a: Day, b: Day) { Ordinal(a.dayj) < Ordinal(b.dayj) }
  predicate IsSame(a: Day, b: Day) { Ordinal(a.dayj) == Ordinal(b.dayj) }
  predicate IsAfter(a: Day, b: Day) { Ordinal(a.dayj) > Ordinal(b.dayj) }
  /** dayjs's isSameOrBefore plugin: `isSame(that) || isBefore(that)`. */
  predicate IsSameOrBefore(a: Day, b: Day) { IsSame(a, b) || IsBefore(a, b) }
  /** dayjs's isSameOrAfter plugin: `isSame(that) || isAfter(that)`. */
  predicate IsSameOrAfter(a: Day, b: Day) { IsSame(a, b) || IsAfter(a, b) }

  /** `isBefore` is exactly the lexicographic order on (year, month, date). */
  lemma BeforeIsLexicographic(a: Day, b: Day)
    ensures IsBefore(a, b) <==> LexBefore(a.dayj, b.dayj)
  {
    if LexBefore(a.dayj, b.dayj) {
      OrdinalFollowsLex(a.dayj, b.dayj);
    } else if a.dayj != b.dayj {
      OrdinalFollowsLex(b.dayj, a.dayj);
    }
  }

  /** `isSame` holds exactly of the same calendar date. */
  lemma SameIsEqual(a: Day, b: Day)
    ensures IsSame(a, b) <==> a == b
  {
    if a.dayj != b.dayj {
      if LexBefore(a.dayj, b.dayj) {
        OrdinalFollowsLex(a.dayj, b.dayj);
      } else {
        OrdinalFollowsLex(b.dayj, a.dayj);
      }
    }
  }

  /** The comparisons form a total order: exactly one of before, same and after
      holds, the or-equal variants are the negations of the strict ones, and
      before is transitive. */
  lemma OrderIsTotal(a: Day, b: Day, c: Day)
    ensures IsBefore(a, b) || IsSame(a, b) || IsAfter(a, b)
    ensures !(IsBefore(a, b) && IsSame(a, b)) && !(IsBefore(a, b) && IsAfter(a, b))
    ensures !(IsSame(a, b) && IsAfter(a, b))
    ensures IsSameOrBefore(a, b) <==> !IsAfter(a, b)
    ensures IsSameOrAfter(a, b) <==> !IsBefore(a, b)
    ensures IsAfter(a, b) <==> IsBefore(b, a)
    ensures IsBefore(a, b) && IsBefore(b, c) ==> IsBefore(a, c)
  {
  }

  // ---------------------------------------------------------------------------
  // Other members of Day

  /** `clone()`: a Day that is the same date as the original. */
  function Clone(d: Day): (r: Day)
    ensures IsSame(r, d) && r == d
  {
    FromDayjs(d.dayj)
  }

  /** `day()`: the day of the week, 0 for Sunday up to 6 for Saturday
      (0001-01-01, ordinal 0, was a Monday). */
  function DayOfWeek(d: Day): (w: int)
    ensures 0 <= w < 7
  {
    (Ordinal(d.dayj) + 1) % 7
  }

  /** The next calendar day (`add(1, 'days')` on the wrapped value). */
  function Next(d: Day): (r: Day)
    ensures Ordinal(r.dayj) == Ordinal(d.dayj) + 1
  {
    Day(Add1(d.dayj))
  }

  /** The previous calendar day (`subtract(1, 'days')` on the wrapped value). */
  function Prev(d: Day): (r: Day)
    ensures Ordinal(r.dayj) == Ordinal(d.dayj) - 1
  {
    Day(Subtract1(d.dayj))
  }

  /** Successor and predecessor undo each other, and nothing lies strictly between
      a day and its successor. */
  lemma NextPrevInverse(d: Day, x: Day)
    ensures Prev(Next(d)) == d && Next(Prev(d)) == d
    ensures IsBefore(d, Next(d)) && IsBefore(Prev(d), d)
    ensures !(IsBefore(d, x) && IsBefore(x, Next(d)))
  {
    SameIsEqual(Prev(Next(d)), d);
    SameIsEqual(Next(Prev(d)), d);
  }

  /** The weekday advances by one, modulo 7, from each day to the next. */
  lemma DayOfWeekNext(d: Day)
    ensures DayOfWeek(Next(d)) == (DayOfWeek(d) + 1) % 7
  {
    var o := Ordinal(d.dayj) + 1;
    assert Ordinal(Next(d).dayj) + 1 == o + 1;
    ModSevenStep(o);
  }

  lemma ModSevenStep(x: int)
    ensures (x + 1) % 7 == (x % 7 + 1) % 7
  {
  }

  /** 2017-10-29 fell on a Sunday. */
  lemma SundayOctober29th2017()
    ensures DayOfWeek(New(2017, 10, 29)) == 0
  {
  }

  // ---------------------------------------------------------------------------
  // Walking the calendar: the bounded forms of the `until` and `untilBack` generators

  /** Number of days from `first` up to and including `last` (none if `first` is after `last`). */
  function InclusiveSpan(first: Day, last: Day): (n: nat)
    ensures n == 0 <==> IsAfter(first, last)
    ensures n > 0 ==> Ordinal(last.dayj) == Ordinal(first.dayj) + n - 1
  {
    if IsAfter(first, last) then 0 else Ordinal(last.dayj) - Ordinal(first.dayj) + 1
  }

  /** Days whose `i`-th element lies `i` days after `first`, as many as there are
      from `first` to `last`, are exactly the days from `first` up to `last`. */
  lemma RunCovers(first: Day, last: Day, days: seq<Day>)
    requires |days| == InclusiveSpan(first, last)
    requires forall i :: 0 <= i < |days| ==> Ordinal(days[i].dayj) == Ordinal(first.dayj) + i
    ensures forall x: Day :: x in days <==> IsSameOrBefore(first, x) && IsSameOrBefore(x, last)
  {
    forall x: Day | IsSameOrBefore(first, x) && IsSameOrBefore(x, last)
      ensures x in days
    {
      SameIsEqual(days[Ordinal(x.dayj) - Ordinal(first.dayj)], x);
    }
  }

  /** The mirror image of `RunCovers`: the `i`-th element lies `i` days before `last`. */
  lemma RunCoversBack(first: Day, last: Day, days: seq<Day>)
    requires |days| == InclusiveSpan(first, last)
    requires forall i :: 0 <= i < |days| ==> Ordinal(days[i].dayj) == Ordinal(last.dayj) - i
    ensures forall x: Day :: x in days <==> IsSameOrBefore(first, x) && IsSameOrBefore(x, last)
  {
    forall x: Day | IsSameOrBefore(first, x) && IsSameOrBefore(x, last)
      ensures x in days
    {
      SameIsEqual(days[Ordinal(last.dayj) - Ordinal(x.dayj)], x);
    }
  }

  /** `until(endDay)`: the receiver and each following calendar day up to and
      including `endDay`; nothing when the receiver is after `endDay`. The loop
      steps a local dayjs value and yields a fresh Day for each. */
  method Until(self: Day, endDay: Day) returns (days: seq<Day>)
    ensures |days| == InclusiveSpan(self, endDay)
    ensures forall i :: 0 <= i < |days| ==> Ordinal(days[i].dayj) == Ordinal(self.dayj) + i
    ensures days != [] ==> days[0] == self && days[|days| - 1] == endDay
    ensures forall i :: 0 < i < |days| ==> days[i] == Next(days[i - 1])
    ensures forall x: Day :: x in days <==> IsSameOrBefore(self, x) && IsSameOrBefore(x, endDay)
  {
    hide Ordinal;
    days := [];
    var dayj := self.dayj;
    while IsSameOrBefore(Day(dayj), endDay)
      invariant Ordinal(dayj) == Ordinal(self.dayj) + |days|
      invariant forall i :: 0 <= i < |days| ==> Ordinal(days[i].dayj) == Ordinal(self.dayj) + i
      invariant days == [] ==> dayj == self.dayj
      invariant days != [] ==> days[0] == self && Day(dayj) == Next(days[|days| - 1])
      invariant forall i :: 0 < i < |days| ==> days[i] == Next(days[i - 1])
      invariant days == [] || Ordinal(dayj) <= Ordinal(endDay.dayj) + 1
      decreases Ordinal(endDay.dayj) + 1 - Ordinal(dayj)
    {
      var day := FromDayjs(dayj);
      days := days + [day];
      dayj := Add1(dayj);
    }
    if days != [] {
      SameIsEqual(days[|days| - 1], endDay);
    }
    RunCovers(self, endDay, days);
  }

  /** `untilBack(endDay)`: the receiver and each previous calendar day down to and
      including `endDay`; nothing when the receiver is before `endDay`. */
  method UntilBack(self: Day, endDay: Day) returns (days: seq<Day>)
    ensures |days| == InclusiveSpan(endDay, self)
    ensures forall i :: 0 <= i < |days| ==> Ordinal(days[i].dayj) == Ordinal(self.dayj) - i
    ensures days != [] ==> days[0] == self && days[|days| - 1] == endDay
    ensures forall i :: 0 < i < |days| ==> days[i] == Prev(days[i - 1])
    ensures forall x: Day :: x in days <==> IsSameOrBefore(x, self) && IsSameOrBefore(endDay, x)
  {
    hide Ordinal;
    days := [];
    var dayj := self.dayj;
    while IsSameOrAfter(Day(dayj), endDay)
      invariant Ordinal(dayj) == Ordinal(self.dayj) - |days|
      invariant forall i :: 0 <= i < |days| ==> Ordinal(days[i].dayj) == Ordinal(self.dayj) - i
      invariant days == [] ==> dayj == self.dayj
      invariant days != [] ==> days[0] == self && Day(dayj) == Prev(days[|days| - 1])
      invariant forall i :: 0 < i < |days| ==> days[i] == Prev(days[i - 1])
      invariant days == [] || Ordinal(dayj) >= Ordinal(endDay.dayj) - 1
      decreases Ordinal(dayj) + 1 - Ordinal(endDay.dayj)
    {
      var day := FromDayjs(dayj);
      days := days + [day];
      dayj := Subtract1(dayj);
    }
    if days != [] {
      SameIsEqual(days[|days| - 1], endDay);
    }
    RunCoversBack(endDay, self, days);
  }

  // ---------------------------------------------------------------------------
  // Formatting and parsing

  /** `toString()`: dayjs format "YYYY-MM-DD". */
  function ToString(d: Day): (s: string)
    ensures 10 <= |s| && s[|s| - 3] == '-' && s[|s| - 6] == '-'
    ensures 0 <= Year(d) <= 9999 ==> |s| == 10
  {
    var ys := PadStart(ShowInt(Year(d)), 4, '0');
    var ms := PadStart(ShowNat(Month(d)), 2, '0');
    var ds := PadStart(ShowNat(Date(d)), 2, '0');
    YearFieldWidth(Year(d));
    PaddedReadsBack(Month(d), 2);
    PaddedReadsBack(Date(d), 2);
    DashedTail(ys, ms, ds);
    ys + "-" + ms + "-" + ds
  }

  lemma DashedTail(ys: string, ms: string, ds: string)
    requires |ms| == 2 && |ds| == 2
    ensures var s := ys + "-" + ms + "-" + ds;
      |s| == |ys| + 6 && s[|s| - 3] == '-' && s[|s| - 6] == '-'
  {
  }

  /** `toShortString()`: dayjs format "M/D", month and date without padding. */
  function ToShortString(d: Day): (s: string)
    ensures 3 <= |s| <= 5 && '/' in s
  {
    ShowNatReadsBack(Month(d));
    ShowNatReadsBack(Date(d));
    ShowNatFits(Month(d), 2);
    ShowNatFits(Date(d), 2);
    ShowNat(Month(d)) + "/" + ShowNat(Date(d))
  }

  /** The year field takes at least four characters, and exactly four for years 0..9999. */
  lemma YearFieldWidth(y: int)
    ensures |PadStart(ShowInt(y), 4, '0')| >= 4
    ensures 0 <= y <= 9999 ==> |PadStart(ShowInt(y), 4, '0')| == 4
  {
    if 0 <= y <= 9999 {
      PaddedReadsBack(y, 4);
    }
  }

  /** `Day.fromString` on the "YYYY-MM-DD" form: four, two and two digits separated
      by dashes and naming a real date; anything else does not make a valid day. */
  function FromString(s: string): (r: Option<Day>)
    ensures r.Some? ==> |s| == 10 && s[4] == '-' && s[7] == '-'
  {
    if |s| == 10 && s[4] == '-' && s[7] == '-'
       && AllDigits(s[..4]) && AllDigits(s[5..7]) && AllDigits(s[8..]) then
      var year, month, date := ParseDigits(s[..4]), ParseDigits(s[5..7]), ParseDigits(s[8..]);
      if IsValidDate(year, month, date) then Some(New(year, month, date)) else None
    else
      None
  }

  /** Formatting a day of years 0..9999 as "YYYY-MM-DD" and parsing it gives the day back. */
  lemma StringRoundTrip(d: Day)
    requires 0 <= Year(d) <= 9999
    ensures |ToString(d)| == 10
    ensures FromString(ToString(d)) == Some(d)
  {
    var ys := PadStart(ShowNat(Year(d)), 4, '0');
    var ms := PadStart(ShowNat(Month(d)), 2, '0');
    var ds := PadStart(ShowNat(Date(d)), 2, '0');
    assert ShowInt(Year(d)) == ShowNat(Year(d));
    PaddedReadsBack(Year(d), 4);
    PaddedReadsBack(Month(d), 2);
    PaddedReadsBack(Date(d), 2);
    DashedFields(ys, ms, ds);
    assert ToString(d) == ys + "-" + ms + "-" + ds;
  }

  lemma DashedFields(ys: string, ms: string, ds: string)
    requires |ys| == 4 && |ms| == 2 && |ds| == 2
    ensures var s := ys + "-" + ms + "-" + ds;
      |s| == 10 && s[4] == '-' && s[7] == '-' && s[..4] == ys && s[5..7] == ms && s[8..] == ds
  {
    var s := ys + "-" + ms + "-" + ds;
    assert s[..4] == ys;
    assert s[5..7] == ms;
    assert s[8..] == ds;
  }

  /** "M/D": the month's digits, a slash, then the date's digits, each reading back. */
  lemma ShortStringReadsBack(d: Day)
    ensures var s := ToShortString(d); var k := |ShowNat(Month(d))|;
      1 <= k < |s| && s[k] == '/'
      && AllDigits(s[..k]) && ParseDigits(s[..k]) == Month(d)
      && AllDigits(s[k + 1..]) && ParseDigits(s[k + 1..]) == Date(d)
  {
    var ms, ds := ShowNat(Month(d)), ShowNat(Date(d));
    ShowNatReadsBack(Month(d));
    ShowNatReadsBack(Date(d));
    var s := ToShortString(d);
    assert s[..|ms|] == ms && s[|ms| + 1..] == ds;
  }
}
