/**
 Civil (proleptic Gregorian) dates as Go's `time` package counts them: day
 arithmetic that rolls over month and year ends, as `AddDate(0, 0, k)` does, and
 the `"2006-01-02"` layout.
 */
module Calendar {
  import opened Basics
  import opened Decimal

  datatype Date = Date(year: int, month: int, day: int)

  predicate IsLeap(year: int)
  {
    year % 4 == 0 && (year % 100 != 0 || year % 400 == 0)
  }

  function DaysIn(year: int, month: int): (n: int)
    requires 1 <= month <= 12
    ensures 28 <= n <= 31
  {
    if month == 2 then (if IsLeap(year) then 29 else 28)
    else if month == 4 || month == 6 || month == 9 || month == 11 then 30
    else 31
  }

  predicate Valid(d: Date)
  {
    1 <= d.month <= 12 && 1 <= d.day <= DaysIn(d.year, d.month)
  }

  /** A date a clock can show. */
  type CivilDate = d: Date | Valid(d) witness Date(1970, 1, 1)

  function NextDay(d: Date): (r: Date)
    requires Valid(d)
    ensures Valid(r)
  {
    if d.day < DaysIn(d.year, d.month) then Date(d.year, d.month, d.day + 1)
    else if d.month < 12 then Date(d.year, d.month + 1, 1)
    else Date(d.year + 1, 1, 1)
  }

  function PrevDay(d: Date): (r: Date)
    requires Valid(d)
    ensures Valid(r)
  {
    if d.day > 1 then Date(d.year, d.month, d.day - 1)
    else if d.month > 1 then Date(d.year, d.month - 1, DaysIn(d.year, d.month - 1))
    else Date(d.year - 1, 12, 31)
  }

  /** Stepping back a day and forward a day are inverse, across month and year ends. */
  lemma NextPrevInverse(d: Date)
    requires Valid(d)
    ensures NextDay(PrevDay(d)) == d
    ensures PrevDay(NextDay(d)) == d
  {
  }

  /** `t.AddDate(0, 0, k)` on the calendar date of `t`. */
  function AddDays(d: Date, k: int): (r: Date)
    requires Valid(d)
    ensures Valid(r)
    decreases if k < 0 then -k else k
  {
    if k == 0 then d
    else if k > 0 then AddDays(NextDay(d), k - 1)
    else AddDays(PrevDay(d), k + 1)
  }

  /** Going back `n` days and then forward `n` days returns to the same date. */
  lemma {:induction false} AddDaysInverse(d: Date, n: nat)
    requires Valid(d)
    ensures AddDays(AddDays(d, -(n as int)), n) == d
    decreases n
  {
    if n > 0 {
      var p := PrevDay(d);
      assert AddDays(d, -(n as int)) == AddDays(p, -(n as int - 1));
      AddDaysInverse(p, n - 1);
      AddDaysForwardLast(AddDays(p, -(n as int - 1)), n - 1);
      NextPrevInverse(d);
    }
  }

  /** Forward stepping can peel off its last step instead of its first. */
  lemma {:induction false} AddDaysForwardLast(d: Date, n: nat)
    requires Valid(d)
    ensures AddDays(d, n + 1) == NextDay(AddDays(d, n))
    decreases n
  {
    if n > 0 {
      AddDaysForwardLast(NextDay(d), n - 1);
    }
  }

  /** Stepping back `n` days lowers the year by at most `n`. */
  lemma {:induction false} AddDaysBackYear(d: Date, n: nat)
    requires Valid(d)
    ensures AddDays(d, -(n as int)).year >= d.year - n
    decreases n
  {
    if n > 0 {
      AddDaysBackYear(PrevDay(d), n - 1);
    }
  }

  // ---------------------------------------------------------------------------
  // Day numbers: an independent count of days since 0000-01-01
  // ---------------------------------------------------------------------------

  /**
   The leap years in [0, year), counted one year at a time; for a negative year,
   minus the leap years in [year, 0).
   */
  function LeapsBefore(year: int): int
    decreases if year < 0 then -year else year
  {
    if year == 0 then 0
    else if year > 0 then LeapsBefore(year - 1) + (if IsLeap(year - 1) then 1 else 0)
    else LeapsBefore(year + 1) - (if IsLeap(year) then 1 else 0)
  }

  /** Days in the months of `year` before `month`; `month == 13` gives the whole year. */
  function DaysBeforeMonth(year: int, month: int): (n: nat)
    requires 1 <= month <= 13
  {
    if month == 1 then 0 else DaysBeforeMonth(year, month - 1) + DaysIn(year, month - 1)
  }

  /** The number of days from 0000-01-01 to `d`. */
  function DayNumber(d: Date): int
    requires Valid(d)
  {
    365 * d.year + LeapsBefore(d.year) + DaysBeforeMonth(d.year, d.month) + d.day - 1
  }

  /** 1970-01-01, the Unix epoch, is day 719528. */
  lemma DayNumberEpoch()
    ensures DayNumber(Date(1970, 1, 1)) == 719528
  {
    LeapsBeforeClosedForm(1970);
  }

  /**
   The year-by-year count agrees with the closed form: multiples of 4, less those
   of 100, plus those of 400.
   */
  lemma {:induction false} LeapsBeforeClosedForm(year: int)
    ensures LeapsBefore(year) == (year + 3) / 4 - (year + 99) / 100 + (year + 399) / 400
    decreases if year < 0 then -year else year
  {
    if year > 0 {
      LeapsBeforeClosedForm(year - 1);
      ClosedFormStep(year - 1);
    } else if year < 0 {
      LeapsBeforeClosedForm(year + 1);
      ClosedFormStep(year);
    }
  }

  lemma ClosedFormStep(y: int)
    ensures (y + 4) / 4 - (y + 100) / 100 + (y + 400) / 400
         == (y + 3) / 4 - (y + 99) / 100 + (y + 399) / 400 + (if IsLeap(y) then 1 else 0)
  {
    DivStep4(y);
    DivStep100(y);
    DivStep400(y);
    if y % 400 == 0 {
      Mod400Divides(y);
      Mod100Divides(y);
    } else if y % 100 == 0 {
      Mod100Divides(y);
    }
  }

  lemma DivStep4(y: int)
    ensures (y + 4) / 4 - (y + 3) / 4 == if y % 4 == 0 then 1 else 0
  {
  }

  lemma DivStep100(y: int)
    ensures (y + 100) / 100 - (y + 99) / 100 == if y % 100 == 0 then 1 else 0
  {
  }

  lemma DivStep400(y: int)
    ensures (y + 400) / 400 - (y + 399) / 400 == if y % 400 == 0 then 1 else 0
  {
  }

  lemma Mod400Divides(y: int)
    requires y % 400 == 0
    ensures y % 100 == 0
  {
    var k := y / 400;
    assert y == 100 * (4 * k);
  }

  lemma Mod100Divides(y: int)
    requires y % 100 == 0
    ensures y % 4 == 0
  {
    var k := y / 100;
    assert y == 4 * (25 * k);
  }

  /** A whole year has 365 days, 366 when it is leap. */
  lemma DaysBeforeYearEnd(year: int)
    ensures DaysBeforeMonth(year, 13) == 365 + (if IsLeap(year) then 1 else 0)
    ensures DaysBeforeMonth(year, 12) == 334 + (if IsLeap(year) then 1 else 0)
  {
    var leap := if IsLeap(year) then 1 else 0;
    assert DaysBeforeMonth(year, 2) == 31;
    assert DaysBeforeMonth(year, 3) == 59 + leap;
    assert DaysBeforeMonth(year, 4) == 90 + leap;
    assert DaysBeforeMonth(year, 5) == 120 + leap;
    assert DaysBeforeMonth(year, 6) == 151 + leap;
    assert DaysBeforeMonth(year, 7) == 181 + leap;
    assert DaysBeforeMonth(year, 8) == 212 + leap;
    assert DaysBeforeMonth(year, 9) == 243 + leap;
    assert DaysBeforeMonth(year, 10) == 273 + leap;
    assert DaysBeforeMonth(year, 11) == 304 + leap;
  }

  /** The next day is the next day number. */
  lemma NextDayNumber(d: Date)
    requires Valid(d)
    ensures DayNumber(NextDay(d)) == DayNumber(d) + 1
  {
    if d.day == DaysIn(d.year, d.month) && d.month == 12 {
      DaysBeforeYearEnd(d.year);
    }
  }

  /** `AddDays` moves the date by exactly `k` day numbers, forward or back. */
  lemma {:induction false} AddDaysNumber(d: Date, k: int)
    requires Valid(d)
    ensures DayNumber(AddDays(d, k)) == DayNumber(d) + k
    decreases if k < 0 then -k else k
  {
    if k > 0 {
      NextDayNumber(d);
      AddDaysNumber(NextDay(d), k - 1);
    } else if k < 0 {
      NextPrevInverse(d);
      NextDayNumber(PrevDay(d));
      AddDaysNumber(PrevDay(d), k + 1);
    }
  }

  /** Go's layout `"2006-01-02"`: year to at least four digits, month and day to two. */
  function FormatDate(d: Date): string
  {
    FormatInt(d.year, 4) + "-" + FormatInt(d.month, 2) + "-" + FormatInt(d.day, 2)
  }

  /** Reads a `YYYY-MM-DD` text with a four-digit year back into a valid date. */
  function ParseDate(s: string): (r: Option<Date>)
    ensures r.Some? ==> Valid(r.value) && 0 <= r.value.year <= 9999
  {
    if |s| != 10 || s[4] != '-' || s[7] != '-' then None
    else match (ParseNat(s[..4]), ParseNat(s[5..7]), ParseNat(s[8..]))
      case (Some(y), Some(m), Some(dd)) =>
        assert y < 10000 by { ValueOfBound(s[..4]); }
        if Valid(Date(y, m, dd)) then Some(Date(y, m, dd)) else None
      case _ => None
  }

  lemma {:induction false} ValueOfBound(s: string)
    requires AllDigits(s)
    ensures ValueOf(s) < Pow10(|s|)
    decreases |s|
  {
    if |s| > 0 {
      ValueOfBound(s[..|s| - 1]);
    }
  }

  /** Every date with a four-digit year is rendered in ten characters and read back unchanged. */
  lemma ParseFormatDate(d: Date)
    requires Valid(d) && 0 <= d.year <= 9999
    ensures |FormatDate(d)| == 10
    ensures ParseDate(FormatDate(d)) == Some(d)
  {
    var ys, ms, ds := FormatInt(d.year, 4), FormatInt(d.month, 2), FormatInt(d.day, 2);
    assert Pow10(4) == 10000 && Pow10(2) == 100;
    FormatIntFixedWidth(d.year, 4);
    FormatIntFixedWidth(d.month, 2);
    FormatIntFixedWidth(d.day, 2);
    FormatIntRoundTrip(d.year, 4);
    FormatIntRoundTrip(d.month, 2);
    FormatIntRoundTrip(d.day, 2);
    var s := FormatDate(d);
    assert s == ys + "-" + ms + "-" + ds;
    assert s[..4] == ys && s[5..7] == ms && s[8..] == ds;
  }
}
