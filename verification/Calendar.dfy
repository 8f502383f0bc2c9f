/**
 * The "today" stamp of the daily quota: the UTC calendar date written in the
 * ISO 8601 extended calendar-date form `YYYY-MM-DD`, as produced by taking the
 * first ten characters of `Date.prototype.toISOString()`.
 *
 * Reading the clock is not modelled: the caller passes the current UTC date.
 */
module Calendar {

  datatype Date = Date(year: nat, month: nat, day: nat)

  /** Leap years of the proleptic Gregorian calendar, which JavaScript dates use. */
  predicate IsLeapYear(year: nat) {
    year % 4 == 0 && (year % 100 != 0 || year % 400 == 0)
  }

  function DaysInMonth(year: nat, month: nat): nat
    requires 1 <= month <= 12
  {
    if month == 2 then (if IsLeapYear(year) then 29 else 28)
    else if month == 4 || month == 6 || month == 9 || month == 11 then 30
    else 31
  }

  /**
   * Existing days whose ISO string starts with a four-digit year (years 0000
   * to 9999): the days a clock reading can fall on.
   */
  predicate IsCalendarDate(d: Date) {
    d.year <= 9999 && 1 <= d.month <= 12 && 1 <= d.day <= DaysInMonth(d.year, d.month)
  }

  type CalendarDate = d: Date | IsCalendarDate(d) witness Date(1970, 1, 1)

  function Digit(n: nat): (c: char)
    requires n < 10
    ensures '0' <= c <= '9'
  {
    (('0' as int) + n) as char
  }

  /** The value of a string of decimal digits (0 for the empty string). */
  function Decimal(s: string): nat
  {
    if s == [] then 0
    else
      var c := s[|s| - 1];
      var d := if '0' <= c <= '9' then (c as int) - ('0' as int) else 0;
      10 * Decimal(s[..|s| - 1]) + d
  }

  /** `n` written with exactly `width` decimal digits, zero-padded on the left. */
  function Padded(n: nat, width: nat): (s: string)
    ensures |s| == width
    ensures forall c | c in s :: '0' <= c <= '9'
    decreases width
  {
    if width == 0 then [] else Padded(n / 10, width - 1) + [Digit(n % 10)]
  }

  function Pow10(k: nat): nat
  {
    if k == 0 then 1 else 10 * Pow10(k - 1)
  }

  /** Zero-padding to `width` digits is undone by reading the digits back. */
  lemma {:induction false} PaddedRoundTrip(n: nat, width: nat)
    requires n < Pow10(width)
    ensures |Padded(n, width)| == width
    ensures Decimal(Padded(n, width)) == n
  {
    if width > 0 {
      assert n / 10 < Pow10(width - 1);
      PaddedRoundTrip(n / 10, width - 1);
      var s := Padded(n, width);
      assert s[..|s| - 1] == Padded(n / 10, width - 1);
    }
  }

  /** Where the three digit groups and the two dashes sit in a stamp. */
  lemma StampLayout(yyyy: string, mm: string, dd: string)
    requires |yyyy| == 4 && |mm| == 2 && |dd| == 2
    requires forall c | c in yyyy :: '0' <= c <= '9'
    requires forall c | c in mm :: '0' <= c <= '9'
    requires forall c | c in dd :: '0' <= c <= '9'
    ensures var s := yyyy + "-" + mm + "-" + dd;
            |s| == 10 && s[4] == '-' && s[7] == '-' &&
            s[..4] == yyyy && s[5..7] == mm && s[8..] == dd &&
            forall i | 0 <= i < 10 && i != 4 && i != 7 :: '0' <= s[i] <= '9'
  {
    var s := yyyy + "-" + mm + "-" + dd;
    assert s[..4] == yyyy && s[5..7] == mm && s[8..] == dd;
    forall i | 0 <= i < 10 && i != 4 && i != 7
      ensures '0' <= s[i] <= '9'
    {
      if i < 4 {
        assert s[i] == yyyy[i] && yyyy[i] in yyyy;
      } else if i < 7 {
        assert s[i] == mm[i - 5] && mm[i - 5] in mm;
      } else {
        assert s[i] == dd[i - 8] && dd[i - 8] in dd;
      }
    }
  }

  /** The first ten characters of the ISO timestamp: `YYYY-MM-DD`. */
  function DateStamp(d: CalendarDate): (s: string)
    ensures |s| == 10 && s[4] == '-' && s[7] == '-'
    ensures forall i | 0 <= i < 10 && i != 4 && i != 7 :: '0' <= s[i] <= '9'
    ensures Decimal(s[..4]) == d.year && Decimal(s[5..7]) == d.month && Decimal(s[8..]) == d.day
  {
    PaddedRoundTrip(d.year, 4);
    PaddedRoundTrip(d.month, 2);
    PaddedRoundTrip(d.day, 2);
    var yyyy, mm, dd := Padded(d.year, 4), Padded(d.month, 2), Padded(d.day, 2);
    StampLayout(yyyy, mm, dd);
    yyyy + "-" + mm + "-" + dd
  }

  /** Two dates share a stamp exactly when they are the same day. */
  lemma DateStampInjective(d1: CalendarDate, d2: CalendarDate)
    ensures DateStamp(d1) == DateStamp(d2) <==> d1 == d2
  {
  }
}
