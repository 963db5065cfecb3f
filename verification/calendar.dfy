/** Calendar dates and the wall clock as the back end sees them: Python
    `date` values, their ISO 8601 rendering (`date.isoformat()`), the weekday
    Python derives from a date (`date.weekday()`, Monday = 0), and the
    `HH:MM` text `strftime("%H:%M")` produces. The clock itself is an input
    of the model, never read. */
module Calendar {
  import opened Lex

  type Year = y: int | 1 <= y <= 9999 witness 1
  type Month = m: int | 1 <= m <= 12 witness 1
  type Day = d: int | 1 <= d <= 31 witness 1
  type Hour = h: int | 0 <= h < 24
  type Minute = m: int | 0 <= m < 60

  datatype Date = Date(year: Year, month: Month, day: Day)

  /** Chronological order: `a < b` on Python dates. */
  predicate Before(a: Date, b: Date)
  {
    a.year < b.year
    || (a.year == b.year && a.month < b.month)
    || (a.year == b.year && a.month == b.month && a.day < b.day)
  }

  /** `a <= b` on Python dates. */
  predicate NotAfter(a: Date, b: Date)
  {
    a == b || Before(a, b)
  }

  /** `date.isoformat()`: `YYYY-MM-DD`. */
  function IsoFormat(d: Date): (r: string)
    ensures |r| == 10 && r[4] == '-' && r[7] == '-'
  {
    Pad(d.year, 4) + ("-" + (Pad(d.month, 2) + ("-" + Pad(d.day, 2))))
  }

  /** A fixed-width field followed by a dash and the rest compares on the
      field first and on the rest only when the fields agree. */
  lemma DashOrder(x1: string, r1: string, x2: string, r2: string)
    requires |x1| == |x2|
    ensures LexLt(x1 + ("-" + r1), x2 + ("-" + r2)) <==> LexLt(x1, x2) || (x1 == x2 && LexLt(r1, r2))
  {
    LexLtIrreflexive("-");
    LexLtAppend("-", r1, "-", r2);
    LexLtAppend(x1, "-" + r1, x2, "-" + r2);
  }

  /** Different dates have different ISO 8601 strings. */
  lemma IsoFormatInjective(a: Date, b: Date)
    ensures IsoFormat(a) == IsoFormat(b) <==> a == b
  {
    if IsoFormat(a) == IsoFormat(b) {
      PadOrder(a.year, b.year, 4);
      PadOrder(a.month, b.month, 2);
      PadOrder(a.day, b.day, 2);
      assert IsoFormat(a)[..4] == Pad(a.year, 4) && IsoFormat(b)[..4] == Pad(b.year, 4);
      assert IsoFormat(a)[5..7] == Pad(a.month, 2) && IsoFormat(b)[5..7] == Pad(b.month, 2);
      assert IsoFormat(a)[8..] == Pad(a.day, 2) && IsoFormat(b)[8..] == Pad(b.day, 2);
    }
  }

  /** ISO 8601 date strings sort chronologically: comparing them as Python
      strings is comparing the dates. */
  lemma IsoFormatOrder(a: Date, b: Date)
    ensures LexLt(IsoFormat(a), IsoFormat(b)) <==> Before(a, b)
    ensures IsoFormat(a) == IsoFormat(b) <==> a == b
  {
    PadOrder(a.year, b.year, 4);
    PadOrder(a.month, b.month, 2);
    PadOrder(a.day, b.day, 2);
    DashOrder(Pad(a.month, 2), Pad(a.day, 2), Pad(b.month, 2), Pad(b.day, 2));
    DashOrder(Pad(a.year, 4), Pad(a.month, 2) + ("-" + Pad(a.day, 2)), Pad(b.year, 4), Pad(b.month, 2) + ("-" + Pad(b.day, 2)));
    IsoFormatInjective(a, b);
  }

  predicate IsLeap(y: int)
  {
    y % 4 == 0 && (y % 100 != 0 || y % 400 == 0)
  }

  /** Days in the months of a common year before the given month. */
  function DaysBeforeMonth(y: int, m: Month): nat
  {
    var common := [0, 0, 31, 59, 90, 120, 151, 181, 212, 243, 273, 304, 334][m];
    if m > 2 && IsLeap(y) then common + 1 else common
  }

  /** `date.toordinal()`: day number in the proleptic Gregorian calendar, 0001-01-01 being day 1. */
  function Ordinal(d: Date): int
  {
    var y := d.year - 1;
    y * 365 + y / 4 - y / 100 + y / 400 + DaysBeforeMonth(d.year, d.month) + d.day
  }

  /** `date.weekday()`: Monday is 0 and Sunday is 6. */
  function Weekday(d: Date): (r: int)
    ensures 0 <= r < 7
  {
    (Ordinal(d) + 6) % 7
  }

  lemma WeekdayStep(n: int)
    ensures (n + 1 + 6) % 7 == ((n + 6) % 7 + 1) % 7
  {
  }

  /** Consecutive days of a month fall on consecutive weekdays, wrapping after Sunday. */
  lemma WeekdayNextDay(d: Date)
    requires d.day < 31
    ensures Weekday(d.(day := d.day + 1)) == (Weekday(d) + 1) % 7
  {
    assert Ordinal(d.(day := d.day + 1)) == Ordinal(d) + 1;
    WeekdayStep(Ordinal(d));
  }

  /** The server clock at the moment of a request: today's date and the time of day. */
  datatype Clock = Clock(today: Date, hour: Hour, minute: Minute)

  /** `strftime("%H:%M")`. */
  function HourMinute(h: Hour, m: Minute): (r: string)
    ensures |r| == 5 && r[2] == ':'
  {
    Pad(h, 2) + (":" + Pad(m, 2))
  }

  function ClockText(c: Clock): string
  {
    HourMinute(c.hour, c.minute)
  }

  /** Minutes since midnight. */
  function MinuteOfDay(h: Hour, m: Minute): int
  {
    h * 60 + m
  }

  /** For zero-padded 24-hour `HH:MM` text, string order is time-of-day order. */
  lemma HourMinuteOrder(h1: Hour, m1: Minute, h2: Hour, m2: Minute)
    ensures LexLt(HourMinute(h1, m1), HourMinute(h2, m2)) <==> MinuteOfDay(h1, m1) < MinuteOfDay(h2, m2)
    ensures LexLe(HourMinute(h1, m1), HourMinute(h2, m2)) <==> MinuteOfDay(h1, m1) <= MinuteOfDay(h2, m2)
  {
    PadOrder(h1, h2, 2);
    PadOrder(m1, m2, 2);
    PadOrder(h2, h1, 2);
    PadOrder(m2, m1, 2);
    LexLtAppend(":", Pad(m1, 2), ":", Pad(m2, 2));
    LexLtAppend(":", Pad(m2, 2), ":", Pad(m1, 2));
    LexLtAppend(Pad(h1, 2), ":" + Pad(m1, 2), Pad(h2, 2), ":" + Pad(m2, 2));
    LexLtAppend(Pad(h2, 2), ":" + Pad(m2, 2), Pad(h1, 2), ":" + Pad(m1, 2));
    LexLtIrreflexive(":");
  }
}
