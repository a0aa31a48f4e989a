/**
  UTC date-times of the proleptic Gregorian calendar and their ISO 8601 text, as
  datetime.isoformat() prints it. The order of the texts is the order of time.
*/
module IsoClock {
  import opened Text

  datatype DateTime = DateTime(year: nat, month: nat, day: nat, hour: nat, minute: nat, second: nat, micro: nat)

  predicate Leap(y: nat) { y % 4 == 0 && (y % 100 != 0 || y % 400 == 0) }

  const MONTH_STARTS: seq<nat> := [0, 31, 59, 90, 120, 151, 181, 212, 243, 273, 304, 334]
  const MONTH_LENGTHS: seq<nat> := [31, 28, 31, 30, 31, 30, 31, 31, 30, 31, 30, 31]

  function DaysInMonth(y: nat, m: nat): nat
    requires 1 <= m <= 12
  {
    if m == 2 && Leap(y) then 29 else MONTH_LENGTHS[m - 1]
  }

  function DaysBeforeYear(y: nat): nat
    requires y >= 1
  {
    365 * (y - 1) + (y - 1) / 4 - (y - 1) / 100 + (y - 1) / 400
  }

  function DaysBeforeMonth(y: nat, m: nat): nat
    requires 1 <= m <= 12
  {
    MONTH_STARTS[m - 1] + if m > 2 && Leap(y) then 1 else 0
  }

  predicate ValidDate(y: nat, m: nat, d: nat) { 1 <= y <= 9999 && 1 <= m <= 12 && 1 <= d <= DaysInMonth(y, m) }

  predicate Valid(t: DateTime) {
    && ValidDate(t.year, t.month, t.day)
    && t.hour < 24 && t.minute < 60 && t.second < 60 && t.micro < 1_000_000
  }

  // date.toordinal()
  function Ordinal(y: nat, m: nat, d: nat): nat
    requires ValidDate(y, m, d)
  {
    DaysBeforeYear(y) + DaysBeforeMonth(y, m) + d
  }

  const MICROS_PER_DAY: nat := 86_400_000_000
  const MICROS_PER_HOUR: nat := 3_600_000_000

  function DayMicros(t: DateTime): nat { ((t.hour * 60 + t.minute) * 60 + t.second) * 1_000_000 + t.micro }

  // Microseconds on a linear scale
  function Micros(t: DateTime): nat
    requires Valid(t)
  {
    Ordinal(t.year, t.month, t.day) * MICROS_PER_DAY + DayMicros(t)
  }

  // ---------- The text ----------

  function DateText(t: DateTime): (s: string)
    ensures |s| == 10
  {
    PadDigits(t.year, 4) + "-" + PadDigits(t.month, 2) + "-" + PadDigits(t.day, 2)
  }

  function TimeText(t: DateTime): (s: string)
    ensures |s| == 8
  {
    PadDigits(t.hour, 2) + ":" + PadDigits(t.minute, 2) + ":" + PadDigits(t.second, 2)
  }

  // No fraction is printed when the microseconds are zero
  function TailText(t: DateTime): string {
    if t.micro == 0 then "+00:00" else "." + PadDigits(t.micro, 6) + "+00:00"
  }

  function IsoFormat(t: DateTime): string { DateText(t) + "T" + TimeText(t) + TailText(t) }

  // ---------- Calendar order ----------

  predicate DateBefore(a: DateTime, b: DateTime) {
    a.year < b.year || (a.year == b.year && (a.month < b.month || (a.month == b.month && a.day < b.day)))
  }

  predicate SameDate(a: DateTime, b: DateTime) { a.year == b.year && a.month == b.month && a.day == b.day }

  predicate ClockBefore(a: DateTime, b: DateTime) {
    a.hour < b.hour || (a.hour == b.hour && (a.minute < b.minute || (a.minute == b.minute && a.second < b.second)))
  }

  predicate SameClock(a: DateTime, b: DateTime) { a.hour == b.hour && a.minute == b.minute && a.second == b.second }

  predicate Before(a: DateTime, b: DateTime) {
    || DateBefore(a, b)
    || (SameDate(a, b) && (ClockBefore(a, b) || (SameClock(a, b) && a.micro < b.micro)))
  }

  lemma FourthYear(y: nat)
    requires y >= 1
    ensures y / 4 == (y - 1) / 4 + if y % 4 == 0 then 1 else 0
  {
  }

  lemma Century(y: nat)
    requires y >= 1
    ensures y / 100 == (y - 1) / 100 + if y % 100 == 0 then 1 else 0
    ensures y % 100 == 0 ==> y % 4 == 0
  {
    NextMultiple(y, 100);
    if y % 100 == 0 { Quotient(25 * (y / 100), 4, 0); }
  }

  lemma FourthCentury(y: nat)
    requires y >= 1
    ensures y / 400 == (y - 1) / 400 + if y % 400 == 0 then 1 else 0
    ensures y % 400 == 0 ==> y % 100 == 0
  {
    NextMultiple(y, 400);
    if y % 400 == 0 { Quotient(4 * (y / 400), 100, 0); }
  }

  lemma NextMultiple(y: nat, d: nat)
    requires y >= 1 && d > 1
    ensures y / d == (y - 1) / d + if y % d == 0 then 1 else 0
  {
    var (q, r) := ((y - 1) / d, (y - 1) % d);
    assert y == q * d + (r + 1);
    if r + 1 < d {
      Quotient(q, d, r + 1);
    } else {
      assert y == (q + 1) * d + 0;
      Quotient(q + 1, d, 0);
    }
  }

  lemma NextYear(y: nat)
    requires y >= 1
    ensures DaysBeforeYear(y + 1) == DaysBeforeYear(y) + if Leap(y) then 366 else 365
  {
    FourthYear(y);
    Century(y);
    FourthCentury(y);
  }

  lemma YearsAscend(x: nat, y: nat)
    requires 1 <= x < y
    ensures DaysBeforeYear(x) + (if Leap(x) then 366 else 365) <= DaysBeforeYear(y)
    decreases y
  {
    NextYear(y - 1);
    if x < y - 1 { YearsAscend(x, y - 1); }
  }

  lemma MonthsAscend(y: nat, m: nat, n: nat)
    requires 1 <= m < n <= 12
    ensures DaysBeforeMonth(y, m) + DaysInMonth(y, m) <= DaysBeforeMonth(y, n)
  {
  }

  lemma YearEnds(y: nat, m: nat)
    requires 1 <= m <= 12
    ensures DaysBeforeMonth(y, m) + DaysInMonth(y, m) <= if Leap(y) then 366 else 365
  {
  }

  lemma OrdinalAscends(a: DateTime, b: DateTime)
    requires Valid(a) && Valid(b) && DateBefore(a, b)
    ensures Ordinal(a.year, a.month, a.day) < Ordinal(b.year, b.month, b.day)
  {
    if a.year < b.year {
      YearsAscend(a.year, b.year);
      YearEnds(a.year, a.month);
    } else if a.month < b.month {
      MonthsAscend(a.year, a.month, b.month);
    }
  }

  lemma BeforeAscends(a: DateTime, b: DateTime)
    requires Valid(a) && Valid(b) && Before(a, b)
    ensures Micros(a) < Micros(b)
  {
    hide DaysBeforeYear, DaysBeforeMonth, DaysInMonth, Ordinal;
    if DateBefore(a, b) { OrdinalAscends(a, b); }
    assert DayMicros(a) < MICROS_PER_DAY;
  }

  // ---------- Text order ----------

  lemma {:induction false} PadOrder(a: nat, b: nat, width: nat)
    requires a < b < Pow10(width)
    ensures StrLess(PadDigits(a, width), PadDigits(b, width))
    decreases width
  {
    var (p, q) := (PadDigits(a / 10, width - 1), PadDigits(b / 10, width - 1));
    var (x, y) := ([DigitChar(a % 10)], [DigitChar(b % 10)]);
    if a / 10 < b / 10 {
      PadOrder(a / 10, b / 10, width - 1);
      StrLessTotal(p, q);
      StrLessFirst(p, q, x, y);
    } else {
      assert x[0] < y[0] && StrLess(x, y);
      StrLessPrefix(p, x, y);
    }
  }

  // A field decides when it differs and is passed over when it does not
  lemma FieldOrder(a: nat, b: nat, width: nat, x: string, y: string)
    requires a < b < Pow10(width) || (a == b && StrLess(x, y))
    ensures StrLess(PadDigits(a, width) + x, PadDigits(b, width) + y)
  {
    var (p, q) := (PadDigits(a, width), PadDigits(b, width));
    if a < b {
      PadOrder(a, b, width);
      StrLessTotal(p, q);
      StrLessFirst(p, q, x, y);
    } else {
      StrLessPrefix(p, x, y);
    }
  }

  // Three fields with one separator, as in a date and in a time
  function Triple(a: nat, w: nat, b: nat, c: nat, sep: string): string {
    PadDigits(a, w) + (sep + (PadDigits(b, 2) + (sep + PadDigits(c, 2))))
  }

  lemma TripleOrder(a: nat, a': nat, w: nat, b: nat, b': nat, c: nat, c': nat, sep: string)
    requires a' < Pow10(w) && b' < 100 && c' < 100
    requires a < a' || (a == a' && (b < b' || (b == b' && c < c')))
    ensures StrLess(Triple(a, w, b, c, sep), Triple(a', w, b', c', sep))
  {
    assert Pow10(1) == 10 && Pow10(2) == 100;
    var (z, z') := (PadDigits(c, 2), PadDigits(c', 2));
    var (y, y') := (PadDigits(b, 2) + (sep + z), PadDigits(b', 2) + (sep + z'));
    if a == a' {
      if b == b' {
        PadOrder(c, c', 2);
        StrLessPrefix(sep, z, z');
      }
      FieldOrder(b, b', 2, sep + z, sep + z');
      StrLessPrefix(sep, y, y');
    }
    FieldOrder(a, a', w, sep + y, sep + y');
  }

  lemma DateTextOrder(a: DateTime, b: DateTime)
    requires Valid(a) && Valid(b) && DateBefore(a, b)
    ensures StrLess(DateText(a), DateText(b))
  {
    assert Pow10(4) == 10 * Pow10(3) == 100 * Pow10(2) == 1000 * Pow10(1) == 10000;
    assert forall t: DateTime :: DateText(t) == Triple(t.year, 4, t.month, t.day, "-");
    TripleOrder(a.year, b.year, 4, a.month, b.month, a.day, b.day, "-");
  }

  lemma TimeTextOrder(a: DateTime, b: DateTime)
    requires Valid(a) && Valid(b) && ClockBefore(a, b)
    ensures StrLess(TimeText(a), TimeText(b))
  {
    assert Pow10(2) == 10 * Pow10(1) == 100;
    assert forall t: DateTime :: TimeText(t) == Triple(t.hour, 2, t.minute, t.second, ":");
    TripleOrder(a.hour, b.hour, 2, a.minute, b.minute, a.second, b.second, ":");
  }

  // "+" comes before ".", so a whole second comes before its fractions
  lemma TailTextOrder(a: DateTime, b: DateTime)
    requires a.micro < b.micro < 1_000_000
    ensures StrLess(TailText(a), TailText(b))
  {
    if a.micro != 0 { FractionOrder(a, b); }
  }

  lemma FractionOrder(a: DateTime, b: DateTime)
    requires 0 < a.micro < b.micro < 1_000_000
    ensures StrLess(TailText(a), TailText(b))
  {
    hide PadDigits, StrLess;
    assert b.micro < Pow10(6) by { Million(); }
    FieldOrder(a.micro, b.micro, 6, "+00:00", "+00:00");
    var (x, y) := (PadDigits(a.micro, 6) + "+00:00", PadDigits(b.micro, 6) + "+00:00");
    StrLessPrefix(".", x, y);
    assert TailText(a) == "." + x && TailText(b) == "." + y;
  }

  lemma Million()
    ensures Pow10(6) == 1_000_000
  {
    assert Pow10(6) == 10 * Pow10(5) == 100 * Pow10(4) == 1000 * Pow10(3) == 10000 * Pow10(2) == 100000 * Pow10(1);
  }

  lemma BeforeText(a: DateTime, b: DateTime)
    requires Valid(a) && Valid(b) && Before(a, b)
    ensures StrLess(IsoFormat(a), IsoFormat(b))
  {
    hide DateText, TimeText, TailText;
    var (u, v) := (TimeText(a) + TailText(a), TimeText(b) + TailText(b));
    assert IsoFormat(a) == DateText(a) + ("T" + u) && IsoFormat(b) == DateText(b) + ("T" + v);
    if DateBefore(a, b) {
      DateTextOrder(a, b);
      StrLessTotal(DateText(a), DateText(b));
      StrLessFirst(DateText(a), DateText(b), "T" + u, "T" + v);
    } else {
      assert DateText(a) == DateText(b) by { SameDateText(a, b); }
      if ClockBefore(a, b) {
        TimeTextOrder(a, b);
        StrLessTotal(TimeText(a), TimeText(b));
        StrLessFirst(TimeText(a), TimeText(b), TailText(a), TailText(b));
      } else {
        SameTimeText(a, b);
        TailTextOrder(a, b);
        StrLessPrefix(TimeText(a), TailText(a), TailText(b));
      }
      StrLessPrefix("T", u, v);
      StrLessPrefix(DateText(a), "T" + u, "T" + v);
    }
  }

  lemma SameDateText(a: DateTime, b: DateTime)
    requires SameDate(a, b)
    ensures DateText(a) == DateText(b)
  {
  }

  lemma SameTimeText(a: DateTime, b: DateTime)
    requires SameClock(a, b)
    ensures TimeText(a) == TimeText(b)
  {
  }

  // String order is time order, in both directions, and different times have different texts
  lemma TextOrderIsTimeOrder(a: DateTime, b: DateTime)
    requires Valid(a) && Valid(b)
    ensures StrLess(IsoFormat(a), IsoFormat(b)) <==> Micros(a) < Micros(b)
    ensures IsoFormat(a) == IsoFormat(b) <==> Micros(a) == Micros(b)
    ensures Micros(a) == Micros(b) <==> a == b
  {
    hide IsoFormat, Micros;
    StrLessTotal(IsoFormat(a), IsoFormat(b));
    if Before(a, b) {
      BeforeAscends(a, b);
      BeforeText(a, b);
    } else if Before(b, a) {
      BeforeAscends(b, a);
      BeforeText(b, a);
    }
  }

  // ---------- Subtracting a duration ----------

  function PrevDay(t: DateTime): (r: Option<DateTime>)
    requires Valid(t)
    ensures r.Some? ==> Valid(r.value)
  {
    if t.day > 1 then Some(t.(day := t.day - 1))
    else if t.month > 1 then Some(t.(month := t.month - 1, day := DaysInMonth(t.year, t.month - 1)))
    else if t.year > 1 then Some(t.(year := t.year - 1, month := 12, day := 31))
    else None
  }

  function NextDay(t: DateTime): (r: Option<DateTime>)
    requires Valid(t)
    ensures r.Some? ==> Valid(r.value)
  {
    if t.day < DaysInMonth(t.year, t.month) then Some(t.(day := t.day + 1))
    else if t.month < 12 then Some(t.(month := t.month + 1, day := 1))
    else if t.year < 9999 then Some(t.(year := t.year + 1, month := 1, day := 1))
    else None
  }

  // now - timedelta(days=days), also for a negative number; a time outside the years 1 to 9999 is an
  // OverflowError
  function MinusDays(t: DateTime, days: int): (r: Option<DateTime>)
    requires Valid(t)
    ensures r.Some? ==> Valid(r.value)
    decreases if days < 0 then -days else days
  {
    if days == 0 then Some(t)
    else if days > 0 then
      match PrevDay(t)
      case None => None
      case Some(p) => MinusDays(p, days - 1)
    else
      match NextDay(t)
      case None => None
      case Some(n) => MinusDays(n, days + 1)
  }

  // now - timedelta(hours=1)
  function MinusHour(t: DateTime): (r: Option<DateTime>)
    requires Valid(t)
    ensures r.Some? ==> Valid(r.value)
  {
    if t.hour > 0 then Some(t.(hour := t.hour - 1))
    else match PrevDay(t)
      case None => None
      case Some(p) => Some(p.(hour := 23))
  }

  lemma PrevDayMicros(t: DateTime)
    requires Valid(t)
    ensures match PrevDay(t)
      case Some(p) => Micros(t) == Micros(p) + MICROS_PER_DAY && DayMicros(p) == DayMicros(t)
      case None => Ordinal(t.year, t.month, t.day) == 1
  {
    if t.day == 1 && t.month == 1 && t.year > 1 { NextYear(t.year - 1); }
  }

  const LAST_DAY: nat := 3652059  // the ordinal of 9999-12-31

  lemma NextDayMicros(t: DateTime)
    requires Valid(t)
    ensures match NextDay(t)
      case Some(n) => Micros(n) == Micros(t) + MICROS_PER_DAY && DayMicros(n) == DayMicros(t)
      case None => Ordinal(t.year, t.month, t.day) == LAST_DAY
  {
    if t.month == 12 && t.day == 31 { NextYear(t.year); }
  }

  // It moves the time by exactly so many days, and overflows only past one of the ends
  lemma {:induction false} MinusDaysMicros(t: DateTime, days: int)
    requires Valid(t)
    ensures match MinusDays(t, days)
      case Some(p) => Micros(p) == Micros(t) - days * MICROS_PER_DAY
      case None => if days > 0 then Micros(t) < (days + 1) * MICROS_PER_DAY else Micros(t) >= (LAST_DAY + 1 + days) * MICROS_PER_DAY
    decreases if days < 0 then -days else days
  {
    hide Micros, Ordinal;
    if days > 0 {
      PrevDayMicros(t);
      match PrevDay(t)
      case None => DayOne(t);
      case Some(p) => MinusDaysMicros(p, days - 1);
    } else if days < 0 {
      NextDayMicros(t);
      match NextDay(t)
      case None => DayLast(t);
      case Some(n) => MinusDaysMicros(n, days + 1);
    }
  }

  lemma DayLast(t: DateTime)
    requires Valid(t) && Ordinal(t.year, t.month, t.day) == LAST_DAY
    ensures Micros(t) >= LAST_DAY * MICROS_PER_DAY
  {
  }

  lemma DayOne(t: DateTime)
    requires Valid(t) && Ordinal(t.year, t.month, t.day) == 1
    ensures Micros(t) < 2 * MICROS_PER_DAY
  {
  }

  lemma MinusHourMicros(t: DateTime)
    requires Valid(t) && MinusHour(t).Some?
    ensures Micros(MinusHour(t).value) == Micros(t) - MICROS_PER_HOUR
  {
    PrevDayMicros(t);
  }
}
