/** UTC datetimes, their `isoformat` text, and the theorem every lease and retry
    guard rests on: the order of the text is the order of time. */
module IsoTime {
  import opened Wrappers
  import opened Text
  import opened Arithmetic

  // ---------------------------------------------------------------- calendar

  /** A timezone-aware datetime already converted to UTC, with Python's field ranges. */
  datatype DateTime = DateTime(year: nat, month: nat, day: nat,
                               hour: nat, minute: nat, second: nat, micro: nat)

  predicate IsLeap(y: nat)
  {
    y % 4 == 0 && (y % 100 != 0 || y % 400 == 0)
  }

  function DaysInMonth(y: nat, m: nat): (n: nat)
    ensures 28 <= n <= 31
  {
    if m == 2 then (if IsLeap(y) then 29 else 28)
    else if m == 4 || m == 6 || m == 9 || m == 11 then 30
    else 31
  }

  predicate Valid(t: DateTime)
  {
    && 1 <= t.year <= 9999 && 1 <= t.month <= 12 && 1 <= t.day <= DaysInMonth(t.year, t.month)
    && t.hour < 24 && t.minute < 60 && t.second < 60 && t.micro < 1_000_000
  }

  /** Days before January 1st of year `y` in the proleptic Gregorian calendar. */
  function DaysBeforeYear(y: nat): nat
    requires y >= 1
  {
    (y - 1) * 365 + (y - 1) / 4 - (y - 1) / 100 + (y - 1) / 400
  }

  function DaysBeforeMonth(y: nat, m: nat): nat
    requires 1 <= m <= 13
  {
    if m == 1 then 0 else DaysBeforeMonth(y, m - 1) + DaysInMonth(y, m - 1)
  }

  function DayNumber(y: nat, m: nat, d: nat): nat
    requires y >= 1 && 1 <= m <= 12 && d >= 1
  {
    DaysBeforeYear(y) + DaysBeforeMonth(y, m) + d - 1
  }

  const MICROS_PER_DAY: int := 86_400_000_000
  const MICROS_PER_SECOND: int := 1_000_000
  const MAX_INSTANT: int := 3_652_059 * 86_400_000_000

  /** Microseconds since 0001-01-01T00:00:00 UTC. */
  type Instant = t: int | 0 <= t < MAX_INSTANT

  function TimeOfDay(t: DateTime): int
  {
    ((t.hour * 60 + t.minute) * 60 + t.second) * 1_000_000 + t.micro
  }

  function ToInstant(t: DateTime): int
    requires Valid(t)
  {
    DayNumber(t.year, t.month, t.day) * MICROS_PER_DAY + TimeOfDay(t)
  }

  lemma YearLength(y: nat)
    requires y >= 1
    ensures DaysBeforeYear(y + 1) == DaysBeforeYear(y) + (if IsLeap(y) then 366 else 365)
  {
    QuotientStep(y, 4);
    QuotientStep(y, 100);
    QuotientStep(y, 400);
    if y % 400 == 0 { assert y == 400 * (y / 400); }
    if y % 100 == 0 { assert y == 100 * (y / 100); }
    assert y % 400 == 0 ==> y % 100 == 0;
    assert y % 100 == 0 ==> y % 4 == 0;
  }

  lemma YearMonths(y: nat)
    ensures DaysBeforeMonth(y, 13) == if IsLeap(y) then 366 else 365
  {
    assert DaysBeforeMonth(y, 2) == 31;
    assert DaysBeforeMonth(y, 3) == 31 + DaysInMonth(y, 2);
    assert DaysBeforeMonth(y, 5) == DaysBeforeMonth(y, 3) + 61;
    assert DaysBeforeMonth(y, 7) == DaysBeforeMonth(y, 5) + 61;
    assert DaysBeforeMonth(y, 9) == DaysBeforeMonth(y, 7) + 62;
    assert DaysBeforeMonth(y, 11) == DaysBeforeMonth(y, 9) + 61;
  }

  lemma {:induction false} YearsAscend(a: nat, b: nat)
    requires 1 <= a <= b
    ensures DaysBeforeYear(a) + 365 * (b - a) <= DaysBeforeYear(b)
    decreases b - a
  {
    if a < b {
      YearLength(b - 1);
      YearsAscend(a, b - 1);
    }
  }

  lemma {:induction false} MonthsAscend(y: nat, a: nat, b: nat)
    requires 1 <= a <= b <= 13
    ensures DaysBeforeMonth(y, a) <= DaysBeforeMonth(y, b)
    ensures a < b ==> DaysBeforeMonth(y, a) + DaysInMonth(y, a) <= DaysBeforeMonth(y, b)
    decreases b - a
  {
    if a < b {
      MonthsAscend(y, a, b - 1);
    }
  }

  /** A valid date lies inside its year. */
  lemma DateInsideYear(t: DateTime)
    requires Valid(t)
    ensures DaysBeforeYear(t.year) <= DayNumber(t.year, t.month, t.day) < DaysBeforeYear(t.year + 1)
  {
    MonthsAscend(t.year, t.month, 13);
    YearMonths(t.year);
    YearLength(t.year);
  }

  lemma InstantInRange(t: DateTime)
    requires Valid(t)
    ensures 0 <= ToInstant(t) < MAX_INSTANT
  {
    DateInsideYear(t);
    YearsAscend(t.year + 1, 10_000);
    assert DaysBeforeYear(10_000) == 3_652_059;
  }

  // ---------------------------------------------------------------- field order

  /** Lexicographic order of the fields, largest unit first. */
  predicate FieldsBefore(a: DateTime, b: DateTime)
  {
    a.year < b.year || (a.year == b.year && (
    a.month < b.month || (a.month == b.month && (
    a.day < b.day || (a.day == b.day && (
    a.hour < b.hour || (a.hour == b.hour && (
    a.minute < b.minute || (a.minute == b.minute && (
    a.second < b.second || (a.second == b.second && (
    a.micro < b.micro))))))))))))
  }

  lemma DayNumberAscends(a: DateTime, b: DateTime)
    requires Valid(a) && Valid(b)
    requires a.year < b.year || (a.year == b.year && (a.month < b.month || (a.month == b.month && a.day < b.day)))
    ensures DayNumber(a.year, a.month, a.day) < DayNumber(b.year, b.month, b.day)
  {
    if a.year < b.year {
      DateInsideYear(a);
      DateInsideYear(b);
      YearsAscend(a.year + 1, b.year);
    } else {
      MonthsAscend(a.year, a.month, b.month);
    }
  }

  lemma FieldsBeforeAscends(a: DateTime, b: DateTime)
    requires Valid(a) && Valid(b) && FieldsBefore(a, b)
    ensures ToInstant(a) < ToInstant(b)
  {
    if a.year != b.year || a.month != b.month || a.day != b.day {
      DayNumberAscends(a, b);
      assert TimeOfDay(a) < MICROS_PER_DAY;
    }
  }

  lemma FieldOrderIsTimeOrder(a: DateTime, b: DateTime)
    requires Valid(a) && Valid(b)
    ensures FieldsBefore(a, b) <==> ToInstant(a) < ToInstant(b)
    ensures a == b <==> ToInstant(a) == ToInstant(b)
  {
    if FieldsBefore(a, b) { FieldsBeforeAscends(a, b); }
    if FieldsBefore(b, a) { FieldsBeforeAscends(b, a); }
  }

  // ---------------------------------------------------------------- isoformat

  /** The fraction is absent or six digits; the offset is always "+00:00". */
  function FractionText(micro: nat): string
  {
    (if micro == 0 then "" else "." + Pad(micro, 6)) + "+00:00"
  }

  /** `datetime.isoformat()` of a UTC datetime. */
  function IsoFormat(t: DateTime): string
  {
    Pad(t.year, 4) + ("-" + (Pad(t.month, 2) + ("-" + (Pad(t.day, 2) + ("T" + (
    Pad(t.hour, 2) + (":" + (Pad(t.minute, 2) + (":" + (Pad(t.second, 2) +
    FractionText(t.micro)))))))))))
  }

  lemma PowersOfTen()
    ensures Pow10(2) == 100 && Pow10(4) == 10_000 && Pow10(6) == 1_000_000
  {
    assert Pow10(3) == 10 * Pow10(2) && Pow10(5) == 10 * Pow10(4);
  }

  /** One fixed-width field followed by the rest of the text. */
  lemma FieldStep(m: nat, n: nat, width: nat, x: string, y: string)
    requires m < Pow10(width) && n < Pow10(width)
    ensures Less(Pad(m, width) + x, Pad(n, width) + y) <==> m < n || (m == n && Less(x, y))
    ensures Pad(m, width) + x == Pad(n, width) + y <==> m == n && x == y
  {
    PadOrder(m, n, width);
    var p, q := Pad(m, width), Pad(n, width);
    LessByPrefix(p, q, x, y);
    if p + x == q + y {
      assert (p + x)[..width] == p && (q + y)[..width] == q;
      assert (p + x)[width..] == x && (q + y)[width..] == y;
    }
  }

  lemma SeparatorStep(sep: string, x: string, y: string)
    requires |sep| == 1
    ensures Less(sep + x, sep + y) <==> Less(x, y)
    ensures sep + x == sep + y <==> x == y
  {
    LessByPrefix(sep, sep, x, y);
    assert (sep + x)[1..] == x && (sep + y)[1..] == y;
  }

  /** '+' sorts before '.', so a missing fraction sorts as zero. */
  lemma FractionOrder(u: nat, v: nat)
    requires u < 1_000_000 && v < 1_000_000
    ensures Less(FractionText(u), FractionText(v)) <==> u < v
    ensures FractionText(u) == FractionText(v) <==> u == v
  {
    PowersOfTen();
    if u > 0 && v > 0 {
      FieldStep(u, v, 6, "+00:00", "+00:00");
      LessTrichotomy("+00:00", "+00:00");
      SeparatorStep(".", Pad(u, 6) + "+00:00", Pad(v, 6) + "+00:00");
      assert FractionText(u) == "." + (Pad(u, 6) + "+00:00");
      assert FractionText(v) == "." + (Pad(v, 6) + "+00:00");
    } else {
      LessTrichotomy(FractionText(u), FractionText(v));
      assert u > 0 ==> FractionText(u)[0] == '.';
      assert v > 0 ==> FractionText(v)[0] == '.';
      assert u == 0 ==> FractionText(u) == "+00:00";
      assert v == 0 ==> FractionText(v) == "+00:00";
    }
  }

  lemma ClockTextOrder(a: DateTime, b: DateTime, x: string, y: string)
    requires Valid(a) && Valid(b)
    requires x == Pad(a.hour, 2) + (":" + (Pad(a.minute, 2) + (":" + (Pad(a.second, 2) + FractionText(a.micro)))))
    requires y == Pad(b.hour, 2) + (":" + (Pad(b.minute, 2) + (":" + (Pad(b.second, 2) + FractionText(b.micro)))))
    ensures Less(x, y) <==>
              a.hour < b.hour || (a.hour == b.hour && (
              a.minute < b.minute || (a.minute == b.minute && (
              a.second < b.second || (a.second == b.second && a.micro < b.micro)))))
    ensures x == y <==> a.hour == b.hour && a.minute == b.minute && a.second == b.second && a.micro == b.micro
  {
    PowersOfTen();
    FractionOrder(a.micro, b.micro);
    var s1, s2 := Pad(a.second, 2) + FractionText(a.micro), Pad(b.second, 2) + FractionText(b.micro);
    FieldStep(a.second, b.second, 2, FractionText(a.micro), FractionText(b.micro));
    SeparatorStep(":", s1, s2);
    var m1, m2 := Pad(a.minute, 2) + (":" + s1), Pad(b.minute, 2) + (":" + s2);
    FieldStep(a.minute, b.minute, 2, ":" + s1, ":" + s2);
    SeparatorStep(":", m1, m2);
    FieldStep(a.hour, b.hour, 2, ":" + m1, ":" + m2);
  }

  lemma TextOrderIsFieldOrder(a: DateTime, b: DateTime)
    requires Valid(a) && Valid(b)
    ensures Less(IsoFormat(a), IsoFormat(b)) <==> FieldsBefore(a, b)
    ensures IsoFormat(a) == IsoFormat(b) <==> a == b
  {
    PowersOfTen();
    var x := Pad(a.hour, 2) + (":" + (Pad(a.minute, 2) + (":" + (Pad(a.second, 2) + FractionText(a.micro)))));
    var y := Pad(b.hour, 2) + (":" + (Pad(b.minute, 2) + (":" + (Pad(b.second, 2) + FractionText(b.micro)))));
    ClockTextOrder(a, b, x, y);
    SeparatorStep("T", x, y);
    var d1, d2 := Pad(a.day, 2) + ("T" + x), Pad(b.day, 2) + ("T" + y);
    FieldStep(a.day, b.day, 2, "T" + x, "T" + y);
    SeparatorStep("-", d1, d2);
    var m1, m2 := Pad(a.month, 2) + ("-" + d1), Pad(b.month, 2) + ("-" + d2);
    FieldStep(a.month, b.month, 2, "-" + d1, "-" + d2);
    SeparatorStep("-", m1, m2);
    FieldStep(a.year, b.year, 4, "-" + m1, "-" + m2);
  }

  /** Text order of two UTC datetimes is chronological order, and equal text is equal time. */
  lemma TextOrderIsTimeOrder(a: DateTime, b: DateTime)
    requires Valid(a) && Valid(b)
    ensures Less(IsoFormat(a), IsoFormat(b)) <==> ToInstant(a) < ToInstant(b)
    ensures IsoFormat(a) == IsoFormat(b) <==> ToInstant(a) == ToInstant(b)
  {
    TextOrderIsFieldOrder(a, b);
    FieldOrderIsTimeOrder(a, b);
  }

  // ---------------------------------------------------------------- instants

  function YearOf(day: nat, y: nat): (r: nat)
    requires 1 <= y <= 9999 && DaysBeforeYear(y) <= day < DaysBeforeYear(10_000)
    ensures y <= r <= 9999 && DaysBeforeYear(r) <= day < DaysBeforeYear(r + 1)
    decreases 10_000 - y
  {
    if day < DaysBeforeYear(y + 1) then y else YearOf(day, y + 1)
  }

  function MonthOf(y: nat, day: nat, m: nat): (r: nat)
    requires 1 <= m <= 12 && DaysBeforeMonth(y, m) <= day < DaysBeforeMonth(y, 13)
    ensures m <= r <= 12 && DaysBeforeMonth(y, r) <= day < DaysBeforeMonth(y, r + 1)
    decreases 13 - m
  {
    if day < DaysBeforeMonth(y, m + 1) then m else MonthOf(y, day, m + 1)
  }

  /** A time of day and its clock fields determine each other. */
  lemma ClockFields(clock: nat)
    requires clock < MICROS_PER_DAY
    ensures clock / 3_600_000_000 < 24
    ensures clock == ((clock / 3_600_000_000 * 60 + clock / 60_000_000 % 60) * 60
                      + clock / 1_000_000 % 60) * 1_000_000 + clock % 1_000_000
  {
    var s := clock / 1_000_000;
    assert clock / 60_000_000 == s / 60 && clock / 3_600_000_000 == s / 60 / 60;
  }

  lemma DayInRange(t: Instant)
    ensures 0 <= t / MICROS_PER_DAY < 3_652_059
    ensures DaysBeforeYear(10_000) == 3_652_059 && DaysBeforeYear(1) == 0
  {
  }

  function DateAt(day: nat, clock: nat): (r: DateTime)
    requires day < DaysBeforeYear(10_000) && clock < MICROS_PER_DAY
    ensures Valid(r) && DayNumber(r.year, r.month, r.day) == day && TimeOfDay(r) == clock
  {
    ClockFields(clock);
    var y := YearOf(day, 1);
    var inYear := day - DaysBeforeYear(y);
    YearLength(y);
    YearMonths(y);
    var m := MonthOf(y, inYear, 1);
    DateTime(y, m, inYear - DaysBeforeMonth(y, m) + 1,
             clock / 3_600_000_000, clock / 60_000_000 % 60,
             clock / 1_000_000 % 60, clock % 1_000_000)
  }

  /** The datetime at a given instant: every instant in range has one. */
  function FromInstant(t: Instant): (r: DateTime)
    ensures Valid(r) && ToInstant(r) == t
  {
    DayInRange(t);
    DateAt(t / MICROS_PER_DAY, t % MICROS_PER_DAY)
  }

  /** `datetime + timedelta(seconds=n)`; None is Python's OverflowError past year 9999. */
  function PlusSeconds(t: Instant, seconds: nat): (r: Option<Instant>)
    ensures r.Some? ==> r.value == t + seconds * MICROS_PER_SECOND
    ensures r.None? <==> t + seconds * MICROS_PER_SECOND >= MAX_INSTANT
  {
    if t + seconds * MICROS_PER_SECOND < MAX_INSTANT then Some(t + seconds * MICROS_PER_SECOND) else None
  }

  /** The canonical text of an instant, as every timestamp column stores it. */
  function IsoText(t: Instant): string
  {
    IsoFormat(FromInstant(t))
  }

  /** `a <= b` in SQL, on two TEXT values. */
  predicate TextAtMost(a: string, b: string)
  {
    !Less(b, a)
  }

  lemma IsoTextOrder(a: Instant, b: Instant)
    ensures Less(IsoText(a), IsoText(b)) <==> a < b
    ensures TextAtMost(IsoText(a), IsoText(b)) <==> a <= b
    ensures IsoText(a) == IsoText(b) <==> a == b
  {
    TextOrderIsTimeOrder(FromInstant(a), FromInstant(b));
    TextOrderIsTimeOrder(FromInstant(b), FromInstant(a));
  }

  /** Every valid datetime is the one at its own instant, so `IsoText` covers all of them. */
  lemma IsoTextCoversAll(t: DateTime)
    requires Valid(t)
    ensures 0 <= ToInstant(t) < MAX_INSTANT && IsoText(ToInstant(t)) == IsoFormat(t)
  {
    InstantInRange(t);
    FieldOrderIsTimeOrder(t, FromInstant(ToInstant(t)));
  }

  // ---------------------------------------------------------------- reading the text

  predicate ReadsAs(text: string, from: nat, to: nat, n: nat)
  {
    from <= to <= |text| && AllDigits(text[from..to]) && ParseDecimal(text[from..to]) == n
  }

  lemma {:induction false} PadReads(n: nat, width: nat)
    requires n < Pow10(width)
    ensures AllDigits(Pad(n, width)) && ParseDecimal(Pad(n, width)) == n
    decreases width
  {
    if width > 0 {
      PadReads(n / 10, width - 1);
      var s := Pad(n, width);
      assert s[..|s| - 1] == Pad(n / 10, width - 1) && s[|s| - 1] == Digit(n % 10);
    }
  }

  /** The text from position `at` on starts with a field of fixed width. */
  lemma PeelField(text: string, at: nat, n: nat, width: nat, rest: string)
    requires n < Pow10(width) && at <= |text| && text[at..] == Pad(n, width) + rest
    ensures ReadsAs(text, at, at + width, n) && text[at + width..] == rest
  {
    PadReads(n, width);
    var tail := text[at..];
    assert |tail| == width + |rest| && tail[..width] == Pad(n, width) && tail[width..] == rest;
    assert text[at..at + width] == tail[..width] && text[at + width..] == tail[width..];
  }

  lemma PeelMark(text: string, at: nat, mark: char, rest: string)
    requires at <= |text| && text[at..] == [mark] + rest
    ensures at < |text| && text[at] == mark && text[at + 1..] == rest
  {
    var tail := text[at..];
    assert tail[0] == mark && tail[1..] == rest && text[at + 1..] == tail[1..];
  }

  /** The text of a UTC datetime by position: each field between its separators, the fraction
      only when there is one, and the offset. */
  lemma IsoFieldsRead(t: DateTime)
    requires Valid(t)
    ensures var text := IsoFormat(t);
            && |text| == (if t.micro == 0 then 25 else 32) && text[|text| - 6..] == "+00:00"
            && ReadsAs(text, 0, 4, t.year) && text[4] == '-' && ReadsAs(text, 5, 7, t.month) && text[7] == '-'
            && ReadsAs(text, 8, 10, t.day) && text[10] == 'T' && ReadsAs(text, 11, 13, t.hour) && text[13] == ':'
            && ReadsAs(text, 14, 16, t.minute) && text[16] == ':' && ReadsAs(text, 17, 19, t.second)
            && (t.micro > 0 ==> text[19] == '.' && ReadsAs(text, 20, 26, t.micro))
  {
    hide Pad, ReadsAs, FractionText;
    PowersOfTen();
    var f := FractionText(t.micro);
    var r5 := Pad(t.second, 2) + f;
    var r4 := Pad(t.minute, 2) + (":" + r5);
    var r3 := Pad(t.hour, 2) + (":" + r4);
    var r2 := Pad(t.day, 2) + ("T" + r3);
    var r1 := Pad(t.month, 2) + ("-" + r2);
    var text := IsoFormat(t);
    assert text[0..] == text == Pad(t.year, 4) + ("-" + r1);
    PeelField(text, 0, t.year, 4, "-" + r1);
    PeelMark(text, 4, '-', r1);
    PeelField(text, 5, t.month, 2, "-" + r2);
    PeelMark(text, 7, '-', r2);
    PeelField(text, 8, t.day, 2, "T" + r3);
    PeelMark(text, 10, 'T', r3);
    PeelField(text, 11, t.hour, 2, ":" + r4);
    PeelMark(text, 13, ':', r4);
    PeelField(text, 14, t.minute, 2, ":" + r5);
    PeelMark(text, 16, ':', r5);
    PeelField(text, 17, t.second, 2, f);
    FractionReads(text, t.micro);
  }

  lemma FractionReads(text: string, micro: nat)
    requires 19 <= |text| && text[19..] == FractionText(micro) && micro < 1_000_000
    ensures |text| == (if micro == 0 then 25 else 32) && text[|text| - 6..] == "+00:00"
    ensures micro > 0 ==> text[19] == '.' && ReadsAs(text, 20, 26, micro)
  {
    PowersOfTen();
    if micro == 0 {
      assert |text| == 19 + |text[19..]| == 25;
    } else {
      assert FractionText(micro) == "." + (Pad(micro, 6) + "+00:00");
      PeelMark(text, 19, '.', Pad(micro, 6) + "+00:00");
      PeelField(text, 20, micro, 6, "+00:00");
    }
  }

  /** The calendar, from its first day on: every other date is the day after the one before it,
      where a month ends after 31 or 30 days, or February after 28, 29 in leap years. */
  lemma CalendarDays(y: nat, m: nat, d: nat)
    requires 1 <= y <= 9999 && 1 <= m <= 12 && 1 <= d
    ensures DayNumber(1, 1, 1) == 0 && DayNumber(1970, 1, 1) == 719_162
    ensures DayNumber(y, m, d + 1) == DayNumber(y, m, d) + 1
    ensures m < 12 ==>
              DayNumber(y, m + 1, 1) == DayNumber(y, m, 1)
                + if m in {4, 6, 9, 11} then 30 else if m != 2 then 31
                  else if y % 400 == 0 || (y % 4 == 0 && y % 100 != 0) then 29 else 28
    ensures DayNumber(y + 1, 1, 1) == DayNumber(y, 12, 1) + 31
  {
    YearLength(y);
    YearMonths(y);
    assert DaysBeforeMonth(y, 13) == DaysBeforeMonth(y, 12) + 31;
  }
}
