/** The timestamps stored in SQLite: UTC, fixed width, millisecond precision.
    An instant is a number of nanoseconds since 0000-01-01T00:00:00Z. */
module TimeFormat {
  import opened Text

  const SECOND: nat := 1_000_000_000
  const HOUR: nat := 3600 * SECOND
  const DAY: nat := 24 * HOUR
  const MILLI: nat := 1_000_000

  type Instant = int

  // ---- the Gregorian calendar ----

  predicate Leap(y: nat) {
    y % 4 == 0 && (y % 100 != 0 || y % 400 == 0)
  }

  function DaysInYear(y: nat): (d: nat) {
    if Leap(y) then 366 else 365
  }

  function DaysInMonth(y: nat, m: nat): (d: nat)
    requires 1 <= m <= 12
    ensures 28 <= d <= 31
  {
    if m == 2 then (if Leap(y) then 29 else 28)
    else if m == 4 || m == 6 || m == 9 || m == 11 then 30
    else 31
  }

  function DaysBeforeYear(y: nat): nat {
    if y == 0 then 0 else DaysBeforeYear(y - 1) + DaysInYear(y - 1)
  }

  function DaysBeforeMonth(y: nat, m: nat): nat
    requires 1 <= m <= 13
  {
    if m == 1 then 0 else DaysBeforeMonth(y, m - 1) + DaysInMonth(y, m - 1)
  }

  /** The year that holds the day `d` days after the start of year `y`, and the day's offset in it. */
  function YearFrom(d: nat, y: nat): (r: (nat, nat))
    ensures r.0 >= y && r.1 < DaysInYear(r.0)
    ensures DaysBeforeYear(r.0) + r.1 == DaysBeforeYear(y) + d
    decreases d
  {
    if d < DaysInYear(y) then (y, d) else YearFrom(d - DaysInYear(y), y + 1)
  }

  lemma MonthsFillYear(y: nat)
    ensures DaysBeforeMonth(y, 13) == DaysInYear(y)
  {
    assert DaysBeforeMonth(y, 7) == DaysBeforeMonth(y, 4) + 91 by {
      assert DaysBeforeMonth(y, 6) == DaysBeforeMonth(y, 4) + 61;
    }
    assert DaysBeforeMonth(y, 4) == 59 + DaysInMonth(y, 2) - 28 + 31 by {
      assert DaysBeforeMonth(y, 2) == 31;
      assert DaysBeforeMonth(y, 3) == 31 + DaysInMonth(y, 2);
    }
    assert DaysBeforeMonth(y, 10) == DaysBeforeMonth(y, 7) + 92 by {
      assert DaysBeforeMonth(y, 9) == DaysBeforeMonth(y, 7) + 62;
    }
    assert DaysBeforeMonth(y, 12) == DaysBeforeMonth(y, 10) + 61;
  }

  function MonthFrom(y: nat, d: nat, m: nat): (r: (nat, nat))
    requires 1 <= m <= 12 && DaysBeforeMonth(y, m) + d < DaysBeforeMonth(y, 13)
    ensures m <= r.0 <= 12 && r.1 < DaysInMonth(y, r.0)
    ensures DaysBeforeMonth(y, r.0) + r.1 == DaysBeforeMonth(y, m) + d
    decreases 13 - m
  {
    if d < DaysInMonth(y, m) then (m, d) else
      MonthFrom(y, d - DaysInMonth(y, m), m + 1)
  }

  // ---- broken-down times ----

  datatype Stamp = Stamp(year: nat, month: nat, day: nat, hour: nat, minute: nat, second: nat, milli: nat) {
    predicate Valid() {
      && year < 10000 && 1 <= month <= 12 && 1 <= day <= DaysInMonth(year, month)
      && hour < 24 && minute < 60 && second < 60 && milli < 1000
    }

    /** Days since the start of year 0. */
    function DayNumber(): nat
      requires Valid()
    {
      DaysBeforeYear(year) + DaysBeforeMonth(year, month) + day - 1
    }

    function Millis(): nat
      requires Valid()
    {
      (((DayNumber() * 24 + hour) * 60 + minute) * 60 + second) * 1000 + milli
    }

    function Fields(): (f: seq<nat>)
      ensures |f| == 7
    {
      [year, month, day, hour, minute, second, milli]
    }
  }

  /** Days in the years 0 to 9999. */
  const DAYS: nat := 3_652_425

  /** Multiples of `k` among 0, ..., y - 1. */
  function Multiples(y: nat, k: nat): nat
    requires k > 0
  {
    (y + k - 1) / k
  }

  lemma FourthYears(y: nat)
    ensures Multiples(y + 1, 4) == Multiples(y, 4) + (if y % 4 == 0 then 1 else 0)
  {
  }

  lemma HundredthYears(y: nat)
    ensures Multiples(y + 1, 100) == Multiples(y, 100) + (if y % 100 == 0 then 1 else 0)
    ensures y % 100 == 0 ==> y % 4 == 0
  {
    var q, r := y / 100, y % 100;
    assert y == 100 * q + r;
    assert (y + 100) / 100 == q + 1;
    assert (y + 99) / 100 == if r == 0 then q else q + 1;
    if r == 0 {
      assert y == 4 * (25 * q);
    }
  }

  lemma FourHundredthYears(y: nat)
    ensures Multiples(y + 1, 400) == Multiples(y, 400) + (if y % 400 == 0 then 1 else 0)
    ensures y % 400 == 0 ==> y % 100 == 0
  {
    var q, r := y / 400, y % 400;
    assert y == 400 * q + r;
    assert (y + 400) / 400 == q + 1;
    assert (y + 399) / 400 == if r == 0 then q else q + 1;
    if r == 0 {
      assert y == 100 * (4 * q);
    }
  }

  lemma {:induction false} LeapYears(y: nat)
    ensures DaysBeforeYear(y) == 365 * y + Multiples(y, 4) - Multiples(y, 100) + Multiples(y, 400)
  {
    if y > 0 {
      LeapYears(y - 1);
      FourthYears(y - 1);
      HundredthYears(y - 1);
      FourHundredthYears(y - 1);
    }
  }

  lemma YearsInDays(y: nat)
    ensures DaysBeforeYear(y) < DAYS <==> y < 10000
  {
    LeapYears(y);
  }

  /** The instants of the years 0 to 9999. */
  predicate InRange(t: Instant) {
    0 <= t < DAYS * DAY
  }

  /** The instant at millisecond precision. */
  function Millis(t: Instant): int {
    t / MILLI
  }

  lemma {:induction false} DaysBeforeYearMonotone(y: nat, z: nat)
    requires y <= z
    ensures DaysBeforeYear(y) <= DaysBeforeYear(z)
    ensures y < z ==> DaysBeforeYear(y) + DaysInYear(y) <= DaysBeforeYear(z)
  {
    if y < z {
      DaysBeforeYearMonotone(y, z - 1);
    }
  }

  lemma {:induction false} DaysBeforeMonthMonotone(y: nat, m: nat, n: nat)
    requires 1 <= m < n <= 13
    ensures DaysBeforeMonth(y, m) + DaysInMonth(y, m) <= DaysBeforeMonth(y, n)
  {
    if m < n - 1 {
      DaysBeforeMonthMonotone(y, m, n - 1);
    }
  }

  /** The calendar fields of a day number. */
  function DateOf(d: nat): (r: (nat, nat, nat))
    requires d < DAYS
    ensures Stamp(r.0, r.1, r.2, 0, 0, 0, 0).Valid()
    ensures Stamp(r.0, r.1, r.2, 0, 0, 0, 0).DayNumber() == d
  {
    var (year, inYear) := YearFrom(d, 0);
    YearsInDays(year);
    MonthsFillYear(year);
    var (month, inMonth) := MonthFrom(year, inYear, 1);
    (year, month, inMonth + 1)
  }

  /** What `t.UTC()` shows, truncated to milliseconds as the layout's ".000" does. */
  function StampOf(t: Instant): (s: Stamp)
    requires InRange(t)
    ensures s.Valid()
    ensures s.Millis() == Millis(t)
  {
    var ms := t / MILLI;
    var days := ms / 86_400_000;
    var inDay := ms % 86_400_000;
    var (year, month, day) := DateOf(days);
    ClockParts(inDay);
    var s := Stamp(year, month, day,
                   inDay / 3_600_000, inDay / 60_000 % 60, inDay / 1000 % 60, inDay % 1000);
    assert s.DayNumber() == Stamp(year, month, day, 0, 0, 0, 0).DayNumber() == days;
    s
  }

  lemma ClockParts(n: nat)
    requires n < 86_400_000
    ensures n / 3_600_000 < 24
    ensures (((n / 3_600_000) * 60 + n / 60_000 % 60) * 60 + n / 1000 % 60) * 1000 + n % 1000 == n
  {
    var s := n / 1000;
    var m := s / 60;
    assert n / 60_000 == m;
    assert n / 3_600_000 == m / 60;
  }

  /** Field by field, most significant first. */
  predicate LexLess(a: seq<nat>, b: seq<nat>)
    requires |a| == |b|
  {
    a != [] && (a[0] < b[0] || (a[0] == b[0] && LexLess(a[1..], b[1..])))
  }

  lemma LexLessAt(f: seq<nat>, g: seq<nat>, k: nat)
    requires |f| == |g| && k < |f|
    ensures LexLess(f[k..], g[k..]) <==> f[k] < g[k] || (f[k] == g[k] && LexLess(f[k + 1..], g[k + 1..]))
  {
    assert f[k..][1..] == f[k + 1..] && g[k..][1..] == g[k + 1..];
  }

  predicate DateBefore(a: Stamp, b: Stamp) {
    a.year < b.year || (a.year == b.year && (a.month < b.month || (a.month == b.month && a.day < b.day)))
  }

  predicate ClockBefore(a: Stamp, b: Stamp) {
    a.hour < b.hour || (a.hour == b.hour && (a.minute < b.minute || (a.minute == b.minute
    && (a.second < b.second || (a.second == b.second && a.milli < b.milli)))))
  }

  lemma FieldOrder(a: Stamp, b: Stamp)
    requires LexLess(a.Fields(), b.Fields())
    ensures DateBefore(a, b) || (a.year == b.year && a.month == b.month && a.day == b.day && ClockBefore(a, b))
  {
    var f, g := a.Fields(), b.Fields();
    assert f[0..] == f && g[0..] == g;
    LexLessAt(f, g, 0);
    LexLessAt(f, g, 1);
    LexLessAt(f, g, 2);
    LexLessAt(f, g, 3);
    LexLessAt(f, g, 4);
    LexLessAt(f, g, 5);
    LexLessAt(f, g, 6);
  }

  lemma EarlierDate(a: Stamp, b: Stamp)
    requires a.Valid() && b.Valid() && DateBefore(a, b)
    ensures a.DayNumber() < b.DayNumber()
  {
    MonthsFillYear(a.year);
    DaysBeforeMonthMonotone(a.year, a.month, 13);
    if a.year < b.year {
      DaysBeforeYearMonotone(a.year, b.year);
    } else if a.month < b.month {
      DaysBeforeMonthMonotone(a.year, a.month, b.month);
    }
  }

  lemma EarlierStamp(a: Stamp, b: Stamp)
    requires a.Valid() && b.Valid() && LexLess(a.Fields(), b.Fields())
    ensures a.Millis() < b.Millis()
  {
    FieldOrder(a, b);
    if DateBefore(a, b) {
      EarlierDate(a, b);
    }
  }

  // ---- the text ----

  /** `n` in exactly `w` digits. */
  function Pad(n: nat, w: nat): (s: string)
    ensures |s| == w && AllDigits(s)
  {
    if w == 0 then "" else Pad(n / 10, w - 1) + [DigitChar(n % 10)]
  }

  function Pow10(w: nat): (p: nat)
    ensures p >= 1
  {
    if w == 0 then 1 else 10 * Pow10(w - 1)
  }

  lemma PadStep(n: nat, w: nat)
    requires w > 0
    ensures DigitsValue(Pad(n, w)) == 10 * DigitsValue(Pad(n / 10, w - 1)) + n % 10
  {
    var s := Pad(n, w);
    assert s[..|s| - 1] == Pad(n / 10, w - 1);
  }

  lemma Tenth(n: nat, p: nat)
    requires n < 10 * p
    ensures n / 10 < p
  {
  }

  lemma Recombined(n: nat, tens: nat, value: nat)
    requires tens == n / 10 && value == 10 * tens + n % 10
    ensures value == n
  {
  }

  lemma {:induction false} PadValue(n: nat, w: nat)
    requires n < Pow10(w)
    ensures DigitsValue(Pad(n, w)) == n
  {
    if w > 0 {
      Tenth(n, Pow10(w - 1));
      PadStep(n, w);
      PadValue(n / 10, w - 1);
      Recombined(n, DigitsValue(Pad(n / 10, w - 1)), DigitsValue(Pad(n, w)));
    }
  }

  /** Zero-padded numbers of one width compare as numbers. */
  lemma {:induction false} PadOrder(n: nat, m: nat, w: nat)
    requires n < Pow10(w) && m < Pow10(w)
    ensures Less(Pad(n, w), Pad(m, w)) <==> n < m
    ensures Pad(n, w) == Pad(m, w) <==> n == m
  {
    PadValue(n, w);
    PadValue(m, w);
    if w > 0 {
      PadOrder(n / 10, m / 10, w - 1);
      var x, y := [DigitChar(n % 10)], [DigitChar(m % 10)];
      LessConcat(Pad(n / 10, w - 1), x, Pad(m / 10, w - 1), y);
      assert Less(x, y) <==> n % 10 < m % 10;
    }
  }

  /** Widths of the fields of "2006-01-02T15:04:05.000Z" and the character after each. */
  const LAYOUT: seq<(nat, char)> :=
    [(4, '-'), (2, '-'), (2, 'T'), (2, ':'), (2, ':'), (2, '.'), (3, 'Z')]

  function FormatFields(f: seq<nat>, layout: seq<(nat, char)>): string
    requires |f| == |layout|
  {
    if f == [] then "" else Pad(f[0], layout[0].0) + [layout[0].1] + FormatFields(f[1..], layout[1..])
  }

  predicate Fits(f: seq<nat>, layout: seq<(nat, char)>)
    requires |f| == |layout|
  {
    forall i :: 0 <= i < |f| ==> f[i] < Pow10(layout[i].0)
  }

  lemma {:induction false} FormatFieldsOrder(f: seq<nat>, g: seq<nat>, layout: seq<(nat, char)>)
    requires |f| == |g| == |layout|
    requires Fits(f, layout) && Fits(g, layout)
    ensures Less(FormatFields(f, layout), FormatFields(g, layout)) <==> LexLess(f, g)
  {
    if f != [] {
      var (w, c) := layout[0];
      var x, y := FormatFields(f[1..], layout[1..]), FormatFields(g[1..], layout[1..]);
      assert layout[1..][..] == layout[1..];
      assert Fits(f[1..], layout[1..]) by {
        forall i | 0 <= i < |f| - 1 ensures f[1..][i] < Pow10(layout[1..][i].0) {
          assert f[1 + i] < Pow10(layout[1 + i].0);
        }
      }
      assert Fits(g[1..], layout[1..]) by {
        forall i | 0 <= i < |g| - 1 ensures g[1..][i] < Pow10(layout[1..][i].0) {
          assert g[1 + i] < Pow10(layout[1 + i].0);
        }
      }
      FormatFieldsOrder(f[1..], g[1..], layout[1..]);
      assert f[0] < Pow10(layout[0].0) && g[0] < Pow10(layout[0].0);
      PadOrder(f[0], g[0], w);
      LessConcat([c], x, [c], y);
      LessConcat(Pad(f[0], w), [c] + x, Pad(g[0], w), [c] + y);
      assert Pad(f[0], w) + [c] + x == Pad(f[0], w) + ([c] + x);
      assert Pad(g[0], w) + [c] + y == Pad(g[0], w) + ([c] + y);
    }
  }

  /** `FormatTime`. */
  function FormatTime(t: Instant): string
    requires InRange(t)
  {
    FormatFields(StampOf(t).Fields(), LAYOUT)
  }

  lemma FieldText(f: seq<nat>, k: nat, w: nat, c: char, s: string, at: nat)
    requires |f| == 7 && k < 7 && LAYOUT[k] == (w, c)
    requires at <= |s| && s[at..] == FormatFields(f[k..], LAYOUT[k..])
    ensures at + w < |s| && s[at..at + w] == Pad(f[k], w) && s[at + w] == c
    ensures s[at + w + 1..] == FormatFields(f[k + 1..], LAYOUT[k + 1..])
  {
    var rest := FormatFields(f[k + 1..], LAYOUT[k + 1..]);
    assert f[k..][1..] == f[k + 1..] && LAYOUT[k..][1..] == LAYOUT[k + 1..];
    assert s[at..] == Pad(f[k], w) + [c] + rest;
    assert s[at..][..w] == Pad(f[k], w) && s[at..][w] == c && s[at..][w + 1..] == rest;
  }

  lemma DateText(f: seq<nat>, s: string)
    requires |f| == 7 && s == FormatFields(f, LAYOUT)
    ensures |s| >= 11 && s[11..] == FormatFields(f[3..], LAYOUT[3..])
    ensures s[..4] == Pad(f[0], 4) && s[4] == '-' && s[5..7] == Pad(f[1], 2) && s[7] == '-'
    ensures s[8..10] == Pad(f[2], 2) && s[10] == 'T'
  {
    assert f[0..] == f && LAYOUT[0..] == LAYOUT && s[0..] == s;
    FieldText(f, 0, 4, '-', s, 0);
    FieldText(f, 1, 2, '-', s, 5);
    FieldText(f, 2, 2, 'T', s, 8);
    assert s[0..4] == s[..4];
  }

  lemma HourText(f: seq<nat>, s: string)
    requires |f| == 7 && |s| >= 11 && s[11..] == FormatFields(f[3..], LAYOUT[3..])
    ensures |s| >= 17 && s[17..] == FormatFields(f[5..], LAYOUT[5..])
    ensures s[11..13] == Pad(f[3], 2) && s[13] == ':' && s[14..16] == Pad(f[4], 2) && s[16] == ':'
  {
    FieldText(f, 3, 2, ':', s, 11);
    FieldText(f, 4, 2, ':', s, 14);
  }

  lemma SecondText(f: seq<nat>, s: string)
    requires |f| == 7 && |s| >= 17 && s[17..] == FormatFields(f[5..], LAYOUT[5..])
    ensures |s| == 24
    ensures s[17..19] == Pad(f[5], 2) && s[19] == '.' && s[20..23] == Pad(f[6], 3) && s[23] == 'Z'
  {
    FieldText(f, 5, 2, '.', s, 17);
    FieldText(f, 6, 3, 'Z', s, 20);
    assert f[7..] == [];
  }

  /** The text is that of the layout "2006-01-02T15:04:05.000Z". */
  lemma TextShape(t: Instant)
    requires InRange(t)
    ensures var s := FormatTime(t);
            && |s| == 24
            && s[..4] == Pad(StampOf(t).year, 4) && s[4] == '-'
            && s[5..7] == Pad(StampOf(t).month, 2) && s[7] == '-'
            && s[8..10] == Pad(StampOf(t).day, 2) && s[10] == 'T'
            && s[11..13] == Pad(StampOf(t).hour, 2) && s[13] == ':'
            && s[14..16] == Pad(StampOf(t).minute, 2) && s[16] == ':'
            && s[17..19] == Pad(StampOf(t).second, 2) && s[19] == '.'
            && s[20..23] == Pad(StampOf(t).milli, 3) && s[23] == 'Z'
  {
    var f := StampOf(t).Fields();
    DateText(f, FormatTime(t));
    HourText(f, FormatTime(t));
    SecondText(f, FormatTime(t));
  }

  lemma ValidFits(s: Stamp)
    requires s.Valid()
    ensures Fits(s.Fields(), LAYOUT)
  {
    assert Pow10(2) == 100 && Pow10(3) == 1000 && Pow10(4) == 10000;
  }

  lemma LexTotal(a: seq<nat>, b: seq<nat>)
    requires |a| == |b|
    ensures LexLess(a, b) || LexLess(b, a) || a == b
  {
    if a != [] && a[0] == b[0] {
      LexTotal(a[1..], b[1..]);
      assert a == [a[0]] + a[1..] && b == [b[0]] + b[1..];
    }
  }

  /** Stored timestamps sort as text exactly as their instants sort in time,
      at millisecond precision, for the years 0 to 9999. */
  lemma FormatTimeOrder(t: Instant, u: Instant)
    requires InRange(t) && InRange(u)
    ensures Less(FormatTime(t), FormatTime(u)) <==> Millis(t) < Millis(u)
    ensures FormatTime(t) == FormatTime(u) <==> Millis(t) == Millis(u)
  {
    var a, b := StampOf(t), StampOf(u);
    ValidFits(a);
    ValidFits(b);
    FormatFieldsOrder(a.Fields(), b.Fields(), LAYOUT);
    FormatFieldsOrder(b.Fields(), a.Fields(), LAYOUT);
    LexTotal(a.Fields(), b.Fields());
    if LexLess(a.Fields(), b.Fields()) { EarlierStamp(a, b); LessIrreflexive(FormatTime(t)); }
    if LexLess(b.Fields(), a.Fields()) { EarlierStamp(b, a); LessIrreflexive(FormatTime(t)); }
    if a.Fields() == b.Fields() {
      assert a == Stamp(a.Fields()[0], a.Fields()[1], a.Fields()[2], a.Fields()[3], a.Fields()[4], a.Fields()[5], a.Fields()[6]);
      assert b == Stamp(b.Fields()[0], b.Fields()[1], b.Fields()[2], b.Fields()[3], b.Fields()[4], b.Fields()[5], b.Fields()[6]);
      LessIrreflexive(FormatTime(t));
    }
  }

  // ---- reading it back ----

  function ParseFields(s: string, layout: seq<(nat, char)>): (r: Option<seq<nat>>)
    ensures r.Some? ==> |r.value| == |layout|
    decreases |s|
  {
    if layout == [] then (if s == "" then Some([]) else None)
    else
      var (w, c) := layout[0];
      if |s| <= w || !AllDigits(s[..w]) || s[w] != c then None
      else match ParseFields(s[w + 1..], layout[1..])
        case Some(rest) => Some([DigitsValue(s[..w])] + rest)
        case None => None
  }

  /** `ParseTime` on the canonical layout, in milliseconds. */
  function ParseTime(s: string): (r: Option<int>) {
    match ParseFields(s, LAYOUT)
    case None => None
    case Some(f) =>
      var stamp := Stamp(f[0], f[1], f[2], f[3], f[4], f[5], f[6]);
      if stamp.Valid() then Some(stamp.Millis()) else None
  }

  lemma {:induction false} ParseFormatFields(f: seq<nat>, layout: seq<(nat, char)>)
    requires |f| == |layout| && Fits(f, layout)
    ensures ParseFields(FormatFields(f, layout), layout) == Some(f)
  {
    if f != [] {
      var (w, c) := layout[0];
      assert Fits(f[1..], layout[1..]) by {
        forall i | 0 <= i < |f| - 1 ensures f[1..][i] < Pow10(layout[1..][i].0) {
          assert f[1 + i] < Pow10(layout[1 + i].0);
        }
      }
      ParseFormatFields(f[1..], layout[1..]);
      assert f[0] < Pow10(layout[0].0);
      PadValue(f[0], w);
      var s := FormatFields(f, layout);
      assert s[..w] == Pad(f[0], w) && s[w] == c && s[w + 1..] == FormatFields(f[1..], layout[1..]);
      assert [f[0]] + f[1..] == f;
    }
  }

  /** A stored time reads back as the instant it was written from, truncated to milliseconds. */
  lemma ParseFormatTime(t: Instant)
    requires InRange(t)
    ensures ParseTime(FormatTime(t)) == Some(Millis(t))
  {
    var s := StampOf(t);
    ValidFits(s);
    ParseFormatFields(s.Fields(), LAYOUT);
  }
}
