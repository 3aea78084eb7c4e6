/** The stored UTC `isoformat` texts compare as their instants do, with and without the microsecond
    part (src/unraid_updater/execution_gate.py, src/unraid_updater/db.py). */
module IsoTime {

  datatype Instant = Instant(year: nat, month: nat, day: nat, hour: nat, minute: nat, second: nat, micro: nat)

  predicate Leap(y: nat) {
    y % 4 == 0 && (y % 100 != 0 || y % 400 == 0)
  }

  function DaysIn(y: nat, m: nat): nat {
    if m == 2 then (if Leap(y) then 29 else 28)
    else if m == 4 || m == 6 || m == 9 || m == 11 then 30 else 31
  }

  predicate Valid(t: Instant) {
    && 1 <= t.year <= 9999 && 1 <= t.month <= 12 && 1 <= t.day <= DaysIn(t.year, t.month)
    && t.hour < 24 && t.minute < 60 && t.second < 60 && t.micro < 1_000_000
  }

  // ---------------------------------------------------------------- time order

  function DaysBeforeYear(y: nat): nat {
    if y <= 1 then 0 else DaysBeforeYear(y - 1) + if Leap(y - 1) then 366 else 365
  }

  function DaysBeforeMonth(y: nat, m: nat): nat {
    if m <= 1 then 0 else DaysBeforeMonth(y, m - 1) + DaysIn(y, m - 1)
  }

  function DayNumber(y: nat, m: nat, d: nat): nat {
    DaysBeforeYear(y) + DaysBeforeMonth(y, m) + d
  }

  /** Microseconds since the start of year 1. */
  function Micros(t: Instant): int {
    (((DayNumber(t.year, t.month, t.day) * 24 + t.hour) * 60 + t.minute) * 60 + t.second) * 1_000_000 + t.micro
  }

  // ---------------------------------------------------------------- text order

  /** Decimal digits, padded with zeros to the given width. */
  function Pad(n: nat, width: nat): (s: string)
    ensures |s| == width
  {
    if width == 0 then [] else Pad(n / 10, width - 1) + [('0' as int + n % 10) as char]
  }

  function Fraction(micro: nat): string {
    (if micro == 0 then "" else "." + Pad(micro, 6)) + "+00:00"
  }

  /** `datetime.isoformat()` of a UTC instant. */
  function Iso(t: Instant): string {
    Pad(t.year, 4) + ("-" + (Pad(t.month, 2) + ("-" + (Pad(t.day, 2) + ("T" + (Pad(t.hour, 2)
      + (":" + (Pad(t.minute, 2) + (":" + (Pad(t.second, 2) + Fraction(t.micro)))))))))))
  }

  /** Binary text order, as SQLite compares TEXT values. */
  predicate TextBelow(a: string, b: string) {
    if b == [] then false
    else if a == [] then true
    else a[0] < b[0] || (a[0] == b[0] && TextBelow(a[1..], b[1..]))
  }

  lemma {:induction false} BelowAfterPrefix(p: string, q: string, a: string, b: string)
    requires |p| == |q|
    ensures TextBelow(p + a, q + b) <==> TextBelow(p, q) || (p == q && TextBelow(a, b))
  {
    if p == [] {
      assert p + a == a && q + b == b;
    } else {
      BelowAfterPrefix(p[1..], q[1..], a, b);
      assert (p + a)[1..] == p[1..] + a && (q + b)[1..] == q[1..] + b;
      assert p == [p[0]] + p[1..] && q == [q[0]] + q[1..];
    }
  }

  function Power10(k: nat): nat {
    if k == 0 then 1 else 10 * Power10(k - 1)
  }

  lemma {:induction false} PadOrder(m: nat, n: nat, width: nat)
    requires m < Power10(width) && n < Power10(width)
    ensures TextBelow(Pad(m, width), Pad(n, width)) <==> m < n
    ensures Pad(m, width) == Pad(n, width) <==> m == n
  {
    if width > 0 {
      var p, q := Pad(m / 10, width - 1), Pad(n / 10, width - 1);
      var c, d := ('0' as int + m % 10) as char, ('0' as int + n % 10) as char;
      PadOrder(m / 10, n / 10, width - 1);
      BelowAfterPrefix(p, q, [c], [d]);
      assert TextBelow([c], [d]) <==> m % 10 < n % 10 by { assert [c][1..] == [] && [d][1..] == []; }
      assert p + [c] == q + [d] <==> p == q && c == d by {
        assert (p + [c])[..width - 1] == p && (q + [d])[..width - 1] == q;
        assert (p + [c])[width - 1] == c && (q + [d])[width - 1] == d;
      }
    }
  }

  lemma FractionOrder(m: nat, n: nat)
    requires m < 1_000_000 && n < 1_000_000
    ensures TextBelow(Fraction(m), Fraction(n)) <==> m < n
  {
    hide Pad, Power10;
    SixDigits();
    PadOrder(m, n, 6);
    Irreflexive("+00:00");
    if m == 0 || n == 0 {
      assert Fraction(0) == "" + "+00:00" == "+00:00";
    } else {
      BelowAfterPrefix(".", ".", Pad(m, 6) + "+00:00", Pad(n, 6) + "+00:00");
      assert Fraction(m) == "." + (Pad(m, 6) + "+00:00") && Fraction(n) == "." + (Pad(n, 6) + "+00:00");
      assert !TextBelow(".", ".") by { Irreflexive("."); }
      BelowAfterPrefix(Pad(m, 6), Pad(n, 6), "+00:00", "+00:00");
    }
  }

  lemma SixDigits()
    ensures Power10(6) == 1_000_000
  {
    assert Power10(3) == 1000;
  }

  lemma {:induction false} Irreflexive(s: string)
    ensures !TextBelow(s, s)
  {
    if s != [] {
      Irreflexive(s[1..]);
    }
  }

  /** A field followed by a separator and the rest of the text. */
  lemma FieldOrder(m: nat, n: nat, width: nat, separator: string, a: string, b: string)
    requires m < Power10(width) && n < Power10(width)
    ensures TextBelow(Pad(m, width) + (separator + a), Pad(n, width) + (separator + b)) <==>
            m < n || (m == n && TextBelow(a, b))
  {
    PadOrder(m, n, width);
    BelowAfterPrefix(Pad(m, width), Pad(n, width), separator + a, separator + b);
    Irreflexive(separator);
    BelowAfterPrefix(separator, separator, a, b);
  }

  /** Lexicographic order of the calendar fields. */
  predicate FieldsBelow(a: Instant, b: Instant) {
    || a.year < b.year
    || (a.year == b.year && (a.month < b.month
    || (a.month == b.month && (a.day < b.day
    || (a.day == b.day && (a.hour < b.hour
    || (a.hour == b.hour && (a.minute < b.minute
    || (a.minute == b.minute && (a.second < b.second
    || (a.second == b.second && a.micro < b.micro)))))))))))
  }

  lemma TextFollowsFields(a: Instant, b: Instant)
    requires Valid(a) && Valid(b)
    ensures TextBelow(Iso(a), Iso(b)) <==> FieldsBelow(a, b)
  {
    hide Pad, Fraction, TextBelow;
    assert Power10(2) == 100 && Power10(4) == 10_000;
    FractionOrder(a.micro, b.micro);
    var s0, s0' := Fraction(a.micro), Fraction(b.micro);
    SecondsOrder(a, b);
    var s1, s1' := ":" + (Pad(a.second, 2) + s0), ":" + (Pad(b.second, 2) + s0');
    var s2, s2' := ":" + (Pad(a.minute, 2) + s1), ":" + (Pad(b.minute, 2) + s1');
    var s3, s3' := "T" + (Pad(a.hour, 2) + s2), "T" + (Pad(b.hour, 2) + s2');
    var s4, s4' := "-" + (Pad(a.day, 2) + s3), "-" + (Pad(b.day, 2) + s3');
    FieldOrder(a.minute, b.minute, 2, ":", Pad(a.second, 2) + s0, Pad(b.second, 2) + s0');
    FieldOrder(a.hour, b.hour, 2, ":", Pad(a.minute, 2) + s1, Pad(b.minute, 2) + s1');
    FieldOrder(a.day, b.day, 2, "T", Pad(a.hour, 2) + s2, Pad(b.hour, 2) + s2');
    FieldOrder(a.month, b.month, 2, "-", Pad(a.day, 2) + s3, Pad(b.day, 2) + s3');
    FieldOrder(a.year, b.year, 4, "-", Pad(a.month, 2) + s4, Pad(b.month, 2) + s4');
  }

  lemma SecondsOrder(a: Instant, b: Instant)
    requires Valid(a) && Valid(b)
    ensures TextBelow(Pad(a.second, 2) + Fraction(a.micro), Pad(b.second, 2) + Fraction(b.micro)) <==>
            a.second < b.second || (a.second == b.second && a.micro < b.micro)
  {
    hide Pad, Fraction;
    assert Power10(2) == 100;
    PadOrder(a.second, b.second, 2);
    BelowAfterPrefix(Pad(a.second, 2), Pad(b.second, 2), Fraction(a.micro), Fraction(b.micro));
    FractionOrder(a.micro, b.micro);
  }

  lemma {:induction false} YearsAscend(y: nat, z: nat)
    requires 1 <= y < z
    ensures DaysBeforeYear(z) >= DaysBeforeYear(y) + if Leap(y) then 366 else 365
    decreases z
  {
    if z > y + 1 {
      YearsAscend(y, z - 1);
    }
  }

  lemma {:induction false} MonthsAscend(y: nat, m: nat, n: nat)
    requires 1 <= m < n
    ensures DaysBeforeMonth(y, n) >= DaysBeforeMonth(y, m) + DaysIn(y, m)
    decreases n
  {
    if n > m + 1 {
      MonthsAscend(y, m, n - 1);
    }
  }

  lemma DayFitsItsYear(y: nat, m: nat, d: nat)
    requires 1 <= m <= 12 && 1 <= d <= DaysIn(y, m)
    ensures 1 <= DaysBeforeMonth(y, m) + d <= if Leap(y) then 366 else 365
  {
    if m < 12 {
      MonthsAscend(y, m, 12);
    }
    YearLength(y);
  }

  lemma YearLength(y: nat)
    ensures DaysBeforeMonth(y, 12) + 31 == if Leap(y) then 366 else 365
  {
    hide Leap;
    assert DaysBeforeMonth(y, 2) == 31;
    assert DaysBeforeMonth(y, 3) == 31 + DaysIn(y, 2);
    assert DaysBeforeMonth(y, 5) == DaysBeforeMonth(y, 4) + 30;
    assert DaysBeforeMonth(y, 6) == DaysBeforeMonth(y, 5) + 31;
    assert DaysBeforeMonth(y, 7) == DaysBeforeMonth(y, 6) + 30;
    assert DaysBeforeMonth(y, 8) == DaysBeforeMonth(y, 7) + 31;
    assert DaysBeforeMonth(y, 9) == DaysBeforeMonth(y, 8) + 31;
    assert DaysBeforeMonth(y, 10) == DaysBeforeMonth(y, 9) + 30;
    assert DaysBeforeMonth(y, 11) == DaysBeforeMonth(y, 10) + 31;
    assert DaysBeforeMonth(y, 12) == DaysBeforeMonth(y, 11) + 30;
  }

  lemma DaysAscend(a: Instant, b: Instant)
    requires Valid(a) && Valid(b)
    requires a.year < b.year || (a.year == b.year && (a.month < b.month || (a.month == b.month && a.day < b.day)))
    ensures DayNumber(a.year, a.month, a.day) < DayNumber(b.year, b.month, b.day)
  {
    hide Leap;
    DayFitsItsYear(a.year, a.month, a.day);
    DayFitsItsYear(b.year, b.month, b.day);
    if a.year < b.year {
      YearsAscend(a.year, b.year);
    } else if a.month < b.month {
      MonthsAscend(a.year, a.month, b.month);
    }
  }

  lemma FieldsFollowTime(a: Instant, b: Instant)
    requires Valid(a) && Valid(b) && FieldsBelow(a, b)
    ensures Micros(a) < Micros(b)
  {
    hide DayNumber, Leap;
    if a.year < b.year || (a.year == b.year && (a.month < b.month || (a.month == b.month && a.day < b.day))) {
      DaysAscend(a, b);
    }
  }

  /** Comparing two stored texts decides which instant is earlier, for all instants. */
  lemma TextFollowsTime(a: Instant, b: Instant)
    requires Valid(a) && Valid(b)
    ensures TextBelow(Iso(a), Iso(b)) <==> Micros(a) < Micros(b)
    ensures Iso(a) == Iso(b) <==> Micros(a) == Micros(b)
  {
    hide Micros, Iso;
    TextFollowsFields(a, b);
    TextFollowsFields(b, a);
    if FieldsBelow(a, b) {
      FieldsFollowTime(a, b);
      Irreflexive(Iso(a));
    } else if FieldsBelow(b, a) {
      FieldsFollowTime(b, a);
      Irreflexive(Iso(a));
    } else {
      assert a == b;
    }
  }

  // ---------------------------------------------------------------- the calendar

  /** The days before a year: 365 each, and one more for every year divisible by 4, but not by 100 unless
      by 400. */
  lemma {:induction false} DaysBeforeYearExactly(y: nat)
    requires y >= 1
    ensures DaysBeforeYear(y) == 365 * (y - 1) + (y - 1) / 4 - (y - 1) / 100 + (y - 1) / 400
  {
    hide Leap;
    if y > 1 {
      DaysBeforeYearExactly(y - 1);
      LeapYearsCounted(y - 1);
    }
  }

  lemma LeapYearsCounted(y: nat)
    requires y >= 1
    ensures (if Leap(y) then 1 else 0) == (y / 4 - y / 100 + y / 400) - ((y - 1) / 4 - (y - 1) / 100 + (y - 1) / 400)
  {
    By4(y);
    By100(y);
    By400(y);
    Centuries(y);
  }

  lemma By4(y: nat)
    requires y >= 1
    ensures y / 4 - (y - 1) / 4 == if y % 4 == 0 then 1 else 0
  {
  }

  lemma By100(y: nat)
    requires y >= 1
    ensures y / 100 - (y - 1) / 100 == if y % 100 == 0 then 1 else 0
  {
  }

  lemma By400(y: nat)
    requires y >= 1
    ensures y / 400 - (y - 1) / 400 == if y % 400 == 0 then 1 else 0
  {
  }

  lemma Centuries(y: nat)
    ensures y % 100 == 0 ==> y % 4 == 0
    ensures y % 400 == 0 ==> y % 100 == 0
  {
    if y % 100 == 0 {
      assert y == 4 * (25 * (y / 100));
    }
    if y % 400 == 0 {
      assert y == 100 * (4 * (y / 400));
    }
  }

  /** The days before the first of each month. */
  lemma DaysBeforeMonthExactly(y: nat, m: nat)
    requires 1 <= m <= 12
    ensures DaysBeforeMonth(y, m) ==
            [0, 31, 59, 90, 120, 151, 181, 212, 243, 273, 304, 334][m - 1] + if m > 2 && Leap(y) then 1 else 0
  {
    MonthByMonth(y);
  }

  lemma MonthByMonth(y: nat)
    ensures DaysBeforeMonth(y, 4) == 90 + if Leap(y) then 1 else 0
    ensures DaysBeforeMonth(y, 8) == 212 + if Leap(y) then 1 else 0
  {
    assert DaysBeforeMonth(y, 4) == DaysBeforeMonth(y, 3) + 31 && DaysBeforeMonth(y, 3) == DaysBeforeMonth(y, 2)
           + DaysIn(y, 2);
    assert DaysBeforeMonth(y, 6) == DaysBeforeMonth(y, 5) + 31 && DaysBeforeMonth(y, 5) == DaysBeforeMonth(y, 4) + 30;
  }
}
