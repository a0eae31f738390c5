/** The text `datetime.isoformat` gives for a UTC instant, and the order of such texts. */
module Timestamps {
  import opened Text

  datatype Instant = Instant(year: nat, month: nat, day: nat, hour: nat, minute: nat, second: nat, micro: nat)

  predicate IsInstant(t: Instant) {
    && 1 <= t.year <= 9999 && 1 <= t.month <= 12 && 1 <= t.day <= 31
    && t.hour < 24 && t.minute < 60 && t.second < 60 && t.micro < 1_000_000
  }

  /** The first of the fields in which two instants differ says which one is earlier. */
  predicate EarlierOrSame(a: Instant, b: Instant) {
    if a.year != b.year then a.year < b.year
    else if a.month != b.month then a.month < b.month
    else if a.day != b.day then a.day < b.day
    else if a.hour != b.hour then a.hour < b.hour
    else if a.minute != b.minute then a.minute < b.minute
    else if a.second != b.second then a.second < b.second
    else a.micro <= b.micro
  }

  // ---------- Numbers of a fixed width ----------

  function Digit(d: nat): char
    requires d < 10
  {
    '0' + d as char
  }

  function Digits(n: nat, width: nat): (s: string)
    ensures |s| == width
  {
    if width == 0 then "" else Digits(n / 10, width - 1) + [Digit(n % 10)]
  }

  predicate Fits(n: nat, width: nat) {
    if width == 0 then n == 0 else Fits(n / 10, width - 1)
  }

  lemma {:induction false} DigitsSort(m: nat, n: nat, width: nat)
    requires Fits(m, width) && Fits(n, width)
    ensures LexLeq(Digits(m, width), Digits(n, width)) <==> m <= n
    ensures Digits(m, width) == Digits(n, width) <==> m == n
  {
    if width > 0 {
      var a, b := Digits(m / 10, width - 1), Digits(n / 10, width - 1);
      var c, d := Digit(m % 10), Digit(n % 10);
      DigitsSort(m / 10, n / 10, width - 1);
      LexLeqConcat(a, b, [c], [d]);
      assert (a + [c])[..width - 1] == a && (b + [d])[..width - 1] == b;
      assert (a + [c])[width - 1] == c && (b + [d])[width - 1] == d;
    }
  }

  /** A number in front decides, unless it is the same. */
  lemma NumberSorts(m: nat, n: nat, width: nat, x: string, y: string)
    requires Fits(m, width) && Fits(n, width)
    ensures LexLeq(Digits(m, width) + x, Digits(n, width) + y) <==> if m == n then LexLeq(x, y) else m < n
  {
    DigitsSort(m, n, width);
    LexLeqConcat(Digits(m, width), Digits(n, width), x, y);
  }

  lemma SmallNumbersFit(n: nat)
    ensures n < 100 ==> Fits(n, 2)
    ensures n < 10_000 ==> Fits(n, 4)
    ensures n < 1_000_000 ==> Fits(n, 6)
  {
    var n2 := n / 10 / 10;
    var n4 := n2 / 10 / 10;
    assert Fits(n, 2) <==> Fits(n2, 0);
    assert Fits(n, 4) <==> Fits(n2, 2);
    assert Fits(n2, 2) <==> Fits(n4, 0);
    assert Fits(n, 6) <==> Fits(n2, 4);
    assert Fits(n2, 4) <==> Fits(n4, 2);
    assert Fits(n4, 2) <==> Fits(n4 / 10 / 10, 0);
  }

  // ---------- ISO 8601 ----------

  const OFFSET := "+00:00"

  /** Microseconds are left out when there are none. */
  function Fraction(micro: nat): string {
    if micro == 0 then OFFSET else "." + (Digits(micro, 6) + OFFSET)
  }

  function TimeText(t: Instant): string {
    Digits(t.hour, 2) + (":" + (Digits(t.minute, 2) + (":" + (Digits(t.second, 2) + Fraction(t.micro)))))
  }

  function IsoFormat(t: Instant): string {
    Digits(t.year, 4) + ("-" + (Digits(t.month, 2) + ("-" + (Digits(t.day, 2) + ("T" + TimeText(t))))))
  }

  lemma IsoFormatIsNotEmpty(t: Instant)
    ensures IsoFormat(t) != ""
  {
  }

  lemma {:induction false} LexLeqSame(s: string)
    ensures LexLeq(s, s)
  {
    if s != "" {
      LexLeqSame(s[1..]);
    }
  }

  /** The sign of the offset sorts before the point of a fraction. */
  lemma FractionSorts(m: nat, n: nat)
    requires m < 1_000_000 && n < 1_000_000
    ensures LexLeq(Fraction(m), Fraction(n)) <==> m <= n
  {
    SmallNumbersFit(m);
    SmallNumbersFit(n);
    NumberSorts(m, n, 6, OFFSET, OFFSET);
    LexLeqConcat(".", ".", Digits(m, 6) + OFFSET, Digits(n, 6) + OFFSET);
    LexLeqSame(OFFSET);
  }

  /** A separator and a number of two digits in front. */
  lemma PartSorts(separator: string, m: nat, n: nat, x: string, y: string)
    requires m < 100 && n < 100
    ensures LexLeq(separator + (Digits(m, 2) + x), separator + (Digits(n, 2) + y)) <==> if m == n then LexLeq(x, y) else m < n
  {
    SmallNumbersFit(m);
    SmallNumbersFit(n);
    NumberSorts(m, n, 2, x, y);
    LexLeqConcat(separator, separator, Digits(m, 2) + x, Digits(n, 2) + y);
  }

  lemma TimeTextSorts(a: Instant, b: Instant)
    requires IsInstant(a) && IsInstant(b)
    ensures LexLeq("T" + TimeText(a), "T" + TimeText(b)) <==>
            if a.hour != b.hour then a.hour < b.hour
            else if a.minute != b.minute then a.minute < b.minute
            else if a.second != b.second then a.second < b.second
            else a.micro <= b.micro
  {
    var x2, y2 := Fraction(a.micro), Fraction(b.micro);
    var x1, y1 := ":" + (Digits(a.second, 2) + x2), ":" + (Digits(b.second, 2) + y2);
    var x0, y0 := ":" + (Digits(a.minute, 2) + x1), ":" + (Digits(b.minute, 2) + y1);
    FractionSorts(a.micro, b.micro);
    PartSorts(":", a.second, b.second, x2, y2);
    PartSorts(":", a.minute, b.minute, x1, y1);
    PartSorts("T", a.hour, b.hour, x0, y0);
  }

  /** The texts of UTC instants sort by time. */
  lemma IsoFormatSorts(a: Instant, b: Instant)
    requires IsInstant(a) && IsInstant(b)
    ensures LexLeq(IsoFormat(a), IsoFormat(b)) <==> EarlierOrSame(a, b)
  {
    var x2, y2 := "T" + TimeText(a), "T" + TimeText(b);
    var x1, y1 := "-" + (Digits(a.day, 2) + x2), "-" + (Digits(b.day, 2) + y2);
    var x0, y0 := "-" + (Digits(a.month, 2) + x1), "-" + (Digits(b.month, 2) + y1);
    TimeTextSorts(a, b);
    PartSorts("-", a.day, b.day, x2, y2);
    PartSorts("-", a.month, b.month, x1, y1);
    SmallNumbersFit(a.year);
    SmallNumbersFit(b.year);
    NumberSorts(a.year, b.year, 4, x0, y0);
  }

  /** With another offset they need not: 13:00 UTC is earlier than 12:00 five hours west of it. */
  lemma OtherOffsetsDoNotSort()
    ensures !LexLeq("2026-01-01T13:00:00+00:00", "2026-01-01T12:00:00-05:00")
  {
    assert "2026-01-01T13:00:00+00:00" == "2026-01-01T1" + "3:00:00+00:00";
    assert "2026-01-01T12:00:00-05:00" == "2026-01-01T1" + "2:00:00-05:00";
    LexLeqConcat("2026-01-01T1", "2026-01-01T1", "3:00:00+00:00", "2:00:00-05:00");
  }
}
