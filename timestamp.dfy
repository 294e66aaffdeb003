/**
 * `format_timestamp` (generate_vtt.py:45-52): an offset rendered as a WebVTT cue
 * timestamp `HH:MM:SS.mmm` (section 4.1 of the W3C WebVTT specification). The offset is a
 * natural number of milliseconds, so the float arithmetic of the script becomes exact
 * integer arithmetic.
 */
module Timestamp {
  import opened Wrappers

  const MsPerSecond: nat := 1000
  const MsPerMinute: nat := 60 * MsPerSecond
  const MsPerHour: nat := 60 * MsPerMinute

  predicate IsDigit(c: char) { '0' <= c <= '9' }

  predicate AllDigits(s: string) {
    forall k :: 0 <= k < |s| ==> IsDigit(s[k])
  }

  function DigitChar(d: nat): (c: char)
    requires d < 10
    ensures IsDigit(c) && c as int - '0' as int == d
  {
    ('0' as int + d) as char
  }

  /** The value of a string of decimal digits (most significant first). */
  function ValueOf(s: string): nat
    requires AllDigits(s)
  {
    if s == [] then 0 else ValueOf(s[..|s| - 1]) * 10 + (s[|s| - 1] as int - '0' as int)
  }

  /** Python's `str(n)` for a natural number: its decimal digits without leading zeros. */
  function Decimal(n: nat): (s: string)
    ensures 1 <= |s| && AllDigits(s)
  {
    if n < 10 then [DigitChar(n)] else Decimal(n / 10) + [DigitChar(n % 10)]
  }

  /** The number of digits `Decimal` writes for the ranges the formatter cares about. */
  lemma DecimalLength(n: nat)
    ensures n < 10 <==> |Decimal(n)| == 1
    ensures n < 100 <==> |Decimal(n)| <= 2
    ensures n < 1000 <==> |Decimal(n)| <= 3
  {
    if n >= 10 {
      DecimalLength(n / 10);
    }
  }

  /** Reading back what `Decimal` wrote gives the number. */
  lemma {:induction false} DecimalValue(n: nat)
    ensures ValueOf(Decimal(n)) == n
  {
    if n >= 10 {
      var d := Decimal(n / 10);
      assert (d + [DigitChar(n % 10)])[..|d|] == d;
      DecimalValue(n / 10);
    }
  }

  function Zeros(k: nat): (z: string)
    ensures |z| == k && AllDigits(z)
  {
    if k == 0 then [] else ['0'] + Zeros(k - 1)
  }

  /** Leading zeros add nothing to the value. */
  lemma {:induction false} ValueOfZerosPrefix(k: nat, s: string)
    requires AllDigits(s)
    ensures AllDigits(Zeros(k) + s) && ValueOf(Zeros(k) + s) == ValueOf(s)
  {
    var z := Zeros(k);
    if s == [] {
      assert z + s == z;
      ZerosValue(k);
    } else {
      var t := s[..|s| - 1];
      assert (z + s)[..|z + s| - 1] == z + t;
      ValueOfZerosPrefix(k, t);
    }
  }

  lemma {:induction false} ZerosValue(k: nat)
    ensures ValueOf(Zeros(k)) == 0
  {
    if k > 0 {
      var z := Zeros(k);
      assert z[..k - 1] == Zeros(k - 1) by {
        if k > 1 {
          ZerosSnoc(k - 1);
        }
      }
      ZerosValue(k - 1);
    }
  }

  lemma {:induction false} ZerosSnoc(k: nat)
    ensures Zeros(k + 1) == Zeros(k) + ['0']
  {
    if k > 0 { ZerosSnoc(k - 1); }
  }

  /** Python's `f"{n:0{width}d}"`: the decimal digits of `n`, zero-padded on the left to at
      least `width` characters and never cut. */
  function PadInt(n: nat, width: nat): (s: string)
    ensures |s| >= width && AllDigits(s)
    ensures |s| == width <==> |Decimal(n)| <= width
    ensures |s| == if |Decimal(n)| > width then |Decimal(n)| else width
  {
    var d := Decimal(n);
    if |d| >= width then d else Zeros(width - |d|) + d
  }

  lemma {:induction false} PadIntValue(n: nat, width: nat)
    ensures ValueOf(PadInt(n, width)) == n
  {
    var d := Decimal(n);
    DecimalValue(n);
    if |d| < width {
      var z := Zeros(width - |d|);
      assert PadInt(n, width) == z + d;
      ValueOfZerosPrefix(width - |d|, d);
    }
  }

  /** The four fields of the script, on milliseconds: `seconds // 3600`,
      `(seconds % 3600) // 60`, and `seconds % 60` split into whole seconds and milliseconds. */
  function Hours(ms: nat): nat { ms / MsPerHour }
  function Minutes(ms: nat): nat { (ms % MsPerHour) / MsPerMinute }
  function Seconds(ms: nat): nat { (ms % MsPerMinute) / MsPerSecond }
  function Millis(ms: nat): nat { (ms % MsPerMinute) % MsPerSecond }

  /** Taking the offset modulo a minute ignores whole hours. */
  lemma MinuteOfHour(ms: nat)
    ensures ms % MsPerMinute == (ms % MsPerHour) % MsPerMinute
  {
    var h, r := ms / 3600000, ms % 3600000;
    var m, rest := r / 60000, r % 60000;
    assert ms == (h * 60 + m) * 60000 + rest;
    assert ms % 60000 == rest;
  }

  /** The fields are in range and put back together give the offset: nothing is wrapped
      (the hours are unbounded) and nothing is lost. */
  lemma FieldsReconstruct(ms: nat)
    ensures Minutes(ms) < 60 && Seconds(ms) < 60 && Millis(ms) < 1000
    ensures Hours(ms) * MsPerHour + Minutes(ms) * MsPerMinute + Seconds(ms) * MsPerSecond + Millis(ms) == ms
  {
    MinuteOfHour(ms);
    var r := ms % 3600000;
    assert ms == Hours(ms) * 3600000 + r;
    var rest := r % 60000;
    assert r == Minutes(ms) * 60000 + rest;
    assert rest == Seconds(ms) * 1000 + Millis(ms);
  }

  /** `f"{secs:06.3f}"` for `secs` < 60 seconds given in milliseconds: whole seconds zero-padded
      to two digits, a dot, and the milliseconds zero-padded to three. */
  function SecondsField(secsMs: nat): string
    requires secsMs < MsPerMinute
  {
    PadInt(secsMs / MsPerSecond, 2) + "." + PadInt(secsMs % MsPerSecond, 3)
  }

  /** `format_timestamp(seconds)` for `ms` milliseconds. */
  function Format(ms: nat): string {
    PadInt(Hours(ms), 2) + ":" + PadInt(Minutes(ms), 2) + ":" + SecondsField(ms % MsPerMinute)
  }

  /** The layout of a timestamp: hours at least two digits wide and never wrapped, then
      `:MM:SS.mmm`; twelve characters exactly when the hours fit in two digits. */
  lemma FormatShape(ms: nat)
    ensures |Format(ms)| >= 12
    ensures var r := Format(ms);
      r[|r| - 10] == ':' && r[|r| - 7] == ':' && r[|r| - 4] == '.'
    ensures ms < 100 * MsPerHour <==> |Format(ms)| == 12
  {
    var sf := ms % MsPerMinute;
    FieldsReconstruct(ms);
    var h := PadInt(Hours(ms), 2);
    var tail := ":" + PadInt(Minutes(ms), 2) + ":" + (PadInt(sf / MsPerSecond, 2) + "." + PadInt(sf % MsPerSecond, 3));
    assert Format(ms) == h + tail;
    TailShape(Minutes(ms), sf / MsPerSecond, sf % MsPerSecond);
    DecimalLength(Hours(ms));
    HoursBelow(ms, 100);
  }

  /** `:MM:SS.mmm` is ten characters with its separators at fixed places. */
  lemma TailShape(mv: nat, sv: nat, fv: nat)
    requires mv < 60 && sv < 60 && fv < 1000
    ensures var tail := ":" + PadInt(mv, 2) + ":" + (PadInt(sv, 2) + "." + PadInt(fv, 3));
      |tail| == 10 && tail[0] == ':' && tail[3] == ':' && tail[6] == '.'
  {
    DecimalLength(mv);
    DecimalLength(sv);
    DecimalLength(fv);
  }

  lemma HoursBelow(ms: nat, h: nat)
    ensures ms < h * MsPerHour <==> Hours(ms) < h
  {
    assert MsPerHour == 3600000;
    if ms < h * MsPerHour {
      assert Hours(ms) * MsPerHour <= ms;
    } else {
      assert Hours(ms) * MsPerHour + ms % MsPerHour == ms;
    }
  }

  /** Reads a timestamp of the shape `Format` writes: at least two hour digits, then
      `:MM:SS.mmm` with minutes and seconds below 60 (the cue timestamp syntax of section 4.1
      of the W3C WebVTT specification, with the hours always present). */
  function ParseTimestamp(t: string): (r: Option<nat>)
  {
    if |t| < 12 then None else ParseFields(t[..|t| - 10], t[|t| - 10..])
  }

  /** The hours, and the ten characters `:MM:SS.mmm` after them. */
  function ParseFields(hours: string, tail: string): (r: Option<nat>)
    requires |tail| == 10
  {
    var mm, ss, fff := tail[1..3], tail[4..6], tail[7..];
    if tail[0] == ':' && tail[3] == ':' && tail[6] == '.'
       && AllDigits(hours) && AllDigits(mm) && AllDigits(ss) && AllDigits(fff)
       && ValueOf(mm) < 60 && ValueOf(ss) < 60
    then Some(ValueOf(hours) * MsPerHour + ValueOf(mm) * MsPerMinute + ValueOf(ss) * MsPerSecond + ValueOf(fff))
    else None
  }

  /** The parser splits off the last ten characters as `:MM:SS.mmm`. */
  lemma ParseSplit(hours: string, tail: string)
    requires |hours| >= 2 && |tail| == 10
    ensures ParseTimestamp(hours + tail) == ParseFields(hours, tail)
  {
    var t := hours + tail;
    assert t[..|t| - 10] == hours && t[|t| - 10..] == tail;
  }

  /** The fields of `:MM:SS.mmm` are read at their fixed positions. */
  lemma ParseTail(hours: string, m: string, s: string, f: string) returns (v: nat)
    requires |m| == 2 && |s| == 2 && |f| == 3
    requires AllDigits(hours) && AllDigits(m) && AllDigits(s) && AllDigits(f)
    requires ValueOf(m) < 60 && ValueOf(s) < 60
    ensures v == ValueOf(hours) * MsPerHour + ValueOf(m) * MsPerMinute + ValueOf(s) * MsPerSecond + ValueOf(f)
    ensures ParseFields(hours, ":" + m + ":" + (s + "." + f)) == Some(v)
  {
    var tail := ":" + m + ":" + (s + "." + f);
    assert tail[1..3] == m && tail[4..6] == s && tail[7..] == f;
    assert tail[0] == ':' && tail[3] == ':' && tail[6] == '.';
    v := ValueOf(hours) * MsPerHour + ValueOf(m) * MsPerMinute + ValueOf(s) * MsPerSecond + ValueOf(f);
  }

  /** Every timestamp `Format` writes reads back as the offset it was written from. */
  lemma ParseFormat(ms: nat)
    ensures ParseTimestamp(Format(ms)) == Some(ms)
  {
    var sf := ms % MsPerMinute;
    FieldsReconstruct(ms);
    var hv, mv, sv, fv := Hours(ms), Minutes(ms), sf / MsPerSecond, sf % MsPerSecond;
    assert Format(ms) == PadInt(hv, 2) + ":" + PadInt(mv, 2) + ":" + (PadInt(sv, 2) + "." + PadInt(fv, 3));
    ParsePadded(hv, mv, sv, fv);
  }

  /** Padded fields, joined by the separators, read back as the offset they stand for. */
  lemma ParsePadded(hv: nat, mv: nat, sv: nat, fv: nat)
    requires mv < 60 && sv < 60 && fv < 1000
    ensures ParseTimestamp(PadInt(hv, 2) + ":" + PadInt(mv, 2) + ":" + (PadInt(sv, 2) + "." + PadInt(fv, 3)))
         == Some(hv * MsPerHour + mv * MsPerMinute + sv * MsPerSecond + fv)
  {
    var h, m, s, f := PadInt(hv, 2), PadInt(mv, 2), PadInt(sv, 2), PadInt(fv, 3);
    DecimalLength(mv);
    DecimalLength(sv);
    DecimalLength(fv);
    PadIntValue(hv, 2);
    PadIntValue(mv, 2);
    PadIntValue(sv, 2);
    PadIntValue(fv, 3);
    var tail := ":" + m + ":" + (s + "." + f);
    assert h + ":" + m + ":" + (s + "." + f) == h + tail;
    ParseSplit(h, tail);
    var v := ParseTail(h, m, s, f);
    assert ValueOf(h) == hv && ValueOf(m) == mv && ValueOf(s) == sv && ValueOf(f) == fv;
  }

  /** Two sample timestamps: the start of a recording, and an hour, a minute and 1.25 seconds. */
  lemma FormatZero()
    ensures Format(0) == "00:00:00.000"
  {
    FieldsOf(0, 0, 0, 0);
    FormatNested(0);
    PadSmall();
  }

  lemma FormatExample()
    ensures Format(3661250) == "01:01:01.250"
  {
    FieldsOf(1, 1, 1, 250);
    FormatNested(3661250);
    PadSmall();
  }

  /** The fields of an offset given as hours, minutes, seconds and milliseconds in range are
      those values. */
  lemma FieldsOf(h: nat, m: nat, s: nat, f: nat)
    requires m < 60 && s < 60 && f < 1000
    ensures var ms := h * MsPerHour + m * MsPerMinute + s * MsPerSecond + f;
      Hours(ms) == h && Minutes(ms) == m && Seconds(ms) == s && Millis(ms) == f
  {
    var ms := h * MsPerHour + m * MsPerMinute + s * MsPerSecond + f;
    FieldsReconstruct(ms);
  }

  lemma PadSmall()
    ensures PadInt(0, 2) == "00" && PadInt(0, 3) == "000" && PadInt(1, 2) == "01" && PadInt(250, 3) == "250"
  {
    assert Decimal(0) == "0" && Decimal(1) == "1";
    assert Zeros(1) == "0" && Zeros(2) == "00";
    assert Decimal(250) == Decimal(25) + "0";
    assert Decimal(25) == "25";
  }

  /** `Format` with its pieces joined from the right. */
  lemma FormatNested(ms: nat)
    ensures Format(ms) == PadInt(Hours(ms), 2) + (":" + (PadInt(Minutes(ms), 2) + (":" + (PadInt(Seconds(ms), 2) + ("." + PadInt(Millis(ms), 3))))))
  {
  }

  /** Python's `<=` on strings: code point by code point, a proper prefix first. */
  predicate LexLe(s: string, t: string)
    decreases |s|
  {
    s == [] || (t != [] && (s[0] < t[0] || (s[0] == t[0] && LexLe(s[1..], t[1..]))))
  }

  lemma {:induction false} LexRefl(s: string)
    ensures LexLe(s, s)
  {
    if s != [] {
      LexRefl(s[1..]);
    }
  }

  /** Comparing two joined strings whose first parts have the same length: the first parts
      decide unless they are equal, and then the second parts do. */
  lemma {:induction false} LexAppend(p: string, q: string, x: string, y: string)
    requires |p| == |q| && LexLe(p, q) && (p == q ==> LexLe(x, y))
    ensures LexLe(p + x, q + y)
  {
    if p != [] {
      assert (p + x)[0] == p[0] && (q + y)[0] == q[0];
      if p[0] == q[0] {
        assert (p + x)[1..] == p[1..] + x && (q + y)[1..] == q[1..] + y;
        LexAppend(p[1..], q[1..], x, y);
      }
    } else {
      assert p + x == x && q + y == y;
    }
  }

  /** Equal-length digit strings with the same value are the same string. */
  lemma {:induction false} DigitsInjective(s: string, t: string)
    requires AllDigits(s) && AllDigits(t) && |s| == |t| && ValueOf(s) == ValueOf(t)
    ensures s == t
  {
    if s != [] {
      var n := |s| - 1;
      assert s[n] == t[n];
      DigitsInjective(s[..n], t[..n]);
      assert s == s[..n] + [s[n]] && t == t[..n] + [t[n]];
    }
  }

  /** For digit strings of one length the order of the strings is the order of the values. */
  lemma {:induction false} DigitsOrder(s: string, t: string)
    requires AllDigits(s) && AllDigits(t) && |s| == |t| && ValueOf(s) <= ValueOf(t)
    ensures LexLe(s, t)
  {
    if s != [] {
      var n := |s| - 1;
      var s', t', x, y := s[..n], t[..n], s[n], t[n];
      assert s == s' + [x] && t == t' + [y];
      assert ValueOf(s) == ValueOf(s') * 10 + (x as int - '0' as int);
      assert ValueOf(t) == ValueOf(t') * 10 + (y as int - '0' as int);
      if ValueOf(s') < ValueOf(t') {
        DigitsOrder(s', t');
        LexAppend(s', t', [x], [y]);
      } else {
        DigitsInjective(s', t');
        LexRefl(s');
        LexChar(x, y);
        LexAppend(s', t', [x], [y]);
      }
    }
  }

  lemma LexChar(x: char, y: char)
    requires x <= y
    ensures LexLe([x], [y])
  {
    assert [x][1..] == [];
  }

  /** Zero-padded to a width both numbers fit in, the smaller number gives the smaller string. */
  lemma PadOrder(n: nat, m: nat, width: nat)
    requires n <= m && |Decimal(n)| <= width && |Decimal(m)| <= width
    ensures LexLe(PadInt(n, width), PadInt(m, width))
    ensures PadInt(n, width) == PadInt(m, width) ==> n == m
  {
    PadIntValue(n, width);
    PadIntValue(m, width);
    DigitsOrder(PadInt(n, width), PadInt(m, width));
  }

  /** A later offset has hours, minutes, seconds and milliseconds no smaller, in that order of
      precedence. */
  lemma FieldsOrder(a: nat, b: nat)
    requires a <= b
    ensures Hours(a) <= Hours(b)
    ensures Hours(a) == Hours(b) ==> Minutes(a) <= Minutes(b)
    ensures Hours(a) == Hours(b) && Minutes(a) == Minutes(b) ==> Seconds(a) <= Seconds(b)
    ensures Hours(a) == Hours(b) && Minutes(a) == Minutes(b) && Seconds(a) == Seconds(b)
      ==> Millis(a) <= Millis(b)
  {
    FieldsReconstruct(a);
    FieldsReconstruct(b);
  }

  /** A padded field followed by the rest: a smaller field decides, an equal one leaves it to
      the rest. */
  lemma PadStep(n: nat, m: nat, width: nat, x: string, y: string)
    requires n <= m && |Decimal(n)| <= width && |Decimal(m)| <= width && (n == m ==> LexLe(x, y))
    ensures LexLe(PadInt(n, width) + x, PadInt(m, width) + y)
  {
    PadOrder(n, m, width);
    LexAppend(PadInt(n, width), PadInt(m, width), x, y);
  }

  /** A separator in front keeps the order. */
  lemma SepStep(sep: string, x: string, y: string)
    requires LexLe(x, y)
    ensures LexLe(sep + x, sep + y)
  {
    LexRefl(sep);
    LexAppend(sep, sep, x, y);
  }

  /** `HH:MM:SS.mmm` for field values in range orders as the tuple of fields does. */
  lemma FieldsMonotone(h1: nat, m1: nat, s1: nat, f1: nat, h2: nat, m2: nat, s2: nat, f2: nat)
    requires h1 < 100 && h2 < 100 && m1 < 60 && m2 < 60 && s1 < 60 && s2 < 60 && f1 < 1000 && f2 < 1000
    requires h1 <= h2 && (h1 == h2 ==> m1 <= m2) && (h1 == h2 && m1 == m2 ==> s1 <= s2)
    requires h1 == h2 && m1 == m2 && s1 == s2 ==> f1 <= f2
    ensures LexLe(PadInt(h1, 2) + (":" + (PadInt(m1, 2) + (":" + (PadInt(s1, 2) + ("." + PadInt(f1, 3)))))),
                  PadInt(h2, 2) + (":" + (PadInt(m2, 2) + (":" + (PadInt(s2, 2) + ("." + PadInt(f2, 3)))))))
  {
    DecimalLength(h1);
    DecimalLength(h2);
    DecimalLength(m1);
    DecimalLength(m2);
    DecimalLength(s1);
    DecimalLength(s2);
    DecimalLength(f1);
    DecimalLength(f2);
    var x1, x2 := "." + PadInt(f1, 3), "." + PadInt(f2, 3);
    if h1 == h2 && m1 == m2 && s1 == s2 {
      PadOrder(f1, f2, 3);
      SepStep(".", PadInt(f1, 3), PadInt(f2, 3));
    }
    var y1, y2 := ":" + (PadInt(s1, 2) + x1), ":" + (PadInt(s2, 2) + x2);
    if h1 == h2 && m1 == m2 {
      PadStep(s1, s2, 2, x1, x2);
      SepStep(":", PadInt(s1, 2) + x1, PadInt(s2, 2) + x2);
    }
    var z1, z2 := ":" + (PadInt(m1, 2) + y1), ":" + (PadInt(m2, 2) + y2);
    if h1 == h2 {
      PadStep(m1, m2, 2, y1, y2);
      SepStep(":", PadInt(m1, 2) + y1, PadInt(m2, 2) + y2);
    }
    PadStep(h1, h2, 2, z1, z2);
  }

  /** While the hours fit in two digits, a later offset is never written as an earlier
      timestamp in string order, so cue timestamps sort as text the way they sort in time. */
  lemma FormatMonotone(a: nat, b: nat)
    requires a <= b < 100 * MsPerHour
    ensures LexLe(Format(a), Format(b))
  {
    FieldsOrder(a, b);
    FieldsReconstruct(a);
    FieldsReconstruct(b);
    HoursBelow(a, 100);
    HoursBelow(b, 100);
    FormatNested(a);
    FormatNested(b);
    FieldsMonotone(Hours(a), Minutes(a), Seconds(a), Millis(a), Hours(b), Minutes(b), Seconds(b), Millis(b));
  }

  /** Distinct offsets are written as distinct timestamps. */
  lemma FormatInjective(a: nat, b: nat)
    requires Format(a) == Format(b)
    ensures a == b
  {
    ParseFormat(a);
    ParseFormat(b);
  }
}
