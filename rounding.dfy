/** What toFixed and toExponential(2) compute: the nearest value with the
    requested number of digits, larger on a tie, laid out so that reading the
    text back gives that value. */
module Rounding {
  import opened Wrappers
  import opened Text
  import opened JsNumbers
  import opened Readback

  // ---------------------------------------------------------------------------
  // Arithmetic helpers
  // ---------------------------------------------------------------------------

  /** The quotient is the only q with x == q * p + r and 0 <= r < p. */
  lemma DivUnique(x: nat, p: nat, q: nat, r: nat)
    requires p > 0 && x == q * p + r && r < p
    ensures x / p == q && x % p == r
  {
    DivMod(x, p);
    var q', r' := x / p, x % p;
    if q' < q {
      MulLe(q' + 1, q, p);
    } else if q < q' {
      MulLe(q + 1, q', p);
    }
  }

  lemma MulLe(x: nat, y: nat, p: nat)
    requires x <= y
    ensures x * p <= y * p
  {
  }

  /** Scaling both sides by ten leaves the quotient unchanged. */
  lemma DivScaled(x: nat, p: nat)
    requires p > 0
    ensures (10 * x) / (10 * p) == x / p
  {
    DivMod(x, p);
    var q, r := x / p, x % p;
    assert 10 * x == q * (10 * p) + 10 * r;
    DivUnique(10 * x, 10 * p, q, 10 * r);
  }

  // ---------------------------------------------------------------------------
  // Rounding to a number of decimals
  // ---------------------------------------------------------------------------

  /** RoundOff(a, k) is the multiple of 10^k nearest to a, counted in units of
      10^k, and the larger one on a tie. */
  lemma RoundOffNearest(a: nat, k: nat)
    requires k > 0
    ensures var r, p := RoundOff(a, k), Pow10(k);
      2 * (r * p) - p <= 2 * a < 2 * (r * p) + p
  {
    var p, h := Pow10(k), 5 * Pow10(k - 1);
    assert p == 2 * h;
    DivMod(a + h, p);
    var r, m := (a + h) / p, (a + h) % p;
    assert RoundOff(a, k) == r;
    var rp: int := r * p;
    assert a + h == rp + m;
  }

  /** RoundTo(a, s, f) is the n for which n / 10^f is nearest to a / 10^s, the
      larger on a tie (stated with both sides multiplied by 2 * 10^s * 10^f). */
  lemma RoundToNearest(a: nat, s: nat, f: nat)
    ensures var n := RoundTo(a, s, f);
      2 * (n * Pow10(s)) - Pow10(s) <= 2 * (a * Pow10(f)) < 2 * (n * Pow10(s)) + Pow10(s)
  {
    if f >= s {
      ExactRound(a, s, f);
    } else {
      var n := RoundTo(a, s, f);
      var k := s - f;
      assert n == RoundOff(a, k);
      RoundOffNearest(a, k);
      var p, q := Pow10(k), Pow10(f);
      ScaleNearest(n, a, p, q);
      assert Pow10(s) == p * q by {
        Pow10Add(k, f);
      }
    }
  }

  lemma ScaleNearest(n: int, a: int, p: int, q: int)
    requires 2 * (n * p) - p <= 2 * a < 2 * (n * p) + p && q > 0
    ensures 2 * (n * (p * q)) - p * q <= 2 * (a * q) < 2 * (n * (p * q)) + p * q
  {
    ScaleBounds(2 * (n * p) - p, 2 * a, 2 * (n * p) + p, q);
    Distribute(n, p, q, a);
  }

  lemma ExactRound(a: nat, s: nat, f: nat)
    requires f >= s
    ensures RoundTo(a, s, f) * Pow10(s) == a * Pow10(f)
  {
    Pow10Add(s, f - s);
    assert RoundTo(a, s, f) == a * Pow10(f - s);
    MulAssoc(a, Pow10(f - s), Pow10(s));
  }

  lemma MulAssoc(x: int, y: int, z: int)
    ensures (x * y) * z == x * (z * y)
  {
  }

  lemma Distribute(n: int, p: int, q: int, a: int)
    ensures (2 * (n * p) - p) * q == 2 * (n * (p * q)) - p * q
    ensures (2 * (n * p) + p) * q == 2 * (n * (p * q)) + p * q
    ensures (2 * a) * q == 2 * (a * q)
  {
  }

  lemma ScaleBounds(lo: int, x: int, hi: int, q: nat)
    requires lo <= x < hi && q > 0
    ensures lo * q <= x * q < hi * q
  {
  }

  /** A trailing zero in the digits, with one more decimal, rounds the same. */
  lemma RoundToDropZero(a: nat, s: nat, f: nat)
    ensures RoundTo(10 * a, s + 1, f) == RoundTo(a, s, f)
  {
    if f >= s + 1 {
      assert Pow10(f - s) == 10 * Pow10(f - (s + 1));
    } else if f == s {
      assert Pow10(1) == 10 && Pow10(0) == 1;
      DivUnique(10 * a + 5, 10, a, 5);
    } else {
      var k := s - f;
      assert Pow10(k + 1) == 10 * Pow10(k);
      assert 5 * Pow10(k) == 10 * (5 * Pow10(k - 1));
      assert 10 * a + 5 * Pow10(k) == 10 * (a + 5 * Pow10(k - 1));
      DivScaled(a + 5 * Pow10(k - 1), Pow10(k));
    }
  }

  /** toFixed depends only on the value, not on trailing zeros of its digits. */
  lemma {:induction false} ToFixedCanonical(d: Dec, f: nat)
    ensures ToFixed(Canonical(d), f) == ToFixed(d, f)
    decreases d.scale
  {
    if d.scale > 0 && d.coef % 10 == 0 {
      var d' := Dec(d.coef / 10, d.scale - 1);
      assert d.coef == 10 * d'.coef;
      assert Abs(d.coef) == 10 * Abs(d'.coef);
      RoundToDropZero(Abs(d'.coef), d'.scale, f);
      ToFixedCanonical(d', f);
    }
  }

  // ---------------------------------------------------------------------------
  // The text of toFixed
  // ---------------------------------------------------------------------------

  /** The fixed layout of a digit string is one unsigned literal with exactly
      f digits after the point, spelling the same integer. */
  lemma FixedScan(m: string, f: nat) returns (i: string, fr: string)
    requires AllDigits(m) && m != []
    ensures AllDigits(i) && AllDigits(fr) && i != [] && |fr| == f
    ensures ScanMantissa(FixedLayout(m, f)) == (i, fr, |FixedLayout(m, f)|)
    ensures DigitsValue(i + fr) == DigitsValue(m)
    ensures IsDigit(FixedLayout(m, f)[0])
    ensures IsDigit(FixedLayout(m, f)[|FixedLayout(m, f)| - 1])
    ensures f == 0 ==> FixedLayout(m, f) == i
    ensures f > 0 ==> FixedLayout(m, f) == i + "." + fr
  {
    if f == 0 {
      i, fr := m, [];
      assert FixedLayout(m, f) == m;
      ScanDigits(m);
      assert i + fr == m;
    } else {
      i, fr := PointedLayoutScan(m, f);
    }
  }

  lemma PointedLayoutScan(m: string, f: nat) returns (i: string, fr: string)
    requires AllDigits(m) && m != [] && f > 0
    ensures AllDigits(i) && AllDigits(fr) && i != [] && |fr| == f
    ensures ScanMantissa(FixedLayout(m, f)) == (i, fr, |FixedLayout(m, f)|)
    ensures DigitsValue(i + fr) == DigitsValue(m)
    ensures IsDigit(FixedLayout(m, f)[0])
    ensures IsDigit(FixedLayout(m, f)[|FixedLayout(m, f)| - 1])
    ensures FixedLayout(m, f) == i + "." + fr
  {
    i, fr := PointedLayout(m, f);
    PointedTextScan(FixedLayout(m, f), i, fr);
  }

  lemma PointedTextScan(t: string, i: string, fr: string)
    requires AllDigits(i) && AllDigits(fr) && i != [] && fr != []
    requires t == i + "." + fr
    ensures ScanMantissa(t) == (i, fr, |t|)
    ensures IsDigit(t[0]) && IsDigit(t[|t| - 1])
  {
    ScanPointed(i, fr);
    assert t[0] == i[0] && t[|t| - 1] == fr[|fr| - 1];
  }

  lemma PointedLayout(m: string, f: nat) returns (i: string, fr: string)
    requires AllDigits(m) && m != [] && f > 0
    ensures FixedLayout(m, f) == i + "." + fr
    ensures AllDigits(i) && AllDigits(fr) && i != [] && |fr| == f
    ensures DigitsValue(i + fr) == DigitsValue(m)
  {
    var p := PadLeft(m, f + 1);
    PadLeftValue(m, f + 1);
    i, fr := p[..|p| - f], p[|p| - f..];
    assert i + fr == p;
  }

  /** The value toFixed(f) writes: |d| rounded to f decimals (RoundTo), with
      the sign of d. */
  function Rounded(d: Dec, f: nat): Dec {
    var n := RoundTo(Abs(d.coef), d.scale, f);
    Dec(if d.coef < 0 then -(n as int) else n, f)
  }

  /** Number() and parseFloat read the text of toFixed(f) back as the rounded
      value with f decimals, with the sign of the number. */
  lemma ToFixedReadsBack(d: Dec, f: nat)
    ensures StringToNumber(ToFixed(d, f)) == Some(Rounded(d, f))
    ensures ParseFloat(ToFixed(d, f)) == Some(Rounded(d, f))
  {
    var n := RoundTo(Abs(d.coef), d.scale, f);
    FixedTextReadsBack(n, f, d.coef < 0, ToFixed(d, f), Rounded(d, f));
  }

  /** The signed fixed layout of n reads back as n / 10^f with that sign. */
  lemma FixedTextReadsBack(n: nat, f: nat, negative: bool, t: string, v: Dec)
    requires t == (if negative then "-" else "") + FixedLayout(NatToString(n), f)
    requires v == Dec(if negative then -(n as int) else n, f)
    ensures StringToNumber(t) == Some(v) && ParseFloat(t) == Some(v)
  {
    var body := FixedLayout(NatToString(n), f);
    if negative {
      assert t == ['-'] + body;
      NegativeFixedReadsBack(n, f, body);
    } else {
      assert t == body;
      PositiveFixedReadsBack(n, f, body);
    }
  }

  lemma PositiveFixedReadsBack(n: nat, f: nat, body: string)
    requires body == FixedLayout(NatToString(n), f)
    ensures StringToNumber(body) == Some(Dec(n, f)) && ParseFloat(body) == Some(Dec(n, f))
  {
    var i, fr := FixedScan(NatToString(n), f);
    DigitsValueOfNatToString(n);
    UnsignedBodyReadsBack(body, i, fr);
  }

  lemma NegativeFixedReadsBack(n: nat, f: nat, body: string)
    requires body == FixedLayout(NatToString(n), f)
    ensures StringToNumber(['-'] + body) == Some(Dec(-(n as int), f))
    ensures ParseFloat(['-'] + body) == Some(Dec(-(n as int), f))
  {
    var i, fr := FixedScan(NatToString(n), f);
    DigitsValueOfNatToString(n);
    SignedBodyReadsBack(body, i, fr, Dec(-(n as int), f));
  }

  /** The text of toFixed(f) has exactly f digits after its point, and no
      point when f is 0. */
  lemma ToFixedShape(d: Dec, f: nat)
    ensures var t := ToFixed(d, f);
      && (f == 0 ==> '.' !in t)
      && (f > 0 ==> |t| > f && t[|t| - f - 1] == '.' && AllDigits(t[|t| - f..]))
  {
    var n := RoundTo(Abs(d.coef), d.scale, f);
    var m := NatToString(n);
    var body := FixedLayout(m, f);
    var i, fr := FixedScan(m, f);
    assert ToFixed(d, f) == (if d.coef < 0 then "-" else "") + body;
    FixedShape(body, i, fr, f, d.coef < 0);
  }

  lemma UnsignedBodyReadsBack(body: string, i: string, fr: string)
    requires AllDigits(i) && AllDigits(fr) && |i| + |fr| > 0
    requires body != [] && IsDigit(body[0]) && IsDigit(body[|body| - 1])
    requires ScanMantissa(body) == (i, fr, |body|)
    ensures StringToNumber(body) == Some(Dec(DigitsValue(i + fr), |fr|))
    ensures ParseFloat(body) == Some(Dec(DigitsValue(i + fr), |fr|))
  {
    var l := Literal(false, i, fr, 0, |body|);
    assert !IsSpace(body[0]) && !IsSpace(body[|body| - 1]) by {
      NotSpaceDigit(body[0]);
      NotSpaceDigit(body[|body| - 1]);
    }
    assert ScanLiteral(body) == Some(l) by {
      ScanUnsigned(body, i, fr);
    }
    ValueOfLiteral(false, i, fr, |body|);
    WholeLiteral(body, l);
  }

  lemma SignedBodyReadsBack(body: string, i: string, fr: string, v: Dec)
    requires AllDigits(i) && AllDigits(fr) && |i| + |fr| > 0
    requires body != [] && IsDigit(body[|body| - 1])
    requires ScanMantissa(body) == (i, fr, |body|)
    requires AllDigits(i + fr) && v == Dec(-(DigitsValue(i + fr) as int), |fr|)
    ensures StringToNumber(['-'] + body) == Some(v)
    ensures ParseFloat(['-'] + body) == Some(v)
  {
    var s := ['-'] + body;
    var l := Literal(true, i, fr, 0, |s|);
    assert !IsSpace(s[|s| - 1]) by {
      NotSpaceDigit(body[|body| - 1]);
      assert s[|s| - 1] == body[|body| - 1];
    }
    assert ScanLiteral(s) == Some(l) by {
      ScanSigned('-', body, i, fr);
    }
    ValueOfLiteral(true, i, fr, |s|);
    WholeLiteral(s, l);
  }

  lemma FixedShape(body: string, i: string, fr: string, f: nat, negative: bool)
    requires AllDigits(i) && AllDigits(fr) && |fr| == f
    requires f == 0 ==> body == i
    requires f > 0 ==> body == i + "." + fr
    ensures var t := (if negative then "-" else "") + body;
      && (f == 0 ==> '.' !in t)
      && (f > 0 ==> |t| > f && t[|t| - f - 1] == '.' && AllDigits(t[|t| - f..]))
  {
    var t := (if negative then "-" else "") + body;
    if f == 0 {
      forall k | 0 <= k < |t|
        ensures t[k] != '.'
      {
        if negative && k == 0 {
        } else {
          assert IsDigit(t[k]);
        }
      }
    } else {
      assert t[|t| - f..] == fr;
    }
  }

  // ---------------------------------------------------------------------------
  // toExponential(2)
  // ---------------------------------------------------------------------------

  lemma CancelLt(x: int, y: int, p: int)
    requires p > 0 && x * p < y * p
    ensures x < y
  {
    assert y * p - x * p == (y - x) * p;
  }

  /** A number of k > 3 digits rounded to three significant digits gives
      100..1000 units of 10^(k-3), the nearest such multiple. */
  lemma WideRounding(a: nat, k: nat)
    requires k > 3 && Pow10(k - 1) <= a < Pow10(k)
    ensures var n, p := RoundOff(a, k - 3), Pow10(k - 3);
      && 100 <= n <= 1000
      && 2 * (n * p) - p <= 2 * a < 2 * (n * p) + p
  {
    var n, p := RoundOff(a, k - 3), Pow10(k - 3);
    RoundOffNearest(a, k - 3);
    assert Pow10(k - 1) == 100 * p by {
      Pow10Add(k - 3, 2);
      assert Pow10(2) == 100;
    }
    assert Pow10(k) == 1000 * p by {
      Pow10Add(k - 3, 3);
      assert Pow10(3) == 1000;
    }
    Spread(n, p);
    CancelLt(200, 2 * n + 1, p);
    CancelLt(2 * n - 1, 2000, p);
  }

  lemma Spread(n: int, p: int)
    ensures (2 * n + 1) * p == 2 * (n * p) + p
    ensures (2 * n - 1) * p == 2 * (n * p) - p
    ensures 200 * p == 2 * (100 * p) && 2000 * p == 2 * (1000 * p)
  {
  }

  /** The length of a positive number's decimal text brackets it between
      powers of ten. */
  lemma DigitCountBounds(a: nat)
    requires a > 0
    ensures DigitCount(a) >= 1 && Pow10(DigitCount(a) - 1) <= a < Pow10(DigitCount(a))
  {
    NatToStringLength(a);
  }

  /** toExponential(2) keeps the sign, writes three significant digits
      100..999 (0.00e+0 for zero), and the value digits * 10^(exponent - 2) is
      the one nearest the number, the larger on a tie. Both sides are scaled by
      10^scale: with p = exponent - 2 + scale, |coef| is within half of 10^p of
      digits * 10^p, and equals digits / 10^-p when p is negative. */
  lemma ToSciNearest(d: Dec)
    ensures var x, a := ToSci(d), Abs(d.coef);
      var p := x.exponent - 2 + d.scale;
      && (a == 0 ==> x == Sci(false, 0, 0))
      && (a != 0 ==> x.negative == (d.coef < 0) && 100 <= x.digits <= 999)
      && (a != 0 && p >= 0 ==> 2 * (x.digits * Pow10(p)) - Pow10(p) <= 2 * a < 2 * (x.digits * Pow10(p)) + Pow10(p))
      && (a != 0 && p < 0 ==> x.digits == a * Pow10(-p))
  {
    var a := Abs(d.coef);
    if a != 0 {
      var k := DigitCount(a);
      DigitCountBounds(a);
      if k > 3 {
        WideSci(d, a, k);
      } else if k == 3 {
        assert RoundTo(a, 0, 0) == a * Pow10(0);
        assert Pow10(0) == 1;
      } else {
        NarrowSci(a, k);
      }
    }
  }

  lemma WideSci(d: Dec, a: nat, k: nat)
    requires a == Abs(d.coef) && k == DigitCount(a) && k > 3
    requires Pow10(k - 1) <= a < Pow10(k)
    ensures var x := ToSci(d);
      var p := x.exponent - 2 + d.scale;
      && 100 <= x.digits <= 999 && p >= 0
      && 2 * (x.digits * Pow10(p)) - Pow10(p) <= 2 * a < 2 * (x.digits * Pow10(p)) + Pow10(p)
  {
    var n, q := RoundOff(a, k - 3), Pow10(k - 3);
    assert RoundTo(a, k - 3, 0) == n;
    WideRounding(a, k);
    if n == 1000 {
      assert Pow10(k - 2) == 10 * q;
      assert 100 * (10 * q) == n * q;
    }
  }

  lemma NarrowSci(a: nat, k: nat)
    requires 1 <= k < 3 && Pow10(k - 1) <= a < Pow10(k)
    ensures 100 <= a * Pow10(3 - k) <= 999
  {
    if k == 1 {
      assert Pow10(2) == 100;
    } else {
      assert Pow10(1) == 10;
    }
  }
}
