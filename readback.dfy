/** What reading a number's text back gives: Number() and parseFloat applied
    to digit strings, to the text of Number::toString, to the exponent of
    toExponential and to the text of toFixed; and what the roundings mean. */
module Readback {
  import opened Wrappers
  import opened Text
  import opened JsNumbers

  // ---------------------------------------------------------------------------
  // Scanning texts that are exactly one literal
  // ---------------------------------------------------------------------------

  lemma NotSpaceDigit(c: char)
    requires IsDigit(c)
    ensures !IsSpace(c)
  {
  }

  /** A text that starts and ends with a digit or starts with a sign is left as
      it is by trim and by trimStart. */
  lemma TrimKeeps(s: string)
    requires s != [] && !IsSpace(s[0]) && !IsSpace(s[|s| - 1])
    ensures Trim(s) == s && TrimStart(s) == s
  {
    assert [] + s + [] == s;
    TrimPadded([], s, []);
    assert LeadingSpaces(s) == 0;
  }

  /** A run of digits is read whole. */
  lemma ScanDigits(s: string)
    requires AllDigits(s) && s != []
    ensures ScanMantissa(s) == (s, [], |s|)
  {
    assert s + [] == s;
    DigitRunStops(s, []);
    assert s[..|s|] == s;
  }

  /** Digits, a point and digits are read whole. */
  lemma ScanPointed(a: string, b: string)
    requires AllDigits(a) && AllDigits(b) && a != []
    ensures ScanMantissa(a + "." + b) == (a, b, |a| + 1 + |b|)
  {
    var s := a + "." + b;
    assert s == a + ("." + b);
    DigitRunStops(a, "." + b);
    assert s[..|a|] == a;
    assert s[|a|] == '.';
    assert s[|a| + 1..] == b;
    assert b + [] == b;
    DigitRunStops(b, []);
    assert b[..|b|] == b;
  }

  /** An unsigned mantissa that covers the whole text is the whole literal. */
  lemma ScanUnsigned(s: string, i: string, f: string)
    requires s != [] && IsDigit(s[0])
    requires ScanMantissa(s) == (i, f, |s|) && |i| + |f| > 0
    ensures ScanLiteral(s) == Some(Literal(false, i, f, 0, |s|))
  {
    assert s[0..] == s;
    assert ScanExponent(s[|s|..]) == (0, 0);
  }

  /** A signed mantissa that covers the rest of the text is the whole literal. */
  lemma ScanSigned(sign: char, s: string, i: string, f: string)
    requires sign == '-' || sign == '+'
    requires ScanMantissa(s) == (i, f, |s|) && |i| + |f| > 0
    ensures ScanLiteral([sign] + s) == Some(Literal(sign == '-', i, f, 0, |s| + 1))
  {
    var t := [sign] + s;
    assert t[1..] == s;
    assert ScanExponent(t[1 + |s|..]) == (0, 0);
  }

  /** A text that trim leaves alone and that is one literal from end to end
      reads as that literal's value under both Number() and parseFloat. */
  lemma WholeLiteral(s: string, l: Literal)
    requires s != [] && !IsSpace(s[0]) && !IsSpace(s[|s| - 1])
    requires ScanLiteral(s) == Some(l) && l.length == |s|
    ensures WellFormed(l)
    ensures StringToNumber(s) == Some(LiteralValue(l))
    ensures ParseFloat(s) == Some(LiteralValue(l))
  {
    TrimKeeps(s);
  }

  lemma ValueOfLiteral(negative: bool, i: string, f: string, n: nat)
    requires AllDigits(i) && AllDigits(f) && |i| + |f| > 0
    ensures AllDigits(i + f)
    ensures LiteralValue(Literal(negative, i, f, 0, n))
         == Dec(if negative then -(DigitsValue(i + f) as int) else DigitsValue(i + f), |f|)
  {
    DigitsValueAppend(i, f);
  }

  // ---------------------------------------------------------------------------
  // Digit strings
  // ---------------------------------------------------------------------------

  /** Number() and parseFloat read a string of digits as the integer it
      spells, leading zeros and all: "5" and "05" are both 5. */
  lemma DigitsNumber(s: string)
    requires AllDigits(s) && s != []
    ensures StringToNumber(s) == Some(Dec(DigitsValue(s), 0))
    ensures ParseFloat(s) == Some(Dec(DigitsValue(s), 0))
  {
    NotSpaceDigit(s[0]);
    NotSpaceDigit(s[|s| - 1]);
    TrimKeeps(s);
    ScanDigits(s);
    ScanUnsigned(s, s, []);
    ValueOfLiteral(false, s, [], |s|);
    assert s + [] == s;
  }

  /** The decimal text of a natural number reads back as that number. */
  lemma NatTextNumber(n: nat)
    ensures StringToNumber(NatToString(n)) == Some(Dec(n, 0))
  {
    DigitsNumber(NatToString(n));
    DigitsValueOfNatToString(n);
  }

  /** The exponent text of toExponential reads back as the exponent. */
  lemma ExponentTextNumber(x: Sci)
    ensures StringToNumber(ExponentText(x)) == Some(Dec(x.exponent, 0))
  {
    var sign := if x.exponent < 0 then '-' else '+';
    var digits := NatToString(Abs(x.exponent));
    assert ExponentText(x) == [sign] + digits;
    DigitsValueOfNatToString(Abs(x.exponent));
    SignedDigitsNumber(sign, digits, x.exponent);
  }

  /** A sign followed by digits reads as the signed integer they spell. */
  lemma SignedDigitsNumber(sign: char, digits: string, v: int)
    requires sign == '-' || sign == '+'
    requires AllDigits(digits) && digits != []
    requires v == if sign == '-' then -(DigitsValue(digits) as int) else DigitsValue(digits)
    ensures StringToNumber([sign] + digits) == Some(Dec(v, 0))
  {
    var s := [sign] + digits;
    NotSpaceDigit(digits[|digits| - 1]);
    assert s[|s| - 1] == digits[|digits| - 1];
    TrimKeeps(s);
    ScanDigits(digits);
    ScanSigned(sign, digits, digits, []);
    ValueOfLiteral(sign == '-', digits, [], |s|);
    assert digits + [] == digits;
  }

  /** Number::toString of an integer is its decimal text. */
  lemma IntegerText(i: int)
    ensures NumberToString(Dec(i, 0)) == IntToString(i)
  {
    assert Canonical(Dec(i, 0)) == Dec(i, 0);
    assert Pow10(0) == 1;
    DivMod(Abs(i), 1);
  }

  // ---------------------------------------------------------------------------
  // Number::toString
  // ---------------------------------------------------------------------------

  /** Zeros in front do not change the value of a digit string. */
  lemma PadLeftValue(s: string, width: nat)
    requires AllDigits(s)
    ensures AllDigits(PadLeft(s, width))
    ensures DigitsValue(PadLeft(s, width)) == DigitsValue(s)
  {
    if |s| < width {
      DigitsValueAppend(Zeros(width - |s|), s);
      DigitsValueOfZeros(width - |s|);
    }
  }

  /** A number below 10^k has at most k digits. */
  lemma NatToStringFits(n: nat, k: nat)
    requires n < Pow10(k)
    ensures |NatToString(n)| <= k || (k == 0 && n == 0)
  {
    NatToStringLength(n);
    var len := |NatToString(n)|;
    if len > k && len > 1 {
      Pow10Monotone(k, len - 1);
    }
  }

  /** The positional text is one unsigned literal whose digits spell `a`, with
      `scale` of them after the point. */
  lemma PositionalScan(a: nat, scale: nat) returns (i: string, f: string)
    ensures AllDigits(i) && AllDigits(f) && i != [] && |f| == scale
    ensures ScanMantissa(PositionalText(a, scale)) == (i, f, |PositionalText(a, scale)|)
    ensures DigitsValue(i + f) == a
    ensures IsDigit(PositionalText(a, scale)[0])
    ensures IsDigit(PositionalText(a, scale)[|PositionalText(a, scale)| - 1])
  {
    if scale == 0 {
      i, f := WholeScan(a);
    } else {
      i, f := PointedScan(a, scale);
    }
  }

  lemma WholeScan(a: nat) returns (i: string, f: string)
    ensures i == PositionalText(a, 0) && f == []
    ensures AllDigits(i) && i != [] && ScanMantissa(i) == (i, f, |i|)
    ensures DigitsValue(i + f) == a
  {
    assert Pow10(0) == 1;
    DivMod(a, 1);
    i := NatToString(a);
    f := [];
    DigitsValueOfNatToString(a);
    ScanDigits(i);
    assert i + f == i;
  }

  lemma PointedScan(a: nat, scale: nat) returns (i: string, f: string)
    requires scale > 0
    ensures PositionalText(a, scale) == i + "." + f
    ensures AllDigits(i) && AllDigits(f) && i != [] && |f| == scale
    ensures ScanMantissa(i + "." + f) == (i, f, |i + "." + f|)
    ensures DigitsValue(i + f) == a
  {
    var p := Pow10(scale);
    DivMod(a, p);
    i := NatToString(a / p);
    f := FractionDigits(a, scale);
    assert ScanMantissa(i + "." + f) == (i, f, |i + "." + f|) by {
      ScanPointed(i, f);
    }
    assert DigitsValue(i + f) == a by {
      DigitsValueOfNatToString(a / p);
      DigitsValueAppend(i, f);
      Recombine(a, p, DigitsValue(i), DigitsValue(f));
    }
  }

  lemma Recombine(a: nat, p: nat, q: nat, r: nat)
    requires p > 0 && q == a / p && r == a % p
    ensures q * p + r == a
  {
  }

  /** The fraction digits of a / 10^scale: the remainder padded to `scale` digits. */
  lemma FractionDigits(a: nat, scale: nat) returns (f: string)
    requires scale > 0
    ensures f == PadLeft(NatToString(a % Pow10(scale)), scale)
    ensures AllDigits(f) && |f| == scale && DigitsValue(f) == a % Pow10(scale)
  {
    var p := Pow10(scale);
    DivMod(a, p);
    var r := NatToString(a % p);
    DigitsValueOfNatToString(a % p);
    NatToStringFits(a % p, scale);
    f := PadLeft(r, scale);
    PadLeftValue(r, scale);
  }

  /** Number() and parseFloat read the text of Number::toString back as the
      same number: the value with trailing fraction zeros dropped. */
  lemma NumberTextReadsBack(d: Dec)
    ensures StringToNumber(NumberToString(d)) == Some(Canonical(d))
    ensures ParseFloat(NumberToString(d)) == Some(Canonical(d))
  {
    var c := Canonical(d);
    var a := Abs(c.coef);
    var body := PositionalText(a, c.scale);
    if c.coef < 0 {
      assert NumberToString(d) == ['-'] + body;
      NegativeTextReadsBack(a, c.scale);
      assert Dec(-(a as int), c.scale) == c;
    } else {
      assert NumberToString(d) == body;
      PositionalTextReadsBack(a, c.scale);
    }
  }

  lemma PositionalTextReadsBack(a: nat, scale: nat)
    ensures StringToNumber(PositionalText(a, scale)) == Some(Dec(a, scale))
    ensures ParseFloat(PositionalText(a, scale)) == Some(Dec(a, scale))
  {
    var body := PositionalText(a, scale);
    var i, f := PositionalScan(a, scale);
    NotSpaceDigit(body[0]);
    NotSpaceDigit(body[|body| - 1]);
    ScanUnsigned(body, i, f);
    WholeLiteral(body, Literal(false, i, f, 0, |body|));
    ValueOfLiteral(false, i, f, |body|);
  }

  lemma NegativeTextReadsBack(a: nat, scale: nat)
    requires a > 0
    ensures StringToNumber(['-'] + PositionalText(a, scale)) == Some(Dec(-(a as int), scale))
    ensures ParseFloat(['-'] + PositionalText(a, scale)) == Some(Dec(-(a as int), scale))
  {
    var body := PositionalText(a, scale);
    var s := ['-'] + body;
    var i, f := PositionalScan(a, scale);
    var l := Literal(true, i, f, 0, |s|);
    assert !IsSpace(s[|s| - 1]) by {
      NotSpaceDigit(body[|body| - 1]);
      assert s[|s| - 1] == body[|body| - 1];
    }
    assert ScanLiteral(s) == Some(l) by {
      ScanSigned('-', body, i, f);
    }
    assert LiteralValue(l) == Dec(-(a as int), scale) by {
      ValueOfLiteral(true, i, f, |s|);
    }
    WholeLiteral(s, l);
  }
}
