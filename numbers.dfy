/** JavaScript numbers as exact decimals, and the conversions the widget uses:
    Number(string), parseFloat, Number.prototype.toString, toFixed and
    toExponential(2). Every number the widget meets is written as a decimal
    literal (the JSON data set, the soil table, the select values), so an exact
    decimal stands for it without rounding. */
module JsNumbers {
  import opened Wrappers
  import opened Text

  /** The finite number coef / 10^scale. */
  datatype Dec = Dec(coef: int, scale: nat)

  const Zero := Dec(0, 0)

  /** Numeric equality: the two decimals denote the same value. */
  predicate SameValue(a: Dec, b: Dec) {
    a.coef * Pow10(b.scale) == b.coef * Pow10(a.scale)
  }

  function Abs(i: int): nat {
    if i < 0 then -i else i
  }

  // ---------------------------------------------------------------------------
  // Reading decimal literals (StrDecimalLiteral, without Infinity)
  // ---------------------------------------------------------------------------

  /** Length of the run of ASCII digits at the front of `s`. */
  function DigitRun(s: string): (n: nat)
    ensures n <= |s|
    ensures forall i :: 0 <= i < n ==> IsDigit(s[i])
    ensures n < |s| ==> !IsDigit(s[n])
  {
    if s == [] || !IsDigit(s[0]) then 0 else 1 + DigitRun(s[1..])
  }

  lemma DigitRunStops(a: string, b: string)
    requires AllDigits(a)
    requires b == [] || !IsDigit(b[0])
    ensures DigitRun(a + b) == |a|
  {
    assert forall i :: 0 <= i < |a| ==> (a + b)[i] == a[i];
    assert b != [] ==> (a + b)[|a|] == b[0];
  }

  /** The pieces of a decimal literal read from the front of a string:
      sign, integer digits, fraction digits, exponent, and how many
      characters the literal covers. */
  datatype Literal = Literal(negative: bool, intDigits: string, fracDigits: string, exponent: int, length: nat)

  predicate WellFormed(l: Literal) {
    AllDigits(l.intDigits) && AllDigits(l.fracDigits) && |l.intDigits| + |l.fracDigits| > 0
  }

  /** The exponent part `e`/`E`, optional sign, digits, at the front of `t`;
      (0, 0) when there is none. */
  function ScanExponent(t: string): (r: (int, nat))
    ensures r.1 <= |t|
    ensures r.1 == 0 ==> r.0 == 0
  {
    if |t| >= 2 && (t[0] == 'e' || t[0] == 'E') then
      var start := if t[1] == '+' || t[1] == '-' then 2 else 1;
      var n := DigitRun(t[start..]);
      if n == 0 then (0, 0)
      else
        assert t[start..start + n] == t[start..][..n];
        var v: int := DigitsValue(t[start..start + n]);
        (if t[1] == '-' then -v else v, start + n)
    else (0, 0)
  }

  /** The longest decimal literal at the front of `s`: an optional sign, digits,
      an optional point with digits (at least one digit in all), and an
      optional exponent. None when `s` does not start with one. */
  function ScanLiteral(s: string): (r: Option<Literal>)
    ensures r.Some? ==> WellFormed(r.value) && r.value.length <= |s|
  {
    var signLen := if |s| > 0 && (s[0] == '+' || s[0] == '-') then 1 else 0;
    var m := ScanMantissa(s[signLen..]);
    if m.2 == 0 then None
    else
      var e := ScanExponent(s[signLen + m.2..]);
      Some(Literal(signLen == 1 && s[0] == '-', m.0, m.1, e.0, signLen + m.2 + e.1))
  }

  /** The unsigned mantissa at the front of `s`: integer digits, then a point
      and fraction digits if present; the third component is the length read,
      0 when there is not at least one digit. */
  function ScanMantissa(s: string): (r: (string, string, nat))
    ensures AllDigits(r.0) && AllDigits(r.1) && r.2 <= |s|
    ensures r.2 > 0 <==> |r.0| + |r.1| > 0
  {
    var ni := DigitRun(s);
    var intDigits := s[..ni];
    assert AllDigits(intDigits);
    if ni < |s| && s[ni] == '.' then
      var t := s[ni + 1..];
      var nf := DigitRun(t);
      var fracDigits := t[..nf];
      assert AllDigits(fracDigits);
      if ni + nf == 0 then ([], [], 0) else (intDigits, fracDigits, ni + 1 + nf)
    else
      (intDigits, [], ni)
  }

  /** The number a well-formed literal denotes. */
  function LiteralValue(l: Literal): Dec
    requires WellFormed(l)
  {
    DigitsValueAppend(l.intDigits, l.fracDigits);
    var m: int := DigitsValue(l.intDigits + l.fracDigits);
    var c := if l.negative then -m else m;
    var s := |l.fracDigits| - l.exponent;
    if s >= 0 then Dec(c, s) else Dec(c * Pow10(-s), 0)
  }

  /** Number(s) for a string: whitespace around is ignored, the empty string is 0,
      anything but one whole decimal literal is NaN (None). */
  function StringToNumber(s: string): Option<Dec> {
    var t := Trim(s);
    if t == [] then Some(Zero)
    else match ScanLiteral(t)
      case Some(l) => if l.length == |t| then Some(LiteralValue(l)) else None
      case None => None
  }

  /** parseFloat(s): leading whitespace is skipped and the longest decimal literal
      at the front is read; NaN (None) when there is none. */
  function ParseFloat(s: string): Option<Dec> {
    match ScanLiteral(TrimStart(s))
    case Some(l) => Some(LiteralValue(l))
    case None => None
  }

  // ---------------------------------------------------------------------------
  // Number.prototype.toString (plain positional notation)
  // ---------------------------------------------------------------------------

  /** The same value with trailing fraction zeros removed. */
  function Canonical(d: Dec): (r: Dec)
    ensures SameValue(r, d)
    ensures r.scale <= d.scale
    ensures r.scale == 0 || r.coef % 10 != 0
    decreases d.scale
  {
    if d.scale > 0 && d.coef % 10 == 0 then
      var r := Canonical(Dec(d.coef / 10, d.scale - 1));
      SameValueDropZero(d);
      SameValueTransitive(r, Dec(d.coef / 10, d.scale - 1), d);
      r
    else d
  }

  lemma SameValueDropZero(d: Dec)
    requires d.scale > 0 && d.coef % 10 == 0
    ensures SameValue(Dec(d.coef / 10, d.scale - 1), d)
  {
    var q := d.coef / 10;
    assert d.coef == 10 * q;
    assert Pow10(d.scale) == 10 * Pow10(d.scale - 1);
    assert q * Pow10(d.scale) == q * (10 * Pow10(d.scale - 1));
  }

  lemma SameValueTransitive(a: Dec, b: Dec, c: Dec)
    requires SameValue(a, b) && SameValue(b, c)
    ensures SameValue(a, c)
  {
    var pa, pb, pc := Pow10(a.scale), Pow10(b.scale), Pow10(c.scale);
    assert a.coef * pb == b.coef * pa;
    assert b.coef * pc == c.coef * pb;
    MulSwap(a.coef, pc, pb);
    assert (a.coef * pb) * pc == (b.coef * pa) * pc;
    MulSwap(b.coef, pa, pc);
    assert (b.coef * pc) * pa == (c.coef * pb) * pa;
    MulSwap(c.coef, pb, pa);
    CancelPositive(a.coef * pc, c.coef * pa, pb);
  }

  lemma MulSwap(x: int, y: int, z: int)
    ensures (x * y) * z == (x * z) * y
  {
  }

  lemma CancelPositive(x: int, y: int, p: int)
    requires p > 0 && x * p == y * p
    ensures x == y
  {
    assert (x - y) * p == 0;
  }

  /** `s` with zeros in front, to at least `width` characters. */
  function PadLeft(s: string, width: nat): (r: string)
    ensures |r| == if |s| < width then width else |s|
  {
    if |s| < width then Zeros(width - |s|) + s else s
  }

  /** Number::toString in positional notation: the shortest decimal text, with
      `-` for a negative number and a point only when there is a fraction. */
  function NumberToString(d: Dec): string {
    var c := Canonical(d);
    (if c.coef < 0 then "-" else "") + PositionalText(Abs(c.coef), c.scale)
  }

  /** The text of a / 10^scale: the whole part, then a point and exactly
      `scale` fraction digits when scale > 0. */
  function PositionalText(a: nat, scale: nat): string {
    DivMod(a, Pow10(scale));
    var digits := NatToString(a / Pow10(scale));
    if scale == 0 then digits else digits + "." + PadLeft(NatToString(a % Pow10(scale)), scale)
  }

  // ---------------------------------------------------------------------------
  // Number.prototype.toFixed
  // ---------------------------------------------------------------------------

  /** The integer n nearest to a * 10^f / 10^s, the larger one on a tie. */
  function RoundTo(a: nat, s: nat, f: nat): nat {
    if f >= s then a * Pow10(f - s) else RoundOff(a, s - f)
  }

  /** a / 10^k rounded to the nearest integer, up on a tie. */
  function RoundOff(a: nat, k: nat): nat
    requires k > 0
  {
    DivMod(a + 5 * Pow10(k - 1), Pow10(k));
    (a + 5 * Pow10(k - 1)) / Pow10(k)
  }

  /** The digits of `m` laid out so that exactly `f` of them follow the point,
      with zeros in front when `m` is too short. */
  function FixedLayout(m: string, f: nat): (r: string)
    requires AllDigits(m) && m != []
  {
    if f == 0 then m
    else
      var p := PadLeft(m, f + 1);
      p[..|p| - f] + "." + p[|p| - f..]
  }

  /** toFixed(f): the sign of a negative number, then the value rounded to
      f decimals, with exactly f digits after the point. */
  function ToFixed(d: Dec, f: nat): string {
    var n := RoundTo(Abs(d.coef), d.scale, f);
    (if d.coef < 0 then "-" else "") + FixedLayout(NatToString(n), f)
  }

  // ---------------------------------------------------------------------------
  // Number.prototype.toExponential(2)
  // ---------------------------------------------------------------------------

  /** A number in scientific notation: sign, three significant digits
      (d.dd, as the integer ddd) and the power of ten. */
  datatype Sci = Sci(negative: bool, digits: nat, exponent: int)

  /** Number of decimal digits of a. */
  function DigitCount(a: nat): nat {
    |NatToString(a)|
  }

  /** toExponential(2) as numbers: the three significant digits and the exponent
      nearest the value, the larger on a tie; zero is 0.00e+0. */
  function ToSci(d: Dec): Sci {
    var a := Abs(d.coef);
    if a == 0 then Sci(false, 0, 0)
    else
      var k := DigitCount(a);
      var e := k - 1 - d.scale;
      var n := if k >= 3 then RoundTo(a, k - 3, 0) else a * Pow10(3 - k);
      if n == 1000 then Sci(d.coef < 0, 100, e + 1) else Sci(d.coef < 0, n, e)
  }

  /** The mantissa text d.dd of toExponential(2), with its sign. */
  function MantissaText(x: Sci): string {
    var m := if x.digits == 0 then "000" else NatToString(x.digits);
    (if x.negative then "-" else "") + m[..1] + "." + m[1..]
  }

  /** The exponent text of toExponential: `+` or `-`, then the digits of its size. */
  function ExponentText(x: Sci): string {
    (if x.exponent < 0 then "-" else "+") + NatToString(Abs(x.exponent))
  }

  /** The full toExponential(2) text, mantissa `e` exponent. */
  function ToExponentialText(x: Sci): string {
    MantissaText(x) + "e" + ExponentText(x)
  }
}
