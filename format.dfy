/** The two display formatters of the widget: permeabilities in scientific
    notation with superscript exponent digits, and fixed-decimal values with a
    zero fallback. */
module Format {
  import opened Wrappers
  import opened Text
  import opened JsNumbers
  import opened JsValues
  import opened Readback
  import opened Rounding

  // ---------------------------------------------------------------------------
  // Superscript exponent
  // ---------------------------------------------------------------------------

  /** The superscript glyph of `-` and of each decimal digit; any other
      character is kept as it is. */
  function Sup(c: char): char {
    match c
    case '-' => '\U{207B}'
    case '0' => '\U{2070}'
    case '1' => '\U{B9}'
    case '2' => '\U{B2}'
    case '3' => '\U{B3}'
    case '4' => '\U{2074}'
    case '5' => '\U{2075}'
    case '6' => '\U{2076}'
    case '7' => '\U{2077}'
    case '8' => '\U{2078}'
    case '9' => '\U{2079}'
    case _ => c
  }

  /** The character a superscript glyph stands for. */
  function Unsup(c: char): char {
    match c
    case '\U{207B}' => '-'
    case '\U{2070}' => '0'
    case '\U{B9}' => '1'
    case '\U{B2}' => '2'
    case '\U{B3}' => '3'
    case '\U{2074}' => '4'
    case '\U{2075}' => '5'
    case '\U{2076}' => '6'
    case '\U{2077}' => '7'
    case '\U{2078}' => '8'
    case '\U{2079}' => '9'
    case _ => c
  }

  /** The characters an integer's decimal text is made of. */
  predicate IsSignOrDigit(c: char) {
    c == '-' || IsDigit(c)
  }

  /** Each character mapped through the superscript table, in order. */
  function Superscript(s: string): (r: string)
    ensures |r| == |s|
    ensures forall i :: 0 <= i < |s| ==> r[i] == Sup(s[i])
  {
    if s == [] then [] else [Sup(s[0])] + Superscript(s[1..])
  }

  function Plain(s: string): (r: string)
    ensures |r| == |s|
    ensures forall i :: 0 <= i < |s| ==> r[i] == Unsup(s[i])
  {
    if s == [] then [] else [Unsup(s[0])] + Plain(s[1..])
  }

  /** The superscript text of an exponent can be read back: no two of its
      characters share a glyph, and every glyph differs from plain text. */
  lemma SuperscriptReadsBack(s: string)
    requires forall i :: 0 <= i < |s| ==> IsSignOrDigit(s[i])
    ensures Plain(Superscript(s)) == s
    ensures forall i :: 0 <= i < |s| ==> !IsSignOrDigit(Superscript(s)[i])
  {
    var r := Superscript(s);
    forall i | 0 <= i < |s|
      ensures Plain(r)[i] == s[i] && !IsSignOrDigit(r[i])
    {
      SupOfSignOrDigit(s[i]);
    }
  }

  lemma SupOfSignOrDigit(c: char)
    requires IsSignOrDigit(c)
    ensures Unsup(Sup(c)) == c && !IsSignOrDigit(Sup(c))
  {
  }

  // ---------------------------------------------------------------------------
  // formatPower
  // ---------------------------------------------------------------------------

  /** The display of a permeability: "-" for null, undefined, "-" and "";
      a value Number() cannot read is shown as it is; any other value is
      written as toExponential(2) gives it, the mantissa followed by " × 10"
      and the exponent in superscript. */
  function FormatPower(val: JsValue): string {
    if val.Null? || val.Undefined? || val == Str("-") || val == Str("") then "-"
    else
      match ToNumber(val)
      case None => ToJsString(val)
      case Some(num) =>
        var parts := SplitOn(ToExponentialText(ToSci(num)), 'e');
        var base := parts[0];
        var power := if |parts| > 1 then StringToNumber(parts[1]) else None;
        var powerStr := match power
          case Some(p) => NumberToString(p)
          case None => "NaN";
        base + " \U{D7} 10" + Superscript(powerStr)
  }

  // ---------------------------------------------------------------------------
  // formatFS
  // ---------------------------------------------------------------------------

  /** The zero text shown for a missing value: three decimals when three were
      asked for, one decimal for any other count. */
  function ZeroText(digits: nat): string {
    if digits == 3 then "0.000" else "0.0"
  }

  /** The display of a factor of safety or displacement: the zero text for a
      falsy value, for "N/A" and for a value parseFloat cannot read; otherwise
      the parsed number with `digits` decimals. */
  function FormatFS(value: JsValue, digits: nat): string {
    if !Truthy(value) || value == Str("N/A") then ZeroText(digits)
    else
      match ParseFloat(ToJsString(value))
      case None => ZeroText(digits)
      case Some(n) => ToFixed(n, digits)
  }

  // ---------------------------------------------------------------------------
  // What the formatters show
  // ---------------------------------------------------------------------------

  lemma NoLetterE(s: string)
    requires forall i :: 0 <= i < |s| ==> IsDigit(s[i]) || s[i] in "+-."
    ensures 'e' !in s
  {
    forall i | 0 <= i < |s|
      ensures s[i] != 'e'
    {
    }
  }

  /** The toExponential(2) text splits at its one `e` into mantissa and
      exponent. */
  lemma SplitExponential(x: Sci)
    ensures SplitOn(ToExponentialText(x), 'e') == [MantissaText(x), ExponentText(x)]
  {
    var m := if x.digits == 0 then "000" else NatToString(x.digits);
    var sign: string := if x.negative then "-" else "";
    assert MantissaText(x) == sign + m[..1] + "." + m[1..];
    NoLetterE(MantissaText(x));
    var es: string := if x.exponent < 0 then "-" else "+";
    assert ExponentText(x) == es + NatToString(Abs(x.exponent));
    NoLetterE(ExponentText(x));
    SplitOnce(MantissaText(x), 'e', ExponentText(x));
  }

  lemma IntTextChars(i: int)
    ensures forall k :: 0 <= k < |IntToString(i)| ==> IsSignOrDigit(IntToString(i)[k])
  {
  }

  /** formatPower of a value that Number() reads as d: the mantissa of
      toExponential(2), " × 10", then the decimal text of the exponent (with
      `-` only when it is negative) in superscript, which reads back as that
      text. */
  lemma FormatPowerOfNumber(val: JsValue, d: Dec)
    requires !(val.Null? || val.Undefined? || val == Str("-") || val == Str(""))
    requires ToNumber(val) == Some(d)
    ensures var x := ToSci(d);
      FormatPower(val) == MantissaText(x) + " \U{D7} 10" + Superscript(IntToString(x.exponent))
    ensures var x := ToSci(d);
      Plain(Superscript(IntToString(x.exponent))) == IntToString(x.exponent)
  {
    var x := ToSci(d);
    SplitExponential(x);
    ExponentTextNumber(x);
    IntegerText(x.exponent);
    IntTextChars(x.exponent);
    SuperscriptReadsBack(IntToString(x.exponent));
  }

  /** The sentinels null, undefined, "-" and "" show as "-", and a value
      Number() cannot read is shown as its own text. */
  lemma FormatPowerFallbacks(val: JsValue)
    ensures val.Null? || val.Undefined? || val == Str("-") || val == Str("") ==> FormatPower(val) == "-"
    ensures !(val.Null? || val.Undefined? || val == Str("-") || val == Str("")) && ToNumber(val).None?
            ==> FormatPower(val) == ToJsString(val)
  {
  }

  /** formatFS of a non-zero number is toFixed of that number: String() and
      parseFloat give back the same value, and toFixed does not depend on how
      the value is written. */
  lemma FormatFSIsToFixed(d: Dec, digits: nat)
    requires d.coef != 0
    ensures FormatFS(Num(d), digits) == ToFixed(d, digits)
  {
    var c := Canonical(d);
    assert ParseFloat(ToJsString(Num(d))) == Some(c) by {
      NumberTextReadsBack(d);
    }
    assert Truthy(Num(d)) && Num(d) != Str("N/A");
    assert FormatFS(Num(d), digits) == ToFixed(c, digits);
    ToFixedCanonical(d, digits);
  }

  /** The text formatFS shows for a non-zero number reads back as the number
      rounded to `digits` decimals. */
  lemma FormatFSOfNumber(d: Dec, digits: nat)
    requires d.coef != 0
    ensures ParseFloat(FormatFS(Num(d), digits)) == Some(Rounded(d, digits))
  {
    FormatFSIsToFixed(d, digits);
    ToFixedReadsBack(d, digits);
  }

  /** formatFS of a text other than "" and "N/A" that parseFloat reads as v
      is toFixed of v, and it reads back as v rounded to `digits` decimals. */
  lemma FormatFSOfText(s: string, v: Dec, digits: nat)
    requires s != "" && s != "N/A" && ParseFloat(s) == Some(v)
    ensures FormatFS(Str(s), digits) == ToFixed(v, digits)
    ensures ParseFloat(FormatFS(Str(s), digits)) == Some(Rounded(v, digits))
  {
    assert Truthy(Str(s)) && ToJsString(Str(s)) == s;
    assert FormatFS(Str(s), digits) == ToFixed(v, digits);
    ToFixedReadsBack(v, digits);
  }

  /** The zero fallback: three decimals when three are asked for and one
      decimal otherwise, for a falsy value, for "N/A" and for text parseFloat
      cannot read. */
  lemma FormatFSFallbacks(value: JsValue, digits: nat)
    ensures !Truthy(value) || value == Str("N/A") ==> FormatFS(value, digits) == ZeroText(digits)
    ensures ParseFloat(ToJsString(value)).None? ==> FormatFS(value, digits) == ZeroText(digits)
    ensures digits == 3 ==> ZeroText(digits) == "0.000"
    ensures digits != 3 ==> ZeroText(digits) == "0.0"
  {
  }
}
