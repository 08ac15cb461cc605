/** The JavaScript values that appear in the widget: form-field strings and the
    primitive values of a JSON data row, with the conversions and equality
    operators the widget applies to them. */
module JsValues {
  import opened Wrappers
  import opened JsNumbers

  /** A primitive JavaScript value. A key missing from a JSON object reads as Undefined. */
  datatype JsValue = Undefined | Null | Bool(b: bool) | Num(n: Dec) | Str(s: string)

  /** ToBoolean: undefined, null, false, 0 and "" are falsy, everything else truthy. */
  predicate Truthy(v: JsValue) {
    match v
    case Undefined => false
    case Null => false
    case Bool(b) => b
    case Num(n) => n.coef != 0
    case Str(s) => s != ""
  }

  /** String(v): the conversion applied by template literals, by assignment to
      textContent and by parseFloat. */
  function ToJsString(v: JsValue): string {
    match v
    case Undefined => "undefined"
    case Null => "null"
    case Bool(b) => if b then "true" else "false"
    case Num(n) => NumberToString(n)
    case Str(s) => s
  }

  /** v.toString(): String(v), except that calling a method on null or
      undefined is a TypeError (None). */
  function CallToString(v: JsValue): (r: Option<string>)
    ensures r.None? <==> v.Undefined? || v.Null?
    ensures r.Some? ==> r.value == ToJsString(v)
  {
    match v
    case Undefined => None
    case Null => None
    case _ => Some(ToJsString(v))
  }

  function BoolNumber(b: bool): Dec {
    if b then Dec(1, 0) else Zero
  }

  /** Number(v); None is NaN. */
  function ToNumber(v: JsValue): Option<Dec> {
    match v
    case Undefined => None
    case Null => Some(Zero)
    case Bool(b) => Some(BoolNumber(b))
    case Num(n) => Some(n)
    case Str(s) => StringToNumber(s)
  }

  predicate SameType(x: JsValue, y: JsValue) {
    || (x.Undefined? && y.Undefined?) || (x.Null? && y.Null?) || (x.Bool? && y.Bool?)
    || (x.Num? && y.Num?) || (x.Str? && y.Str?)
  }

  /** Strict equality `===`: same type and same value (numbers compared by value). */
  predicate StrictEquals(x: JsValue, y: JsValue) {
    if x.Num? && y.Num? then SameValue(x.n, y.n) else x == y
  }

  /** A number equals the result of a conversion only when that result is not NaN. */
  predicate NumberEquals(a: Dec, b: Option<Dec>) {
    b.Some? && SameValue(a, b.value)
  }

  /** Loose equality `==` on primitives (IsLooselyEqual): values of one type
      compare strictly; null and undefined equal each other only; a boolean
      turns into 0 or 1 first; a number and a string compare as numbers. */
  predicate LooseEquals(x: JsValue, y: JsValue)
    decreases (if x.Bool? then 1 else 0) + (if y.Bool? then 1 else 0)
  {
    if SameType(x, y) then StrictEquals(x, y)
    else if (x.Undefined? || x.Null?) && (y.Undefined? || y.Null?) then true
    else if x.Bool? then LooseEquals(Num(BoolNumber(x.b)), y)
    else if y.Bool? then LooseEquals(x, Num(BoolNumber(y.b)))
    else if x.Num? && y.Str? then NumberEquals(x.n, StringToNumber(y.s))
    else if x.Str? && y.Num? then NumberEquals(y.n, StringToNumber(x.s))
    else false
  }

  // ---------------------------------------------------------------------------
  // Properties of the equality operators
  // ---------------------------------------------------------------------------

  /** `==` is symmetric on these values. */
  lemma {:induction false} LooseSymmetric(x: JsValue, y: JsValue)
    ensures LooseEquals(x, y) == LooseEquals(y, x)
    decreases (if x.Bool? then 1 else 0) + (if y.Bool? then 1 else 0)
  {
    if SameType(x, y) {
      if x.Num? && y.Num? {
        SameValueSymmetric(x.n, y.n);
      }
    } else if (x.Undefined? || x.Null?) && (y.Undefined? || y.Null?) {
    } else if x.Bool? {
      LooseSymmetric(Num(BoolNumber(x.b)), y);
    } else if y.Bool? {
      LooseSymmetric(x, Num(BoolNumber(y.b)));
    }
  }

  lemma SameValueSymmetric(a: Dec, b: Dec)
    ensures SameValue(a, b) == SameValue(b, a)
  {
  }

  /** Values that are `===` are also `==`; the converse fails across types. */
  lemma StrictImpliesLoose(x: JsValue, y: JsValue)
    requires StrictEquals(x, y)
    ensures LooseEquals(x, y)
    ensures SameType(x, y)
  {
  }

  /** A number equals a string under `==` exactly when Number() reads the
      string as the same value; `===` never holds between them. */
  lemma NumberStringEquality(d: Dec, s: string)
    ensures LooseEquals(Num(d), Str(s)) <==> (StringToNumber(s).Some? && SameValue(d, StringToNumber(s).value))
    ensures !StrictEquals(Num(d), Str(s))
  {
  }
}
