/** The conventional optional value: `None` stands for JavaScript's `undefined`/`null` results. */
module Options {

  datatype Option<+T> = None | Some(value: T)
}

/**
  JavaScript values as a tagged union, with the handful of language
  operations the service relies on: `typeof`, truthiness, optional property
  access, loose comparison with `null`, and template-literal rendering.
  Numbers are exact reals: NaN, infinities and negative zero are not
  represented.
 */
module JsValues {
  import Text

  datatype JsValue =
    | Undef
    | Null
    | Bool(b: bool)
    | Num(n: real)
    | Str(s: string)
    | Arr(elems: seq<JsValue>)
    | Obj(fields: map<string, JsValue>)

  /** The string the `typeof` operator yields. */
  function TypeOf(v: JsValue): string
  {
    match v
    case Undef => "undefined"
    case Null => "object"
    case Bool(_) => "boolean"
    case Num(_) => "number"
    case Str(_) => "string"
    case Arr(_) => "object"
    case Obj(_) => "object"
  }

  /** What `!!v` yields: `undefined`, `null`, `false`, `0` and `""` are falsy, every object is truthy. */
  predicate Truthy(v: JsValue)
  {
    match v
    case Undef => false
    case Null => false
    case Bool(b) => b
    case Num(n) => n != 0.0
    case Str(s) => s != ""
    case Arr(_) => true
    case Obj(_) => true
  }

  /** `v == null` under loose equality: true exactly for `null` and `undefined`. */
  predicate IsNullish(v: JsValue)
  {
    v.Null? || v.Undef?
  }

  /**
    Loose equality `a == b` for the operands the service compares. Exact for
    two nullish values and for two primitives of the same type; two objects
    are never the same reference here, and the coercions between a string
    and a number, boolean or object are not modelled (they give false).
   */
  predicate LooseEquals(a: JsValue, b: JsValue)
  {
    if IsNullish(a) || IsNullish(b) then IsNullish(a) && IsNullish(b)
    else match (a, b)
      case (Str(x), Str(y)) => x == y
      case (Num(x), Num(y)) => x == y
      case (Bool(x), Bool(y)) => x == y
      case _ => false
  }

  /** The field of a plain object, `undefined` when it is absent: `o[key]`, and `o?.key` on a nullish `o`. */
  function Field(o: map<string, JsValue>, key: string): JsValue
  {
    if key in o then o[key] else Undef
  }

  /** Optional property access `v?.key`: only objects carry the properties the service reads. */
  function Prop(v: JsValue, key: string): (r: JsValue)
    ensures !v.Obj? ==> r == Undef
  {
    match v
    case Obj(f) => Field(f, key)
    case _ => Undef
  }

  /** The own fields `{...v}` copies from `v` that a reader by name can see; only objects carry named fields. */
  function OwnFields(v: JsValue): (fields: map<string, JsValue>)
    ensures forall key :: Field(fields, key) == Prop(v, key)
  {
    if v.Obj? then v.fields else map[]
  }

  /** An object literal `{ key: value }`. */
  function Single(key: string, value: JsValue): (r: JsValue)
    ensures Prop(r, key) == value
  {
    Obj(map[key := value])
  }

  /** Up to `limit` decimal digits of the fraction `f`, stopping as soon as the rest is zero. */
  function FractionDigits(f: real, limit: nat): string
    requires 0.0 <= f < 1.0
    decreases limit
  {
    if limit == 0 || f == 0.0 then ""
    else
      var d := (f * 10.0).Floor;
      [Text.Digit(d)] + FractionDigits(f * 10.0 - d as real, limit - 1)
  }

  /**
    `String(n)` for a number: sign, integer part and the decimal fraction.
    Matches JavaScript for zero and for numbers whose magnitude is at least
    1e-6 and below 1e21 and whose decimal expansion has at most 17
    fractional digits; outside that range JavaScript switches to exponent
    notation.
   */
  function NumberText(n: real): string
  {
    if n < 0.0 then "-" + MagnitudeText(-n) else MagnitudeText(n)
  }

  function MagnitudeText(n: real): string
    requires 0.0 <= n
  {
    var whole := n.Floor;
    var fraction := n - whole as real;
    Text.IntText(whole) + (if fraction == 0.0 then "" else "." + FractionDigits(fraction, 17))
  }

  /** What a template literal `${v}` produces. */
  function Render(v: JsValue): string
    decreases v
  {
    match v
    case Undef => "undefined"
    case Null => "null"
    case Bool(b) => if b then "true" else "false"
    case Num(n) => NumberText(n)
    case Str(s) => s
    case Arr(es) => Text.Join(RenderElements(es), ",")
    case Obj(_) => "[object Object]"
  }

  /** The parts `Array.prototype.join` glues together: nullish elements become empty. */
  function RenderElements(es: seq<JsValue>): (parts: seq<string>)
    ensures |parts| == |es|
    decreases es
  {
    if |es| == 0 then []
    else [if IsNullish(es[0]) then "" else Render(es[0])] + RenderElements(es[1..])
  }

  /** Rendering a string is the identity, so a string value survives `${v}` unchanged. */
  lemma RenderString(v: JsValue)
    requires TypeOf(v) == "string"
    ensures Render(v) == v.s
  {
  }
}
