/**
 The JavaScript values that appear as form fields and as fields of the
 records the asset store returns, and the few operators the application
 applies to them: property access, `??`, truthiness and `String(v)`; and
 the success test of a `fetch` reply.
 */
module JsValues {

  /** A field value. `Num` holds a finite number: JSON has no literal for
      NaN or the infinities, and a literal too large for a double (which
      parses as an infinity) is left out with the rest of floating point. */
  datatype RawValue = Undefined | Null | Bool(b: bool) | Num(x: real) | Str(s: string)

  /** A plain object; a key that is absent reads as `undefined`. */
  type Record = map<string, RawValue>

  /** Property access `o[key]`. */
  function Get(o: Record, key: string): (v: RawValue)
    ensures key !in o ==> v == Undefined
  {
    if key in o then o[key] else Undefined
  }

  /** The values `??` skips. */
  predicate IsNullish(v: RawValue) {
    v.Undefined? || v.Null?
  }

  /** JavaScript truthiness: false for `undefined`, `null`, `false`, `0` and `""`. */
  predicate IsTruthy(v: RawValue) {
    match v
    case Undefined => false
    case Null => false
    case Bool(b) => b
    case Num(x) => x != 0.0
    case Str(s) => s != ""
  }

  /** `String(v)` for every value other than a number. */
  function ToText(v: RawValue): string
    requires !v.Num?
  {
    match v
    case Undefined => "undefined"
    case Null => "null"
    case Bool(b) => if b then "true" else "false"
    case Str(s) => s
  }

  /** `Response.ok` of a `fetch` reply: a status in the 2xx range. */
  predicate IsOk(status: int) {
    200 <= status <= 299
  }

  /** `vs[0] ?? vs[1] ?? ... ?? vs[n-1]`: the first value that is neither
      `null` nor `undefined`, or the last value when all of them are. */
  function Coalesce(vs: seq<RawValue>): (r: RawValue)
    requires |vs| > 0
    ensures IsNullish(r) <==> forall i :: 0 <= i < |vs| ==> IsNullish(vs[i])
    ensures forall i ::
              (0 <= i < |vs| && !IsNullish(vs[i]) && forall j :: 0 <= j < i ==> IsNullish(vs[j]))
              ==> r == vs[i]
    decreases |vs|
  {
    if |vs| == 1 || !IsNullish(vs[0]) then vs[0] else Coalesce(vs[1..])
  }
}
