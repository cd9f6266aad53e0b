/**
 * JavaScript values as `JSON.parse` and `response.json()` produce them, with
 * `undefined` for a property that is not there, and the few JavaScript operations
 * the job-feed code applies to them: property access, truthiness, `??` and `String(v)`.
 */
module JsonValue {
  import opened Wrappers
  import opened JsText

  /** A parsed JSON value. Numbers are integers here (see the README). */
  datatype Json =
    | Undefined
    | Null
    | Bool(b: bool)
    | Num(n: int)
    | Str(s: string)
    | Arr(items: seq<Json>)
    | Obj(fields: map<string, Json>)

  /** `null` or `undefined`: the values `??` replaces, and the ones whose property
      access throws a `TypeError`. */
  predicate Nullish(v: Json) {
    v.Null? || v.Undefined?
  }

  /** `v[key]` for a value that does not throw: an object's own field, otherwise
      `undefined` (the keys read by the feed code are not inherited names). */
  function Field(v: Json, key: string): (r: Json)
    requires !Nullish(v)
    ensures !v.Obj? ==> r == Undefined
    ensures v.Obj? && key !in v.fields ==> r == Undefined
    ensures v.Obj? && key in v.fields ==> r == v.fields[key]
  {
    if v.Obj? && key in v.fields then v.fields[key] else Undefined
  }

  /** JavaScript truthiness: `undefined`, `null`, `false`, `0` and `""` are falsy. */
  predicate Truthy(v: Json) {
    match v
    case Undefined => false
    case Null => false
    case Bool(b) => b
    case Num(n) => n != 0
    case Str(s) => s != []
    case Arr(_) => true
    case Obj(_) => true
  }

  /** `v ?? d`: `d` exactly when `v` is `null` or `undefined`. */
  function Coalesce(v: Json, d: Json): (r: Json)
    ensures Nullish(v) ==> r == d
    ensures !Nullish(v) ==> r == v
  {
    if Nullish(v) then d else v
  }

  /** `??` never yields a nullish value when its default is not nullish, applying
      the same default twice changes nothing, and chained `??` groups either way. */
  lemma CoalesceLaws(v: Json, w: Json, d: Json)
    ensures !Nullish(d) ==> !Nullish(Coalesce(v, d))
    ensures Coalesce(Coalesce(v, d), d) == Coalesce(v, d)
    ensures Coalesce(v, Coalesce(w, d)) == Coalesce(Coalesce(v, w), d)
  {
  }

  /** `String(v)` for a value that is not an array. */
  function ToJsString(v: Json): (r: string)
    requires !v.Arr?
    ensures v.Str? ==> r == v.s
    ensures v.Num? ==> ParseInt(r) == Some(v.n)
  {
    match v
    case Undefined => "undefined"
    case Null => "null"
    case Bool(b) => if b then "true" else "false"
    case Num(n) => ParseIntToString(n); IntToString(n)
    case Str(s) => s
    case Obj(_) => "[object Object]"
  }
}
