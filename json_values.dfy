/**
 * The values `JSON.parse` yields, and the two JavaScript operations the
 * indexers apply to them: reading a property and the `||` default.
 */
module JsonValues {
  import opened Wrappers

  datatype Json =
    | JNull
    | JBool(b: bool)
    | JNum(n: real)
    | JStr(s: string)
    | JArr(items: seq<Json>)
    | JObj(members: map<string, Json>)

  /**
   * JavaScript truthiness of a property read: `undefined` (None), `null`,
   * `false`, `0` and `""` are falsy, every other parsed value is truthy.
   * (`NaN` cannot come out of `JSON.parse`.)
   */
  predicate Truthy(v: Option<Json>) {
    match v
    case None => false
    case Some(j) =>
      match j
      case JNull => false
      case JBool(b) => b
      case JNum(n) => n != 0.0
      case JStr(s) => s != ""
      case JArr(_) => true
      case JObj(_) => true
  }

  /**
   * `data.key` on a parsed value other than `null`: an object yields its own
   * member, any other value (a string, number, boolean or array) yields
   * `undefined`. None of the keys the indexers read is inherited from a
   * prototype. Reading a property of `null` throws instead; callers test for it.
   */
  function Get(data: Json, key: string): Option<Json> {
    if data.JObj? && key in data.members then Some(data.members[key]) else None
  }

  /** The falsy values of ToBoolean that `JSON.parse` can produce, plus `undefined`. */
  lemma FalsyValues(v: Option<Json>)
    ensures !Truthy(v) <==>
      v == None || v == Some(JNull) || v == Some(JBool(false)) || v == Some(JNum(0.0)) || v == Some(JStr(""))
  {
  }

  /** `v || fallback`: the value read when it is truthy, the fallback otherwise. */
  function OrElse(v: Option<Json>, fallback: Json): (r: Json)
    ensures Truthy(v) ==> Some(r) == v
    ensures !Truthy(v) ==> r == fallback
    ensures Truthy(Some(fallback)) ==> Truthy(Some(r))
  {
    if Truthy(v) then v.value else fallback
  }
}
