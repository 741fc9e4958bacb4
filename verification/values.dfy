/** Values that cross the wire: socket payloads arrive as parsed JSON, and the
    server reads their fields with JavaScript's `obj.key` and `x || default`. */
module Values {

  datatype Option<+T> = None | Some(value: T)

  /** A parsed JSON value. `JNum` holds a finite number as a real. A literal
      such as `1e400` parses to an infinity, which this type cannot hold, and
      `-0` parses to negative zero, which it does not separate from 0.0. An
      absent socket argument behaves like `JNull` wherever this model reads it. */
  datatype Json =
    | JNull
    | JBool(b: bool)
    | JNum(n: real)
    | JStr(s: string)
    | JArr(items: seq<Json>)
    | JObj(fields: map<string, Json>)

  /** JavaScript's ToBoolean on a JSON value: null, false, 0 and "" are falsy;
      every array and object, even an empty one, is truthy. */
  predicate Truthy(v: Json) {
    match v
    case JNull => false
    case JBool(b) => b
    case JNum(n) => n != 0.0
    case JStr(s) => |s| > 0
    case JArr(_) => true
    case JObj(_) => true
  }

  /** Property read `v.key` on a value that is not null; `None` is `undefined`.
      Only objects have own data properties under the keys the server reads. */
  function Property(v: Json, key: string): (r: Option<Json>)
    ensures r.Some? <==> v.JObj? && key in v.fields
    ensures r.Some? ==> r.value == v.fields[key]
  {
    match v
    case JObj(m) => if key in m then Some(m[key]) else None
    case _ => None
  }

  /** A field read looks at that key alone: removing other keys from an object
      does not change what `v.key` reads. */
  lemma PropertyIgnoresOtherKeys(m: map<string, Json>, drop: set<string>, key: string)
    requires key !in drop
    ensures Property(JObj(m - drop), key) == Property(JObj(m), key)
  {
    assert key in m - drop <==> key in m;
  }

  /** The meaning of `a || d` when `a` may be `undefined`. */
  ghost predicate FallsBack(a: Option<Json>, d: Json, r: Json) {
    if a.Some? && Truthy(a.value) then r == a.value else r == d
  }

  /** `a || d`: the read value when it is truthy, the default otherwise. */
  function OrElse(a: Option<Json>, d: Json): (r: Json)
    ensures FallsBack(a, d, r)
    ensures Truthy(d) ==> Truthy(r)
  {
    match a
    case Some(v) => if Truthy(v) then v else d
    case None => d
  }
}
