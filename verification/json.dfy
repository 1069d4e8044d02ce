/** The JSON values a response body can parse to, and the few JavaScript
    operations the client applies to them: optional property access
    (`payload?.message`), nullish fallback (`??`), truthiness, and the string
    conversion `new Error(value)` applies to its message argument. Numbers are
    integers here (see README, "Left out"). */
module Json {
  import opened Wrappers
  import Strings

  /** A parsed JSON value. Object members keep their textual order and may repeat a key. */
  datatype Json =
    | JNull
    | JBool(b: bool)
    | JNum(n: int)
    | JStr(s: string)
    | JArr(items: seq<Json>)
    | JObj(fields: seq<(string, Json)>)

  /** The value kept for `key` in an association list where a later entry overrides an
      earlier one, as `JSON.parse` does with a repeated member and an object literal with
      a repeated key. */
  function LastValue<V>(fields: seq<(string, V)>, key: string): (r: Option<V>)
    ensures r.None? <==> forall i :: 0 <= i < |fields| ==> fields[i].0 != key
    ensures r.Some? ==> exists i :: 0 <= i < |fields| && fields[i] == (key, r.value)
                                  && forall j :: i < j < |fields| ==> fields[j].0 != key
  {
    if |fields| == 0 then None
    else if fields[|fields| - 1].0 == key then Some(fields[|fields| - 1].1)
    else LastValue(fields[..|fields| - 1], key)
  }

  /** `v.key` on a parsed value that is neither `undefined` nor `null`. Only objects
      carry the keys the client reads (`message`, `ok`, `has_paid`, `items`). */
  function Member(v: Json, key: string): Option<Json> {
    match v
    case JObj(fields) => LastValue(fields, key)
    case _ => None
  }

  /** `payload?.key`: absent when the payload is `undefined` or `null`. */
  function OptionalMember(payload: Option<Json>, key: string): Option<Json> {
    match payload
    case None => None
    case Some(JNull) => None
    case Some(v) => Member(v, key)
  }

  /** Drops a `null` value, so that `NonNullish(x).GetOr(d)` is JavaScript's `x ?? d`. */
  function NonNullish(x: Option<Json>): (r: Option<Json>)
    ensures r.Some? <==> x.Some? && x.value != JNull
    ensures r.Some? ==> r.value == x.value
  {
    if x == Some(JNull) then None else x
  }

  /** JavaScript truthiness of a JSON value. */
  predicate Truthy(v: Json) {
    match v
    case JNull => false
    case JBool(b) => b
    case JNum(n) => n != 0
    case JStr(s) => s != ""
    case JArr(_) => true
    case JObj(_) => true
  }

  /** JavaScript truthiness of an optional string (`undefined` or a string). */
  predicate TruthyText(s: Option<string>) {
    s.Some? && Truthy(JStr(s.value))
  }

  /** `String(v)`: the conversion the `Error` constructor applies to a message that is
      not a string. Arrays join their elements with commas, `null` elements becoming "". */
  function ToJsString(v: Json): string
    decreases v
  {
    match v
    case JNull => "null"
    case JBool(b) => if b then "true" else "false"
    case JNum(n) => Strings.IntToString(n)
    case JStr(s) => s
    case JArr(items) =>
      Strings.Join(seq(|items|, i requires 0 <= i < |items| =>
        if items[i] == JNull then "" else ToJsString(items[i])), ",")
    case JObj(_) => "[object Object]"
  }

  /** The message an error built from `payload?.message ?? fallback` carries: the
      server's message when it is present and not `null`, else `fallback`. */
  function MessageOr(payload: Option<Json>, fallback: string): (r: string)
    ensures NonNullish(OptionalMember(payload, "message")).None? ==> r == fallback
    ensures forall m :: OptionalMember(payload, "message") == Some(JStr(m)) ==> r == m
  {
    match NonNullish(OptionalMember(payload, "message"))
    case None => fallback
    case Some(m) => ToJsString(m)
  }
}
