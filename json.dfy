/**
 * An already-parsed JSON document and the `org.json` accessors the feed parser uses.
 *
 * Numbers are integers; `org.json` keeps an integral number that fits in 64 bits as a `Long`,
 * and only such numbers are accepted by `GetLong`/`GetInt`. String and number coercions of
 * `org.json` are not modelled: a string accessor accepts only a string value.
 */
module Json {
  import opened Wrappers

  datatype Json =
    | JNull
    | JBool(b: bool)
    | JInt(i: int)
    | JStr(s: string)
    | JArr(a: seq<Json>)
    | JObj(o: map<string, Json>)

  /** The `JSONException` cases the accessors raise. */
  datatype JsonError =
    | NotAnObject            // the document or an array element is not an object
    | NotAString             // an array element is not a string
    | MissingKey(key: string)
    | WrongType(key: string)

  const MIN_LONG: int := -0x8000_0000_0000_0000
  const MAX_LONG: int := 0x7FFF_FFFF_FFFF_FFFF
  const MIN_INT: int := -0x8000_0000
  const MAX_INT: int := 0x7FFF_FFFF

  predicate InLongRange(x: int) {
    MIN_LONG <= x <= MAX_LONG
  }

  const TWO_64: int := 0x1_0000_0000_0000_0000
  const TWO_32: int := 0x1_0000_0000

  /** `Long` multiplication, which wraps around to 64 bits on overflow. */
  function LongMul(x: int, y: int): (r: int)
    ensures MIN_LONG <= r <= MAX_LONG
    ensures (r - x * y) % TWO_64 == 0
    ensures InLongRange(x * y) ==> r == x * y
  {
    var p := x * y;
    var u := p % TWO_64;
    assert p == (p / TWO_64) * TWO_64 + u;
    if u > MAX_LONG then u - TWO_64 else u
  }

  /** `Number.intValue()` on a `Long`: keeps the low 32 bits. */
  function LongToInt(x: int): (r: int)
    ensures MIN_INT <= r <= MAX_INT
    ensures (r - x) % TWO_32 == 0
    ensures MIN_INT <= x <= MAX_INT ==> r == x
  {
    var u := x % TWO_32;
    assert x == (x / TWO_32) * TWO_32 + u;
    if u > MAX_INT then u - TWO_32 else u
  }

  /** `JSONObject.getString(key)`. */
  function GetString(o: map<string, Json>, key: string): (r: Result<string, JsonError>)
    ensures r.Success? <==> key in o && o[key].JStr?
    ensures r.Success? ==> o[key] == JStr(r.value)
    ensures key !in o ==> r == Failure(MissingKey(key))
  {
    if key !in o then Failure(MissingKey(key))
    else match o[key]
      case JStr(s) => Success(s)
      case _ => Failure(WrongType(key))
  }

  /** `JSONObject.getJSONArray(key)`. */
  function GetArray(o: map<string, Json>, key: string): (r: Result<seq<Json>, JsonError>)
    ensures r.Success? <==> key in o && o[key].JArr?
    ensures r.Success? ==> o[key] == JArr(r.value)
    ensures key !in o ==> r == Failure(MissingKey(key))
  {
    if key !in o then Failure(MissingKey(key))
    else match o[key]
      case JArr(a) => Success(a)
      case _ => Failure(WrongType(key))
  }

  /** `JSONObject.optJSONArray(key)`: `null` when the key is absent or not an array. */
  function OptArray(o: map<string, Json>, key: string): (r: Option<seq<Json>>)
    ensures r.Some? <==> key in o && o[key].JArr?
    ensures r.Some? ==> o[key] == JArr(r.value)
  {
    if key in o && o[key].JArr? then Some(o[key].a) else None
  }

  /** `JSONObject.getLong(key)`. */
  function GetLong(o: map<string, Json>, key: string): (r: Result<int, JsonError>)
    ensures r.Success? <==> key in o && o[key].JInt? && InLongRange(o[key].i)
    ensures r.Success? ==> o[key] == JInt(r.value)
    ensures key !in o ==> r == Failure(MissingKey(key))
  {
    if key !in o then Failure(MissingKey(key))
    else match o[key]
      case JInt(i) => if InLongRange(i) then Success(i) else Failure(WrongType(key))
      case _ => Failure(WrongType(key))
  }

  /** `JSONObject.getInt(key)`: the stored `Long`, narrowed to 32 bits. */
  function GetInt(o: map<string, Json>, key: string): (r: Result<int, JsonError>)
    ensures r.Success? <==> key in o && o[key].JInt? && InLongRange(o[key].i)
    ensures r.Success? ==> MIN_INT <= r.value <= MAX_INT && r.value == LongToInt(o[key].i)
  {
    var v :- GetLong(o, key);
    Success(LongToInt(v))
  }

  /** `JSONArray.getJSONObject(i)` applied to an element. */
  function AsObject(j: Json): (r: Result<map<string, Json>, JsonError>)
    ensures r.Success? <==> j.JObj?
    ensures r.Success? ==> j == JObj(r.value)
  {
    if j.JObj? then Success(j.o) else Failure(NotAnObject)
  }

  /** `JSONArray.getString(i)` applied to an element. */
  function AsString(j: Json): (r: Result<string, JsonError>)
    ensures r.Success? <==> j.JStr?
    ensures r.Success? ==> j == JStr(r.value)
  {
    if j.JStr? then Success(j.s) else Failure(NotAString)
  }
}
