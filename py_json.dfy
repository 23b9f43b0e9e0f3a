/**
 * The Python values json.loads produces, and the few operations the
 * fetchers apply to them, with the exceptions Python raises. Python's None
 * and JSON null are the same value, JNull.
 */
module PyJson {
  import opened Wrappers

  datatype Json =
    | JNull
    | JBool(b: bool)
    | JNum(x: real)
    | JStr(s: string)
    | JArr(items: seq<Json>)
    | JObj(fields: map<string, Json>)

  datatype PyError = AttributeError | TypeError | KeyError | IndexError

  /** Python's truth value of the object. */
  predicate Truthy(v: Json)
  {
    match v
    case JNull => false
    case JBool(b) => b
    case JNum(x) => x != 0.0
    case JStr(s) => s != []
    case JArr(items) => items != []
    case JObj(fields) => |fields| != 0
  }

  /** len(v): defined on strings, lists and dicts; TypeError on the rest. */
  function Len(v: Json): (r: Result<nat, PyError>)
    ensures r.Failure? <==> v.JNull? || v.JBool? || v.JNum?
    ensures r.Failure? ==> r.error == TypeError
  {
    match v
    case JStr(s) => Success(|s|)
    case JArr(items) => Success(|items|)
    case JObj(fields) => Success(|fields|)
    case _ => Failure(TypeError)
  }

  /** An object with a length is truthy exactly when that length is not zero. */
  lemma LenTruthy(v: Json)
    requires Len(v).Success?
    ensures Truthy(v) <==> Len(v).value != 0
  {
  }

  /** v.get(key, default): the value under key, or default; AttributeError when v is not a dict. */
  function Get(v: Json, key: string, default: Json): (r: Result<Json, PyError>)
    ensures r.Success? <==> v.JObj?
    ensures r.Failure? ==> r.error == AttributeError
    ensures r.Success? && key in v.fields ==> r.value == v.fields[key]
    ensures r.Success? && key !in v.fields ==> r.value == default
  {
    match v
    case JObj(fields) => Success(if key in fields then fields[key] else default)
    case _ => Failure(AttributeError)
  }

  /**
   * v[0]: the first item of a list or the first character of a string,
   * IndexError when either is empty, KeyError on a dict (its keys are
   * strings), TypeError on the rest.
   */
  function First(v: Json): (r: Result<Json, PyError>)
    ensures r.Success? <==> (v.JArr? && v.items != []) || (v.JStr? && v.s != [])
    ensures r.Success? && v.JArr? ==> r.value == v.items[0]
    ensures r.Success? && v.JStr? ==> r.value == JStr([v.s[0]])
    ensures (v.JArr? && v.items == []) || (v.JStr? && v.s == []) ==> r == Failure(IndexError)
    ensures v.JObj? ==> r == Failure(KeyError)
    ensures v.JNull? || v.JBool? || v.JNum? ==> r == Failure(TypeError)
  {
    match v
    case JArr(items) => if items == [] then Failure(IndexError) else Success(items[0])
    case JStr(s) => if s == [] then Failure(IndexError) else Success(JStr([s[0]]))
    case JObj(_) => Failure(KeyError)
    case _ => Failure(TypeError)
  }

  /** v[key] with a string key: the value of a dict, KeyError when missing, TypeError on the rest. */
  function Field(v: Json, key: string): (r: Result<Json, PyError>)
    ensures r.Success? <==> v.JObj? && key in v.fields
    ensures r.Success? ==> r.value == v.fields[key]
  {
    match v
    case JObj(fields) => if key in fields then Success(fields[key]) else Failure(KeyError)
    case _ => Failure(TypeError)
  }
}
