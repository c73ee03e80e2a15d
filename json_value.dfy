/**
 * The JSON values the endpoints receive and return, with Python's notion of
 * truthiness (`if x:` / `not x`) on them.  Numbers are integers only.
 */
module JsonValue {

  datatype Json =
    | JNull
    | JBool(b: bool)
    | JNum(n: int)
    | JStr(s: string)
    | JArr(items: seq<Json>)
    | JObj(fields: map<string, Json>)

  /** Python's truth value: None, False, 0, "", [] and {} are false. */
  predicate Truthy(j: Json)
  {
    match j
    case JNull => false
    case JBool(b) => b
    case JNum(n) => n != 0
    case JStr(s) => s != []
    case JArr(a) => a != []
    case JObj(m) => m != map[]
  }

  /** `d.get(key)`: the value stored under `key`, or None when absent. */
  function Get(d: map<string, Json>, key: string): (r: Json)
    ensures key !in d ==> r == JNull
    ensures key in d ==> r == d[key]
  {
    if key in d then d[key] else JNull
  }

  /** The name Python gives the type of a decoded JSON value. */
  function TypeName(j: Json): string
  {
    match j
    case JNull => "NoneType"
    case JBool(_) => "bool"
    case JNum(_) => "int"
    case JStr(_) => "str"
    case JArr(_) => "list"
    case JObj(_) => "dict"
  }

  /** The text of the AttributeError Python raises for `x.attr` when x lacks it. */
  function NoAttribute(typeName: string, attr: string): string
  {
    "'" + typeName + "' object has no attribute '" + attr + "'"
  }

  /** The `{"description": ...}` object the endpoints put under `errors`. */
  function Description(text: string): (r: Json)
    ensures Truthy(r)
  {
    var m := map["description" := JStr(text)];
    assert "description" in m;
    JObj(m)
  }
}
