/** Parsed JSON values and the few JavaScript operations the scripts apply to them:
    property reads, indexing with `[0]` and truthiness. */
module Json {
  import opened Options

  /** A value `JSON.parse` can return. Numbers are reals (JSON numbers are finite; no NaN);
      an object maps each key to its value (the last of repeated keys wins in `JSON.parse`). */
  datatype Json =
    | JNull
    | JBool(b: bool)
    | JNum(n: real)
    | JStr(s: string)
    | JArr(items: seq<Json>)
    | JObj(fields: map<string, Json>)

  /** `v.key` for a non-null `v` and a key that no built-in prototype defines
      (`elements`, `steps`, `result`, `status`, `duration`, `timestamp`, `renames`,
      `start_timestamp`): an own field of an object, `undefined` (None) otherwise. */
  function Field(v: Json, key: string): (r: Option<Json>)
    ensures r.Some? <==> v.JObj? && key in v.fields
    ensures r.Some? ==> r.value == v.fields[key]
  {
    if v.JObj? && key in v.fields then Some(v.fields[key]) else None
  }

  /** `v[0]` for a non-null `v`: the first element of an array, the first character of a
      string (as a one-character string), the field named "0" of an object. */
  function Index0(v: Json): (r: Option<Json>)
    ensures v.JArr? ==> r == (if |v.items| > 0 then Some(v.items[0]) else None)
    ensures v.JStr? ==> r == (if |v.s| > 0 then Some(JStr([v.s[0]])) else None)
    ensures v.JObj? ==> r == Field(v, "0")
    ensures v.JNull? || v.JBool? || v.JNum? ==> r.None?
  {
    match v
    case JArr(xs) => if |xs| > 0 then Some(xs[0]) else None
    case JStr(s) => if |s| > 0 then Some(JStr([s[0]])) else None
    case JObj(_) => Field(v, "0")
    case _ => None
  }

  /** JavaScript truthiness of a value or of `undefined` (None). Arrays and objects are
      truthy even when empty. */
  predicate Truthy(v: Option<Json>) {
    match v
    case None => false
    case Some(JNull) => false
    case Some(JBool(b)) => b
    case Some(JNum(n)) => n != 0.0
    case Some(JStr(s)) => s != ""
    case Some(_) => true
  }
}

/** The parts of a Cucumber JSON report the scripts walk: a report is an array of features,
    a feature's `elements` are its scenarios, a scenario's `steps` its steps. */
module Cucumber {
  import opened Options
  import opened Json

  /** The scenarios of a feature: its `elements` when that is an array, else none. */
  function ScenariosOf(feature: Json): seq<Json> {
    match Field(feature, "elements")
    case Some(JArr(xs)) => xs
    case _ => []
  }

  /** The steps of a scenario: its `steps` when that is an array, else none. */
  function StepsOf(scenario: Json): seq<Json> {
    match Field(scenario, "steps")
    case Some(JArr(xs)) => xs
    case _ => []
  }
}
