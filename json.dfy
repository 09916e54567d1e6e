/**
 * The JSON values a request body decodes to, as Python's json.loads
 * produces them: None, bool, int, float, str, list and dict.
 */
module Json {

  /**
   * A Python float. Finite values are kept exact (the rounding to a
   * binary double is not modelled); json.loads also yields the three
   * special values for the literals Infinity, -Infinity and NaN.
   */
  datatype Float = Finite(value: real) | Infinity | NegInfinity | NaN

  datatype Json =
    | JNull
    | JBool(b: bool)
    | JInt(i: int)
    | JFloat(f: Float)
    | JString(s: string)
    | JArray(items: seq<Json>)
    | JObject(fields: map<string, Json>)

  /** dict.get(key, default) */
  function Get(fields: map<string, Json>, key: string, default: Json): Json
  {
    if key in fields then fields[key] else default
  }
}
