/** JSON values as the node sees them: request bodies, responses and output records. */
module Values {

  /** A JSON value. Numbers are restricted to integers (see README, "Left out"). */
  datatype Json =
    | JNull
    | JBool(b: bool)
    | JNumber(n: int)
    | JString(s: string)
    | JArray(elems: seq<Json>)
    | JObject(fields: map<string, Json>)
}
