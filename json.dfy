/** JSON values, the shape of request and response bodies. A body that
    `request.json()` could not read is modelled by the callers as `None`. */
module JsonValues {

  datatype Json =
    | JNull
    | JBool(b: bool)
    | JNum(n: real)
    | JString(s: string)
    | JArray(items: seq<Json>)
    | JObject(fields: map<string, Json>)
}
