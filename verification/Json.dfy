/** JSON values. Numbers are exact; the order of object keys is not modelled. */
module Json {
  datatype Json =
    | JNull
    | JBool(truth: bool)
    | JNumber(number: real)
    | JString(text: string)
    | JArray(elements: seq<Json>)
    | JObject(fields: map<string, Json>)

  const EMPTY_OBJECT := JObject(map[])
}
