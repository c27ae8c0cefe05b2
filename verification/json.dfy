/** JSON values as the server builds and reads them. Serialisation to text
    (`json.dumps`) and parsing (`json.loads`) are not modelled byte for byte:
    a stored payload is its value, and a parser is passed in where text is
    read. Floating-point numbers do not occur in the modelled payloads. */
module Json {
  import opened Wrappers

  datatype Json =
    | JNull
    | JBool(b: bool)
    | JInt(i: int)
    | JStr(s: string)
    | JArray(items: seq<Json>)
    | JObject(fields: map<string, Json>)

  /** Python's `None` or an integer, as `json.dumps` writes it. */
  function OptionalInt(v: Option<int>): (r: Json)
    ensures r == JNull <==> v.None?
  {
    match v
    case None => JNull
    case Some(i) => JInt(i)
  }
}
