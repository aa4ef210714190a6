/** JSON values as trees. */
module Json {
  /** A number is carried as the text JavaScript prints for it; an object keeps its entries in their own order. */
  datatype Json =
    | JNull
    | JBool(value: bool)
    | JNumber(text: string)
    | JString(text: string)
    | JArray(items: seq<Json>)
    | JObject(entries: seq<Entry>)

  datatype Entry = Entry(key: string, value: Json)

  predicate IsNumberChar(c: char) { '0' <= c <= '9' || c == '-' || c == '+' || c == '.' || c == 'e' }

  /** Every finite JavaScript number prints as digits with an optional sign, point and exponent. */
  predicate IsNumberText(t: string) {
    && t != []
    && (forall i :: 0 <= i < |t| ==> IsNumberChar(t[i]))
    && ('0' <= t[0] <= '9' || (t[0] == '-' && |t| > 1))
  }

  ghost predicate WellFormed(v: Json) {
    match v
    case JNumber(t) => IsNumberText(t)
    case JArray(items) => forall x :: x in items ==> WellFormed(x)
    case JObject(entries) => forall e :: e in entries ==> WellFormed(e.value)
    case _ => true
  }
}
