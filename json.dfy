/** The JSON values exchanged between the stats endpoint and the dashboard.
    Only the shapes that occur in this program are modelled: integers,
    strings and arrays of integers. */
module Json {
  datatype Value = Num(n: int) | Text(s: string) | Numbers(items: seq<int>)

  /** A JSON object, that is a Python dict / a parsed JavaScript object. */
  type Object = map<string, Value>
}
