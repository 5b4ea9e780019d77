/** Small value types shared by the front end and the back end. */
module Values {
  datatype Option<T> = None | Some(value: T)

  /** Outcome of an operation that can throw: a value or the thrown error. */
  datatype Result<T, E> = Success(value: T) | Failure(error: E)

  /** The JSON-like values the store keeps in plain objects (`cvData`,
      analysis results, chat messages). `JDate` is a `Date` object, kept as
      its time value in milliseconds. */
  datatype Json =
    | JNull
    | JBool(b: bool)
    | JNum(n: int)
    | JStr(s: string)
    | JDate(millis: int)
    | JArr(items: seq<Json>)
    | JObj(fields: map<string, Json>)

  /** A plain JavaScript object, keyed by property name. */
  type JsObject = map<string, Json>
}
