/** A property listing as the browser stores it: a JavaScript object whose
    keys are the (trimmed, lower-cased) CSV header names and whose values
    are the row's trimmed texts. Unknown headers become extra keys. */
module Records {

  type Record = map<string, string>

  /** `property[key] || ''`: a missing field reads as the empty string. */
  function Field(r: Record, key: string): string
  {
    if key in r then r[key] else ""
  }

  /** Name and url are both non-empty: what every stored listing satisfies. */
  predicate Listed(r: Record)
  {
    Field(r, "name") != "" && Field(r, "url") != ""
  }
}
