/**
 * JSON values as `encoding/json` decodes them into `any`, and the library
 * functions the core calls on them. The libraries (`encoding/json`, the
 * JSONPath package, `strconv` float formatting, `fmt.Sprint`, `regexp`) are not
 * part of this model: a `JsonLib` value supplies them as plain functions.
 */
module Json {
  import opened Common
  import opened Errors

  datatype Json =
    | Null
    | Bool(b: bool)
    | Num(n: real)
    | Str(s: string)
    | Arr(items: seq<Json>)
    | Obj(fields: map<string, Json>)

  /**
   * A value that counts as absent: null, the empty string, the empty list or
   * the empty object (`isEmptyJSONPathValue` in the assertion evaluator and
   * `isEmptyValue` in the extraction engine, which agree).
   */
  predicate IsEmptyValue(v: Json) {
    v == Null || v == Str("") || v == Arr([]) || v == Obj(map[])
  }

  datatype JsonLib = JsonLib(
    /** `json.Unmarshal(body, &doc)` with `doc any`. */
    parse: seq<Text.byte> -> Result<Json, Error>,
    /** `jsonpath.Get(expr, doc)`. */
    get: (string, Json) -> Result<Json, Error>,
    /** `json.Marshal(v)`, as text. */
    marshal: Json -> Result<string, Error>,
    /** `json.MarshalIndent(v, "", "  ")`, as text. */
    marshalIndent: Json -> string,
    /** `strconv.FormatFloat(f, 'f', -1, 64)`. */
    formatFloat: real -> string,
    /** `fmt.Sprint(f)` and `%v` of a float64. */
    sprintFloat: real -> string,
    /** `fmt.Sprint(v)` of a slice or a map. */
    sprint: Json -> string,
    /** `strconv.ParseFloat(s, 64)`, None on a syntax error. */
    parseFloat: string -> Option<real>,
    /** `regexp.Compile(pattern)` followed by `MatchString(s)`. */
    matchRegex: (string, string) -> Result<bool, Error>
  )
}
