/** The error codes of the library, in the order of its enumeration. */
module Errors {
  const MS3_ERR_NONE := 0
  const MS3_ERR_URI_TOO_LONG := 3
  const MS3_ERR_RESPONSE_PARSE := 4
  const MS3_ERR_REQUEST_ERROR := 5
  const MS3_ERR_IMPOSSIBLE := 7
  const MS3_ERR_AUTH := 8
  const MS3_ERR_NOT_FOUND := 9
  const MS3_ERR_SERVER := 10
  const MS3_ERR_AUTH_ROLE := 12
  const MS3_ERR_ENDPOINT := 13

  /** The enumeration of libmarias3/marias3.h. */
  const CODES: seq<string> :=
    ["MS3_ERR_NONE", "MS3_ERR_PARAMETER", "MS3_ERR_NO_DATA", "MS3_ERR_URI_TOO_LONG", "MS3_ERR_RESPONSE_PARSE",
     "MS3_ERR_REQUEST_ERROR", "MS3_ERR_OOM", "MS3_ERR_IMPOSSIBLE", "MS3_ERR_AUTH", "MS3_ERR_NOT_FOUND",
     "MS3_ERR_SERVER", "MS3_ERR_TOO_BIG", "MS3_ERR_AUTH_ROLE", "MS3_ERR_ENDPOINT"]

  lemma CodesInOrder()
    ensures CODES[MS3_ERR_NONE] == "MS3_ERR_NONE" && CODES[MS3_ERR_URI_TOO_LONG] == "MS3_ERR_URI_TOO_LONG"
    ensures CODES[MS3_ERR_RESPONSE_PARSE] == "MS3_ERR_RESPONSE_PARSE"
    ensures CODES[MS3_ERR_REQUEST_ERROR] == "MS3_ERR_REQUEST_ERROR"
    ensures CODES[MS3_ERR_IMPOSSIBLE] == "MS3_ERR_IMPOSSIBLE" && CODES[MS3_ERR_AUTH] == "MS3_ERR_AUTH"
    ensures CODES[MS3_ERR_NOT_FOUND] == "MS3_ERR_NOT_FOUND" && CODES[MS3_ERR_SERVER] == "MS3_ERR_SERVER"
    ensures CODES[MS3_ERR_AUTH_ROLE] == "MS3_ERR_AUTH_ROLE" && CODES[MS3_ERR_ENDPOINT] == "MS3_ERR_ENDPOINT"
  {}
}
