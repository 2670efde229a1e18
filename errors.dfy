/**
 * The InvalidQuery exception of geosuggest/api/errors.py, and the failures a
 * call into the core can end with.
 */
module Errors {
  import opened Wrappers
  import opened Dict

  /** HTTPStatus.BAD_REQUEST, the class-level default status code. */
  const BadRequest: int := 400

  datatype InvalidQuery = InvalidQuery(message: string, statusCode: int, payload: Option<map<string, Value>>)

  /**
   * InvalidQuery(message, status_code, payload): the status code replaces the
   * default only when it is truthy (present and non-zero).
   */
  function NewInvalidQuery(message: string, statusCode: Option<int>, payload: Option<map<string, Value>>): (e: InvalidQuery)
    ensures e.message == message && e.payload == payload
    ensures (statusCode.None? || statusCode.value == 0) ==> e.statusCode == BadRequest
    ensures statusCode.Some? && statusCode.value != 0 ==> e.statusCode == statusCode.value
  {
    InvalidQuery(message, if statusCode.Some? && statusCode.value != 0 then statusCode.value else BadRequest, payload)
  }

  /** The payload entries, or none when the payload is None (or empty, which is just as falsy). */
  function PayloadEntries(e: InvalidQuery): map<string, Value> {
    if e.payload.Some? then e.payload.value else map[]
  }

  /**
   * to_dict(): a copy of the payload whose 'message' entry is the exception's
   * message; every other payload entry is kept as it is.
   */
  function ToDict(e: InvalidQuery): (d: map<string, Value>)
    ensures "message" in d && d["message"] == Str(e.message)
    ensures d.Keys == PayloadEntries(e).Keys + {"message"}
    ensures forall k :: k in PayloadEntries(e) && k != "message" ==> d[k] == PayloadEntries(e)[k]
  {
    var result := PayloadEntries(e);
    result["message" := Str(e.message)]
  }

  /** A None payload gives a dict that holds the message alone. */
  lemma ToDictWithoutPayload(message: string, statusCode: Option<int>)
    ensures ToDict(NewInvalidQuery(message, statusCode, None)) == map["message" := Str(message)]
  {
  }

  /**
   * How a call into the core can fail: with the InvalidQuery it raises on
   * purpose, or with a Python exception it does not catch (a TypeError from
   * matching against a missing name, an error from the distance library).
   */
  datatype Failure =
    | QueryRejected(error: InvalidQuery)
    | Unhandled(reason: string)
}
