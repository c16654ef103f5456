/** The API Gateway responses the patch and put handlers return. */
module Http {
  import opened JsValue

  /** How the handler's `try` block ended: normally, or by an exception with
      the given `name` (thrown by body parsing or by the DynamoDB client). */
  datatype Outcome = Completed | Threw(errorName: string)

  datatype Response = Response(statusCode: int, headers: map<string, string>, body: Option<string>)

  /** `StatusCodes` of the `http-status-codes` package. */
  const NO_CONTENT := 204
  const NOT_FOUND := 404
  const INTERNAL_SERVER_ERROR := 500

  const CORS_HEADERS: map<string, string> := map["Access-Control-Allow-Origin" := "*"]

  /** Error name DynamoDB reports when a condition expression is false. */
  const CONDITIONAL_CHECK_FAILED := "ConditionalCheckFailedException"

  /** "An episode with the provided id could not be found", written in two
      halves that are shown free of escapes one at a time. */
  const NOT_FOUND_MESSAGE := NOT_FOUND_HEAD + NOT_FOUND_TAIL
  const NOT_FOUND_HEAD := "An episode with the "
  const NOT_FOUND_TAIL := "provided id could not be found"
  const GENERIC_MESSAGE := "Something went wrong"

  /** A string JSON writes as itself between quotes: no quotation mark, no
      backslash and no control character (section 9 of ECMA-404). */
  predicate PlainText(message: string) {
    forall i :: 0 <= i < |message| ==> PlainChar(message[i])
  }

  predicate PlainChar(c: char) {
    c != '"' && c != '\\' && c >= ' '
  }

  lemma PlainConcat(a: string, b: string)
    requires PlainText(a) && PlainText(b)
    ensures PlainText(a + b)
  {
    forall i | 0 <= i < |a + b|
      ensures PlainChar((a + b)[i])
    {
      if i >= |a| {
        assert (a + b)[i] == b[i - |a|];
      }
    }
  }

  /** The two fixed messages need no escaping. */
  lemma FixedMessagesPlain()
    ensures PlainText(NOT_FOUND_MESSAGE) && PlainText(GENERIC_MESSAGE)
  {
    NotFoundHalvesPlain();
    PlainConcat(NOT_FOUND_HEAD, NOT_FOUND_TAIL);
  }

  lemma NotFoundHalvesPlain()
    ensures PlainText(NOT_FOUND_HEAD) && PlainText(NOT_FOUND_TAIL)
  {
  }

  /** `JSON.stringify({ message })`, for a message JSON does not escape. */
  function MessageBody(message: string): (body: string)
    requires PlainText(message)
    ensures |body| == |message| + 14
    ensures body[..12] == "{\"message\":\"" && body[|body| - 2..] == "\"}"
    ensures body[12..|body| - 2] == message
  {
    "{\"message\":\"" + message + "\"}"
  }

  /** Distinct messages give distinct bodies, so a client can recover the
      message from the body. */
  lemma MessageBodyInjective(a: string, b: string)
    requires PlainText(a) && PlainText(b)
    ensures MessageBody(a) == MessageBody(b) ==> a == b
  {
    if MessageBody(a) == MessageBody(b) {
      var body := MessageBody(a);
      assert a == body[12..|body| - 2];
    }
  }

  /** The 404 body and the 500 body differ. */
  lemma FixedBodiesDiffer()
    ensures PlainText(NOT_FOUND_MESSAGE) && PlainText(GENERIC_MESSAGE)
    ensures MessageBody(NOT_FOUND_MESSAGE) != MessageBody(GENERIC_MESSAGE)
  {
    FixedMessagesPlain();
    MessageBodyInjective(NOT_FOUND_MESSAGE, GENERIC_MESSAGE);
  }
}
