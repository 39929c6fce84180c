/** The API's own exceptions: `BaseCustomException`, which carries an error
    message, and `InvalidRequest`, which chooses an HTTP status and an error
    body from its arguments. */
module Exceptions {
  import opened Results

  /** The attributes of a raised exception the handlers read; an attribute
      that was never assigned is `None`. `statusCode` is `None` for the base
      class, whose class attribute is `None`. */
  datatype ApiException = ApiException(
    statusCode: Option<int>,
    detail: Option<map<string, string>>,
    errorMessage: Option<string>)

  const InvalidRequestStatus := 400
  const InvalidRequestDefaultDetail := "Invalid request"

  /** `BaseCustomException(error_message)`: only the message is assigned. */
  function NewBaseCustomException(errorMessage: string): (e: ApiException)
    ensures e.errorMessage == Some(errorMessage)
    ensures e.statusCode.None? && e.detail.None?
  {
    ApiException(None, None, Some(errorMessage))
  }

  /** `InvalidRequest(detail, field, status_code)`: the status is 400 unless
      one is given; the body is `{field: detail}` when both are given,
      `{'error': detail}` when only the detail is, and the default
      `{'error': 'Invalid request'}` when there is no detail, field or not.
      The base initialiser is not called, so no message is assigned. */
  function NewInvalidRequest(detail: Option<string>, field: Option<string>, statusCode: Option<int>)
    : (e: ApiException)
    ensures e.statusCode == Some(if statusCode.Some? then statusCode.value else InvalidRequestStatus)
    ensures e.errorMessage.None?
    ensures e.detail.Some? && |e.detail.value| == 1
    ensures detail.Some? && field.Some? ==> e.detail.value == map[field.value := detail.value]
    ensures detail.Some? && field.None? ==> e.detail.value == map["error" := detail.value]
    ensures detail.None? ==> e.detail.value == map["error" := InvalidRequestDefaultDetail]
  {
    var code := if statusCode.Some? then statusCode.value else InvalidRequestStatus;
    var body :=
      if field.Some? && detail.Some? then map[field.value := detail.value]
      else if detail.Some? then map["error" := detail.value]
      else map["error" := InvalidRequestDefaultDetail];
    ApiException(Some(code), Some(body), None)
  }

  /** `to_dict`: `{'error': error_message}`; reading the message of an
      exception that never assigned one raises `AttributeError`. */
  function ToDict(e: ApiException): (r: Result<map<string, string>, PyError>)
    ensures r.Err? <==> e.errorMessage.None?
    ensures r.Err? ==> r.error == AttributeError
    ensures r.Ok? ==> r.value.Keys == {"error"} && r.value["error"] == e.errorMessage.value
  {
    match e.errorMessage
    case None => Err(AttributeError)
    case Some(m) => Ok(map["error" := m])
  }

  /** The base exception's dictionary holds exactly its message. */
  lemma BaseToDict(message: string)
    ensures ToDict(NewBaseCustomException(message)) == Ok(map["error" := message])
  {
  }

  /** `to_dict` on an `InvalidRequest` always raises. */
  lemma InvalidRequestToDictRaises(detail: Option<string>, field: Option<string>, statusCode: Option<int>)
    ensures ToDict(NewInvalidRequest(detail, field, statusCode)) == Err(AttributeError)
  {
  }

  /** The body's one key is the field exactly when both a field and a detail
      were given, and `error` otherwise; its value is the detail, or the
      default when there is none. */
  lemma InvalidRequestBody(detail: Option<string>, field: Option<string>, statusCode: Option<int>)
    ensures var body := NewInvalidRequest(detail, field, statusCode).detail.value;
      && (field.Some? && detail.Some? ==> body.Keys == {field.value})
      && (field.None? || detail.None? ==> body.Keys == {"error"})
      && (forall k :: k in body ==> body[k] == detail.GetOr(InvalidRequestDefaultDetail))
  {
  }
}
