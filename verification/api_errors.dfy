/** backend/error_handlers/api_errors.py: the API error kinds, their fixed
    status codes, and the JSON envelopes the handlers answer with. Flask
    picks the handler of the most specific registered class; that choice is
    `Dispatch`. */
module ApiErrors {
  import opened Common

  /** The JSON values an envelope holds. */
  datatype Json = JStr(s: string) | JInt(i: int) | JObj(fields: map<string, Json>) | JOther

  type Details = map<string, Json>

  /** `details or {}`: a missing or empty argument gives no details. */
  function DetailsOrEmpty(details: Option<Details>): (d: Details)
    ensures details.None? ==> d == map[]
    ensures details.Some? ==> d == details.value
  {
    if details.Some? then details.value else map[]
  }

  datatype ErrorKind = Base | Validation | NotFound | ExternalApi

  datatype ApiError = ApiError(kind: ErrorKind, message: string, statusCode: int, details: Details)

  const DefaultStatus := 500
  const ValidationStatus := 400
  const NotFoundStatus := 404
  const ExternalApiStatus := 502

  /** The status code each kind's constructor fixes; the base class takes
      any. */
  predicate WellFormed(e: ApiError) {
    match e.kind
    case Base => true
    case Validation => e.statusCode == ValidationStatus
    case NotFound => e.statusCode == NotFoundStatus
    case ExternalApi => e.statusCode == ExternalApiStatus && "service" in e.details
  }

  /** `APIError(message, status_code=500, details=None)`; an omitted status
      code is `None`. */
  function NewApiError(message: string, statusCode: Option<int>, details: Option<Details>): (e: ApiError)
    ensures WellFormed(e) && e.kind == Base && e.message == message
    ensures e.statusCode == statusCode.GetOr(DefaultStatus)
    ensures e.details == DetailsOrEmpty(details)
  {
    ApiError(Base, message, statusCode.GetOr(DefaultStatus), DetailsOrEmpty(details))
  }

  function NewValidationError(message: string, details: Option<Details>): (e: ApiError)
    ensures WellFormed(e) && e.kind == Validation && e.message == message
    ensures e.statusCode == 400 && e.details == DetailsOrEmpty(details)
  {
    ApiError(Validation, message, ValidationStatus, DetailsOrEmpty(details))
  }

  function NewNotFoundError(message: string, details: Option<Details>): (e: ApiError)
    ensures WellFormed(e) && e.kind == NotFound && e.message == message
    ensures e.statusCode == 404 && e.details == DetailsOrEmpty(details)
  {
    ApiError(NotFound, message, NotFoundStatus, DetailsOrEmpty(details))
  }

  /** `ExternalAPIError(message, service, details)`: the service is always
      recorded, then the caller's details are merged over it, so a caller's
      own 'service' entry wins. */
  function NewExternalApiError(message: string, service: string, details: Option<Details>): (e: ApiError)
    ensures WellFormed(e) && e.kind == ExternalApi && e.message == message
    ensures e.statusCode == 502
    ensures e.details.Keys == {"service"} + DetailsOrEmpty(details).Keys
    ensures forall k :: k in DetailsOrEmpty(details) ==> e.details[k] == DetailsOrEmpty(details)[k]
    ensures "service" !in DetailsOrEmpty(details) ==> e.details["service"] == JStr(service)
  {
    ApiError(ExternalApi, message, ExternalApiStatus, map["service" := JStr(service)] + DetailsOrEmpty(details))
  }

  /** A response: its JSON body and its HTTP status. */
  datatype Response = Response(body: map<string, Json>, code: int)

  const StatusError := JStr("error")

  /** The details entry of a body, when the error had any. */
  function WithDetails(body: map<string, Json>, details: Details): (r: map<string, Json>)
    requires "details" !in body
    ensures |details| > 0 ==> r == body["details" := JObj(details)]
    ensures |details| == 0 ==> r == body
  {
    if |details| > 0 then body["details" := JObj(details)] else body
  }

  /** The details a body carries: its 'details' object, or none. */
  function DetailsOf(body: map<string, Json>): Details {
    if "details" in body && body["details"].JObj? then body["details"].fields else map[]
  }

  /** `handle_api_error`: status 'error', the error's message, its details
      when there are any, and the error's own status code. */
  function HandleApiError(e: ApiError): (r: Response)
    ensures r.code == e.statusCode
    ensures r.body.Keys == {"status", "message"} + (if |e.details| > 0 then {"details"} else {})
    ensures r.body["status"] == StatusError && r.body["message"] == JStr(e.message)
  {
    Response(WithDetails(map["status" := StatusError, "message" := JStr(e.message)], e.details), e.statusCode)
  }

  /** `handle_validation_error`: always 400, the fixed message
      'Validation error', the error's text under 'errors', and its details
      when there are any. */
  function HandleValidationError(e: ApiError): (r: Response)
    ensures r.code == 400
    ensures r.body.Keys == {"status", "message", "errors"} + (if |e.details| > 0 then {"details"} else {})
    ensures r.body["status"] == StatusError && r.body["message"] == JStr("Validation error")
    ensures r.body["errors"] == JStr(e.message)
  {
    Response(WithDetails(map["status" := StatusError, "message" := JStr("Validation error"),
                             "errors" := JStr(e.message)], e.details), ValidationStatus)
  }

  /** `handle_http_error`: the exception's description and code. */
  function HandleHttpError(description: string, code: int): (r: Response)
    ensures r.code == code && r.body.Keys == {"status", "message", "code"}
    ensures r.body["status"] == StatusError && r.body["message"] == JStr(description) && r.body["code"] == JInt(code)
  {
    Response(map["status" := StatusError, "message" := JStr(description), "code" := JInt(code)], code)
  }

  /** `handle_generic_error`: 500 and the exception's class name. */
  function HandleGenericError(typeName: string): (r: Response)
    ensures r.code == 500 && r.body.Keys == {"status", "message", "type"}
    ensures r.body["status"] == StatusError && r.body["message"] == JStr("An unexpected error occurred")
    ensures r.body["type"] == JStr(typeName)
  {
    Response(map["status" := StatusError, "message" := JStr("An unexpected error occurred"),
                 "type" := JStr(typeName)], 500)
  }

  /** What a route can raise. */
  datatype Raised = Api(error: ApiError) | Http(description: string, code: int) | Other(typeName: string)

  /** The handler Flask picks: the validation handler for validation
      errors, the API handler for the other API errors, the HTTP handler
      for HTTP exceptions and the generic one for the rest. */
  function Dispatch(x: Raised): (r: Response)
    ensures "status" in r.body && r.body["status"] == StatusError
    ensures x.Api? && x.error.kind == Validation ==> r == HandleValidationError(x.error)
    ensures x.Api? && x.error.kind != Validation ==> r == HandleApiError(x.error)
    ensures x.Http? ==> r == HandleHttpError(x.description, x.code)
    ensures x.Other? ==> r == HandleGenericError(x.typeName)
  {
    match x
    case Api(e) => if e.kind == Validation then HandleValidationError(e) else HandleApiError(e)
    case Http(d, c) => HandleHttpError(d, c)
    case Other(t) => HandleGenericError(t)
  }

  /** Every well-formed API error is answered with its own status code and
      carries its details back unchanged. */
  lemma DispatchKeepsStatusAndDetails(e: ApiError)
    requires WellFormed(e)
    ensures Dispatch(Api(e)).code == e.statusCode
    ensures DetailsOf(Dispatch(Api(e)).body) == e.details
  {
    DispatchCode(e);
    var r := Dispatch(Api(e));
    if e.kind == Validation {
      DetailsOfWith(map["status" := StatusError, "message" := JStr("Validation error"), "errors" := JStr(e.message)], e.details);
    } else {
      DetailsOfWith(map["status" := StatusError, "message" := JStr(e.message)], e.details);
    }
  }

  /** The status a dispatched API error is answered with. */
  lemma DispatchCode(e: ApiError)
    ensures Dispatch(Api(e)).code == if e.kind == Validation then ValidationStatus else e.statusCode
  {
  }

  /** A body built by `WithDetails` carries exactly the given details. */
  lemma DetailsOfWith(body: map<string, Json>, details: Details)
    requires "details" !in body
    ensures DetailsOf(WithDetails(body, details)) == details
  {
    if |details| == 0 {
      assert details == map[];
    }
  }

  /** Each kind's fixed status reaches the client. */
  lemma StatusByKind(message: string, service: string, details: Option<Details>)
    ensures Dispatch(Api(NewValidationError(message, details))).code == 400
    ensures Dispatch(Api(NewNotFoundError(message, details))).code == 404
    ensures Dispatch(Api(NewExternalApiError(message, service, details))).code == 502
    ensures Dispatch(Api(NewApiError(message, None, details))).code == 500
  {
    DispatchCode(NewValidationError(message, details));
    DispatchCode(NewNotFoundError(message, details));
    DispatchCode(NewExternalApiError(message, service, details));
    DispatchCode(NewApiError(message, None, details));
  }

  /** The message of a non-validation API error reaches the client as
      'message'; that of a validation error as 'errors'. */
  lemma MessageReachesClient(e: ApiError)
    ensures e.kind != Validation ==> Dispatch(Api(e)).body["message"] == JStr(e.message)
    ensures e.kind == Validation ==> Dispatch(Api(e)).body["errors"] == JStr(e.message)
  {
  }

  /** `format_error_response(message, status_code=400, details=None)`:
      'details' only when the argument is given and not empty. */
  function FormatErrorResponse(message: string, statusCode: Option<int>, details: Option<Details>): (r: map<string, Json>)
    ensures r.Keys == {"status", "message", "code"} + (if "details" in r then {"details"} else {})
    ensures r["status"] == StatusError && r["message"] == JStr(message)
    ensures r["code"] == JInt(statusCode.GetOr(400))
    ensures "details" in r <==> details.Some? && |details.value| > 0
    ensures DetailsOf(r) == DetailsOrEmpty(details)
  {
    WithDetails(map["status" := StatusError, "message" := JStr(message),
                    "code" := JInt(statusCode.GetOr(400))], DetailsOrEmpty(details))
  }
}
