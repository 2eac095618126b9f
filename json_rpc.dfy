/**
 * The DDX-RPC message envelope. It follows JSON-RPC 2.0: section 4 (Request),
 * 4.1 (Notification), 5 (Response object) and 5.1 (Error object). JSON text is not modelled:
 * a document is an abstract `Json` value whose objects are maps, so that every member is read
 * through one canonical accessor and duplicate keys cannot arise.
 */
module JsonRpc {
  import opened Wrappers

  /** A JSON value. `JInt` is an integral number, `JDouble` any other number. */
  datatype Json =
    | JNull
    | JBool(b: bool)
    | JInt(i: int)
    | JDouble(d: real)
    | JString(s: string)
    | JArray(items: seq<Json>)
    | JObject(members: map<string, Json>)

  /** RapidJSON's `Value::IsInt()`: an integral number that fits in a signed 32-bit int. */
  predicate IsInt(v: Json) {
    v.JInt? && -0x8000_0000 <= v.i < 0x8000_0000
  }

  /** One document on the wire. */
  datatype Message =
    | RequestMsg(methodName: string, id: Json, params: Option<Json>)
    | NotificationMsg(methodName: string, params: Option<Json>)
    | SuccessMsg(id: Json, result: Json)
    | ErrorMsg(id: Json, error: Json)

  /** An error object whose `code` passed `IsInt()` and whose `message` is a string. */
  datatype VerifiedError = VerifiedError(code: int, message: string, data: Option<Json>)

  /** The error object section 5.1 of JSON-RPC 2.0 describes, built from its parts. */
  function ErrorObject(code: int, message: string, data: Option<Json>): Json {
    var base := map["code" := JInt(code), "message" := JString(message)];
    JObject(if data.Some? then base["data" := data.value] else base)
  }

  /**
   * Error verification: an error payload is accepted only when it is an object with an
   * integer `code` and a string `message`; anything else is rejected.
   */
  function VerifyError(v: Json): (r: Option<VerifiedError>)
    ensures r.Some? <==>
      v.JObject? && "code" in v.members && IsInt(v.members["code"]) &&
      "message" in v.members && v.members["message"].JString?
    ensures r.Some? ==>
      r.value.code == v.members["code"].i && r.value.message == v.members["message"].s &&
      -0x8000_0000 <= r.value.code < 0x8000_0000
  {
    if v.JObject? && "code" in v.members && IsInt(v.members["code"]) &&
       "message" in v.members && v.members["message"].JString?
    then
      var data := if "data" in v.members then Some(v.members["data"]) else None;
      Some(VerifiedError(v.members["code"].i, v.members["message"].s, data))
    else None
  }

  predicate IsVerifiedError(v: Json) {
    VerifyError(v).Some?
  }

  /** An error object built from a 32-bit code verifies, and verification gives its parts back. */
  lemma VerifyErrorObject(code: int, message: string, data: Option<Json>)
    requires -0x8000_0000 <= code < 0x8000_0000
    ensures VerifyError(ErrorObject(code, message, data)) == Some(VerifiedError(code, message, data))
  {
  }

  /** A code outside the 32-bit range is never a verified error. */
  lemma WideCodeRejected(code: int, message: string, data: Option<Json>)
    requires code < -0x8000_0000 || 0x8000_0000 <= code
    ensures !IsVerifiedError(ErrorObject(code, message, data))
  {
  }

  /**
   * An incoming request or notification as delivered to a method handler (`RemDev::Request`).
   * `id` is `None` for a notification.
   */
  datatype Request = Request(methodName: string, params: Option<Json>, id: Option<Json>) {

    /** True when an id is present, so that a response is expected. */
    predicate IsRequest() {
      id.Some?
    }
  }

  /** The handler-side view of an incoming request or notification message. */
  function RequestOf(m: Message): (r: Option<Request>)
    ensures r.Some? <==> m.RequestMsg? || m.NotificationMsg?
    ensures r.Some? ==> r.value.methodName == m.methodName && r.value.params == m.params
  {
    match m
    case RequestMsg(methodName, id, params) => Some(Request(methodName, params, Some(id)))
    case NotificationMsg(methodName, params) => Some(Request(methodName, params, None))
    case _ => None
  }

  /** `isRequest` tells requests from notifications exactly as the envelope does. */
  lemma IsRequestIffIdPresent(m: Message)
    requires m.RequestMsg? || m.NotificationMsg?
    ensures RequestOf(m).value.IsRequest() <==> m.RequestMsg?
  {
  }

  /**
   * The frame `sendResponse(req, result)` writes: nothing for a notification; otherwise a
   * success response echoing the request id, whose result is `true` when none is given.
   */
  function ResponseFrame(req: Request, result: Option<Json>): (f: Option<Message>)
    ensures f.Some? <==> req.IsRequest()
    ensures f.Some? ==> f.value.SuccessMsg? && f.value.id == req.id.value
    ensures f.Some? && result.None? ==> f.value.result == JBool(true)
    ensures f.Some? && result.Some? ==> f.value.result == result.value
  {
    if req.IsRequest() then Some(SuccessMsg(req.id.value, result.GetOr(JBool(true)))) else None
  }

  /**
   * The frame `sendError(id, code, msg, data)` writes: an error response whose id is `null`
   * when none is given.
   */
  function ErrorFrame(id: Option<Json>, code: int, message: string, data: Option<Json>): (f: Message)
    ensures f.ErrorMsg?
    ensures id.None? ==> f.id == JNull
    ensures id.Some? ==> f.id == id.value
    ensures f.error == ErrorObject(code, message, data)
  {
    ErrorMsg(id.GetOr(JNull), ErrorObject(code, message, data))
  }

  /** The frame `sendError(req, code, msg, data)` writes: nothing for a notification. */
  function RequestErrorFrame(req: Request, code: int, message: string, data: Option<Json>): (f: Option<Message>)
    ensures f.Some? <==> req.IsRequest()
    ensures f.Some? ==> f.value.ErrorMsg? && f.value.id == req.id.value
    ensures f.Some? ==> f.value == ErrorFrame(req.id, code, message, data)
  {
    if req.IsRequest() then Some(ErrorFrame(req.id, code, message, data)) else None
  }

  /** Answering a received request sends back the very id the request carried. */
  lemma ReplyEchoesId(m: Message, result: Option<Json>)
    requires m.RequestMsg?
    ensures ResponseFrame(RequestOf(m).value, result) == Some(SuccessMsg(m.id, result.GetOr(JBool(true))))
  {
  }

  /** Answering a notification, successfully or with an error, writes nothing. */
  lemma NotificationGetsNoReply(m: Message, result: Option<Json>, code: int, message: string, data: Option<Json>)
    requires m.NotificationMsg?
    ensures ResponseFrame(RequestOf(m).value, result).None?
    ensures RequestErrorFrame(RequestOf(m).value, code, message, data).None?
  {
  }

  /** An error frame for a 32-bit code carries an error object that the receiver verifies. */
  lemma ErrorFrameVerifies(id: Option<Json>, code: int, message: string, data: Option<Json>)
    requires -0x8000_0000 <= code < 0x8000_0000
    ensures VerifyError(ErrorFrame(id, code, message, data).error) == Some(VerifiedError(code, message, data))
  {
    VerifyErrorObject(code, message, data);
  }

  /**
   * What a requester's handler receives (`RemDev::Response`): `id` is the integer returned by
   * `sendRequest`, `mainVal` the result on success or the error object on failure.
   */
  datatype Response = Response(successful: bool, id: int, mainVal: Json, methodName: string)

  /** A failed response always carries a verified error object. */
  predicate WellFormedResponse(r: Response) {
    !r.successful ==> IsVerifiedError(r.mainVal)
  }

  /**
   * The Response built from an incoming response message for local request `id`: a result
   * becomes a successful Response; an error is delivered only once verified.
   */
  function ResponseOf(id: int, methodName: string, m: Message): (r: Option<Response>)
    requires m.SuccessMsg? || m.ErrorMsg?
    ensures r.Some? ==> WellFormedResponse(r.value) && r.value.id == id && r.value.methodName == methodName
    ensures r.Some? <==> m.SuccessMsg? || IsVerifiedError(m.error)
    ensures m.SuccessMsg? ==> r == Some(Response(true, id, m.result, methodName))
    ensures m.ErrorMsg? && r.Some? ==> r.value == Response(false, id, m.error, methodName)
  {
    match m
    case SuccessMsg(_, result) => Some(Response(true, id, result, methodName))
    case ErrorMsg(_, error) =>
      if IsVerifiedError(error) then Some(Response(false, id, error, methodName)) else None
  }
}
