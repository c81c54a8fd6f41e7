/**
 * The status helpers `isSuccess` and `getErrorMessage`, shared word for word
 * by the simple and the full protobufjs handler, applied to a decoded
 * response object.
 */
module ResponseStatus {

  import opened Wrappers
  import opened Js
  import Wire
  import Fields
  import NativeHandler

  /** The `status` object of a response; either member may be missing. */
  datatype StatusObject = StatusObject(code: Option<JsValue>, msg: Option<JsValue>)

  /** A response object; only its `status` member matters here. */
  datatype ResponseObject = ResponseObject(status: Option<StatusObject>)

  const UNKNOWN_ERROR: string := "未知错误"

  /** `response.status && response.status.code === 1`, with strict equality. */
  function IsSuccess(response: ResponseObject): (r: bool)
    ensures r <==> response.status.Some? && response.status.value.code == Some(Num(1))
  {
    match response.status
    case None => false
    case Some(status) => status.code.Some? && status.code.value.Num? && status.code.value.n == 1
  }

  /** `response.status?.msg || '未知错误'`. */
  function ErrorMessage(response: ResponseObject): (r: JsValue)
    ensures Truthy(r)
    ensures response.status.Some? && response.status.value.msg.Some? && Truthy(response.status.value.msg.value)
            ==> r == response.status.value.msg.value
    ensures !(response.status.Some? && response.status.value.msg.Some? && Truthy(response.status.value.msg.value))
            ==> r == Text(UNKNOWN_ERROR)
  {
    OrElse(if response.status.Some? then response.status.value.msg else None, Text(UNKNOWN_ERROR))
  }

  /** A code that is the string "1" is not a success: the comparison is strict. */
  lemma StringCodeIsNotSuccess(msg: Option<JsValue>)
    ensures !IsSuccess(ResponseObject(Some(StatusObject(Some(Text("1")), msg))))
  {
  }

  /** The response object of a status the hand-written walker produced. */
  function OfStatus(status: NativeHandler.Status): (r: ResponseObject)
    ensures r.status.Some? && r.status.value.code == Some(status.code) && r.status.value.msg == Some(status.msg)
  {
    ResponseObject(Some(StatusObject(Some(status.code), Some(status.msg))))
  }

  /** A user-info reply of the hand-written walker never yields the generic error message. */
  lemma NativeReplyHasOwnMessage(codec: NativeHandler.TextCodec, now: nat, buffer: seq<Wire.byte>)
    ensures var status := NativeHandler.UserInfoOf(codec, now, buffer).status;
            ErrorMessage(OfStatus(status)) == status.msg
  {
  }

  /** A buffer the top-level loop cannot read yields a reply that reports success. */
  lemma MalformedReplyIsSuccess(codec: NativeHandler.TextCodec, now: nat, buffer: seq<Wire.byte>)
    requires Fields.ScanFrom(buffer, 0).failed
    ensures IsSuccess(OfStatus(NativeHandler.UserInfoOf(codec, now, buffer).status))
    ensures ErrorMessage(OfStatus(NativeHandler.UserInfoOf(codec, now, buffer).status)) == Text("success")
  {
  }

  /**
   * A conversation list read without an error succeeds exactly when its
   * field 2 is missing, falsy, or the varint 1: a missing code defaults to 1.
   */
  lemma ConversationListSuccessIff(codec: NativeHandler.TextCodec, buffer: seq<Wire.byte>)
    requires !Fields.ScanFrom(buffer, 0).failed
    ensures var fields := Fields.FieldMap(Fields.ScanFrom(buffer, 0).fields);
            IsSuccess(OfStatus(NativeHandler.ConversationListOf(codec, buffer).status))
            <==> (NativeHandler.CODE_TAG !in fields
                  || !Truthy(NativeHandler.JsOf(codec, fields[NativeHandler.CODE_TAG]))
                  || fields[NativeHandler.CODE_TAG] == Wire.VarintValue(1))
  {
  }
}
