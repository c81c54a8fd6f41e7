/**
 * The response assemblers of the native handler: `parseUserInfoResponse`,
 * `parseConversationListResponse` and the `parseResponse` switch. They run the
 * field loops of Fields over the response bytes, read the fields as the
 * JavaScript values the walker stores (numbers for varints, decoded strings
 * for length-delimited fields) and fill in defaults with `||`.
 *
 * TextDecoder and TextEncoder are a TextCodec parameter, and `Date.now()` is
 * the parameter `now`.
 */
module NativeHandler {

  import opened Wrappers
  import opened Js
  import opened Wire
  import opened Fields
  import opened Extract
  import Encoding

  /** `new TextDecoder('utf-8').decode` and `new TextEncoder().encode`, not interpreted. */
  datatype TextCodec = TextCodec(decode: seq<byte> -> string, encode: string -> seq<byte>)

  /** The JavaScript value the walker stores for a field. */
  function JsOf(codec: TextCodec, v: WireValue): (r: JsValue)
    ensures r.Text? <==> v.Bytes?
    ensures v.VarintValue? ==> r == Num(v.n)
    ensures v.Bytes? ==> r == Text(codec.decode(v.data))
  {
    match v
    case VarintValue(n) => Num(n)
    case Bytes(data) => Text(codec.decode(data))
  }

  /** `fields[tag]`, None standing for `undefined`. */
  function Lookup(codec: TextCodec, fields: map<int, WireValue>, tag: int): (r: Option<JsValue>)
    ensures r.Some? <==> tag in fields
    ensures r.Some? ==> r.value == JsOf(codec, fields[tag])
  {
    if tag in fields then Some(JsOf(codec, fields[tag])) else None
  }

  /**
   * `fields[tag] && typeof fields[tag] === 'string'`: the string, when the
   * field is length-delimited and decodes to a non-empty string.
   */
  function TextField(codec: TextCodec, fields: map<int, WireValue>, tag: int): (r: Option<string>)
    ensures r.Some? <==> tag in fields && fields[tag].Bytes? && codec.decode(fields[tag].data) != ""
    ensures r.Some? ==> r.value == codec.decode(fields[tag].data)
  {
    var v := Lookup(codec, fields, tag);
    if v.Some? && v.value.Text? && Truthy(v.value) then Some(v.value.s) else None
  }

  /** `{ code, msg }`. Either may be a number or a string: the walker has no schema. */
  datatype Status = Status(code: JsValue, msg: JsValue)

  /** The nested field numbers of `code` and `msg` in a status message. */
  const CODE_TAG: int := 2
  const MSG_TAG: int := 3

  const DEFAULT_STATUS: Status := Status(Num(1), Text("success"))

  /** The record `parseUserInfoResponse` builds from the user-data string. */
  datatype UserData = UserData(
    id: string, name: string, avatarUrl: string, email: string, phone: string,
    coin: int, isVip: int, avatarId: int, vipExpiredTime: int, invitationCode: string)

  /** A user-info reply; `data` None stands for the empty object `{}`. */
  datatype UserInfo = UserInfo(status: Status, data: Option<UserData>)

  const DEFAULT_NAME: string := "云湖用户"

  /** The record the `catch` of `parseUserInfoResponse` returns. */
  const FALLBACK_USER_INFO: UserInfo :=
    UserInfo(DEFAULT_STATUS, Some(UserData("fallback_user", DEFAULT_NAME, "", "", "", 0, 0, 0, 0, "")))

  /** A conversation-list reply. The hand-written walker never fills `data`. */
  datatype ConversationList = ConversationList(status: Status, data: seq<JsValue>, total: int)

  /** What `parseResponse` returns; UnknownReply has `data: null`. */
  datatype Reply =
    | UserInfoReply(info: UserInfo)
    | ConversationListReply(list: ConversationList)
    | UnknownReply(status: Status)

  /** `code: fields[2] || 1, msg: fields[3] || 'success'`: never a falsy value. */
  function StatusOf(codec: TextCodec, fields: map<int, WireValue>): (r: Status)
    ensures Truthy(r.code) && Truthy(r.msg)
    ensures CODE_TAG in fields && Truthy(JsOf(codec, fields[CODE_TAG])) ==> r.code == JsOf(codec, fields[CODE_TAG])
    ensures !(CODE_TAG in fields && Truthy(JsOf(codec, fields[CODE_TAG]))) ==> r.code == Num(1)
    ensures MSG_TAG in fields && Truthy(JsOf(codec, fields[MSG_TAG])) ==> r.msg == JsOf(codec, fields[MSG_TAG])
    ensures !(MSG_TAG in fields && Truthy(JsOf(codec, fields[MSG_TAG]))) ==> r.msg == Text("success")
  {
    Status(OrElse(Lookup(codec, fields, CODE_TAG), Num(1)), OrElse(Lookup(codec, fields, MSG_TAG), Text("success")))
  }

  /** The user record built from the decoded data string, with `||` defaults. */
  function UserDataOf(dataStr: string, now: nat): (r: UserData)
    ensures (|r.id| >= 6 && forall m :: 0 <= m < |r.id| ==> IsDigit(r.id[m])) || r.id == "user_" + DecimalString(now)
    ensures r.name == DEFAULT_NAME || (r.name != "" && forall m :: 0 <= m < |r.name| ==> IsHan(r.name[m]))
    ensures r.phone == "" || |r.phone| == 11
    ensures r.coin == 0 && r.isVip == 0 && r.avatarId == 0 && r.vipExpiredTime == 0 && r.invitationCode == ""
  {
    UserData(
      StringOr(ExtractUserId(dataStr), "user_" + DecimalString(now)),
      StringOr(ExtractUserName(dataStr), DEFAULT_NAME),
      ExtractAvatarUrl(dataStr),
      ExtractEmail(dataStr),
      ExtractPhone(dataStr),
      0, 0, 0, 0, "")
  }

  /** The reply built from a top-level field map that was read without an error. */
  function UserInfoOfFields(codec: TextCodec, now: nat, fields: map<int, WireValue>): (r: UserInfo)
    ensures Truthy(r.status.code) && Truthy(r.status.msg)
    ensures TextField(codec, fields, 1).None? ==> r.status == DEFAULT_STATUS
    ensures r.data.Some? <==> TextField(codec, fields, 2).Some?
  {
    var status :=
      match TextField(codec, fields, 1)
      case Some(statusText) => StatusOf(codec, FieldMap(ScanFrom(codec.encode(statusText), 0).fields))
      case None => DEFAULT_STATUS;
    var data :=
      match TextField(codec, fields, 2)
      case Some(dataStr) => Some(UserDataOf(dataStr, now))
      case None => None;
    UserInfo(status, data)
  }

  /** `parseUserInfoResponse`: the fallback record when the top-level loop throws. */
  function UserInfoOf(codec: TextCodec, now: nat, buffer: seq<byte>): (r: UserInfo)
    ensures Truthy(r.status.code) && Truthy(r.status.msg)
    ensures ScanFrom(buffer, 0).failed ==> r == FALLBACK_USER_INFO
  {
    var scan := ScanFrom(buffer, 0);
    if scan.failed then FALLBACK_USER_INFO else UserInfoOfFields(codec, now, FieldMap(scan.fields))
  }

  /** The user id of a reply built from data is never the fallback id. */
  lemma UserIdIsNotFallback(dataStr: string, now: nat)
    ensures UserDataOf(dataStr, now).id != "fallback_user"
  {
    var id := UserDataOf(dataStr, now).id;
    if id == "user_" + DecimalString(now) {
      assert id[0] == 'u';
    } else {
      assert IsDigit(id[0]);
    }
    assert "fallback_user"[0] == 'f';
  }

  /** A user-info reply carries the fallback id exactly when the top-level loop threw. */
  lemma FallbackExactlyWhenThrown(codec: TextCodec, now: nat, buffer: seq<byte>)
    ensures (UserInfoOf(codec, now, buffer).data.Some? && UserInfoOf(codec, now, buffer).data.value.id == "fallback_user")
            <==> ScanFrom(buffer, 0).failed
  {
    var scan := ScanFrom(buffer, 0);
    if !scan.failed {
      var fields := FieldMap(scan.fields);
      var d := TextField(codec, fields, 2);
      if d.Some? {
        UserIdIsNotFallback(d.value, now);
      }
    }
  }

  /** `parseUserInfoResponse`. */
  method ParseUserInfoResponse(codec: TextCodec, now: nat, buffer: seq<byte>) returns (r: UserInfo)
    ensures r == UserInfoOf(codec, now, buffer)
  {
    var fields, thrown := ReadMessageFields(buffer);
    if thrown {
      return FALLBACK_USER_INFO;
    }
    var status := DEFAULT_STATUS;
    var statusText := TextField(codec, fields, 1);
    if statusText.Some? {
      var statusFields := ParseNestedMessage(codec.encode(statusText.value));
      status := StatusOf(codec, statusFields);
    }
    var data: Option<UserData> := None;
    var dataStr := TextField(codec, fields, 2);
    if dataStr.Some? {
      data := Some(UserDataOf(dataStr.value, now));
    }
    r := UserInfo(status, data);
  }

  /** `parseConversationListResponse`: code and msg come from the top-level fields 2 and 3. */
  function ConversationListOf(codec: TextCodec, buffer: seq<byte>): (r: ConversationList)
    ensures r.data == [] && r.total == 0
    ensures Truthy(r.status.code) && Truthy(r.status.msg)
    ensures ScanFrom(buffer, 0).failed ==> r.status == DEFAULT_STATUS
  {
    var scan := ScanFrom(buffer, 0);
    if scan.failed then ConversationList(DEFAULT_STATUS, [], 0)
    else ConversationList(StatusOf(codec, FieldMap(scan.fields)), [], 0)
  }

  /** `parseConversationListResponse`. */
  method ParseConversationListResponse(codec: TextCodec, buffer: seq<byte>) returns (r: ConversationList)
    ensures r == ConversationListOf(codec, buffer)
  {
    var fields, thrown := ReadMessageFields(buffer);
    if thrown {
      return ConversationList(DEFAULT_STATUS, [], 0);
    }
    r := ConversationList(StatusOf(codec, fields), [], 0);
  }

  /** `parseResponse`: the switch on the message type name. */
  method ParseResponse(codec: TextCodec, now: nat, messageType: string, buffer: seq<byte>) returns (r: Reply)
    ensures messageType == "UserInfo" ==> r == UserInfoReply(UserInfoOf(codec, now, buffer))
    ensures messageType == "ConversationList" ==> r == ConversationListReply(ConversationListOf(codec, buffer))
    ensures messageType != "UserInfo" && messageType != "ConversationList" ==> r == UnknownReply(DEFAULT_STATUS)
  {
    if messageType == "UserInfo" {
      var info := ParseUserInfoResponse(codec, now, buffer);
      r := UserInfoReply(info);
    } else if messageType == "ConversationList" {
      var list := ParseConversationListResponse(codec, buffer);
      r := ConversationListReply(list);
    } else {
      r := UnknownReply(DEFAULT_STATUS);
    }
  }

  /** The top-level loop reads an encoded list of fields back without an error. */
  lemma ScanOfEncoded(fields: seq<Field>)
    requires Encoding.AllEncodable(fields)
    ensures ScanFrom(Encoding.EncodeFields(fields), 0) == Scan(fields, false)
  {
    var buffer := Encoding.EncodeFields(fields);
    assert buffer[0..] == buffer;
    Encoding.ScanEncoded(buffer, 0, fields);
  }

  /**
   * On a well-formed encoding there is no fallback: the reply is built from
   * the field map, and a user-data field that occurs last with a non-empty
   * decoding is the one read.
   */
  lemma UserInfoOfEncoded(codec: TextCodec, now: nat, fields: seq<Field>, i: nat)
    requires Encoding.AllEncodable(fields)
    requires i < |fields| && fields[i].tag == 2 && fields[i].value.Bytes?
    requires codec.decode(fields[i].value.data) != ""
    requires forall j :: i < j < |fields| ==> fields[j].tag != 2
    ensures UserInfoOf(codec, now, Encoding.EncodeFields(fields)).data
            == Some(UserDataOf(codec.decode(fields[i].value.data), now))
  {
    ScanOfEncoded(fields);
    FieldMapLastWins(fields, i);
  }

  /**
   * The status is read back from the string of field 1 when the codec
   * returns the status bytes unchanged after decoding and re-encoding them
   * (true of valid UTF-8): the nested message then yields its own code and msg.
   */
  lemma StatusOfEncoded(codec: TextCodec, statusFields: seq<Field>)
    requires Encoding.AllEncodable(statusFields)
    requires codec.encode(codec.decode(Encoding.EncodeFields(statusFields))) == Encoding.EncodeFields(statusFields)
    ensures StatusOf(codec, FieldMap(ScanFrom(codec.encode(codec.decode(Encoding.EncodeFields(statusFields))), 0).fields))
            == StatusOf(codec, FieldMap(statusFields))
  {
    ScanOfEncoded(statusFields);
  }

  /**
   * On THROWING_BUFFER the top-level loop as written throws, so the `catch` of
   * `parseUserInfoResponse` returns FALLBACK_USER_INFO. With the length read
   * unsigned, the loop reads field 1 and ends, and the reply has no user data.
   */
  lemma NegativeLengthFallsBack(codec: TextCodec, now: nat, buffer: seq<byte>, fuel: nat)
    requires buffer == THROWING_BUFFER && fuel >= 3
    ensures ScanAsWritten(buffer, 0, fuel).Threw?
    ensures UserInfoOf(codec, now, buffer).data.None?
    ensures UserInfoOf(codec, now, buffer) != FALLBACK_USER_INFO
  {
    AsWrittenLoopThrows(buffer, fuel);
    var fields := [Field(1, 2, Bytes([]))];
    assert fields[..0] == [];
    assert FieldMap(fields) == map[1 := Bytes([])];
    assert TextField(codec, FieldMap(fields), 2).None?;
  }
}
