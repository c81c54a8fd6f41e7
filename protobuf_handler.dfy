/**
 * The full protobufjs handler: a singleton whose `root` namespace is empty
 * until `initialize` fills it with eight message types, and whose
 * `serialize` and `deserialize` refuse to run before that. The encoding and
 * decoding protobufjs then performs is not part of this model; what is kept
 * is which message type each call would use, or why it fails.
 */
module ProtobufHandler {

  import opened Wrappers
  import opened Schema

  const STATUS: MessageType := MessageType("Status", [
    FieldDescriptor("number", 1, UINT64, Optional),
    FieldDescriptor("code", 2, INT32, Required),
    FieldDescriptor("msg", 3, STRING, Required)])

  const AT_DATA: MessageType := MessageType("AtData", [
    FieldDescriptor("unknown", 1, UINT64, Optional),
    FieldDescriptor("mentioned_id", 2, STRING, Optional),
    FieldDescriptor("mentioned_name", 3, STRING, Optional),
    FieldDescriptor("mentioned_in", 4, STRING, Optional),
    FieldDescriptor("mentioner_id", 6, STRING, Optional),
    FieldDescriptor("mentioner_name", 7, STRING, Optional),
    FieldDescriptor("msg_seq", 8, UINT64, Optional)])

  const CONVERSATION_DATA: MessageType := MessageType("ConversationData", [
    FieldDescriptor("chat_id", 1, STRING, Required),
    FieldDescriptor("chat_type", 2, UINT64, Required),
    FieldDescriptor("name", 3, STRING, Required),
    FieldDescriptor("chat_content", 4, STRING, Optional),
    FieldDescriptor("timestamp_ms", 5, UINT64, Optional),
    FieldDescriptor("unread_message", 6, UINT64, Optional),
    FieldDescriptor("at", 7, UINT64, Optional),
    FieldDescriptor("avatar_id", 8, UINT64, Optional),
    FieldDescriptor("avatar_url", 9, STRING, Optional),
    FieldDescriptor("do_not_disturb", 11, UINT64, Optional),
    FieldDescriptor("timestamp", 12, UINT64, Optional),
    FieldDescriptor("at_data", 14, MessageRef("AtData"), Optional),
    FieldDescriptor("certification_level", 16, UINT64, Optional)])

  const CONVERSATION_LIST: MessageType := MessageType("ConversationList", [
    FieldDescriptor("status", 1, MessageRef("Status"), Required),
    FieldDescriptor("data", 2, MessageRef("ConversationData"), Repeated),
    FieldDescriptor("total", 3, UINT64, Optional),
    FieldDescriptor("request_id", 4, STRING, Optional)])

  const USER_INFO_DATA: MessageType := MessageType("UserInfoData", [
    FieldDescriptor("id", 1, STRING, Required),
    FieldDescriptor("name", 2, STRING, Required),
    FieldDescriptor("avatar_url", 4, STRING, Optional),
    FieldDescriptor("avatar_id", 5, UINT64, Optional),
    FieldDescriptor("phone", 6, STRING, Optional),
    FieldDescriptor("email", 7, STRING, Optional),
    FieldDescriptor("coin", 8, DOUBLE, Optional),
    FieldDescriptor("is_vip", 9, INT32, Optional),
    FieldDescriptor("vip_expired_time", 10, UINT64, Optional),
    FieldDescriptor("invitation_code", 12, STRING, Optional)])

  const USER_INFO: MessageType := MessageType("UserInfo", [
    FieldDescriptor("status", 1, MessageRef("Status"), Required),
    FieldDescriptor("data", 2, MessageRef("UserInfoData"), Optional)])

  const SEND_MESSAGE_DATA: MessageType := MessageType("SendMessageData", [
    FieldDescriptor("text", 1, STRING, Optional),
    FieldDescriptor("buttons", 2, STRING, Optional),
    FieldDescriptor("file_name", 4, STRING, Optional),
    FieldDescriptor("file_key", 5, STRING, Optional),
    FieldDescriptor("mentioned_id", 6, STRING, Repeated),
    FieldDescriptor("form", 7, STRING, Optional),
    FieldDescriptor("quote_msg_text", 8, STRING, Optional),
    FieldDescriptor("image", 9, STRING, Optional)])

  const SEND_MESSAGE: MessageType := MessageType("SendMessage", [
    FieldDescriptor("msg_id", 2, STRING, Required),
    FieldDescriptor("chat_id", 3, STRING, Required),
    FieldDescriptor("chat_type", 4, UINT64, Required),
    FieldDescriptor("data", 5, MessageRef("SendMessageData"), Optional),
    FieldDescriptor("content_type", 6, UINT64, Required),
    FieldDescriptor("quote_msg_id", 8, STRING, Optional)])
  /** The namespace `initialize` builds, in the order of its `add` calls. */
  const HANDLER_ROOT: seq<MessageType> := [
    STATUS, AT_DATA, CONVERSATION_DATA, CONVERSATION_LIST, USER_INFO_DATA, USER_INFO,
    SEND_MESSAGE_DATA, SEND_MESSAGE]

  const HANDLER_TYPE_NAMES: seq<string> := [
    "Status", "AtData", "ConversationData", "ConversationList", "UserInfoData", "UserInfo",
    "SendMessageData", "SendMessage"]

  const NOT_INITIALIZED: string := "ProtoBuf 未初始化"

  /** The message type a `serialize` or `deserialize` call would use, or why it throws. */
  datatype Guarded =
    | Ready(messageType: MessageType)
    | NotInitialized(message: string)
    | NoSuchType(typeName: string)

  /** The guard of `serialize` and `deserialize`, followed by `lookupType`. */
  function Guard(root: Option<seq<MessageType>>, typeName: string): (r: Guarded)
    ensures root.None? <==> r == NotInitialized(NOT_INITIALIZED)
    ensures r.Ready? ==> r.messageType.name == typeName && r.messageType in root.value
    ensures r.NoSuchType? ==> root.Some? && typeName !in TypeNames(root.value)
  {
    match root
    case None => NotInitialized(NOT_INITIALIZED)
    case Some(types) =>
      LookupTypeIff(types, typeName);
      match LookupType(types, typeName)
      case Some(t) => Ready(t)
      case None => NoSuchType(typeName)
  }

  class ProtoBufHandler {
    /** `root`: None until `initialize` has run. */
    var root: Option<seq<MessageType>>

    constructor()
      ensures root.None?
    {
      root := None;
    }

    /** `initialize`: a fresh root holding the eight types. */
    method Initialize()
      modifies this
      ensures root == Some(HANDLER_ROOT)
    {
      root := Some(HANDLER_ROOT);
    }

    /** `serialize`: the type to encode with, or the error it throws. */
    method Serialize(messageType: string) returns (r: Guarded)
      ensures r == Guard(root, messageType)
    {
      if root.None? {
        return NotInitialized(NOT_INITIALIZED);
      }
      r := Guard(root, messageType);
    }

    /**
     * `deserialize`: the type to decode with, or the error it throws. Its body
     * is the same as Serialize's, because the source repeats the same
     * not-initialised guard and the same lookup in both methods.
     */
    method Deserialize(messageType: string) returns (r: Guarded)
      ensures r == Guard(root, messageType)
    {
      if root.None? {
        return NotInitialized(NOT_INITIALIZED);
      }
      r := Guard(root, messageType);
    }
  }

  /** The static `instance` slot of the class. */
  class HandlerSingleton {
    var instance: ProtoBufHandler?

    constructor()
      ensures instance == null
    {
      instance := null;
    }

    /** `getInstance`: creates the handler on the first call and returns that one afterwards. */
    method GetInstance() returns (h: ProtoBufHandler)
      modifies this
      ensures old(instance) != null ==> h == old(instance)
      ensures old(instance) == null ==> fresh(h) && h.root.None?
      ensures instance == h
    {
      if instance == null {
        instance := new ProtoBufHandler();
      }
      h := instance;
    }
  }

  /** Two calls of `getInstance` return the same object. */
  method GetInstanceTwice(s: HandlerSingleton) returns (first: ProtoBufHandler, second: ProtoBufHandler)
    modifies s
    ensures first == second
  {
    first := s.GetInstance();
    second := s.GetInstance();
  }

  /** Before `initialize` every call fails with the not-initialised error, whatever the type. */
  lemma GuardBeforeInitialize(typeName: string)
    ensures Guard(None, typeName) == NotInitialized(NOT_INITIALIZED)
  {
  }

  /** After `initialize` a type resolves exactly when it is one of the eight. */
  lemma GuardAfterInitialize(typeName: string)
    ensures Guard(Some(HANDLER_ROOT), typeName).Ready? <==> typeName in HANDLER_TYPE_NAMES
    ensures Guard(Some(HANDLER_ROOT), typeName).NoSuchType? <==> typeName !in HANDLER_TYPE_NAMES
  {
    LookupTypeIff(HANDLER_ROOT, typeName);
    HandlerRootNames();
  }

  /** The root holds exactly these eight types, in this order. */
  lemma HandlerRootNames()
    ensures TypeNames(HANDLER_ROOT) == HANDLER_TYPE_NAMES
  {
  }

  /** Within each of the eight types the tags are pairwise distinct, and every reference resolves. */
  lemma HandlerRootWellFormed()
    ensures forall m :: m in HANDLER_ROOT ==> DistinctTags(m.fields)
    ensures RefsResolve(HANDLER_ROOT)
  {
    StatusWellFormed();
    AtDataWellFormed();
    ConversationDataWellFormed();
    ConversationListWellFormed();
    UserInfoDataWellFormed();
    UserInfoWellFormed();
    SendMessageDataWellFormed();
    SendMessageWellFormed();
    HandlerRootNames();
  }

  lemma StatusWellFormed()
    ensures DistinctTags(STATUS.fields) && RefsWithin(STATUS, HANDLER_TYPE_NAMES)
  {
    IncreasingTagsAreDistinct(STATUS.fields);
  }

  lemma AtDataWellFormed()
    ensures DistinctTags(AT_DATA.fields) && RefsWithin(AT_DATA, HANDLER_TYPE_NAMES)
  {
    IncreasingTagsAreDistinct(AT_DATA.fields);
  }

  lemma ConversationDataWellFormed()
    ensures DistinctTags(CONVERSATION_DATA.fields) && RefsWithin(CONVERSATION_DATA, HANDLER_TYPE_NAMES)
  {
    IncreasingTagsAreDistinct(CONVERSATION_DATA.fields);
  }

  lemma ConversationListWellFormed()
    ensures DistinctTags(CONVERSATION_LIST.fields) && RefsWithin(CONVERSATION_LIST, HANDLER_TYPE_NAMES)
  {
    IncreasingTagsAreDistinct(CONVERSATION_LIST.fields);
  }

  lemma UserInfoDataWellFormed()
    ensures DistinctTags(USER_INFO_DATA.fields) && RefsWithin(USER_INFO_DATA, HANDLER_TYPE_NAMES)
  {
    IncreasingTagsAreDistinct(USER_INFO_DATA.fields);
  }

  lemma UserInfoWellFormed()
    ensures DistinctTags(USER_INFO.fields) && RefsWithin(USER_INFO, HANDLER_TYPE_NAMES)
  {
    IncreasingTagsAreDistinct(USER_INFO.fields);
  }

  lemma SendMessageDataWellFormed()
    ensures DistinctTags(SEND_MESSAGE_DATA.fields) && RefsWithin(SEND_MESSAGE_DATA, HANDLER_TYPE_NAMES)
  {
    IncreasingTagsAreDistinct(SEND_MESSAGE_DATA.fields);
  }

  lemma SendMessageWellFormed()
    ensures DistinctTags(SEND_MESSAGE.fields) && RefsWithin(SEND_MESSAGE, HANDLER_TYPE_NAMES)
  {
    IncreasingTagsAreDistinct(SEND_MESSAGE.fields);
  }

  /** Status: `number` optional, `code` and `msg` required. */
  lemma StatusRules()
    ensures FieldNamed(STATUS, "number") == Some(FieldDescriptor("number", 1, UINT64, Optional))
    ensures FieldNamed(STATUS, "code") == Some(FieldDescriptor("code", 2, INT32, Required))
    ensures FieldNamed(STATUS, "msg") == Some(FieldDescriptor("msg", 3, STRING, Required))
  {
    FieldNamedAt(STATUS, "number", 0);
    FieldNamedAt(STATUS, "code", 1);
    FieldNamedAt(STATUS, "msg", 2);
  }

  /** In SendMessage a field is required exactly when its tag is 2, 3, 4 or 6. */
  lemma SendMessageRequiredTags()
    ensures forall i :: 0 <= i < |SEND_MESSAGE.fields| ==>
              (SEND_MESSAGE.fields[i].rule == Required <==> SEND_MESSAGE.fields[i].id in {2, 3, 4, 6})
  {
  }

  /** Each of `msg_id`, `chat_id`, `chat_type` and `content_type` names a required field of SendMessage. */
  lemma SendMessageRequiredFields(name: string)
    requires name in {"msg_id", "chat_id", "chat_type", "content_type"}
    ensures FieldNamed(SEND_MESSAGE, name).Some? && FieldNamed(SEND_MESSAGE, name).value.rule == Required
  {
    if name == "msg_id" {
      FieldNamedAt(SEND_MESSAGE, name, 0);
    } else if name == "chat_id" {
      FieldNamedAt(SEND_MESSAGE, name, 1);
    } else if name == "chat_type" {
      FieldNamedAt(SEND_MESSAGE, name, 2);
    } else {
      FieldNamedAt(SEND_MESSAGE, name, 4);
    }
  }

  /** ConversationData refers to AtData through an optional field at tag 14. */
  lemma AtDataField()
    ensures FieldNamed(CONVERSATION_DATA, "at_data") == Some(FieldDescriptor("at_data", 14, MessageRef("AtData"), Optional))
  {
    FieldNamedAt(CONVERSATION_DATA, "at_data", 11);
  }

  /** ConversationList holds its conversations in a repeated field at tag 2. */
  lemma ConversationListData()
    ensures FieldNamed(CONVERSATION_LIST, "data") == Some(FieldDescriptor("data", 2, MessageRef("ConversationData"), Repeated))
  {
    FieldNamedAt(CONVERSATION_LIST, "data", 1);
  }
}
