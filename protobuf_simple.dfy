/**
 * The schema tables of the simple protobufjs handler: twelve message types,
 * created when the module loads and added to one root namespace in a fixed
 * order.
 */
module ProtobufSimple {

  import opened Wrappers
  import opened Schema
  import NativeHandler

  const STATUS: MessageType := MessageType("Status", [
    FieldDescriptor("number", 1, UINT64, NoRule),
    FieldDescriptor("code", 2, INT32, NoRule),
    FieldDescriptor("msg", 3, STRING, NoRule)])

  const CONVERSATION_DATA: MessageType := MessageType("ConversationData", [
    FieldDescriptor("chat_id", 1, STRING, NoRule),
    FieldDescriptor("chat_type", 2, UINT64, NoRule),
    FieldDescriptor("name", 3, STRING, NoRule),
    FieldDescriptor("chat_content", 4, STRING, NoRule),
    FieldDescriptor("timestamp_ms", 5, UINT64, NoRule),
    FieldDescriptor("unread_message", 6, UINT64, NoRule),
    FieldDescriptor("at", 7, UINT64, NoRule),
    FieldDescriptor("avatar_id", 8, UINT64, NoRule),
    FieldDescriptor("avatar_url", 9, STRING, NoRule),
    FieldDescriptor("do_not_disturb", 11, UINT64, NoRule),
    FieldDescriptor("timestamp", 12, UINT64, NoRule),
    FieldDescriptor("certification_level", 16, UINT64, NoRule)])

  const CONVERSATION_LIST: MessageType := MessageType("ConversationList", [
    FieldDescriptor("status", 1, MessageRef("Status"), NoRule),
    FieldDescriptor("data", 2, MessageRef("ConversationData"), Repeated),
    FieldDescriptor("total", 3, UINT64, NoRule),
    FieldDescriptor("request_id", 4, STRING, NoRule)])

  const USER_INFO_DATA: MessageType := MessageType("UserInfoData", [
    FieldDescriptor("id", 1, STRING, NoRule),
    FieldDescriptor("name", 2, STRING, NoRule),
    FieldDescriptor("avatar_url", 4, STRING, NoRule),
    FieldDescriptor("avatar_id", 5, UINT64, NoRule),
    FieldDescriptor("phone", 6, STRING, NoRule),
    FieldDescriptor("email", 7, STRING, NoRule),
    FieldDescriptor("coin", 8, DOUBLE, NoRule),
    FieldDescriptor("is_vip", 9, INT32, NoRule),
    FieldDescriptor("vip_expired_time", 10, UINT64, NoRule),
    FieldDescriptor("invitation_code", 12, STRING, NoRule)])

  const USER_INFO: MessageType := MessageType("UserInfo", [
    FieldDescriptor("status", 1, MessageRef("Status"), NoRule),
    FieldDescriptor("data", 2, MessageRef("UserInfoData"), NoRule)])

  const MESSAGE_SENDER: MessageType := MessageType("MessageSender", [
    FieldDescriptor("chat_id", 1, STRING, NoRule),
    FieldDescriptor("chat_type", 2, UINT64, NoRule),
    FieldDescriptor("name", 3, STRING, NoRule),
    FieldDescriptor("avatar_url", 4, STRING, NoRule),
    FieldDescriptor("tag_old", 6, STRING, Repeated),
    FieldDescriptor("tag", 7, MessageRef("MessageTag"), Repeated)])

  const MESSAGE_TAG: MessageType := MessageType("MessageTag", [
    FieldDescriptor("id", 1, UINT64, NoRule),
    FieldDescriptor("text", 3, STRING, NoRule),
    FieldDescriptor("color", 4, STRING, NoRule)])

  const MESSAGE_CONTENT: MessageType := MessageType("MessageContent", [
    FieldDescriptor("text", 1, STRING, NoRule),
    FieldDescriptor("buttons", 2, STRING, NoRule),
    FieldDescriptor("image_url", 3, STRING, NoRule),
    FieldDescriptor("file_name", 4, STRING, NoRule),
    FieldDescriptor("file_url", 5, STRING, NoRule),
    FieldDescriptor("form", 7, STRING, NoRule),
    FieldDescriptor("quote_msg_text", 8, STRING, NoRule),
    FieldDescriptor("sticker_url", 9, STRING, NoRule),
    FieldDescriptor("post_id", 10, STRING, NoRule),
    FieldDescriptor("post_title", 11, STRING, NoRule),
    FieldDescriptor("post_content", 12, STRING, NoRule),
    FieldDescriptor("post_content_type", 13, STRING, NoRule),
    FieldDescriptor("expression_id", 15, STRING, NoRule),
    FieldDescriptor("quote_image_url", 16, STRING, NoRule),
    FieldDescriptor("quote_image_name", 17, STRING, NoRule),
    FieldDescriptor("file_size", 18, UINT64, NoRule),
    FieldDescriptor("video_url", 19, STRING, NoRule),
    FieldDescriptor("audio_url", 21, STRING, NoRule),
    FieldDescriptor("audio_time", 22, UINT64, NoRule),
    FieldDescriptor("quote_video_url", 23, STRING, NoRule),
    FieldDescriptor("quote_video_time", 24, UINT64, NoRule),
    FieldDescriptor("sticker_item_id", 25, UINT64, NoRule),
    FieldDescriptor("sticker_pack_id", 26, UINT64, NoRule),
    FieldDescriptor("call_text", 29, STRING, NoRule),
    FieldDescriptor("call_status_text", 32, STRING, NoRule),
    FieldDescriptor("width", 33, UINT64, NoRule),
    FieldDescriptor("height", 34, UINT64, NoRule),
    FieldDescriptor("tip", 37, STRING, NoRule)])

  const MESSAGE_CMD: MessageType := MessageType("MessageCmd", [
    FieldDescriptor("name", 2, STRING, NoRule),
    FieldDescriptor("type", 4, UINT64, NoRule)])

  const MESSAGE_DATA: MessageType := MessageType("MessageData", [
    FieldDescriptor("msg_id", 1, STRING, NoRule),
    FieldDescriptor("sender", 2, MessageRef("MessageSender"), NoRule),
    FieldDescriptor("direction", 3, STRING, NoRule),
    FieldDescriptor("content_type", 4, UINT64, NoRule),
    FieldDescriptor("content", 5, MessageRef("MessageContent"), NoRule),
    FieldDescriptor("send_time", 6, UINT64, NoRule),
    FieldDescriptor("cmd", 7, MessageRef("MessageCmd"), NoRule),
    FieldDescriptor("msg_delete_time", 8, UINT64, NoRule),
    FieldDescriptor("quote_msg_id", 9, STRING, NoRule),
    FieldDescriptor("msg_seq", 10, UINT64, NoRule),
    FieldDescriptor("edit_time", 12, UINT64, NoRule)])

  const LIST_MESSAGE: MessageType := MessageType("ListMessage", [
    FieldDescriptor("status", 1, MessageRef("Status"), NoRule),
    FieldDescriptor("msg", 2, MessageRef("MessageData"), Repeated)])

  const LIST_MESSAGE_SEND: MessageType := MessageType("ListMessageSend", [
    FieldDescriptor("msg_count", 2, UINT64, NoRule),
    FieldDescriptor("msg_id", 3, STRING, NoRule),
    FieldDescriptor("chat_type", 4, UINT64, NoRule),
    FieldDescriptor("chat_id", 5, STRING, NoRule)])
  /** The root namespace, in the order of the `root.add` calls. */
  const ROOT: seq<MessageType> := [
    STATUS, CONVERSATION_DATA, CONVERSATION_LIST, USER_INFO_DATA, USER_INFO, MESSAGE_TAG,
    MESSAGE_SENDER, MESSAGE_CONTENT, MESSAGE_CMD, MESSAGE_DATA, LIST_MESSAGE, LIST_MESSAGE_SEND]

  const TYPE_NAMES: seq<string> := [
    "Status", "ConversationData", "ConversationList", "UserInfoData", "UserInfo", "MessageTag",
    "MessageSender", "MessageContent", "MessageCmd", "MessageData", "ListMessage", "ListMessageSend"]

  /** The root holds exactly these twelve types, in this order. */
  lemma RootNames()
    ensures TypeNames(ROOT) == TYPE_NAMES
  {
  }

  /** A type name resolves exactly when it is one of the twelve. */
  lemma LookupSucceedsExactly(name: string)
    ensures LookupType(ROOT, name).Some? <==> name in TYPE_NAMES
  {
    LookupTypeIff(ROOT, name);
    RootNames();
  }

  /** Within each type the field tags are pairwise distinct, and every reference names a type of the root. */
  lemma RootWellFormed()
    ensures forall m :: m in ROOT ==> DistinctTags(m.fields)
    ensures RefsResolve(ROOT)
  {
    StatusWellFormed();
    ConversationDataWellFormed();
    ConversationListWellFormed();
    UserInfoDataWellFormed();
    UserInfoWellFormed();
    MessageSenderWellFormed();
    MessageTagWellFormed();
    MessageContentWellFormed();
    MessageCmdWellFormed();
    MessageDataWellFormed();
    ListMessageWellFormed();
    ListMessageSendWellFormed();
    RootNames();
  }

  lemma StatusWellFormed()
    ensures DistinctTags(STATUS.fields) && RefsWithin(STATUS, TYPE_NAMES)
  {
    IncreasingTagsAreDistinct(STATUS.fields);
  }

  lemma ConversationDataWellFormed()
    ensures DistinctTags(CONVERSATION_DATA.fields) && RefsWithin(CONVERSATION_DATA, TYPE_NAMES)
  {
    IncreasingTagsAreDistinct(CONVERSATION_DATA.fields);
  }

  lemma ConversationListWellFormed()
    ensures DistinctTags(CONVERSATION_LIST.fields) && RefsWithin(CONVERSATION_LIST, TYPE_NAMES)
  {
    IncreasingTagsAreDistinct(CONVERSATION_LIST.fields);
  }

  lemma UserInfoDataWellFormed()
    ensures DistinctTags(USER_INFO_DATA.fields) && RefsWithin(USER_INFO_DATA, TYPE_NAMES)
  {
    IncreasingTagsAreDistinct(USER_INFO_DATA.fields);
  }

  lemma UserInfoWellFormed()
    ensures DistinctTags(USER_INFO.fields) && RefsWithin(USER_INFO, TYPE_NAMES)
  {
    IncreasingTagsAreDistinct(USER_INFO.fields);
  }

  lemma MessageSenderWellFormed()
    ensures DistinctTags(MESSAGE_SENDER.fields) && RefsWithin(MESSAGE_SENDER, TYPE_NAMES)
  {
    IncreasingTagsAreDistinct(MESSAGE_SENDER.fields);
  }

  lemma MessageTagWellFormed()
    ensures DistinctTags(MESSAGE_TAG.fields) && RefsWithin(MESSAGE_TAG, TYPE_NAMES)
  {
    IncreasingTagsAreDistinct(MESSAGE_TAG.fields);
  }

  lemma MessageContentWellFormed()
    ensures DistinctTags(MESSAGE_CONTENT.fields) && RefsWithin(MESSAGE_CONTENT, TYPE_NAMES)
  {
    MessageContentTagsIncreasing();
    IncreasingTagsAreDistinct(MESSAGE_CONTENT.fields);
    MessageContentHasNoRefs();
  }

  /** MessageContent declares its 28 fields in increasing tag order. */
  lemma MessageContentTagsIncreasing()
    ensures TagsIncreasing(MESSAGE_CONTENT.fields)
  {
  }

  /** No field of MessageContent refers to another message type. */
  lemma MessageContentHasNoRefs()
    ensures RefsWithin(MESSAGE_CONTENT, [])
  {
  }

  lemma MessageCmdWellFormed()
    ensures DistinctTags(MESSAGE_CMD.fields) && RefsWithin(MESSAGE_CMD, TYPE_NAMES)
  {
    IncreasingTagsAreDistinct(MESSAGE_CMD.fields);
  }

  lemma MessageDataWellFormed()
    ensures DistinctTags(MESSAGE_DATA.fields) && RefsWithin(MESSAGE_DATA, TYPE_NAMES)
  {
    IncreasingTagsAreDistinct(MESSAGE_DATA.fields);
  }

  lemma ListMessageWellFormed()
    ensures DistinctTags(LIST_MESSAGE.fields) && RefsWithin(LIST_MESSAGE, TYPE_NAMES)
  {
    IncreasingTagsAreDistinct(LIST_MESSAGE.fields);
  }

  lemma ListMessageSendWellFormed()
    ensures DistinctTags(LIST_MESSAGE_SEND.fields) && RefsWithin(LIST_MESSAGE_SEND, TYPE_NAMES)
  {
    IncreasingTagsAreDistinct(LIST_MESSAGE_SEND.fields);
  }

  /** Status carries `number` at 1, and `code` and `msg` at the tags the hand-written walker reads. */
  lemma StatusTags()
    ensures FieldNamed(STATUS, "number") == Some(FieldDescriptor("number", 1, UINT64, NoRule))
    ensures FieldNamed(STATUS, "code") == Some(FieldDescriptor("code", NativeHandler.CODE_TAG, INT32, NoRule))
    ensures FieldNamed(STATUS, "msg") == Some(FieldDescriptor("msg", NativeHandler.MSG_TAG, STRING, NoRule))
  {
    FieldNamedAt(STATUS, "number", 0);
    FieldNamedAt(STATUS, "code", 1);
    FieldNamedAt(STATUS, "msg", 2);
  }

  /** The two repeated message fields. */
  lemma RepeatedLists()
    ensures FieldNamed(CONVERSATION_LIST, "data") == Some(FieldDescriptor("data", 2, MessageRef("ConversationData"), Repeated))
    ensures FieldNamed(LIST_MESSAGE, "msg") == Some(FieldDescriptor("msg", 2, MessageRef("MessageData"), Repeated))
  {
    FieldNamedAt(CONVERSATION_LIST, "data", 1);
    FieldNamedAt(LIST_MESSAGE, "msg", 1);
  }

  /** The forward reference from MessageSender to MessageTag resolves to the type added before it. */
  lemma ForwardReferenceResolves()
    ensures FieldNamed(MESSAGE_SENDER, "tag") == Some(FieldDescriptor("tag", 7, MessageRef("MessageTag"), Repeated))
    ensures LookupType(ROOT, "MessageTag") == Some(MESSAGE_TAG)
  {
    FieldNamedAt(MESSAGE_SENDER, "tag", 5);
    LookupTypeAt(ROOT, "MessageTag", 5);
  }
}
