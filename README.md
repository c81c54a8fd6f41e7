# Yhchat_RN protocol core in Dafny

This project models the protocol core of Yhchat_RN, a React Native client for the Yunhu (云湖) chat service. The core has four parts:

- **The hand-written protobuf reader** (`NativeProtoBufHandler`):
  - the varint reader with its 32-bit JavaScript arithmetic;
  - the field parser for wire types 0 and 2;
  - the tolerant nested-message loop and the strict top-level loop;
  - the assemblers for user-info and conversation-list replies, including their `||` defaults and their `catch` fallback;
  - the regular-expression extractors for the user record;
  - the `parseResponse` switch.
- **The image proxy helpers.** URLs on the chat's own image hosts are routed through public proxies.
- **The schema tables of the two protobufjs handlers**, with their status helpers `isSuccess` and `getErrorMessage`.
- **The full handler's lifecycle.** Its `root` stays empty until `initialize` runs, `serialize` and `deserialize` refuse to run before that, and `getInstance` returns a singleton.

Modules follow the source:

- `Wire` holds `readVarint`, `readString` and `parseField`.
- `Fields` holds the two field loops.
- `Extract` holds the `extract*` helpers.
- `NativeHandler` holds the reply assemblers and `parseResponse`.
- `ImageProxy` covers `utils/imageProxy.ts`.
- `Schema`, `ProtobufSimple` and `ProtobufHandler` cover the protobufjs tables and the handler class.
- `ResponseStatus` holds `isSuccess` and `getErrorMessage`.
- `Js` holds JavaScript truthiness, `||` and number-to-string conversion.
- `Wrappers` holds `Option` and `Result`.
- `Encoding` is a reference writer for the wire format. The source has no writer. This one serves only to state what the reader recovers from well-formed input (`Encoding.ScanEncoded`, `Encoding.ScanAsWrittenEncoded`).

Three things the code calls become parameters:

- TextDecoder/TextEncoder become a `TextCodec` pair of functions.
- `encodeURIComponent` becomes a function parameter.
- `Date.now()` becomes a parameter `now`.

Three behaviours of the code are modelled exactly as written:

- **Varint reader.** It accumulates in a 32-bit signed number with `|=` and `<<`, where the shift count is taken mod 32. It reads every byte that has the continuation bit, however many there are. Running off the end of the buffer is not an error: it returns what was collected.
- **Field parser.** An unsupported wire type throws. The top-level loops let that throw reach the `catch` and its fallback record. The nested loop stops there and keeps the fields it has read.
- **Conversation list.** `parseConversationListResponse` takes `code` and `msg` from its own top-level fields 2 and 3. It always returns an empty `data` and a `total` of 0.

The model departs from the code in one place: `parseField` reads its length prefix as a signed number, and the model reads it as unsigned. The Findings give the inputs where this matters. The members that use the unsigned reading are listed under "## Left out", and `Fields.ScanAsWritten` models the loop as written. `Fields.ScanAsWrittenAgrees` proves that the two readings give the same result on every buffer in which no length prefix the loop meets reads as negative. Well-formed encodings are such buffers (`Encoding.ScanAsWrittenEncoded`).

## Model

| member | source | states |
|---|---|---|
| Wire.ReadVarint | utils/protobufNative.ts:23-39 | the loop returns exactly the value and end offset of the varint at `offset` (VarintAt), with `\|=`, `<<` mod 32 and the int32 result |
| Wire.VarintAt | utils/protobufNative.ts:23-39 | the end offset is the byte after the first byte below 0x80, or the buffer end; past the end the value is 0 |
| Wire.VarintStopsAtTerminator | utils/protobufNative.ts:28-36 | every byte before the last one read has the continuation bit; the last one does not, unless the buffer ran out |
| Wire.TruncatedVarint | utils/protobufNative.ts:28-38 | an unterminated varint is not an error: it yields the 32-bit OR of the chunks of all remaining bytes and the buffer end |
| Wire.VarintOfAtMostFourBytes | utils/protobufNative.ts:30 | a varint of at most four bytes has the plain base-128 value: no 32-bit effect applies |
| Wire.SingleByteVarint | utils/protobufNative.ts:28-34 | a byte below 0x80 is a one-byte varint of its own value |
| Wire.ToInt32 | utils/protobufNative.ts:30 | the JavaScript number of a 32-bit pattern lies in the int32 range and equals the pattern below 2^31 |
| Wire.Or32 | utils/protobufNative.ts:30 | the bitwise OR of the accumulator and a chunk stays below 2^32 |
| Wire.ChunkBitsSnoc | utils/protobufNative.ts:30 | reading one more byte ORs its chunk, shifted by seven times the bytes read, into the accumulator |
| Wire.ChunkBitsIsBase128 | utils/protobufNative.ts:30 | for up to four bytes the accumulated OR equals the base-128 sum and is below 2^(7n) |
| Wire.WireTypeOf | utils/protobufNative.ts:69 | `tag & 0x07` is always in 0..7 |
| Wire.KeySplitRoundTrip | utils/protobufNative.ts:69-70 | splitting a key into `tag >> 3` and `tag & 7` and recombining is the identity, both ways |
| Wire.Slice | utils/protobufNative.ts:43 | `buffer.slice` clamps the end to the buffer and is empty when the end precedes the start |
| Wire.ReadStringBytes | utils/protobufNative.ts:42-45 | the bytes handed to the decoder are the `length` bytes from `offset`, or all remaining bytes when fewer remain |
| Wire.FieldAfterKey | utils/protobufNative.ts:68-99 | unsupported exactly for wire types other than 0 and 2; otherwise a field with `tag >> 3` and the wire type, whose offset moves forward |
| Wire.FieldAt | utils/protobufNative.ts:67-100 | a parsed field always moves the offset past `offset` (length read as unsigned) |
| Wire.ParseField | utils/protobufNative.ts:67-100 | the method returns exactly FieldAt: the error for an unsupported wire type, or the field and new offset |
| Wire.JsSlice | utils/protobufNative.ts:43 | `slice` with a negative end counts from the end of the buffer, and is empty when that lies before the start |
| Wire.FieldAfterKeyAsWritten | utils/protobufNative.ts:83-85 | with the signed length as written: the same error cases as the corrected parser, and the same result for every varint field and for every length-delimited field whose length reads as non-negative |
| Wire.FieldAtAsWritten | utils/protobufNative.ts:67-100 | the parser as written fails exactly when the corrected one does |
| Wire.AsWrittenAgrees | utils/protobufNative.ts:67-100 | where the corrected parser reads a field at `offset`, the parser as written reads the same field and ends at the same offset, unless the field is length-delimited with a negative length |
| Wire.LoopingPrefixIsMinusSix | utils/protobufNative.ts:30 | the length prefix FA FF FF FF 0F reads as -6, ending at offset 6 |
| Wire.AsWrittenFieldDoesNotAdvance | utils/protobufNative.ts:83-85 | on 0A FA FF FF FF 0F the parser as written returns field 1 with empty bytes and new offset 0, so the loop repeats forever; the corrected parser moves past the end |
| Wire.NegativeLengthPrefix | utils/protobufNative.ts:30 | a five-byte length prefix `b FF FF FF 0F` reads as the negative number `b - 256`, ending at offset 6 |
| Wire.RawFieldAt | utils/protobufNative.ts:28-33 | `parseField` as written at any offset: before the start of the buffer every byte reads as 0, so the field there is field 0 with wire type 0, never throws and moves forward |
| Wire.ThrowingBufferFields | utils/protobufNative.ts:83-89 | on 0A F9 FF FF FF 0F the parser as written reads field 1 and moves back to -1, then reads byte 0 as field 0 and moves to 1, then throws on the key -7; the corrected parser moves past the end |
| Wire.NegativeLengthField | utils/protobufNative.ts:83-85 | a key 10 followed by a length of -6 ending at 6 sends the as-written offset back to 0 |
| Wire.BytesKeyAfterLength | utils/protobufNative.ts:82-86 | for a wire-type-2 key, the as-written and the corrected parser differ only in reading the length signed or unsigned |
| Fields.ScanFrom | utils/protobufNative.ts:52-61 | the loop from `offset` reads no more fields than bytes remain, and reads none at or past the end |
| Fields.ScanAsWritten | utils/protobufNative.ts:107-114 | the top-level loop with `parseField` as written, from any offset: it ends at once at or past the end of the buffer |
| Fields.ScanAsWrittenBound | utils/protobufNative.ts:110-114 | the loop as written reads at most one field per step it is allowed |
| Fields.AsWrittenStep | utils/protobufNative.ts:110-114 | where a field parses, the loop as written takes it and goes on from its new offset, with one step less |
| Fields.ScanAsWrittenAgrees | utils/protobufNative.ts:67-114 | when no length prefix the loop meets reads as negative, the loop as written reads the same fields as the loop with the unsigned length; it ends when that loop ends and throws when that loop throws, given one step per field and one for the throw |
| Fields.StalledLoopNeverEnds | utils/protobufNative.ts:110-114 | a field at offset 0 that ends at offset 0 makes the loop as written run forever, however many steps it is allowed |
| Fields.AsWrittenLoopNeverEnds | utils/protobufNative.ts:110-114 | on 0A FA FF FF FF 0F the loop as written never ends |
| Fields.AsWrittenLoopThrows | utils/protobufNative.ts:110-114 | on 0A F9 FF FF FF 0F the loop as written reads two fields and throws, while the loop with the unsigned length reads one field and ends |
| Fields.FieldMap | utils/protobufNative.ts:55 | every key of `fields[tag] = value` is the number of a field that was read |
| Fields.FieldMapLastWins | utils/protobufNative.ts:55 | the stored value for a field number is that of its last occurrence |
| Fields.FieldMapSnoc | utils/protobufNative.ts:112 | storing one more field updates the map at that number only |
| Fields.CollectingStep | utils/protobufNative.ts:110-114 | one iteration of a field loop keeps the loop state: seen fields plus the rest of the scan, and the map of the seen fields |
| Fields.ReadMessageFields | utils/protobufNative.ts:107-114 | the top-level loop throws exactly when the scan meets an unsupported wire type, and otherwise returns the map of all fields read |
| Fields.ParseNestedMessage | utils/protobufNative.ts:48-64 | the nested loop never throws and returns the map of the fields before the first unsupported wire type |
| Encoding.ScanEncoded | utils/protobufNative.ts:67-100 | reading a well-formed encoding of a list of fields gives back exactly that list, with no error |
| Encoding.ReadEncodedLength | utils/protobufNative.ts:82-83 | after the key of an encoded bytes field, the length prefix reads as the length of its data |
| Encoding.EncodedLengthNotNegative | utils/protobufNative.ts:82-85 | the length prefix of an encoded field, if it has one, does not read as negative |
| Encoding.EncodedLengthsNotNegative | utils/protobufNative.ts:82-85 | no length prefix in the encoding of a list of fields reads as negative |
| Encoding.ScanAsWrittenEncoded | utils/protobufNative.ts:107-114 | the loop as written reads a well-formed encoding back as exactly its fields and ends, given one step per field |
| Encoding.ReadEncodedVarint | utils/protobufNative.ts:23-39 | the reader returns the value of an encoded varint below 2^28 and the offset just past it |
| Js.OrElse | utils/protobufNative.ts:135-136 | `a \|\| b` keeps a truthy `a` and is otherwise `b`, so a truthy default makes the result truthy |
| Js.StringOr | utils/protobufNative.ts:153-157 | `s \|\| fallback` on strings keeps a non-empty `s` and replaces only the empty string, so a non-empty default gives a non-empty result |
| Js.DecimalString | utils/protobufNative.ts:153 | the string of a number is non-empty and all decimal digits |
| Js.DecimalRoundTrip | utils/protobufNative.ts:153 | the decimal string reads back as the number |
| Extract.RunEnd | utils/protobufNative.ts:199 | the greedy run of a character class from `i` ends at the first character outside it |
| Extract.LastPng | utils/protobufNative.ts:212 | the backtracking choice of `.png`: the last occurrence inside the run |
| Extract.LastTld | utils/protobufNative.ts:218 | the backtracking choice of the last `.` followed by at least two letters inside the domain run |
| Extract.MatchAt | utils/protobufNative.ts:199-224 | the backtracking matcher's result at a start position is a real match of the pattern |
| Extract.MatchAtIsLongest | utils/protobufNative.ts:199-224 | at each start, the matcher finds a match exactly when one exists, and it is the longest one |
| Extract.UserIdLongest | utils/protobufNative.ts:199 | when `\d{6,}` matches at `i`, the matcher finds a match there that is at least as long |
| Extract.UserNameLongest | utils/protobufNative.ts:206 | when the Han-character class matches at `i`, the matcher finds a match there that is at least as long |
| Extract.PhoneLongest | utils/protobufNative.ts:224 | when `1[3-9]\d{9}` matches at `i`, the matcher finds exactly that match |
| Extract.AvatarUrlLongest | utils/protobufNative.ts:212 | when the URL pattern matches at `i`, the matcher (the last `.png` of the run) finds a match there that is at least as long |
| Extract.EmailLongest | utils/protobufNative.ts:218 | when the e-mail pattern matches at `i`, the matcher (whole local run, last usable dot) finds a match there that is at least as long |
| Extract.EmailFound | utils/protobufNative.ts:218 | what the e-mail matcher finds is a match of the pattern |
| Extract.FirstMatch | utils/protobufNative.ts:199-224 | the search returns the leftmost start with a match |
| Extract.Extract | utils/protobufNative.ts:199-224 | `match ? match[0] : ''` is never longer than its input |
| Extract.MatchFound | utils/protobufNative.ts:199-224 | a match of the pattern at `i` means the matcher succeeds at `i` |
| Extract.ExtractIsLeftmostLongest | utils/protobufNative.ts:199-224 | the result is empty exactly when nothing matches, and otherwise is the leftmost-longest match |
| Extract.ExtractUserId | utils/protobufNative.ts:197-201 | empty, or at least six decimal digits |
| Extract.ExtractUserName | utils/protobufNative.ts:204-208 | empty, or a run of characters U+4E00..U+9FA5 |
| Extract.ExtractAvatarUrl | utils/protobufNative.ts:211-214 | empty, or starts with `https://` and ends with `.png` |
| Extract.ExtractEmail | utils/protobufNative.ts:217-220 | empty, or a whole-string e-mail match |
| Extract.EmailSlice | utils/protobufNative.ts:218-219 | the slice of an e-mail match is itself an e-mail match |
| Extract.ExtractPhone | utils/protobufNative.ts:223-226 | empty, or eleven digits starting with 1 and then 3-9 |
| NativeHandler.TextField | utils/protobufNative.ts:129 | `fields[t] && typeof fields[t] === 'string'` holds exactly for a length-delimited field that decodes to a non-empty string |
| NativeHandler.StatusOf | utils/protobufNative.ts:135-136 | code and msg are always truthy; each is the field when present and truthy and 1 or 'success' otherwise |
| NativeHandler.UserDataOf | utils/protobufNative.ts:152-163 | id is at least six digits or `user_` followed by the time; name is Han characters or '云湖用户'; phone is empty or 11 characters; the numeric fields are 0 and the invitation code is empty |
| NativeHandler.UserInfoOfFields | utils/protobufNative.ts:124-172 | the status defaults without a usable field 1; data is present exactly when field 2 is a non-empty string |
| NativeHandler.UserInfoOf | utils/protobufNative.ts:103-194 | the status is always truthy; a throwing top-level loop yields the fallback record |
| NativeHandler.UserIdIsNotFallback | utils/protobufNative.ts:153 | an id built from data is never `fallback_user` |
| NativeHandler.FallbackExactlyWhenThrown | utils/protobufNative.ts:176-193 | the reply carries `fallback_user` exactly when the top-level loop threw |
| NativeHandler.ParseUserInfoResponse | utils/protobufNative.ts:103-194 | the method returns exactly UserInfoOf |
| NativeHandler.ConversationListOf | utils/protobufNative.ts:229-257 | data is empty and total is 0; the status is truthy, and defaults when the loop threw |
| NativeHandler.ParseConversationListResponse | utils/protobufNative.ts:229-257 | the method returns exactly ConversationListOf |
| NativeHandler.ParseResponse | utils/protobufNative.ts:260-273 | 'UserInfo' and 'ConversationList' go to their parsers; any other type yields code 1, 'success' and null data |
| NativeHandler.NegativeLengthFallsBack | utils/protobufNative.ts:176-193 | on 0A F9 FF FF FF 0F the code as written throws into the `catch` and its `fallback_user` record, while the model's reply has no user data and is not the fallback |
| NativeHandler.ScanOfEncoded | utils/protobufNative.ts:110-114 | the top-level loop reads a well-formed encoding back without an error |
| NativeHandler.UserInfoOfEncoded | utils/protobufNative.ts:143-163 | on a well-formed encoding the user record is built from the last field 2 |
| NativeHandler.StatusOfEncoded | utils/protobufNative.ts:129-140 | when the codec returns the status bytes unchanged, the nested status yields its own code and msg |
| ImageProxy.IncludesIff | utils/imageProxy.ts:12 | `includes` holds exactly when the substring occurs at some position |
| ImageProxy.GetProxyImageUrl | utils/imageProxy.ts:8-19 | empty for empty input; the weserv proxy for the chat's image hosts; the URL itself otherwise |
| ImageProxy.ProxyUrls | utils/imageProxy.ts:26-47 | empty exactly for empty input; the original URL comes first; one or three candidates |
| ImageProxy.GetProxyImageUrls | utils/imageProxy.ts:26-47 | the pushes build exactly ProxyUrls |
| ImageProxy.SingleUrlIsPreferredProxy | utils/imageProxy.ts:14 | for the image hosts the single URL is the list's second entry, the weserv proxy; otherwise it is the list's first entry, the original |
| ImageProxy.ProxiedExactlyForImageHosts | utils/imageProxy.ts:35 | the proxies are added exactly when one of the two image hosts occurs in the URL |
| Schema.IncreasingBetween | utils/protobufSimple.ts:8-118 | tags declared in increasing order increase between any two positions |
| Schema.IncreasingTagsAreDistinct | utils/protobufSimple.ts:8-118 | tags declared in increasing order are pairwise distinct |
| Schema.TypeNames | utils/protobufSimple.ts:121-132 | the names of a root, position by position |
| Schema.LookupType | utils/protobufSimple.ts:149 | a found type is in the root and has the requested name |
| Schema.LookupTypeIff | utils/protobufSimple.ts:149 | the lookup finds a type exactly when a type of that name was added |
| Schema.LookupTypeAt | utils/protobufSimple.ts:149 | the lookup finds the first type of that name |
| Schema.FieldNamed | utils/protobufSimple.ts:8-118 | a found field belongs to the type and has the requested name |
| Schema.FirstNamed | utils/protobufSimple.ts:8-118 | a field is found exactly when one has that name |
| Schema.FieldNamedAt | utils/protobufSimple.ts:8-118 | FieldNamed finds the first field of that name |
| Schema.FirstNamedAt | utils/protobufSimple.ts:8-118 | the search finds the first field of that name |
| ProtobufSimple.RootNames | utils/protobufSimple.ts:121-132 | the root holds exactly the twelve types, in `root.add` order |
| ProtobufSimple.LookupSucceedsExactly | utils/protobufSimple.ts:149 | `lookupType` succeeds exactly for the twelve names |
| ProtobufSimple.RootWellFormed | utils/protobufSimple.ts:8-132 | every type has pairwise-distinct tags, and every message reference names a registered type |
| ProtobufSimple.StatusWellFormed | utils/protobufSimple.ts:8-11 | distinct tags; references resolve |
| ProtobufSimple.ConversationDataWellFormed | utils/protobufSimple.ts:13-25 | distinct tags; references resolve |
| ProtobufSimple.ConversationListWellFormed | utils/protobufSimple.ts:27-31 | distinct tags; references resolve |
| ProtobufSimple.UserInfoDataWellFormed | utils/protobufSimple.ts:33-43 | distinct tags; references resolve |
| ProtobufSimple.UserInfoWellFormed | utils/protobufSimple.ts:45-47 | distinct tags; references resolve |
| ProtobufSimple.MessageSenderWellFormed | utils/protobufSimple.ts:50-56 | distinct tags; references resolve |
| ProtobufSimple.MessageTagWellFormed | utils/protobufSimple.ts:58-61 | distinct tags; references resolve |
| ProtobufSimple.MessageContentWellFormed | utils/protobufSimple.ts:63-91 | distinct tags; references resolve |
| ProtobufSimple.MessageCmdWellFormed | utils/protobufSimple.ts:93-95 | distinct tags; references resolve |
| ProtobufSimple.MessageDataWellFormed | utils/protobufSimple.ts:97-108 | distinct tags; references resolve |
| ProtobufSimple.ListMessageWellFormed | utils/protobufSimple.ts:110-112 | distinct tags; references resolve |
| ProtobufSimple.ListMessageSendWellFormed | utils/protobufSimple.ts:114-118 | distinct tags; references resolve |
| ProtobufSimple.StatusTags | utils/protobufSimple.ts:8-11 | `number` is uint64 at 1; `code` (int32) and `msg` (string) are at the nested tags 2 and 3 that the hand-written reader uses |
| ProtobufSimple.RepeatedLists | utils/protobufSimple.ts:29-112 | `ConversationList.data` and `ListMessage.msg` are repeated message fields at tag 2 |
| ProtobufSimple.ForwardReferenceResolves | utils/protobufSimple.ts:50-61 | `MessageSender.tag`, declared before MessageTag, resolves to it in the root |
| ResponseStatus.IsSuccess | utils/protobufSimple.ts:183-185 | true exactly when a status is present and its code is the number 1; the full handler's copy at utils/protobuf.ts:178-180 is the same expression |
| ResponseStatus.ErrorMessage | utils/protobufSimple.ts:188-190 | never falsy: the status message when present and truthy, '未知错误' otherwise; the full handler's copy at utils/protobuf.ts:183-185 is the same expression |
| ResponseStatus.StringCodeIsNotSuccess | utils/protobufSimple.ts:184 | a code that is the string "1" is not a success, because the comparison is strict |
| ResponseStatus.OfStatus | utils/protobufNative.ts:166-172 | the reply's status object carries both its code and its msg |
| ResponseStatus.NativeReplyHasOwnMessage | utils/protobufNative.ts:135-136 | the error message of any hand-parsed user-info reply is its own msg, never the generic one |
| ResponseStatus.MalformedReplyIsSuccess | utils/protobufNative.ts:176-193 | a buffer whose top-level loop throws still yields a reply that counts as success, with message 'success' |
| ResponseStatus.ConversationListSuccessIff | utils/protobufNative.ts:241-248 | a readable conversation list is a success exactly when field 2 is missing, falsy or the varint 1 |
| ProtobufHandler.Guard | utils/protobuf.ts:133-160 | fails with 'ProtoBuf 未初始化' exactly when there is no root; a found type is in the root; a missing type is absent from it |
| ProtobufHandler.ProtoBufHandler.constructor | utils/protobuf.ts:24-26 | a new handler has no root |
| ProtobufHandler.ProtoBufHandler.Initialize | utils/protobuf.ts:36-129 | afterwards the root is the eight-type namespace |
| ProtobufHandler.ProtoBufHandler.Serialize | utils/protobuf.ts:132-145 | the guard and the type lookup of `serialize` |
| ProtobufHandler.ProtoBufHandler.Deserialize | utils/protobuf.ts:148-161 | the guard and the type lookup of `deserialize` |
| ProtobufHandler.HandlerSingleton.GetInstance | utils/protobuf.ts:28-33 | the first call creates a fresh handler with no root; later calls return the stored one |
| ProtobufHandler.GetInstanceTwice | utils/protobuf.ts:28-33 | two calls return the same object |
| ProtobufHandler.GuardBeforeInitialize | utils/protobuf.ts:133-135 | before `initialize` every type name fails with 'ProtoBuf 未初始化' |
| ProtobufHandler.GuardAfterInitialize | utils/protobuf.ts:114-122 | after `initialize` a name resolves exactly when it is one of the eight, and fails as unknown otherwise |
| ProtobufHandler.HandlerRootNames | utils/protobuf.ts:114-122 | the root holds exactly Status, AtData, ConversationData, ConversationList, UserInfoData, UserInfo, SendMessageData and SendMessage, in that order |
| ProtobufHandler.HandlerRootWellFormed | utils/protobuf.ts:41-122 | every type has pairwise-distinct tags, and every message reference names one of the eight |
| ProtobufHandler.StatusWellFormed | utils/protobuf.ts:41-44 | distinct tags; references resolve |
| ProtobufHandler.AtDataWellFormed | utils/protobuf.ts:47-54 | distinct tags; references resolve |
| ProtobufHandler.ConversationDataWellFormed | utils/protobuf.ts:56-69 | distinct tags; references resolve |
| ProtobufHandler.ConversationListWellFormed | utils/protobuf.ts:71-75 | distinct tags; references resolve |
| ProtobufHandler.UserInfoDataWellFormed | utils/protobuf.ts:78-88 | distinct tags; references resolve |
| ProtobufHandler.UserInfoWellFormed | utils/protobuf.ts:90-92 | distinct tags; references resolve |
| ProtobufHandler.SendMessageDataWellFormed | utils/protobuf.ts:95-103 | distinct tags; references resolve |
| ProtobufHandler.SendMessageWellFormed | utils/protobuf.ts:105-111 | distinct tags; references resolve |
| ProtobufHandler.StatusRules | utils/protobuf.ts:41-44 | `number` is optional, `code` and `msg` are required |
| ProtobufHandler.SendMessageRequiredTags | utils/protobuf.ts:105-111 | a SendMessage field is required exactly when its tag is 2, 3, 4 or 6 |
| ProtobufHandler.SendMessageRequiredFields | utils/protobuf.ts:105-111 | `msg_id`, `chat_id`, `chat_type` and `content_type` name required fields |
| ProtobufHandler.AtDataField | utils/protobuf.ts:68 | `ConversationData.at_data` is an optional AtData at tag 14 |
| ProtobufHandler.ConversationListData | utils/protobuf.ts:73 | `ConversationList.data` is a repeated ConversationData at tag 2 |

## Left out

- Encoding and decoding are done by protobufjs in the `serialize`/`deserialize` methods of both protobufjs handlers (`message.create`, `encode`, `decode`, `toObject`). That code is not part of this model. `Serialize` and `Deserialize` model only the not-initialised guard and the type lookup in front of it.
- `parseResponse` in the protobufjs handlers and `parseFromResponse` in the native handler await `response.arrayBuffer()`: this is asynchronous I/O.
- Console logging is left out, as is the unused `parts` computed from the data string (utils/protobufNative.ts:150).
- TextDecoder and TextEncoder are the uninterpreted `TextCodec` parameter. `encodeURIComponent` is a function parameter. `Date.now()` is the `now` parameter, a natural number printed in decimal.
- The `getInstance` methods of the native and simple handlers are left out. Their singletons hold no state, so only the full handler's `getInstance` is modelled, as `HandlerSingleton.GetInstance`.
- The `lookupType` of the simple handler is `Schema.LookupType` on `ProtobufSimple.ROOT`. Anything after the lookup is protobufjs.
- protobufjs's own checks are left out: duplicate names or tags in `add`, and required fields during decoding.
- The `coin` field is modelled in the schema tables as a `double` descriptor; only protobufjs's decoding of its floating-point value is left out. The native handler writes the constant 0 for it, which is modelled.
- Strings are sequences of Unicode scalar values, while JavaScript regular expressions without the `u` flag work on UTF-16 code units. None of the five character classes contains a character outside the Basic Multilingual Plane. So a supplementary character belongs to `[^\s"]` in both readings and to no other class. The match positions differ only in how such a character is counted.
- Encoding.ScanEncoded: covers varint values and lengths below 2^28 only. The bound keeps the proof to varints of at most four bytes. The reader's 32-bit accumulator returns values from 2^28 up to 2^31 − 1 unchanged too, but this is not proved. Values from 2^31 to 2^32 − 1 come back negative, as v − 2^32. Values of 2^32 and more lose their bits above bit 31, and the shift count is taken mod 32, so they may come back as any int32: 2^32 reads as 0 and 2^35 as 8.
- Fields.ScanFrom: reads the length prefix as unsigned, as the corrected parser of the Findings does. For a negative length the code as written moves the offset back instead, possibly before the start of the buffer, where every byte reads as 0. From there its loop may run forever, throw, or read other fields. Fields.ScanAsWritten models that reading, and the Findings show one input of each kind.
- Fields.ReadMessageFields: "throws exactly when the scan meets an unsupported wire type" holds of the unsigned reading. After a negative length the code as written may throw where this method does not (0A F9 FF FF FF 0F), or never return (0A FA FF FF FF 0F).
- Fields.ParseNestedMessage: returns the fields of the unsigned reading. After a negative length the code as written keeps other fields, for instance {1: '', 0: 10} on 0A F9 FF FF FF 0F, or never returns.
- NativeHandler.UserInfoOf: the fallback record is tied to the unsigned reading. On 0A F9 FF FF FF 0F the code as written returns the fallback record, while UserInfoOf returns a reply without data (NativeHandler.NegativeLengthFallsBack).
- NativeHandler.FallbackExactlyWhenThrown: "exactly when the top-level loop threw" is about the loop with the unsigned length, not the loop as written.
- NativeHandler.ParseUserInfoResponse: returns UserInfoOf, so after a negative length it differs from the code as written in the same way.
- NativeHandler.ConversationListOf: the default status is tied to the unsigned reading. After a negative length the code as written may throw into the same default where the model reads fields 2 and 3, or never return.
- NativeHandler.ParseConversationListResponse: returns ConversationListOf, so after a negative length it differs from the code as written in the same way.
- Fields.ScanAsWritten: the loop as written is a function bounded by a number of steps. It is used to exhibit the Findings and to prove where it agrees with the model's loop (Fields.ScanAsWrittenAgrees). No reply is assembled from its fields, and the nested status loop is not modelled as written.
- UI components, `AuthContext` and the HTTP clients (`apiClientMixed.ts`, `apiClientSimple.ts`) are I/O and presentation and are not part of this model.

## Findings

| source | as written | input that shows it | evidently intended | confidence | as-written member | corrected member |
|---|---|---|---|---|---|---|
| utils/protobufNative.ts:83-85 | the length prefix is readVarint's signed 32-bit result, and `newOffset = afterLength + length` | bytes 0A FA FF FF FF 0F: key 10 (field 1, wire type 2), then a length that reads as -6 and ends at offset 6, so the new offset is 0 and the top-level loop of `parseUserInfoResponse` repeats forever | the length read as an unsigned number, so every parsed field moves the offset forward and the loop ends | not executed | Wire.AsWrittenFieldDoesNotAdvance | Wire.FieldAt |
| utils/protobufNative.ts:83-85 | a negative length moves the offset back, and before the start of the buffer `buffer[offset]` is `undefined`, whose bits read as 0 | bytes 0A F9 FF FF FF 0F: field 1 with a length of -7 moves the offset to -1; there key 0 takes byte 0 as the value 10 of field 0 and moves to offset 1; there the key is -7, wire type 1, which throws, so `parseUserInfoResponse` returns the `fallback_user` record | the length read as an unsigned number: field 1 runs past the end and the loop ends, throwing only on an unsupported wire type met while the offset moves forward | not executed | NativeHandler.NegativeLengthFallsBack | Fields.ReadMessageFields |
