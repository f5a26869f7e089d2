# WhatsApp agent console — a Dafny model of its core

The agent console is a React front end over a Supabase database. It shows:

- the conversations with WhatsApp contacts, each with a status label, an unread badge and an online dot;
- the contacts that have no conversation yet;
- the messages of the open conversation, and a composer that sends text or uploads a file and sends its link.

A small Express server stores uploaded files and returns a public link.

This project models the decisions those files make, as pure Dafny functions over immutable data:

- how the service layer shapes rows into rooms, users and messages;
- how the list container and the sidebar update the room list on open, on realtime INSERT and UPDATE events, and on search;
- how the conversation view appends sent and received messages;
- how the composer treats its draft;
- how a message bubble picks what to draw: its link, file name and icon;
- how a conversation entry derives status, badge and online state;
- how the upload endpoint names the stored object and replies.

Effects become parameters, because none of them can be seen from here:

- database queries become `Query` values;
- HTTP replies and storage outcomes become small datatypes;
- `Date.now()` and `Math.random()` become `now: nat` and `token: string`;
- `new Date(..).getTime()` becomes `parse: string -> Option<int>`, where `None` means NaN;
- `decodeURIComponent` becomes `decode: string -> string`;
- the storage client's public-link builder becomes `publicUrl`.

JavaScript's nullable strings are `Option<string>`, where the empty string is present but falsy. `||` and `??` are modelled separately (`JsText.Or`, `JsText.Coalesce`) because the code relies on the difference.

Modules:

- `JsText`: the string semantics used throughout:
  - `trim` and the regex `\s` over the ECMA-262 white-space set;
  - ASCII `toLowerCase`;
  - `indexOf`, `includes`, `replace` with a string pattern and `endsWith`;
  - `split(c).pop()`;
  - decimal rendering.
- `Seqs`: an order-preserving filter.
- The remaining modules follow the source files one for one.

Five behaviours a reader might expect but the code does not have are stated as lemmas:

- The console does not de-duplicate a sent message against its realtime echo (`ChatRoom.SendThenFeedShowsTwice`).
- A late history response is not discarded (`ChatRoom.LateHistoryResponseWins`).
- A media message whose caption holds a link comes back from the history drawn by the caption's link rather than the uploaded file (`MessageView.SentMediaRenderingLinkedCaption`).
- Unread counts are never raised on the client (`ChatLayout.InsertNeverIncrements`).
- The room list is not re-sorted on the client. The order is the server's, and every handler keeps it (length and ids per index are preserved in `ChatLayout.ApplyConversationUpdate`, `ChatLayout.ApplyMessageInsert` and `AllUsers.SidebarRefresh`).

## Model

| member | source | states |
|---|---|---|
| ChatService.MapContactToUser | frontend/src/services/ChatService.js:36-41 | a missing row maps to a user with every field missing; otherwise uid is the contact id, the display name is the profile name when truthy and the WhatsApp id otherwise, and the photo is the picture URL when truthy and absent otherwise |
| ChatService.GetAllUsers | frontend/src/services/ChatService.js:44-53 | an error or a null result gives the empty list; otherwise every row is mapped, in order |
| ChatService.GetUser | frontend/src/services/ChatService.js:56-67 | null exactly when the query fails; an answer is the mapped user of the row, so a missing row still yields a user, with no fields |
| ChatService.LatestByConversation | frontend/src/services/ChatService.js:107-112 | the preview map holds an entry exactly for the conversations that have a message row, and each entry is the first such row in the fetched order |
| ChatService.LatestKeepsFirst | frontend/src/services/ChatService.js:108-111 | rows after the first one for a conversation never replace its entry |
| ChatService.LatestIsNewest | frontend/src/services/ChatService.js:101-112 | when the rows arrive newest first, each preview is a row for its conversation that no other row of that conversation is newer than |
| ChatService.GetChatRooms | frontend/src/services/ChatService.js:70-128 | an error or no conversations gives no rooms; otherwise one room per conversation, in the server's order, with members ["self", contact id], the status and count copied, the last message time taken from the preview's sent_at or the row (falsy values fall through to null), and the preview text or "" |
| ChatService.RoomPreviewIsNewest | frontend/src/services/ChatService.js:97-127 | with previews ordered newest first, a room's last message is the newest message of that conversation |
| ChatService.ContactIdOf | frontend/src/components/chat/AllUsers.js:58-60 | the first member that is not "self", or none exactly when every member is "self" |
| ChatService.FetchedRoomContact | frontend/src/services/ChatService.js:120 | a fetched room's contact id is its conversation's contact_id, unless that id is "self", in which case the room has none |
| ChatService.SenderOf | frontend/src/services/ChatService.js:146 | a message is the agent's own exactly when its direction is "outgoing" |
| ChatService.GetMessagesOfChatRoom | frontend/src/services/ChatService.js:131-150 | an error gives no messages; otherwise one record per row in order, with the sender, text and time carried over and no media fields |
| ChatService.SendRequest | frontend/src/services/ChatService.js:162-182 | the lookup error, a missing conversation or a falsy phone number stop the send; otherwise the payload is the phone number and the message |
| ChatService.SendMessage | frontend/src/services/ChatService.js:162-190 | succeeds exactly when the request can be formed and is delivered; success returns the agent's record with the sent text and the send time; each failure is reported |
| ChatService.MediaBody | frontend/src/services/ChatService.js:30-33 | the body always ends with the link; a truthy caption precedes it on its own line |
| ChatService.SendMediaMessage | frontend/src/services/ChatService.js:30-33 | a media send is a text send of that body, succeeding under the same conditions |
| ChatLayout.ZeroUnread | frontend/src/components/layouts/ChatLayout.js:130-134 | the rooms with the given id get an unread count of 0; every other room, the length and the order are unchanged |
| ChatLayout.ZeroUnreadIdempotent | frontend/src/components/layouts/ChatLayout.js:130-134 | zeroing twice equals zeroing once |
| ChatLayout.HandleChatChange | frontend/src/components/layouts/ChatLayout.js:122-149 | the chat becomes the open one; a chat with an id has its room zeroed at once and a durable zero written for it; no id means no change and no write |
| ChatLayout.UnreadWriteFailureKeepsZero | frontend/src/components/layouts/ChatLayout.js:136-147 | the durable write's outcome (ok, error or exception) does not change the resulting state; this holds by construction, because the handler only logs that outcome and never reads it back |
| ChatLayout.OpenChatIdempotent | frontend/src/components/layouts/ChatLayout.js:122-149 | opening the same chat again leaves the same room list |
| ChatLayout.MergeRoom | frontend/src/components/layouts/ChatLayout.js:86 | keys present in the payload override the room's, including null values; every other field stays |
| ChatLayout.ApplyConversationUpdate | frontend/src/components/layouts/ChatLayout.js:82-90 | only the room with the payload's id is merged; an unknown id changes nothing and no room is added |
| ChatLayout.ConversationUpdateIdempotent | frontend/src/components/layouts/ChatLayout.js:82-90 | a repeated UPDATE event has no further effect |
| ChatLayout.ApplyMessageInsert | frontend/src/components/layouts/ChatLayout.js:59-72 | the refetched list replaces the state, and only a message in the open chat zeroes that room |
| ChatLayout.InsertNeverIncrements | frontend/src/components/layouts/ChatLayout.js:59-72 | after an INSERT every unread count is the refetched value or 0; the client never adds one |
| ChatLayout.SearchUsers | frontend/src/components/layouts/ChatLayout.js:154-158 | throws exactly when some user has no display name; otherwise keeps exactly the users whose (ASCII-)lowercased name contains the lowercased query, in order |
| ChatLayout.SearchEmptyQueryKeepsAll | frontend/src/components/layouts/ChatLayout.js:154-158 | the empty query keeps every user, when every user has a display name |
| ChatLayout.SearchKeepsOrder | frontend/src/components/layouts/ChatLayout.js:154-158 | searching a concatenation gives the concatenated results |
| ChatLayout.SearchLoop | frontend/src/components/layouts/ChatLayout.js:163-174 | over the rooms in order, the last room decides the contact flag; the filtered users become the searched users exactly when some room is not a contact of them; when some room is a contact, the filtered rooms are exactly the last such room, and otherwise they are left as they were |
| ChatLayout.HandleSearch | frontend/src/components/layouts/ChatLayout.js:150-178 | the query is always stored; a throwing filter changes nothing else; without rooms the searched users are filtered users; with rooms the last room decides the flag, a non-contact last room leaves the searched users, the filtered rooms are exactly the last contact room when there is one and unchanged when there is none, and only when every room is a contact are the filtered users kept |
| ChatLayout.SidebarAfterSearch | frontend/src/components/layouts/ChatLayout.js:114-200 | after a search and the effect on the contact flag, an empty query shows the full lists and a throwing filter shows the previous filtered lists; otherwise, when the last room is not a contact, the users shown are the search result and the rooms shown are none if the flag was up, else the last contact room or, without one, the previous filtered rooms; when the last room is a contact, that room alone is shown and the users shown are none if the flag was down, else the search result when some room is not a contact and the previous filtered users when none is |
| AllUsers.SidebarRefresh | frontend/src/components/chat/AllUsers.js:35-48 | the refetched list replaces the state, with the open chat's room zeroed whatever the message's conversation |
| AllUsers.InsertHandlersAgreeOnOpenChat | frontend/src/components/chat/AllUsers.js:35-48 | for a message in the open chat both INSERT handlers write the same list |
| AllUsers.InsertHandlersRace | frontend/src/components/layouts/ChatLayout.js:59-72 | for a message elsewhere, the two handlers agree exactly when every open room's refetched count is 0 |
| AllUsers.ContactIds | frontend/src/components/chat/AllUsers.js:57-62 | one contact id per room, its first member other than "self" |
| AllUsers.NonContacts | frontend/src/components/chat/AllUsers.js:64-70 | exactly the users that are neither the signed-in user nor a room's contact, in order |
| AllUsers.NonContactsExcludeRoomContacts | frontend/src/components/chat/AllUsers.js:57-70 | no listed non-contact is the contact of any listed room |
| AllUsers.CreateChatRoom | frontend/src/services/ChatService.js:157-159 | the service's room creation always resolves to null |
| AllUsers.HandleNewChatRoomAsWritten | frontend/src/components/chat/AllUsers.js:77-85 | the creation result is appended after the existing rooms, unchanged |
| AllUsers.ContactIdsOfEntries | frontend/src/components/chat/AllUsers.js:57-62 | deriving contact ids fails exactly when some entry is null |
| AllUsers.NewChatRoomAsWrittenBreaksContactIds | frontend/src/components/chat/AllUsers.js:77-85 | after starting a room as written, deriving the contact ids fails |
| AllUsers.HandleNewChatRoom | frontend/src/components/chat/AllUsers.js:77-85 | the created room is appended, the others are unchanged, and its contact joins the contact ids |
| ChatRoom.FeedMessage | frontend/src/components/chat/ChatRoom.js:73-83 | a realtime row becomes a record with its sender, text and time, type "text" when falsy, and caption and link only when truthy |
| ChatRoom.AppendFeed | frontend/src/components/chat/ChatRoom.js:74-84 | the event's record is appended after the existing messages, which stay as they were |
| ChatRoom.OnConversationChange | frontend/src/components/chat/ChatRoom.js:42-51 | with an id the list becomes that conversation's history; without one it is left alone |
| ChatRoom.LateHistoryResponseWins | frontend/src/components/chat/ChatRoom.js:42-51 | after switching chats, a history response for the earlier chat that arrives last still replaces the list |
| ChatRoom.HandleFormSubmit | frontend/src/components/chat/ChatRoom.js:93-105 | blank text sends nothing; otherwise a send is attempted, a successful one is appended, and a failure leaves the list unchanged |
| ChatRoom.SendThenFeedShowsTwice | frontend/src/components/chat/ChatRoom.js:74-101 | an optimistic send followed by its realtime echo leaves two entries of the agent with the same text |
| ChatForm.EmojiClick | frontend/src/components/chat/ChatForm.js:19-22 | the emoji is appended to the end of the draft, which otherwise stays |
| ChatForm.SubmitDraft | frontend/src/components/chat/ChatForm.js:24-30 | a blank draft is ignored and kept; otherwise the trimmed draft (no outer white space) is handed on and the draft is cleared |
| ChatForm.SubmitSendsTrimmedDraft | frontend/src/components/chat/ChatForm.js:24-30 | a draft with content always reaches the room's send, with the trimmed draft as the text |
| ChatForm.HandleFileChange | frontend/src/components/chat/ChatForm.js:37-54 | no file means nothing happens; a reply with a truthy link is sent with the non-empty draft as caption; the draft is cleared unless the upload or the send threw; the flag is down afterwards in every case |
| MessageView.TruthyParts | frontend/src/components/chat/Message.js:5-7 | the parts kept for a class list are non-empty and no more than the arguments |
| MessageView.ClassNamesAppend | frontend/src/components/chat/Message.js:5-7 | a falsy argument adds nothing; a truthy one is appended after one space, or stands alone first |
| MessageView.ClassNamesEmpty | frontend/src/components/chat/AllUsers.js:8-10 | the class list is empty exactly when no argument is truthy |
| MessageView.Normalize | frontend/src/components/chat/Message.js:311-314 | the type falls back on falsy values to "text"; text, link and caption fall back only on missing values, so an empty text stays empty |
| MessageView.FirstUrlIndexFrom | frontend/src/components/chat/Message.js:490 | the leftmost index where `https?://` followed by a non-space character starts, or none when there is none |
| MessageView.NonSpaceRun | frontend/src/components/chat/Message.js:490 | the maximal run of non-white-space characters, ending at white space or at the end |
| MessageView.FirstUrl | frontend/src/components/chat/Message.js:490-491 | no link exactly when the pattern matches nowhere; otherwise the text from the leftmost match up to the next white space, which itself begins with a scheme and holds no white space |
| MessageView.FirstUrlIsFirstOccurrence | frontend/src/components/chat/Message.js:494 | removing the link with a string replace removes the matched occurrence and not an earlier one |
| MessageView.FileIconOf | frontend/src/components/chat/Message.js:166-265 | the attachment icon exactly for a missing or empty name |
| MessageView.FileIconByExtension | frontend/src/components/chat/Message.js:175-260 | for a name with an extension, the icon depends only on that extension, in any letter case |
| MessageView.LeadingDigits | frontend/src/components/chat/Message.js:284 | the length of the leading digit run |
| MessageView.StripTimestamp | frontend/src/components/chat/Message.js:284-287 | a name is kept unless it starts with at least 13 digits and a dash followed by a non-empty rest without line breaks; then the rest is returned |
| MessageView.StripTimestampOf | frontend/src/components/chat/Message.js:284-287 | a 13-or-more digit stamp, a dash and a one-line rest loses exactly the stamp and the dash |
| MessageView.RewriteSuffix | frontend/src/components/chat/Message.js:301-302 | a name ending in the dotted MIME suffix gets the short extension instead; any other name is unchanged |
| MessageView.CleanOfficeSuffixKeepsOthers | frontend/src/components/chat/Message.js:290-304 | a name ending in none of the six MIME suffixes is displayed unchanged |
| MessageView.CleanOfficeSuffixRewrites | frontend/src/components/chat/Message.js:290-304 | a name ending in any of the six MIME suffixes is shown with that suffix replaced by its short extension, whatever precedes it |
| MessageView.SourceName | frontend/src/components/chat/Message.js:271-278 | the raw name is the first truthy of file_name, filename and original_filename, else the link's last path segment; none when that is empty |
| MessageView.DisplayFileName | frontend/src/components/chat/Message.js:269-307 | "Document" when there is no name; otherwise the decoded name with its timestamp stripped and its MIME suffix shortened |
| MessageView.ShownCaption | frontend/src/components/chat/Message.js:394 | a caption is shown exactly when truthy |
| MessageView.MediaOrTextLink | frontend/src/components/chat/Message.js:401-402 | the document or sticker link is the media link when truthy, else the first link in the text; none exactly when neither exists |
| MessageView.RenderText | frontend/src/components/chat/Message.js:489-515 | a message without a dedicated type is a legacy image exactly when its first link ends in an image extension (any case), captioned by the rest of the text trimmed; otherwise plain text |
| MessageView.KindOf | frontend/src/components/chat/Message.js:318-471 | exactly the seven media types have a branch of their own, each entered only by its own type name; every other type falls through to the text rule |
| MessageView.DrawImage | frontend/src/components/chat/Message.js:318-350 | an image shows its media link captioned by the caption or else a non-empty text; without a link it shows the first link of the text as a legacy image captioned by the rest of the text; with neither, the placeholder |
| MessageView.DrawDocument | frontend/src/components/chat/Message.js:400-439 | a document without a media-or-text link is the placeholder; with one it shows that link, the display file name, the icon chosen from that name, and the caption only when truthy |
| MessageView.Draw | frontend/src/components/chat/Message.js:310-516 | the image and document branches behave as above; video and audio show the placeholder exactly when the link is falsy; a video otherwise shows its link, thumbnail, MIME type (default "video/mp4") and the caption or else the non-empty text; audio shows its link and only a truthy caption; a location links to the media link or else the text, and to nothing when both are empty; a contact card shows only the caption; a sticker shows the media-or-text link or the placeholder; types without a branch go to the text rule |
| MessageView.HistoryRendersAsText | frontend/src/services/ChatService.js:145-149 | every message of a loaded history is drawn by the text rule, whatever media it had |
| MessageView.MediaBodyFirstUrl | frontend/src/services/ChatService.js:30-33 | in a media message's body, when the caption holds no link, the first link found is the sent link |
| MessageView.MediaBodyTextCaption | frontend/src/components/chat/Message.js:494 | when the caption holds no link, removing the sent link from a media message's body and trimming gives the trimmed caption |
| MessageView.SentMediaRendering | frontend/src/components/chat/Message.js:489-515 | a history row whose text is the body of a media send whose caption holds no link is drawn as a legacy image captioned by the trimmed caption when its link names an image, else as that plain body |
| MessageView.CaptionLinkWins | frontend/src/services/ChatService.js:30-33 | when the caption holds a link, the first link found in the media body is the caption's, at the caption's position, and never the sent link |
| MessageView.CaptionLinkRemoved | frontend/src/components/chat/Message.js:494 | when the caption holds a link, the replace removes that link from the caption and keeps the sent link after the newline |
| MessageView.SentMediaRenderingLinkedCaption | frontend/src/components/chat/Message.js:489-515 | a history row whose text is the body of a media send whose caption holds a link is drawn by the caption's link: a legacy image of that link, captioned by the rest of the caption and the sent link, when it names an image, else the plain body; the uploaded file is not drawn as such |
| ContactView.StatusLabel | frontend/src/components/chat/Contact.js:31 | the room's status when truthy, else "open" |
| ContactView.UnreadShown | frontend/src/components/chat/Contact.js:32 | a missing count reads as 0, any other as itself |
| ContactView.BadgeIffPositive | frontend/src/components/chat/Contact.js:63-67 | the badge appears exactly for a present, positive count |
| ContactView.OpenedChatHasNoBadge | frontend/src/components/layouts/ChatLayout.js:128-134 | opening a chat removes its badge in the sidebar list |
| ContactView.IsOnlineByRecency | frontend/src/components/chat/Contact.js:34-42 | online needs a truthy last-message time that parses, and is then exactly "now minus it is below 300000 ms" |
| ContactView.OnlineFadesWithTime | frontend/src/components/chat/Contact.js:34-42 | a room online at a later moment was online at every earlier one |
| ContactView.FutureStampIsOnline | frontend/src/components/chat/Contact.js:38-40 | a last-message time in the future counts as online |
| ContactView.LoadedContact | frontend/src/components/chat/Contact.js:9-29 | a pre-joined contact is shown directly; otherwise the first non-"self" member is looked up when truthy; otherwise the entry keeps the contact it held before |
| ContactView.PrejoinedShownName | frontend/src/components/chat/Contact.js:12-18 | for a pre-joined contact the name shown is the profile name when truthy and the WhatsApp id otherwise, and the avatar is a photo exactly when the picture URL is truthy |
| ContactView.PrejoinedMatchesLookup | frontend/src/components/chat/Contact.js:12-18 | a pre-joined contact is shown exactly as a lookup of the same row would show it |
| ContactView.ShowEntry | frontend/src/components/chat/Contact.js:44-70 | the entry shows the status label, and the badge with the count exactly when the count is positive |
| ContactView.EntryIgnoresPresence | frontend/src/components/chat/Contact.js:47-51 | a conversation entry's dot follows the last message time alone; the presence list never matters |
| UserLayout.IsOnline | frontend/src/components/layouts/UserLayout.js:7-10 | a boolean override wins; otherwise online exactly when a presence list exists and contains the user's id |
| UserLayout.ContactPhotoShown | frontend/src/components/layouts/UserLayout.js:15-31 | a contact's avatar is a photo exactly when its picture URL is truthy |
| UserLayout.PreviewNeedsPhoto | frontend/src/components/layouts/UserLayout.js:42 | the enlarged preview never shows without a photo |
| UserLayout.NoIdNeverPresent | frontend/src/components/layouts/UserLayout.js:10 | a user without an id is never online by the presence list |
| UploadMedia.Ext | server/routes/uploadMedia.js:18 | the stored extension is non-empty, dot-free and lowercase |
| UploadMedia.ExtOfNamedFile | server/routes/uploadMedia.js:18 | a name with an extension keeps that extension, lowercased |
| UploadMedia.ExtOfDotlessName | server/routes/uploadMedia.js:18 | a name without a dot becomes the extension whole, lowercased |
| UploadMedia.ExtOfTrailingDot | server/routes/uploadMedia.js:18 | a name ending in a dot gets "bin" |
| UploadMedia.HandleUpload | server/routes/uploadMedia.js:11-48 | no file gives 400 and no write; otherwise a write to the configured bucket (default "whatsapp-media") at folder/stored-name with the file's type (default "application/octet-stream") and no overwrite; 200 with bucket, path and public link exactly when storage succeeded; a storage error gives 500 "Failed to upload file", an exception 500 "Internal server error" |
| UploadMedia.ClientReply | frontend/src/services/ChatService.js:17-27 | the client returns the body of a 2xx reply and throws on any other status |
| UploadMedia.AttachSendsPublicLink | frontend/src/components/chat/ChatForm.js:42-46 | attaching a file sends the stored file's public link exactly when the storage write succeeded with a non-empty link; a failed write keeps the draft |
| UploadMedia.StoredNameIcon | server/routes/uploadMedia.js:18-19 | a stored file's name carries the icon of its extension |
| UploadMedia.StoredNameIsLastSegment | server/routes/uploadMedia.js:19-21 | the last segment of the stored path is the stored name |
| UploadMedia.StoredDocumentLabel | server/routes/uploadMedia.js:19 | a document labelled from its stored link shows the random token and extension, not the original base name |
| JsText.Trim | frontend/src/components/chat/ChatForm.js:25-26 | trim returns "" exactly for a blank string, and otherwise a string with non-space ends; the result is a contiguous window of the input with only white space before and after it |
| JsText.TrimAppendSpace | frontend/src/components/chat/Message.js:494 | trailing white space does not change what trim returns |
| JsText.IndexOfFrom | frontend/src/components/chat/Message.js:301 | the first occurrence at or after the start, or none when there is none |
| JsText.LastSegment | frontend/src/components/chat/Message.js:175 | split-and-pop returns a suffix free of the separator, preceded by the separator when shorter than the string |
| JsText.LastSegmentAfterSeparator | server/routes/uploadMedia.js:18 | whatever precedes the last separator, split-and-pop returns what follows it |
| JsText.DecimalRoundTrip | server/routes/uploadMedia.js:19 | the decimal rendering of the clock reads back as the same number |
| JsText.DecimalLength | server/routes/uploadMedia.js:19 | a clock value of at least 10^12 renders with 13 or more digits |
| Seqs.Filter | frontend/src/components/chat/AllUsers.js:66-68 | filtering keeps exactly the elements satisfying the predicate and nothing else |
| Seqs.FilterConcat | frontend/src/components/layouts/ChatLayout.js:154 | filtering distributes over concatenation, so order is kept |

## Findings

| source | as written | input that shows it | evidently intended | confidence | as-written member | corrected member |
|---|---|---|---|---|---|---|
| frontend/src/components/chat/AllUsers.js:77-85 | `handleNewChatRoom` appends whatever `createChatRoom` returns, and that is the stub `null` (frontend/src/services/ChatService.js:157-159); rendering the room list then reads `_id` of that null room (frontend/src/components/chat/AllUsers.js:109), and the `contactIds` effect reads its `members` (frontend/src/components/chat/AllUsers.js:58-59) | clicking any user in the non-contact list | a real room is created and appended, so its contact joins the contact ids | high; not executed | AllUsers.HandleNewChatRoomAsWritten, shown by AllUsers.NewChatRoomAsWrittenBreaksContactIds | AllUsers.HandleNewChatRoom |

## Left out

- The realtime subscriptions, `localStorage`, the DOM, scrolling, the emoji picker widget, the video player's own state (download overlay, play state, load-error view) and timeago formatting are left out. They are effects or presentation with no decision in them; the props the player is handed are modelled. The handlers that react to subscriptions are modelled as functions of the refetched data.
- `formatFileSize` (frontend/src/components/chat/Message.js:10-16) is left out because it is floating-point arithmetic.
- The effects that reset the filtered lists when users or rooms change (frontend/src/components/layouts/ChatLayout.js:109-112), and the run of the `isContact` effect on first mount, are left out. The search is modelled from whatever search state precedes it.
- Payload keys other than status, unread_count and last_message_at are left out. An UPDATE also copies `id`, `contact_id` and any other key onto the room, but no modelled decision reads them.
- `email` of the legacy user shape is left out; it is always undefined.
- `JsText.ToLower`: does not model case mapping outside ASCII. `toLowerCase` also maps letters of other scripts. For file extensions and image links this matters only for non-ASCII extensions.
- `ChatLayout.SearchUsers`: the search is case-insensitive only on ASCII letters. A display name "Élodie" searched with "é" is kept by the program and dropped by the model.
- `MessageView.DisplayFileName`: `decodeURIComponent` is a total function parameter, so the URIError it throws on malformed escapes is not modelled.
- `ChatService.GetChatRooms`: `contact_id` is taken to be non-null, so a room's members are two strings.
- `ChatLayout.HandleSearch`: a user without a display name makes the filter throw after the query was stored; the model keeps the stored query and assumes the queued state update is still applied.
- `ChatLayout.HandleChatChange`: the sidebar's highlighted row (`selectedChat`, frontend/src/components/chat/AllUsers.js:72-75) is not modelled, only the chat change it forwards.
- `ContactView.OpenedChatHasNoBadge`: the conversation header is not modelled. It draws the open chat with the same contact card (frontend/src/components/chat/ChatRoom.js:113-117), which ignores `showUnread` (frontend/src/components/chat/Contact.js:6, 63), and the chat it is handed is the object stored before the count was zeroed (frontend/src/components/layouts/ChatLayout.js:123), so the header can keep the old badge.
- `ChatForm.SubmitDraft`: the draft is cleared only after the send handler resolves (frontend/src/components/chat/ChatForm.js:28-29); the model clears the draft it was given, so text typed while the send is in flight, which the program also discards, is not modelled.
- `ChatForm.HandleFileChange`: the raised `uploading` flag (frontend/src/components/chat/ChatForm.js:41) is not a separate state; only the composer after the outcome is modelled, with the flag down again.
- `ChatForm.HandleFileChange`: typing into the draft while the upload is in flight is not modelled. The draft is taken as it was when the file was chosen.
- `MessageView.Draw`: the file size line, the alt texts, the colours, the bubble alignment by sender and the fallback elements drawn when media fails to load are not modelled.
- `UploadMedia.HandleUpload`: the file buffer and the multipart parsing are not modelled. The write carries the cache-control value "3600", but the contract does not state it; it states the bucket, path, content type and upsert flag of the write.
- `UploadMedia.ClientReply`: network errors are not separated from HTTP errors. Both make the client throw, which is all the composer sees.
- The sidebar's INSERT handler `AllUsers.SidebarRefresh` does not model the stale closure over `currentChat?._id` that can arise between re-subscriptions. The open chat is taken as current.
