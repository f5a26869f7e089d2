/**
 * The service layer of the console: how rows returned by the backing store
 * are shaped into the legacy user, room and message records the components
 * consume, and how an outbound send is composed. Every query answer, the
 * outcome of the HTTP post and the current time are parameters; nothing
 * here performs I/O.
 */
module ChatService {
  import opened Wrappers
  import opened JsText

  /** A query answer as the store client returns it: rows that may be null, or an error. */
  datatype Query<T> = Answer(data: Option<T>) | QueryFailed

  /** `data || []` once the error has been ruled out: the rows of an answer, else none. */
  function RowsOf<T>(q: Query<seq<T>>): seq<T> {
    if q.Answer? && q.data.Some? then q.data.value else []
  }

  // ---------------------------------------------------------------- contacts

  /** A contacts row: id, wa_id, profile_name, profile_picture_url. */
  datatype ContactRow = ContactRow(id: string, waId: Option<string>, profileName: Option<string>, profilePictureUrl: Option<string>)

  /** The legacy user shape (`email` is always undefined and is not kept). */
  datatype User = User(uid: Option<string>, displayName: Option<string>, photoUrl: Option<string>)

  /** `mapContactToUser`; a missing row (the `c?.` chain) maps to a user whose fields are all missing. */
  function MapContactToUser(c: Option<ContactRow>): (u: User)
    ensures c.None? ==> u == User(None, None, None)
    ensures c.Some? ==> u.uid == Some(c.value.id)
    ensures c.Some? ==> u.displayName == (if Truthy(c.value.profileName) then c.value.profileName else c.value.waId)
    ensures u.photoUrl.None? || Truthy(u.photoUrl)
    ensures c.Some? && Truthy(c.value.profilePictureUrl) ==> u.photoUrl == c.value.profilePictureUrl
    ensures c.Some? && !Truthy(c.value.profilePictureUrl) ==> u.photoUrl.None?
  {
    match c
    case None => User(None, None, None)
    case Some(row) => User(Some(row.id), Or(row.profileName, row.waId), Or(row.profilePictureUrl, None))
  }

  /** `getAllUsers`: every contact as a user, in the order returned; an error gives none. */
  function GetAllUsers(q: Query<seq<ContactRow>>): (users: seq<User>)
    ensures q.QueryFailed? ==> users == []
    ensures |users| == |RowsOf(q)|
    ensures forall i :: 0 <= i < |users| ==> users[i].uid == Some(RowsOf(q)[i].id)
    ensures forall i :: 0 <= i < |users| ==> users[i] == MapContactToUser(Some(RowsOf(q)[i]))
  {
    var rows := RowsOf(q);
    seq(|rows|, i requires 0 <= i < |rows| => MapContactToUser(Some(rows[i])))
  }

  /** `getUser`: an error gives null; an answer without a row still yields a user with missing fields. */
  function GetUser(q: Query<ContactRow>): (u: Option<User>)
    ensures u.None? <==> q.QueryFailed?
    ensures q == Answer(None) ==> u == Some(User(None, None, None))
    ensures q.Answer? && q.data.Some? ==> u.Some? && u.value.uid == Some(q.data.value.id)
    ensures q.Answer? ==> u == Some(MapContactToUser(q.data))
  {
    match q
    case QueryFailed => None
    case Answer(row) => Some(MapContactToUser(row))
  }

  // ------------------------------------------------------------------- rooms

  /** The member entry that stands for the signed-in agent. */
  const SelfMember := "self"

  /** A conversations row joined to its contact. */
  datatype ConversationRow = ConversationRow(
    id: string, contactId: string, status: Option<string>, unreadCount: Option<int>,
    lastMessageAt: Option<string>, contact: Option<ContactRow>)

  /** A messages row as the preview query selects it: conversation_id, message, sent_at. */
  datatype PreviewRow = PreviewRow(conversationId: string, message: Option<string>, sentAt: Option<string>)

  /** The legacy chat-room record the sidebar shows (`_id` is `id`). */
  datatype Room = Room(
    id: string, members: seq<string>, status: Option<string>, unreadCount: Option<int>,
    lastMessageAt: Option<string>, lastMessage: string, contact: Option<ContactRow>)

  /** Row `i` is the first of `rows` that belongs to conversation `id`. */
  predicate IsFirstFor(rows: seq<PreviewRow>, id: string, i: int) {
    && 0 <= i < |rows|
    && rows[i].conversationId == id
    && forall j :: 0 <= j < i ==> rows[j].conversationId != id
  }

  /**
   * The `lastMessageByConversation` table: rows are visited in order and a
   * conversation's entry is written only while it is still missing, so the
   * first row of each conversation wins.
   */
  function LatestByConversation(rows: seq<PreviewRow>): (m: map<string, PreviewRow>)
    ensures forall id :: id in m <==> exists i :: 0 <= i < |rows| && rows[i].conversationId == id
    ensures forall id :: id in m ==> exists i :: IsFirstFor(rows, id, i) && m[id] == rows[i]
  {
    if |rows| == 0 then map[]
    else
      var front := rows[..|rows| - 1];
      var m := LatestByConversation(front);
      LatestStep(rows, front, m);
      Visit(m, rows[|rows| - 1])
  }

  /** Visiting one row: it is recorded only when its conversation has no entry yet. */
  function Visit(m: map<string, PreviewRow>, r: PreviewRow): map<string, PreviewRow> {
    if r.conversationId in m then m else m[r.conversationId := r]
  }

  /** What holds of the table for all but the last row holds, after visiting the last row, for all of them. */
  lemma LatestStep(rows: seq<PreviewRow>, front: seq<PreviewRow>, m: map<string, PreviewRow>)
    requires |rows| > 0 && front == rows[..|rows| - 1]
    requires forall id :: id in m <==> exists i :: 0 <= i < |front| && front[i].conversationId == id
    requires forall id :: id in m ==> exists i :: IsFirstFor(front, id, i) && m[id] == front[i]
    ensures var m' := Visit(m, rows[|rows| - 1]);
            && (forall id :: id in m' <==> exists i :: 0 <= i < |rows| && rows[i].conversationId == id)
            && (forall id :: id in m' ==> exists i :: IsFirstFor(rows, id, i) && m'[id] == rows[i])
  {
    var r := rows[|rows| - 1];
    var m' := Visit(m, r);
    assert forall i :: 0 <= i < |front| ==> rows[i] == front[i];
    forall id | id in m' ensures exists i :: IsFirstFor(rows, id, i) && m'[id] == rows[i] {
      if id in m {
        var i :| IsFirstFor(front, id, i) && m[id] == front[i];
        assert IsFirstFor(rows, id, i);
      } else {
        assert IsFirstFor(rows, id, |front|);
      }
    }
    forall id | (exists i :: 0 <= i < |rows| && rows[i].conversationId == id) ensures id in m' {
      var i :| 0 <= i < |rows| && rows[i].conversationId == id;
      if i < |front| {
        assert front[i].conversationId == id;
      }
    }
  }

  /** A later row never overwrites the entry an earlier row wrote. */
  lemma LatestKeepsFirst(rows: seq<PreviewRow>, r: PreviewRow)
    ensures var before := LatestByConversation(rows);
            var after := LatestByConversation(rows + [r]);
            && (forall id :: id in before ==> id in after && after[id] == before[id])
            && (r.conversationId !in before ==> after[r.conversationId] == r)
  {
    assert (rows + [r])[..|rows|] == rows;
  }

  /** The order the preview query asks for: `sent_at` descending, under a given reading of timestamps. */
  predicate SortedNewestFirst(rows: seq<PreviewRow>, time: PreviewRow -> int) {
    forall i, j :: 0 <= i < j < |rows| ==> time(rows[i]) >= time(rows[j])
  }

  /** On newest-first input the first row of a conversation is one of its newest. */
  lemma LatestIsNewest(rows: seq<PreviewRow>, time: PreviewRow -> int, id: string)
    requires SortedNewestFirst(rows, time)
    requires id in LatestByConversation(rows)
    ensures forall j :: 0 <= j < |rows| && rows[j].conversationId == id ==>
              time(LatestByConversation(rows)[id]) >= time(rows[j])
  {
    var m := LatestByConversation(rows);
    var i :| IsFirstFor(rows, id, i) && m[id] == rows[i];
    forall j | 0 <= j < |rows| && rows[j].conversationId == id
      ensures time(m[id]) >= time(rows[j])
    {
      if j != i {
        assert !(j < i);
        assert time(rows[i]) >= time(rows[j]);
      }
    }
  }

  /** One room per conversations row, joined to the row's entry in the preview table. */
  function ToRoom(row: ConversationRow, latest: map<string, PreviewRow>): Room {
    var sentAt := if row.id in latest then latest[row.id].sentAt else None;
    var text := if row.id in latest then latest[row.id].message else None;
    Room(
      id := row.id,
      members := [SelfMember, row.contactId],
      status := row.status,
      unreadCount := row.unreadCount,
      lastMessageAt := Or(Or(sentAt, row.lastMessageAt), None),
      lastMessage := OrElse(text, ""),
      contact := row.contact)
  }

  /**
   * `getChatRooms`: the conversations in the order the query returned them,
   * each joined to its newest message. A failed or empty conversations query
   * gives no rooms; a failed preview query only loses the previews.
   */
  function GetChatRooms(convs: Query<seq<ConversationRow>>, previews: Query<seq<PreviewRow>>): (rooms: seq<Room>)
    ensures convs.QueryFailed? ==> rooms == []
    ensures |rooms| == |RowsOf(convs)|
    ensures forall i :: 0 <= i < |rooms| ==>
              var row := RowsOf(convs)[i];
              && rooms[i].id == row.id
              && rooms[i].members == [SelfMember, row.contactId]
              && rooms[i].status == row.status
              && rooms[i].unreadCount == row.unreadCount
              && rooms[i].contact == row.contact
    ensures forall i :: 0 <= i < |rooms| ==>
              var row := RowsOf(convs)[i];
              var latest := LatestByConversation(RowsOf(previews));
              && rooms[i].lastMessageAt ==
                   (if row.id in latest && Truthy(latest[row.id].sentAt) then latest[row.id].sentAt
                    else if Truthy(row.lastMessageAt) then row.lastMessageAt
                    else None)
              && rooms[i].lastMessage ==
                   (if row.id in latest && Truthy(latest[row.id].message) then latest[row.id].message.value else "")
  {
    if convs.QueryFailed? then []
    else
      var rows := RowsOf(convs);
      if |rows| == 0 then []
      else
        var latest := LatestByConversation(RowsOf(previews));
        seq(|rows|, i requires 0 <= i < |rows| => ToRoom(rows[i], latest))
  }

  /**
   * With previews newest-first, a room that has any message shows the text of
   * one of that conversation's newest messages.
   */
  lemma RoomPreviewIsNewest(convs: Query<seq<ConversationRow>>, previews: Query<seq<PreviewRow>>,
                            time: PreviewRow -> int, i: int, k: int)
    requires SortedNewestFirst(RowsOf(previews), time)
    requires 0 <= i < |RowsOf(convs)|
    requires 0 <= k < |RowsOf(previews)| && RowsOf(previews)[k].conversationId == RowsOf(convs)[i].id
    ensures var rooms := GetChatRooms(convs, previews);
            exists p :: p in RowsOf(previews)
                     && p.conversationId == rooms[i].id
                     && rooms[i].lastMessage == OrElse(p.message, "")
                     && forall j :: 0 <= j < |RowsOf(previews)| && RowsOf(previews)[j].conversationId == rooms[i].id ==>
                                      time(p) >= time(RowsOf(previews)[j])
  {
    var rows := RowsOf(previews);
    var room := GetChatRooms(convs, previews)[i];
    var id := RowsOf(convs)[i].id;
    var latest := LatestByConversation(rows);
    assert id in latest by {
      assert rows[k].conversationId == id;
    }
    assert room.id == id && room.lastMessage == OrElse(latest[id].message, "");
    NewestPreviewWitness(rows, time, room);
  }

  /** A room whose preview text is its table entry's has a newest row of its conversation as preview. */
  lemma NewestPreviewWitness(rows: seq<PreviewRow>, time: PreviewRow -> int, room: Room)
    requires SortedNewestFirst(rows, time)
    requires room.id in LatestByConversation(rows)
    requires room.lastMessage == OrElse(LatestByConversation(rows)[room.id].message, "")
    ensures exists p :: p in rows
                     && p.conversationId == room.id
                     && room.lastMessage == OrElse(p.message, "")
                     && forall j :: 0 <= j < |rows| && rows[j].conversationId == room.id ==> time(p) >= time(rows[j])
  {
    var latest := LatestByConversation(rows);
    LatestIsNewest(rows, time, room.id);
    var j :| IsFirstFor(rows, room.id, j) && latest[room.id] == rows[j];
    assert rows[j] in rows;
  }

  /** The first member that is not the agent (`members.find(m => m !== "self")`). */
  function ContactIdOf(members: seq<string>): (r: Option<string>)
    ensures r.Some? ==> r.value in members && r.value != SelfMember
    ensures r.Some? ==> exists i :: 0 <= i < |members| && members[i] == r.value && forall j :: 0 <= j < i ==> members[j] == SelfMember
    ensures r.None? <==> forall i :: 0 <= i < |members| ==> members[i] == SelfMember
  {
    if |members| == 0 then None
    else if members[0] != SelfMember then Some(members[0])
    else
      var r := ContactIdOf(members[1..]);
      assert forall i :: 0 < i < |members| ==> members[i] == members[1..][i - 1];
      r
  }

  /** A fetched room names its contact, unless the contact's id is itself "self". */
  lemma FetchedRoomContact(convs: Query<seq<ConversationRow>>, previews: Query<seq<PreviewRow>>, i: int)
    requires 0 <= i < |RowsOf(convs)|
    ensures var cid := RowsOf(convs)[i].contactId;
            ContactIdOf(GetChatRooms(convs, previews)[i].members) == (if cid == SelfMember then None else Some(cid))
  {
  }

  // ---------------------------------------------------------------- messages

  datatype Sender = Self | Other

  /** Direction "outgoing" is the agent; anything else, including a missing direction, is the contact. */
  function SenderOf(direction: Option<string>): (s: Sender)
    ensures s == Self <==> direction == Some("outgoing")
  {
    if direction == Some("outgoing") then Self else Other
  }

  /** A messages row; the history query selects only id, conversation_id, direction, message and sent_at. */
  datatype MessageRow = MessageRow(
    id: string, conversationId: string, direction: Option<string>, message: Option<string>,
    sentAt: Option<string>, messageType: Option<string>, caption: Option<string>, mediaUrl: Option<string>)

  /**
   * The message record the conversation view keeps. Fields the record does
   * not carry (message_type, caption, media_url on fetched or sent messages)
   * are `None`.
   */
  datatype ChatMessage = ChatMessage(
    sender: Sender, message: Option<string>, createdAt: Option<string>,
    messageType: Option<string>, caption: Option<string>, mediaUrl: Option<string>)

  /**
   * `getMessagesOfChatRoom`: the history in the order returned, reduced to the
   * legacy shape `{ sender, message, createdAt }`; an error gives none.
   */
  function GetMessagesOfChatRoom(q: Query<seq<MessageRow>>): (msgs: seq<ChatMessage>)
    ensures q.QueryFailed? ==> msgs == []
    ensures |msgs| == |RowsOf(q)|
    ensures forall i :: 0 <= i < |msgs| ==>
              && (msgs[i].sender == Self <==> RowsOf(q)[i].direction == Some("outgoing"))
              && msgs[i].message == RowsOf(q)[i].message
              && msgs[i].createdAt == RowsOf(q)[i].sentAt
    ensures forall i :: 0 <= i < |msgs| ==>
              msgs[i].messageType.None? && msgs[i].caption.None? && msgs[i].mediaUrl.None?
  {
    var rows := RowsOf(q);
    seq(|rows|, i requires 0 <= i < |rows| =>
      ChatMessage(SenderOf(rows[i].direction), rows[i].message, rows[i].sentAt, None, None, None))
  }

  // ------------------------------------------------------------------- sends

  /** What `sendMessage` looks up: the conversation and its contact's phone number, if joined. */
  datatype ConversationLookup = ConversationLookup(id: string, contactId: string, phoneNumber: Option<string>)

  datatype SendError = LookupFailed | ConversationNotFound | PhoneNumberMissing | DeliveryFailed

  /** The body posted to the backend proxy. */
  datatype SendPayload = SendPayload(to: string, message: string)

  /** The request `sendMessage` posts, or the error it throws before posting. */
  function SendRequest(lookup: Query<ConversationLookup>, message: string): (r: Result<SendPayload, SendError>)
    ensures lookup.QueryFailed? ==> r == Err(LookupFailed)
    ensures lookup == Answer(None) ==> r == Err(ConversationNotFound)
    ensures r.Ok? <==> lookup.Answer? && lookup.data.Some? && Truthy(lookup.data.value.phoneNumber)
    ensures r.Ok? ==> r.value == SendPayload(lookup.data.value.phoneNumber.value, message)
  {
    match lookup
    case QueryFailed => Err(LookupFailed)
    case Answer(None) => Err(ConversationNotFound)
    case Answer(Some(conv)) =>
      var to := OrElse(conv.phoneNumber, "");
      if to == "" then Err(PhoneNumberMissing) else Ok(SendPayload(to, message))
  }

  /**
   * `sendMessage`: `delivered` is whether the post returned normally and
   * `nowIso` the client clock at that moment. The returned record is the
   * agent's message with the text unchanged.
   */
  function SendMessage(lookup: Query<ConversationLookup>, message: string, delivered: bool, nowIso: string)
    : (r: Result<ChatMessage, SendError>)
    ensures r.Ok? <==> SendRequest(lookup, message).Ok? && delivered
    ensures SendRequest(lookup, message).Err? ==> r == Err(SendRequest(lookup, message).error)
    ensures r.Ok? ==> r.value.sender == Self && r.value.message == Some(message) && r.value.createdAt == Some(nowIso)
    ensures r.Ok? ==> r.value.messageType.None? && r.value.caption.None? && r.value.mediaUrl.None?
  {
    match SendRequest(lookup, message)
    case Err(e) => Err(e)
    case Ok(_) =>
      if delivered then Ok(ChatMessage(Self, Some(message), Some(nowIso), None, None, None))
      else Err(DeliveryFailed)
  }

  /** The text `sendMediaMessage` sends: the caption and the link on two lines, or the bare link. */
  function MediaBody(mediaUrl: string, caption: Option<string>): (body: string)
    ensures EndsWith(body, mediaUrl)
    ensures Truthy(caption) ==> body == caption.value + "\n" + mediaUrl
    ensures !Truthy(caption) ==> body == mediaUrl
  {
    if Truthy(caption) then caption.value + "\n" + mediaUrl else mediaUrl
  }

  /** `sendMediaMessage`: a media message is an ordinary text send of `MediaBody`. */
  function SendMediaMessage(lookup: Query<ConversationLookup>, mediaUrl: string, caption: Option<string>,
                            delivered: bool, nowIso: string): (r: Result<ChatMessage, SendError>)
    ensures r.Ok? <==> SendRequest(lookup, MediaBody(mediaUrl, caption)).Ok? && delivered
    ensures r.Ok? ==> r.value.sender == Self && r.value.message == Some(MediaBody(mediaUrl, caption))
  {
    SendMessage(lookup, MediaBody(mediaUrl, caption), delivered, nowIso)
  }
}
