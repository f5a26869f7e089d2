/**
 * The conversation-list container: opening a chat, the two realtime handlers
 * that keep the room list current, and the user search. Each handler is a
 * pure function of the previous list (or the refetched list), the event and
 * the id of the open chat (`None` when no chat, or a chat without an id, is
 * open). The refetch itself and the realtime subscription are not modelled;
 * their results arrive as arguments.
 */
module ChatLayout {
  import opened Wrappers
  import opened JsText
  import opened Seqs
  import opened ChatService

  /**
   * The room-list update the handlers share: every room whose id is `id`
   * gets an unread count of 0; nothing else in the list changes.
   */
  function ZeroUnread(rooms: seq<Room>, id: string): (r: seq<Room>)
    ensures |r| == |rooms|
    ensures forall i :: 0 <= i < |r| ==> r[i].id == rooms[i].id
    ensures forall i :: 0 <= i < |r| && rooms[i].id != id ==> r[i] == rooms[i]
    ensures forall i :: 0 <= i < |r| && rooms[i].id == id ==>
              r[i].unreadCount == Some(0) && r[i] == rooms[i].(unreadCount := r[i].unreadCount)
  {
    seq(|rooms|, i requires 0 <= i < |rooms| =>
      if rooms[i].id == id then rooms[i].(unreadCount := Some(0)) else rooms[i])
  }

  /** Zeroing twice is zeroing once. */
  lemma ZeroUnreadIdempotent(rooms: seq<Room>, id: string)
    ensures ZeroUnread(ZeroUnread(rooms, id), id) == ZeroUnread(rooms, id)
  {
  }

  // ------------------------------------------------------------ opening a chat

  /** How the durable `unread_count = 0` write ended: acknowledged, error returned, or exception. */
  datatype WriteOutcome = WriteOk | WriteError | WriteThrew

  /** The state `handleChatChange` leaves: the room list, the open chat and the durable write it issued. */
  datatype ChatChange = ChatChange(rooms: seq<Room>, currentChat: Option<Room>, unreadWrite: Option<string>)

  /**
   * `handleChatChange`: the chat becomes the open one; if it has an id, its
   * room is zeroed locally at once and a durable zero is written for that
   * id. Whatever the write's outcome, it is only logged.
   */
  function HandleChatChange(rooms: seq<Room>, chat: Option<Room>, write: WriteOutcome): (r: ChatChange)
    ensures r.currentChat == chat
    ensures |r.rooms| == |rooms|
    ensures forall i :: 0 <= i < |rooms| ==> r.rooms[i].id == rooms[i].id
    ensures chat.Some? && chat.value.id != "" ==>
              && r.unreadWrite == Some(chat.value.id)
              && (forall i :: 0 <= i < |rooms| && rooms[i].id == chat.value.id ==> r.rooms[i].unreadCount == Some(0))
              && (forall i :: 0 <= i < |rooms| && rooms[i].id != chat.value.id ==> r.rooms[i] == rooms[i])
    ensures !(chat.Some? && chat.value.id != "") ==> r.rooms == rooms && r.unreadWrite.None?
  {
    if chat.Some? && chat.value.id != "" then
      ChatChange(ZeroUnread(rooms, chat.value.id), chat, Some(chat.value.id))
    else
      ChatChange(rooms, chat, None)
  }

  /** A failed durable write does not roll the local zero back: the outcome changes nothing. */
  lemma UnreadWriteFailureKeepsZero(rooms: seq<Room>, chat: Option<Room>, w1: WriteOutcome, w2: WriteOutcome)
    ensures HandleChatChange(rooms, chat, w1) == HandleChatChange(rooms, chat, w2)
  {
  }

  /** Opening the same chat twice leaves the same list as opening it once. */
  lemma OpenChatIdempotent(rooms: seq<Room>, chat: Option<Room>, w1: WriteOutcome, w2: WriteOutcome)
    ensures var once := HandleChatChange(rooms, chat, w1);
            HandleChatChange(once.rooms, chat, w2).rooms == once.rooms
  {
    if chat.Some? && chat.value.id != "" {
      ZeroUnreadIdempotent(rooms, chat.value.id);
    }
  }

  // -------------------------------------------------- conversation UPDATE event

  /** Whether a key occurs in an event payload, and with which (possibly null) value. */
  datatype Field<T> = Absent | Present(value: T)

  /** The fields of a conversations row that a room also carries; `id` is matched against the room's `_id`. */
  datatype ConversationPatch = ConversationPatch(
    id: string, status: Field<Option<string>>, unreadCount: Field<Option<int>>, lastMessageAt: Field<Option<string>>)

  function Overlay<T>(base: T, f: Field<T>): T {
    if f.Present? then f.value else base
  }

  /** `{ ...room, ...payload.new }`: keys in the payload win, every other field of the room stays. */
  function MergeRoom(room: Room, p: ConversationPatch): (r: Room)
    ensures r.id == room.id && r.members == room.members && r.lastMessage == room.lastMessage && r.contact == room.contact
    ensures r.status == (if p.status.Present? then p.status.value else room.status)
    ensures r.unreadCount == (if p.unreadCount.Present? then p.unreadCount.value else room.unreadCount)
    ensures r.lastMessageAt == (if p.lastMessageAt.Present? then p.lastMessageAt.value else room.lastMessageAt)
  {
    room.(status := Overlay(room.status, p.status),
          unreadCount := Overlay(room.unreadCount, p.unreadCount),
          lastMessageAt := Overlay(room.lastMessageAt, p.lastMessageAt))
  }

  /**
   * The UPDATE handler: the payload is merged into the room whose id matches;
   * other rooms, the length and the order are unchanged, and an unknown id
   * changes nothing (no room is ever added).
   */
  function ApplyConversationUpdate(rooms: seq<Room>, p: ConversationPatch): (r: seq<Room>)
    ensures |r| == |rooms|
    ensures forall i :: 0 <= i < |r| ==> r[i].id == rooms[i].id
    ensures forall i :: 0 <= i < |r| && rooms[i].id != p.id ==> r[i] == rooms[i]
    ensures forall i :: 0 <= i < |r| && rooms[i].id == p.id ==> r[i] == MergeRoom(rooms[i], p)
    ensures (forall i :: 0 <= i < |rooms| ==> rooms[i].id != p.id) ==> r == rooms
  {
    seq(|rooms|, i requires 0 <= i < |rooms| => if rooms[i].id == p.id then MergeRoom(rooms[i], p) else rooms[i])
  }

  /** Receiving the same UPDATE twice is the same as receiving it once. */
  lemma ConversationUpdateIdempotent(rooms: seq<Room>, p: ConversationPatch)
    ensures ApplyConversationUpdate(ApplyConversationUpdate(rooms, p), p) == ApplyConversationUpdate(rooms, p)
  {
  }

  // ------------------------------------------------------ message INSERT event

  /**
   * The layout's INSERT handler: the state becomes the refetched list, and if
   * the message belongs to the open chat that room is zeroed. For any other
   * conversation the refetched counts are kept as they are.
   */
  function ApplyMessageInsert(fetched: seq<Room>, openId: Option<string>, conversationId: string): (r: seq<Room>)
    ensures |r| == |fetched|
    ensures forall i :: 0 <= i < |r| ==> r[i].id == fetched[i].id
    ensures openId != Some(conversationId) ==> r == fetched
    ensures openId == Some(conversationId) ==>
              forall i :: 0 <= i < |r| ==>
                && (fetched[i].id == conversationId ==> r[i].unreadCount == Some(0))
                && (fetched[i].id != conversationId ==> r[i] == fetched[i])
  {
    if openId == Some(conversationId) then ZeroUnread(fetched, conversationId) else fetched
  }

  /** The client never raises an unread count: each one is the refetched value or 0. */
  lemma InsertNeverIncrements(fetched: seq<Room>, openId: Option<string>, conversationId: string)
    ensures var r := ApplyMessageInsert(fetched, openId, conversationId);
            forall i :: 0 <= i < |r| ==> r[i].unreadCount == fetched[i].unreadCount || r[i].unreadCount == Some(0)
  {
  }

  // ------------------------------------------------------------------ search

  /** The user's lowercased display name contains the lowercased query. */
  predicate MatchesQuery(u: User, query: string) {
    u.displayName.Some? && Includes(ToLower(u.displayName.value), ToLower(query))
  }

  /**
   * The user filter of `handleSearch`. `None` stands for the TypeError the
   * filter raises when some user has no display name.
   */
  function SearchUsers(users: seq<User>, query: string): (r: Option<seq<User>>)
    ensures r.None? <==> exists i :: 0 <= i < |users| && users[i].displayName.None?
    ensures r.Some? ==> forall i :: 0 <= i < |r.value| ==> r.value[i] in users && MatchesQuery(r.value[i], query)
    ensures r.Some? ==> forall i :: 0 <= i < |users| && MatchesQuery(users[i], query) ==> users[i] in r.value
    ensures r.Some? ==> r.value == Filter(users, u => MatchesQuery(u, query))
  {
    if exists i :: 0 <= i < |users| && users[i].displayName.None? then None
    else Some(Filter(users, u => MatchesQuery(u, query)))
  }

  /** The empty query matches every named user. */
  lemma SearchEmptyQueryKeepsAll(users: seq<User>)
    requires forall i :: 0 <= i < |users| ==> users[i].displayName.Some?
    ensures SearchUsers(users, "") == Some(users)
  {
    forall i | 0 <= i < |users| ensures MatchesQuery(users[i], "") {
      assert OccursAt(ToLower(users[i].displayName.value), "", 0);
    }
    FilterKeepsAll(users, u => MatchesQuery(u, ""));
  }

  /** Search keeps the original order: the result for a concatenation is the concatenation of results. */
  lemma SearchKeepsOrder(a: seq<User>, b: seq<User>, query: string)
    requires SearchUsers(a, query).Some? && SearchUsers(b, query).Some?
    ensures SearchUsers(a + b, query) == Some(SearchUsers(a, query).value + SearchUsers(b, query).value)
  {
    FilterConcat(a, b, u => MatchesQuery(u, query));
    assert forall i :: 0 <= i < |a + b| ==> (a + b)[i] in a || (a + b)[i] in b;
  }

  /** The ids of the searched users (`searchedUsers.map(u => u.uid)`), missing ids included. */
  function Uids(users: seq<User>): (ids: seq<Option<string>>)
    ensures |ids| == |users|
    ensures forall i :: 0 <= i < |users| ==> ids[i] == users[i].uid
  {
    seq(|users|, i requires 0 <= i < |users| => users[i].uid)
  }

  /** Some member of the room other than "self" is one of the searched ids. */
  predicate IsContactRoom(room: Room, ids: seq<Option<string>>) {
    exists k :: 0 <= k < |room.members| && room.members[k] != SelfMember && Some(room.members[k]) in ids
  }

  /** Room `j` is a contact of the searched ids and no later room is. */
  predicate LastContactAt(rooms: seq<Room>, ids: seq<Option<string>>, j: int) {
    && 0 <= j < |rooms|
    && IsContactRoom(rooms[j], ids)
    && forall k :: j < k < |rooms| ==> !IsContactRoom(rooms[k], ids)
  }

  /** The search state of the layout: the query, the `isContact` flag and the two filtered lists. */
  datatype SearchState = SearchState(query: string, isContact: bool, filteredUsers: seq<User>, filteredRooms: seq<Room>)

  /**
   * The per-room loop of `handleSearch`, rooms visited in order: a room that
   * is a contact of the searched users becomes the only filtered room, any
   * other room sets the filtered users to the searched ones, and the flag
   * follows every room, so the last room decides it.
   */
  function SearchLoop(rooms: seq<Room>, ids: seq<Option<string>>, searched: seq<User>, s: SearchState): (r: SearchState)
    ensures r.query == s.query
    ensures rooms == [] ==> r == s
    ensures rooms != [] ==> r.isContact == IsContactRoom(rooms[|rooms| - 1], ids)
    ensures r.filteredUsers == (if exists i :: 0 <= i < |rooms| && !IsContactRoom(rooms[i], ids) then searched else s.filteredUsers)
    ensures (forall i :: 0 <= i < |rooms| ==> !IsContactRoom(rooms[i], ids)) ==> r.filteredRooms == s.filteredRooms
    ensures rooms != [] && IsContactRoom(rooms[|rooms| - 1], ids) ==> r.filteredRooms == [rooms[|rooms| - 1]]
    ensures (exists i :: 0 <= i < |rooms| && IsContactRoom(rooms[i], ids)) ==>
              exists j :: LastContactAt(rooms, ids, j) && r.filteredRooms == [rooms[j]]
    decreases |rooms|
  {
    if rooms == [] then s
    else
      var front := rooms[..|rooms| - 1];
      var room := rooms[|rooms| - 1];
      var before := SearchLoop(front, ids, searched, s);
      RoomsStep(rooms, front, ids);
      if IsContactRoom(room, ids) then
        assert LastContactAt(rooms, ids, |rooms| - 1);
        before.(isContact := true, filteredRooms := [room])
      else
        LastContactStep(rooms, front, ids, before.filteredRooms);
        before.(isContact := false, filteredUsers := searched)
  }

  /** Which rooms are contacts, seen one room at a time. */
  lemma RoomsStep(rooms: seq<Room>, front: seq<Room>, ids: seq<Option<string>>)
    requires rooms != [] && front == rooms[..|rooms| - 1]
    ensures (exists i :: 0 <= i < |rooms| && IsContactRoom(rooms[i], ids)) <==>
              (exists i :: 0 <= i < |front| && IsContactRoom(front[i], ids)) || IsContactRoom(rooms[|rooms| - 1], ids)
    ensures (exists i :: 0 <= i < |rooms| && !IsContactRoom(rooms[i], ids)) <==>
              (exists i :: 0 <= i < |front| && !IsContactRoom(front[i], ids)) || !IsContactRoom(rooms[|rooms| - 1], ids)
  {
    assert forall i :: 0 <= i < |front| ==> front[i] == rooms[i];
  }

  /** The last contact room before a room that is not a contact is still the last one after it. */
  lemma LastContactStep(rooms: seq<Room>, front: seq<Room>, ids: seq<Option<string>>, kept: seq<Room>)
    requires rooms != [] && front == rooms[..|rooms| - 1] && !IsContactRoom(rooms[|rooms| - 1], ids)
    requires (exists i :: 0 <= i < |front| && IsContactRoom(front[i], ids)) ==>
               exists j :: LastContactAt(front, ids, j) && kept == [front[j]]
    ensures (exists i :: 0 <= i < |front| && IsContactRoom(front[i], ids)) ==>
              exists j :: LastContactAt(rooms, ids, j) && kept == [rooms[j]]
  {
    if exists i :: 0 <= i < |front| && IsContactRoom(front[i], ids) {
      var j :| LastContactAt(front, ids, j) && kept == [front[j]];
      assert front[j] == rooms[j];
      assert LastContactAt(rooms, ids, j);
    }
  }

  /**
   * `handleSearch`. The query is stored first; when some user has no display
   * name the filter throws and nothing else changes. Otherwise the searched
   * users go to the filtered users directly when there are no rooms, and
   * through the per-room loop when there are.
   */
  function HandleSearch(s: SearchState, users: seq<User>, rooms: seq<Room>, query: string): (r: SearchState)
    ensures r.query == query
    ensures SearchUsers(users, query).None? ==> r == s.(query := query)
    ensures SearchUsers(users, query).Some? && rooms == [] ==>
              r == s.(query := query, filteredUsers := SearchUsers(users, query).value)
    ensures SearchUsers(users, query).Some? && rooms != [] ==>
              var searched := SearchUsers(users, query).value;
              && r.isContact == IsContactRoom(rooms[|rooms| - 1], Uids(searched))
              && (!r.isContact ==> r.filteredUsers == searched)
              && (r.isContact ==> r.filteredRooms == [rooms[|rooms| - 1]])
    ensures SearchUsers(users, query).Some? ==>
              var ids := Uids(SearchUsers(users, query).value);
              && ((forall i :: 0 <= i < |rooms| ==> !IsContactRoom(rooms[i], ids)) ==> r.filteredRooms == s.filteredRooms)
              && ((exists i :: 0 <= i < |rooms| && IsContactRoom(rooms[i], ids)) ==>
                    exists j :: LastContactAt(rooms, ids, j) && r.filteredRooms == [rooms[j]])
              && (rooms != [] && (forall i :: 0 <= i < |rooms| ==> IsContactRoom(rooms[i], ids)) ==>
                    r.filteredUsers == s.filteredUsers)
  {
    match SearchUsers(users, query)
    case None => s.(query := query)
    case Some(searched) =>
      if rooms == [] then s.(query := query, filteredUsers := searched)
      else
        var r := SearchLoop(rooms, Uids(searched), searched, s.(query := query));
        assert !r.isContact ==> !IsContactRoom(rooms[|rooms| - 1], Uids(searched));
        r
  }

  /** The effect on `isContact`: when the flag changes, raising it empties the users and lowering it empties the rooms. */
  function IsContactEffect(previous: bool, s: SearchState): SearchState {
    if s.isContact == previous then s
    else if s.isContact then s.(filteredUsers := [])
    else s.(filteredRooms := [])
  }

  /** A search and the effect it triggers. */
  function Search(s: SearchState, users: seq<User>, rooms: seq<Room>, query: string): SearchState {
    IsContactEffect(s.isContact, HandleSearch(s, users, rooms, query))
  }

  /** What the sidebar is handed: the filtered lists while a query is typed, else the full ones. */
  datatype SidebarLists = SidebarLists(users: seq<User>, rooms: seq<Room>)

  function SidebarInput(s: SearchState, users: seq<User>, rooms: seq<Room>): SidebarLists {
    if s.query != "" then SidebarLists(s.filteredUsers, s.filteredRooms) else SidebarLists(users, rooms)
  }

  /**
   * What the sidebar shows after typing a query. An empty query shows the
   * full lists, and a search that throws leaves both filtered lists as they
   * were. Otherwise the last room decides: when it is not a contact of the
   * searched users (or there are no rooms) the users shown are exactly the
   * search result, and the rooms shown are none if the flag was up, else the
   * last contact room, if any; when it is a contact, that room alone is
   * shown, and the user list is emptied if the flag was down.
   */
  lemma SidebarAfterSearch(s: SearchState, users: seq<User>, rooms: seq<Room>, query: string)
    ensures query == "" ==> SidebarInput(Search(s, users, rooms, query), users, rooms) == SidebarLists(users, rooms)
    ensures query != "" && SearchUsers(users, query).None? ==>
              SidebarInput(Search(s, users, rooms, query), users, rooms) == SidebarLists(s.filteredUsers, s.filteredRooms)
    ensures query != "" && SearchUsers(users, query).Some? && rooms == [] ==>
              SidebarInput(Search(s, users, rooms, query), users, rooms) == SidebarLists(SearchUsers(users, query).value, s.filteredRooms)
    ensures query != "" && SearchUsers(users, query).Some? && rooms != [] ==>
              var searched := SearchUsers(users, query).value;
              var ids := Uids(searched);
              var shown := SidebarInput(Search(s, users, rooms, query), users, rooms);
              && (!IsContactRoom(rooms[|rooms| - 1], ids) ==> shown.users == searched)
              && (!IsContactRoom(rooms[|rooms| - 1], ids) && s.isContact ==> shown.rooms == [])
              && (!IsContactRoom(rooms[|rooms| - 1], ids) && !s.isContact && (exists i :: 0 <= i < |rooms| && IsContactRoom(rooms[i], ids)) ==>
                    exists j :: LastContactAt(rooms, ids, j) && shown.rooms == [rooms[j]])
              && (!s.isContact && (forall i :: 0 <= i < |rooms| ==> !IsContactRoom(rooms[i], ids)) ==> shown.rooms == s.filteredRooms)
              && (IsContactRoom(rooms[|rooms| - 1], ids) ==> shown.rooms == [rooms[|rooms| - 1]])
              && (IsContactRoom(rooms[|rooms| - 1], ids) && !s.isContact ==> shown.users == [])
              && (IsContactRoom(rooms[|rooms| - 1], ids) && s.isContact ==>
                    shown.users == (if exists i :: 0 <= i < |rooms| && !IsContactRoom(rooms[i], ids) then searched else s.filteredUsers))
  {
  }
}
