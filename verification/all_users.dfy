/**
 * The sidebar: its own realtime refresh of the room list, the contact ids
 * derived from the rooms, the list of users without a room, and starting a
 * new room with one of them.
 */
module AllUsers {
  import opened Wrappers
  import opened Seqs
  import opened ChatService
  import opened ChatLayout

  /**
   * The sidebar's INSERT handler: the refetched list replaces the old one
   * (the previous list is never consulted), with the open chat's room zeroed
   * whatever conversation the message belongs to.
   */
  function SidebarRefresh(fetched: seq<Room>, openId: Option<string>): (r: seq<Room>)
    ensures |r| == |fetched|
    ensures forall i :: 0 <= i < |r| ==> r[i].id == fetched[i].id
    ensures forall i :: 0 <= i < |r| && Some(fetched[i].id) != openId ==> r[i] == fetched[i]
    ensures forall i :: 0 <= i < |r| && Some(fetched[i].id) == openId ==>
              r[i] == fetched[i].(unreadCount := Some(0))
  {
    match openId
    case None => fetched
    case Some(id) => ZeroUnread(fetched, id)
  }

  /**
   * Both INSERT handlers (this one and the layout's) refetch and then write
   * the state. For a message in the open chat they write the same list, so
   * the order in which they finish does not matter.
   */
  lemma InsertHandlersAgreeOnOpenChat(fetched: seq<Room>, conversationId: string)
    ensures ApplyMessageInsert(fetched, Some(conversationId), conversationId) == SidebarRefresh(fetched, Some(conversationId))
  {
  }

  /**
   * For a message in another conversation the two handlers write different
   * lists exactly when the open room's refetched count is not 0: the open
   * room's badge then depends on which handler finishes last.
   */
  lemma InsertHandlersRace(fetched: seq<Room>, openId: string, conversationId: string)
    requires openId != conversationId
    ensures ApplyMessageInsert(fetched, Some(openId), conversationId) == SidebarRefresh(fetched, Some(openId))
            <==> forall i :: 0 <= i < |fetched| && fetched[i].id == openId ==> fetched[i].unreadCount == Some(0)
  {
    var layout := ApplyMessageInsert(fetched, Some(openId), conversationId);
    var sidebar := SidebarRefresh(fetched, Some(openId));
    if forall i :: 0 <= i < |fetched| && fetched[i].id == openId ==> fetched[i].unreadCount == Some(0) {
      assert forall i :: 0 <= i < |fetched| ==> sidebar[i] == fetched[i];
    }
    if layout == sidebar {
      assert forall i :: 0 <= i < |fetched| && fetched[i].id == openId ==> sidebar[i].unreadCount == Some(0);
    }
  }

  /** `contactIds`: one entry per room, its first member that is not the agent. */
  function ContactIds(rooms: seq<Room>): (ids: seq<Option<string>>)
    ensures |ids| == |rooms|
    ensures forall i :: 0 <= i < |ids| ==> ids[i] == ContactIdOf(rooms[i].members)
  {
    seq(|rooms|, i requires 0 <= i < |rooms| => ContactIdOf(rooms[i].members))
  }

  /** A user without a room: neither the signed-in user nor the contact of any room. */
  predicate IsNonContact(u: User, currentUserId: Option<string>, contactIds: seq<Option<string>>) {
    u.uid != currentUserId && u.uid !in contactIds
  }

  /** `nonContacts`: the users without a room, in their original order. */
  function NonContacts(users: seq<User>, currentUserId: Option<string>, contactIds: seq<Option<string>>): (r: seq<User>)
    ensures forall i :: 0 <= i < |r| ==> r[i] in users && IsNonContact(r[i], currentUserId, contactIds)
    ensures forall i :: 0 <= i < |users| && IsNonContact(users[i], currentUserId, contactIds) ==> users[i] in r
    ensures r == Filter(users, u => IsNonContact(u, currentUserId, contactIds))
  {
    Filter(users, u => IsNonContact(u, currentUserId, contactIds))
  }

  /** No user listed as a non-contact is the contact of a room in the list. */
  lemma NonContactsExcludeRoomContacts(users: seq<User>, currentUserId: Option<string>, rooms: seq<Room>)
    ensures var r := NonContacts(users, currentUserId, ContactIds(rooms));
            forall i, j :: 0 <= i < |r| && 0 <= j < |rooms| ==> r[i].uid != ContactIdOf(rooms[j].members)
  {
    var ids := ContactIds(rooms);
    assert forall j :: 0 <= j < |rooms| ==> ContactIdOf(rooms[j].members) == ids[j] && ids[j] in ids;
  }

  // ------------------------------------------------------------ new chat room

  /** `createChatRoom` as the service defines it: a stub that resolves to null. */
  function CreateChatRoom(): (r: Option<Room>)
    ensures r.None?
  {
    None
  }

  /** `handleNewChatRoom` as written: whatever `createChatRoom` returned is appended to the list. */
  function HandleNewChatRoomAsWritten(prev: seq<Room>): (r: seq<Option<Room>>)
    ensures |r| == |prev| + 1
    ensures forall i :: 0 <= i < |prev| ==> r[i] == Some(prev[i])
    ensures r[|prev|] == CreateChatRoom()
  {
    seq(|prev|, i requires 0 <= i < |prev| => Some(prev[i])) + [CreateChatRoom()]
  }

  /**
   * The `contactIds` effect over a list that may hold null entries: reading
   * `members` of a null entry throws, modelled as `None`.
   */
  function ContactIdsOfEntries(entries: seq<Option<Room>>): (r: Option<seq<Option<string>>>)
    ensures r.None? <==> exists i :: 0 <= i < |entries| && entries[i].None?
    ensures r.Some? ==> |r.value| == |entries|
  {
    if exists i :: 0 <= i < |entries| && entries[i].None? then None
    else Some(seq(|entries|, i requires 0 <= i < |entries| => ContactIdOf(entries[i].value.members)))
  }

  /** After `handleNewChatRoom` as written, deriving the contact ids throws on the appended null. */
  lemma NewChatRoomAsWrittenBreaksContactIds(prev: seq<Room>)
    ensures ContactIdsOfEntries(HandleNewChatRoomAsWritten(prev)).None?
  {
    var entries := HandleNewChatRoomAsWritten(prev);
    assert entries[|prev|].None?;
  }

  /**
   * `handleNewChatRoom` with a room actually created: the room is appended at
   * the end, the existing rooms are unchanged, and its contact joins the
   * contact ids.
   */
  function HandleNewChatRoom(prev: seq<Room>, created: Room): (r: seq<Room>)
    ensures |r| == |prev| + 1 && r[..|prev|] == prev && r[|prev|] == created
    ensures ContactIds(r) == ContactIds(prev) + [ContactIdOf(created.members)]
  {
    prev + [created]
  }
}
