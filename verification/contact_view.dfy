/**
 * One entry of the conversation list: the contact it shows, the status
 * label, the unread badge and the online dot derived from the time of the
 * last message.
 */
module ContactView {
  import opened Wrappers
  import opened JsText
  import opened ChatService
  import ChatLayout
  import UserLayout

  /** A conversation counts as online for five minutes after its last message. */
  const OnlineWindowMs: int := 5 * 60 * 1000

  /** The status label: the room's status, or "open" when it has none (or an empty one). */
  function StatusLabel(room: Room): (s: string)
    ensures s != ""
    ensures Truthy(room.status) ==> s == room.status.value
    ensures !Truthy(room.status) ==> s == "open"
  {
    OrElse(room.status, "open")
  }

  /** `unread_count || 0`: a missing count reads as zero. */
  function UnreadShown(room: Room): (n: int)
    ensures room.unreadCount.None? ==> n == 0
    ensures room.unreadCount.Some? ==> n == room.unreadCount.value
  {
    match room.unreadCount
    case None => 0
    case Some(k) => if k != 0 then k else 0
  }

  /** The badge appears only for a positive count. */
  predicate ShowsBadge(room: Room) {
    UnreadShown(room) > 0
  }

  lemma BadgeIffPositive(room: Room)
    ensures ShowsBadge(room) <==> room.unreadCount.Some? && room.unreadCount.value > 0
  {
  }

  /** Opening a chat clears its badge in the list. */
  lemma OpenedChatHasNoBadge(rooms: seq<Room>, id: string, i: nat)
    requires i < |rooms| && rooms[i].id == id
    ensures !ShowsBadge(ChatLayout.ZeroUnread(rooms, id)[i])
  {
  }

  /**
   * The online decision: the last message time must be truthy and parse
   * (`parse` stands for `new Date(..).getTime()`, `None` being NaN), and
   * `now` minus it must stay strictly below five minutes.
   */
  function IsOnlineByRecency(lastMessageAt: Option<string>, parse: string -> Option<int>, now: int): (b: bool)
    ensures b ==> Truthy(lastMessageAt) && parse(lastMessageAt.value).Some?
    ensures Truthy(lastMessageAt) && parse(lastMessageAt.value).Some? ==>
              (b <==> now - parse(lastMessageAt.value).value < OnlineWindowMs)
  {
    if !Truthy(lastMessageAt) then false
    else
      match parse(lastMessageAt.value)
      case None => false
      case Some(t) => now - t < OnlineWindowMs
  }

  /** A room stays online only while time has not moved past the window: online later means online now. */
  lemma OnlineFadesWithTime(lastMessageAt: Option<string>, parse: string -> Option<int>, now: int, later: int)
    requires now <= later
    ensures IsOnlineByRecency(lastMessageAt, parse, later) ==> IsOnlineByRecency(lastMessageAt, parse, now)
  {
  }

  /** A last message stamped in the future (clock skew) counts as online. */
  lemma FutureStampIsOnline(lastMessageAt: Option<string>, parse: string -> Option<int>, now: int)
    requires Truthy(lastMessageAt) && parse(lastMessageAt.value).Some? && parse(lastMessageAt.value).value >= now
    ensures IsOnlineByRecency(lastMessageAt, parse, now)
  {
  }

  /**
   * The contact the entry shows once its effect has run for `room`, where
   * `previous` is the contact it held before (none on a first mount; the
   * component is reused when its room changes): the pre-joined contact when
   * the room carries one; otherwise the looked-up user of the first member
   * that is not "self", when that id is truthy; otherwise the effect sets
   * nothing and the previous contact stays.
   */
  function LoadedContact(room: Room, lookup: Query<ContactRow>, previous: Option<User>): (u: Option<User>)
    ensures room.contact.Some? ==> u == Some(MapContactToUser(room.contact))
    ensures room.contact.None? && Truthy(ContactIdOf(room.members)) ==> u == GetUser(lookup)
    ensures room.contact.None? && !Truthy(ContactIdOf(room.members)) ==> u == previous
  {
    match room.contact
    case Some(c) =>
      Some(User(Some(c.id), Or(c.profileName, c.waId), Or(c.profilePictureUrl, None)))
    case None =>
      if Truthy(ContactIdOf(room.members)) then GetUser(lookup) else previous
  }

  /** A pre-joined contact is shown exactly as a successful lookup of the same row would show it. */
  lemma PrejoinedMatchesLookup(room: Room, lookup: Query<ContactRow>, previous: Option<User>)
    requires room.contact.Some?
    ensures LoadedContact(room, lookup, previous) == GetUser(Answer(room.contact))
  {
  }

  /**
   * For a pre-joined contact the row beside the avatar names the profile
   * name when it is truthy and the WhatsApp id otherwise, and the avatar is a
   * photo exactly when the contact has a truthy picture URL; whatever was
   * shown before does not matter.
   */
  lemma PrejoinedShownName(room: Room, lookup: Query<ContactRow>, previous: Option<User>)
    requires room.contact.Some?
    ensures var c := room.contact.value;
            var shown := LoadedContact(room, lookup, previous);
            && UserLayout.ShownName(shown) == (if Truthy(c.profileName) then c.profileName else c.waId)
            && (UserLayout.ShowsPhoto(shown) <==> Truthy(c.profilePictureUrl))
  {
  }

  /** What the entry draws. */
  datatype Entry = Entry(contact: Option<User>, online: bool, status: string, badge: Option<int>)

  function ShowEntry(room: Room, contact: Option<User>, onlineIds: Option<seq<string>>,
                     parse: string -> Option<int>, now: int): (e: Entry)
    ensures e.contact == contact && e.status == StatusLabel(room)
    ensures e.badge.Some? <==> ShowsBadge(room)
    ensures e.badge.Some? ==> e.badge.value == room.unreadCount.value
  {
    var online := UserLayout.IsOnline(Some(IsOnlineByRecency(room.lastMessageAt, parse, now)), onlineIds, contact);
    Entry(contact, online, StatusLabel(room), if ShowsBadge(room) then Some(UnreadShown(room)) else None)
  }

  /**
   * The entry always passes a boolean override, so the presence list never
   * matters for conversations: the dot follows the last message time alone.
   */
  lemma EntryIgnoresPresence(room: Room, contact: Option<User>, onlineIds: Option<seq<string>>,
                             parse: string -> Option<int>, now: int)
    ensures ShowEntry(room, contact, onlineIds, parse, now).online == IsOnlineByRecency(room.lastMessageAt, parse, now)
    ensures ShowEntry(room, contact, onlineIds, parse, now) == ShowEntry(room, contact, None, parse, now)
  {
  }
}
