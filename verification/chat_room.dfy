/**
 * The conversation view's message list: loading the history of the open
 * conversation, appending realtime inserts, and appending the agent's own
 * sends. The list is never sorted, de-duplicated or guarded against a
 * history response for a conversation that is no longer open.
 */
module ChatRoom {
  import opened Wrappers
  import opened JsText
  import opened ChatService

  /** The normalisation a realtime insert goes through before it is appended. */
  function FeedMessage(m: MessageRow): (r: ChatMessage)
    ensures r.sender == Self <==> m.direction == Some("outgoing")
    ensures r.message == m.message && r.createdAt == m.sentAt
    ensures r.messageType == (if Truthy(m.messageType) then m.messageType else Some("text"))
    ensures r.caption == (if Truthy(m.caption) then m.caption else None)
    ensures r.mediaUrl == (if Truthy(m.mediaUrl) then m.mediaUrl else None)
  {
    ChatMessage(
      sender := SenderOf(m.direction),
      message := m.message,
      createdAt := m.sentAt,
      messageType := Some(OrElse(m.messageType, "text")),
      caption := Or(m.caption, None),
      mediaUrl := Or(m.mediaUrl, None))
  }

  /** The realtime INSERT handler: exactly one message is appended; earlier ones are untouched. */
  function AppendFeed(msgs: seq<ChatMessage>, m: MessageRow): (r: seq<ChatMessage>)
    ensures |r| == |msgs| + 1
    ensures r[..|msgs|] == msgs
    ensures r[|msgs|] == FeedMessage(m)
  {
    msgs + [FeedMessage(m)]
  }

  /**
   * The history effect, run when the open conversation's id changes: with an
   * id the list is replaced by that conversation's history; without one the
   * effect does nothing.
   */
  function OnConversationChange(msgs: seq<ChatMessage>, chatId: Option<string>, history: Query<seq<MessageRow>>)
    : (r: seq<ChatMessage>)
    ensures Truthy(chatId) ==> r == GetMessagesOfChatRoom(history)
    ensures !Truthy(chatId) ==> r == msgs
  {
    if Truthy(chatId) then GetMessagesOfChatRoom(history) else msgs
  }

  /**
   * History responses are applied in arrival order with no check of which
   * conversation they were for: after switching from C to D, a response for C
   * that arrives after D's replaces D's history.
   */
  lemma LateHistoryResponseWins(msgs: seq<ChatMessage>, c: string, d: string,
                                historyC: Query<seq<MessageRow>>, historyD: Query<seq<MessageRow>>)
    requires c != "" && d != ""
    ensures var shownD := OnConversationChange(msgs, Some(d), historyD);
            OnConversationChange(shownD, Some(c), historyC) == GetMessagesOfChatRoom(historyC)
  {
  }

  /** What `handleFormSubmit` leaves: the list, and whether `sendMessage` was called at all. */
  datatype Submission = Submission(messages: seq<ChatMessage>, sendAttempted: bool)

  /**
   * `handleFormSubmit`: blank text is ignored; otherwise the text is sent and,
   * if the send returns, its record is appended. A failed send is logged and
   * leaves the list as it was.
   */
  function HandleFormSubmit(msgs: seq<ChatMessage>, text: string, lookup: Query<ConversationLookup>,
                            delivered: bool, nowIso: string): (r: Submission)
    ensures r.sendAttempted <==> !IsBlank(text)
    ensures IsBlank(text) ==> r.messages == msgs
    ensures !IsBlank(text) && SendMessage(lookup, text, delivered, nowIso).Ok? ==>
              r.messages == msgs + [SendMessage(lookup, text, delivered, nowIso).value]
    ensures SendMessage(lookup, text, delivered, nowIso).Err? ==> r.messages == msgs
  {
    if Trim(text) == "" then Submission(msgs, false)
    else
      match SendMessage(lookup, text, delivered, nowIso)
      case Ok(sent) => Submission(msgs + [sent], true)
      case Err(_) => Submission(msgs, true)
  }

  /**
   * An optimistic send and the realtime insert of the same message both
   * append: the list ends with two entries of the agent carrying that text.
   */
  lemma SendThenFeedShowsTwice(msgs: seq<ChatMessage>, text: string, lookup: Query<ConversationLookup>,
                               nowIso: string, row: MessageRow)
    requires !IsBlank(text)
    requires SendRequest(lookup, text).Ok?
    requires row.direction == Some("outgoing") && row.message == Some(text)
    ensures var after := AppendFeed(HandleFormSubmit(msgs, text, lookup, true, nowIso).messages, row);
            && |after| == |msgs| + 2
            && after[..|msgs|] == msgs
            && after[|msgs|].sender == Self && after[|msgs|].message == Some(text)
            && after[|msgs| + 1].sender == Self && after[|msgs| + 1].message == Some(text)
  {
  }
}
