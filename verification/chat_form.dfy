/**
 * The composer: the draft, the emoji picker's insertions, submitting the
 * draft, and the attach-a-file flow with its `uploading` flag. The upload
 * reply and the media send's outcome are parameters.
 */
module ChatForm {
  import opened Wrappers
  import opened JsText
  import opened ChatService
  import ChatRoom

  datatype Composer = Composer(draft: string, uploading: bool)

  /** `handleEmojiClick`: the emoji is appended to the end of the draft. */
  function EmojiClick(c: Composer, emoji: string): (r: Composer)
    ensures |r.draft| == |c.draft| + |emoji| && r.draft[..|c.draft|] == c.draft && r.draft[|c.draft|..] == emoji
    ensures r.uploading == c.uploading
  {
    c.(draft := c.draft + emoji)
  }

  /** The composer after submitting, and the text handed to the room's submit handler, if any. */
  datatype Submitted = Submitted(composer: Composer, handed: Option<string>)

  /**
   * `submitMessage`: a draft that trims to nothing is ignored; otherwise the
   * trimmed draft is handed on and the draft is cleared once the handler
   * (which never throws) has finished.
   */
  function SubmitDraft(c: Composer): (r: Submitted)
    ensures r.handed.None? <==> IsBlank(c.draft)
    ensures IsBlank(c.draft) ==> r.composer == c
    ensures !IsBlank(c.draft) ==> r.composer == c.(draft := "") && r.handed == Some(Trim(c.draft))
    ensures r.handed.Some? ==> r.handed.value != "" && !IsSpace(r.handed.value[0]) && !IsSpace(r.handed.value[|r.handed.value| - 1])
  {
    var trimmed := Trim(c.draft);
    if trimmed == "" then Submitted(c, None)
    else Submitted(c.(draft := ""), Some(trimmed))
  }

  /** The reply of the upload call: it threw (any non-2xx status or network error), or returned a body. */
  datatype UploadReply = UploadThrew | UploadReplied(mediaUrl: Option<string>)

  /** The media send the composer issued: the uploaded URL and the caption taken from the draft. */
  datatype MediaSend = MediaSend(mediaUrl: string, caption: Option<string>)

  datatype FileChange = FileChange(composer: Composer, mediaSend: Option<MediaSend>, uploadStarted: bool)

  /**
   * `handleFileChange`. Without a file nothing happens. Otherwise the file is
   * uploaded; a reply with a media URL is sent as a media message whose
   * caption is the draft when it is not empty. The draft is cleared when the
   * upload replied and no send failed; a throwing upload or send keeps it.
   * The flag is down again after every outcome.
   */
  function HandleFileChange(c: Composer, fileChosen: bool, upload: UploadReply,
                            lookup: Query<ConversationLookup>, delivered: bool, nowIso: string): (r: FileChange)
    ensures !fileChosen ==> r == FileChange(c, None, false)
    ensures fileChosen ==> r.uploadStarted && !r.composer.uploading
    ensures r.mediaSend.Some? <==> fileChosen && upload.UploadReplied? && Truthy(upload.mediaUrl)
    ensures r.mediaSend.Some? ==>
              && r.mediaSend.value.mediaUrl == upload.mediaUrl.value
              && r.mediaSend.value.caption == (if c.draft != "" then Some(c.draft) else None)
    ensures fileChosen ==>
              (r.composer.draft == "" <==>
                 || c.draft == ""
                 || (upload.UploadReplied? && !Truthy(upload.mediaUrl))
                 || (r.mediaSend.Some? && SendMediaMessage(lookup, r.mediaSend.value.mediaUrl, r.mediaSend.value.caption, delivered, nowIso).Ok?))
    ensures fileChosen && r.composer.draft != "" ==> r.composer.draft == c.draft
  {
    if !fileChosen then FileChange(c, None, false)
    else
      match upload
      case UploadThrew => FileChange(c.(uploading := false), None, true)
      case UploadReplied(url) =>
        if Truthy(url) then
          var send := MediaSend(url.value, if c.draft != "" then Some(c.draft) else None);
          match SendMediaMessage(lookup, send.mediaUrl, send.caption, delivered, nowIso)
          case Ok(_) => FileChange(Composer("", false), Some(send), true)
          case Err(_) => FileChange(c.(uploading := false), Some(send), true)
        else
          FileChange(Composer("", false), None, true)
  }

  /**
   * Submitting a draft with content always reaches the room's send, with the
   * trimmed draft as the message text; a blank draft never does.
   */
  lemma SubmitSendsTrimmedDraft(c: Composer, msgs: seq<ChatMessage>, lookup: Query<ConversationLookup>,
                                delivered: bool, nowIso: string)
    ensures var r := SubmitDraft(c);
      r.handed.Some? ==>
        && ChatRoom.HandleFormSubmit(msgs, r.handed.value, lookup, delivered, nowIso).sendAttempted
        && (SendMessage(lookup, Trim(c.draft), delivered, nowIso).Ok? ==>
              ChatRoom.HandleFormSubmit(msgs, r.handed.value, lookup, delivered, nowIso).messages
                == msgs + [SendMessage(lookup, Trim(c.draft), delivered, nowIso).value])
    ensures IsBlank(c.draft) ==> SubmitDraft(c).handed.None?
  {
    var r := SubmitDraft(c);
    if r.handed.Some? {
      var t := r.handed.value;
      assert !IsBlank(t) by {
        assert !IsSpace(t[0]);
      }
    }
  }
}
