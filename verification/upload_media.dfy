/**
 * The server's media upload endpoint: the name under which an uploaded file
 * is stored, the storage request it makes, and the reply it sends; plus how
 * the console's composer and message bubble see the stored file.
 */
module UploadMedia {
  import opened Wrappers
  import opened JsText
  import opened ChatService
  import ChatForm
  import MessageView

  const DefaultBucket := "whatsapp-media"
  const DefaultFolder := "uploads"
  const DefaultContentType := "application/octet-stream"

  /** The multipart file as the upload middleware hands it over. */
  datatype UploadedFile = UploadedFile(originalName: string, mimeType: Option<string>)

  /** The request: the `file` part, if any, and the `folder` field. */
  datatype UploadRequest = UploadRequest(file: Option<UploadedFile>, folder: Option<string>)

  /** What the storage call answered: no error, an error object, or an exception. */
  datatype StorageOutcome = StorageOk | StorageError | StorageThrew

  /** The object write sent to storage. */
  datatype StoragePut = StoragePut(bucket: string, path: string, contentType: string, cacheControl: string, upsert: bool)

  datatype ReplyBody = Failure(error: string) | Uploaded(bucket: string, path: string, mediaUrl: string)

  datatype Reply = Reply(status: int, body: ReplyBody)

  /** The reply, and the storage write when one was attempted. */
  datatype Handled = Handled(reply: Reply, put: Option<StoragePut>)

  /**
   * The stored extension: the text after the last dot of the original name,
   * "bin" when that is empty, lowercased. A name without any dot is its own
   * last segment, so it becomes the extension whole.
   */
  function Ext(originalName: string): (e: string)
    ensures e != "" && '.' !in e
    ensures ToLower(e) == e
  {
    var last := LastSegment(originalName, '.');
    var name := if last == "" then "bin" else last;
    assert '.' !in name;
    ToLowerKeepsNonLetters(name, '.');
    ToLowerIdempotent(name);
    ToLower(name)
  }

  lemma ExtOfNamedFile(base: string, x: string)
    requires x != "" && '.' !in x
    ensures Ext(base + "." + x) == ToLower(x)
  {
    LastSegmentAfterSeparator(base, '.', x);
    assert base + "." + x == base + ['.'] + x;
  }

  lemma ExtOfDotlessName(name: string)
    requires name != "" && '.' !in name
    ensures Ext(name) == ToLower(name)
  {
    LastSegmentWithoutSeparator(name, '.');
  }

  lemma ExtOfTrailingDot(base: string)
    ensures Ext(base + ".") == "bin"
  {
  }

  /** `${Date.now()}-${token}.${ext}`, where `token` stands for the base-36 digits of `Math.random()`. */
  function StoredName(now: nat, token: string, ext: string): string {
    NatToDecimal(now) + "-" + token + "." + ext
  }

  /** The stored path: the folder (default "uploads"), a slash, the stored name. */
  function FilePath(folder: Option<string>, name: string): string {
    OrElse(folder, DefaultFolder) + "/" + name
  }

  /**
   * The endpoint. `bucketEnv` is the configured bucket, `now` and `token`
   * the clock and the random source, `storage` the storage call's outcome and
   * `publicUrl` the storage client's public link for a bucket and path.
   */
  function HandleUpload(req: UploadRequest, bucketEnv: Option<string>, now: nat, token: string,
                        storage: StorageOutcome, publicUrl: (string, string) -> string): (h: Handled)
    ensures req.file.None? ==> h == Handled(Reply(400, Failure("No file uploaded")), None)
    ensures req.file.Some? ==> h.put.Some?
    ensures h.put.Some? ==>
              var f := req.file.value;
              && h.put.value.bucket == OrElse(bucketEnv, DefaultBucket)
              && h.put.value.path == FilePath(req.folder, StoredName(now, token, Ext(f.originalName)))
              && h.put.value.contentType == OrElse(f.mimeType, DefaultContentType)
              && !h.put.value.upsert
    ensures h.reply.status == 200 <==> req.file.Some? && storage == StorageOk
    ensures h.reply.status == 200 ==>
              h.reply.body == Uploaded(h.put.value.bucket, h.put.value.path, publicUrl(h.put.value.bucket, h.put.value.path))
    ensures req.file.Some? && storage == StorageError ==> h.reply == Reply(500, Failure("Failed to upload file"))
    ensures req.file.Some? && storage == StorageThrew ==> h.reply == Reply(500, Failure("Internal server error"))
  {
    match req.file
    case None => Handled(Reply(400, Failure("No file uploaded")), None)
    case Some(f) =>
      var bucket := OrElse(bucketEnv, DefaultBucket);
      var path := FilePath(req.folder, StoredName(now, token, Ext(f.originalName)));
      var put := StoragePut(bucket, path, OrElse(f.mimeType, DefaultContentType), "3600", false);
      match storage
      case StorageThrew => Handled(Reply(500, Failure("Internal server error")), Some(put))
      case StorageError => Handled(Reply(500, Failure("Failed to upload file")), Some(put))
      case StorageOk => Handled(Reply(200, Uploaded(bucket, path, publicUrl(bucket, path))), Some(put))
  }

  /** The console's HTTP client: a 2xx reply is returned as data, any other status throws. */
  function ClientReply(h: Handled): (r: ChatForm.UploadReply)
    ensures r.UploadReplied? <==> 200 <= h.reply.status < 300
    ensures r.UploadReplied? && h.reply.body.Uploaded? ==> r.mediaUrl == Some(h.reply.body.mediaUrl)
  {
    if 200 <= h.reply.status < 300 then
      ChatForm.UploadReplied(if h.reply.body.Uploaded? then Some(h.reply.body.mediaUrl) else None)
    else ChatForm.UploadThrew
  }

  /**
   * Attaching a file sends the stored file's public link, captioned by the
   * draft, exactly when the storage write succeeded (and the link is not
   * empty); a failed write leaves the draft in place.
   */
  lemma AttachSendsPublicLink(c: ChatForm.Composer, req: UploadRequest, bucketEnv: Option<string>, now: nat,
                              token: string, storage: StorageOutcome, publicUrl: (string, string) -> string,
                              lookup: Query<ConversationLookup>, delivered: bool, nowIso: string)
    requires req.file.Some?
    ensures var h := HandleUpload(req, bucketEnv, now, token, storage, publicUrl);
      var r := ChatForm.HandleFileChange(c, true, ClientReply(h), lookup, delivered, nowIso);
      && (r.mediaSend.Some? <==> storage == StorageOk && publicUrl(h.put.value.bucket, h.put.value.path) != "")
      && (r.mediaSend.Some? ==> r.mediaSend.value.mediaUrl == publicUrl(h.put.value.bucket, h.put.value.path))
      && (storage != StorageOk ==> r.composer == c.(uploading := false))
  {
  }

  /** The stored name, read back from its link, keeps the icon of the original extension. */
  lemma StoredNameIcon(now: nat, token: string, originalName: string)
    ensures MessageView.FileIconOf(Some(StoredName(now, token, Ext(originalName))))
              == MessageView.IconForExtension(Ext(originalName))
  {
    var e := Ext(originalName);
    MessageView.FileIconByExtension(NatToDecimal(now) + "-" + token, e);
  }

  /** The stored path's last segment is the stored name. */
  lemma StoredNameIsLastSegment(prefix: string, folder: Option<string>, name: string)
    requires '/' !in name
    ensures LastSegment(prefix + "/" + FilePath(folder, name), '/') == name
  {
    var a := prefix + "/" + OrElse(folder, DefaultFolder);
    assert prefix + "/" + FilePath(folder, name) == a + ['/'] + name;
    LastSegmentAfterSeparator(a, '/', name);
  }

  lemma StoredNameHasNoSlash(now: nat, rest: string)
    requires '/' !in rest
    ensures '/' !in NatToDecimal(now) + "-" + rest
  {
    var d := NatToDecimal(now);
    assert forall i :: 0 <= i < |d| ==> IsDigit(d[i]);
    assert forall i :: 0 <= i < |d + "-" + rest| ==> (d + "-" + rest)[i] == if i < |d| then d[i] else if i == |d| then '-' else rest[i - |d| - 1];
  }

  /**
   * A document whose message carries no file name is labelled from its
   * link: for a file stored here since 2001 (13-digit clock) that label drops
   * the timestamp and keeps the random token, so the original base name is
   * never shown.
   */
  lemma StoredDocumentLabel(prefix: string, folder: Option<string>, now: nat, token: string, ext: string,
                            p: MessageView.MessageProps, decode: string -> string)
    requires now >= Pow10(12)
    requires '/' !in token + "." + ext && MessageView.NoLineTerminator(token + "." + ext)
    requires !Truthy(p.fileName) && !Truthy(p.filename) && !Truthy(p.originalFilename)
    requires decode(StoredName(now, token, ext)) == StoredName(now, token, ext)
    ensures MessageView.DisplayFileName(p, Some(prefix + "/" + FilePath(folder, StoredName(now, token, ext))), decode)
              == MessageView.CleanOfficeSuffix(token + "." + ext)
  {
    var name := StoredName(now, token, ext);
    var rest := token + "." + ext;
    var url := prefix + "/" + FilePath(folder, name);
    assert name == NatToDecimal(now) + "-" + rest by {
      var d := NatToDecimal(now);
      assert d + "-" + token + "." + ext == d + "-" + (token + "." + ext);
    }
    assert MessageView.SourceName(p, Some(url)) == Some(name) by {
      StoredNameHasNoSlash(now, rest);
      StoredNameIsLastSegment(prefix, folder, name);
    }
    assert MessageView.StripTimestamp(decode(name)) == rest by {
      DecimalLength(now, 12);
      MessageView.StripTimestampOf(NatToDecimal(now), rest);
    }
    assert MessageView.DisplayFileName(p, Some(url), decode)
             == MessageView.CleanOfficeSuffix(MessageView.StripTimestamp(decode(name)));
  }
}
