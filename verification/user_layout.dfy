/**
 * The user row used by the conversation list and the contact list: whether
 * the online dot is green, whether the avatar is a photo, and whether the
 * enlarged preview is shown.
 */
module UserLayout {
  import opened Wrappers
  import opened JsText
  import opened ChatService

  /**
   * A boolean override wins; without one the dot is green exactly when the
   * presence list (if any) contains the user's id. A missing list, user or
   * id gives `undefined`, which is drawn as offline.
   */
  function IsOnline(override: Option<bool>, onlineIds: Option<seq<string>>, user: Option<User>): (b: bool)
    ensures override.Some? ==> b == override.value
    ensures override.None? ==>
              (b <==> onlineIds.Some? && user.Some? && user.value.uid.Some? && user.value.uid.value in onlineIds.value)
  {
    match override
    case Some(o) => o
    case None =>
      match onlineIds
      case None => false
      case Some(ids) => user.Some? && user.value.uid.Some? && user.value.uid.value in ids
  }

  /** The avatar is the photo when the user has a truthy photo URL, the placeholder icon otherwise. */
  predicate ShowsPhoto(user: Option<User>) {
    user.Some? && Truthy(user.value.photoUrl)
  }

  /** The enlarged preview needs both the open flag and a photo. */
  predicate ShowsPreview(previewOpen: bool, user: Option<User>) {
    previewOpen && ShowsPhoto(user)
  }

  /** The name shown beside the avatar, `user?.displayName`. */
  function ShownName(user: Option<User>): (name: Option<string>)
    ensures user.None? ==> name.None?
    ensures user.Some? ==> name == user.value.displayName
  {
    if user.Some? then user.value.displayName else None
  }

  /** A contact's row shows a photo exactly when the contact has a truthy picture URL. */
  lemma ContactPhotoShown(c: ContactRow)
    ensures ShowsPhoto(Some(MapContactToUser(Some(c)))) <==> Truthy(c.profilePictureUrl)
  {
  }

  /** Without a photo the preview can never open, whatever the flag says. */
  lemma PreviewNeedsPhoto(previewOpen: bool, user: Option<User>)
    ensures ShowsPreview(previewOpen, user) ==> ShowsPhoto(user)
    ensures !ShowsPhoto(user) ==> !ShowsPreview(previewOpen, user)
  {
  }

  /** A user without an id is never shown online from the presence list. */
  lemma NoIdNeverPresent(onlineIds: Option<seq<string>>, user: User)
    requires user.uid.None?
    ensures !IsOnline(None, onlineIds, Some(user))
  {
  }
}
