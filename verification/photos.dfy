/**
 * The photo endpoints: listing with its direct-only access check, upload
 * with the notification recipient walk, deletion with its permission rule,
 * sharing and the shared-with-me listing.
 */
module Photos {
  import opened Common
  import opened Models
  import opened Tree
  import opened Database

  /** The content types `upload_photo` accepts. */
  const AllowedTypes: set<string> :=
    {"image/jpeg", "image/png", "image/webp", "image/gif", "image/heic", "image/heif"}

  // ---------------------------------------------------------------------------
  // Listing

  /** `GET /photos/`: the caller's root photos, or the photos of one folder.
      Only the folder's owner and holders of a share row on that very folder
      get in: ancestors are not consulted and photo share rows do not count. */
  function GetPhotos(s: Store, caller: Uuid, folder: Option<Uuid>): (r: Result<set<Uuid>>)
    ensures folder.None? ==> r.Ok?
    ensures folder.None? ==> forall p :: p in r.value <==>
      p in s.photos && s.photos[p].owner == caller && s.photos[p].folder.None?
    ensures folder.Some? && folder.value !in s.folders ==> r == Err(NotFound)
    ensures folder.Some? && folder.value in s.folders ==>
      (r.Ok? <==> s.folders[folder.value].owner == caller || Grant(folder.value, caller) in s.folderShares)
    ensures r.Err? ==> r.status in {NotFound, Forbidden}
    ensures folder.Some? && folder.value in s.folders && r.Err? ==> r.status == Forbidden
    ensures folder.Some? && r.Ok? ==> forall p :: p in r.value <==>
      p in s.photos && s.photos[p].folder == folder
  {
    match folder
    case None =>
      Ok(set p | p in s.photos && s.photos[p].owner == caller && s.photos[p].folder.None?)
    case Some(f) =>
      if f !in s.folders then Err(NotFound)
      else
        var hasAccess := s.folders[f].owner == caller || Grant(f, caller) in s.folderShares;
        if !hasAccess then Err(Forbidden)
        else Ok(set p | p in s.photos && s.photos[p].folder == Some(f))
  }

  /** `GET /photos/shared`: the photos with a share row for the caller. */
  function GetSharedPhotos(s: Store, caller: Uuid): (r: set<Uuid>)
    requires Valid(s)
    ensures forall p :: p in r <==> Grant(p, caller) in s.photoShares
    ensures r == {} <==> forall g :: g in s.photoShares ==> g.grantee != caller
  {
    set p | p in s.photos && Grant(p, caller) in s.photoShares
  }

  // ---------------------------------------------------------------------------
  // Upload and its notification

  /** The e-mails one folder contributes: its grantees other than the uploader. */
  function GranteeEmails(s: Store, f: Uuid, uploader: Uuid): set<string> {
    set g | g in s.folderShares && g.resource == f && g.grantee in s.users && g.grantee != uploader
      :: s.users[g.grantee].email
  }

  /** The notification walk: the grantees of `f`, then of its parent, and so on up to the root. */
  function RecipientsOnLineage(s: Store, f: Uuid, uploader: Uuid, n: nat): (emails: set<string>)
    requires RootedWithin(s.folders, f, n)
    ensures forall e :: e in emails <==>
      exists g :: g in s.folderShares && g.resource in Lineage(s.folders, f, n) &&
        g.grantee in s.users && g.grantee != uploader && s.users[g.grantee].email == e
    decreases n
  {
    match s.folders[f].parent
    case None => GranteeEmails(s, f, uploader)
    case Some(p) => GranteeEmails(s, f, uploader) + RecipientsOnLineage(s, p, uploader, n - 1)
  }

  /** Who should hear about an upload into `f`: every user, other than the
      uploader, holding a share row on `f` or on one of its ancestors. */
  ghost function NotifyReference(s: Store, f: Uuid, uploader: Uuid): set<string> {
    set g | g in s.folderShares && IsAncestorOrSelf(s.folders, g.resource, f) &&
      g.grantee in s.users && g.grantee != uploader :: s.users[g.grantee].email
  }

  /** The walk reaches exactly the grantees of the folder and its ancestors. */
  lemma RecipientsAreAncestorGrantees(s: Store, f: Uuid, uploader: Uuid)
    requires Acyclic(s.folders) && f in s.folders
    ensures RecipientsOnLineage(s, f, uploader, |s.folders|) == NotifyReference(s, f, uploader)
  {
    forall a
      ensures a in Lineage(s.folders, f, |s.folders|) <==> IsAncestorOrSelf(s.folders, a, f)
    {
      LineageIsAncestry(s.folders, f, |s.folders|, a);
    }
  }

  /** The e-mail queued in the background after an upload. */
  datatype Notification = Notification(recipients: set<string>, uploader: string, folderName: string)

  lemma AddPhotoKeepsValid(s: Store, id: Uuid, photo: Photo)
    requires Valid(s) && id !in s.photos && photo.owner in s.users
    requires photo.folder.Some? ==> photo.folder.value in s.folders
    ensures Valid(s.(photos := s.photos[id := photo]))
  {
    var t := s.(photos := s.photos[id := photo]);
    assert PhotoRefsOk(t);
    assert ShareRefsOk(t);
  }

  /** `POST /photos/upload`. The content type is checked first (400). The
      folder is neither checked for existence nor for access: a folder that
      does not exist fails the foreign key at commit (500), while anybody's
      existing folder is accepted. A notification is queued only for an
      upload into a folder and only when somebody is to be told. */
  function UploadPhoto(s: Store, caller: Uuid, filename: string, contentType: string, folder: Option<Uuid>, newId: Uuid)
    : (r: Result<(Uuid, Option<Notification>, Store)>)
    requires Valid(s) && caller in s.users && newId !in s.photos
    ensures r.Err? <==> contentType !in AllowedTypes || (folder.Some? && folder.value !in s.folders)
    ensures contentType !in AllowedTypes ==> r == Err(BadRequest)
    ensures contentType in AllowedTypes && r.Err? ==> r.status == ServerError
    ensures r.Ok? ==> r.value.0 == newId && Valid(r.value.2)
    ensures r.Ok? ==> r.value.2 == s.(photos := s.photos[newId := Photo(caller, folder, filename, contentType)])
    ensures r.Ok? ==> (r.value.1.Some? <==> folder.Some? && NotifyReference(s, folder.value, caller) != {})
    ensures r.Ok? && r.value.1.Some? ==>
      r.value.1.value == Notification(NotifyReference(s, folder.value, caller), s.users[caller].email, s.folders[folder.value].name)
    ensures r.Ok? && r.value.1.Some? ==> s.users[caller].email !in r.value.1.value.recipients
  {
    if contentType !in AllowedTypes then Err(BadRequest)
    else if folder.Some? && folder.value !in s.folders then Err(ServerError)
    else
      var photo := Photo(caller, folder, filename, contentType);
      AddPhotoKeepsValid(s, newId, photo);
      var t := s.(photos := s.photos[newId := photo]);
      match folder
      case None => Ok((newId, None, t))
      case Some(f) =>
        RecipientsAreAncestorGrantees(s, f, caller);
        // the walk runs after the commit, but the new row touches none of the tables it reads
        var emails := RecipientsOnLineage(s, f, caller, |s.folders|);
        if emails == {} then Ok((newId, None, t))
        else Ok((newId, Some(Notification(emails, s.users[caller].email, s.folders[f].name)), t))
  }

  // ---------------------------------------------------------------------------
  // Deletion

  /** `DELETE /photos/{id}`. The owner may delete; so may a user whose share
      row on the photo's own folder carries `can_delete`. The photo's share
      rows go with it (ON DELETE CASCADE). */
  function DeletePhoto(s: Store, caller: Uuid, p: Uuid): (r: Result<Store>)
    requires Valid(s)
    ensures p !in s.photos ==> r == Err(NotFound)
    ensures p in s.photos ==> (r.Ok? <==>
      || s.photos[p].owner == caller
      || (s.photos[p].folder.Some? && Grant(s.photos[p].folder.value, caller) in s.folderShares &&
          s.folderShares[Grant(s.photos[p].folder.value, caller)]))
    ensures r.Err? ==> r.status in {NotFound, Forbidden}
    ensures p in s.photos && r.Err? ==> r.status == Forbidden
    ensures r.Ok? ==> Valid(r.value)
    ensures r.Ok? ==> r.value.photos.Keys == s.photos.Keys - {p}
    ensures r.Ok? ==> forall q :: q in r.value.photos ==> r.value.photos[q] == s.photos[q]
    ensures r.Ok? ==> forall g :: g in r.value.photoShares <==> g in s.photoShares && g.resource != p
    ensures r.Ok? ==> r.value.(photos := s.photos, photoShares := s.photoShares) == s
  {
    if p !in s.photos then Err(NotFound)
    else
      var photo := s.photos[p];
      var hasPermission :=
        if photo.owner == caller then true
        else match photo.folder
          case None => false
          case Some(f) => Grant(f, caller) in s.folderShares && s.folderShares[Grant(f, caller)];
      if !hasPermission then Err(Forbidden)
      else
        RemovePhotoKeepsValid(s, p);
        Ok(WithoutPhoto(s, p))
  }

  /** The store without photo `p` and its share rows (ON DELETE CASCADE). */
  function WithoutPhoto(s: Store, p: Uuid): Store {
    s.(photos := s.photos - {p}, photoShares := set g | g in s.photoShares && g.resource != p)
  }

  lemma RemovePhotoKeepsValid(s: Store, p: Uuid)
    requires Valid(s)
    ensures Valid(WithoutPhoto(s, p))
  {
    var t := WithoutPhoto(s, p);
    assert PhotoRefsOk(t);
    assert ShareRefsOk(t);
  }

  // ---------------------------------------------------------------------------
  // Sharing

  datatype PhotoShareOutcome = AlreadyShared | NewlyShared(email: string)

  /** `POST /photos/{id}/share`: inserts the (photo, user) row unless it is already there. */
  function SharePhoto(s: Store, caller: Uuid, p: Uuid, email: string): (r: Result<(PhotoShareOutcome, Store)>)
    requires Valid(s) && caller in s.users
    ensures !(p in s.photos && s.photos[p].owner == caller) ==> r == Err(NotFound)
    ensures p in s.photos && s.photos[p].owner == caller && (forall u :: u in s.users ==> s.users[u].email != email) ==>
      r == Err(NotFound)
    ensures p in s.photos && s.photos[p].owner == caller && s.users[caller].email == email ==>
      r == Err(BadRequest)
    ensures r.Ok? <==>
      p in s.photos && s.photos[p].owner == caller &&
      exists u :: u in s.users && s.users[u].email == email && u != caller
    ensures r.Ok? ==> forall t :: t in s.users && s.users[t].email == email ==>
      && r.value.1.photoShares == s.photoShares + {Grant(p, t)}
      && (r.value.0 == AlreadyShared <==> Grant(p, t) in s.photoShares)
      && (r.value.0.NewlyShared? ==> r.value.0.email == email)
    ensures r.Ok? ==> r.value.1.(photoShares := s.photoShares) == s
    ensures r.Ok? ==> Valid(r.value.1)
  {
    if !(p in s.photos && s.photos[p].owner == caller) then Err(NotFound)
    else
      match UserByEmail(s, email)
      case None => Err(NotFound)
      case Some(target) =>
        if target == caller then Err(BadRequest)
        else
          var row := Grant(p, target);
          if row in s.photoShares then Ok((AlreadyShared, s))
          else
            AddPhotoShareKeepsValid(s, row);
            Ok((NewlyShared(s.users[target].email), s.(photoShares := s.photoShares + {row})))
  }

  lemma AddPhotoShareKeepsValid(s: Store, row: Grant)
    requires Valid(s) && row.resource in s.photos && row.grantee in s.users
    ensures Valid(s.(photoShares := s.photoShares + {row}))
  {
    assert ShareRefsOk(s.(photoShares := s.photoShares + {row}));
  }

  /** Sharing a photo twice with the same user: the second call reports that
      access was already given and changes nothing. */
  lemma SharePhotoIdempotent(s: Store, caller: Uuid, p: Uuid, email: string)
    requires Valid(s) && caller in s.users && SharePhoto(s, caller, p, email).Ok?
    ensures var s1 := SharePhoto(s, caller, p, email).value.1;
      && caller in s1.users
      && SharePhoto(s1, caller, p, email) == Ok((AlreadyShared, s1))
  {
    var target := UserByEmail(s, email).value;
    var s1 := SharePhoto(s, caller, p, email).value.1;
    assert Grant(p, target) in s1.photoShares;
    assert UserByEmail(s1, email) == Some(target);
  }

  /** A first share adds exactly one row. */
  lemma SharePhotoAddsOneRow(s: Store, caller: Uuid, p: Uuid, email: string)
    requires Valid(s) && caller in s.users && SharePhoto(s, caller, p, email).Ok?
    requires SharePhoto(s, caller, p, email).value.0.NewlyShared?
    ensures |SharePhoto(s, caller, p, email).value.1.photoShares| == |s.photoShares| + 1
  {
    var target := UserByEmail(s, email).value;
    assert Grant(p, target) !in s.photoShares;
  }
}
