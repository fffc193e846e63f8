/**
 * The database as one immutable value, with the constraints the schema and
 * the routers keep: unique emails, foreign keys, same-owner parent links and
 * an acyclic folder forest. Every endpoint that writes is shown to preserve
 * `Valid`.
 */
module Database {
  import opened Common
  import opened Models
  import opened Tree

  /** `folderShares` maps each `SharedFolder` row, keyed by (folder, user),
      to its `can_delete` flag; `photoShares` holds the `SharedPhoto` rows. */
  datatype Store = Store(
    users: map<Uuid, User>,
    folders: map<Uuid, Folder>,
    photos: map<Uuid, Photo>,
    folderShares: map<Grant, bool>,
    photoShares: set<Grant>)

  /** The `unique=True` constraint on `User.email`. */
  predicate EmailsUnique(users: map<Uuid, User>) {
    forall u, v :: u in users && v in users && users[u].email == users[v].email ==> u == v
  }

  /** Owners exist; a parent exists and belongs to the same owner (the only
      way to get a parent is `create_folder`, which demands ownership of it). */
  predicate FolderRefsOk(s: Store) {
    forall f :: f in s.folders ==>
      && s.folders[f].owner in s.users
      && match s.folders[f].parent
         case None => true
         case Some(p) => p in s.folders && s.folders[p].owner == s.folders[f].owner
  }

  /** Owners exist and a photo's folder exists. The folder may belong to
      someone else: the upload endpoint does not check. */
  predicate PhotoRefsOk(s: Store) {
    forall p :: p in s.photos ==>
      && s.photos[p].owner in s.users
      && (s.photos[p].folder.Some? ==> s.photos[p].folder.value in s.folders)
  }

  /** Share rows name an existing resource and an existing user. */
  predicate ShareRefsOk(s: Store) {
    && (forall g :: g in s.folderShares ==> g.resource in s.folders && g.grantee in s.users)
    && (forall g :: g in s.photoShares ==> g.resource in s.photos && g.grantee in s.users)
  }

  predicate Valid(s: Store) {
    && EmailsUnique(s.users)
    && Acyclic(s.folders)
    && FolderRefsOk(s)
    && PhotoRefsOk(s)
    && ShareRefsOk(s)
  }

  /** The user registered under an e-mail address, if any; the addresses are unique. */
  function UserByEmail(s: Store, email: string): (r: Option<Uuid>)
    requires EmailsUnique(s.users)
    ensures r.Some? ==> r.value in s.users && s.users[r.value].email == email
    ensures r.Some? ==> forall v :: v in s.users && s.users[v].email == email ==> v == r.value
    ensures r.None? ==> forall v :: v in s.users ==> s.users[v].email != email
  {
    if exists u :: u in s.users && s.users[u].email == email then
      var u :| u in s.users && s.users[u].email == email;
      Some(u)
    else
      None
  }

  /** Deleting a user row. No endpoint does this; the schema decides what
      happens: share rows naming the user go with it (ON DELETE CASCADE),
      while folders and photos they own block the delete (their `user_id`
      is NOT NULL and has no ON DELETE rule), which surfaces as a 500. */
  function RemoveUser(s: Store, u: Uuid): (r: Result<Store>)
    requires Valid(s) && u in s.users
    ensures r.Err? <==>
      (exists f :: f in s.folders && s.folders[f].owner == u) ||
      (exists p :: p in s.photos && s.photos[p].owner == u)
    ensures r.Err? ==> r.status == ServerError
    ensures r.Ok? ==> Valid(r.value)
    ensures r.Ok? ==> r.value.users.Keys == s.users.Keys - {u}
    ensures r.Ok? ==> forall v :: v in r.value.users ==> r.value.users[v] == s.users[v]
    ensures r.Ok? ==> r.value.folders == s.folders && r.value.photos == s.photos
    ensures r.Ok? ==> forall g :: g in r.value.folderShares <==> g in s.folderShares && g.grantee != u
    ensures r.Ok? ==> forall g :: g in r.value.folderShares ==> r.value.folderShares[g] == s.folderShares[g]
    ensures r.Ok? ==> forall g :: g in r.value.photoShares <==> g in s.photoShares && g.grantee != u
  {
    if (exists f :: f in s.folders && s.folders[f].owner == u) ||
       (exists p :: p in s.photos && s.photos[p].owner == u)
    then
      Err(ServerError)
    else
      RemoveUserKeepsValid(s, u);
      Ok(WithoutUser(s, u))
  }

  /** The store without user `u` and the share rows naming them. */
  function WithoutUser(s: Store, u: Uuid): Store {
    Store(
      s.users - {u},
      s.folders,
      s.photos,
      map g | g in s.folderShares && g.grantee != u :: s.folderShares[g],
      set g | g in s.photoShares && g.grantee != u)
  }

  lemma RemoveUserKeepsValid(s: Store, u: Uuid)
    requires Valid(s) && u in s.users
    requires forall f :: f in s.folders ==> s.folders[f].owner != u
    requires forall p :: p in s.photos ==> s.photos[p].owner != u
    ensures Valid(WithoutUser(s, u))
  {
    var t := WithoutUser(s, u);
    assert EmailsUnique(t.users);
    assert FolderRefsOk(t);
    assert PhotoRefsOk(t);
    assert ShareRefsOk(t);
  }
}
