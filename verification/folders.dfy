/**
 * The folder endpoints: listing with the ancestor access walk, creation,
 * deletion with its storage cleanup, the shared-with-me listing and sharing.
 * Each endpoint is one atomic transition of the store.
 */
module Folders {
  import opened Common
  import opened Models
  import opened Tree
  import opened Database

  // ---------------------------------------------------------------------------
  // Listing

  /** The access walk of the listing endpoint: starting at `f`, look for a
      share row for `u`, then move to the parent, until a root is passed. */
  function SharedOnLineage(s: Store, f: Uuid, u: Uuid, n: nat): (b: bool)
    requires RootedWithin(s.folders, f, n)
    ensures b <==> exists a :: a in Lineage(s.folders, f, n) && Grant(a, u) in s.folderShares
    decreases n
  {
    if Grant(f, u) in s.folderShares then true
    else
      match s.folders[f].parent
      case None => false
      case Some(p) => SharedOnLineage(s, p, u, n - 1)
  }

  /** Who may list the children of `f`: its owner, and anyone holding a share
      row on `f` or on any of its ancestors. */
  ghost predicate MayBrowse(s: Store, u: Uuid, f: Uuid)
    requires f in s.folders
  {
    || s.folders[f].owner == u
    || exists a :: IsAncestorOrSelf(s.folders, a, f) && Grant(a, u) in s.folderShares
  }

  /** The walk finds a share row exactly when one sits on the folder or on an ancestor. */
  lemma AccessWalkFindsAncestorGrant(s: Store, f: Uuid, u: Uuid)
    requires Acyclic(s.folders) && f in s.folders
    ensures SharedOnLineage(s, f, u, |s.folders|) <==>
      exists a :: IsAncestorOrSelf(s.folders, a, f) && Grant(a, u) in s.folderShares
  {
    forall a
      ensures a in Lineage(s.folders, f, |s.folders|) <==> IsAncestorOrSelf(s.folders, a, f)
    {
      LineageIsAncestry(s.folders, f, |s.folders|, a);
    }
  }

  /** `GET /folders/`: the caller's root folders, or the children of `parent`. */
  function GetFolders(s: Store, caller: Uuid, parent: Option<Uuid>): (r: Result<set<Uuid>>)
    requires Valid(s)
    ensures parent.None? ==> r.Ok?
    ensures parent.None? ==> forall f :: f in r.value <==>
      f in s.folders && s.folders[f].owner == caller && s.folders[f].parent.None?
    ensures parent.Some? && parent.value !in s.folders ==> r == Err(NotFound)
    ensures parent.Some? && parent.value in s.folders ==>
      (r.Ok? <==> MayBrowse(s, caller, parent.value)) && (r.Err? ==> r.status == Forbidden)
    ensures parent.Some? && r.Ok? ==> forall f :: f in r.value <==>
      f in s.folders && s.folders[f].parent == parent
  {
    match parent
    case None =>
      Ok(set f | f in s.folders && s.folders[f].owner == caller && s.folders[f].parent.None?)
    case Some(p) =>
      if p !in s.folders then Err(NotFound)
      else
        AccessWalkFindsAncestorGrant(s, p, caller);
        var hasAccess := s.folders[p].owner == caller || SharedOnLineage(s, p, caller, |s.folders|);
        if !hasAccess then Err(Forbidden)
        else Ok(set f | f in s.folders && s.folders[f].parent == Some(p))
  }

  /** `GET /folders/shared`: the folders with a share row for the caller. */
  function GetSharedFolders(s: Store, caller: Uuid): (r: set<Uuid>)
    requires Valid(s)
    ensures forall f :: f in r <==> Grant(f, caller) in s.folderShares
  {
    set f | f in s.folders && Grant(f, caller) in s.folderShares
  }

  /** Every folder on the chain of a folder has that folder's owner. */
  lemma {:induction false} LineageSameOwner(s: Store, d: Uuid, i: nat)
    requires Valid(s) && d in s.folders && i < |Lineage(s.folders, d, |s.folders|)|
    ensures s.folders[Lineage(s.folders, d, |s.folders|)[i]].owner == s.folders[d].owner
    decreases i
  {
    if i > 0 {
      LineageSameOwner(s, d, i - 1);
    }
  }

  /** An owner can reach each of their folders from the root listing: the
      top of its chain is listed at the root, and each folder on the chain is
      listed, and accessible, under its parent. */
  lemma OwnerReachesEveryFolder(s: Store, u: Uuid, d: Uuid)
    requires Valid(s) && d in s.folders && s.folders[d].owner == u
    ensures var chain := Lineage(s.folders, d, |s.folders|);
      && chain[|chain| - 1] in GetFolders(s, u, None).value
      && forall j :: 1 <= j < |chain| ==>
           GetFolders(s, u, Some(chain[j])).Ok? && chain[j - 1] in GetFolders(s, u, Some(chain[j])).value
  {
    var chain := Lineage(s.folders, d, |s.folders|);
    LineageSameOwner(s, d, |chain| - 1);
    forall j | 1 <= j < |chain|
      ensures GetFolders(s, u, Some(chain[j])).Ok? && chain[j - 1] in GetFolders(s, u, Some(chain[j])).value
    {
      LineageSameOwner(s, d, j);
      OwnerListsChild(s, u, chain[j], chain[j - 1]);
    }
  }

  lemma OwnerListsChild(s: Store, u: Uuid, p: Uuid, c: Uuid)
    requires Valid(s) && p in s.folders && s.folders[p].owner == u
    requires c in s.folders && s.folders[c].parent == Some(p)
    ensures GetFolders(s, u, Some(p)).Ok? && c in GetFolders(s, u, Some(p)).value
  {
  }

  /** A share row on `a` makes all of `a`'s subtree browsable for the grantee:
      `a` itself is among their shared folders, and every folder below it is
      listed under its parent. */
  lemma GrantOpensSubtree(s: Store, u: Uuid, a: Uuid, d: Uuid)
    requires Valid(s) && Grant(a, u) in s.folderShares
    requires d in Subtree(s.folders, a) && d != a
    ensures a in GetSharedFolders(s, u)
    ensures s.folders[d].parent.Some?
    ensures GetFolders(s, u, s.folders[d].parent).Ok?
    ensures d in GetFolders(s, u, s.folders[d].parent).value
  {
    var fs := s.folders;
    var chain := Lineage(fs, d, |fs|);
    var i :| 0 <= i < |chain| && chain[i] == a;
    var p := fs[d].parent.value;
    LineageFuelIrrelevant(fs, p, |fs| - 1, |fs|);
    assert a in Lineage(fs, p, |fs|);
    LineageIsAncestry(fs, p, |fs|, a);
  }

  // ---------------------------------------------------------------------------
  // Creation

  /** Inserting a new folder row changes no other row. */
  function AddFolder(s: Store, id: Uuid, leaf: Folder): (t: Store)
    requires id !in s.folders
    ensures t.folders.Keys == s.folders.Keys + {id} && t.folders[id] == leaf
    ensures forall f :: f in s.folders ==> t.folders[f] == s.folders[f]
    ensures t.(folders := s.folders) == s
  {
    s.(folders := s.folders[id := leaf])
  }

  /** A new folder under one of its owner's folders, or at the root, keeps the store valid. */
  lemma AddFolderKeepsValid(s: Store, id: Uuid, leaf: Folder)
    requires Valid(s) && id !in s.folders && leaf.owner in s.users
    requires leaf.parent.Some? ==> leaf.parent.value in s.folders && s.folders[leaf.parent.value].owner == leaf.owner
    ensures Valid(AddFolder(s, id, leaf))
  {
    AddLeafKeepsAcyclic(s.folders, id, leaf);
    var t := s.(folders := s.folders[id := leaf]);
    assert FolderRefsOk(t);
    assert PhotoRefsOk(t);
    assert ShareRefsOk(t);
  }

  /** `POST /folders/`: a parent, when given, must be one of the caller's folders. */
  function CreateFolder(s: Store, caller: Uuid, name: string, parent: Option<Uuid>, newId: Uuid): (r: Result<(Uuid, Store)>)
    requires Valid(s) && caller in s.users && newId !in s.folders
    ensures r.Err? <==> parent.Some? && !(parent.value in s.folders && s.folders[parent.value].owner == caller)
    ensures r.Err? ==> r.status == NotFound
    ensures r.Ok? ==> r.value.0 == newId && Valid(r.value.1)
    ensures r.Ok? ==> r.value.1.folders.Keys == s.folders.Keys + {newId}
    ensures r.Ok? ==> r.value.1.folders[newId] == Folder(caller, parent, name)
    ensures r.Ok? ==> forall f :: f in s.folders ==> r.value.1.folders[f] == s.folders[f]
    ensures r.Ok? ==> r.value.1.(folders := s.folders) == s
  {
    if parent.Some? && !(parent.value in s.folders && s.folders[parent.value].owner == caller) then
      Err(NotFound)
    else
      AddFolderKeepsValid(s, newId, Folder(caller, parent, name));
      Ok((newId, AddFolder(s, newId, Folder(caller, parent, name))))
  }

  // ---------------------------------------------------------------------------
  // Deletion

  /** Children sit one step further from the root than their parent. */
  lemma ChildrenAreHigher(fs: Folders, f: Uuid)
    requires Acyclic(fs) && f in fs
    ensures forall c :: c in Children(fs, f) ==> c in fs && Height(fs, c) == Height(fs, f) + 1
  {
    forall c | c in Children(fs, f)
      ensures c in fs && Height(fs, c) == Height(fs, f) + 1
    {
      ChildHeight(fs, f, c);
    }
  }

  /** `delete_folder_contents_from_s3`: the photos whose stored objects are
      removed, those of `f` and then, recursively, those of each child. */
  function CleanupPhotos(s: Store, f: Uuid): (gone: set<Uuid>)
    requires Acyclic(s.folders) && f in s.folders
    ensures forall p :: p in gone ==> p in s.photos && s.photos[p].folder.Some?
    ensures forall p :: p in s.photos && s.photos[p].folder == Some(f) ==> p in gone
    decreases |s.folders| - Height(s.folders, f)
  {
    ChildrenAreHigher(s.folders, f);
    (set p | p in s.photos && s.photos[p].folder == Some(f)) +
    (set c, p | c in Children(s.folders, f) && p in CleanupPhotos(s, c) :: p)
  }

  /** The cleanup visits exactly the photos filed in `f` or in a folder below it. */
  lemma {:induction false} CleanupVisitsSubtreePhotos(s: Store, f: Uuid)
    requires Acyclic(s.folders) && f in s.folders
    ensures forall p :: p in CleanupPhotos(s, f) <==>
      p in s.photos && s.photos[p].folder.Some? && s.photos[p].folder.value in Subtree(s.folders, f)
    decreases |s.folders| - Height(s.folders, f)
  {
    ChildrenAreHigher(s.folders, f);
    forall c | c in Children(s.folders, f) {
      CleanupVisitsSubtreePhotos(s, c);
    }
    forall p | p in s.photos && s.photos[p].folder.Some? {
      SubtreeUnfold(s.folders, f, s.photos[p].folder.value);
    }
  }

  /** `DELETE /folders/{id}` with the cascade the schema declares: the folder,
      every folder below it, their photos and every share row on any of them
      disappear. No ownership or share check is made; a missing folder makes
      the delete raise, a 500. */
  function DeleteFolder(s: Store, caller: Uuid, f: Uuid): (r: Result<(set<Uuid>, Store)>)
    requires Valid(s)
    ensures r.Err? <==> f !in s.folders
    ensures r.Err? ==> r.status == ServerError
    ensures r.Ok? ==> Valid(r.value.1)
    ensures r.Ok? ==> forall p :: p in r.value.0 <==>
      p in s.photos && s.photos[p].folder.Some? && IsAncestorOrSelf(s.folders, f, s.photos[p].folder.value)
    ensures r.Ok? ==> forall d :: d in r.value.1.folders <==> d in s.folders && !IsAncestorOrSelf(s.folders, f, d)
    ensures r.Ok? ==> forall p :: p in r.value.1.photos <==> p in s.photos && p !in r.value.0
    ensures r.Ok? ==> forall d :: d in r.value.1.folders ==> r.value.1.folders[d] == s.folders[d]
    ensures r.Ok? ==> forall p :: p in r.value.1.photos ==> r.value.1.photos[p] == s.photos[p]
    ensures r.Ok? ==> forall g :: g in r.value.1.folderShares <==> g in s.folderShares && g.resource in r.value.1.folders
    ensures r.Ok? ==> forall g :: g in r.value.1.folderShares ==> r.value.1.folderShares[g] == s.folderShares[g]
    ensures r.Ok? ==> forall g :: g in r.value.1.photoShares <==> g in s.photoShares && g.resource in r.value.1.photos
    ensures r.Ok? ==> r.value.1.users == s.users
  {
    if f !in s.folders then Err(ServerError)
    else
      var dead := Subtree(s.folders, f);
      var gone := CleanupPhotos(s, f);
      CleanupVisitsSubtreePhotos(s, f);
      SubtreeIsDescendants(s.folders, f);
      SubtreeDownwardClosed(s.folders, f);
      RemoveClosedKeepsAcyclic(s.folders, dead);
      Ok((gone, Store(
        s.users,
        s.folders - dead,
        map p | p in s.photos && p !in gone :: s.photos[p],
        map g | g in s.folderShares && g.resource !in dead :: s.folderShares[g],
        set g | g in s.photoShares && g.resource !in gone)))
  }

  /** `DELETE /folders/{id}` as the ORM actually runs it. `Folder.children` and
      `Folder.photos` are relationships without a delete cascade, so before
      deleting the row SQLAlchemy sets `parent_id` of the children and
      `folder_id` of the photos to NULL; the database's ON DELETE CASCADE then
      has nothing left to cascade to. Share rows on the folder itself still go. */
  function DeleteFolderAsWritten(s: Store, caller: Uuid, f: Uuid): (r: Result<(set<Uuid>, Store)>)
    requires Valid(s)
    ensures r.Err? <==> f !in s.folders
    ensures r.Err? ==> r.status == ServerError
    ensures r.Ok? ==> forall d :: d in r.value.1.folders <==> d in s.folders && d != f
    ensures r.Ok? ==> forall d :: d in r.value.1.folders ==>
      r.value.1.folders[d].parent == if s.folders[d].parent == Some(f) then None else s.folders[d].parent
    ensures r.Ok? ==> forall d :: d in r.value.1.folders ==>
      r.value.1.folders[d].owner == s.folders[d].owner && r.value.1.folders[d].name == s.folders[d].name
    ensures r.Ok? ==> r.value.1.photos.Keys == s.photos.Keys
    ensures r.Ok? ==> forall p :: p in s.photos && s.photos[p].folder == Some(f) ==>
      r.value.1.photos[p] == s.photos[p].(folder := None)
    ensures r.Ok? ==> forall p :: p in s.photos && s.photos[p].folder != Some(f) ==>
      r.value.1.photos[p] == s.photos[p]
    ensures r.Ok? ==> forall g :: g in r.value.1.folderShares <==> g in s.folderShares && g.resource != f
    ensures r.Ok? ==> forall g :: g in r.value.1.folderShares ==> r.value.1.folderShares[g] == s.folderShares[g]
    ensures r.Ok? ==> r.value.1.photoShares == s.photoShares && r.value.1.users == s.users
    ensures r.Ok? ==> Valid(r.value.1)
  {
    if f !in s.folders then Err(ServerError)
    else
      var gone := CleanupPhotos(s, f);
      OrphanedKeepsValid(s, f);
      Ok((gone, Orphaned(s, f)))
  }

  /** The store once `f` is gone and its children and photos are nulled to the root. */
  function Orphaned(s: Store, f: Uuid): Store {
    s.(
      folders := Detach(s.folders, f),
      photos := map p | p in s.photos ::
        if s.photos[p].folder == Some(f) then s.photos[p].(folder := None) else s.photos[p],
      folderShares := map g | g in s.folderShares && g.resource != f :: s.folderShares[g])
  }

  lemma OrphanedKeepsValid(s: Store, f: Uuid)
    requires Valid(s)
    ensures Valid(Orphaned(s, f))
  {
    DetachKeepsAcyclic(s.folders, f);
  }

  /** The as-written delete still runs the storage cleanup over the whole
      subtree: it visits exactly the photos filed in `f` or below it, even
      though only the photo rows of `f` itself are touched afterwards. */
  lemma DeleteFolderAsWrittenVisitsSubtree(s: Store, caller: Uuid, f: Uuid)
    requires Valid(s) && f in s.folders
    ensures DeleteFolderAsWritten(s, caller, f).Ok?
    ensures forall p :: p in DeleteFolderAsWritten(s, caller, f).value.0 <==>
      p in s.photos && s.photos[p].folder.Some? && IsAncestorOrSelf(s.folders, f, s.photos[p].folder.value)
  {
    CleanupVisitsSubtreePhotos(s, f);
    SubtreeIsDescendants(s.folders, f);
  }

  /** The discrepancy: as written, a photo one level down has its stored object
      deleted while its row survives, and its folder becomes a root; with the
      declared cascade both are gone. */
  lemma AsWrittenDeleteOrphansSubtree(s: Store, caller: Uuid, f: Uuid, c: Uuid, p: Uuid)
    requires Valid(s) && c in Children(s.folders, f) && p in s.photos && s.photos[p].folder == Some(c)
    ensures f in s.folders
    ensures var r := DeleteFolderAsWritten(s, caller, f);
      && r.Ok? && p in r.value.0 && p in r.value.1.photos
      && c in r.value.1.folders && r.value.1.folders[c].parent.None?
    ensures var r := DeleteFolder(s, caller, f);
      && r.Ok? && p in r.value.0 && p !in r.value.1.photos && c !in r.value.1.folders
  {
    ChildHeight(s.folders, f, c);
    CleanupVisitsSubtreePhotos(s, f);
    SubtreeUnfold(s.folders, f, c);
    assert c in Subtree(s.folders, c);
  }

  // ---------------------------------------------------------------------------
  // Sharing

  datatype ShareOutcome = Updated | Created(email: string)

  /** `POST /folders/{id}/share`: an upsert of the (folder, user) row. A request
      without `can_delete` stores the column default. */
  function ShareFolder(s: Store, caller: Uuid, f: Uuid, email: string, canDelete: Option<bool>): (r: Result<(ShareOutcome, Store)>)
    requires Valid(s) && caller in s.users
    ensures !(f in s.folders && s.folders[f].owner == caller) ==> r == Err(NotFound)
    ensures f in s.folders && s.folders[f].owner == caller && (forall u :: u in s.users ==> s.users[u].email != email) ==>
      r == Err(NotFound)
    ensures f in s.folders && s.folders[f].owner == caller && s.users[caller].email == email ==>
      r == Err(BadRequest)
    ensures r.Ok? <==>
      f in s.folders && s.folders[f].owner == caller &&
      exists u :: u in s.users && s.users[u].email == email && u != caller
    ensures r.Ok? ==> forall t :: t in s.users && s.users[t].email == email ==>
      && r.value.1.folderShares == s.folderShares[Grant(f, t) := canDelete.GetOr(CanDeleteDefault)]
      && (r.value.0 == Updated <==> Grant(f, t) in s.folderShares)
    ensures r.Ok? && r.value.0.Created? ==> r.value.0.email == email
    ensures r.Ok? ==> r.value.1.(folderShares := s.folderShares) == s
    ensures r.Ok? ==> Valid(r.value.1)
  {
    if !(f in s.folders && s.folders[f].owner == caller) then Err(NotFound)
    else
      match UserByEmail(s, email)
      case None => Err(NotFound)
      case Some(target) =>
        if target == caller then Err(BadRequest)
        else
          var row := Grant(f, target);
          var flag := canDelete.GetOr(CanDeleteDefault);
          var t := s.(folderShares := s.folderShares[row := flag]);
          if row in s.folderShares then Ok((Updated, t))
          else Ok((Created(s.users[target].email), t))
  }

  /** Sharing again with the same user adds no row: the second call reports
      an update and leaves the set of rows as the first call left it. */
  lemma ShareFolderTwiceAddsNoRow(s: Store, caller: Uuid, f: Uuid, email: string, first: Option<bool>, second: Option<bool>)
    requires Valid(s) && caller in s.users && ShareFolder(s, caller, f, email, first).Ok?
    ensures var s1 := ShareFolder(s, caller, f, email, first).value.1;
      && caller in s1.users
      && ShareFolder(s1, caller, f, email, second).Ok?
      && ShareFolder(s1, caller, f, email, second).value.0 == Updated
      && ShareFolder(s1, caller, f, email, second).value.1.folderShares.Keys == s1.folderShares.Keys
  {
    var target := UserByEmail(s, email).value;
    ShareFolderStores(s, caller, f, email, first, target);
    var s1 := ShareFolder(s, caller, f, email, first).value.1;
    assert UserByEmail(s1, email) == Some(target);
    ShareFolderStores(s1, caller, f, email, second, target);
  }

  /** The last flag wins: sharing twice leaves the store a single share with
      the second flag would have produced. */
  lemma ShareFolderLastFlagWins(s: Store, caller: Uuid, f: Uuid, email: string, first: Option<bool>, second: Option<bool>)
    requires Valid(s) && caller in s.users && ShareFolder(s, caller, f, email, first).Ok?
    ensures var s1 := ShareFolder(s, caller, f, email, first).value.1;
      && caller in s1.users
      && ShareFolder(s1, caller, f, email, second).Ok?
      && ShareFolder(s, caller, f, email, second).Ok?
      && ShareFolder(s1, caller, f, email, second).value.1 == ShareFolder(s, caller, f, email, second).value.1
  {
    var target := UserByEmail(s, email).value;
    var row := Grant(f, target);
    ShareFolderStores(s, caller, f, email, first, target);
    ShareFolderStores(s, caller, f, email, second, target);
    var s1 := ShareFolder(s, caller, f, email, first).value.1;
    assert UserByEmail(s1, email) == Some(target);
    ShareFolderStores(s1, caller, f, email, second, target);
    Overwrite(s.folderShares, row, first.GetOr(CanDeleteDefault), second.GetOr(CanDeleteDefault));
  }

  /** A share adds one row when the pair had none and otherwise keeps the count. */
  lemma ShareFolderRowCount(s: Store, caller: Uuid, f: Uuid, email: string, canDelete: Option<bool>)
    requires Valid(s) && caller in s.users && ShareFolder(s, caller, f, email, canDelete).Ok?
    ensures var r := ShareFolder(s, caller, f, email, canDelete).value;
      |r.1.folderShares| == |s.folderShares| + (if r.0 == Updated then 0 else 1)
  {
    var target := UserByEmail(s, email).value;
    ShareFolderStores(s, caller, f, email, canDelete, target);
  }

  lemma ShareFolderStores(s: Store, caller: Uuid, f: Uuid, email: string, flag: Option<bool>, target: Uuid)
    requires Valid(s) && caller in s.users && f in s.folders && s.folders[f].owner == caller
    requires UserByEmail(s, email) == Some(target) && target != caller
    ensures ShareFolder(s, caller, f, email, flag).Ok?
    ensures ShareFolder(s, caller, f, email, flag).value.1 == s.(folderShares := s.folderShares[Grant(f, target) := flag.GetOr(CanDeleteDefault)])
    ensures ShareFolder(s, caller, f, email, flag).value.0 == Updated <==> Grant(f, target) in s.folderShares
  {
  }

  lemma Overwrite<K, V>(m: map<K, V>, k: K, a: V, b: V)
    ensures m[k := a][k := b] == m[k := b]
  {
    assert m[k := a][k := b].Keys == m[k := b].Keys;
  }
}
