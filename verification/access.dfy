/**
 * How the access rules of the two routers relate. Folder listing honours a
 * share row anywhere above the folder; photo listing and photo deletion only
 * look at the photo's own folder. And since nobody can hold a share row on
 * their own folder, a folder's owner cannot delete photos that somebody else
 * uploaded into it.
 */
module Access {
  import opened Common
  import opened Models
  import opened Tree
  import opened Database
  import opened Folders
  import opened Photos

  /** A share row on a proper ancestor opens the folder for browsing but not its photos. */
  lemma AncestorGrantBrowsesFoldersNotPhotos(s: Store, u: Uuid, a: Uuid, f: Uuid)
    requires Valid(s) && f in s.folders && s.folders[f].owner != u
    requires Grant(a, u) in s.folderShares && IsAncestorOrSelf(s.folders, a, f)
    requires Grant(f, u) !in s.folderShares
    ensures GetFolders(s, u, Some(f)).Ok?
    ensures GetPhotos(s, u, Some(f)) == Err(Forbidden)
  {
  }

  /** A `can_delete` share row on a proper ancestor does not let its holder
      delete a photo further down; only the row on the photo's own folder counts. */
  lemma AncestorCanDeleteDoesNotReachPhotos(s: Store, u: Uuid, a: Uuid, p: Uuid)
    requires Valid(s) && p in s.photos && s.photos[p].owner != u && s.photos[p].folder.Some?
    requires Grant(a, u) in s.folderShares && s.folderShares[Grant(a, u)]
    requires IsAncestorOrSelf(s.folders, a, s.photos[p].folder.value)
    requires Grant(s.photos[p].folder.value, u) !in s.folderShares
    ensures GetFolders(s, u, s.photos[p].folder).Ok?
    ensures DeletePhoto(s, u, p) == Err(Forbidden)
  {
  }

  /** A photo shared on its own shows up in the shared listing, yet the folder
      it sits in stays closed to the grantee. */
  lemma PhotoShareDoesNotOpenItsFolder(s: Store, u: Uuid, p: Uuid)
    requires Valid(s) && Grant(p, u) in s.photoShares
    requires s.photos[p].folder.Some? && s.folders[s.photos[p].folder.value].owner != u
    requires Grant(s.photos[p].folder.value, u) !in s.folderShares
    ensures p in GetSharedPhotos(s, u)
    ensures GetPhotos(s, u, s.photos[p].folder) == Err(Forbidden)
  {
  }

  // ---------------------------------------------------------------------------
  // Nobody holds a share row on their own folder

  /** `share_folder` refuses to share with the caller, who must own the folder. */
  ghost predicate NoSelfFolderShare(s: Store)
    requires Valid(s)
  {
    forall g :: g in s.folderShares ==> s.folders[g.resource].owner != g.grantee
  }

  lemma CreateFolderKeepsNoSelfShare(s: Store, caller: Uuid, name: string, parent: Option<Uuid>, newId: Uuid)
    requires Valid(s) && caller in s.users && newId !in s.folders && NoSelfFolderShare(s)
    requires parent.Some? ==> parent.value in s.folders && s.folders[parent.value].owner == caller
    ensures CreateFolder(s, caller, name, parent, newId).Ok?
    ensures NoSelfFolderShare(CreateFolder(s, caller, name, parent, newId).value.1)
  {
    var t := CreateFolder(s, caller, name, parent, newId).value.1;
    forall g | g in t.folderShares
      ensures t.folders[g.resource].owner != g.grantee
    {
      assert g in s.folderShares;
    }
  }

  lemma ShareFolderKeepsNoSelfShare(s: Store, caller: Uuid, f: Uuid, email: string, canDelete: Option<bool>)
    requires Valid(s) && caller in s.users && NoSelfFolderShare(s)
    requires ShareFolder(s, caller, f, email, canDelete).Ok?
    ensures NoSelfFolderShare(ShareFolder(s, caller, f, email, canDelete).value.1)
  {
    var target := UserByEmail(s, email).value;
    ShareFolderStores(s, caller, f, email, canDelete, target);
    var t := ShareFolder(s, caller, f, email, canDelete).value.1;
    forall g | g in t.folderShares
      ensures t.folders[g.resource].owner != g.grantee
    {
      if g != Grant(f, target) {
        assert g in s.folderShares;
      }
    }
  }

  lemma DeleteFolderKeepsNoSelfShare(s: Store, caller: Uuid, f: Uuid)
    requires Valid(s) && NoSelfFolderShare(s) && f in s.folders
    ensures DeleteFolder(s, caller, f).Ok?
    ensures NoSelfFolderShare(DeleteFolder(s, caller, f).value.1)
  {
    var t := DeleteFolder(s, caller, f).value.1;
    forall g | g in t.folderShares
      ensures t.folders[g.resource].owner != g.grantee
    {
      assert g in s.folderShares;
    }
  }

  /** The delete as the ORM runs it also only removes share rows, so the
      invariant holds for the program as written too. */
  lemma DeleteFolderAsWrittenKeepsNoSelfShare(s: Store, caller: Uuid, f: Uuid)
    requires Valid(s) && NoSelfFolderShare(s) && f in s.folders
    ensures DeleteFolderAsWritten(s, caller, f).Ok?
    ensures NoSelfFolderShare(DeleteFolderAsWritten(s, caller, f).value.1)
  {
    var t := DeleteFolderAsWritten(s, caller, f).value.1;
    forall g | g in t.folderShares
      ensures t.folders[g.resource].owner != g.grantee
    {
      assert g in s.folderShares;
    }
  }

  /** A photo that someone else uploaded into your folder is listed to you but
      cannot be deleted by you: you are not its owner, and you hold no share
      row on your own folder. */
  lemma FolderOwnerCannotDeleteForeignUpload(s: Store, u: Uuid, p: Uuid)
    requires Valid(s) && NoSelfFolderShare(s) && p in s.photos && s.photos[p].folder.Some?
    requires s.folders[s.photos[p].folder.value].owner == u && s.photos[p].owner != u
    ensures GetPhotos(s, u, s.photos[p].folder).Ok? && p in GetPhotos(s, u, s.photos[p].folder).value
    ensures DeletePhoto(s, u, p) == Err(Forbidden)
  {
    assert Grant(s.photos[p].folder.value, u) !in s.folderShares;
  }
}
