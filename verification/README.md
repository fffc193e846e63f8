# Photo gallery: access rules, folder tree and album navigation

A Dafny model of the core of a photo-album web application. The backend keeps
users, a forest of folders, photos and two kinds of share rows. The web client
pages through that forest with a back-history and a breadcrumb.

- **Store** (`Database.Store`). The whole database is one immutable value:
  users by id, folders by id (owner, optional parent, name), photos by id
  (owner, optional folder, file name, MIME type), `SharedFolder` rows as a
  map from (folder, user) to `can_delete`, and `SharedPhoto` rows as a set of
  (photo, user). `Database.Valid` collects the schema's constraints, unique
  e-mails and foreign keys, together with two facts the schema does not
  declare but every endpoint keeps, because folder creation demands that the
  caller own the parent:
  - a parent folder has the same owner as its child;
  - no folder is its own ancestor.
- **Folder tree** (`Tree`). Parent chains, subtrees and heights. Both walks in
  the routers are bounded by a fuel certificate `RootedWithin`, which the
  pigeonhole lemma `RootedBound` shows never runs out in an acyclic forest.
- **Endpoints** (`Folders`, `Photos`). Each router endpoint is a pure function.
  It takes the store, the calling user and the request, and returns either an
  error status or its response together with the new store.
- **Access relations** (`Access`, `Session`). Lemmas relating the folder and
  photo access rules to each other and to what the page shows.
- **Album page** (`Album`). The client's cursor (tab, open folder, history) as
  a state machine, with:
  - the choice of data source;
  - the per-side fallback when a fetch fails;
  - the breadcrumb;
  - the blank-name guard for new folders.

The current user is an input. Fresh UUIDs are parameters. Server responses
are parameters of the page's refresh step.

The model follows the code, including these behaviours a reader may not
expect:
- A non-owner may delete a photo through a `can_delete` share row on the
  photo's own folder.
- Deleting a folder checks no permission.
- Uploading checks no access to the target folder.
- Listing a folder accepts any share row on an ancestor, whatever its flag. No
  "nearest grant wins" rule exists.
- The breadcrumb leaves out the first history entry, which the Home button
  stands for.
- Both tabs label their root "Головна".

## Model

| member | source | states |
|---|---|---|
| Tree.Lineage | backend/app/routers/folders.py:36-50 | the chain the access walk visits starts at the folder, follows parent links through stored folders and ends at a root |
| Tree.RootedBound | backend/app/models.py:27 | a parent chain that reaches a root at all does so within as many steps as there are folders (pigeonhole), so every walk terminates |
| Tree.LineageIsAncestry | backend/app/routers/folders.py:36-50 | a folder is on the walked chain exactly when it is the start folder or one of its ancestors |
| Tree.NoFolderIsItsOwnAncestor | backend/app/models.py:27 | in an acyclic forest no positive number of parent steps leads back to the start |
| Tree.AddLeafKeepsAcyclic | backend/app/routers/folders.py:64-74 | inserting a new folder whose parent already exists, or which is a root, keeps the forest acyclic |
| Tree.RemoveClosedKeepsAcyclic | backend/app/models.py:27 | removing a set of folders that contains everything below its members keeps the forest acyclic |
| Tree.SubtreeIsDescendants | backend/app/routers/folders.py:78-86 | a subtree is exactly its root and every folder that has the root as an ancestor |
| Tree.SubtreeUnfold | backend/app/routers/folders.py:84-86 | a subtree is its root together with the subtrees of the root's children, the shape of the recursive cleanup |
| Database.UserByEmail | backend/app/models.py:12 | with unique e-mails a lookup finds the one user with that e-mail, and finds none only when no user has it |
| Database.RemoveUser | backend/app/models.py:52-68 | removing a user deletes the share rows naming them, leaves every other user's row unchanged and keeps the store valid; a user who still owns a folder or photo cannot be removed (500) |
| Folders.SharedOnLineage | backend/app/routers/folders.py:36-50 | the walk answers yes exactly when a share row for the user sits on some folder of the chain |
| Folders.AccessWalkFindsAncestorGrant | backend/app/routers/folders.py:31-50 | the walk answers yes exactly when a share row for the user sits on the folder or on one of its ancestors |
| Folders.GetFolders | backend/app/routers/folders.py:14-56 | with no parent: exactly the caller's root folders, never another user's; otherwise 404 for a missing parent, success exactly for the owner or a holder of a share row on the parent or an ancestor, 403 otherwise, and on success exactly the parent's direct children |
| Folders.GetSharedFolders | backend/app/routers/folders.py:102-114 | exactly the folders with a share row for the caller on the folder itself |
| Folders.OwnerReachesEveryFolder | backend/app/routers/folders.py:20-56 | an owner reaches each of their folders from the root listing: the top of its chain is listed at the root and each folder on the chain is listed under its parent |
| Folders.GrantOpensSubtree | backend/app/routers/folders.py:27-56 | a share row on a folder makes it appear among the grantee's shared folders and makes every folder below it listable under its parent |
| Folders.AddFolderKeepsValid | backend/app/routers/folders.py:64-74 | a new folder owned by an existing user, under a parent of the same owner or at the root, keeps the store valid |
| Folders.CreateFolder | backend/app/routers/folders.py:58-76 | 404 exactly when a parent is given that the caller does not own; otherwise the new folder belongs to the caller with exactly the requested parent and name, the store stays valid and nothing else changes |
| Folders.CleanupVisitsSubtreePhotos | backend/app/routers/folders.py:78-86 | the recursive cleanup visits exactly the photos filed in the folder or in a folder below it |
| Folders.DeleteFolder | backend/app/routers/folders.py:88-100 | corrected behaviour (first Finding): no permission check; 500 for a missing folder; otherwise the folder and its whole subtree, their photos and all share rows on any of them disappear, the visited photos are exactly the removed ones, nothing else changes and the store stays valid |
| Folders.DeleteFolderAsWritten | backend/app/routers/folders.py:94-99 | as the ORM runs it: 500 for a missing folder; otherwise only the folder row goes, its children become roots, its photos stay as root photos and every other photo is unchanged, exactly the share rows on the folder go while the others keep their flags, photo shares and users are unchanged, and the store stays valid |
| Folders.CleanupPhotos | backend/app/routers/folders.py:78-86 | the storage cleanup deletes only objects of stored photos that sit in a folder, and every photo filed directly in the deleted folder among them |
| Folders.DeleteFolderAsWrittenVisitsSubtree | backend/app/routers/folders.py:78-96 | as written, the storage cleanup still visits exactly the photos filed in the folder or in any folder below it |
| Folders.AsWrittenDeleteOrphansSubtree | backend/app/models.py:31-33 | for a photo one level down, as written its stored object is cleaned up while its row survives and its folder becomes a root; with the declared cascade all of them are gone |
| Folders.ShareFolder | backend/app/routers/folders.py:117-153 | errors in the order 404 (folder not the caller's), 404 (unknown e-mail), 400 (self-share); otherwise the (folder, user) row is created or its flag replaced, absent flag meaning the column default false; "updated" exactly when the row existed, and a new share answers with the requested e-mail; at most one row is added and nothing else changes |
| Folders.ShareFolderRowCount | backend/app/routers/folders.py:140-151 | a share adds exactly one row when the pair had none and keeps the row count on an update |
| Folders.ShareFolderTwiceAddsNoRow | backend/app/routers/folders.py:135-143 | sharing again with the same user reports an update and leaves the set of rows unchanged |
| Folders.ShareFolderLastFlagWins | backend/app/routers/folders.py:140-151 | two shares with the same user leave the store a single share with the second flag would leave |
| Photos.GetPhotos | backend/app/routers/photos.py:17-48 | with no folder: exactly the caller's root photos; otherwise 404 for a missing folder, success exactly for the folder's owner or a holder of a share row on that very folder, 403 otherwise, and on success every photo in that folder |
| Photos.GetSharedPhotos | backend/app/routers/photos.py:186-198 | exactly the photos with a share row for the caller; empty exactly when the caller holds no photo share row |
| Photos.RecipientsOnLineage | backend/app/routers/photos.py:93-105 | the walk collects exactly the e-mails of users other than the uploader holding a share row on some folder of the chain |
| Photos.RecipientsAreAncestorGrantees | backend/app/routers/photos.py:88-105 | the walk's result equals the grantees of the folder and all its ancestors, uploader excluded |
| Photos.AddPhotoKeepsValid | backend/app/routers/photos.py:76-86 | a new photo of an existing user, at the root or in an existing folder of anybody, keeps the store valid |
| Photos.UploadPhoto | backend/app/routers/photos.py:61-113 | 400 exactly for a type outside the six allowed; 500 for a folder that does not exist; otherwise exactly the new photo is added and the store stays valid; a notification goes out exactly when a folder is given and somebody is to be told, to exactly the ancestor grantees, never to the uploader |
| Photos.DeletePhoto | backend/app/routers/photos.py:123-153 | 404 for a missing photo; success exactly for the owner or a holder of a `can_delete` share row on the photo's own folder, 403 otherwise; on success exactly that photo and its share rows go and the store stays valid |
| Photos.SharePhoto | backend/app/routers/photos.py:155-184 | errors in the order 404, 404, 400 as for folders; otherwise the (photo, user) row is present afterwards, "already shared" exactly when it was before, nothing else changes |
| Photos.SharePhotoIdempotent | backend/app/routers/photos.py:173-178 | a second share with the same user reports "already shared" and changes nothing |
| Photos.SharePhotoAddsOneRow | backend/app/routers/photos.py:180-182 | a first share adds exactly one row |
| Access.AncestorGrantBrowsesFoldersNotPhotos | backend/app/routers/photos.py:33-46 | a share row on an ancestor lets its holder list the folder's children but not its photos (403) |
| Access.AncestorCanDeleteDoesNotReachPhotos | backend/app/routers/photos.py:133-148 | a `can_delete` row on an ancestor gives no right to delete a photo further down |
| Access.PhotoShareDoesNotOpenItsFolder | backend/app/routers/photos.py:35-46 | a photo shared on its own is in the shared listing while its folder stays closed (403) |
| Access.CreateFolderKeepsNoSelfShare | backend/app/routers/folders.py:72-74 | creating a folder at the root or under a folder the caller owns succeeds and keeps "nobody holds a share row on their own folder" |
| Access.ShareFolderKeepsNoSelfShare | backend/app/routers/folders.py:132-133 | sharing a folder keeps "nobody holds a share row on their own folder", because self-sharing is refused |
| Access.DeleteFolderKeepsNoSelfShare | backend/app/models.py:65 | deleting an existing folder succeeds and keeps "nobody holds a share row on their own folder" |
| Access.DeleteFolderAsWrittenKeepsNoSelfShare | backend/app/routers/folders.py:94-99 | deleting an existing folder as the ORM runs it succeeds and keeps "nobody holds a share row on their own folder" |
| Access.FolderOwnerCannotDeleteForeignUpload | backend/app/routers/photos.py:133-148 | a photo somebody else uploaded into your folder is listed to you but you cannot delete it (403) |
| Album.FindName | frontend/src/pages/AlbumPage.tsx:95 | the name of the first item with the id, and none exactly when no item has it |
| Album.SwitchTab | frontend/src/pages/AlbumPage.tsx:88-92 | from any page: the chosen tab, no open folder, empty history, and the invariant holds |
| Album.GoHome | frontend/src/pages/AlbumPage.tsx:243 | back to the root of the same tab with an empty history; the invariant holds |
| Album.LeavingName | frontend/src/pages/AlbumPage.tsx:95 | the recorded name is "Головна" at the root, else the first match in the owned list, then in the shared list, else "Назад" |
| Album.OpenFolder | frontend/src/pages/AlbumPage.tsx:94-97 | exactly one entry is pushed, holding the folder being left ("" at the root); the opened folder becomes current; the invariant is preserved |
| Album.GoBack | frontend/src/pages/AlbumPage.tsx:99-104 | exactly one entry is popped (none when empty) and its id reopened, "" meaning the root; the invariant is preserved |
| Album.OpenThenBackRestores | frontend/src/pages/AlbumPage.tsx:94-104 | opening a folder and going back restores the page exactly |
| Album.BackNeedsRootEntry | frontend/src/pages/AlbumPage.tsx:99-104 | a history whose first entry is not the root entry breaks the invariant on the way back |
| Album.NavigationExample | frontend/src/pages/AlbumPage.tsx:94-104 | open A, open B, back, back: A with the root entry, then the root with no history; a further back changes nothing |
| Album.BackFromFirstFolderReachesRoot | frontend/src/pages/AlbumPage.tsx:99-104 | under the invariant, going back from the first folder opened returns to the root with an empty history |
| Album.OpenName | frontend/src/pages/AlbumPage.tsx:251 | the open folder's label is the name of the first item with its id in the owned list, else of the first such item in the shared list, else "..." |
| Album.Breadcrumb | frontend/src/pages/AlbumPage.tsx:243-254 | the trail is the history names after the first entry, then the open folder's name only when a folder is open |
| Album.BreadcrumbLength | frontend/src/pages/AlbumPage.tsx:244-254 | under the invariant the trail has one name per history entry |
| Album.EnterThenLeaveRestores | frontend/src/pages/AlbumPage.tsx:99-104 | for the cursor that records names when a folder is entered, entering and leaving restores the cursor |
| Album.Enter | frontend/src/pages/AlbumPage.tsx:94-97 | for the cursor that records names when a folder is entered: the entered folder is open and exactly one entry is pushed on top of the old history, the root entry ("", "Головна") at the root and otherwise the id and name of the folder being left |
| Album.Leave | frontend/src/pages/AlbumPage.tsx:99-104 | for that cursor: exactly one entry is popped, reopening the root when its id is "" and otherwise the folder with that entry's id and name; leaving the root changes nothing |
| Album.TrailNamesThePath | frontend/src/pages/AlbumPage.tsx:94-97 | with names recorded when a folder is entered, the trail after entering a path from the root is exactly the names of that path |
| Album.CursorTracksPage | frontend/src/pages/AlbumPage.tsx:94-97 | that cursor and the page opened along the same path have the same open folder and the same history ids |
| Album.ShownFolders | frontend/src/pages/AlbumPage.tsx:283-287 | the folder grid shows the shared folders on the shared tab's root and the fetched folders everywhere else |
| Album.ShownPhotos | frontend/src/pages/AlbumPage.tsx:289-293 | the photo grid shows the shared photos on the shared tab's root and the fetched photos everywhere else |
| Album.DataSource | frontend/src/pages/AlbumPage.tsx:76-86 | the shared listings back the view exactly on the shared tab's root; everywhere else the folder-scoped listings of the open folder do |
| Album.FetchData | frontend/src/pages/AlbumPage.tsx:40-58 | each list becomes its response, or empty when its request failed; nothing else changes |
| Album.FetchSidesIndependent | frontend/src/pages/AlbumPage.tsx:43-52 | the folder list does not depend on the photo response and vice versa |
| Album.FetchShared | frontend/src/pages/AlbumPage.tsx:60-74 | both shared lists are replaced when both requests succeed; otherwise the page is unchanged |
| Album.Refresh | frontend/src/pages/AlbumPage.tsx:76-86 | the effect runs the shared fetch or the folder-scoped fetch according to the data source; the cursor is untouched |
| Album.RefreshShowsItsSource | frontend/src/pages/AlbumPage.tsx:283-293 | after a refresh the grids show the data source's responses, empty for a failed folder-scoped request, and the old shared lists when a shared request failed |
| Album.TrimStart | frontend/src/pages/AlbumPage.tsx:107 | the result is a suffix of the input; everything dropped is white space, and the result does not start with white space |
| Album.TrimEnd | frontend/src/pages/AlbumPage.tsx:107 | the result is a prefix of the input; everything dropped is white space, and the result does not end with white space |
| Album.TrimEmptyIffBlank | frontend/src/pages/AlbumPage.tsx:107 | a name trims to the empty string exactly when every character of it is white space |
| Album.CreateFolderRequest | frontend/src/pages/AlbumPage.tsx:106-109 | no request exactly for an all-white-space name; otherwise the untrimmed name with the open folder as parent |
| Session.AncestorShareShowsFoldersWithoutPhotos | frontend/src/pages/AlbumPage.tsx:43-52 | inside a folder opened through an ancestor's share row, the page shows the folder's children and an empty photo grid |
| Session.OpenFolderNameNeverFound | frontend/src/pages/AlbumPage.tsx:244-254 | once the open folder's listing is in, its name is never found there; the breadcrumb shows the shared-list name or "...", and the pushed entry the shared-list name or "Назад" |
| Session.BreadcrumbLosesOpenFolderName | frontend/src/pages/AlbumPage.tsx:251 | opening the root folder "Trip" gives the breadcrumb "..." on the page, and "Trip" with names recorded on entry |

## Left out

- S3 storage: upload, presigned URLs and object deletion. The cleanup is modelled as the set of photo ids whose objects it would delete.
- E-mail sending: only the recipient set and the queued notification are modelled.
- Authentication and the `get_current_user` dependency: the caller is an input. Writing endpoints require the caller to exist, as loading the user from the token guarantees.
- The request schemas. `ShareFolderRequest` is not part of this model. `can_delete` is an optional flag whose absence stores the column default false. A NULL flag would deny photo deletion just as false does.
- UUID generation, `created_at`, `size`, S3 keys and password hashes: fresh ids are parameters and the rest are not stored.
- Sessions, commits and concurrency: each endpoint is one atomic step. The notification walk reads the store before the photo is added, which does not touch the tables it reads.
- Uniqueness of share rows: neither `SharedFolder` nor `SharedPhoto` declares a unique (resource, user) constraint. The store keeps one row per pair because `share_folder` and `share_photo` look the pair up before inserting, and each endpoint is one atomic step here; two concurrent shares of the same pair could insert two rows, which the map and set cannot hold.
- The order of rows in responses: listings are sets on the server side, and any order on the page side.
- Rendering, `alert`/`confirm`/`prompt`, loading flags and the mapping from HTTP status to message. The page fetches the open folder again after creating a folder, deleting a folder and uploading a photo, and after deleting a photo, where the shared tab's root fetches the shared lists again instead (`createFolder`, `deleteFolder`, `uploadPhoto`, `deletePhoto`). Each such refetch would be one more `Album.Refresh` step; the requests that precede it are not modelled on the page side.
- The timing of the two requests inside `Promise.all` and `Promise.allSettled`: each fetch is one step that receives both outcomes.
- No endpoint deletes users. `Database.RemoveUser` records what the schema would do with share rows and owned rows if one did.

## Findings

| source | as written | input that shows it | evidently intended | confidence | as-written member | corrected member |
|---|---|---|---|---|---|---|
| backend/app/models.py:31-33 | `Folder.children` and `Folder.photos` have no delete cascade. Before `delete_folder` removes the row, the ORM sets `parent_id` and `folder_id` to NULL, so the declared ON DELETE CASCADE never fires | folder F owns child C, which holds photo P; `DELETE /folders/F` | F, C and P all gone, as the recursive storage cleanup and the "folder and all its contents deleted" reply assume; as written C becomes a root and P a root photo whose stored object was deleted | high; not executed | Folders.AsWrittenDeleteOrphansSubtree | Folders.DeleteFolder |
| frontend/src/pages/AlbumPage.tsx:251 | the open folder's name is looked up in `folders`, which after the refresh holds the open folder's children, and a folder is never its own child | owned tab, open root folder "Trip"; after the listing arrives | the breadcrumb ends in "Trip"; as written it ends in "...", and the entry pushed on entering a subfolder is "Назад" | medium; not executed | Session.BreadcrumbLosesOpenFolderName | Album.TrailNamesThePath |
