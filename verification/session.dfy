/**
 * The page and the server together: what the page holds once the responses
 * to its requests are in, given the store the server answers from.
 */
module Session {
  import opened Common
  import opened Models
  import opened Tree
  import opened Database
  import opened Folders
  import opened Photos
  import opened Access
  import opened Album

  /** `items` is a response listing the folders `ids`, in any order. */
  predicate ListsFolders(s: Store, items: seq<FolderItem>, ids: set<Uuid>) {
    && (forall i :: 0 <= i < |items| ==>
          items[i].id in ids && items[i].id in s.folders && items[i].name == s.folders[items[i].id].name)
    && (forall f :: f in ids ==> exists i :: 0 <= i < |items| && items[i].id == f)
  }

  /** `items` is a response listing the photos `ids`, in any order. */
  predicate ListsPhotos(s: Store, items: seq<PhotoItem>, ids: set<Uuid>) {
    && (forall i :: 0 <= i < |items| ==>
          items[i].id in ids && items[i].id in s.photos && items[i].filename == s.photos[items[i].id].filename)
    && (forall p :: p in ids ==> exists i :: 0 <= i < |items| && items[i].id == p)
  }

  /** How the HTTP client settles a folder request: an error status rejects it. */
  predicate AnswersFolders(s: Store, r: Result<set<Uuid>>, resp: Settled<FolderItem>) {
    (r.Err? <==> resp.Rejected?) && (r.Ok? ==> ListsFolders(s, resp.value, r.value))
  }

  predicate AnswersPhotos(s: Store, r: Result<set<Uuid>>, resp: Settled<PhotoItem>) {
    (r.Err? <==> resp.Rejected?) && (r.Ok? ==> ListsPhotos(s, resp.value, r.value))
  }

  /** On the shared tab, inside a folder reached through a share row on an
      ancestor, the page shows the folder's children but no photos: the
      folder request succeeds, the photo request is refused with 403 and
      `fetchData` falls back to the empty list for that side only. */
  lemma AncestorShareShowsFoldersWithoutPhotos(s: Store, u: Uuid, a: Uuid, f: Uuid, p: Page, rs: Responses)
    requires Valid(s) && f in s.folders && s.folders[f].owner != u
    requires Grant(a, u) in s.folderShares && IsAncestorOrSelf(s.folders, a, f)
    requires Grant(f, u) !in s.folderShares
    requires p.tab == Shared && p.current == Some(f)
    requires AnswersFolders(s, GetFolders(s, u, Some(f)), rs.folders)
    requires AnswersPhotos(s, GetPhotos(s, u, Some(f)), rs.photos)
    ensures ShownPhotos(Refresh(p, rs)) == []
    ensures ListsFolders(s, ShownFolders(Refresh(p, rs)), Children(s.folders, f))
  {
    AncestorGrantBrowsesFoldersNotPhotos(s, u, a, f);
    RefreshShowsItsSource(p, rs);
    assert GetFolders(s, u, Some(f)).value == Children(s.folders, f);
  }

  /** A folder is never among its own children, so once the listing of the
      open folder is in, the page cannot find the open folder's name there:
      the breadcrumb falls back to the shared list and then to "...", and the
      entry pushed when a subfolder is opened falls back to "Назад". */
  lemma OpenFolderNameNeverFound(s: Store, u: Uuid, p: Page)
    requires Valid(s) && p.current.Some? && p.current.value in s.folders
    requires GetFolders(s, u, p.current).Ok? && ListsFolders(s, p.folders, GetFolders(s, u, p.current).value)
    ensures FindName(p.folders, p.current.value).None?
    ensures Breadcrumb(p)[|Breadcrumb(p)| - 1] == FindName(p.sharedFolders, p.current.value).GetOr(UnknownLabel)
    ensures LeavingName(p) == FindName(p.sharedFolders, p.current.value).GetOr(BackLabel)
  {
    var c := p.current.value;
    forall i | 0 <= i < |p.folders|
      ensures p.folders[i].id != c
    {
      if p.folders[i].id == c {
        assert s.folders[c].parent == Some(c);
        assert Up(s.folders, c, 1) == Some(c);
        NoFolderIsItsOwnAncestor(s.folders, c, 1);
      }
    }
  }

  /** One user "u" whose only folder is the root folder "Trip". */
  function TripStore(): Store {
    Store(map["u" := User("u@example.com", "U")], map["f" := Folder("u", None, "Trip")], map[], map[], {})
  }

  /** The listings of "Trip" are empty: it has no child folders and no photos. */
  lemma TripListingsEmpty()
    ensures Valid(TripStore())
    ensures GetFolders(TripStore(), "u", Some("f")) == Ok({})
    ensures GetPhotos(TripStore(), "u", Some("f")) == Ok({})
  {
    var s := TripStore();
    assert RootedWithin(s.folders, "f", 1);
    assert Valid(s);
    var children := GetFolders(s, "u", Some("f")).value;
    assert s.folders["f"].parent.None?;
    assert forall d :: d in children ==> d in s.folders.Keys && d == "f";
    assert children == {};
    assert GetPhotos(s, "u", Some("f")).value == {};
  }

  /** One concrete run: a user opens their root folder "Trip" on the owned
      tab; once the (empty) listing of "Trip" is in, the breadcrumb reads
      "..." instead of "Trip". The cursor that records names when a folder is
      entered shows "Trip". */
  lemma BreadcrumbLosesOpenFolderName()
    ensures Valid(TripStore())
    ensures GetFolders(TripStore(), "u", Some("f")) == Ok({})
    ensures GetPhotos(TripStore(), "u", Some("f")) == Ok({})
    ensures Breadcrumb(Refresh(OpenFolder(Initial, FolderItem("f", "Trip")),
                               Responses(Fulfilled([]), Fulfilled([]), Rejected, Rejected))) == [UnknownLabel]
    ensures Trail(EnterAll([FolderItem("f", "Trip")])) == ["Trip"]
  {
    TripListingsEmpty();
    var p0 := OpenFolder(Initial, FolderItem("f", "Trip"));
    assert p0.history == [Crumb("", RootLabel)];
    var p := Refresh(p0, Responses(Fulfilled([]), Fulfilled([]), Rejected, Rejected));
    assert p.folders == [] && p.sharedFolders == [] && p.current.Some? && p.current.value == "f";
    assert Breadcrumb(p) == [UnknownLabel];
    TrailNamesThePath([FolderItem("f", "Trip")]);
  }
}
