/**
 * The album page of the web client as a state machine: which tab is active,
 * which folder is open, the back-history, and the four lists the page last
 * received from the server. Transitions are pure functions of the page;
 * server responses are inputs. Rendering is reduced to which lists are shown
 * and the breadcrumb trail.
 */
module Album {
  import opened Common

  datatype Tab = My | Shared

  /** The fields of a folder or photo response the page reads. */
  datatype FolderItem = FolderItem(id: Uuid, name: string)
  datatype PhotoItem = PhotoItem(id: Uuid, filename: string)

  /** A history entry. The root is recorded with the empty id. */
  datatype Crumb = Crumb(id: string, name: string)

  datatype Page = Page(
    tab: Tab,
    current: Option<Uuid>,
    history: seq<Crumb>,
    folders: seq<FolderItem>,
    photos: seq<PhotoItem>,
    sharedFolders: seq<FolderItem>,
    sharedPhotos: seq<PhotoItem>)

  const RootLabel := "Головна"
  const BackLabel := "Назад"
  const UnknownLabel := "..."

  /** The page as first rendered. */
  const Initial := Page(My, None, [], [], [], [], [])

  /** The cursor invariant: a folder is open exactly when there is history;
      the first entry stands for the root, every later one for a folder. */
  predicate CursorOk(p: Page) {
    && (p.current.None? <==> |p.history| == 0)
    && (|p.history| > 0 ==> p.history[0].id == "")
    && forall i :: 1 <= i < |p.history| ==> p.history[i].id != ""
  }

  /** No item before position `i` has the id of the item at `i`. */
  predicate First(items: seq<FolderItem>, i: int)
    requires 0 <= i < |items|
  {
    forall j :: 0 <= j < i ==> items[j].id != items[i].id
  }

  /** The name of the first item in the list with that id, if there is one. */
  function FindName(items: seq<FolderItem>, id: Uuid): (r: Option<string>)
    ensures r.None? <==> forall i :: 0 <= i < |items| ==> items[i].id != id
    ensures r.Some? ==> exists i :: 0 <= i < |items| && items[i].id == id && items[i].name == r.value && First(items, i)
  {
    if |items| == 0 then None
    else if items[0].id == id then Some(items[0].name)
    else
      var r := FindName(items[1..], id);
      assert r.Some? ==> exists i :: 1 <= i < |items| && items[i].id == id && items[i].name == r.value && First(items, i) by {
        if r.Some? {
          var i :| 0 <= i < |items[1..]| && items[1..][i].id == id && items[1..][i].name == r.value && First(items[1..], i);
          assert forall j :: 1 <= j < i + 1 ==> items[j].id == items[1..][j - 1].id;
        }
      }
      r
  }

  // ---------------------------------------------------------------------------
  // Navigation

  /** `switchTab`: select a tab and go back to its root. */
  function SwitchTab(p: Page, t: Tab): (r: Page)
    ensures r.tab == t && r.current.None? && r.history == []
    ensures CursorOk(r)
    ensures r.(tab := p.tab, current := p.current, history := p.history) == p
  {
    p.(tab := t, current := None, history := [])
  }

  /** The Home button of the breadcrumb: back to the root of the same tab. */
  function GoHome(p: Page): (r: Page)
    ensures r.current.None? && r.history == [] && r.tab == p.tab
    ensures CursorOk(r)
    ensures r.(current := p.current, history := p.history) == p
  {
    p.(current := None, history := [])
  }

  /** The label recorded for the folder being left: the root label, else the
      first name found in the owned list, then in the shared list, else "back". */
  function LeavingName(p: Page): (name: string)
    ensures p.current.None? ==> name == RootLabel
    ensures p.current.Some? && FindName(p.folders, p.current.value).Some? ==>
      name == FindName(p.folders, p.current.value).value
    ensures p.current.Some? && FindName(p.folders, p.current.value).None? ==>
      name == FindName(p.sharedFolders, p.current.value).GetOr(BackLabel)
  {
    match p.current
    case None => RootLabel
    case Some(c) =>
      match FindName(p.folders, c)
      case Some(n) => n
      case None => FindName(p.sharedFolders, c).GetOr(BackLabel)
  }

  /** The id recorded for the folder being left; the root is recorded as "". */
  function LeavingId(p: Page): (id: string)
    ensures id == "" <==> p.current.None?
    ensures p.current.Some? ==> id == p.current.value
  {
    match p.current
    case None => ""
    case Some(c) => c
  }

  /** `openFolder`: push one entry for the folder being left, then open `f`. */
  function OpenFolder(p: Page, f: FolderItem): (r: Page)
    ensures |r.history| == |p.history| + 1 && r.history[..|p.history|] == p.history
    ensures r.history[|p.history|] == Crumb(LeavingId(p), LeavingName(p))
    ensures r.current == Some(f.id) && r.tab == p.tab
    ensures CursorOk(p) ==> CursorOk(r)
    ensures r.(current := p.current, history := p.history) == p
  {
    p.(history := p.history + [Crumb(LeavingId(p), LeavingName(p))], current := Some(f.id))
  }

  /** `goBack`: pop the last entry and reopen it; the root's empty id, or an
      empty history, means the root. */
  function GoBack(p: Page): (r: Page)
    ensures |p.history| == 0 ==> r.history == [] && r.current.None?
    ensures |p.history| > 0 ==> r.history == p.history[..|p.history| - 1]
    ensures |p.history| > 0 ==>
      (r.current.None? <==> p.history[|p.history| - 1].id == "") &&
      (r.current.Some? ==> r.current.value == p.history[|p.history| - 1].id)
    ensures CursorOk(p) ==> CursorOk(r)
    ensures r.tab == p.tab
    ensures r.(current := p.current, history := p.history) == p
  {
    if |p.history| == 0 then p.(current := None)
    else
      var last := p.history[|p.history| - 1];
      if last.id == "" then p.(history := p.history[..|p.history| - 1], current := None)
      else
        var id: Uuid := last.id;
        p.(history := p.history[..|p.history| - 1], current := Some(id))
  }

  /** Opening a folder and going back returns to exactly the page one started from. */
  lemma OpenThenBackRestores(p: Page, f: FolderItem)
    ensures GoBack(OpenFolder(p, f)) == p
  {
  }

  /** Under the cursor invariant the folder depth is the history length:
      going back from depth one returns to the root. */
  lemma BackFromFirstFolderReachesRoot(p: Page)
    requires CursorOk(p) && |p.history| == 1
    ensures GoBack(p).current.None? && GoBack(p).history == []
  {
  }

  /** Without the invariant a history whose first entry names a folder would
      leave a folder open with no way back: going back from it empties the
      history but keeps a folder current. */
  lemma BackNeedsRootEntry(p: Page, c: Crumb)
    requires p.history == [c] && c.id != ""
    ensures GoBack(p).history == [] && GoBack(p).current.Some? && GoBack(p).current.value == c.id
    ensures !CursorOk(GoBack(p))
  {
  }

  /** Open A, open B, back, back, back from the root of the owned tab. */
  lemma NavigationExample(a: FolderItem, b: FolderItem)
    ensures var p1 := OpenFolder(Initial, a);
      var p2 := OpenFolder(p1, b);
      var p3 := GoBack(p2);
      var p4 := GoBack(p3);
      && p3.current == Some(a.id) && p3.history == [Crumb("", RootLabel)]
      && p4.current.None? && p4.history == []
      && GoBack(p4) == p4
  {
    var p1 := OpenFolder(Initial, a);
    assert p1.history == [Crumb("", RootLabel)];
  }

  // ---------------------------------------------------------------------------
  // Breadcrumb

  /** The names of a run of history entries. */
  function CrumbNames(h: seq<Crumb>): (names: seq<string>)
    ensures |names| == |h| && forall i :: 0 <= i < |h| ==> names[i] == h[i].name
  {
    seq(|h|, i requires 0 <= i < |h| => h[i].name)
  }

  /** The name shown for the open folder `c`: looked up in the owned list,
      then in the shared list, else "...". */
  function OpenName(p: Page, c: Uuid): (name: string)
    ensures FindName(p.folders, c).Some? ==> name == FindName(p.folders, c).value
    ensures FindName(p.folders, c).None? ==> name == FindName(p.sharedFolders, c).GetOr(UnknownLabel)
    ensures (forall i :: 0 <= i < |p.folders| ==> p.folders[i].id != c) &&
            (forall i :: 0 <= i < |p.sharedFolders| ==> p.sharedFolders[i].id != c) ==>
      name == UnknownLabel
  {
    match FindName(p.folders, c)
    case Some(n) => n
    case None => FindName(p.sharedFolders, c).GetOr(UnknownLabel)
  }

  /** The trail after the Home button: the history entries after the first,
      then, when a folder is open, its name. */
  function Breadcrumb(p: Page): (trail: seq<string>)
    ensures |trail| == (if |p.history| > 0 then |p.history| - 1 else 0) + (if p.current.Some? then 1 else 0)
    ensures |p.history| > 0 ==> trail[..|p.history| - 1] == CrumbNames(p.history[1..])
    ensures p.current.Some? ==> trail[|trail| - 1] == OpenName(p, p.current.value)
  {
    var earlier := if |p.history| > 0 then CrumbNames(p.history[1..]) else [];
    match p.current
    case None => earlier
    case Some(c) => earlier + [OpenName(p, c)]
  }

  /** Under the cursor invariant the trail has one name per history entry. */
  lemma BreadcrumbLength(p: Page)
    requires CursorOk(p)
    ensures |Breadcrumb(p)| == |p.history|
  {
  }

  // ---------------------------------------------------------------------------
  // The cursor with names captured when a folder is entered

  /** The page looks names up in the lists it last fetched, which after a
      refresh hold the open folder's children and so never the open folder
      itself. This cursor keeps the open folder's name and records it in the
      entry pushed when the next folder is entered, so no lookup is needed. */
  datatype Cursor = Cursor(open: Option<FolderItem>, trail: seq<Crumb>)

  const Root := Cursor(None, [])

  function Enter(c: Cursor, f: FolderItem): (r: Cursor)
    ensures r.open == Some(f) && |r.trail| == |c.trail| + 1 && r.trail[..|c.trail|] == c.trail
    ensures c.open.None? ==> r.trail[|c.trail|] == Crumb("", RootLabel)
    ensures c.open.Some? ==> r.trail[|c.trail|] == Crumb(c.open.value.id, c.open.value.name)
  {
    match c.open
    case None => Cursor(Some(f), c.trail + [Crumb("", RootLabel)])
    case Some(g) => Cursor(Some(f), c.trail + [Crumb(g.id, g.name)])
  }

  function Leave(c: Cursor): (r: Cursor)
    ensures |c.trail| > 0 ==> r.trail == c.trail[..|c.trail| - 1]
    ensures |c.trail| > 0 && c.trail[|c.trail| - 1].id == "" ==> r.open.None?
    ensures |c.trail| > 0 && c.trail[|c.trail| - 1].id != "" ==>
      r.open.Some? && r.open.value.id == c.trail[|c.trail| - 1].id && r.open.value.name == c.trail[|c.trail| - 1].name
    ensures |c.trail| == 0 ==> r == Root
  {
    if |c.trail| == 0 then Root
    else
      var last := c.trail[|c.trail| - 1];
      if last.id == "" then Cursor(None, c.trail[..|c.trail| - 1])
      else
        var id: Uuid := last.id;
        Cursor(Some(FolderItem(id, last.name)), c.trail[..|c.trail| - 1])
  }

  /** Entering a folder and leaving it returns to the cursor one started from. */
  lemma EnterThenLeaveRestores(c: Cursor, f: FolderItem)
    ensures Leave(Enter(c, f)) == c
  {
  }

  /** The names shown after the Home button. */
  function Trail(c: Cursor): seq<string> {
    (if |c.trail| > 0 then CrumbNames(c.trail[1..]) else []) +
    (match c.open case None => [] case Some(g) => [g.name])
  }

  /** Enter each of `path` in turn, starting from the root. */
  function EnterAll(path: seq<FolderItem>): Cursor {
    if |path| == 0 then Root else Enter(EnterAll(path[..|path| - 1]), path[|path| - 1])
  }

  /** The names along a path, read as the crumbs one entry per folder would carry. */
  function Names(path: seq<FolderItem>): (names: seq<string>)
    ensures |names| == |path| && forall i :: 0 <= i < |path| ==> names[i] == path[i].name
  {
    CrumbNames(seq(|path|, i requires 0 <= i < |path| => Crumb(path[i].id, path[i].name)))
  }

  /** After entering a path of folders from the root, the trail names exactly
      those folders, in order, whatever lists were fetched on the way. */
  lemma {:induction false} TrailNamesThePath(path: seq<FolderItem>)
    ensures Trail(EnterAll(path)) == Names(path)
    ensures |path| > 0 ==> EnterAll(path).open == Some(path[|path| - 1])
    ensures |path| > 0 ==> |EnterAll(path).trail| == |path| && EnterAll(path).trail[0] == Crumb("", RootLabel)
    ensures |path| == 0 ==> EnterAll(path) == Root
  {
    if |path| > 0 {
      var init := path[..|path| - 1];
      TrailNamesThePath(init);
      var c := EnterAll(init);
      var d := EnterAll(path);
      if |init| == 0 {
        assert d == Cursor(Some(path[0]), [Crumb("", RootLabel)]);
      } else {
        assert d.trail == c.trail + [Crumb(path[|path| - 2].id, path[|path| - 2].name)];
        assert d.trail[1..] == c.trail[1..] + [Crumb(path[|path| - 2].id, path[|path| - 2].name)];
        assert CrumbNames(d.trail[1..]) == CrumbNames(c.trail[1..]) + [path[|path| - 2].name];
        assert Names(init) == Names(init[..|init| - 1]) + [path[|path| - 2].name];
      }
    }
  }

  /** Enter each of `path` in turn on the page, as `openFolder` does. */
  function OpenAll(p: Page, path: seq<FolderItem>): Page {
    if |path| == 0 then p else OpenFolder(OpenAll(p, path[..|path| - 1]), path[|path| - 1])
  }

  function CrumbIds(h: seq<Crumb>): seq<string> {
    seq(|h|, i requires 0 <= i < |h| => h[i].id)
  }

  /** The page and the cursor move in step: the same folder is open and the
      history holds the same ids; only the recorded names can differ. */
  lemma {:induction false} CursorTracksPage(p: Page, path: seq<FolderItem>)
    requires p.current.None? && p.history == []
    ensures var q := OpenAll(p, path);
      var c := EnterAll(path);
      && (q.current.None? <==> c.open.None?)
      && (q.current.Some? ==> q.current.value == c.open.value.id)
      && CrumbIds(q.history) == CrumbIds(c.trail)
  {
    if |path| > 0 {
      var init := path[..|path| - 1];
      CursorTracksPage(p, init);
      var q := OpenAll(p, init);
      var c := EnterAll(init);
      assert OpenAll(p, path).history == q.history + [Crumb(LeavingId(q), LeavingName(q))];
      assert CrumbIds(OpenAll(p, path).history) == CrumbIds(q.history) + [LeavingId(q)];
      assert CrumbIds(EnterAll(path).trail) == CrumbIds(c.trail) + [EnterAll(path).trail[|c.trail|].id];
    }
  }

  // ---------------------------------------------------------------------------
  // Fetching

  /** Which requests back the view: the two shared listings on the shared
      tab's root, the listings scoped to the open folder everywhere else. */
  datatype Source = SharedLists | FolderScoped(folder: Option<Uuid>)

  function DataSource(p: Page): (src: Source)
    ensures src.SharedLists? <==> p.tab == Shared && p.current.None?
    ensures src.FolderScoped? ==> src.folder == p.current
  {
    if p.tab == Shared && p.current.None? then SharedLists else FolderScoped(p.current)
  }

  /** The outcome of one request. */
  datatype Settled<T> = Fulfilled(value: seq<T>) | Rejected {
    /** The fetched list, or the empty list the page falls back to. */
    function OrEmpty(): seq<T> {
      match this
      case Fulfilled(v) => v
      case Rejected => []
    }
  }

  /** `fetchData`: both requests are awaited with `allSettled`, and a failed
      one empties only its own list. */
  function FetchData(p: Page, folders: Settled<FolderItem>, photos: Settled<PhotoItem>): (r: Page)
    ensures r.folders == (if folders.Fulfilled? then folders.value else [])
    ensures r.photos == (if photos.Fulfilled? then photos.value else [])
    ensures r.(folders := p.folders, photos := p.photos) == p
  {
    p.(folders := folders.OrEmpty(), photos := photos.OrEmpty())
  }

  /** The two sides of `fetchData` do not influence each other. */
  lemma FetchSidesIndependent(p: Page, f1: Settled<FolderItem>, f2: Settled<FolderItem>,
                              q1: Settled<PhotoItem>, q2: Settled<PhotoItem>)
    ensures FetchData(p, f1, q1).folders == FetchData(p, f1, q2).folders
    ensures FetchData(p, f1, q1).photos == FetchData(p, f2, q1).photos
  {
  }

  /** `fetchSharedData`: both requests are awaited with `Promise.all`; a
      failure of either leaves both shared lists as they were. */
  function FetchShared(p: Page, photos: Settled<PhotoItem>, folders: Settled<FolderItem>): (r: Page)
    ensures photos.Fulfilled? && folders.Fulfilled? ==>
      r.sharedPhotos == photos.value && r.sharedFolders == folders.value
    ensures !(photos.Fulfilled? && folders.Fulfilled?) ==> r == p
    ensures r.(sharedPhotos := p.sharedPhotos, sharedFolders := p.sharedFolders) == p
  {
    match (photos, folders)
    case (Fulfilled(ps), Fulfilled(fs)) => p.(sharedPhotos := ps, sharedFolders := fs)
    case _ => p
  }

  /** The responses the server would give to each request the page can make. */
  datatype Responses = Responses(
    folders: Settled<FolderItem>,
    photos: Settled<PhotoItem>,
    sharedPhotos: Settled<PhotoItem>,
    sharedFolders: Settled<FolderItem>)

  /** The effect that runs whenever the tab or the open folder changes. */
  function Refresh(p: Page, rs: Responses): (r: Page)
    ensures DataSource(p).SharedLists? ==> r == FetchShared(p, rs.sharedPhotos, rs.sharedFolders)
    ensures DataSource(p).FolderScoped? ==> r == FetchData(p, rs.folders, rs.photos)
    ensures r.tab == p.tab && r.current == p.current && r.history == p.history
  {
    match DataSource(p)
    case SharedLists => FetchShared(p, rs.sharedPhotos, rs.sharedFolders)
    case FolderScoped(_) => FetchData(p, rs.folders, rs.photos)
  }

  /** The folder grid: the shared folders on the shared tab's root, the fetched
      folders everywhere else. */
  function ShownFolders(p: Page): (shown: seq<FolderItem>)
    ensures p.tab == Shared && p.current.None? ==> shown == p.sharedFolders
    ensures p.tab == My || p.current.Some? ==> shown == p.folders
  {
    if DataSource(p).SharedLists? then p.sharedFolders else p.folders
  }

  /** The photo grid, chosen the same way. */
  function ShownPhotos(p: Page): (shown: seq<PhotoItem>)
    ensures p.tab == Shared && p.current.None? ==> shown == p.sharedPhotos
    ensures p.tab == My || p.current.Some? ==> shown == p.photos
  {
    if DataSource(p).SharedLists? then p.sharedPhotos else p.photos
  }

  /** After a refresh the page shows what the requests of its data source
      returned, an empty list for each failed folder-scoped request, and
      the previous shared lists when a shared request failed. */
  lemma RefreshShowsItsSource(p: Page, rs: Responses)
    ensures var r := Refresh(p, rs);
      && (DataSource(p).FolderScoped? ==>
            ShownFolders(r) == rs.folders.OrEmpty() && ShownPhotos(r) == rs.photos.OrEmpty())
      && (DataSource(p).SharedLists? && rs.sharedFolders.Fulfilled? && rs.sharedPhotos.Fulfilled? ==>
            ShownFolders(r) == rs.sharedFolders.value && ShownPhotos(r) == rs.sharedPhotos.value)
      && (DataSource(p).SharedLists? && !(rs.sharedFolders.Fulfilled? && rs.sharedPhotos.Fulfilled?) ==>
            ShownFolders(r) == ShownFolders(p) && ShownPhotos(r) == ShownPhotos(p))
  {
  }

  // ---------------------------------------------------------------------------
  // Creating a folder

  /** The characters `String.prototype.trim` removes: white space and line terminators. */
  predicate IsSpace(c: char) {
    c in {'\t', '\n', '\U{000B}', '\U{000C}', '\r', ' ', '\U{00A0}', '\U{1680}',
          '\U{2000}', '\U{2001}', '\U{2002}', '\U{2003}', '\U{2004}', '\U{2005}',
          '\U{2006}', '\U{2007}', '\U{2008}', '\U{2009}', '\U{200A}',
          '\U{2028}', '\U{2029}', '\U{202F}', '\U{205F}', '\U{3000}', '\U{FEFF}'}
  }

  /** `s` without its leading white space. */
  function TrimStart(s: string): (r: string)
    ensures |r| <= |s| && r == s[|s| - |r|..]
    ensures forall i :: 0 <= i < |s| - |r| ==> IsSpace(s[i])
    ensures |r| > 0 ==> !IsSpace(r[0])
  {
    if |s| > 0 && IsSpace(s[0]) then TrimStart(s[1..]) else s
  }

  /** `s` without its trailing white space. */
  function TrimEnd(s: string): (r: string)
    ensures |r| <= |s| && r == s[..|r|]
    ensures forall i :: |r| <= i < |s| ==> IsSpace(s[i])
    ensures |r| > 0 ==> !IsSpace(r[|r| - 1])
  {
    if |s| > 0 && IsSpace(s[|s| - 1]) then TrimEnd(s[..|s| - 1]) else s
  }

  function Trim(s: string): string {
    TrimEnd(TrimStart(s))
  }

  /** A name trims to nothing exactly when every character of it is white space. */
  lemma TrimEmptyIffBlank(s: string)
    ensures Trim(s) == "" <==> forall i :: 0 <= i < |s| ==> IsSpace(s[i])
  {
    var t := TrimStart(s);
    if Trim(s) == "" && |t| > 0 {
      // TrimEnd only removes white space, so all of `t` would be white space,
      // yet TrimStart stopped at a character that is not
      assert false;
    }
    if |t| > 0 {
      assert t[0] == s[|s| - |t|];
    }
  }

  /** The body of `POST /folders/`: the name as typed, untrimmed, and the open folder. */
  datatype NewFolder = NewFolder(name: string, parent: Option<Uuid>)

  /** `createFolder`: nothing is sent for a blank name. */
  function CreateFolderRequest(p: Page, name: string): (r: Option<NewFolder>)
    ensures r.None? <==> forall i :: 0 <= i < |name| ==> IsSpace(name[i])
    ensures r.Some? ==> r.value == NewFolder(name, p.current)
  {
    TrimEmptyIffBlank(name);
    if Trim(name) == "" then None else Some(NewFolder(name, p.current))
  }
}
