/**
 * The folder forest: parent links, ancestor chains and subtrees.
 *
 * A folder row points to its parent through `parent_id`; a null parent makes
 * the folder a root. The routers walk these links upwards (access checks,
 * upload notifications) and downwards (the recursive cleanup before a folder
 * is deleted). Both walks only terminate because the links never form a
 * cycle; `Acyclic` states that, and the walks below take as fuel a bound on
 * the number of parent steps that `RootedWithin` certifies, so the fuel never
 * runs out.
 */
module Tree {
  import opened Common
  import opened Models

  type Folders = map<Uuid, Folder>

  /** The k-th ancestor of `f`: `f` itself for k = 0, then its parent, its
      grandparent, and so on; None once the chain has passed a root. */
  function Up(fs: Folders, f: Uuid, k: nat): Option<Uuid>
    decreases k
  {
    if f !in fs then None
    else if k == 0 then Some(f)
    else
      match fs[f].parent
      case None => None
      case Some(p) => Up(fs, p, k - 1)
  }

  /** `a` is `d` or one of its ancestors: some number of parent steps leads from `d` to `a`. */
  ghost predicate IsAncestorOrSelf(fs: Folders, a: Uuid, d: Uuid) {
    exists k: nat :: Up(fs, d, k) == Some(a)
  }

  /** Following parent links from `f` reaches a root within `n` steps,
      passing through stored folders only. */
  predicate RootedWithin(fs: Folders, f: Uuid, n: nat)
    decreases n
  {
    && f in fs
    && match fs[f].parent
       case None => true
       case Some(p) => n > 0 && RootedWithin(fs, p, n - 1)
  }

  /** No folder is its own ancestor: every chain of parents ends at a root
      after at most as many steps as there are folders. */
  predicate Acyclic(fs: Folders) {
    forall f :: f in fs ==> RootedWithin(fs, f, |fs|)
  }

  /** The folders below `dead` stay below it: a folder whose parent is in
      `dead` is in `dead` itself. */
  predicate DownwardClosed(fs: Folders, dead: set<Uuid>) {
    forall d :: d in fs && fs[d].parent.Some? && fs[d].parent.value in dead ==> d in dead
  }

  /** The ancestor chain of `f`, nearest first: `f`, its parent, ..., a root. */
  function Lineage(fs: Folders, f: Uuid, n: nat): (chain: seq<Uuid>)
    requires RootedWithin(fs, f, n)
    ensures 1 <= |chain| <= n + 1 && chain[0] == f
    ensures forall i :: 0 <= i < |chain| ==> chain[i] in fs
    ensures forall i :: 0 <= i < |chain| - 1 ==> fs[chain[i]].parent == Some(chain[i + 1])
    ensures fs[chain[|chain| - 1]].parent.None?
    decreases n
  {
    match fs[f].parent
    case None => [f]
    case Some(p) => [f] + Lineage(fs, p, n - 1)
  }

  /** The folders whose parent is `f`. */
  function Children(fs: Folders, f: Uuid): set<Uuid> {
    set c | c in fs && fs[c].parent == Some(f)
  }

  /** Number of parent steps from `f` up to its root. */
  function Height(fs: Folders, f: Uuid): (h: nat)
    requires Acyclic(fs) && f in fs
    ensures h < |fs|
  {
    RootedBound(fs, f, |fs|);
    |Lineage(fs, f, |fs|)| - 1
  }

  /** `root` and every folder below it. */
  function Subtree(fs: Folders, root: Uuid): (below: set<Uuid>)
    requires Acyclic(fs)
    ensures below <= fs.Keys
    ensures root in fs ==> root in below
  {
    set d | d in fs && root in Lineage(fs, d, |fs|)
  }

  // ---------------------------------------------------------------------------
  // Chains

  lemma {:induction false} RootedMonotone(fs: Folders, f: Uuid, n: nat, m: nat)
    requires RootedWithin(fs, f, n) && n <= m
    ensures RootedWithin(fs, f, m)
    decreases n
  {
    match fs[f].parent
    case None =>
    case Some(p) => RootedMonotone(fs, p, n - 1, m - 1);
  }

  /** The chain does not depend on how much fuel certified it. */
  lemma {:induction false} LineageFuelIrrelevant(fs: Folders, f: Uuid, n: nat, m: nat)
    requires RootedWithin(fs, f, n) && RootedWithin(fs, f, m)
    ensures Lineage(fs, f, n) == Lineage(fs, f, m)
    decreases n
  {
    match fs[f].parent
    case None =>
    case Some(p) => LineageFuelIrrelevant(fs, p, n - 1, m - 1);
  }

  /** Every suffix of a chain is the chain of its first folder. */
  lemma {:induction false} LineageSuffix(fs: Folders, f: Uuid, n: nat, i: nat)
    requires RootedWithin(fs, f, n) && i < |Lineage(fs, f, n)|
    ensures i <= n && RootedWithin(fs, Lineage(fs, f, n)[i], n - i)
    ensures Lineage(fs, Lineage(fs, f, n)[i], n - i) == Lineage(fs, f, n)[i..]
    decreases i
  {
    if i > 0 {
      var p := fs[f].parent.value;
      LineageSuffix(fs, p, n - 1, i - 1);
    }
  }

  lemma {:induction false} RootedAtLength(fs: Folders, f: Uuid, n: nat)
    requires RootedWithin(fs, f, n)
    ensures RootedWithin(fs, f, |Lineage(fs, f, n)| - 1)
    decreases n
  {
    match fs[f].parent
    case None =>
    case Some(p) => RootedAtLength(fs, p, n - 1);
  }

  /** A chain never visits a folder twice. */
  lemma LineageDistinct(fs: Folders, f: Uuid, n: nat)
    requires RootedWithin(fs, f, n)
    ensures forall i, j :: 0 <= i < j < |Lineage(fs, f, n)| ==> Lineage(fs, f, n)[i] != Lineage(fs, f, n)[j]
  {
    forall i, j | 0 <= i < j < |Lineage(fs, f, n)|
      ensures Lineage(fs, f, n)[i] != Lineage(fs, f, n)[j]
    {
      LineageDistinctAt(fs, f, n, i, j);
    }
  }

  lemma LineageDistinctAt(fs: Folders, f: Uuid, n: nat, i: nat, j: nat)
    requires RootedWithin(fs, f, n) && i < j < |Lineage(fs, f, n)|
    ensures Lineage(fs, f, n)[i] != Lineage(fs, f, n)[j]
  {
    var chain := Lineage(fs, f, n);
    LineageSuffix(fs, f, n, i);
    LineageSuffix(fs, f, n, j);
    var a, b := chain[i], chain[j];
    assert |Lineage(fs, a, n - i)| == |chain| - i;
    assert |Lineage(fs, b, n - j)| == |chain| - j;
    if a == b {
      LineageFuelIrrelevant(fs, a, n - i, n - j);
      assert false;
    }
  }

  lemma {:induction false} DistinctCard<T>(s: seq<T>)
    requires forall i, j :: 0 <= i < j < |s| ==> s[i] != s[j]
    ensures |set x | x in s| == |s|
  {
    if |s| > 0 {
      var t := s[..|s| - 1];
      DistinctCard(t);
      assert (set x | x in s) == (set x | x in t) + {s[|s| - 1]};
    }
  }

  lemma {:induction false} SubsetCard<T>(a: set<T>, b: set<T>)
    requires a <= b
    ensures |a| <= |b|
    decreases a
  {
    if a != {} {
      var x :| x in a;
      SubsetCard(a - {x}, b - {x});
    }
  }

  /** Pigeonhole: a chain that reaches a root at all does so within |fs| steps. */
  lemma RootedBound(fs: Folders, f: Uuid, n: nat)
    requires RootedWithin(fs, f, n)
    ensures |Lineage(fs, f, n)| <= |fs|
    ensures RootedWithin(fs, f, |fs|)
  {
    var chain := Lineage(fs, f, n);
    LineageDistinct(fs, f, n);
    DistinctCard(chain);
    SubsetCard((set x | x in chain), fs.Keys);
    RootedAtLength(fs, f, n);
    RootedMonotone(fs, f, |chain| - 1, |fs|);
  }

  /** The k-th ancestor is the k-th chain entry, and there is none past the root. */
  lemma {:induction false} UpIsLineage(fs: Folders, f: Uuid, n: nat, k: nat)
    requires RootedWithin(fs, f, n)
    ensures Up(fs, f, k) == if k < |Lineage(fs, f, n)| then Some(Lineage(fs, f, n)[k]) else None
    decreases k
  {
    if k > 0 {
      match fs[f].parent
      case None =>
      case Some(p) => UpIsLineage(fs, p, n - 1, k - 1);
    }
  }

  /** The chain the routers walk holds exactly the folder and its ancestors. */
  lemma LineageIsAncestry(fs: Folders, f: Uuid, n: nat, a: Uuid)
    requires RootedWithin(fs, f, n)
    ensures a in Lineage(fs, f, n) <==> IsAncestorOrSelf(fs, a, f)
  {
    var chain := Lineage(fs, f, n);
    if a in chain {
      var k :| 0 <= k < |chain| && chain[k] == a;
      UpIsLineage(fs, f, n, k);
    }
    if IsAncestorOrSelf(fs, a, f) {
      var k: nat :| Up(fs, f, k) == Some(a);
      UpIsLineage(fs, f, n, k);
    }
  }

  /** In an acyclic forest no positive number of parent steps leads back to the start. */
  lemma NoFolderIsItsOwnAncestor(fs: Folders, f: Uuid, k: nat)
    requires Acyclic(fs) && f in fs && k > 0
    ensures Up(fs, f, k) != Some(f)
  {
    UpIsLineage(fs, f, |fs|, k);
    LineageDistinct(fs, f, |fs|);
  }

  /** A child sits exactly one step further from its root than its parent. */
  lemma ChildHeight(fs: Folders, f: Uuid, c: Uuid)
    requires Acyclic(fs) && c in Children(fs, f)
    ensures f in fs && Height(fs, c) == Height(fs, f) + 1
  {
    assert RootedWithin(fs, c, |fs|);
    LineageFuelIrrelevant(fs, f, |fs| - 1, |fs|);
  }

  // ---------------------------------------------------------------------------
  // Subtrees

  /** Membership in a subtree is the ancestor relation read downwards. */
  lemma SubtreeIsDescendants(fs: Folders, root: Uuid)
    requires Acyclic(fs)
    ensures forall d :: d in Subtree(fs, root) <==> d in fs && IsAncestorOrSelf(fs, root, d)
  {
    forall d | d in fs
      ensures d in Subtree(fs, root) <==> IsAncestorOrSelf(fs, root, d)
    {
      LineageIsAncestry(fs, d, |fs|, root);
    }
  }

  /** A subtree is its root plus the subtrees of the root's children. */
  lemma SubtreeUnfold(fs: Folders, root: Uuid, d: Uuid)
    requires Acyclic(fs) && root in fs
    ensures d in Subtree(fs, root) <==> d == root || exists c :: c in Children(fs, root) && d in Subtree(fs, c)
  {
    if d in Subtree(fs, root) && d != root {
      var chain := Lineage(fs, d, |fs|);
      var i :| 0 <= i < |chain| && chain[i] == root;
      var c := chain[i - 1];
      assert c in Children(fs, root) && d in Subtree(fs, c);
    }
    if exists c :: c in Children(fs, root) && d in Subtree(fs, c) {
      var c :| c in Children(fs, root) && d in Subtree(fs, c);
      var chain := Lineage(fs, d, |fs|);
      var j :| 0 <= j < |chain| && chain[j] == c;
      assert j < |chain| - 1;
      assert chain[j + 1] == root;
    }
  }

  /** Whatever hangs below a subtree belongs to it. */
  lemma SubtreeDownwardClosed(fs: Folders, root: Uuid)
    requires Acyclic(fs)
    ensures DownwardClosed(fs, Subtree(fs, root))
  {
    forall d | d in fs && fs[d].parent.Some? && fs[d].parent.value in Subtree(fs, root)
      ensures d in Subtree(fs, root)
    {
      LineageFuelIrrelevant(fs, fs[d].parent.value, |fs| - 1, |fs|);
    }
  }

  // ---------------------------------------------------------------------------
  // Keeping the forest acyclic

  /** A chain is rooted in any map that keeps every folder on it unchanged. */
  lemma {:induction false} RootedTransfer(fs: Folders, gs: Folders, f: Uuid, n: nat)
    requires RootedWithin(fs, f, n)
    requires forall x :: x in Lineage(fs, f, n) ==> x in gs && gs[x] == fs[x]
    ensures RootedWithin(gs, f, n)
    decreases n
  {
    match fs[f].parent
    case None =>
    case Some(p) =>
      assert forall x :: x in Lineage(fs, p, n - 1) ==> x in Lineage(fs, f, n);
      RootedTransfer(fs, gs, p, n - 1);
  }

  /** Adding a new folder under an existing parent (or at the root) keeps the forest acyclic. */
  lemma AddLeafKeepsAcyclic(fs: Folders, g: Uuid, leaf: Folder)
    requires Acyclic(fs) && g !in fs
    requires leaf.parent.None? || leaf.parent.value in fs
    ensures Acyclic(fs[g := leaf])
  {
    var gs := fs[g := leaf];
    assert |gs| == |fs| + 1;
    forall f | f in gs
      ensures RootedWithin(gs, f, |gs|)
    {
      if f == g {
        if leaf.parent.Some? {
          RootedTransfer(fs, gs, leaf.parent.value, |fs|);
        }
      } else {
        RootedTransfer(fs, gs, f, |fs|);
        RootedMonotone(gs, f, |fs|, |gs|);
      }
    }
  }

  /** The chain of a folder outside a downward-closed set stays outside it. */
  lemma {:induction false} LineageAvoidsClosedSet(fs: Folders, f: Uuid, n: nat, dead: set<Uuid>, i: nat)
    requires RootedWithin(fs, f, n) && i < |Lineage(fs, f, n)|
    requires DownwardClosed(fs, dead) && f !in dead
    ensures Lineage(fs, f, n)[i] !in dead
    decreases i
  {
    if i > 0 {
      LineageAvoidsClosedSet(fs, f, n, dead, i - 1);
    }
  }

  /** Removing a downward-closed set of folders keeps the forest acyclic. */
  lemma RemoveClosedKeepsAcyclic(fs: Folders, dead: set<Uuid>)
    requires Acyclic(fs) && DownwardClosed(fs, dead)
    ensures Acyclic(fs - dead)
  {
    var gs := fs - dead;
    forall f | f in gs
      ensures RootedWithin(gs, f, |gs|)
    {
      var chain := Lineage(fs, f, |fs|);
      forall x | x in chain
        ensures x in gs && gs[x] == fs[x]
      {
        var i :| 0 <= i < |chain| && chain[i] == x;
        LineageAvoidsClosedSet(fs, f, |fs|, dead, i);
      }
      RootedTransfer(fs, gs, f, |fs|);
      RootedBound(gs, f, |fs|);
    }
  }
  /** The folders left after `f` is removed with its children turned into
      roots: what nulling `parent_id` before the delete produces. */
  function Detach(fs: Folders, f: Uuid): Folders {
    map d | d in fs && d != f :: if fs[d].parent == Some(f) then fs[d].(parent := None) else fs[d]
  }

  /** Detaching never lengthens a chain: it can only end it earlier. */
  lemma {:induction false} DetachKeepsRooted(fs: Folders, f: Uuid, d: Uuid, n: nat)
    requires RootedWithin(fs, d, n) && d != f
    ensures RootedWithin(Detach(fs, f), d, n)
    decreases n
  {
    match fs[d].parent
    case None =>
    case Some(p) =>
      if p != f {
        DetachKeepsRooted(fs, f, p, n - 1);
      }
  }

  lemma DetachKeepsAcyclic(fs: Folders, f: Uuid)
    requires Acyclic(fs)
    ensures Acyclic(Detach(fs, f))
  {
    var gs := Detach(fs, f);
    forall d | d in gs
      ensures RootedWithin(gs, d, |gs|)
    {
      DetachKeepsRooted(fs, f, d, |fs|);
      RootedBound(gs, d, |fs|);
    }
  }
}
