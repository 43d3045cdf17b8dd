/** Removing files and the folders they leave empty. */
module Pruning {
  import opened UploadPaths

  class Uploads {
    var tree: Tree

    method RemoveNoFollow(p: string) returns (ok: bool)
      modifies this
      ensures (ok, tree) == Remove(old(tree), p)
    {
      var removed := Remove(tree, p);
      ok, tree := removed.0, removed.1;
    }

    method RemoveFiles(files: seq<string>)
      modifies this
      ensures tree == WithoutFiles(old(tree), files)
    {
      var i := 0;
      while i < |files|
        invariant 0 <= i <= |files| && tree == WithoutFiles(old(tree), files[..i])
      {
        var _ := RemoveNoFollow(files[i]);
        assert files[..i + 1][..i] == files[..i];
        i := i + 1;
      }
      assert files[..i] == files;
    }

    method PruneEmptyDirs(relDir: string)
      modifies this
      ensures tree == Climb(old(tree), relDir)
    {
      var cursor := relDir;
      while cursor != "" && cursor != "."
        invariant Climb(tree, cursor) == Climb(old(tree), relDir)
        decreases |cursor|
      {
        var ok := RemoveNoFollow(cursor);
        if !ok { return; }
        cursor := DirOf(cursor);
      }
    }

    method PruneAfter(removed: seq<string>)
      modifies this
      ensures tree == PruneAll(old(tree), PruneOrder(removed))
    {
      var dirs := PruneOrder(removed);
      var i := 0;
      while i < |dirs|
        invariant 0 <= i <= |dirs| && tree == PruneAll(old(tree), dirs[..i])
      {
        PruneEmptyDirs(dirs[i]);
        assert dirs[..i + 1][..i] == dirs[..i];
        i := i + 1;
      }
      assert dirs[..i] == dirs;
    }
  }

  function WithoutFiles(t: Tree, files: seq<string>): Tree {
    if files == [] then t else Remove(WithoutFiles(t, files[..|files| - 1]), files[|files| - 1]).1
  }

  /** Remove `cursor` and go up, until a removal fails or the uploads root is reached. */
  function Climb(t: Tree, cursor: string): Tree
    decreases |cursor|
  {
    if cursor == "" || cursor == "." then t
    else
      var (ok, t') := Remove(t, cursor);
      if ok then Climb(t', DirOf(cursor)) else t'
  }

  function PruneAll(t: Tree, dirs: seq<string>): Tree {
    if dirs == [] then t else Climb(PruneAll(t, dirs[..|dirs| - 1]), dirs[|dirs| - 1])
  }

  /** The distinct folders of the files, the uploads root left out, in the order they first come up. */
  function FoldersOf(removed: seq<string>): (dirs: seq<string>)
    ensures forall d :: d in dirs <==> d != "" && exists f :: f in removed && DirOf(f) == d
  {
    if removed == [] then []
    else
      var before := FoldersOf(removed[..|removed| - 1]);
      var d := DirOf(removed[|removed| - 1]);
      assert removed == removed[..|removed| - 1] + [removed[|removed| - 1]];
      if d == "" || d in before then before else before + [d]
  }

  /** Insertion before the first shallower folder: a stable sort, deepest first. */
  function Insert(dirs: seq<string>, d: string): (out: seq<string>)
    ensures forall x :: x in out <==> x == d || x in dirs
  {
    if dirs == [] then [d]
    else if Depth(dirs[0]) < Depth(d) then [d] + dirs
    else [dirs[0]] + Insert(dirs[1..], d)
  }

  function DeepestFirst(dirs: seq<string>): (out: seq<string>)
    ensures forall x :: x in out <==> x in dirs
  {
    if dirs == [] then []
    else
      assert dirs == dirs[..|dirs| - 1] + [dirs[|dirs| - 1]];
      Insert(DeepestFirst(dirs[..|dirs| - 1]), dirs[|dirs| - 1])
  }

  function PruneOrder(removed: seq<string>): (dirs: seq<string>)
    ensures forall d :: d in dirs <==> d != "" && exists f :: f in removed && DirOf(f) == d
  {
    DeepestFirst(FoldersOf(removed))
  }

  // ---- The order is a stable sort by depth ----

  ghost predicate IsDeepestFirst(dirs: seq<string>) {
    forall i, j :: 0 <= i < j < |dirs| ==> Depth(dirs[i]) >= Depth(dirs[j])
  }

  /** The folders of one depth, in order. */
  ghost function OfDepth(dirs: seq<string>, n: nat): seq<string> {
    if dirs == [] then [] else (if Depth(dirs[0]) == n then [dirs[0]] else []) + OfDepth(dirs[1..], n)
  }

  lemma {:induction false} NoneOfDepth(dirs: seq<string>, n: nat)
    requires forall d :: d in dirs ==> Depth(d) != n
    ensures OfDepth(dirs, n) == []
  {
    if dirs != [] { NoneOfDepth(dirs[1..], n); }
  }

  lemma {:induction false} OfDepthAppend(dirs: seq<string>, d: string, n: nat)
    ensures OfDepth(dirs + [d], n) == OfDepth(dirs, n) + if Depth(d) == n then [d] else []
  {
    hide Depth;
    if dirs != [] {
      assert (dirs + [d])[1..] == dirs[1..] + [d];
      OfDepthAppend(dirs[1..], d, n);
    } else {
      assert dirs + [d] == [d] && [d][1..] == [];
    }
  }

  lemma DeeperInFront(d: string, rest: seq<string>)
    requires IsDeepestFirst(rest) && forall x :: x in rest ==> Depth(x) <= Depth(d)
    ensures IsDeepestFirst([d] + rest)
  {
    hide Depth;
  }

  lemma FirstIsDeepest(dirs: seq<string>)
    requires IsDeepestFirst(dirs) && dirs != []
    ensures IsDeepestFirst(dirs[1..]) && forall x :: x in dirs ==> Depth(x) <= Depth(dirs[0])
  {
    hide Depth;
    forall x | x in dirs ensures Depth(x) <= Depth(dirs[0]) {
      var i :| 0 <= i < |dirs| && dirs[i] == x;
    }
  }

  lemma {:induction false} InsertSorts(dirs: seq<string>, d: string, n: nat)
    requires IsDeepestFirst(dirs)
    ensures IsDeepestFirst(Insert(dirs, d))
    ensures OfDepth(Insert(dirs, d), n) == OfDepth(dirs, n) + if Depth(d) == n then [d] else []
  {
    hide Depth, IsDeepestFirst;
    if dirs == [] {
      assert [d][1..] == [] && [d] == [d] + [];
      NothingIsSorted();
      DeeperInFront(d, []);
    } else {
      FirstIsDeepest(dirs);
      if Depth(dirs[0]) < Depth(d) {
        assert ([d] + dirs)[1..] == dirs;
        DeeperInFront(d, dirs);
        if Depth(d) == n { NoneOfDepth(dirs, n); }
      } else {
        InsertSorts(dirs[1..], d, n);
        var out := Insert(dirs[1..], d);
        assert ([dirs[0]] + out)[1..] == out;
        DeeperInFront(dirs[0], out);
      }
    }
  }

  lemma NothingIsSorted()
    ensures IsDeepestFirst([])
  {
  }

  lemma {:induction false} DeepestFirstSorts(dirs: seq<string>, n: nat)
    ensures IsDeepestFirst(DeepestFirst(dirs)) && OfDepth(DeepestFirst(dirs), n) == OfDepth(dirs, n)
  {
    hide Depth;
    if dirs != [] {
      var before, last := dirs[..|dirs| - 1], dirs[|dirs| - 1];
      assert dirs == before + [last];
      DeepestFirstSorts(before, n);
      InsertSorts(DeepestFirst(before), last, n);
      OfDepthAppend(before, last, n);
    }
  }

  lemma {:induction false} FoldersAreDistinct(removed: seq<string>)
    ensures forall i, j :: 0 <= i < j < |FoldersOf(removed)| ==> FoldersOf(removed)[i] != FoldersOf(removed)[j]
  {
    hide DirOf;
    if removed != [] { FoldersAreDistinct(removed[..|removed| - 1]); }
  }

  /** The folders are climbed from once each, deepest first, and those of one depth as they first come up. */
  lemma TheOrderIsStable(removed: seq<string>, n: nat)
    ensures IsDeepestFirst(PruneOrder(removed))
    ensures OfDepth(PruneOrder(removed), n) == OfDepth(FoldersOf(removed), n)
    ensures forall i, j :: 0 <= i < j < |FoldersOf(removed)| ==> FoldersOf(removed)[i] != FoldersOf(removed)[j]
  {
    DeepestFirstSorts(FoldersOf(removed), n);
    FoldersAreDistinct(removed);
  }

  // ---- What pruning leaves ----

  /** Not an empty folder: gone, a file, or holding something. */
  ghost predicate Settled(t: Tree, a: string) {
    a !in t || t[a].File? || HasChild(t, a)
  }

  ghost predicate AllSettled(t: Tree, folders: set<string>) {
    forall a :: a in folders ==> Settled(t, a)
  }

  lemma {:induction false} AboveAnEntry(t: Tree, p: string)
    requires WellFormed(t) && p in t
    ensures AllSettled(t, Chain(DirOf(p)))
    decreases |p|
  {
    var up := DirOf(p);
    if up != "" && up != "." {
      assert HasChild(t, up);
      AboveAnEntry(t, up);
    }
  }

  lemma {:induction false} AboveAFile(t: Tree, dir: string)
    requires WellFormed(t) && Walk(t, dir) == NotADirectory
    ensures AllSettled(t, Chain(dir))
    decreases |dir|
  {
    if Walk(t, DirOf(dir)) == NotADirectory {
      AboveAFile(t, DirOf(dir));
      if dir in t { WalkReaches(t, dir); }
    } else {
      AboveAnEntry(t, dir);
    }
  }

  lemma RemovalUnsettlesOnlyTheParent(t: Tree, p: string, a: string)
    requires WellFormed(t) && p != "" && Remove(t, p).0
    requires a != DirOf(p) && (a == p || Settled(t, a))
    ensures Settled(Remove(t, p).1, a)
  {
    hide Remove, WellFormed;
    RemoveKeepsTheTree(t, p);
    if a != p && a in t && HasChild(t, a) {
      var q :| q in t && DirOf(q) == a;
      assert q in Remove(t, p).1;
    }
  }

  lemma FailedRemovalIsSettled(t: Tree, p: string)
    requires WellFormed(t) && p != "" && p != "." && !Remove(t, p).0
    ensures Remove(t, p).1 == t && AllSettled(t, Chain(p))
  {
    if Walk(t, DirOf(p)) == NotADirectory {
      AboveAFile(t, DirOf(p));
      if p in t { WalkReaches(t, p); }
    } else {
      AboveAnEntry(t, p);
    }
  }

  /** Climbing settles the whole way up, and unsettles nothing: only the folder it goes on to can have
      lost its last entry. */
  lemma {:induction false} ClimbSettles(t: Tree, cursor: string, done: set<string>)
    requires WellFormed(t)
    requires "" !in done && "." !in done
    requires forall a :: a in done && a != cursor ==> Settled(t, a)
    ensures WellFormed(Climb(t, cursor))
    ensures AllSettled(Climb(t, cursor), done + Chain(cursor))
    decreases |cursor|
  {
    if cursor != "" && cursor != "." {
      var t' := Remove(t, cursor).1;
      RemoveKeepsTheTree(t, cursor);
      var up := DirOf(cursor);
      if Remove(t, cursor).0 {
        forall a | a in done + {cursor} && a != up ensures Settled(t', a) {
          RemovalUnsettlesOnlyTheParent(t, cursor, a);
        }
        hide Remove, Settled, WellFormed;
        ClimbSettles(t', up, done + {cursor});
        assert done + Chain(cursor) == done + {cursor} + Chain(up);
      } else {
        FailedRemovalIsSettled(t, cursor);
      }
    }
  }

  lemma NoRootEntry(t: Tree)
    requires WellFormed(t)
    ensures "" !in t && "." !in t
  {
  }

  lemma FewerChildren(t: Tree, t': Tree, p: string)
    requires t'.Keys <= t.Keys
    ensures HasChild(t', p) ==> HasChild(t, p)
  {
  }

  /** Climbing takes only folders on the way that hold nothing, and a file only where it starts. */
  lemma {:induction false} ClimbTakes(t: Tree, cursor: string)
    requires WellFormed(t)
    ensures var t' := Climb(t, cursor);
            && WellFormed(t') && t'.Keys <= t.Keys && (forall p :: p in t' ==> t'[p] == t[p])
            && (forall p :: p in t && p !in t' ==>
                  p in Chain(cursor) && !HasChild(t', p) && (t[p].File? ==> p == cursor))
            && (cursor in t && t[cursor].File? ==> cursor !in t')
    decreases |cursor|
  {
    hide Remove, WellFormed, HasChild;
    NoRootEntry(t);
    if cursor != "" && cursor != "." {
      var t1 := Remove(t, cursor).1;
      var up := DirOf(cursor);
      RemoveKeepsTheTree(t, cursor);
      if Remove(t, cursor).0 {
        ClimbTakes(t1, up);
        if up in t && t[up].File? { NoFileAbove(t, cursor); }
        var t' := Climb(t, cursor);
        forall p | p in t && p !in t'
          ensures p in Chain(cursor) && !HasChild(t', p) && (t[p].File? ==> p == cursor)
        {
          FewerChildren(t, t', p);
        }
      }
    }
  }

  lemma NoFileAbove(t: Tree, p: string)
    requires WellFormed(t) && p != "" && DirOf(p) in t && t[DirOf(p)].File?
    ensures !Remove(t, p).0
  {
    WalkReaches(t, DirOf(p));
  }

  ghost function Chains(dirs: seq<string>): (all: set<string>)
    ensures "" !in all && "." !in all
  {
    if dirs == [] then {}
    else
      Chains(dirs[..|dirs| - 1]) + Chain(dirs[|dirs| - 1])
  }

  lemma {:induction false} ChainInChains(dirs: seq<string>, d: string)
    requires d in dirs
    ensures Chain(d) <= Chains(dirs)
  {
    if d != dirs[|dirs| - 1] {
      assert dirs == dirs[..|dirs| - 1] + [dirs[|dirs| - 1]];
      ChainInChains(dirs[..|dirs| - 1], d);
    }
  }

  /** `t'` is `t` without the folders of `folders` that, once the others are gone, hold nothing: complete,
      because every folder still there holds something, and minimal, because nothing else went. */
  ghost predicate Pruned(t: Tree, t': Tree, folders: set<string>) {
    && WellFormed(t') && t'.Keys <= t.Keys && (forall p :: p in t' ==> t'[p] == t[p])
    && AllSettled(t', folders)
    && (forall p :: p in t && p !in t' && t[p].Dir? ==> p in folders && !HasChild(t', p))
  }

  /** Complete and minimal, and the one way a file is lost: it stands where a listed folder should. */
  lemma {:induction false} PruneIsExact(t: Tree, dirs: seq<string>)
    requires WellFormed(t)
    ensures Pruned(t, PruneAll(t, dirs), Chains(dirs))
    ensures forall p :: p in t && t[p].File? ==> (p !in PruneAll(t, dirs) <==> p in dirs)
  {
    if dirs != [] {
      var before, last := dirs[..|dirs| - 1], dirs[|dirs| - 1];
      var t1 := PruneAll(t, before);
      PruneIsExact(t, before);
      ClimbSettles(t1, last, Chains(before));
      ClimbTakes(t1, last);
      var t' := PruneAll(t, dirs);
      assert dirs == before + [last];
      forall p | p in t && p !in t' && t[p].Dir? ensures p in Chains(dirs) && !HasChild(t', p) {
        FewerChildren(t1, t', p);
      }
    }
  }

  lemma {:induction false} PrunedAgree(t: Tree, t1: Tree, t2: Tree, folders: set<string>, p: string)
    requires Pruned(t, t1, folders) && Pruned(t, t2, folders)
    requires p in t && t[p].Dir? && p !in t1
    requires forall q :: q in t && t[q].File? ==> q in t1
    ensures p !in t2
    decreases Longer(t, p)
  {
    if p in t2 {
      var q := ChildLeft(t, t1, t2, folders, p);
      PrunedAgree(t, t1, t2, folders, q);
    }
  }

  ghost function Longer(t: Tree, p: string): set<string> {
    set x | x in t && |x| > |p|
  }

  /** A folder gone from one tree and kept in the other holds an entry gone from one and kept in the other. */
  lemma ChildLeft(t: Tree, t1: Tree, t2: Tree, folders: set<string>, p: string) returns (q: string)
    requires Pruned(t, t1, folders) && Pruned(t, t2, folders)
    requires p in t && t[p].Dir? && p !in t1 && p in t2
    ensures q in t2 && q in t && q !in t1 && Longer(t, q) < Longer(t, p)
  {
    assert HasChild(t2, p);
    q :| q in t2 && DirOf(q) == p;
    assert !HasChild(t1, p);
    assert q in Longer(t, p) && q !in Longer(t, q);
  }

  /** Deepest first is not what makes it work: every order of the same folders leaves the same tree. */
  lemma EveryOrderPrunesAlike(t: Tree, ds: seq<string>, es: seq<string>)
    requires WellFormed(t) && Chains(ds) == Chains(es)
    requires forall p :: p in t && t[p].File? ==> p !in ds && p !in es
    ensures PruneAll(t, ds) == PruneAll(t, es)
  {
    PruneIsExact(t, ds);
    PruneIsExact(t, es);
    var t1, t2 := PruneAll(t, ds), PruneAll(t, es);
    forall p | p in t ensures p in t1 <==> p in t2 {
      if t[p].Dir? && p !in t1 { PrunedAgree(t, t1, t2, Chains(ds), p); }
      if t[p].Dir? && p !in t2 { PrunedAgree(t, t2, t1, Chains(ds), p); }
    }
  }

  /** After `PruneAfter`, every folder between a removed file and the uploads root is gone or still holds
      something; no folder holding anything went; a file went only if it stood where a removed file's folder
      should have been. */
  lemma PruneAfterIsExact(t: Tree, removed: seq<string>)
    requires WellFormed(t)
    ensures var t' := PruneAll(t, PruneOrder(removed));
            && (forall f, a :: f in removed && a in Chain(DirOf(f)) ==> Settled(t', a))
            && (forall p :: p in t && p !in t' && t[p].Dir? ==>
                  !HasChild(t', p) && exists f :: f in removed && p in Chain(DirOf(f)))
            && (forall p :: p in t && t[p].File? ==>
                  (p !in t' <==> exists f :: f in removed && DirOf(f) == p))
  {
    var order := PruneOrder(removed);
    PruneIsExact(t, order);
    forall f, a | f in removed && a in Chain(DirOf(f)) ensures a in Chains(order) {
      ChainInChains(order, DirOf(f));
    }
    forall a | a in Chains(order) ensures exists f :: f in removed && a in Chain(DirOf(f)) {
      InSomeChain(order, a);
    }
  }

  lemma {:induction false} InSomeChain(dirs: seq<string>, a: string)
    requires a in Chains(dirs)
    ensures exists d :: d in dirs && a in Chain(d)
  {
    var before := dirs[..|dirs| - 1];
    if a in Chains(before) {
      InSomeChain(before, a);
      var d :| d in before && a in Chain(d);
      assert d in dirs;
    }
  }
}
