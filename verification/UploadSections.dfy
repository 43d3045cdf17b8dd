/** The runs of everything that touches a task's uploads: uploads that claim a name before their row exists,
    expansions that place a tree, settles, deletes, and what goes on outside the attachments lock. */
module UploadSections {
  import opened Options
  import opened JsText
  import opened UploadPaths
  import opened Pruning
  import opened ExpansionSettling

  /** An attachment row: the name it owns, and the attempt whose placement wrote it. */
  datatype Attachment = Attachment(name: string, attempt: Option<string>)

  /** The uploads tree, the attachment rows, and the uploads that claimed a name and have no row yet. Nothing
      keeps two rows, or a row and an upload, from having one name. */
  datatype Sections = Sections(tree: Tree, rows: map<nat, Attachment>, inFlight: map<nat, string>)

  /** What can happen. All but `FinishUpload`, `AbandonUpload`, `Stage` and `DropSome` holds the lock. */
  datatype Action =
    | BeginUpload(u: nat, p: string, order: seq<string>)
    | FinishUpload(u: nat, id: nat)
    | AbandonUpload(u: nat)
    | Stage(staging: string)
    | WriteIntent(staging: string, content: Content)
    | Move(staging: string)
    | CommitRows(staging: string, added: map<nat, Attachment>)
    | TakeBack(staging: string)
    | DropSome(staging: string, gone: set<string>)
    | SettleSome(order: seq<string>)
    | SettleDies(order: seq<string>, staging: string)
    | DeleteRows(ids: set<nat>, files: seq<string>, order: seq<string>)
    | DeleteDies(ids: set<nat>, files: seq<string>, order: seq<string>)

  predicate IsDelete(a: Action) {
    a.DeleteRows? || a.DeleteDies?
  }

  function Names(rows: map<nat, Attachment>): set<string> {
    set id | id in rows :: rows[id].name
  }

  predicate HasContent(t: Tree, p: string, c: Content) {
    p in t && t[p] == File(c)
  }

  /** The upload is in flight and its file is where it claimed its name. */
  predicate IsThere(s: Sections, u: nat) {
    u in s.inFlight && HasContent(s.tree, s.inFlight[u], Upload(u))
  }

  /** Attempts read the same in both trees, and have their staged trees in both or in neither. */
  ghost predicate SameAttempts(t: Tree, t': Tree) {
    forall s :: IsAttempt(s) ==>
      ReadExpansionIntent(t, s) == ReadExpansionIntent(t', s) && (TreePath(s) in t <==> TreePath(s) in t')
  }

  /** Removals lead from `high` to `low`, and the tree is one they can have come to. */
  ghost predicate Between(low: Tree, t: Tree, high: Tree) {
    low.Keys <= t.Keys <= high.Keys && forall p :: p in t ==> t[p] == high[p]
  }

  ghost predicate Includes(t': Tree, t: Tree) {
    forall p :: p in t ==> p in t' && t'[p] == t[p]
  }

  predicate Under(dir: string, q: string) {
    q == dir || dir + "/" <= q
  }

  /** The delete takes every row the attempt's placement wrote. */
  ghost predicate Emptied(rows: map<nat, Attachment>, ids: set<nat>, staging: string) {
    (exists id :: id in rows && rows[id].attempt == Some(staging))
    && forall id :: id in rows && rows[id].attempt == Some(staging) ==> id in ids
  }

  /** The drop takes the tree of an attempt that was never moved and leaves an intent that can be trusted. */
  ghost predicate LeavesOnlyTheIntent(s: Sections, a: Action) {
    a.DropSome? && !Placing(s.tree, a.staging) && Placing(s.tree - a.gone, a.staging)
  }

  ghost predicate Step(s: Sections, a: Action, s': Sections) {
    && WellFormed(s'.tree)
    && match a
       // An upload settles every intent first, in the section that claims a name by creating its file. What the
       // rows say is not looked at.
       case BeginUpload(u, p, order) =>
         var t1 := SettleEach(s.tree, Names(s.rows), order);
         && AllAttempts(order) && (forall x :: IsAttempt(x) ==> ReadExpansionIntent(t1, x).None?)
         && u !in s.inFlight && (forall q :: !HasContent(s.tree, q, Upload(u)))
         && p != "" && !IsDotName(p) && p !in t1
         && Includes(s'.tree, t1)
         && (forall q :: q in s'.tree && q !in t1 ==> !IsDotName(q) && (q == p || s'.tree[q].Dir?))
         && HasContent(s'.tree, p, Upload(u))
         && s'.rows == s.rows && s'.inFlight == s.inFlight[u := p]
       // Its row is written outside the lock, whatever became of the file.
       case FinishUpload(u, id) =>
         && u in s.inFlight && id !in s.rows
         && s' == Sections(s.tree, s.rows[id := Attachment(s.inFlight[u], None)], s.inFlight - {u})
       // Or it fails, and takes its own file back if it can.
       case AbandonUpload(u) =>
         && u in s.inFlight && s'.rows == s.rows && s'.inFlight == s.inFlight - {u}
         && (s'.tree == s.tree || (IsThere(s, u) && s'.tree == s.tree - {s.inFlight[u]}))
       // An attempt extracts and stages its tree, with no intent yet.
       case Stage(_) =>
         && Includes(s'.tree, s.tree) && s'.rows == s.rows && s'.inFlight == s.inFlight
         && (forall q :: q in s'.tree && q !in s.tree ==>
               IsDotName(q) && forall x :: IsAttempt(x) ==> q != IntentPath(x))
       // It writes down a folder and names while its staged tree is still there.
       case WriteIntent(staging, content) =>
         && IsAttempt(staging) && TreePath(staging) in s.tree
         && s' == s.(tree := s.tree[IntentPath(staging) := File(content)])
       // While no placement of it was committed, its tree, which holds the files it wrote down, becomes the
       // folder, which must be free.
       case Move(staging) =>
         && IsAttempt(staging) && TreePath(staging) in s.tree && ReadExpansionIntent(s.tree, staging).Some?
         && (forall id :: id in s.rows ==> s.rows[id].attempt != Some(staging))
         && var dir := ReadExpansionIntent(s.tree, staging).value.dir;
         && dir !in s.tree && s'.rows == s.rows && s'.inFlight == s.inFlight
         && (forall q :: q in s.tree && !IsDotName(q) ==> q in s'.tree && s'.tree[q] == s.tree[q])
         && (forall q :: q in s'.tree && q !in s.tree && !IsDotName(q) ==>
               Under(dir, q) && (s'.tree[q].Dir? || s'.tree[q] == File(Bytes)))
         && (forall n :: n in NamesOf(ReadExpansionIntent(s.tree, staging).value) ==> n in s'.tree && s'.tree[n].File?)
         && (forall x :: IsAttempt(x) ==> ReadExpansionIntent(s'.tree, x) == ReadExpansionIntent(s.tree, x))
         && (forall x :: IsAttempt(x) && x != staging ==> (TreePath(x) in s'.tree <==> TreePath(x) in s.tree))
       // The rows naming the placed files are committed, one each, in the section that placed them.
       case CommitRows(staging, added) =>
         && IsAttempt(staging) && Placing(s.tree, staging)
         && (forall id :: id in s.rows ==> s.rows[id].attempt != Some(staging))
         && (forall n :: n in NamesOf(ReadExpansionIntent(s.tree, staging).value) ==> n in s.tree && s.tree[n].File?)
         && added.Keys !! s.rows.Keys && (forall id :: id in added ==> added[id].attempt == Some(staging))
         && Names(added) == (set n | n in NamesOf(ReadExpansionIntent(s.tree, staging).value))
         && (forall i, j :: i in added && j in added && added[i].name == added[j].name ==> i == j)
         && s' == s.(rows := s.rows + added)
       // Or the rows could not be written, and that section takes the files back, or dies while it does.
       case TakeBack(staging) =>
         && IsAttempt(staging) && Placing(s.tree, staging)
         && (forall id :: id in s.rows ==> s.rows[id].attempt != Some(staging))
         && s' == s.(tree := s'.tree)
         && var names := NamesOf(ReadExpansionIntent(s.tree, staging).value);
            Between(PruneAll(WithoutFiles(s.tree, names), PruneOrder(names)), s'.tree, s.tree)
       // Its staging directory goes, outside the lock, a part at a time and in any order.
       case DropSome(staging, gone) =>
         && IsAttempt(staging) && (forall q :: q in gone ==> Under(staging, q))
         && s' == s.(tree := s.tree - gone)
       case SettleSome(order) =>
         && AllAttempts(order) && s' == s.(tree := SettleEach(s.tree, Names(s.rows), order))
       // A section settles some attempts and dies while it settles one more.
       case SettleDies(order, staging) =>
         && AllAttempts(order) && IsAttempt(staging) && s' == s.(tree := s'.tree)
         && var t1 := SettleEach(s.tree, Names(s.rows), order);
            Between(Settle(t1, Names(s.rows), staging), s'.tree, t1)
       // A delete removes the files of its rows, those there are, settles the attempts of which it leaves no
       // row, and prunes.
       case DeleteRows(ids, files, order) =>
         && ids <= s.rows.Keys && (forall f :: f in files <==> exists id :: id in ids && s.rows[id].name == f)
         && AllAttempts(order)
         && (forall x :: IsAttempt(x) && Emptied(s.rows, ids, x) ==> x in order)
         && s' == Sections(DeletedTree(s, ids, files, order), s.rows - ids, s.inFlight)
       // Or it dies on the way, and its rows stay.
       case DeleteDies(ids, files, order) =>
         && ids <= s.rows.Keys && (forall f :: f in files <==> exists id :: id in ids && s.rows[id].name == f)
         && AllAttempts(order) && s' == s.(tree := s'.tree)
         && Between(DeletedTree(s, ids, files, order), s'.tree, s.tree)
  }

  /** The tree once a delete has removed the files, settled the attempts and pruned. */
  function DeletedTree(s: Sections, ids: set<nat>, files: seq<string>, order: seq<string>): Tree {
    PruneAll(SettleEach(WithoutFiles(s.tree, files), Names(s.rows - ids), order), PruneOrder(files))
  }

  /** Some attempt whose move may have happened names the path, or needs a folder there. */
  ghost predicate Threatens(t: Tree, staging: string, p: string) {
    Placing(t, staging) &&
    exists n :: n in NamesOf(ReadExpansionIntent(t, staging).value) && (n == p || DirOf(n) == p)
  }

  ghost predicate IsPlain(p: string) {
    p != "" && !IsDotName(p)
  }

  /** No attempt threatens an upload in flight whose file is there. */
  ghost predicate Safe(s: Sections) {
    && WellFormed(s.tree)
    && (forall id :: id in s.rows ==> IsPlain(s.rows[id].name))
    && (forall u :: u in s.inFlight ==> IsPlain(s.inFlight[u]))
    && (forall x, u :: IsAttempt(x) && IsThere(s, u) ==> !Threatens(s.tree, x, s.inFlight[u]))
  }

  /** Uploads that stay in flight keep their files. */
  ghost predicate Keeps(s: Sections, s': Sections) {
    forall u :: IsThere(s, u) && u in s'.inFlight ==> IsThere(s', u)
  }

  lemma SafeParts(s: Sections)
    requires Safe(s)
    ensures WellFormed(s.tree) && forall r :: r in Names(s.rows) ==> IsPlain(r)
  {
  }

  /** Nothing threatens an upload anew when attempts read as before and none starts placing. */
  lemma NoNewThreats(s: Sections, s': Sections)
    requires Safe(s) && WellFormed(s'.tree)
    requires forall id :: id in s'.rows ==> IsPlain(s'.rows[id].name)
    requires forall u :: u in s'.inFlight ==> u in s.inFlight && s'.inFlight[u] == s.inFlight[u]
    requires forall u :: IsThere(s', u) ==> IsThere(s, u)
    requires forall x :: IsAttempt(x) && Placing(s'.tree, x) ==>
               Placing(s.tree, x) && ReadExpansionIntent(s'.tree, x) == ReadExpansionIntent(s.tree, x)
    ensures Safe(s')
  {
    hide ReadExpansionIntent, IsAttempt, TreePath, NamesOf, IsDotName, WellFormed, Placing, DirOf, HasContent, IsPlain;
    forall x, u | IsAttempt(x) && IsThere(s', u) ensures !Threatens(s'.tree, x, s'.inFlight[u]) {
      assert !Threatens(s.tree, x, s.inFlight[u]);
    }
  }

  /** The tree shrinks, and attempts read as before. */
  lemma ShrinkingKeepsSafe(s: Sections, t': Tree)
    requires Safe(s) && WellFormed(t') && SameAttempts(s.tree, t')
    requires forall p :: p in t' ==> p in s.tree && t'[p] == s.tree[p]
    ensures Safe(s.(tree := t'))
  {
    hide ReadExpansionIntent, IsAttempt, TreePath, NamesOf, IsDotName, WellFormed, DirOf, IsPlain;
    NoNewThreats(s, s.(tree := t'));
  }

  lemma OneSettleKeepsUploads(s: Sections, x: string)
    requires Safe(s) && IsAttempt(x)
    ensures var s' := s.(tree := Settle(s.tree, Names(s.rows), x)); Safe(s') && Keeps(s, s')
  {
    hide ReadExpansionIntent, Settle, IsAttempt, TreePath, NamesOf, IsDotName, DirOf, Names;
    SettleIsFinal(s.tree, Names(s.rows), x);
    var s' := s.(tree := Settle(s.tree, Names(s.rows), x));
    NoNewThreats(s, s');
    forall u | IsThere(s, u) ensures IsThere(s', u) {
      SettleTakesExactly(s.tree, Names(s.rows), x, s.inFlight[u]);
      assert !Threatens(s.tree, x, s.inFlight[u]);
    }
  }

  /** Settling any attempts, in any order, takes no upload in flight. */
  lemma {:induction false} UploadsSurviveSettling(s: Sections, order: seq<string>)
    requires Safe(s) && AllAttempts(order)
    ensures var s' := s.(tree := SettleEach(s.tree, Names(s.rows), order)); Safe(s') && Keeps(s, s')
  {
    hide Safe, Settle, IsAttempt, Names;
    if order != [] {
      var before, last := order[..|order| - 1], order[|order| - 1];
      assert order == before + [last];
      UploadsSurviveSettling(s, before);
      OneSettleKeepsUploads(s.(tree := SettleEach(s.tree, Names(s.rows), before)), last);
    }
  }

  /** A folder named on the way to an entry is there. */
  lemma {:induction false} FolderOnTheWay(t: Tree, p: string, dir: string)
    requires WellFormed(t) && p in t && dir != "" && dir + "/" <= p
    ensures dir in t
    decreases |p|
  {
    assert p[|dir|] == '/';
    assert |dir| <= LastSlash(p);
    if LastSlash(p) > |dir| {
      assert dir + "/" <= DirOf(p);
      FolderOnTheWay(t, DirOf(p), dir);
    } else {
      assert DirOf(p) == dir;
    }
  }

  lemma FullPrefix(a: string, b: string)
    requires a <= b
    ensures |a| == |b| ==> a == b
  {
  }

  lemma NothingBelowAFreeName(t: Tree, p: string, dir: string, file: string)
    requires WellFormed(t) && p in t && dir != "" && dir !in t
    ensures dir + "/" + file != p && DirOf(dir + "/" + file) != p
  {
    var n := dir + "/" + file;
    DirOfBelow(dir, file);
    if n == p { FolderOnTheWay(t, p, dir); }
    if DirOf(n) == p {
      FullPrefix(dir, p);
      if |p| > |dir| {
        assert p[|dir|] == n[|dir|] == '/';
        assert dir + "/" <= p;
        FolderOnTheWay(t, p, dir);
      }
    }
  }

  lemma MoveThreatensNobody(t: Tree, staging: string, n: string, p: string)
    requires WellFormed(t) && p in t && ReadExpansionIntent(t, staging).Some?
    requires ReadExpansionIntent(t, staging).value.dir !in t
    requires n in NamesOf(ReadExpansionIntent(t, staging).value)
    ensures n != p && DirOf(n) != p
  {
    var i := ReadExpansionIntent(t, staging).value;
    CleanNamesStartPlainly(i.dir);
    hide IsClean, ReadExpansionIntent, WellFormed, IsAttempt, Threatens, DirOf, IsDotName;
    var k :| 0 <= k < |i.files| && NamesOf(i)[k] == n;
    NothingBelowAFreeName(t, p, i.dir, i.files[k]);
  }

  /** Trees that agree on dot names agree on attempts. */
  lemma DotsDecideAttempts(t: Tree, t': Tree)
    requires WellFormed(t) && WellFormed(t')
    requires forall p :: IsDotName(p) ==> (p in t <==> p in t') && (p in t ==> t[p] == t'[p])
    ensures SameAttempts(t, t')
  {
    hide Trusted, ExpansionAttemptArchiveId, WellFormed;
    forall x | IsAttempt(x)
      ensures ReadExpansionIntent(t, x) == ReadExpansionIntent(t', x) && (TreePath(x) in t <==> TreePath(x) in t')
    {
      AttemptPaths(x, x);
    }
  }

  /** Removing files takes exactly those uploads in flight whose names are listed. */
  lemma RemovalTakes(s: Sections, files: seq<string>)
    requires Safe(s) && forall f :: f in files ==> IsPlain(f)
    ensures var s' := s.(tree := WithoutFiles(s.tree, files));
            && Safe(s') && SameAttempts(s.tree, s'.tree)
            && (forall p :: p in s'.tree ==> p in s.tree && s'.tree[p] == s.tree[p])
            && forall u :: IsThere(s, u) ==> (IsThere(s', u) <==> s.inFlight[u] !in files)
  {
    hide WithoutFiles, IsAttempt, ReadExpansionIntent, Threatens, HasChild, TreePath, DirOf, NamesOf;
    var t' := WithoutFiles(s.tree, files);
    RemovingFilesTakes(s.tree, files);
    DotsDecideAttempts(s.tree, t');
    ShrinkingKeepsSafe(s, t');
  }

  /** Pruning takes exactly those uploads in flight that stand where a folder of the files should be. */
  lemma PruningTakes(s: Sections, files: seq<string>)
    requires Safe(s) && forall f :: f in files ==> IsPlain(f)
    ensures var s' := s.(tree := PruneAll(s.tree, PruneOrder(files)));
            && Safe(s') && SameAttempts(s.tree, s'.tree)
            && (forall p :: p in s'.tree ==> p in s.tree && s'.tree[p] == s.tree[p])
            && forall u :: IsThere(s, u) ==> (IsThere(s', u) <==> forall f :: f in files ==> DirOf(f) != s.inFlight[u])
  {
    hide PruneAll, PruneOrder, Chains, IsAttempt, ReadExpansionIntent, Threatens, HasChild, TreePath, DirOf, NamesOf;
    var order := PruneOrder(files);
    var t' := PruneAll(s.tree, order);
    PruneIsExact(s.tree, order);
    forall p | p in s.tree && IsDotName(p) ensures p in t' {
      forall f | f in files ensures p != DirOf(f) && p !in Chain(DirOf(f)) {
        if DirOf(f) != "" { assert DirOf(f)[0] == f[0]; }
        if p in Chain(DirOf(f)) { ChainIsAbove(DirOf(f), p); }
      }
      if p in Chains(order) { InSomeChain(order, p); }
    }
    DotsDecideAttempts(s.tree, t');
    ShrinkingKeepsSafe(s, t');
  }

  /** A name a delete takes: one of its rows', or one of a file where a folder of theirs should be. */
  ghost predicate Takes(files: seq<string>, p: string) {
    exists f :: f in files && (f == p || DirOf(f) == p)
  }

  lemma DeleteTakes(s: Sections, s': Sections, ids: set<nat>, files: seq<string>, order: seq<string>)
    requires Safe(s) && Step(s, DeleteRows(ids, files, order), s')
    ensures Safe(s')
    ensures forall u :: IsThere(s, u) ==> (IsThere(s', u) <==> !Takes(files, s.inFlight[u]))
  {
    hide DeletedTree, AllAttempts, Emptied, IsPlain, Takes, IsThere;
    RowsArePlain(s, ids, files);
    DeletedTreeTakes(s, ids, files, order);
  }

  lemma RowsArePlain(s: Sections, ids: set<nat>, files: seq<string>)
    requires Safe(s) && ids <= s.rows.Keys
    requires forall f :: f in files ==> exists id :: id in ids && s.rows[id].name == f
    ensures forall f :: f in files ==> IsPlain(f)
  {
    hide IsPlain, WellFormed, Threatens, IsAttempt, IsThere;
  }

  lemma DeletedTreeTakes(s: Sections, ids: set<nat>, files: seq<string>, order: seq<string>)
    requires Safe(s) && AllAttempts(order) && forall f :: f in files ==> IsPlain(f)
    ensures var s' := Sections(DeletedTree(s, ids, files, order), s.rows - ids, s.inFlight);
            && Safe(s') && Between(s'.tree, s'.tree, s.tree)
            && (forall x :: IsAttempt(x) ==> (TreePath(x) in s'.tree <==> TreePath(x) in s.tree))
            && forall u :: IsThere(s, u) ==> (IsThere(s', u) <==> !Takes(files, s.inFlight[u]))
  {
    hide ReadExpansionIntent, IsAttempt, TreePath, NamesOf, IsPlain, SettleEach, WithoutFiles, PruneAll, PruneOrder,
         Threatens, DirOf, WellFormed, Names;
    var s0 := s.(rows := s.rows - ids);
    assert Safe(s0);
    RemovalTakes(s0, files);
    var s1 := s0.(tree := WithoutFiles(s.tree, files));
    UploadsSurviveSettling(s1, order);
    EachIsSettledShrinks(s1, order);
    var s2 := s1.(tree := SettleEach(s1.tree, Names(s1.rows), order));
    PruningTakes(s2, files);
  }

  lemma EachIsSettledShrinks(s: Sections, order: seq<string>)
    requires Safe(s) && AllAttempts(order)
    ensures var t' := SettleEach(s.tree, Names(s.rows), order);
            && (forall p :: p in t' ==> p in s.tree && t'[p] == s.tree[p])
            && (forall x :: IsAttempt(x) ==> (TreePath(x) in t' <==> TreePath(x) in s.tree))
            && forall u :: IsThere(s.(tree := t'), u) ==> IsThere(s, u)
  {
    hide ReadExpansionIntent, IsAttempt, TreePath, NamesOf, SettleEach, Threatens, DirOf, Names, IsPlain;
    EachIsSettled(s.tree, Names(s.rows), order);
  }

  lemma TakeBackKeepsUploads(s: Sections, s': Sections, staging: string)
    requires Safe(s) && Step(s, TakeBack(staging), s')
    ensures Safe(s') && Keeps(s, s')
  {
    IntentsAreTrusted(s.tree, staging);
    hide ReadExpansionIntent, IsAttempt, TreePath, NamesOf, IsDotName, WithoutFiles, PruneAll, PruneOrder, Trusted,
         DirOf,
         WellFormed, HasContent;
    var i := ReadExpansionIntent(s.tree, staging).value;
    forall n | n in NamesOf(i) ensures IsPlain(n) {
      NamesArePlain(i, n);
    }
    forall u | IsThere(s, u) ensures forall n :: n in NamesOf(i) ==> n != s.inFlight[u] && DirOf(n) != s.inFlight[u] {
      assert !Threatens(s.tree, staging, s.inFlight[u]);
    }
    RemovalTakes(s, NamesOf(i));
    var s1 := s.(tree := WithoutFiles(s.tree, NamesOf(i)));
    PruningTakes(s1, NamesOf(i));
    BetweenKeepsUploads(s, PruneAll(s1.tree, PruneOrder(NamesOf(i))), s');
  }

  /** A tree removals came to reads intents as before or not at all. */
  lemma BetweenReads(low: Tree, t: Tree, high: Tree, x: string)
    requires WellFormed(high) && Between(low, t, high) && IsAttempt(x)
    ensures ReadExpansionIntent(t, x).Some? ==> ReadExpansionIntent(t, x) == ReadExpansionIntent(high, x)
  {
    hide Trusted, ExpansionAttemptArchiveId, WellFormed;
    AttemptPaths(x, x);
  }

  /** Removals that end, or die on the way, spare what they would spare in the end, and start no placing as long
      as they leave staged trees alone. */
  lemma BetweenKeepsUploads(s: Sections, low: Tree, s': Sections)
    requires Safe(s) && WellFormed(s'.tree) && s' == s.(tree := s'.tree) && Between(low, s'.tree, s.tree)
    requires forall x :: IsAttempt(x) && TreePath(x) in s.tree ==> TreePath(x) in low
    ensures Safe(s')
    ensures forall u :: IsThere(s, u) && IsThere(s.(tree := low), u) ==> IsThere(s', u)
    ensures forall x :: IsAttempt(x) && Placing(s'.tree, x) ==>
              Placing(s.tree, x) && ReadExpansionIntent(s'.tree, x) == ReadExpansionIntent(s.tree, x)
  {
    hide ReadExpansionIntent, IsAttempt, TreePath, NamesOf, IsDotName, WellFormed, DirOf, IsPlain;
    SafeParts(s);
    forall x | IsAttempt(x) && Placing(s'.tree, x)
      ensures Placing(s.tree, x) && ReadExpansionIntent(s'.tree, x) == ReadExpansionIntent(s.tree, x)
    {
      BetweenReads(low, s'.tree, s.tree, x);
    }
    NoNewThreats(s, s');
  }

  lemma SettleDiesKeepsUploads(s: Sections, s': Sections, order: seq<string>, staging: string)
    requires Safe(s) && Step(s, SettleDies(order, staging), s')
    ensures Safe(s') && Keeps(s, s')
  {
    hide ReadExpansionIntent, IsAttempt, TreePath, NamesOf, IsDotName, WellFormed, DirOf, IsPlain, Settle, SettleEach,
         Names, HasContent, Threatens;
    var s1 := s.(tree := SettleEach(s.tree, Names(s.rows), order));
    UploadsSurviveSettling(s, order);
    SafeParts(s1);
    OneSettleKeepsUploads(s1, staging);
    SettleIsFinal(s1.tree, Names(s.rows), staging);
    BetweenKeepsUploads(s1, Settle(s1.tree, Names(s.rows), staging), s');
  }

  lemma {:induction false} AllAreOrphans(names: seq<string>, rows: set<string>)
    requires forall n :: n in names ==> n !in rows
    ensures Orphans(names, rows) == names
  {
    if names != [] {
      var before, last := names[..|names| - 1], names[|names| - 1];
      assert names == before + [last];
      AllAreOrphans(before, rows);
    }
  }

  /** Where no row speaks for them, taking the placed files back is what a settle does that dies before it
      removes the intent. */
  lemma ATakeBackLooksLikeADeadSettle(s: Sections, s': Sections, staging: string)
    requires WellFormed(s.tree) && Step(s, TakeBack(staging), s')
    requires forall id :: id in s.rows ==> s.rows[id].name !in NamesOf(ReadExpansionIntent(s.tree, staging).value)
    ensures Step(s, SettleDies([], staging), s')
  {
    hide IsAttempt, NamesOf, WithoutFiles, PruneAll, PruneOrder, WellFormed, ReadExpansionIntent, TreePath, Settle;
    SettledIsBelow(s.tree, Names(s.rows), staging);
    NothingToSettle(s.tree, Names(s.rows));
  }

  lemma NothingToSettle(t: Tree, rows: set<string>)
    ensures SettleEach(t, rows, []) == t
  {
  }

  lemma SettledIsBelow(t: Tree, rows: set<string>, staging: string)
    requires WellFormed(t) && Placing(t, staging)
    requires forall n :: n in NamesOf(ReadExpansionIntent(t, staging).value) ==> n !in rows
    ensures var names := NamesOf(ReadExpansionIntent(t, staging).value);
            Settle(t, rows, staging).Keys <= PruneAll(WithoutFiles(t, names), PruneOrder(names)).Keys
  {
    IntentsAreTrusted(t, staging);
    hide ReadExpansionIntent, NamesOf, WithoutFiles, PruneAll, PruneOrder, WellFormed, Remove, Trusted, TreePath,
         Orphans;
    var i := ReadExpansionIntent(t, staging).value;
    AllAreOrphans(NamesOf(i), rows);
    TakingBackKeepsDots(t, rows, staging, i);
    RemoveKeepsTheTree(TakenBack(t, rows, staging, i), IntentPath(staging));
  }

  lemma DeleteDiesKeepsUploads(s: Sections, s': Sections, ids: set<nat>, files: seq<string>, order: seq<string>)
    requires Safe(s) && Step(s, DeleteDies(ids, files, order), s')
    ensures Safe(s')
    ensures forall u :: IsThere(s, u) && !IsThere(s', u) ==> Takes(files, s.inFlight[u])
  {
    hide ReadExpansionIntent, IsAttempt, TreePath, NamesOf, IsDotName, WellFormed, DirOf, IsPlain, DeletedTree, Takes,
         HasContent, Threatens, Safe;
    RowsArePlain(s, ids, files);
    DeletedTreeTakes(s, ids, files, order);
    BetweenKeepsUploads(s, DeletedTree(s, ids, files, order), s');
  }

  lemma BeginKeepsUploads(s: Sections, s': Sections, u: nat, p: string, order: seq<string>)
    requires Safe(s) && Step(s, BeginUpload(u, p, order), s')
    ensures Safe(s') && Keeps(s, s') && IsThere(s', u)
  {
    hide ReadExpansionIntent, IsAttempt, TreePath, NamesOf, IsDotName, SettleEach, WellFormed, DirOf, Names;
    UploadsSurviveSettling(s, order);
    var t1 := SettleEach(s.tree, Names(s.rows), order);
    SafeParts(s.(tree := t1));
    NewPlainNames(t1, s'.tree);
  }

  lemma NewPlainNames(t: Tree, t': Tree)
    requires WellFormed(t) && WellFormed(t') && Includes(t', t)
    requires forall q :: q in t' && q !in t ==> !IsDotName(q)
    ensures SameAttempts(t, t')
  {
    hide IsDotName, WellFormed;
    DotsDecideAttempts(t, t');
  }

  lemma LeavingKeepsUploads(s: Sections, s': Sections, a: Action)
    requires Safe(s) && Step(s, a, s') && (a.FinishUpload? || a.AbandonUpload?)
    ensures Safe(s') && Keeps(s, s') && SameAttempts(s.tree, s'.tree)
  {
    hide ReadExpansionIntent, IsAttempt, TreePath, NamesOf, WellFormed, DirOf, Threatens;
    SafeParts(s);
    DotsDecideAttempts(s.tree, s'.tree);
    NoNewThreats(s, s');
  }

  lemma StageKeepsAttempts(s: Sections, s': Sections, staging: string)
    requires Safe(s) && Step(s, Stage(staging), s')
    ensures forall x :: IsAttempt(x) ==> ReadExpansionIntent(s'.tree, x) == ReadExpansionIntent(s.tree, x)
    ensures forall x :: IsAttempt(x) && TreePath(x) in s.tree ==> TreePath(x) in s'.tree
    ensures forall q :: !IsDotName(q) ==> (q in s.tree <==> q in s'.tree) && (q in s.tree ==> s.tree[q] == s'.tree[q])
  {
    hide Trusted, ExpansionAttemptArchiveId, Threatens, IsDotName;
    forall x | IsAttempt(x) ensures ReadExpansionIntent(s'.tree, x) == ReadExpansionIntent(s.tree, x) {
      AttemptPaths(x, x);
      DirOfIntent(x);
    }
  }

  lemma DirOfIntent(x: string)
    ensures DirOf(IntentPath(x)) == x
  {
    DirOfChild(x, EXPANSION_INTENT_FILE);
  }

  lemma WritingTouchesOneAttempt(s: Sections, s': Sections, staging: string, content: Content)
    requires Safe(s) && Step(s, WriteIntent(staging, content), s')
    ensures forall x :: IsAttempt(x) && x != staging ==>
              ReadExpansionIntent(s'.tree, x) == ReadExpansionIntent(s.tree, x)
    ensures forall x :: IsAttempt(x) ==> (TreePath(x) in s'.tree <==> TreePath(x) in s.tree)
    ensures forall q :: !IsDotName(q) ==> (q in s.tree <==> q in s'.tree) && (q in s.tree ==> s.tree[q] == s'.tree[q])
  {
    hide Trusted, ExpansionAttemptArchiveId, Threatens;
    AttemptPaths(staging, staging);
    forall x | IsAttempt(x)
      ensures x != staging ==> ReadExpansionIntent(s'.tree, x) == ReadExpansionIntent(s.tree, x)
      ensures TreePath(x) in s'.tree <==> TreePath(x) in s.tree
    {
      AttemptPaths(x, staging);
    }
  }

  /** A drop takes nothing but its attempt's own names, and can only make its intent unreadable. */
  lemma DroppingTouchesOneAttempt(s: Sections, s': Sections, staging: string, gone: set<string>)
    requires Safe(s) && Step(s, DropSome(staging, gone), s')
    ensures forall x :: IsAttempt(x) && x != staging ==>
              ReadExpansionIntent(s'.tree, x) == ReadExpansionIntent(s.tree, x) &&
              (TreePath(x) in s'.tree <==> TreePath(x) in s.tree)
    ensures ReadExpansionIntent(s'.tree, staging).None? ||
            ReadExpansionIntent(s'.tree, staging) == ReadExpansionIntent(s.tree, staging)
    ensures TreePath(staging) in s'.tree ==> TreePath(staging) in s.tree
    ensures forall q :: !IsDotName(q) ==> (q in s.tree <==> q in s'.tree) && (q in s.tree ==> s.tree[q] == s'.tree[q])
  {
    hide Trusted, ExpansionAttemptArchiveId, Threatens, WellFormed;
    AttemptNamesAreDotNames(staging);
    forall x | IsAttempt(x) && x != staging
      ensures !Under(staging, IntentPath(x)) && !Under(staging, TreePath(x)) && !Under(staging, x)
    {
      AttemptNamesAreDotNames(x);
      OneAttemptPerPath(staging, x, EXPANSION_INTENT_FILE);
      OneAttemptPerPath(staging, x, "tree");
      assert (staging + "/")[|staging|] == '/';
    }
    forall x | IsAttempt(x)
      ensures x != staging ==> ReadExpansionIntent(s'.tree, x) == ReadExpansionIntent(s.tree, x)
      ensures x != staging ==> (TreePath(x) in s'.tree <==> TreePath(x) in s.tree)
    {
      AttemptPaths(x, staging);
    }
    AttemptPaths(staging, staging);
    forall q | Under(staging, q) ensures IsDotName(q) {
      assert (staging + "/")[0] == staging[0] == '.';
    }
  }

  lemma OneAttemptPerPath(staging: string, x: string, base: string)
    requires '/' !in staging && '/' !in x
    ensures Under(staging, x + "/" + base) ==> x == staging
  {
    var y, z := x + "/" + base, staging + "/";
    if z <= y {
      assert forall j :: 0 <= j < |staging| ==> y[j] == z[j] == staging[j] && y[j] != '/';
      assert forall j :: 0 <= j < |x| ==> y[j] == x[j] && y[j] != '/';
      assert y[|staging|] == z[|staging|] == '/' && y[|x|] == '/';
      assert |x| == |staging|;
    } else {
      assert y[|x|] == '/';
    }
  }

  /** Sections that touch only names starting with a dot, and start no placing, disturb no upload. */
  lemma DotsOnlyKeepUploads(s: Sections, s': Sections)
    requires Safe(s) && WellFormed(s'.tree) && s'.rows == s.rows && s'.inFlight == s.inFlight
    requires forall q :: !IsDotName(q) ==> (q in s.tree <==> q in s'.tree) && (q in s.tree ==> s.tree[q] == s'.tree[q])
    requires forall x :: IsAttempt(x) && Placing(s'.tree, x) ==>
               Placing(s.tree, x) && ReadExpansionIntent(s'.tree, x) == ReadExpansionIntent(s.tree, x)
    ensures Safe(s') && Keeps(s, s')
  {
    hide ReadExpansionIntent, IsAttempt, TreePath, NamesOf, IsDotName, WellFormed, Placing, DirOf;
    NoNewThreats(s, s');
  }

  lemma MoveKeepsUploads(s: Sections, s': Sections, staging: string)
    requires Safe(s) && Step(s, Move(staging), s')
    ensures Safe(s') && Keeps(s, s')
  {
    hide ReadExpansionIntent, IsAttempt, TreePath, NamesOf, IsDotName, WellFormed, DirOf, Under;
    forall x, u | IsAttempt(x) && IsThere(s', u)
      ensures IsThere(s, u) && !Threatens(s'.tree, x, s'.inFlight[u])
    {
      var p := s.inFlight[u];
      if x == staging {
        forall n | n in NamesOf(ReadExpansionIntent(s.tree, staging).value) ensures n != p && DirOf(n) != p {
          MoveThreatensNobody(s.tree, staging, n, p);
        }
      } else {
        assert !Threatens(s.tree, x, p);
      }
    }
  }

  lemma CommitKeepsUploads(s: Sections, s': Sections, staging: string, added: map<nat, Attachment>)
    requires Safe(s) && Step(s, CommitRows(staging, added), s')
    ensures Safe(s') && Keeps(s, s')
  {
    IntentsAreTrusted(s.tree, staging);
    hide ReadExpansionIntent, IsAttempt, TreePath, NamesOf, IsDotName, WellFormed, DirOf, Trusted;
    var i := ReadExpansionIntent(s.tree, staging).value;
    forall id | id in added ensures IsPlain(added[id].name) {
      assert added[id].name in Names(added);
      NamesArePlain(i, added[id].name);
    }
    NoNewThreats(s, s');
  }

  lemma IntentsAreTrusted(t: Tree, staging: string)
    ensures ReadExpansionIntent(t, staging).Some? ==> Trusted(ReadExpansionIntent(t, staging).value)
  {
  }

  /** Every section, also one that dies, and every step outside one, leaves no upload in flight threatened, and
      keeps its file unless it is a delete of its name, which takes it if it does not die. The one step left
      out leaves an intent that a settle would take for that of a moved attempt. */
  lemma StepKeepsUploads(s: Sections, a: Action, s': Sections)
    requires Safe(s) && Step(s, a, s') && !LeavesOnlyTheIntent(s, a)
    ensures Safe(s')
    ensures forall u :: IsThere(s, u) && u in s'.inFlight && !IsThere(s', u) ==>
              IsDelete(a) && Takes(a.files, s.inFlight[u])
    ensures a.DeleteRows? ==>
              forall u :: IsThere(s, u) && u in s'.inFlight && Takes(a.files, s.inFlight[u]) ==> !IsThere(s', u)
  {
    hide ReadExpansionIntent, IsAttempt, TreePath, NamesOf, IsDotName, SettleEach, WellFormed, WithoutFiles, PruneAll,
         PruneOrder, DirOf, Threatens, Emptied, Under, Takes, Names, HasContent, IsThere, IsPlain, Safe, Settle,
         DeletedTree, Between;
    match a
    case BeginUpload(u, p, order) => BeginKeepsUploads(s, s', u, p, order);
    case FinishUpload(_, _) => LeavingKeepsUploads(s, s', a);
    case AbandonUpload(_) => LeavingKeepsUploads(s, s', a);
    case Stage(staging) => StageKeepsAttempts(s, s', staging); DotsOnlyKeepUploads(s, s');
    case WriteIntent(staging, content) =>
      WritingTouchesOneAttempt(s, s', staging, content);
      DotsOnlyKeepUploads(s, s');
    case Move(staging) => MoveKeepsUploads(s, s', staging);
    case CommitRows(staging, added) => CommitKeepsUploads(s, s', staging, added);
    case TakeBack(staging) => TakeBackKeepsUploads(s, s', staging);
    case DropSome(staging, gone) =>
      DroppingTouchesOneAttempt(s, s', staging, gone);
      DotsOnlyKeepUploads(s, s');
    case SettleSome(order) => UploadsSurviveSettling(s, order);
    case SettleDies(order, staging) => SettleDiesKeepsUploads(s, s', order, staging);
    case DeleteRows(ids, files, order) => DeleteTakes(s, s', ids, files, order);
    case DeleteDies(ids, files, order) => DeleteDiesKeepsUploads(s, s', ids, files, order);
  }

  // ---- What a delete can take ----

  /** The row's name is the path, or a name in a folder of that path. */
  predicate Speaks(name: string, p: string) {
    name == p || DirOf(name) == p
  }

  /** A delete can take an upload in flight exactly while some row speaks for its name. */
  lemma ADeleteCanTake(s: Sections, u: nat)
    requires Safe(s) && IsThere(s, u)
    ensures (exists id :: id in s.rows && Speaks(s.rows[id].name, s.inFlight[u])) <==>
            exists ids, files, order, s' :: Step(s, DeleteRows(ids, files, order), s') && !IsThere(s', u)
  {
    hide Step, Safe, HasContent, DirOf;
    if id :| id in s.rows && Speaks(s.rows[id].name, s.inFlight[u]) {
      var s' := DeletedOne(s, id);
      var order := SettledWith(s.rows, id);
      DeleteTakes(s, s', {id}, [s.rows[id].name], order);
      assert s.rows[id].name in [s.rows[id].name];
    }
    if ids, files, order, s' :| Step(s, DeleteRows(ids, files, order), s') && !IsThere(s', u) {
      DeleteTakes(s, s', ids, files, order);
      FilesAreNames(s, DeleteRows(ids, files, order), s');
      var f :| f in files && (f == s.inFlight[u] || DirOf(f) == s.inFlight[u]);
    }
  }

  lemma FilesAreNames(s: Sections, a: Action, s': Sections)
    requires Step(s, a, s') && IsDelete(a)
    ensures forall f :: f in a.files ==> exists id :: id in s.rows && s.rows[id].name == f
  {
    hide IsAttempt, Emptied, SettleEach, WithoutFiles, PruneAll, PruneOrder, WellFormed;
  }

  /** The attempt to settle with the delete of one row. */
  function SettledWith(rows: map<nat, Attachment>, id: nat): (order: seq<string>)
    requires id in rows
    ensures AllAttempts(order)
    ensures forall x :: IsAttempt(x) && Emptied(rows, {id}, x) ==> x in order
  {
    match rows[id].attempt
    case Some(x) => if IsAttempt(x) then [x] else []
    case None => []
  }

  lemma DeletedOne(s: Sections, id: nat) returns (s': Sections)
    requires Safe(s) && id in s.rows
    ensures Step(s, DeleteRows({id}, [s.rows[id].name], SettledWith(s.rows, id)), s')
    ensures s'.inFlight == s.inFlight
  {
    hide ReadExpansionIntent, IsAttempt, TreePath, NamesOf, IsPlain, SettleEach, WithoutFiles, PruneAll, PruneOrder,
         Threatens, Emptied, DirOf, WellFormed, Names, SettledWith;
    var files, order, rows := [s.rows[id].name], SettledWith(s.rows, id), s.rows - {id};
    var s0 := s.(rows := rows);
    assert Safe(s0);
    RemovalTakes(s0, files);
    var s1 := s0.(tree := WithoutFiles(s.tree, files));
    UploadsSurviveSettling(s1, order);
    var s2 := s1.(tree := SettleEach(s1.tree, Names(rows), order));
    PruningTakes(s2, files);
    s' := s2.(tree := PruneAll(s2.tree, PruneOrder(files)));
  }

  /** Some row, or another upload in flight, speaks for the name of the upload. */
  ghost predicate SpokenFor(s: Sections, u: nat)
    requires u in s.inFlight
  {
    || (exists id :: id in s.rows && Speaks(s.rows[id].name, s.inFlight[u]))
    || (exists v :: v in s.inFlight && v != u && Speaks(s.inFlight[v], s.inFlight[u]))
  }

  lemma NothingLiesInAFile(t: Tree, q: string, p: string)
    requires WellFormed(t) && q in t && p in t && t[p].File?
    ensures DirOf(q) != p
  {
  }

  lemma CommittedNamesSpeakForNobody(s: Sections, s': Sections, staging: string, added: map<nat, Attachment>, u: nat)
    requires Safe(s) && Step(s, CommitRows(staging, added), s') && IsThere(s, u)
    ensures forall id :: id in added ==> !Speaks(added[id].name, s.inFlight[u])
  {
    hide ReadExpansionIntent, IsAttempt, TreePath, NamesOf, IsDotName, DirOf, WellFormed, IsPlain;
    assert !Threatens(s.tree, staging, s.inFlight[u]);
    forall id | id in added ensures !Speaks(added[id].name, s.inFlight[u]) {
      assert added[id].name in Names(added);
    }
  }

  /** Nobody comes to speak for a name while its upload's file is there. */
  lemma NobodySpeaksAnew(s: Sections, a: Action, s': Sections, u: nat)
    requires Safe(s) && Step(s, a, s') && IsThere(s, u) && IsThere(s', u) && !SpokenFor(s, u)
    ensures !SpokenFor(s', u)
  {
    hide ReadExpansionIntent, IsAttempt, TreePath, NamesOf, IsDotName, SettleEach, WithoutFiles, PruneAll, PruneOrder,
         Emptied, Under, Names, IsPlain, DirOf;
    match a
    case BeginUpload(_, p, _) => NothingLiesInAFile(s'.tree, p, s'.inFlight[u]);
    case FinishUpload(_, _) =>
    case AbandonUpload(_) =>
    case Stage(_) =>
    case WriteIntent(_, _) =>
    case Move(_) =>
    case CommitRows(staging, added) => CommittedNamesSpeakForNobody(s, s', staging, added, u);
    case TakeBack(_) =>
    case DropSome(_, _) =>
    case SettleSome(_) =>
    case SettleDies(_, _) =>
    case DeleteRows(_, _, _) =>
    case DeleteDies(_, _, _) =>
  }

  // ---- Every run ----

  ghost predicate Run(states: seq<Sections>, actions: seq<Action>) {
    |states| == |actions| + 1 && forall i :: 0 <= i < |actions| ==> Step(states[i], actions[i], states[i + 1])
  }

  /** Where no upload is in flight. */
  ghost predicate Quiet(s: Sections) {
    WellFormed(s.tree) && s.inFlight == map[] && forall id :: id in s.rows ==> IsPlain(s.rows[id].name)
  }

  /** No drop before `i` leaves an intent without its tree: the intent goes first. */
  ghost predicate IntentsGoFirst(states: seq<Sections>, actions: seq<Action>, i: nat) {
    forall k :: 0 <= k < i && k < |states| && k < |actions| ==> !LeavesOnlyTheIntent(states[k], actions[k])
  }

  lemma {:induction false} RunsAreSafe(states: seq<Sections>, actions: seq<Action>, i: nat)
    requires Run(states, actions) && i < |states| && Quiet(states[0]) && IntentsGoFirst(states, actions, i)
    ensures Safe(states[i])
  {
    hide Step, Safe, LeavesOnlyTheIntent;
    if i == 0 {
      QuietIsSafe(states[0]);
    } else {
      RunsAreSafe(states, actions, i - 1);
      StepKeepsUploads(states[i - 1], actions[i - 1], states[i]);
    }
  }

  lemma QuietIsSafe(s: Sections)
    requires Quiet(s)
    ensures Safe(s)
  {
  }

  /** Over every run whose drops take intents first, no settle, no move and no other step takes the file of an
      upload in flight, whatever attempts and sections died or were taken back: only a delete of its name does,
      and such a delete does unless it dies. */
  lemma OnlyADeleteTakesAnUpload(states: seq<Sections>, actions: seq<Action>, i: nat, u: nat)
    requires Run(states, actions) && i < |actions| && Quiet(states[0]) && IntentsGoFirst(states, actions, i + 1)
    requires IsThere(states[i], u) && u in states[i + 1].inFlight
    ensures !IsThere(states[i + 1], u) ==> IsDelete(actions[i]) && Takes(actions[i].files, states[i].inFlight[u])
    ensures actions[i].DeleteRows? && Takes(actions[i].files, states[i].inFlight[u]) ==> !IsThere(states[i + 1], u)
  {
    hide Step, Safe, Takes, IsThere, LeavesOnlyTheIntent;
    RunsAreSafe(states, actions, i);
    StepKeepsUploads(states[i], actions[i], states[i + 1]);
  }

  /** An upload that claims a name nobody speaks for keeps its file for as long as it is in flight. */
  lemma {:induction false} AnUnspokenNameIsKept(states: seq<Sections>, actions: seq<Action>, c: nat, i: nat, u: nat)
    requires Run(states, actions) && c < i < |states| && Quiet(states[0]) && IntentsGoFirst(states, actions, i)
    requires actions[c].BeginUpload? && actions[c].u == u
    requires forall j :: c < j <= i ==> u in states[j].inFlight
    requires !SpokenFor(states[c + 1], u)
    ensures IsThere(states[i], u) && !SpokenFor(states[i], u)
  {
    hide Step, Safe, Takes, IsThere, LeavesOnlyTheIntent, SpokenFor;
    var s, a, s' := states[i - 1], actions[i - 1], states[i];
    RunsAreSafe(states, actions, i - 1);
    if c + 1 == i {
      BeginKeepsUploads(s, s', u, a.p, a.order);
    } else {
      AnUnspokenNameIsKept(states, actions, c, i - 1, u);
      StepKeepsUploads(s, a, s');
      DeletesTakeSpokenNames(s, a, s', u);
      NobodySpeaksAnew(s, a, s', u);
    }
  }

  lemma DeletesTakeSpokenNames(s: Sections, a: Action, s': Sections, u: nat)
    requires Step(s, a, s') && u in s.inFlight && !SpokenFor(s, u)
    ensures IsDelete(a) ==> !Takes(a.files, s.inFlight[u])
  {
    hide Step, DirOf;
    if IsDelete(a) { FilesAreNames(s, a, s'); }
  }
}
