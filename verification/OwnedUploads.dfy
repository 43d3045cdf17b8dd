/** The files attachment rows own, over every run of the sections that hold the task's attachments lock. */
module OwnedUploads {
  import opened Options
  import opened JsText
  import opened UploadPaths
  import opened Pruning
  import opened ExpansionSettling
  import opened UploadSections

  /** What a later settle of the attempt goes by: nothing, unless its move may have happened. */
  function Placed(t: Tree, x: string): seq<string> {
    var i := ReadExpansionIntent(t, x);
    if i.Some? && TreePath(x) !in t then NamesOf(i.value) else []
  }

  predicate IsFile(t: Tree, p: string) {
    p in t && t[p].File?
  }

  /** No regular file stands where a folder of the attempt's files should be. */
  predicate FoldersStand(t: Tree, x: string) {
    forall n :: n in Placed(t, x) ==> !IsFile(t, DirOf(n))
  }

  /** Something the attempt placed is still there, so its folder is taken. */
  predicate SomeLeft(t: Tree, x: string) {
    exists n :: n in Placed(t, x) && IsFile(t, n)
  }

  /** All the attempt placed lies in a folder at the uploads root. */
  ghost predicate LiesIn(t: Tree, x: string, dir: string) {
    '/' !in dir && dir != "" && forall n :: n in Placed(t, x) ==> Under(dir, n) && Under(dir, DirOf(n))
  }

  /** No two attempts that placed something placed it in one folder. */
  ghost predicate Apart(t: Tree) {
    forall x, y :: IsAttempt(x) && IsAttempt(y) && x != y && Placed(t, x) != [] && Placed(t, y) != [] ==>
      ReadExpansionIntent(t, x).value.dir != ReadExpansionIntent(t, y).value.dir
  }

  /** Every row has its file, and no two rows have one name. */
  ghost predicate RowsBacked(s: Sections) {
    && (forall id :: id in s.rows ==> IsFile(s.tree, s.rows[id].name))
    && forall i, j :: i in s.rows && j in s.rows && s.rows[i].name == s.rows[j].name ==> i == j
  }

  /** Of what an attempt placed, exactly its own rows speak. */
  ghost predicate RowsMatch(s: Sections) {
    forall x, id :: IsAttempt(x) && Placed(s.tree, x) != [] && id in s.rows ==>
      (s.rows[id].attempt == Some(x) <==> s.rows[id].name in Placed(s.tree, x))
  }

  /** Every upload in flight has its file, and nobody else speaks for its name. */
  ghost predicate UploadsBacked(s: Sections) {
    forall u :: u in s.inFlight ==> IsThere(s, u) && !SpokenFor(s, u)
  }

  /** Every row and every upload has its file, and no attempt can take one: of each attempt but those about
      to be settled something is left, so that nobody else takes its folder. */
  ghost predicate SoundBut(s: Sections, but: set<string>) {
    && Safe(s) && Apart(s.tree) && RowsBacked(s) && RowsMatch(s) && UploadsBacked(s)
    && (forall x :: IsAttempt(x) ==> FoldersStand(s.tree, x))
    && (forall x :: IsAttempt(x) && x !in but && Placed(s.tree, x) != [] ==> SomeLeft(s.tree, x))
  }

  ghost predicate Sound(s: Sections) {
    SoundBut(s, {})
  }

  // ---- Folders apart ----

  lemma FirstSegment(d: string, q: string)
    requires '/' !in d && Under(d, q)
    ensures |d| <= |q| && q[..|d|] == d && (|d| < |q| ==> q[|d|] == '/')
    ensures forall j :: 0 <= j < |d| ==> q[j] != '/'
  {
  }

  lemma UnderOne(d: string, e: string, q: string)
    requires '/' !in d && '/' !in e && Under(d, q) && Under(e, q)
    ensures d == e
  {
    FirstSegment(d, q);
    FirstSegment(e, q);
    assert |d| == |e|;
  }

  lemma TrustedFolder(i: Intent)
    requires Trusted(i)
    ensures '/' !in i.dir && i.dir != ""
  {
    CleanNamesStartPlainly(i.dir);
  }

  lemma PlacedLiesInItsFolder(t: Tree, x: string)
    requires ReadExpansionIntent(t, x).Some?
    ensures LiesIn(t, x, ReadExpansionIntent(t, x).value.dir)
  {
    IntentsAreTrusted(t, x);
    hide ReadExpansionIntent, IsClean, DirOf, TreePath, Trusted, Under;
    var i := ReadExpansionIntent(t, x).value;
    TrustedFolder(i);
    forall n | n in NamesOf(i) ensures Under(i.dir, n) && Under(i.dir, DirOf(n)) {
      var k :| 0 <= k < |i.files| && NamesOf(i)[k] == n;
      FolderLiesIn(i.dir, i.files[k]);
    }
  }

  lemma FolderLiesIn(dir: string, file: string)
    ensures Under(dir, dir + "/" + file) && Under(dir, DirOf(dir + "/" + file))
  {
    var n := dir + "/" + file;
    DirOfBelow(dir, file);
    var d := DirOf(n);
    FullPrefix(dir, d);
    assert dir + "/" <= n;
    if |d| > |dir| {
      assert d[|dir|] == n[|dir|] == '/';
      assert dir + "/" <= d;
    }
  }

  /** What one attempt placed is nothing another one placed, nor a folder of it. */
  lemma NamesApart(t: Tree, x: string, y: string, n: string, m: string)
    requires Apart(t) && IsAttempt(x) && IsAttempt(y) && x != y && n in Placed(t, x) && m in Placed(t, y)
    ensures n != m && n != DirOf(m)
  {
    hide ReadExpansionIntent, IsAttempt, NamesOf, DirOf, Under, TreePath;
    PlacedLiesInItsFolder(t, x);
    PlacedLiesInItsFolder(t, y);
    var d, e := ReadExpansionIntent(t, x).value.dir, ReadExpansionIntent(t, y).value.dir;
    if n == m || n == DirOf(m) { UnderOne(d, e, n); }
  }

  // ---- Settling ----

  lemma SettleKeepsOwned(s: Sections, but: set<string>, y: string)
    requires SoundBut(s, but) && IsAttempt(y)
    ensures SoundBut(s.(tree := Settle(s.tree, Names(s.rows), y)), but)
  {
    hide ReadExpansionIntent, IsAttempt, NamesOf, DirOf, TreePath, Settle, WellFormed, Safe, Apart, Names, SpokenFor,
         IsThere;
    var t, t' := s.tree, Settle(s.tree, Names(s.rows), y);
    SafeParts(s);
    OneSettleKeepsUploads(s, y);
    SettleIsFinal(t, Names(s.rows), y);
    forall id | id in s.rows ensures IsFile(t', s.rows[id].name) {
      assert FoldersStand(t, y);
      NamesOfRows(s.rows, id);
      OwnedFilesAreKeptExceptAtAFolder(t, Names(s.rows), y, s.rows[id].name);
    }
    forall x | IsAttempt(x) ensures Placed(t', x) == if x == y then [] else Placed(t, x) {
    }
    forall x | IsAttempt(x) && x !in but && Placed(t', x) != [] ensures SomeLeft(t', x) {
      assert SomeLeft(t, x);
      var n :| n in Placed(t, x) && IsFile(t, n);
      SettleSparesOthers(s, x, y, n);
    }
    ApartStays(t, t');
    StillUnspoken(s, s.(tree := t'));
  }

  lemma NamesOfRows(rows: map<nat, Attachment>, id: nat)
    requires id in rows
    ensures rows[id].name in Names(rows)
  {
  }

  lemma StillUnspoken(s: Sections, s': Sections)
    requires UploadsBacked(s) && Keeps(s, s') && s'.inFlight == s.inFlight
    requires forall id :: id in s'.rows ==> id in s.rows && s'.rows[id] == s.rows[id]
    ensures UploadsBacked(s')
  {
    hide DirOf, HasContent;
  }

  lemma ApartStays(t: Tree, t': Tree)
    requires Apart(t)
    requires forall x :: IsAttempt(x) && Placed(t', x) != [] ==>
               Placed(t, x) != [] && ReadExpansionIntent(t', x) == ReadExpansionIntent(t, x)
    ensures Apart(t')
  {
  }

  lemma SettleSparesOthers(s: Sections, x: string, y: string, n: string)
    requires WellFormed(s.tree) && Apart(s.tree) && IsAttempt(x) && IsAttempt(y) && x != y
    requires n in Placed(s.tree, x) && IsFile(s.tree, n)
    ensures IsFile(Settle(s.tree, Names(s.rows), y), n)
  {
    IntentsAreTrusted(s.tree, x);
    hide ReadExpansionIntent, IsAttempt, NamesOf, DirOf, TreePath, Settle, WellFormed, Apart, Trusted;
    NamesArePlain(ReadExpansionIntent(s.tree, x).value, n);
    SettleTakesExactly(s.tree, Names(s.rows), y, n);
    SettleIsFinal(s.tree, Names(s.rows), y);
    forall m | m in Placed(s.tree, y) ensures n != m && n != DirOf(m) {
      NamesApart(s.tree, x, y, n, m);
    }
  }

  lemma {:induction false} SettlingKeepsOwned(s: Sections, but: set<string>, order: seq<string>)
    requires SoundBut(s, but) && AllAttempts(order)
    ensures SoundBut(s.(tree := SettleEach(s.tree, Names(s.rows), order)), but)
  {
    hide Settle, IsAttempt, SoundBut, Names;
    if order != [] {
      var before, last := order[..|order| - 1], order[|order| - 1];
      assert order == before + [last];
      SettlingKeepsOwned(s, but, before);
      SettleKeepsOwned(s.(tree := SettleEach(s.tree, Names(s.rows), before)), but, last);
    }
  }

  lemma SoundIsSafe(s: Sections, but: set<string>)
    requires SoundBut(s, but)
    ensures Safe(s)
  {
  }

  // ---- Every step but a take-back and a drop that takes a tree first ----

  /** What was placed reads as before, and every file that matters stays. */
  lemma QuietKeepsOwned(s: Sections, s': Sections)
    requires Sound(s) && Safe(s') && RowsBacked(s') && RowsMatch(s') && UploadsBacked(s')
    requires forall x :: IsAttempt(x) && Placed(s'.tree, x) != [] ==>
               && Placed(s'.tree, x) == Placed(s.tree, x)
               && ReadExpansionIntent(s'.tree, x) == ReadExpansionIntent(s.tree, x)
    requires forall x, n :: IsAttempt(x) && n in Placed(s'.tree, x) && IsFile(s.tree, n) ==> IsFile(s'.tree, n)
    requires forall x, n :: IsAttempt(x) && n in Placed(s'.tree, x) && IsFile(s'.tree, DirOf(n)) ==>
               IsFile(s.tree, DirOf(n))
    ensures Sound(s')
  {
    hide ReadExpansionIntent, IsAttempt, NamesOf, DirOf, TreePath, Placed, Safe, RowsBacked, RowsMatch, UploadsBacked,
         IsFile;
  }

  lemma PlacedArePlain(t: Tree, x: string)
    ensures forall n :: n in Placed(t, x) ==> IsPlain(n) && IsPlain(DirOf(n))
  {
    IntentsAreTrusted(t, x);
    hide ReadExpansionIntent, NamesOf, DirOf, TreePath, Trusted, IsDotName;
    forall n | n in Placed(t, x) ensures IsPlain(n) && IsPlain(DirOf(n)) {
      NamesArePlain(ReadExpansionIntent(t, x).value, n);
    }
  }

  /** Steps that touch only names starting with a dot. */
  lemma DotsOnlyKeepOwned(s: Sections, s': Sections)
    requires Sound(s) && Safe(s') && Keeps(s, s') && s'.rows == s.rows && s'.inFlight == s.inFlight
    requires forall q :: !IsDotName(q) ==> (q in s.tree <==> q in s'.tree) && (q in s.tree ==> s.tree[q] == s'.tree[q])
    requires forall x :: IsAttempt(x) && Placed(s'.tree, x) != [] ==>
               && Placed(s'.tree, x) == Placed(s.tree, x)
               && ReadExpansionIntent(s'.tree, x) == ReadExpansionIntent(s.tree, x)
    ensures Sound(s')
  {
    hide ReadExpansionIntent, IsAttempt, NamesOf, DirOf, TreePath, Placed, Apart, IsDotName, Safe, SpokenFor, IsThere,
         FoldersStand, SomeLeft;
    SafeParts(s);
    StillUnspoken(s, s');
    forall id | id in s.rows ensures IsPlain(s.rows[id].name) { NamesOfRows(s.rows, id); }
    forall x | IsAttempt(x) ensures forall n :: n in Placed(s'.tree, x) ==> IsPlain(n) && IsPlain(DirOf(n)) {
      PlacedArePlain(s'.tree, x);
    }
    QuietKeepsOwned(s, s');
  }

  lemma SameAttemptsPlaceAlike(t: Tree, t': Tree)
    requires SameAttempts(t, t')
    ensures forall x :: IsAttempt(x) ==> Placed(t', x) == Placed(t, x)
  {
  }

  lemma FilesHaveFolders(t: Tree, n: string)
    requires WellFormed(t) && IsFile(t, n)
    ensures !IsFile(t, DirOf(n))
  {
  }

  /** A name free in the tree is free of rows, of uploads, and of what either has below it. */
  lemma AFreeNameIsUnspoken(s: Sections, p: string)
    requires Sound(s) && p != "" && p !in s.tree
    ensures forall id :: id in s.rows ==> !Speaks(s.rows[id].name, p) && s.rows[id].name != p
    ensures forall v :: v in s.inFlight ==> !Speaks(s.inFlight[v], p)
  {
    hide ReadExpansionIntent, IsAttempt, NamesOf, DirOf, TreePath, Placed, Apart, SpokenFor, FoldersStand, SomeLeft,
         RowsMatch;
    forall n | IsFile(s.tree, n) ensures !Speaks(n, p) {
      FolderOfAFile(s.tree, n, p);
    }
    forall v | v in s.inFlight ensures IsFile(s.tree, s.inFlight[v]) { assert IsThere(s, v); }
  }

  lemma FolderOfAFile(t: Tree, n: string, p: string)
    requires WellFormed(t) && IsFile(t, n) && p != "" && p !in t
    ensures !Speaks(n, p)
  {
  }

  lemma BeginKeepsOwned(s: Sections, s': Sections, u: nat, p: string, order: seq<string>)
    requires Sound(s) && Step(s, BeginUpload(u, p, order), s')
    ensures Sound(s')
  {
    hide ReadExpansionIntent, IsAttempt, NamesOf, TreePath, IsDotName, SettleEach, WellFormed, DirOf, Apart, Safe,
         Names,
         FoldersStand, SomeLeft;
    SettlingKeepsOwned(s, {}, order);
    SoundIsSafe(s, {});
    BeginKeepsUploads(s, s', u, p, order);
    var s1 := s.(tree := SettleEach(s.tree, Names(s.rows), order));
    SafeParts(s1);
    NewPlainNames(s1.tree, s'.tree);
    SameAttemptsPlaceAlike(s1.tree, s'.tree);
    AFreeNameIsUnspoken(s1, p);
    ClaimSpeaksForNobody(s1, s', u, p);
    QuietKeepsOwned(s1, s');
  }

  /** A claim of a name nobody speaks for leaves every upload alone. */
  lemma ClaimSpeaksForNobody(s: Sections, s': Sections, u: nat, p: string)
    requires UploadsBacked(s) && Keeps(s, s') && WellFormed(s'.tree) && u !in s.inFlight && IsThere(s', u)
    requires s'.rows == s.rows && s'.inFlight == s.inFlight[u := p] && p !in s.tree
    requires forall id :: id in s.rows ==> !Speaks(s.rows[id].name, p)
    requires forall v :: v in s.inFlight ==> !Speaks(s.inFlight[v], p)
    ensures UploadsBacked(s')
  {
    hide DirOf, WellFormed;
    forall v | v in s.inFlight ensures !Speaks(p, s.inFlight[v]) {
      assert IsThere(s, v) && IsThere(s', v);
      NothingLiesInAFile(s'.tree, p, s.inFlight[v]);
    }
  }

  lemma FinishKeepsOwned(s: Sections, s': Sections, u: nat, id: nat)
    requires Sound(s) && Step(s, FinishUpload(u, id), s')
    ensures Sound(s')
  {
    hide ReadExpansionIntent, IsAttempt, NamesOf, TreePath, WellFormed, DirOf, Apart, FoldersStand, SomeLeft;
    SoundIsSafe(s, {});
    LeavingKeepsUploads(s, s', FinishUpload(u, id));
    FinishMatches(s, s', u, id);
    FinishSpeaksForNobody(s, s', u, id);
    QuietKeepsOwned(s, s');
  }

  lemma FinishMatches(s: Sections, s': Sections, u: nat, id: nat)
    requires Sound(s) && Step(s, FinishUpload(u, id), s')
    ensures RowsBacked(s') && RowsMatch(s')
  {
    hide ReadExpansionIntent, IsAttempt, NamesOf, TreePath, WellFormed, DirOf, Apart, FoldersStand, SomeLeft, IsDotName,
         IsPlain, Emptied, Under;
    assert IsThere(s, u) && !SpokenFor(s, u);
    forall x | IsAttempt(x) ensures s.inFlight[u] !in Placed(s.tree, x) {
      assert !Threatens(s.tree, x, s.inFlight[u]);
    }
  }

  lemma FinishSpeaksForNobody(s: Sections, s': Sections, u: nat, id: nat)
    requires UploadsBacked(s) && Step(s, FinishUpload(u, id), s')
    ensures UploadsBacked(s')
  {
    hide DirOf, HasContent;
  }

  lemma AbandonKeepsOwned(s: Sections, s': Sections, u: nat)
    requires Sound(s) && Step(s, AbandonUpload(u), s')
    ensures Sound(s')
  {
    hide ReadExpansionIntent, IsAttempt, NamesOf, TreePath, WellFormed, DirOf, Apart, FoldersStand, SomeLeft;
    SoundIsSafe(s, {});
    LeavingKeepsUploads(s, s', AbandonUpload(u));
    SameAttemptsPlaceAlike(s.tree, s'.tree);
    assert IsThere(s, u) && !SpokenFor(s, u);
    forall x | IsAttempt(x) ensures s.inFlight[u] !in Placed(s.tree, x) {
      assert !Threatens(s.tree, x, s.inFlight[u]);
    }
    assert RowsMatch(s') && UploadsBacked(s') && RowsBacked(s');
    QuietKeepsOwned(s, s');
  }

  lemma StageKeepsOwned(s: Sections, s': Sections, staging: string)
    requires Sound(s) && Step(s, Stage(staging), s')
    ensures Sound(s')
  {
    hide ReadExpansionIntent, IsAttempt, NamesOf, TreePath, WellFormed, DirOf, Apart, FoldersStand, SomeLeft, Threatens,
         IsDotName, Safe, RowsBacked, RowsMatch, UploadsBacked;
    SoundIsSafe(s, {});
    StageKeepsAttempts(s, s', staging);
    DotsOnlyKeepUploads(s, s');
    DotsOnlyKeepOwned(s, s');
  }

  lemma WriteKeepsOwned(s: Sections, s': Sections, staging: string, content: Content)
    requires Sound(s) && Step(s, WriteIntent(staging, content), s')
    ensures Sound(s')
  {
    hide ReadExpansionIntent, IsAttempt, NamesOf, WellFormed, DirOf, Apart, FoldersStand, SomeLeft, Threatens, Safe,
         TreePath, IntentPath, IsDotName, RowsBacked, RowsMatch, UploadsBacked;
    SoundIsSafe(s, {});
    WritingTouchesOneAttempt(s, s', staging, content);
    DotsOnlyKeepUploads(s, s');
    DotsOnlyKeepOwned(s, s');
  }

  lemma DropKeepsOwned(s: Sections, s': Sections, staging: string, gone: set<string>)
    requires Sound(s) && Step(s, DropSome(staging, gone), s') && !LeavesOnlyTheIntent(s, DropSome(staging, gone))
    ensures Sound(s')
  {
    hide ReadExpansionIntent, IsAttempt, NamesOf, WellFormed, DirOf, Apart, FoldersStand, SomeLeft, Threatens, Safe,
         TreePath, IsDotName, Under, RowsBacked, RowsMatch, UploadsBacked;
    SoundIsSafe(s, {});
    DroppingTouchesOneAttempt(s, s', staging, gone);
    DotsOnlyKeepUploads(s, s');
    DotsOnlyKeepOwned(s, s');
  }

  lemma CommitKeepsOwned(s: Sections, s': Sections, staging: string, added: map<nat, Attachment>)
    requires Sound(s) && Step(s, CommitRows(staging, added), s')
    ensures Sound(s')
  {
    hide ReadExpansionIntent, IsAttempt, NamesOf, TreePath, WellFormed, DirOf, Apart, FoldersStand, SomeLeft,
         Threatens, Safe,
         Names, SpokenFor, IsThere;
    SoundIsSafe(s, {});
    CommitKeepsUploads(s, s', staging, added);
    forall id | id in added ensures added[id].name in Placed(s.tree, staging) { NamesOfRows(added, id); }
    CommitMatches(s, s', staging, added);
    forall u | u in s'.inFlight ensures IsThere(s', u) && !SpokenFor(s', u) {
      NobodySpeaksAnew(s, CommitRows(staging, added), s', u);
    }
    assert UploadsBacked(s');
    QuietKeepsOwned(s, s');
  }

  lemma CommitMatches(s: Sections, s': Sections, staging: string, added: map<nat, Attachment>)
    requires Sound(s) && Step(s, CommitRows(staging, added), s')
    requires forall id :: id in added ==> added[id].name in Placed(s.tree, staging)
    ensures RowsBacked(s') && RowsMatch(s')
  {
    hide ReadExpansionIntent, IsAttempt, NamesOf, TreePath, WellFormed, DirOf, Apart, FoldersStand, SomeLeft,
         Threatens, Safe, Names, SpokenFor, IsThere, UploadsBacked, IsDotName, IsPlain, Under;
    forall i, j | i in added && j in s.rows ensures added[i].name != s.rows[j].name {
    }
    forall x, id | IsAttempt(x) && x != staging && id in added ensures added[id].name !in Placed(s.tree, x) {
      if added[id].name in Placed(s.tree, x) { NamesApart(s.tree, x, staging, added[id].name, added[id].name); }
    }
  }

  // ---- A move ----

  /** An attempt that placed something has its folder. */
  lemma FolderTaken(s: Sections, y: string)
    requires Sound(s) && IsAttempt(y) && Placed(s.tree, y) != []
    ensures ReadExpansionIntent(s.tree, y).value.dir in s.tree
  {
    hide ReadExpansionIntent, IsAttempt, NamesOf, TreePath, DirOf, Apart, FoldersStand, Threatens, Safe, WellFormed,
         RowsBacked, RowsMatch, UploadsBacked;
    assert SomeLeft(s.tree, y);
    SafeParts(s);
    PlacedLiesInItsFolder(s.tree, y);
    var n :| n in Placed(s.tree, y) && IsFile(s.tree, n);
    var dir := ReadExpansionIntent(s.tree, y).value.dir;
    if n != dir { FolderOnTheWay(s.tree, n, dir); }
  }

  /** No folder another attempt needs is among what a move brings. */
  lemma MoveSparesFolders(s: Sections, s': Sections, staging: string, y: string, m: string)
    requires Sound(s) && Step(s, Move(staging), s') && IsAttempt(y) && y != staging && m in Placed(s.tree, y)
    ensures !IsFile(s'.tree, DirOf(m))
  {
    hide ReadExpansionIntent, IsAttempt, NamesOf, TreePath, DirOf, Apart, Threatens, Safe, WellFormed, IsDotName, Under,
         RowsBacked, RowsMatch, UploadsBacked;
    PlacedArePlain(s.tree, y);
    assert FoldersStand(s.tree, y);
    if IsFile(s'.tree, DirOf(m)) && DirOf(m) !in s.tree {
      PlacedLiesInItsFolder(s.tree, y);
      IntentsAreTrusted(s.tree, staging);
      TrustedFolder(ReadExpansionIntent(s.tree, staging).value);
      UnderOne(ReadExpansionIntent(s.tree, staging).value.dir, ReadExpansionIntent(s.tree, y).value.dir, DirOf(m));
      FolderTaken(s, y);
    }
  }

  lemma MovesApart(s: Sections, s': Sections, staging: string)
    requires Sound(s) && Step(s, Move(staging), s')
    ensures Apart(s'.tree)
  {
    hide ReadExpansionIntent, IsAttempt, NamesOf, TreePath, DirOf, Threatens, Safe, WellFormed, IsDotName, Under,
         FoldersStand, SomeLeft, RowsBacked, RowsMatch, UploadsBacked;
    forall y | IsAttempt(y) && y != staging && Placed(s'.tree, y) != []
      ensures ReadExpansionIntent(s'.tree, y).value.dir != ReadExpansionIntent(s'.tree, staging).value.dir
    {
      FolderTaken(s, y);
    }
  }

  /** No row speaks yet for what a move places. */
  lemma MoveMatches(s: Sections, s': Sections, staging: string)
    requires Sound(s) && Step(s, Move(staging), s')
    ensures RowsBacked(s') && RowsMatch(s')
  {
    hide ReadExpansionIntent, IsAttempt, NamesOf, TreePath, DirOf, Threatens, Safe, WellFormed, IsDotName, Under, Apart,
         FoldersStand, SomeLeft, UploadsBacked, Names;
    SafeParts(s);
    forall id | id in s.rows ensures IsPlain(s.rows[id].name) { NamesOfRows(s.rows, id); }
    forall id | id in s.rows ensures s.rows[id].name !in NamesOf(ReadExpansionIntent(s.tree, staging).value) {
      if s.rows[id].name in NamesOf(ReadExpansionIntent(s.tree, staging).value) {
        MoveThreatensNobody(s.tree, staging, s.rows[id].name, s.rows[id].name);
      }
    }
  }

  lemma MoveKeepsOwned(s: Sections, s': Sections, staging: string)
    requires Sound(s) && Step(s, Move(staging), s')
    ensures Sound(s')
  {
    hide ReadExpansionIntent, IsAttempt, NamesOf, TreePath, DirOf, Threatens, Safe, WellFormed, IsDotName, Under, Apart,
         RowsBacked, RowsMatch, SpokenFor, IsThere;
    SoundIsSafe(s, {});
    SafeParts(s);
    MoveKeepsUploads(s, s', staging);
    SafeParts(s');
    MovesApart(s, s', staging);
    MoveMatches(s, s', staging);
    StillUnspoken(s, s');
    forall x | IsAttempt(x) ensures FoldersStand(s'.tree, x) {
      forall n | n in Placed(s'.tree, x) ensures !IsFile(s'.tree, DirOf(n)) {
        if x == staging { FilesHaveFolders(s'.tree, n); } else { MoveSparesFolders(s, s', staging, x, n); }
      }
    }
    forall x | IsAttempt(x) && Placed(s'.tree, x) != [] ensures SomeLeft(s'.tree, x) {
      if x == staging {
        assert Placed(s'.tree, x)[0] in Placed(s'.tree, x);
      } else {
        assert SomeLeft(s.tree, x);
        PlacedArePlain(s.tree, x);
      }
    }
  }

  // ---- A delete ----

  /** No upload in flight has a name the delete takes, and no other row does. */
  lemma DeletesSpareTheRest(s: Sections, ids: set<nat>, files: seq<string>)
    requires Sound(s) && ids <= s.rows.Keys
    requires forall f :: f in files <==> exists id :: id in ids && s.rows[id].name == f
    ensures forall f :: f in files ==> IsFile(s.tree, f) && IsPlain(f) && !IsFile(s.tree, DirOf(f))
    ensures forall id :: id in s.rows && id !in ids ==> s.rows[id].name !in files
    ensures forall u :: u in s.inFlight ==> s.inFlight[u] !in files
  {
    hide ReadExpansionIntent, IsAttempt, NamesOf, TreePath, DirOf, Threatens, WellFormed, IsPlain, Apart, Placed,
         FoldersStand, SomeLeft, RowsMatch, IsThere;
    SafeParts(s);
    forall f | f in files ensures IsFile(s.tree, f) && IsPlain(f) && !IsFile(s.tree, DirOf(f)) {
      var id :| id in ids && s.rows[id].name == f;
      NamesOfRows(s.rows, id);
      FilesHaveFolders(s.tree, f);
    }
    forall u | u in s.inFlight ensures s.inFlight[u] !in files {
      assert !SpokenFor(s, u);
    }
  }

  lemma RemovalKeepsOwned(s: Sections, ids: set<nat>, files: seq<string>, order: seq<string>)
    requires Sound(s) && ids <= s.rows.Keys
    requires forall f :: f in files <==> exists id :: id in ids && s.rows[id].name == f
    requires forall x :: IsAttempt(x) && Emptied(s.rows, ids, x) ==> x in order
    ensures SoundBut(Sections(WithoutFiles(s.tree, files), s.rows - ids, s.inFlight), (set x | x in order))
  {
    hide ReadExpansionIntent, IsAttempt, NamesOf, TreePath, DirOf, Threatens, WellFormed, IsPlain, Apart, WithoutFiles,
         SpokenFor, HasContent, IsDotName, Emptied, Placing, Placed, Names;
    DeletesSpareTheRest(s, ids, files);
    var s0 := s.(rows := s.rows - ids);
    var s1 := s0.(tree := WithoutFiles(s.tree, files));
    assert Safe(s0);
    RemovalTakes(s0, files);
    SameAttemptsPlaceAlike(s.tree, s1.tree);
    ApartStays(s.tree, s1.tree);
    RemovingFilesTakes(s.tree, files);
    StillUnspoken(s, s1);
    forall x | IsAttempt(x) ensures FoldersStand(s1.tree, x) {
      assert FoldersStand(s.tree, x);
    }
    forall x | IsAttempt(x) && x !in order && Placed(s1.tree, x) != [] ensures SomeLeft(s1.tree, x) {
      SomeLeftAfter(s, ids, files, x, s1.tree);
    }
  }

  /** An attempt that keeps a row keeps that row's file; one that has none loses nothing. */
  lemma SomeLeftAfter(s: Sections, ids: set<nat>, files: seq<string>, x: string, t': Tree)
    requires Sound(s) && ids <= s.rows.Keys && IsAttempt(x) && Placed(s.tree, x) != [] && !Emptied(s.rows, ids, x)
    requires forall f :: f in files <==> exists id :: id in ids && s.rows[id].name == f
    requires forall p :: IsFile(s.tree, p) && p !in files ==> IsFile(t', p)
    requires Placed(t', x) == Placed(s.tree, x)
    ensures SomeLeft(t', x)
  {
    hide ReadExpansionIntent, IsAttempt, NamesOf, TreePath, DirOf, Threatens, WellFormed, IsPlain, Apart, Safe, Placed,
         FoldersStand, UploadsBacked, IsFile;
    DeletesSpareTheRest(s, ids, files);
    if id :| id in s.rows && s.rows[id].attempt == Some(x) && id !in ids {
      assert s.rows[id].name in Placed(s.tree, x);
    } else {
      assert SomeLeft(s.tree, x);
      var n :| n in Placed(s.tree, x) && IsFile(s.tree, n);
      if n in files {
        var id :| id in ids && s.rows[id].name == n;
        assert s.rows[id].attempt == Some(x);
      }
    }
  }

  lemma PruningKeepsOwned(s: Sections, files: seq<string>)
    requires Sound(s)
    requires forall f :: f in files ==> IsPlain(f) && !IsFile(s.tree, DirOf(f))
    ensures Sound(s.(tree := PruneAll(s.tree, PruneOrder(files))))
  {
    hide ReadExpansionIntent, IsAttempt, NamesOf, TreePath, DirOf, Threatens, WellFormed, IsPlain, Apart, PruneAll,
         PruneOrder, FoldersStand, SomeLeft, SpokenFor;
    var s' := s.(tree := PruneAll(s.tree, PruneOrder(files)));
    PruningTakes(s, files);
    SameAttemptsPlaceAlike(s.tree, s'.tree);
    PruneIsExact(s.tree, PruneOrder(files));
    StillUnspoken(s, s');
    QuietKeepsOwned(s, s');
  }

  lemma DeleteKeepsOwned(s: Sections, s': Sections, ids: set<nat>, files: seq<string>, order: seq<string>)
    requires Sound(s) && Step(s, DeleteRows(ids, files, order), s')
    ensures Sound(s')
  {
    hide ReadExpansionIntent, IsAttempt, NamesOf, TreePath, DirOf, WellFormed, IsPlain, Apart, PruneAll, WithoutFiles,
         PruneOrder, FoldersStand, SomeLeft, Emptied, SettleEach, Safe, Names, RowsBacked, RowsMatch, UploadsBacked;
    DeletesSpareTheRest(s, ids, files);
    RemovalKeepsOwned(s, ids, files, order);
    var rows := s.rows - ids;
    var s1 := Sections(WithoutFiles(s.tree, files), rows, s.inFlight);
    var s2 := s1.(tree := SettleEach(s1.tree, Names(rows), order));
    SettlingKeepsOwned(s1, (set x | x in order), order);
    SafeParts(s);
    SafeParts(s1);
    EachIsSettled(s1.tree, Names(rows), order);
    RemovingFilesTakes(s.tree, files);
    PruningKeepsOwned(s2, files);
  }

  // ---- Sections that die ----

  /** The attempt has an intent a settle would go by, and none of the files it placed. */
  predicate IsStranded(t: Tree, x: string) {
    IsAttempt(x) && Placed(t, x) != [] && !SomeLeft(t, x)
  }

  /** What the step leaves undone: a placement it took back whole without its intent, or a row without a file. */
  ghost predicate LeavesUndone(a: Action, s': Sections) {
    match a
    case TakeBack(staging) => IsStranded(s'.tree, staging)
    case SettleDies(_, staging) => IsStranded(s'.tree, staging)
    case DeleteDies(_, _, order) => !RowsBacked(s') || exists x :: x in order && IsStranded(s'.tree, x)
    case _ => false
  }

  /** Removals that die on the way keep what they would keep in the end, but for attempts they strand. */
  lemma BetweenKeepsOwned(s: Sections, low: Tree, s': Sections, but: set<string>)
    requires Sound(s) && WellFormed(s'.tree) && s' == s.(tree := s'.tree) && Between(low, s'.tree, s.tree)
    requires forall x :: IsAttempt(x) && TreePath(x) in s.tree ==> TreePath(x) in low
    requires forall u :: u in s.inFlight ==> IsThere(s.(tree := low), u)
    requires forall x :: IsAttempt(x) && x !in but && Placed(s'.tree, x) != [] ==> SomeLeft(s'.tree, x)
    requires forall x :: IsAttempt(x) && x in but ==> !IsStranded(s'.tree, x)
    requires RowsBacked(s')
    ensures Sound(s')
  {
    hide ReadExpansionIntent, IsAttempt, NamesOf, DirOf, TreePath, Safe, SpokenFor, IsThere, WellFormed;
    SoundIsSafe(s, {});
    BetweenKeepsUploads(s, low, s');
    forall x | IsAttempt(x) && Placed(s'.tree, x) != []
      ensures Placed(s'.tree, x) == Placed(s.tree, x)
              && ReadExpansionIntent(s'.tree, x) == ReadExpansionIntent(s.tree, x)
    {
      assert Placing(s'.tree, x);
    }
    ApartStays(s.tree, s'.tree);
    StillUnspoken(s, s');
    FoldersStillStand(s, s');
  }

  lemma FoldersStillStand(s: Sections, s': Sections)
    requires Sound(s) && forall p :: p in s'.tree ==> p in s.tree && s'.tree[p] == s.tree[p]
    requires forall x :: IsAttempt(x) && Placed(s'.tree, x) != [] ==> Placed(s'.tree, x) == Placed(s.tree, x)
    ensures forall x :: IsAttempt(x) ==> FoldersStand(s'.tree, x)
  {
    hide ReadExpansionIntent, IsAttempt, NamesOf, DirOf, TreePath, Safe, Placed, Apart, RowsBacked, RowsMatch,
         UploadsBacked, SomeLeft;
    forall x | IsAttempt(x) ensures FoldersStand(s'.tree, x) {
      assert FoldersStand(s.tree, x);
    }
  }

  /** A settle that dies keeps what is owned exactly when it leaves its attempt no intent, or some file. */
  lemma SettleDiesKeepsOwned(s: Sections, s': Sections, order: seq<string>, staging: string)
    requires Sound(s) && Step(s, SettleDies(order, staging), s')
    ensures Sound(s') <==> !IsStranded(s'.tree, staging)
  {
    hide ReadExpansionIntent, IsAttempt, NamesOf, DirOf, TreePath, Settle, SettleEach, WellFormed, Safe, Apart, Names,
         Placed, SomeLeft, RowsMatch, FoldersStand, SpokenFor;
    var s1 := s.(tree := SettleEach(s.tree, Names(s.rows), order));
    SettlingKeepsOwned(s, {}, order);
    var low := Settle(s1.tree, Names(s.rows), staging);
    SettleKeepsOwned(s1, {}, staging);
    SafeParts(s1);
    SettleIsFinal(s1.tree, Names(s.rows), staging);
    forall x | IsAttempt(x) && x != staging ensures Placed(low, x) == Placed(s1.tree, x) {
      PlacedAlike(s1.tree, low, x);
    }
    forall x | IsAttempt(x) && x != staging && Placed(s'.tree, x) != []
      ensures SomeLeft(s'.tree, x)
    {
      PlacedBefore(low, s'.tree, s1.tree, x);
      LeftBefore(low, s'.tree, s1.tree, x);
    }
    if !IsStranded(s'.tree, staging) {
      BetweenKeepsOwned(s1, low, s', {staging});
    }
  }

  lemma PlacedAlike(t: Tree, t': Tree, x: string)
    requires ReadExpansionIntent(t', x) == ReadExpansionIntent(t, x) && (TreePath(x) in t' <==> TreePath(x) in t)
    ensures Placed(t', x) == Placed(t, x)
  {
  }

  lemma PlacedBefore(low: Tree, t: Tree, high: Tree, x: string)
    requires WellFormed(high) && Between(low, t, high) && IsAttempt(x) && (TreePath(x) in high ==> TreePath(x) in low)
    ensures Placed(t, x) != [] ==> Placed(high, x) == Placed(t, x)
  {
    hide ReadExpansionIntent, IsAttempt, NamesOf, TreePath, WellFormed;
    BetweenReads(low, t, high, x);
  }

  lemma LeftBefore(low: Tree, t: Tree, high: Tree, x: string)
    requires Between(low, t, high) && low.Keys <= t.Keys && (forall p :: p in low ==> low[p] == high[p])
    requires Placed(t, x) == Placed(low, x) && SomeLeft(low, x)
    ensures SomeLeft(t, x)
  {
    hide Placed;
    var n :| n in Placed(low, x) && IsFile(low, n);
    assert n in low && n in t && t[n] == low[n];
  }

  /** A take-back is a settle that dies, as no row speaks for what it takes: the same exactly. */
  lemma TakeBackKeepsOwned(s: Sections, s': Sections, staging: string)
    requires Sound(s) && Step(s, TakeBack(staging), s')
    ensures Sound(s') <==> !IsStranded(s'.tree, staging)
  {
    hide ReadExpansionIntent, IsAttempt, NamesOf, DirOf, TreePath, Safe, Apart, WellFormed, FoldersStand, SomeLeft,
         UploadsBacked;
    SafeParts(s);
    ATakeBackLooksLikeADeadSettle(s, s', staging);
    SettleDiesKeepsOwned(s, s', [], staging);
  }

  lemma NoFolderIsAnUpload(s: Sections, files: seq<string>, u: nat)
    requires IsThere(s, u) && s.inFlight[u] !in files && forall f :: f in files ==> !IsFile(s.tree, DirOf(f))
    ensures !Takes(files, s.inFlight[u])
  {
    hide DirOf;
  }

  /** Settling others, in any order, leaves what an attempt placed. */
  lemma {:induction false} EachSparesOthers(s: Sections, order: seq<string>, x: string, n: string)
    requires WellFormed(s.tree) && Apart(s.tree) && AllAttempts(order) && IsAttempt(x) && x !in order
    requires n in Placed(s.tree, x) && IsFile(s.tree, n)
    ensures IsFile(SettleEach(s.tree, Names(s.rows), order), n)
  {
    hide ReadExpansionIntent, IsAttempt, NamesOf, DirOf, TreePath, Settle, WellFormed, Apart, Names;
    if order != [] {
      var before, last := order[..|order| - 1], order[|order| - 1];
      assert order == before + [last];
      EachSparesOthers(s, before, x, n);
      var s1 := s.(tree := SettleEach(s.tree, Names(s.rows), before));
      EachIsSettled(s.tree, Names(s.rows), before);
      ApartStays(s.tree, s1.tree);
      SettleSparesOthers(s1, x, last, n);
    }
  }

  /** An attempt the delete does not settle keeps a file: a row's, or one no row speaks for. */
  lemma DyingSparesOthers(s: Sections, s': Sections, ids: set<nat>, files: seq<string>, order: seq<string>, x: string)
    requires Sound(s) && Step(s, DeleteDies(ids, files, order), s') && RowsBacked(s')
    requires IsAttempt(x) && x !in order && Placed(s'.tree, x) == Placed(s.tree, x) && Placed(s.tree, x) != []
    ensures SomeLeft(s'.tree, x)
  {
    hide ReadExpansionIntent, IsAttempt, NamesOf, DirOf, TreePath, WellFormed, Safe, Apart, Placed, RowsMatch, IsPlain,
         FoldersStand, DeletedTree, UploadsBacked, Threatens;
    assert SomeLeft(s.tree, x);
    var n :| n in Placed(s.tree, x) && IsFile(s.tree, n);
    if n in files {
      var id :| id in ids && s.rows[id].name == n;
      assert IsFile(s'.tree, s'.rows[id].name);
    } else {
      DeletedTreeSpares(s, ids, files, order, x, n);
    }
  }

  lemma DeletedTreeSpares(s: Sections, ids: set<nat>, files: seq<string>, order: seq<string>, x: string, n: string)
    requires Sound(s) && ids <= s.rows.Keys && AllAttempts(order)
    requires forall f :: f in files <==> exists id :: id in ids && s.rows[id].name == f
    requires IsAttempt(x) && x !in order && n in Placed(s.tree, x) && IsFile(s.tree, n) && n !in files
    ensures n in DeletedTree(s, ids, files, order)
  {
    hide ReadExpansionIntent, IsAttempt, NamesOf, DirOf, TreePath, WellFormed, Safe, Placed, RowsMatch, IsPlain,
         FoldersStand, UploadsBacked, RowsBacked, SettleEach, WithoutFiles, PruneAll, PruneOrder, Names, SomeLeft,
         Apart;
    SafeParts(s);
    DeletesSpareTheRest(s, ids, files);
    RowsArePlain(s, ids, files);
    RemovingFilesTakes(s.tree, files);
    var s0 := s.(rows := s.rows - ids);
    assert Safe(s0) by { FewerRowsAreSafe(s, ids); }
    RemovalTakes(s0, files);
    var s1 := s0.(tree := WithoutFiles(s.tree, files));
    SameAttemptsPlaceAlike(s.tree, s1.tree);
    ReadAlike(s.tree, s1.tree);
    ApartStays(s.tree, s1.tree);
    EachSparesOthers(s1, order, x, n);
    var t2 := SettleEach(s1.tree, Names(s1.rows), order);
    EachIsSettled(s1.tree, Names(s1.rows), order);
    PruneIsExact(t2, PruneOrder(files));
  }

  lemma FewerRowsAreSafe(s: Sections, ids: set<nat>)
    requires Safe(s)
    ensures Safe(s.(rows := s.rows - ids))
  {
    hide IsAttempt, Threatens, IsPlain, WellFormed;
  }

  lemma ReadAlike(t: Tree, t': Tree)
    requires SameAttempts(t, t')
    ensures forall x :: IsAttempt(x) ==> ReadExpansionIntent(t', x) == ReadExpansionIntent(t, x)
  {
    hide ReadExpansionIntent, IsAttempt, TreePath;
  }

  /** A delete that dies keeps what is owned exactly when it has taken no file of a row and strands no attempt. */
  lemma DeleteDiesKeepsOwned(s: Sections, s': Sections, ids: set<nat>, files: seq<string>, order: seq<string>)
    requires Sound(s) && Step(s, DeleteDies(ids, files, order), s')
    ensures Sound(s') <==> RowsBacked(s') && forall x :: x in order ==> !IsStranded(s'.tree, x)
  {
    hide ReadExpansionIntent, IsAttempt, NamesOf, DirOf, TreePath, WellFormed, Safe, Apart, Names, Placed, SomeLeft,
         RowsMatch, FoldersStand, RowsBacked, DeletedTree, HasContent, IsPlain, SpokenFor;
    if RowsBacked(s') && forall x :: x in order ==> !IsStranded(s'.tree, x) {
      var low := DeletedTree(s, ids, files, order);
      SoundIsSafe(s, {});
      SafeParts(s);
      RowsArePlain(s, ids, files);
      DeletedTreeTakes(s, ids, files, order);
      DeletesSpareTheRest(s, ids, files);
      forall u | u in s.inFlight ensures IsThere(s.(tree := low), u) {
        NoFolderIsAnUpload(s, files, u);
      }
      forall x | IsAttempt(x) && x !in order && Placed(s'.tree, x) != [] ensures SomeLeft(s'.tree, x) {
        PlacedBefore(low, s'.tree, s.tree, x);
        DyingSparesOthers(s, s', ids, files, order, x);
      }
      BetweenKeepsOwned(s, low, s', (set x | x in order));
    }
  }

  // ---- Every run ----

  /** Every step but a drop that leaves only the intent keeps rows and uploads backed by files exactly when it
      leaves nothing undone. */
  lemma StepKeepsOwned(s: Sections, a: Action, s': Sections)
    requires Sound(s) && Step(s, a, s') && !LeavesOnlyTheIntent(s, a)
    ensures Sound(s') <==> !LeavesUndone(a, s')
  {
    hide Sound, Step, LeavesOnlyTheIntent, IsStranded, RowsBacked;
    match a
    case BeginUpload(u, p, order) => BeginKeepsOwned(s, s', u, p, order);
    case FinishUpload(u, id) => FinishKeepsOwned(s, s', u, id);
    case AbandonUpload(u) => AbandonKeepsOwned(s, s', u);
    case Stage(staging) => StageKeepsOwned(s, s', staging);
    case WriteIntent(staging, content) => WriteKeepsOwned(s, s', staging, content);
    case Move(staging) => MoveKeepsOwned(s, s', staging);
    case CommitRows(staging, added) => CommitKeepsOwned(s, s', staging, added);
    case DropSome(staging, gone) => DropKeepsOwned(s, s', staging, gone);
    case SettleSome(order) => SettleSomeKeepsOwned(s, s', order);
    case TakeBack(staging) => TakeBackKeepsOwned(s, s', staging);
    case SettleDies(order, staging) => SettleDiesKeepsOwned(s, s', order, staging);
    case DeleteRows(ids, files, order) => DeleteKeepsOwned(s, s', ids, files, order);
    case DeleteDies(ids, files, order) => DeleteDiesKeepsOwned(s, s', ids, files, order);
  }

  lemma SettleSomeKeepsOwned(s: Sections, s': Sections, order: seq<string>)
    requires Sound(s) && Step(s, SettleSome(order), s')
    ensures Sound(s')
  {
    hide SoundBut;
    SettlingKeepsOwned(s, {}, order);
  }

  /** Where nothing is under way and every row has its file. */
  ghost predicate Starts(s: Sections) {
    Quiet(s) && RowsBacked(s) && forall x :: IsAttempt(x) ==> ReadExpansionIntent(s.tree, x).None?
  }

  /** Over every run whose drops take intents first and whose sections leave nothing undone, every row and every
      upload in flight has its file at every moment, through any settles, deletes, moves and uploads. */
  lemma {:induction false} NothingOwnedIsEverTaken(states: seq<Sections>, actions: seq<Action>, i: nat)
    requires Run(states, actions) && i < |states| && Starts(states[0]) && IntentsGoFirst(states, actions, i)
    requires forall k :: 0 <= k < i ==> !LeavesUndone(actions[k], states[k + 1])
    ensures Sound(states[i])
    ensures forall id :: id in states[i].rows ==> IsFile(states[i].tree, states[i].rows[id].name)
    ensures forall u :: u in states[i].inFlight ==> IsThere(states[i], u)
  {
    hide Step, ReadExpansionIntent, IsAttempt, DirOf, NamesOf, TreePath, LeavesOnlyTheIntent, Safe, SpokenFor, IsThere;
    if i > 0 {
      NothingOwnedIsEverTaken(states, actions, i - 1);
      StepKeepsOwned(states[i - 1], actions[i - 1], states[i]);
    } else {
      QuietIsSafe(states[0]);
    }
  }
}
