/** Why take-backs, and settles that die, can endanger what is owned: runs in which a settle takes a file a
    row owns. An attempt's files are taken back, its folder is free again, another attempt puts a file where
    the first one needs a folder, and only then is the first attempt settled. */
module TakeBackRace {
  import opened Options
  import opened JsText
  import opened UploadPaths
  import opened Pruning
  import opened ExpansionSettling
  import opened UploadSections
  import opened OwnedUploads

  const FOLDER := "spec"
  const SUB := "spec/sub"
  const DEEP := "spec/sub/x"
  const FIRST := IntentText("spec", ["sub/x"])
  const SECOND := IntentText("spec", ["sub"])

  // ---- The names involved are clean ----

  lemma NoSlash(p: string)
    requires '/' !in p
    ensures DirOf(p) == "" && BaseOf(p) == p
  {
  }

  lemma PlainSegment(s: string)
    requires s != "" && |s| <= 200 && forall c :: c in s ==> 'a' <= c <= 'z'
    ensures IsCleanSegment(s)
  {
    assert s[0] in s && s[|s| - 1] in s;
  }

  lemma PlainWordsAreClean(s: string)
    requires s != "" && |s| <= 200 && forall c :: c in s ==> 'a' <= c <= 'z'
    ensures IsClean(s)
  {
    hide IsClean, IsCleanSegment;
    PlainSegment(s);
    assert IsMadeOf(s, [s]);
    CleanNamesAreMadeSo(s);
  }

  lemma TwoSegmentsAreClean()
    ensures IsClean("sub/x")
  {
    hide IsClean, IsCleanSegment;
    PlainSegment("sub");
    PlainSegment("x");
    assert ["sub", "x"][1..] == ["x"] && "sub/x" == "sub" + ['/'] + "x";
    assert IsMadeOf("sub/x", ["sub", "x"]);
    CleanNamesAreMadeSo("sub/x");
  }

  lemma BaseOfChild(dir: string, base: string)
    requires '/' !in base
    ensures BaseOf(dir + "/" + base) == base
  {
    var p := dir + "/" + base;
    assert p[|dir|] == '/';
    forall i | |dir| < i < |p| ensures p[i] != '/' { assert p[i] == base[i - |dir| - 1]; }
    assert LastSlash(p) == |dir|;
  }

  lemma Folders()
    ensures DirOf(FOLDER) == "" && DirOf(SUB) == FOLDER && DirOf(DEEP) == SUB
    ensures BaseOf("sub") == "sub" && BaseOf("sub/x") == "x"
  {
    hide DirOf, BaseOf, LastSlash;
    NoSlash("spec");
    NoSlash("sub");
    assert SUB == "spec" + "/" + "sub" && DEEP == SUB + "/" + "x" && "sub/x" == "sub" + "/" + "x";
    DirOfChild("spec", "sub");
    DirOfChild(SUB, "x");
    BaseOfChild("sub", "x");
  }

  lemma BothAreTrusted()
    ensures Trusted(Intent("spec", ["sub/x"])) && Trusted(Intent("spec", ["sub"]))
    ensures NamesOf(Intent("spec", ["sub/x"])) == [DEEP] && NamesOf(Intent("spec", ["sub"])) == [SUB]
  {
    hide IsClean, LastSlash, BaseOf, DirOf;
    PlainWordsAreClean("spec");
    PlainWordsAreClean("sub");
    TwoSegmentsAreClean();
    Folders();
    assert DEEP == "spec" + "/" + "sub/x" && SUB == "spec" + "/" + "sub";
  }

  // ---- The paths of two attempts ----

  /** What the trees below need of one attempt's names. */
  lemma OwnPaths(a: string)
    requires IsAttempt(a)
    ensures DirOf(a) == "" && DirOf(TreePath(a)) == a && DirOf(IntentPath(a)) == a
    ensures IsDotName(a) && IsDotName(TreePath(a)) && IsDotName(IntentPath(a))
    ensures a != "." && |TreePath(a)| > 1 && |IntentPath(a)| > 1
    ensures a != TreePath(a) && a != IntentPath(a) && TreePath(a) != IntentPath(a)
    ensures !IsDotName(FOLDER) && !IsDotName(SUB) && !IsDotName(DEEP)
  {
    AttemptPaths(a, a);
    assert TreePath(a) == a + "/" + "tree" && IntentPath(a) == a + "/" + EXPANSION_INTENT_FILE;
    DirOfChild(a, "tree");
    DirOfChild(a, EXPANSION_INTENT_FILE);
    AttemptNamesAreDotNames(a);
  }

  lemma TwoPaths(a: string, x: string)
    requires IsAttempt(a) && IsAttempt(x)
    ensures TreePath(a) != x && TreePath(a) != IntentPath(x) && x != IntentPath(a)
    ensures a != x ==> TreePath(a) != TreePath(x) && IntentPath(a) != IntentPath(x)
  {
    AttemptPaths(a, x);
    AttemptPaths(x, a);
    OwnPaths(a);
    OwnPaths(x);
    AttemptNamesAreDotNames(x);
    hide ExpansionAttemptArchiveId, DirOf;
    assert TreePath(a)[|a|] == '/' && '/' in TreePath(a);
  }

  lemma Reads(t: Tree, x: string, dir: string, files: seq<string>)
    requires IsAttempt(x) && x in t && t[x].Dir?
    requires HasContent(t, IntentPath(x), IntentText(dir, files))
    requires Trusted(Intent(dir, files))
    ensures ReadExpansionIntent(t, x) == Some(Intent(dir, files))
  {
    AttemptPaths(x, x);
  }

  lemma ReadsNothing(t: Tree, x: string)
    requires IsAttempt(x) && IntentPath(x) !in t
    ensures ReadExpansionIntent(t, x).None?
  {
  }

  lemma ReadsAlike(t: Tree, t': Tree, x: string)
    requires IsAttempt(x)
    requires forall q :: q == x || q == IntentPath(x) ==> (q in t <==> q in t') && (q in t ==> t[q] == t'[q])
    ensures ReadExpansionIntent(t, x) == ReadExpansionIntent(t', x)
  {
    AttemptPaths(x, x);
  }

  // ---- The trees of the run ----

  ghost function Staged(a: string, b: string): Tree {
    map[a := Dir, b := Dir, TreePath(a) := Dir, TreePath(b) := Dir]
  }

  ghost function Written(a: string, b: string): Tree {
    Staged(a, b)[IntentPath(a) := File(FIRST)]
  }

  ghost function Moved(a: string, b: string): Tree {
    TakenAway(a, b)[FOLDER := Dir][SUB := Dir][DEEP := File(Bytes)]
  }

  ghost function TakenAway(a: string, b: string): Tree {
    Written(a, b) - {TreePath(a)}
  }

  ghost function WrittenAgain(a: string, b: string): Tree {
    TakenAway(a, b)[IntentPath(b) := File(SECOND)]
  }

  ghost function MovedAgain(a: string, b: string): Tree {
    (WrittenAgain(a, b) - {TreePath(b)})[FOLDER := Dir][SUB := File(Bytes)]
  }

  lemma Added(t: Tree, p: string, node: Node)
    requires WellFormed(t) && p !in t && p != "" && p != "."
    requires DirOf(p) == "" || (DirOf(p) in t && t[DirOf(p)].Dir?)
    ensures WellFormed(t[p := node])
  {
  }

  lemma Dropped(t: Tree, p: string)
    requires WellFormed(t) && forall q :: q in t ==> DirOf(q) != p
    ensures WellFormed(t - {p})
  {
  }

  lemma AllWellFormed(a: string, b: string)
    requires IsAttempt(a) && IsAttempt(b) && a != b
    ensures WellFormed(Staged(a, b)) && WellFormed(Written(a, b)) && WellFormed(Moved(a, b))
    ensures WellFormed(TakenAway(a, b)) && WellFormed(WrittenAgain(a, b)) && WellFormed(MovedAgain(a, b))
  {
    hide IsAttempt, DirOf, TreePath, IntentPath, WellFormed;
    OwnPaths(a);
    OwnPaths(b);
    TwoPaths(a, b);
    TwoPaths(b, a);
    Folders();
    Nothing();
    Added(map[], a, Dir);
    Added(map[a := Dir], b, Dir);
    Added(map[a := Dir, b := Dir], TreePath(a), Dir);
    Added(map[a := Dir, b := Dir, TreePath(a) := Dir], TreePath(b), Dir);
    Added(Staged(a, b), IntentPath(a), File(FIRST));
    Dropped(Written(a, b), TreePath(a));
    var t := TakenAway(a, b);
    Added(t, FOLDER, Dir);
    Added(t[FOLDER := Dir], SUB, Dir);
    Added(t[FOLDER := Dir][SUB := Dir], DEEP, File(Bytes));
    Added(t, IntentPath(b), File(SECOND));
    Dropped(WrittenAgain(a, b), TreePath(b));
    var u := WrittenAgain(a, b) - {TreePath(b)};
    Added(u, FOLDER, Dir);
    Added(u[FOLDER := Dir], SUB, File(Bytes));
  }

  lemma Nothing()
    ensures WellFormed(map[])
  {
  }

  // ---- The steps ----

  /** A move takes away a staged tree and adds names that start with no dot. */
  lemma MovesReadAlike(t: Tree, t': Tree, a: string)
    requires IsAttempt(a)
    requires forall q :: IsDotName(q) && q != TreePath(a) ==> (q in t <==> q in t') && (q in t ==> t[q] == t'[q])
    ensures forall x :: IsAttempt(x) ==> ReadExpansionIntent(t', x) == ReadExpansionIntent(t, x)
    ensures forall x :: IsAttempt(x) && x != a ==> (TreePath(x) in t' <==> TreePath(x) in t)
  {
    hide IsAttempt, DirOf, TreePath, IntentPath, ReadExpansionIntent, IsDotName;
    forall x | IsAttempt(x)
      ensures ReadExpansionIntent(t', x) == ReadExpansionIntent(t, x)
      ensures x != a ==> (TreePath(x) in t' <==> TreePath(x) in t)
    {
      OwnPaths(x);
      TwoPaths(a, x);
      ReadsAlike(t, t', x);
    }
  }

  /** `t'` is `t` after a move that brought the folder and the file at `n`. */
  ghost predicate AfterMove(t: Tree, t': Tree, a: string, n: string) {
    && TreePath(a) in t && TreePath(a) !in t' && FOLDER !in t && n in t' && t'[n].File?
    && (forall q :: IsDotName(q) && q != TreePath(a) ==> (q in t <==> q in t') && (q in t ==> t[q] == t'[q]))
    && (forall q :: q in t ==> IsDotName(q))
    && (forall q :: q in t' && q !in t ==> Under(FOLDER, q) && (t'[q].Dir? || t'[q] == File(Bytes)))
  }

  lemma AFolderComes(t: Tree, a: string, brought: Tree, n: string)
    requires TreePath(a) in t && IsDotName(TreePath(a)) && (forall q :: q in t ==> IsDotName(q))
    requires FOLDER in brought && n in brought && brought[n].File?
    requires forall q :: q in brought ==> !IsDotName(q) && Under(FOLDER, q)
    requires forall q :: q in brought ==> brought[q].Dir? || brought[q] == File(Bytes)
    ensures AfterMove(t, (t - {TreePath(a)}) + brought, a, n)
  {
  }

  lemma AllDots(a: string, b: string)
    requires IsAttempt(a) && IsAttempt(b) && a != b
    ensures TreePath(a) in Written(a, b) && forall q :: q in Written(a, b) ==> IsDotName(q)
    ensures TreePath(b) in WrittenAgain(a, b) && forall q :: q in WrittenAgain(a, b) ==> IsDotName(q)
  {
    hide IsAttempt, TreePath, IntentPath, IsDotName;
    OwnPaths(a);
    OwnPaths(b);
    TwoPaths(a, b);
    TwoPaths(b, a);
  }

  lemma BothMoves(a: string, b: string)
    requires IsAttempt(a) && IsAttempt(b) && a != b
    ensures AfterMove(Written(a, b), Moved(a, b), a, DEEP)
    ensures AfterMove(WrittenAgain(a, b), MovedAgain(a, b), b, SUB)
  {
    hide IsAttempt, TreePath, IntentPath, Written, WrittenAgain, AfterMove;
    AllDots(a, b);
    var first, second := map[FOLDER := Dir, SUB := Dir, DEEP := File(Bytes)], map[FOLDER := Dir, SUB := File(Bytes)];
    AFolderComes(Written(a, b), a, first, DEEP);
    AFolderComes(WrittenAgain(a, b), b, second, SUB);
    assert Moved(a, b) == (Written(a, b) - {TreePath(a)}) + first;
    assert MovedAgain(a, b) == (WrittenAgain(a, b) - {TreePath(b)}) + second;
  }

  lemma AMoveIsAStep(s: Sections, t': Tree, a: string, file: string, n: string)
    requires IsAttempt(a) && AfterMove(s.tree, t', a, n) && WellFormed(t')
    requires forall id :: id in s.rows ==> s.rows[id].attempt != Some(a)
    requires ReadExpansionIntent(s.tree, a) == Some(Intent("spec", [file])) && NamesOf(Intent("spec", [file])) == [n]
    ensures Step(s, Move(a), s.(tree := t'))
    ensures Placing(t', a) && ReadExpansionIntent(t', a) == Some(Intent("spec", [file]))
  {
    hide IsAttempt, TreePath, IntentPath, ReadExpansionIntent, WellFormed, NamesOf, IsDotName, Under;
    MovesReadAlike(s.tree, t', a);
  }

  lemma FirstMoves(a: string, b: string)
    requires IsAttempt(a) && IsAttempt(b) && a != b
    ensures Step(Sections(Written(a, b), map[], map[]), Move(a), Sections(Moved(a, b), map[], map[]))
    ensures Placing(Moved(a, b), a) && ReadExpansionIntent(Moved(a, b), a) == Some(Intent("spec", ["sub/x"]))
  {
    hide IsAttempt, ReadExpansionIntent, WellFormed, Trusted, NamesOf, AfterMove, Moved, TreePath, IntentPath, Step;
    AllWellFormed(a, b);
    BothAreTrusted();
    BothMoves(a, b);
    FirstIntent(a, b);
    AMoveIsAStep(Sections(Written(a, b), map[], map[]), Moved(a, b), a, "sub/x", DEEP);
  }

  lemma FirstIntent(a: string, b: string)
    requires IsAttempt(a) && IsAttempt(b) && a != b
    ensures ReadExpansionIntent(Written(a, b), a) == Some(Intent("spec", ["sub/x"]))
  {
    hide IsAttempt, ReadExpansionIntent, Trusted, TreePath, IntentPath;
    OwnPaths(a);
    TwoPaths(a, b);
    TwoPaths(b, a);
    BothAreTrusted();
    Reads(Written(a, b), a, "spec", ["sub/x"]);
  }

  lemma WithoutTheFile(a: string, b: string)
    requires IsAttempt(a) && IsAttempt(b) && a != b
    ensures WithoutFiles(Moved(a, b), [DEEP]) == Moved(a, b) - {DEEP} && WellFormed(Moved(a, b) - {DEEP})
  {
    hide IsAttempt, DirOf, TreePath, IntentPath, WellFormed, WithoutFiles, Moved;
    AllWellFormed(a, b);
    DeepIsPlaced(a, b);
    RemovingFilesTakes(Moved(a, b), [DEEP]);
  }

  lemma DeepIsPlaced(a: string, b: string)
    ensures DEEP in Moved(a, b) && Moved(a, b)[DEEP] == File(Bytes)
  {
  }

  lemma LeftOver(a: string, b: string)
    requires IsAttempt(a) && IsAttempt(b) && a != b
    ensures forall q :: q in Moved(a, b) && q != DEEP <==> q in TakenAway(a, b) || q == FOLDER || q == SUB
    ensures forall q :: q in TakenAway(a, b) ==>
              IsDotName(q) && q in Moved(a, b) && Moved(a, b)[q] == TakenAway(a, b)[q]
  {
  }

  /** Taking the placed file back empties both folders, so nothing but the staging directories is left. */
  lemma WhatIsLeft(a: string, b: string)
    requires IsAttempt(a) && IsAttempt(b) && a != b
    ensures PruneAll(WithoutFiles(Moved(a, b), [DEEP]), PruneOrder([DEEP])) == TakenAway(a, b)
  {
    hide IsAttempt, DirOf, TreePath, IntentPath, WellFormed, PruneAll, PruneOrder, WithoutFiles, Moved, TakenAway,
         IsDotName;
    WithoutTheFile(a, b);
    var t := Moved(a, b) - {DEEP};
    BothFoldersGo(a, b, t);
    DotsStay(t);
    LeftOver(a, b);
    var t' := PruneAll(t, PruneOrder([DEEP]));
    assert t'.Keys == TakenAway(a, b).Keys;
    assert t' == TakenAway(a, b);
  }

  lemma FirstIsTakenBack(a: string, b: string)
    requires IsAttempt(a) && IsAttempt(b) && a != b
    ensures Step(Sections(Moved(a, b), map[], map[]), TakeBack(a), Sections(TakenAway(a, b), map[], map[]))
  {
    hide IsAttempt, DirOf, TreePath, IntentPath, ReadExpansionIntent, WellFormed, Trusted, NamesOf, PruneAll,
         PruneOrder,
         WithoutFiles, Moved, TakenAway, Placing;
    AllWellFormed(a, b);
    FirstMoves(a, b);
    BothAreTrusted();
    WhatIsLeft(a, b);
    LeftOver(a, b);
  }

  lemma DotsStay(t: Tree)
    requires WellFormed(t)
    ensures DotsKept(t, PruneAll(t, PruneOrder([DEEP])))
  {
    hide WellFormed, PruneAll, Trusted, ReadExpansionIntent, NamesOf, IsDotName;
    var t' := PruneAll(t, PruneOrder([DEEP]));
    PruneIsExact(t, PruneOrder([DEEP]));
    forall p | p in t && IsDotName(p) ensures p in t' {
      BothAreTrusted();
      DotNamesAreNotTaken(Intent("spec", ["sub/x"]), {}, p);
      OneOrphan();
    }
  }

  lemma OneOrphan()
    ensures Orphans([DEEP], {}) == [DEEP]
  {
  }

  lemma FolderFacts(a: string, b: string)
    requires IsAttempt(a) && IsAttempt(b)
    ensures SUB in Chain(DirOf(DEEP)) && FOLDER in Chain(DirOf(DEEP))
    ensures Moved(a, b)[SUB] == Dir && Moved(a, b)[FOLDER] == Dir
    ensures forall q :: q in Moved(a, b) && q != DEEP ==> DirOf(q) != SUB && (DirOf(q) == FOLDER ==> q == SUB)
  {
    hide IsAttempt, DirOf, TreePath, IntentPath, IsDotName, BaseOf;
    Folders();
    OwnPaths(a);
    OwnPaths(b);
  }

  lemma BothFoldersGo(a: string, b: string, t: Tree)
    requires IsAttempt(a) && IsAttempt(b) && a != b && WellFormed(t) && t == Moved(a, b) - {DEEP}
    ensures FOLDER !in PruneAll(t, PruneOrder([DEEP])) && SUB !in PruneAll(t, PruneOrder([DEEP]))
  {
    hide IsAttempt, DirOf, TreePath, IntentPath, WellFormed, PruneAll, PruneOrder, Moved, Chain, Chains;
    var t' := PruneAll(t, PruneOrder([DEEP]));
    FolderFacts(a, b);
    PruneAfterIsExact(t, [DEEP]);
    PruneIsExact(t, PruneOrder([DEEP]));
    assert DEEP in [DEEP];
    assert Settled(t', SUB) && Settled(t', FOLDER);
    assert !HasChild(t', SUB);
    assert !HasChild(t', FOLDER);
  }

  lemma SecondIntents(a: string, b: string)
    requires IsAttempt(a) && IsAttempt(b) && a != b
    ensures ReadExpansionIntent(WrittenAgain(a, b), b) == Some(Intent("spec", ["sub"]))
    ensures Placing(MovedAgain(a, b), a) && ReadExpansionIntent(MovedAgain(a, b), a) == Some(Intent("spec", ["sub/x"]))
  {
    hide IsAttempt, ReadExpansionIntent, Trusted, TreePath, IntentPath, IsDotName;
    OwnPaths(a);
    OwnPaths(b);
    TwoPaths(a, b);
    TwoPaths(b, a);
    BothAreTrusted();
    Reads(WrittenAgain(a, b), b, "spec", ["sub"]);
    Reads(MovedAgain(a, b), a, "spec", ["sub/x"]);
  }

  /** The one row, written by the second attempt. */
  function Owning(b: string): map<nat, Attachment> {
    map[0 := Attachment(SUB, Some(b))]
  }

  lemma OwningNames(b: string)
    ensures Names(Owning(b)) == {SUB}
  {
    assert Owning(b)[0].name == SUB;
  }

  lemma SecondMoves(a: string, b: string)
    requires IsAttempt(a) && IsAttempt(b) && a != b
    ensures Step(Sections(WrittenAgain(a, b), map[], map[]), Move(b), Sections(MovedAgain(a, b), map[], map[]))
    ensures Placing(MovedAgain(a, b), b) && ReadExpansionIntent(MovedAgain(a, b), b) == Some(Intent("spec", ["sub"]))
  {
    hide IsAttempt, ReadExpansionIntent, WellFormed, Trusted, NamesOf, TreePath, IntentPath, WrittenAgain, MovedAgain,
         Placing, Step, AfterMove;
    AllWellFormed(a, b);
    BothAreTrusted();
    BothMoves(a, b);
    SecondIntents(a, b);
    AMoveIsAStep(Sections(WrittenAgain(a, b), map[], map[]), MovedAgain(a, b), b, "sub", SUB);
  }

  lemma SecondCommits(a: string, b: string)
    requires IsAttempt(a) && IsAttempt(b) && a != b
    ensures Step(Sections(MovedAgain(a, b), map[], map[]), CommitRows(b, Owning(b)),
                 Sections(MovedAgain(a, b), Owning(b), map[]))
  {
    hide IsAttempt, ReadExpansionIntent, WellFormed, Trusted, NamesOf, TreePath, IntentPath, WrittenAgain, MovedAgain,
         Placing;
    AllWellFormed(a, b);
    BothAreTrusted();
    SecondMoves(a, b);
    SubIsPlaced(a, b);
    OwningNames(b);
    assert {SUB} == (set n | n in [SUB]);
  }

  lemma SubIsPlaced(a: string, b: string)
    ensures IsFile(MovedAgain(a, b), SUB)
  {
  }

  lemma Beginnings(a: string, b: string)
    requires IsAttempt(a) && IsAttempt(b) && a != b
    ensures Step(Sections(map[], map[], map[]), Stage(a), Sections(Staged(a, b), map[], map[]))
    ensures Step(Sections(Staged(a, b), map[], map[]), WriteIntent(a, FIRST), Sections(Written(a, b), map[], map[]))
    ensures Step(Sections(TakenAway(a, b), map[], map[]), WriteIntent(b, SECOND),
                 Sections(WrittenAgain(a, b), map[], map[]))
  {
    hide IsAttempt, DirOf, TreePath, IntentPath, ReadExpansionIntent, WellFormed;
    AllWellFormed(a, b);
    OwnPaths(a);
    OwnPaths(b);
    TwoPaths(a, b);
    TwoPaths(b, a);
    forall x | IsAttempt(x) ensures IntentPath(x) !in {a, b, TreePath(a), TreePath(b)} {
      TwoPaths(a, x);
      TwoPaths(b, x);
      TwoPaths(x, a);
      TwoPaths(x, b);
    }
  }

  /** The last settle takes the file the committed row owns. */
  lemma TheOwnedFileGoes(t: Tree, a: string)
    requires WellFormed(t) && IsAttempt(a) && IsFile(t, SUB) && Placing(t, a)
    requires ReadExpansionIntent(t, a) == Some(Intent("spec", ["sub/x"]))
    ensures SUB !in Settle(t, {SUB}, a)
  {
    hide IsAttempt, DirOf, ReadExpansionIntent, WellFormed, Trusted, NamesOf, Settle, Placing;
    BothAreTrusted();
    Folders();
    assert DEEP in [DEEP] && DEEP !in {SUB};
    OwnedFilesAreKeptExceptAtAFolder(t, {SUB}, a, SUB);
  }

  lemma TheLastSettle(t: Tree, a: string, b: string)
    requires WellFormed(t) && IsAttempt(a)
    ensures Step(Sections(t, Owning(b), map[]), SettleSome([a]), Sections(Settle(t, {SUB}, a), Owning(b), map[]))
  {
    hide IsAttempt, ReadExpansionIntent, WellFormed, Settle, SettleEach, TreePath;
    OwningNames(b);
    SettleOne(t, {SUB}, a);
    SettleIsFinal(t, {SUB}, a);
  }

  lemma SettleOne(t: Tree, rows: set<string>, a: string)
    ensures SettleEach(t, rows, [a]) == Settle(t, rows, a)
  {
  }

  lemma NothingStarts()
    ensures Starts(Sections(map[], map[], map[]))
  {
  }

  /** From nothing at all, in eight steps: the row that owns the file is there, and the file is not. */
  lemma ATakeBackCanCostAnOwnedFile(a: string, b: string) returns (states: seq<Sections>, actions: seq<Action>)
    requires IsAttempt(a) && IsAttempt(b) && a != b
    ensures Run(states, actions) && Starts(states[0]) && |actions| == 8
    ensures forall k :: 0 <= k < 8 ==> !actions[k].DropSome? && !actions[k].SettleDies? && !actions[k].DeleteDies?
    ensures forall k :: 0 <= k < 8 && actions[k].TakeBack? ==> k == 3
    ensures actions[3] == TakeBack(a) && WellFormed(states[3].tree) && states[3].rows == map[]
    ensures var last := states[8];
            && last == Sections(Settle(MovedAgain(a, b), {SUB}, a), Owning(b), map[])
            && last.rows[0].name == SUB && SUB !in last.tree
  {
    hide Step, IsAttempt, Settle, Staged, Written, Moved, TakenAway, WrittenAgain, MovedAgain, ReadExpansionIntent,
         Starts,
         TreePath, IntentPath, DirOf, WellFormed, Placing;
    NothingStarts();
    Beginnings(a, b);
    FirstMoves(a, b);
    FirstIsTakenBack(a, b);
    SecondMoves(a, b);
    SecondCommits(a, b);
    AllWellFormed(a, b);
    BothMoves(a, b);
    SecondIntents(a, b);
    TheOwnedFileGoes(MovedAgain(a, b), a);
    TheLastSettle(MovedAgain(a, b), a, b);
    states := [Sections(map[], map[], map[]), Sections(Staged(a, b), map[], map[]),
               Sections(Written(a, b), map[], map[]),
               Sections(Moved(a, b), map[], map[]), Sections(TakenAway(a, b), map[], map[]),
               Sections(WrittenAgain(a, b), map[], map[]),
               Sections(MovedAgain(a, b), map[], map[]), Sections(MovedAgain(a, b), Owning(b), map[]),
               Sections(Settle(MovedAgain(a, b), {SUB}, a), Owning(b), map[])];
    actions := [Stage(a), WriteIntent(a, FIRST), Move(a), TakeBack(a),
                WriteIntent(b, SECOND), Move(b), CommitRows(b, Owning(b)), SettleSome([a])];
  }

  /** The same without any take-back: a settle that dies before it removes the intent leaves what one does. */
  lemma ADeadSettleCanCostAnOwnedFile(a: string, b: string) returns (states: seq<Sections>, actions: seq<Action>)
    requires IsAttempt(a) && IsAttempt(b) && a != b
    ensures Run(states, actions) && Starts(states[0]) && |actions| == 8
    ensures forall k :: 0 <= k < 8 ==> !actions[k].DropSome? && !actions[k].TakeBack? && !actions[k].DeleteDies?
    ensures var last := states[8]; 0 in last.rows && last.rows[0].name == SUB && SUB !in last.tree
  {
    hide Step, IsAttempt, Settle, MovedAgain, ReadExpansionIntent, WellFormed, Starts, NamesOf;
    states, actions := ATakeBackCanCostAnOwnedFile(a, b);
    ATakeBackLooksLikeADeadSettle(states[3], states[4], a);
    actions := actions[3 := SettleDies([], a)];
  }

  // ---- And an upload in flight ----

  /** No file of the upload, and no intent but the two attempts', is in the tree of the run. */
  lemma OnlyTwoIntents(a: string, b: string)
    requires IsAttempt(a) && IsAttempt(b) && a != b
    ensures forall x :: IsAttempt(x) && x != a && x != b ==> ReadExpansionIntent(MovedAgain(a, b), x).None?
    ensures forall q :: !HasContent(MovedAgain(a, b), q, Upload(7))
    ensures FOLDER in MovedAgain(a, b) && MovedAgain(a, b)[FOLDER] == Dir
  {
    hide IsAttempt, DirOf, TreePath, IntentPath, ReadExpansionIntent, IsDotName;
    forall x | IsAttempt(x) && x != a && x != b ensures ReadExpansionIntent(MovedAgain(a, b), x).None? {
      OwnPaths(x);
      OwnPaths(a);
      OwnPaths(b);
      TwoPaths(x, a);
      TwoPaths(x, b);
      TwoPaths(a, x);
      TwoPaths(b, x);
      ReadsNothing(MovedAgain(a, b), x);
    }
  }

  /** The name of a row without its file is free to claim. */
  lemma TheNameIsClaimed(a: string, b: string, t: Tree) returns (s': Sections)
    requires IsAttempt(a) && IsAttempt(b) && a != b
    requires t == Settle(MovedAgain(a, b), {SUB}, a) && SUB !in t
    ensures Step(Sections(t, Owning(b), map[]), BeginUpload(7, SUB, [a, b]), s')
    ensures s'.rows == Owning(b) && IsThere(s', 7) && s'.inFlight[7] == SUB
  {
    hide IsAttempt, DirOf, TreePath, IntentPath, ReadExpansionIntent, WellFormed, Settle, SettleEach, MovedAgain,
         Owning, LastSlash, BaseOf;
    AllWellFormed(a, b);
    OwningNames(b);
    OnlyTwoIntents(a, b);
    SettleIsFinal(MovedAgain(a, b), {SUB}, a);
    var t1 := SettleEach(t, {SUB}, [a, b]);
    BothAreSettled(a, b, t);
    s' := Sections(t1[FOLDER := Dir][SUB := File(Upload(7))], Owning(b), map[7 := SUB]);
    ClaimedIsWellFormed(t1);
    OwnPaths(a);
    forall q ensures !HasContent(t, q, Upload(7)) {
      assert !HasContent(MovedAgain(a, b), q, Upload(7));
    }
  }

  lemma BothAreSettled(a: string, b: string, t: Tree)
    requires IsAttempt(a) && IsAttempt(b) && a != b && WellFormed(t)
    requires forall x :: IsAttempt(x) && x != a && x != b ==> ReadExpansionIntent(t, x).None?
    ensures var t1 := SettleEach(t, {SUB}, [a, b]);
            && WellFormed(t1) && t1.Keys <= t.Keys && (forall p :: p in t1 ==> t1[p] == t[p])
            && forall x :: IsAttempt(x) ==> ReadExpansionIntent(t1, x).None?
  {
    hide IsAttempt, TreePath, ReadExpansionIntent, WellFormed, SettleEach;
    EachIsSettled(t, {SUB}, [a, b]);
    assert a in [a, b] && b in [a, b];
  }

  lemma ClaimedIsWellFormed(t: Tree)
    requires WellFormed(t) && SUB !in t && (FOLDER in t ==> t[FOLDER] == Dir)
    ensures WellFormed(t[FOLDER := Dir][SUB := File(Upload(7))])
  {
    hide DirOf, WellFormed, LastSlash, BaseOf;
    assert |FOLDER| == 4 && |SUB| == 8;
    Folders();
    if FOLDER in t { assert t[FOLDER := Dir] == t; } else { Added(t, FOLDER, Dir); }
    Added(t[FOLDER := Dir], SUB, File(Upload(7)));
  }

  /** The run goes on: an upload claims the name of the row that lost its file, and the delete of that row
      takes the upload's. No drop is part of it. */
  lemma AStaleRowCanCostAnUpload(a: string, b: string) returns (states: seq<Sections>, actions: seq<Action>)
    requires IsAttempt(a) && IsAttempt(b) && a != b
    ensures Run(states, actions) && Starts(states[0]) && |actions| == 10 && IntentsGoFirst(states, actions, 10)
    ensures IsThere(states[9], 7) && 7 in states[10].inFlight && !IsThere(states[10], 7)
  {
    hide Step, IsAttempt, Settle, MovedAgain, ReadExpansionIntent, TreePath, DirOf, WellFormed, Safe, HasContent;
    states, actions := ATakeBackCanCostAnOwnedFile(a, b);
    var claimed := TheNameIsClaimed(a, b, states[8].tree);
    states, actions := states + [claimed], actions + [BeginUpload(7, SUB, [a, b])];
    assert IntentsGoFirst(states, actions, 9);
    RunsAreSafe(states, actions, 9);
    var order := SettledWith(claimed.rows, 0);
    var last := DeletedOne(claimed, 0);
    DeleteTakes(claimed, last, {0}, [SUB], order);
    assert SUB in [SUB];
    states, actions := states + [last], actions + [DeleteRows({0}, [SUB], order)];
  }
}
