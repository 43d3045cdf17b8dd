/** Why runs whose drops take a tree before its intent are left out of UploadSections and OwnedUploads: one in
    which the staging directory of an attempt whose move threw is removed tree first. What is left reads as
    an attempt that was moved into a folder somebody else owns, and a settle takes back what stands there. */
module TreeFirstRace {
  import opened Options
  import opened JsText
  import opened UploadPaths
  import opened Pruning
  import opened ExpansionSettling
  import opened UploadSections
  import opened OwnedUploads
  import opened TakeBackRace

  const TOP := "spec/a"

  /** What the attempt wrote down before a move that then threw. */
  const WANTED := Intent("spec", ["a", "sub/x"])

  lemma WantedIsTrusted()
    ensures Trusted(WANTED) && NamesOf(WANTED) == [TOP, DEEP]
    ensures DirOf(TOP) == FOLDER && IsPlain(TOP) && TOP != SUB && TOP != FOLDER
  {
    hide IsClean, LastSlash, BaseOf, DirOf;
    PlainWordsAreClean("spec");
    PlainWordsAreClean("a");
    TwoSegmentsAreClean();
    Folders();
    NoSlash("a");
    assert DEEP == "spec" + "/" + "sub/x" && TOP == "spec" + "/" + "a";
    DirOfChild("spec", "a");
  }

  // ---- The trees of the run ----

  ghost function Claimed(): Tree {
    map[FOLDER := Dir, TOP := File(Upload(1))]
  }

  ghost function Uploaded(): Tree {
    Claimed()[SUB := File(Upload(2))]
  }

  function Owned(): map<nat, Attachment> {
    map[0 := Attachment(SUB, None)]
  }

  function Waiting(): map<nat, string> {
    map[1 := TOP]
  }

  ghost function WithAttempt(x: string): Tree {
    Uploaded()[x := Dir][TreePath(x) := Dir]
  }

  ghost function WithIntent(x: string): Tree {
    WithAttempt(x)[IntentPath(x) := File(IntentText(WANTED.dir, WANTED.files))]
  }

  /** The tree is gone and the intent is not. */
  ghost function HalfDropped(x: string): Tree {
    WithIntent(x) - {TreePath(x)}
  }

  lemma PlainTrees()
    ensures WellFormed(Claimed()) && WellFormed(Uploaded()) && SUB !in Claimed() && IsPlain(SUB) && IsPlain(TOP)
    ensures forall q :: q in Uploaded() ==> !IsDotName(q)
    ensures HasContent(Uploaded(), TOP, Upload(1)) && HasContent(Uploaded(), SUB, Upload(2))
    ensures forall q :: !HasContent(Claimed(), q, Upload(2))
  {
    PlainNames();
    PlainWellFormed();
  }

  lemma PlainNames()
    ensures IsPlain(FOLDER) && IsPlain(TOP) && IsPlain(SUB) && FOLDER != TOP && FOLDER != SUB && TOP != SUB
    ensures DirOf(FOLDER) == "" && DirOf(TOP) == FOLDER && DirOf(SUB) == FOLDER
  {
    hide DirOf, Trusted, NamesOf, LastSlash, BaseOf;
    assert |FOLDER| == 4 && |TOP| == 6 && |SUB| == 8;
    assert FOLDER[0] == TOP[0] == SUB[0] == 's';
    Folders();
    WantedIsTrusted();
  }

  lemma PlainWellFormed()
    ensures WellFormed(Claimed()) && WellFormed(Uploaded())
  {
    hide DirOf, WellFormed;
    PlainNames();
    TakeBackRace.Nothing();
    Added(map[], FOLDER, Dir);
    Added(map[FOLDER := Dir], TOP, File(Upload(1)));
    Added(Claimed(), SUB, File(Upload(2)));
  }

  lemma AllWellFormed(x: string)
    requires IsAttempt(x)
    ensures WellFormed(WithAttempt(x)) && WellFormed(WithIntent(x)) && WellFormed(HalfDropped(x))
  {
    hide IsAttempt, DirOf, TreePath, IntentPath, WellFormed, Uploaded, IsDotName;
    OwnPaths(x);
    PlainTrees();
    Added(Uploaded(), x, Dir);
    Added(Uploaded()[x := Dir], TreePath(x), Dir);
    Added(WithAttempt(x), IntentPath(x), File(IntentText(WANTED.dir, WANTED.files)));
    NothingInTheStagedTree(x);
    Dropped(WithIntent(x), TreePath(x));
  }

  lemma NothingInTheStagedTree(x: string)
    requires IsAttempt(x)
    ensures forall q :: q in WithIntent(x) ==> DirOf(q) != TreePath(x)
  {
    hide IsAttempt, DirOf, TreePath, IntentPath, Uploaded, IsDotName;
    OwnPaths(x);
    PlainTrees();
    forall q | q in Uploaded() ensures DirOf(q) != TreePath(x) {
      FoldersOfPlainNames(q);
    }
  }

  lemma FoldersOfPlainNames(q: string)
    requires !IsDotName(q)
    ensures !IsDotName(DirOf(q))
  {
    if DirOf(q) != "" { assert DirOf(q)[0] == q[0]; }
  }

  lemma PlainTreesHoldNoIntent(t: Tree)
    requires forall q :: q in t ==> !IsDotName(q)
    ensures forall x :: IsAttempt(x) ==> ReadExpansionIntent(t, x).None?
  {
    hide IsAttempt, ReadExpansionIntent, IsDotName;
    forall x | IsAttempt(x) ensures ReadExpansionIntent(t, x).None? {
      OwnPaths(x);
      ReadsNothing(t, x);
    }
  }

  // ---- The steps ----

  lemma TheFirstClaims()
    ensures Step(Sections(map[], map[], map[]), BeginUpload(1, TOP, []), Sections(Claimed(), map[], Waiting()))
  {
    hide IsAttempt, DirOf, ReadExpansionIntent, WellFormed, IsDotName;
    PlainTrees();
    PlainTreesHoldNoIntent(map[]);
    ClaimedHasBoth();
  }

  lemma ClaimedHasBoth()
    ensures Claimed().Keys == {FOLDER, TOP} && Claimed()[FOLDER] == Dir && HasContent(Claimed(), TOP, Upload(1))
    ensures IsPlain(FOLDER) && Uploaded() == Claimed()[SUB := File(Upload(2))]
  {
    WantedIsTrusted();
  }

  lemma TheSecondClaims()
    ensures Step(Sections(Claimed(), map[], Waiting()), BeginUpload(2, SUB, []),
                 Sections(Uploaded(), map[], Waiting()[2 := SUB]))
    ensures Step(Sections(Uploaded(), map[], Waiting()[2 := SUB]), FinishUpload(2, 0),
                 Sections(Uploaded(), Owned(), Waiting()))
  {
    hide IsAttempt, DirOf, ReadExpansionIntent, WellFormed, IsDotName, Uploaded, Claimed;
    PlainTrees();
    ClaimedHasBoth();
    PlainTreesHoldNoIntent(Claimed());
    assert Waiting()[2 := SUB] - {2} == Waiting();
  }

  lemma TheAttemptIsStaged(x: string)
    requires IsAttempt(x)
    ensures Step(Sections(Uploaded(), Owned(), Waiting()), Stage(x), Sections(WithAttempt(x), Owned(), Waiting()))
    ensures Step(Sections(WithAttempt(x), Owned(), Waiting()), WriteIntent(x, IntentText(WANTED.dir, WANTED.files)),
                 Sections(WithIntent(x), Owned(), Waiting()))
  {
    hide IsAttempt, DirOf, ReadExpansionIntent, WellFormed, TreePath, IntentPath, Uploaded, IsDotName, Owned, Waiting;
    AllWellFormed(x);
    OwnPaths(x);
    PlainTrees();
    forall y | IsAttempt(y) ensures IntentPath(y) != x && IntentPath(y) != TreePath(x) {
      TwoPaths(x, y);
      TwoPaths(y, x);
    }
  }

  lemma TheTreeGoesFirst(x: string)
    requires IsAttempt(x)
    ensures Step(Sections(WithIntent(x), Owned(), Waiting()), DropSome(x, {TreePath(x)}),
                 Sections(HalfDropped(x), Owned(), Waiting()))
    ensures LeavesOnlyTheIntent(Sections(WithIntent(x), Owned(), Waiting()), DropSome(x, {TreePath(x)}))
    ensures Placing(HalfDropped(x), x) && ReadExpansionIntent(HalfDropped(x), x) == Some(WANTED)
  {
    hide IsAttempt, DirOf, ReadExpansionIntent, WellFormed, IntentPath, Trusted, Uploaded, Owned, Waiting, NamesOf;
    AllWellFormed(x);
    OwnPaths(x);
    WantedIsTrusted();
    assert x + "/" <= TreePath(x);
    Reads(WithIntent(x), x, WANTED.dir, WANTED.files);
    Reads(HalfDropped(x), x, WANTED.dir, WANTED.files);
  }

  lemma BothFilesGo(t: Tree, x: string)
    requires WellFormed(t) && IsAttempt(x) && Placing(t, x) && ReadExpansionIntent(t, x) == Some(WANTED)
    requires IsFile(t, TOP) && IsFile(t, SUB)
    ensures TOP !in Settle(t, {SUB}, x) && SUB !in Settle(t, {SUB}, x)
    ensures Step(Sections(t, Owned(), Waiting()), SettleSome([x]), Sections(Settle(t, {SUB}, x), Owned(), Waiting()))
  {
    hide IsAttempt, DirOf, ReadExpansionIntent, WellFormed, Trusted, NamesOf, Settle, SettleEach, Placing, IsDotName,
         TreePath, IntentPath, IsClean, BaseOf, LastSlash;
    WantedIsTrusted();
    Folders();
    OwnPaths(x);
    assert TOP in [TOP, DEEP] && DEEP in [TOP, DEEP] && DEEP != SUB;
    SettleTakesExactly(t, {SUB}, x, TOP);
    SettleTakesExactly(t, {SUB}, x, SUB);
    SettleIsFinal(t, {SUB}, x);
    SettleOne(t, {SUB}, x);
    OwnedNames();
  }

  lemma OwnedNames()
    ensures Names(Owned()) == {SUB}
  {
    assert Owned()[0].name == SUB;
  }

  lemma BothFilesAreThere(x: string)
    requires IsAttempt(x)
    ensures HasContent(HalfDropped(x), TOP, Upload(1)) && IsFile(HalfDropped(x), TOP) && IsFile(HalfDropped(x), SUB)
  {
    hide IsAttempt, DirOf, TreePath, IntentPath, Uploaded, IsDotName;
    OwnPaths(x);
    PlainTrees();
  }

  lemma NoContent(t: Tree, p: string, c: Content)
    requires p !in t
    ensures !HasContent(t, p, c)
  {
  }

  /** From nothing at all, in seven steps and without a take-back: a settle takes the file of an upload in
      flight, and a file a row owns. */
  lemma ATreeFirstDropCanCostBoth(x: string) returns (states: seq<Sections>, actions: seq<Action>)
    requires IsAttempt(x)
    ensures Run(states, actions) && Starts(states[0]) && |actions| == 7
    ensures forall k :: 0 <= k < 7 ==> !actions[k].TakeBack? && !actions[k].SettleDies? && !actions[k].DeleteDies?
    ensures actions[6].SettleSome? && IsThere(states[6], 1) && 1 in states[7].inFlight && !IsThere(states[7], 1)
    ensures 0 in states[7].rows && states[7].rows[0].name == SUB
    ensures IsFile(states[6].tree, SUB) && SUB !in states[7].tree
  {
    hide Step, IsAttempt, Settle, ReadExpansionIntent, Starts, WellFormed, Placing, Uploaded, Claimed, WithAttempt,
         WithIntent,
         HalfDropped, TreePath, HasContent;
    NothingStarts();
    AllWellFormed(x);
    TheFirstClaims();
    TheSecondClaims();
    TheAttemptIsStaged(x);
    TheTreeGoesFirst(x);
    BothFilesAreThere(x);
    BothFilesGo(HalfDropped(x), x);
    NoContent(Settle(HalfDropped(x), {SUB}, x), TOP, Upload(1));
    states := [Sections(map[], map[], map[]), Sections(Claimed(), map[], Waiting()),
               Sections(Uploaded(), map[], Waiting()[2 := SUB]), Sections(Uploaded(), Owned(), Waiting()),
               Sections(WithAttempt(x), Owned(), Waiting()), Sections(WithIntent(x), Owned(), Waiting()),
               Sections(HalfDropped(x), Owned(), Waiting()),
               Sections(Settle(HalfDropped(x), {SUB}, x), Owned(), Waiting())];
    actions := [BeginUpload(1, TOP, []), BeginUpload(2, SUB, []), FinishUpload(2, 0), Stage(x),
                WriteIntent(x, IntentText(WANTED.dir, WANTED.files)), DropSome(x, {TreePath(x)}), SettleSome([x])];
  }
}
