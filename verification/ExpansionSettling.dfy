/** Settling attempts: what a settle makes of the uploads tree, which files it takes, and that it is final.

    An attempt is a hidden directory. It may hold a staged tree and an intent, the record of a folder and its
    files. An intent whose tree is gone is taken for a placement. Removals succeed where the tree allows. */
module ExpansionSettling {
  import opened Options
  import opened JsText
  import opened UploadPaths
  import opened Pruning

  const ATTACHMENT_ARCHIVE_MAX_FILES: nat := 500
  const EXPANSION_INTENT_FILE := "placed-as"

  datatype Intent = Intent(dir: string, files: seq<string>)

  // ---- Names of staging directories ----

  predicate IsHex(c: char) {
    '0' <= c <= '9' || 'a' <= c <= 'f' || 'A' <= c <= 'F'
  }

  predicate IsUuid(s: string) {
    |s| == 36 &&
    forall i :: 0 <= i < 36 ==> if i == 8 || i == 13 || i == 18 || i == 23 then s[i] == '-' else IsHex(s[i])
  }

  /** Equal but for the case of ASCII letters. */
  predicate SameLetters(s: string, lower: string) {
    |s| == |lower| &&
    forall i :: 0 <= i < |s| ==>
      s[i] == lower[i] || ('a' <= lower[i] <= 'z' && s[i] as int == lower[i] as int - 32)
  }

  /** `.expanding-<archive id>`, with or without a nonce after it. */
  function ExpansionAttemptArchiveId(name: string): Option<string> {
    if |name| >= 47 && SameLetters(name[..11], ".expanding-") && IsUuid(name[11..47]) &&
       (|name| == 47 || (name[47] == '-' && IsUuid(name[48..])))
    then Some(name[11..47]) else None
  }

  predicate IsAttempt(name: string) {
    ExpansionAttemptArchiveId(name).Some?
  }

  lemma AttemptNamesAreDotNames(name: string)
    requires IsAttempt(name)
    ensures name != "" && name != "." && name[0] == '.' && '/' !in name
  {
  }

  /** Letters A to Z become small. */
  function AsciiLower(s: string): (t: string)
    ensures |t| == |s|
  {
    seq(|s|, i requires 0 <= i < |s| => if 'A' <= s[i] <= 'Z' then (s[i] as int + 32) as char else s[i])
  }

  /** Hexadecimal digits of either case, in groups of 8, 4, 4, 4 and 12. */
  ghost predicate IsGrouped(s: string, a: string, b: string, c: string, d: string, e: string) {
    && |a| == 8 && |b| == |c| == |d| == 4 && |e| == 12
    && (forall x :: x in a + b + c + d + e ==> x in "0123456789abcdefABCDEF")
    && s == a + "-" + b + "-" + c + "-" + d + "-" + e
  }

  lemma UuidsAreGrouped(s: string)
    ensures IsUuid(s) <==> exists a, b, c, d, e :: IsGrouped(s, a, b, c, d, e)
  {
    hide IsGrouped, IsHex, IsUuid;
    if IsUuid(s) {
      var a, b, c, d, e := GroupsOf(s);
    }
    if a, b, c, d, e :| IsGrouped(s, a, b, c, d, e) {
      GroupedIsUuid(s, a, b, c, d, e);
    }
  }

  lemma HexDigits(c: char)
    ensures IsHex(c) <==> c in "0123456789abcdefABCDEF"
  {
    var digits := "0123456789abcdefABCDEF";
    assert forall i :: 0 <= i < 10 ==> digits[i] as int == 48 + i;
    assert forall i :: 10 <= i < 16 ==> digits[i] as int == 87 + i;
    assert forall i :: 16 <= i < 22 ==> digits[i] as int == 49 + i;
    if '0' <= c <= '9' { assert digits[c as int - 48] == c; }
    if 'a' <= c <= 'f' { assert digits[c as int - 87] == c; }
    if 'A' <= c <= 'F' { assert digits[c as int - 49] == c; }
  }

  lemma GroupsOf(s: string) returns (a: string, b: string, c: string, d: string, e: string)
    requires IsUuid(s)
    ensures IsGrouped(s, a, b, c, d, e)
  {
    hide IsHex;
    a, b, c, d, e := s[..8], s[9..13], s[14..18], s[19..23], s[24..];
    var digits := a + b + c + d + e;
    forall x | x in digits ensures x in "0123456789abcdefABCDEF" {
      var i :| 0 <= i < |digits| && digits[i] == x;
      var dashes := if i < 8 then 0 else if i < 12 then 1 else if i < 16 then 2 else if i < 20 then 3 else 4;
      assert s[i + dashes] == x;
      HexDigits(x);
    }
    assert s == a + "-" + b + "-" + c + "-" + d + "-" + e;
  }

  lemma GroupedIsUuid(s: string, a: string, b: string, c: string, d: string, e: string)
    requires IsGrouped(s, a, b, c, d, e)
    ensures IsUuid(s)
  {
    hide IsHex;
    var digits := a + b + c + d + e;
    forall i | 0 <= i < 36 && i != 8 && i != 13 && i != 18 && i != 23 ensures IsHex(s[i]) {
      var dashes := if i < 8 then 0 else if i < 13 then 1 else if i < 18 then 2 else if i < 23 then 3 else 4;
      assert s[i] == digits[i - dashes] && digits[i - dashes] in digits;
      HexDigits(s[i]);
    }
  }

  /** A staging name: the prefix in any case, the id of an archive, and then nothing or a nonce. */
  ghost predicate IsStagingName(name: string, prefix: string, id: string, nonce: string) {
    && AsciiLower(prefix) == ".expanding-" && IsUuid(id)
    && (name == prefix + id || (IsUuid(nonce) && name == prefix + id + "-" + nonce))
  }

  /** Which names are attempts, and at which archive: those of the two forms, and no other. */
  lemma AttemptsAreNamedSo(name: string, id: string)
    ensures ExpansionAttemptArchiveId(name) == Some(id) <==>
              exists prefix, nonce :: IsStagingName(name, prefix, id, nonce)
  {
    hide IsUuid, SameLetters, AsciiLower;
    if ExpansionAttemptArchiveId(name) == Some(id) {
      SameButForCase(name[..11], ".expanding-");
      if |name| == 47 {
        assert name == name[..11] + id;
        assert IsStagingName(name, name[..11], id, "");
      } else {
        assert name == name[..11] + id + "-" + name[48..];
        assert IsStagingName(name, name[..11], id, name[48..]);
      }
    }
    if prefix, nonce :| IsStagingName(name, prefix, id, nonce) {
      StagingNamesAreAttempts(name, prefix, id, nonce);
    }
  }

  lemma StagingNamesAreAttempts(name: string, prefix: string, id: string, nonce: string)
    requires IsStagingName(name, prefix, id, nonce)
    ensures ExpansionAttemptArchiveId(name) == Some(id)
  {
    hide SameLetters, AsciiLower, IsHex;
    SameButForCase(prefix, ".expanding-");
    assert |prefix| == 11;
    assert name[..11] == prefix && name[11..47] == id;
    if |name| > 47 { assert name[47] == '-' && name[48..] == nonce; }
  }

  lemma SameButForCase(s: string, lower: string)
    requires forall c :: c in lower ==> !('A' <= c <= 'Z')
    ensures SameLetters(s, lower) <==> AsciiLower(s) == lower
  {
    if |s| == |lower| {
      forall i | 0 <= i < |s|
        ensures AsciiLower(s)[i] == lower[i] <==>
                  s[i] == lower[i] || ('a' <= lower[i] <= 'z' && s[i] as int == lower[i] as int - 32)
      {
        assert lower[i] in lower;
      }
    }
  }

  function IntentPath(staging: string): string {
    staging + "/" + EXPANSION_INTENT_FILE
  }

  function TreePath(staging: string): string {
    staging + "/tree"
  }

  predicate IsDotName(p: string) {
    p != "" && p[0] == '.'
  }

  // ---- Reading an intent ----

  /** What makes an intent one to act on: clean names, few enough, in one clean folder, none of them a sidecar's. */
  predicate Trusted(i: Intent) {
    && '/' !in i.dir && IsClean(i.dir) && |i.files| <= ATTACHMENT_ARCHIVE_MAX_FILES
    && forall k :: 0 <= k < |i.files| ==>
         IsClean(i.files[k]) && !IsReservedBelowRoot(BaseOf(i.files[k]))
  }

  ghost predicate IsSidecar(name: string) {
    exists stem :: name == stem + ".extracted.md"
  }

  lemma ReservedAreSidecars(name: string)
    ensures IsReservedBelowRoot(BaseOf(name)) <==> IsSidecar(name)
  {
    var base, suffix := BaseOf(name), ".extracted.md";
    var cut := LastSlash(name) + 1;
    assert '/' !in suffix;
    if EndsWith(base, suffix) {
      assert base == base[..|base| - 13] + suffix && name == name[..cut] + base;
      assert name == (name[..cut] + base[..|base| - 13]) + suffix;
    }
    if stem :| name == stem + suffix {
      forall i | |stem| <= i < |name| ensures name[i] != '/' {
        assert name[i] == suffix[i - |stem|] && suffix[i - |stem|] in suffix;
      }
      assert base == stem[cut..] + suffix;
    }
  }

  lemma CleanFoldersAreSegments(dir: string)
    ensures '/' !in dir && IsClean(dir) <==> IsCleanSegment(dir)
  {
    hide IsClean, IsCleanSegment, IsMadeOf;
    CleanNamesAreMadeSo(dir);
    if IsCleanSegment(dir) {
      SegmentIsPath(dir);
    }
    if segments :| IsMadeOf(dir, segments) {
      if '/' !in dir { OnePart(dir, segments); }
    }
  }

  lemma SegmentIsPath(dir: string)
    requires IsCleanSegment(dir)
    ensures IsMadeOf(dir, [dir]) && '/' !in dir
  {
    assert AllAllowed(dir) && !IsAllowed('/');
  }

  lemma OnePart(dir: string, segments: seq<string>)
    requires IsMadeOf(dir, segments) && '/' !in dir
    ensures IsCleanSegment(dir)
  {
    hide IsCleanSegment;
    if |segments| > 1 {
      JoinHasSlash(segments);
    } else {
      assert segments[0] in segments;
    }
  }

  lemma JoinHasSlash(segments: seq<string>)
    requires |segments| > 1
    ensures '/' in Join(segments, '/')
  {
    assert Join(segments, '/')[|segments[0]|] == '/';
  }

  /** An intent is trusted exactly if its folder is one clean segment, and its files, 500 at most, have clean names
      none of which ends as a sidecar's does. */
  lemma TrustInWords(i: Intent)
    ensures Trusted(i) <==>
              && IsCleanSegment(i.dir) && |i.files| <= 500
              && forall f :: f in i.files ==> IsClean(f) && !IsSidecar(f)
  {
    hide IsClean, IsCleanSegment, IsSidecar, IsReservedBelowRoot, BaseOf;
    CleanFoldersAreSegments(i.dir);
    forall k | 0 <= k < |i.files| ensures IsReservedBelowRoot(BaseOf(i.files[k])) <==> IsSidecar(i.files[k]) {
      ReservedAreSidecars(i.files[k]);
    }
    forall f | f in i.files ensures exists k :: 0 <= k < |i.files| && i.files[k] == f {}
  }

  /** The intent an attempt left, when there is one to trust. */
  function ReadExpansionIntent(t: Tree, staging: string): Option<Intent> {
    var p := IntentPath(staging);
    if p in t && t[p].File? && t[p].content.IntentText? && Walk(t, staging) == Reached then
      var i := Intent(t[p].content.dir, t[p].content.files);
      if Trusted(i) then Some(i) else None
    else None
  }

  function NamesOf(i: Intent): (names: seq<string>)
    ensures |names| == |i.files|
    ensures forall k :: 0 <= k < |names| ==> names[k] == i.dir + "/" + i.files[k]
  {
    seq(|i.files|, k requires 0 <= k < |i.files| => i.dir + "/" + i.files[k])
  }

  /** The names no attachment row owns. */
  function Orphans(names: seq<string>, rows: set<string>): (orphans: seq<string>)
    ensures forall n :: n in orphans <==> n in names && n !in rows
  {
    if names == [] then []
    else
      var last := names[|names| - 1];
      assert names == names[..|names| - 1] + [last];
      Orphans(names[..|names| - 1], rows) + if last in rows then [] else [last]
  }

  // ---- Settling one attempt ----

  /** The tree a settle leaves but for the intent: without the intent's folder, if that is empty, while the
      staged tree is there, and else without the orphans and the folders only they kept. */
  function TakenBack(t: Tree, rows: set<string>, staging: string, i: Intent): Tree {
    if TreePath(staging) in t then
      if i.dir in t && t[i.dir].Dir? then Remove(t, i.dir).1 else t
    else
      var orphans := Orphans(NamesOf(i), rows);
      PruneAll(WithoutFiles(t, orphans), PruneOrder(orphans))
  }

  function Settle(t: Tree, rows: set<string>, staging: string): Tree {
    var i := ReadExpansionIntent(t, staging);
    if i.None? then t else Remove(TakenBack(t, rows, staging, i.value), IntentPath(staging)).1
  }

  method SettleExpansionAttempt(uploads: Uploads, rows: set<string>, staging: string) returns (had: bool)
    modifies uploads
    ensures uploads.tree == Settle(old(uploads.tree), rows, staging)
    ensures had == ReadExpansionIntent(old(uploads.tree), staging).Some?
  {
    hide ReadExpansionIntent, WithoutFiles, PruneAll, PruneOrder, Remove, NamesOf;
    var intent := ReadExpansionIntent(uploads.tree, staging);
    if intent.Some? {
      var claimed := intent.value.dir;
      if TreePath(staging) in uploads.tree {
        if claimed in uploads.tree && uploads.tree[claimed].Dir? {
          var _ := uploads.RemoveNoFollow(claimed);
        }
      } else {
        var names := NamesOf(intent.value);
        var orphans: seq<string> := [];
        var k := 0;
        while k < |names|
          invariant 0 <= k <= |names| && orphans == Orphans(names[..k], rows)
        {
          assert names[..k + 1][..k] == names[..k];
          if names[k] !in rows { orphans := orphans + [names[k]]; }
          k := k + 1;
        }
        assert names[..k] == names;
        uploads.RemoveFiles(orphans);
        uploads.PruneAfter(orphans);
      }
      var _ := uploads.RemoveNoFollow(IntentPath(staging));
    }
    return intent.Some?;
  }

  // ---- What settling touches ----

  /** `t'` keeps everything of `t` whose name starts with a dot, and adds nothing. */
  ghost predicate DotsKept(t: Tree, t': Tree) {
    && WellFormed(t') && t'.Keys <= t.Keys && (forall p :: p in t' ==> t'[p] == t[p])
    && (forall p :: p in t && IsDotName(p) ==> p in t')
  }

  lemma {:induction false} RemovingFilesTakes(t: Tree, files: seq<string>)
    requires WellFormed(t)
    ensures var t' := WithoutFiles(t, files);
            && WellFormed(t') && t'.Keys <= t.Keys && (forall p :: p in t' ==> t'[p] == t[p])
            && (forall p :: p in t && p !in t' ==> p in files)
            && (forall p :: p in t && t[p].File? && p in files ==> p !in t')
  {
    if files != [] {
      var before := files[..|files| - 1];
      RemovingFilesTakes(t, before);
      RemoveKeepsTheTree(WithoutFiles(t, before), files[|files| - 1]);
      assert files == before + [files[|files| - 1]];
    }
  }

  lemma NamesArePlain(i: Intent, n: string)
    requires Trusted(i) && n in NamesOf(i)
    ensures n != "" && !IsDotName(n) && DirOf(n) != "" && !IsDotName(DirOf(n))
    ensures forall a :: a in Chain(DirOf(n)) ==> a != "" && !IsDotName(a)
  {
    CleanNamesStartPlainly(i.dir);
    hide IsClean, Chain, DirOf, Trusted;
    var k :| 0 <= k < |i.files| && NamesOf(i)[k] == n;
    DirOfBelow(i.dir, i.files[k]);
    assert DirOf(n)[0] == i.dir[0] && n[0] == i.dir[0];
    forall a | a in Chain(DirOf(n)) ensures a != "" && !IsDotName(a) {
      ChainIsAbove(DirOf(n), a);
      assert a[0] == DirOf(n)[0];
    }
  }

  /** Nothing with a dot name is an orphan, a folder to prune, or above one. */
  lemma DotNamesAreNotTaken(i: Intent, rows: set<string>, p: string)
    requires Trusted(i) && IsDotName(p)
    ensures var orphans := Orphans(NamesOf(i), rows);
            p !in orphans && p !in PruneOrder(orphans) && p !in Chains(PruneOrder(orphans))
  {
    hide Trusted, Chain, Chains, DirOf, NamesOf, IsDotName;
    var orphans := Orphans(NamesOf(i), rows);
    forall f | f in orphans ensures p != f && p != DirOf(f) && p !in Chain(DirOf(f)) {
      NamesArePlain(i, f);
    }
    if p in Chains(PruneOrder(orphans)) {
      InSomeChain(PruneOrder(orphans), p);
    }
  }

  /** What is left of the tree once the orphans and the folders they emptied are gone. */
  lemma OrphansTakeNoDots(t: Tree, rows: set<string>, i: Intent)
    requires WellFormed(t) && Trusted(i)
    ensures var orphans := Orphans(NamesOf(i), rows);
            DotsKept(t, PruneAll(WithoutFiles(t, orphans), PruneOrder(orphans)))
  {
    hide Trusted, WellFormed, WithoutFiles, PruneAll, PruneOrder, Chains, NamesOf, AllSettled, HasChild,
         Orphans, IsDotName;
    var orphans := Orphans(NamesOf(i), rows);
    var t1 := WithoutFiles(t, orphans);
    RemovingFilesTakes(t, orphans);
    PruneIsExact(t1, PruneOrder(orphans));
    forall p | p in t && IsDotName(p) ensures p in t1 && p in PruneAll(t1, PruneOrder(orphans)) {
      DotNamesAreNotTaken(i, rows, p);
    }
  }

  lemma TakingBackKeepsDots(t: Tree, rows: set<string>, staging: string, i: Intent)
    requires WellFormed(t) && Trusted(i)
    ensures DotsKept(t, TakenBack(t, rows, staging, i))
  {
    hide IsClean, Remove, WellFormed, WithoutFiles, PruneAll, PruneOrder, NamesOf, HasChild, Orphans, TreePath;
    CleanNamesStartPlainly(i.dir);
    if TreePath(staging) in t {
      RemoveKeepsTheTree(t, i.dir);
    } else {
      OrphansTakeNoDots(t, rows, i);
    }
  }

  /** The attempt is one whose move may have happened: a later settle goes by its names. */
  ghost predicate Placing(t: Tree, staging: string) {
    ReadExpansionIntent(t, staging).Some? && TreePath(staging) !in t
  }

  /** The file at `p` is one the attempt's settling takes: an orphan, or a file where an orphan's folder
      should be. */
  ghost predicate Claims(t: Tree, rows: set<string>, staging: string, p: string) {
    Placing(t, staging) &&
    exists n :: n in Orphans(NamesOf(ReadExpansionIntent(t, staging).value), rows) && (n == p || DirOf(n) == p)
  }

  /** Exactly which files a settle takes. */
  lemma SettleTakesExactly(t: Tree, rows: set<string>, staging: string, p: string)
    requires WellFormed(t) && IsAttempt(staging) && p in t && t[p].File? && !IsDotName(p)
    ensures p !in Settle(t, rows, staging) <==> Claims(t, rows, staging, p)
  {
    hide IsClean, Trusted, Remove, WellFormed, WithoutFiles, PruneAll, NamesOf, HasChild, Orphans, AllSettled,
         Chains, ExpansionAttemptArchiveId;
    var intent := ReadExpansionIntent(t, staging);
    if intent.Some? {
      AttemptNamesAreDotNames(staging);
      TakingBackKeepsDots(t, rows, staging, intent.value);
      RemoveKeepsTheTree(TakenBack(t, rows, staging, intent.value), IntentPath(staging));
      if TreePath(staging) in t {
        RemoveKeepsTheTree(t, intent.value.dir);
      } else {
        var orphans := Orphans(NamesOf(intent.value), rows);
        RemovingFilesTakes(t, orphans);
        PruneIsExact(WithoutFiles(t, orphans), PruneOrder(orphans));
        FilesGoForGood(t, orphans, p);
      }
    }
  }

  /** An attempt whose tree is still staged placed nothing: its settle takes the folder it claimed, if that is
      there and empty, and the intent. */
  lemma UnmovedAttemptsLoseTheirFolder(t: Tree, rows: set<string>, staging: string)
    requires WellFormed(t) && IsAttempt(staging)
    requires ReadExpansionIntent(t, staging).Some? && TreePath(staging) in t
    ensures var dir := ReadExpansionIntent(t, staging).value.dir;
            Settle(t, rows, staging) ==
              t - {IntentPath(staging)} - (if dir in t && t[dir].Dir? && !HasChild(t, dir) then {dir} else {})
  {
    hide IsClean, WellFormed, TreePath, IntentPath, ExpansionAttemptArchiveId, ReadExpansionIntent, Remove, HasChild,
         WithoutFiles, PruneAll, Trusted, IsDotName;
    var i := ReadExpansionIntent(t, staging).value;
    PathsAreThere(t, staging);
    if i.dir in t { RemoveTakesExactly(t, i.dir); }
    var t1 := TakenBack(t, rows, staging, i);
    TakingBackKeepsDots(t, rows, staging, i);
    RemoveTakesExactly(t1, IntentPath(staging));
  }

  lemma PathsAreThere(t: Tree, staging: string)
    requires IsAttempt(staging) && ReadExpansionIntent(t, staging).Some?
    ensures IntentPath(staging) in t && t[IntentPath(staging)].File? && IsDotName(IntentPath(staging))
    ensures Trusted(ReadExpansionIntent(t, staging).value)
  {
    AttemptPaths(staging, staging);
  }

  lemma FilesGoForGood(t: Tree, files: seq<string>, p: string)
    requires WellFormed(t)
    ensures p !in t ==> p !in PruneAll(WithoutFiles(t, files), PruneOrder(files))
    ensures p !in WithoutFiles(t, files) ==> p !in PruneAll(WithoutFiles(t, files), PruneOrder(files))
  {
    RemovingFilesTakes(t, files);
    PruneIsExact(WithoutFiles(t, files), PruneOrder(files));
  }

  /** A settle takes a file some attachment row owns exactly when the attempt's tree was moved away and that
      file stands where the folder of one of its unowned names should be: removing a folder left empty does
      not look at what it removes. */
  lemma OwnedFilesAreKeptExceptAtAFolder(t: Tree, rows: set<string>, staging: string, p: string)
    requires WellFormed(t) && IsAttempt(staging) && p in t && t[p].File? && !IsDotName(p) && p in rows
    ensures p in Settle(t, rows, staging) <==>
              !(Placing(t, staging) &&
                exists n :: n in NamesOf(ReadExpansionIntent(t, staging).value) && n !in rows && DirOf(n) == p)
  {
    hide IsClean, Trusted, Remove, WellFormed, NamesOf, ReadExpansionIntent, ExpansionAttemptArchiveId;
    SettleTakesExactly(t, rows, staging, p);
  }

  /** Settling is final for its own attempt and invisible to every other one. */
  lemma SettleIsFinal(t: Tree, rows: set<string>, staging: string)
    requires WellFormed(t) && IsAttempt(staging)
    ensures var t' := Settle(t, rows, staging);
            && WellFormed(t') && t'.Keys <= t.Keys && (forall p :: p in t' ==> t'[p] == t[p])
            && ReadExpansionIntent(t', staging).None?
            && (ReadExpansionIntent(t, staging).None? ==> t' == t)
            && (forall s :: IsAttempt(s) && s != staging ==>
                  ReadExpansionIntent(t', s) == ReadExpansionIntent(t, s))
            && (forall s :: IsAttempt(s) ==> (TreePath(s) in t' <==> TreePath(s) in t))
  {
    hide IsClean, Trusted, Remove, WellFormed, WithoutFiles, PruneAll, NamesOf, HasChild, Orphans, TakenBack,
         ExpansionAttemptArchiveId;
    var intent := ReadExpansionIntent(t, staging);
    if intent.Some? {
      var t1 := TakenBack(t, rows, staging, intent.value);
      TakingBackKeepsDots(t, rows, staging, intent.value);
      RemoveKeepsTheTree(t1, IntentPath(staging));
      forall s | IsAttempt(s)
        ensures TreePath(s) != IntentPath(staging) && (s != staging ==> IntentPath(s) != IntentPath(staging))
        ensures IsDotName(s) && IsDotName(TreePath(s)) && IsDotName(IntentPath(s)) && s != IntentPath(staging)
        ensures forall u: Tree ::
                  Walk(u, s) == if s !in u then Missing else if u[s].Dir? then Reached else NotADirectory
      {
        AttemptPaths(s, staging);
      }
    }
  }

  lemma AttemptPaths(s: string, staging: string)
    requires IsAttempt(s) && IsAttempt(staging)
    ensures TreePath(s) != IntentPath(staging) && (s != staging ==> IntentPath(s) != IntentPath(staging))
    ensures IsDotName(s) && IsDotName(TreePath(s)) && IsDotName(IntentPath(s)) && s != IntentPath(staging)
    ensures DirOf(s) == ""
    ensures forall u: Tree :: Walk(u, s) == if s !in u then Missing else if u[s].Dir? then Reached else NotADirectory
  {
    AttemptNamesAreDotNames(s);
    AttemptNamesAreDotNames(staging);
    DirOfChild(s, "tree");
    DirOfChild(s, EXPANSION_INTENT_FILE);
    DirOfChild(staging, EXPANSION_INTENT_FILE);
    hide ExpansionAttemptArchiveId;
    assert '/' in IntentPath(staging) by { assert IntentPath(staging)[|staging|] == '/'; }
    if s == staging { assert TreePath(s)[|s| + 1] == 't' && IntentPath(s)[|s| + 1] == 'p'; }
    assert DirOf(s) == "" by { assert LastSlash(s) == -1; }
  }

  // ---- Settling several attempts ----

  function SettleEach(t: Tree, rows: set<string>, stagings: seq<string>): Tree {
    if stagings == [] then t
    else Settle(SettleEach(t, rows, stagings[..|stagings| - 1]), rows, stagings[|stagings| - 1])
  }

  predicate AllAttempts(stagings: seq<string>) {
    forall s :: s in stagings ==> IsAttempt(s)
  }

  /** After settling each of them, none has an intent to trust, and no other attempt notices. */
  lemma {:induction false} EachIsSettled(t: Tree, rows: set<string>, stagings: seq<string>)
    requires WellFormed(t) && AllAttempts(stagings)
    ensures var t' := SettleEach(t, rows, stagings);
            && WellFormed(t') && t'.Keys <= t.Keys && (forall p :: p in t' ==> t'[p] == t[p])
            && (forall s :: s in stagings ==> ReadExpansionIntent(t', s).None?)
            && (forall s :: IsAttempt(s) && s !in stagings ==>
                  ReadExpansionIntent(t', s) == ReadExpansionIntent(t, s))
            && (forall s :: IsAttempt(s) ==> (TreePath(s) in t' <==> TreePath(s) in t))
  {
    hide WellFormed, ReadExpansionIntent, Settle, IsAttempt, TreePath;
    if stagings != [] {
      var before, last := stagings[..|stagings| - 1], stagings[|stagings| - 1];
      assert stagings == before + [last];
      EachIsSettled(t, rows, before);
      SettleIsFinal(SettleEach(t, rows, before), rows, last);
    }
  }

  /** No settle of an attempt that was settled, and wrote no new intent since, changes anything: an upload
      that took a name it freed is safe, whatever else happened to the tree. */
  lemma {:induction false} SettledAttemptsAreInert(t: Tree, rows: set<string>, stagings: seq<string>,
                                                   later: Tree, laterRows: set<string>, again: seq<string>)
    requires WellFormed(t) && AllAttempts(stagings) && (forall s :: s in again ==> s in stagings)
    requires forall s :: s in stagings ==>
               ReadExpansionIntent(later, s) == ReadExpansionIntent(SettleEach(t, rows, stagings), s)
    ensures SettleEach(later, laterRows, again) == later
  {
    hide WellFormed, IsAttempt, ReadExpansionIntent;
    EachIsSettled(t, rows, stagings);
    if again != [] {
      var before := again[..|again| - 1];
      assert again == before + [again[|again| - 1]];
      SettledAttemptsAreInert(t, rows, stagings, later, laterRows, before);
    }
  }

  /** The attempts among the entries of a listing, in its order. */
  function AttemptsAmong(entries: seq<string>): (attempts: seq<string>)
    ensures forall s :: s in attempts <==> s in entries && IsAttempt(s)
  {
    if entries == [] then []
    else
      var last := entries[|entries| - 1];
      assert entries == entries[..|entries| - 1] + [last];
      AttemptsAmong(entries[..|entries| - 1]) + if IsAttempt(last) then [last] else []
  }

  /** A listing of the uploads directory, in whatever order it comes. */
  ghost predicate Lists(entries: seq<string>, t: Tree) {
    forall n :: n in entries <==> n in t && DirOf(n) == ""
  }

  method Readdir(uploads: Uploads) returns (entries: seq<string>)
    ensures Lists(entries, uploads.tree)
  {
    var left := uploads.tree.Keys;
    entries := [];
    while left != {}
      invariant left <= uploads.tree.Keys
      invariant forall n :: n in entries <==> n in uploads.tree && n !in left && DirOf(n) == ""
      decreases left
    {
      var n :| n in left;
      left := left - {n};
      if DirOf(n) == "" { entries := entries + [n]; }
    }
  }

  lemma NoEntries(t: Tree, rows: set<string>)
    ensures AttemptsAmong([]) == [] && SettleEach(t, rows, []) == t
  {
  }

  lemma OneMoreEntry(t: Tree, rows: set<string>, entries: seq<string>, i: nat)
    requires i < |entries|
    ensures var done, more := AttemptsAmong(entries[..i]), AttemptsAmong(entries[..i + 1]);
            if IsAttempt(entries[i])
            then more == done + [entries[i]] &&
                 SettleEach(t, rows, more) == Settle(SettleEach(t, rows, done), rows, entries[i])
            else more == done
  {
    hide Settle, IsAttempt;
    assert entries[..i + 1][..i] == entries[..i];
    var done := AttemptsAmong(entries[..i]);
    assert (done + [entries[i]])[..|done|] == done;
  }

  /** Settles all attempts listed. Those answered are those that had an intent to trust. */
  method SettleExpansionIntents(uploads: Uploads, rows: set<string>) returns (settled: seq<string>)
    requires WellFormed(uploads.tree)
    modifies uploads
    ensures exists entries :: Lists(entries, old(uploads.tree)) &&
              uploads.tree == SettleEach(old(uploads.tree), rows, AttemptsAmong(entries))
    ensures WellFormed(uploads.tree) && forall s :: IsAttempt(s) ==> ReadExpansionIntent(uploads.tree, s).None?
    ensures forall s :: s in settled <==>
              IsAttempt(s) && ReadExpansionIntent(old(uploads.tree), s).Some?
  {
    hide ReadExpansionIntent, Settle, WellFormed, IsAttempt, TreePath, AttemptsAmong, SettleEach, Lists;
    ghost var t := uploads.tree;
    var entries := Readdir(uploads);
    settled := [];
    NoEntries(t, rows);
    var i := 0;
    while i < |entries|
      invariant 0 <= i <= |entries| && uploads.tree == SettleEach(t, rows, AttemptsAmong(entries[..i]))
      invariant forall s :: s in settled <==>
                  s in AttemptsAmong(entries[..i]) && ReadExpansionIntent(t, s).Some?
    {
      ghost var done := AttemptsAmong(entries[..i]);
      OneMoreEntry(t, rows, entries, i);
      if IsAttempt(entries[i]) {
        EachIsSettled(t, rows, done);
        var had := SettleExpansionAttempt(uploads, rows, entries[i]);
        if had { settled := settled + [entries[i]]; }
      }
      i := i + 1;
    }
    assert entries[..i] == entries;
    EachIsSettled(t, rows, AttemptsAmong(entries));
    forall s | IsAttempt(s) && s !in AttemptsAmong(entries) ensures ReadExpansionIntent(t, s).None? {
      UnlistedAttempts(t, entries, s);
    }
  }

  lemma UnlistedAttempts(t: Tree, entries: seq<string>, s: string)
    requires WellFormed(t) && Lists(entries, t) && IsAttempt(s) && s !in entries
    ensures ReadExpansionIntent(t, s).None?
  {
    AttemptPaths(s, s);
  }

  /** Settles the attempts of `archiveIds` other than `keep`, and answers which they were. */
  method SettleExpansionAttempts(uploads: Uploads, rows: set<string>, archiveIds: set<string>,
                                 keep: Option<string>) returns (settled: seq<string>)
    requires WellFormed(uploads.tree)
    modifies uploads
    ensures uploads.tree == SettleEach(old(uploads.tree), rows, settled)
    ensures forall s :: s in settled <==>
              && s in old(uploads.tree) && DirOf(s) == "" && IsAttempt(s) && keep != Some(s)
              && ExpansionAttemptArchiveId(s).value in archiveIds
  {
    hide ReadExpansionIntent, Settle, WellFormed, TreePath;
    var entries := Readdir(uploads);
    settled := [];
    var i := 0;
    while i < |entries|
      invariant 0 <= i <= |entries| && uploads.tree == SettleEach(old(uploads.tree), rows, settled)
      invariant forall s :: s in settled <==>
                  && s in entries[..i] && IsAttempt(s) && keep != Some(s)
                  && ExpansionAttemptArchiveId(s).value in archiveIds
    {
      var archiveId := ExpansionAttemptArchiveId(entries[i]);
      if keep != Some(entries[i]) && archiveId.Some? && archiveId.value in archiveIds {
        var _ := SettleExpansionAttempt(uploads, rows, entries[i]);
        assert (settled + [entries[i]])[..|settled|] == settled;
        settled := settled + [entries[i]];
      }
      i := i + 1;
    }
  }
}
