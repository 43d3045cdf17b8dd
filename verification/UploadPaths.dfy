/** The names uploads can have, and the tree of files and folders they make. */
module UploadPaths {
  import opened Options
  import opened JsText

  const ATTACHMENT_MAX_SEGMENT_LENGTH: nat := 200
  const ATTACHMENT_MAX_PATH_DEPTH: nat := 16
  const ATTACHMENT_MAX_PATH_LENGTH: nat := 400
  const PLAN_INPUT_SIDECAR_SUFFIX := ".extracted.md"

  // ---- The name rules ----

  predicate IsAllowed(c: char) {
    'a' <= c <= 'z' || 'A' <= c <= 'Z' || '0' <= c <= '9' || c in "_ .()-"
  }

  function Replaced(s: string): (t: string)
    ensures |t| == |s| && forall c :: c in t ==> IsAllowed(c)
  {
    if s == "" then "" else [if IsAllowed(s[0]) then s[0] else '_'] + Replaced(s[1..])
  }

  function WithoutLeadingDots(s: string): (t: string)
    ensures t != "" ==> t[0] != '.' && t[0] != ' '
    ensures forall c :: c in t ==> c in s
  {
    if s != "" && (s[0] == '.' || s[0] == ' ') then WithoutLeadingDots(s[1..]) else s
  }

  /** A segment as it is kept: allowed characters only, no dot or blank in front, and not too long. */
  function SanitizeSegment(raw: string): (t: string)
    ensures t != "" ==> t[0] != '.' && t[0] != ' ' && t[0] != '/'
  {
    var safe := WithoutLeadingDots(Replaced(raw));
    var trimmed := Trim(safe);
    TrimmedStart(safe);
    assert trimmed != "" ==> trimmed[0] == safe[0] && safe[0] in safe;
    if |trimmed| > ATTACHMENT_MAX_SEGMENT_LENGTH then trimmed[..ATTACHMENT_MAX_SEGMENT_LENGTH] else trimmed
  }

  lemma TrimmedStart(s: string)
    requires forall c :: c in s ==> IsAllowed(c)
    requires s != "" ==> s[0] != '.' && s[0] != ' '
    ensures Trim(s) <= s
  {
    if s != "" {
      assert IsAllowed(s[0]) && !IsWhite(s[0]);
      assert TrimStart(s) == s;
    }
  }

  /** The segments a path keeps, in order. */
  function KeptSegments(parts: seq<string>): (kept: seq<string>)
    ensures forall i :: 0 <= i < |kept| ==> kept[i] != "" && kept[i][0] != '.' && kept[i][0] != '/'
  {
    if parts == [] then []
    else
      var trimmed := Trim(parts[0]);
      var safe := SanitizeSegment(parts[0]);
      (if trimmed == "" || trimmed == "." || safe == "" then [] else [safe]) + KeptSegments(parts[1..])
  }

  /** None where the source throws. */
  function SanitizeAttachmentPath(raw: string): Option<string> {
    var parts := Split(raw, {'\\', '/'});
    if exists i | 0 <= i < |parts| :: Trim(parts[i]) == ".." then None
    else
      var segments := KeptSegments(parts);
      if segments == [] then Some("file")
      else if |segments| - 1 > ATTACHMENT_MAX_PATH_DEPTH then None
      else
        var joined := Join(segments, '/');
        if |joined| > ATTACHMENT_MAX_PATH_LENGTH then None else Some(joined)
  }

  /** A name the rules leave alone. */
  predicate IsClean(name: string) {
    SanitizeAttachmentPath(name) == Some(name)
  }

  /** No clean name starts with a dot, so none reaches into a staging directory. */
  lemma CleanNamesStartPlainly(name: string)
    requires IsClean(name)
    ensures name != "" && name[0] != '.' && name[0] != '/'
  {
    var segments := KeptSegments(Split(name, {'\\', '/'}));
    if segments != [] { assert name[0] == segments[0][0]; }
  }

  // ---- What a clean name is ----

  /** Letters, digits and `_ .()-`. */
  lemma AllowedCodes(c: char)
    ensures IsAllowed(c) <==>
              var n := c as int;
              n == 32 || n == 40 || n == 41 || n == 45 || n == 46 || 48 <= n <= 57 || 65 <= n <= 90 || n == 95
              || 97 <= n <= 122
  {
    var others := "_ .()-";
    assert others[0] as int == 95 && others[1] as int == 32 && others[2] as int == 46;
    assert others[3] as int == 40 && others[4] as int == 41 && others[5] as int == 45;
    assert forall x :: x in others ==> exists i :: 0 <= i < 6 && others[i] == x;
  }

  predicate AllAllowed(s: string) {
    forall c :: c in s ==> IsAllowed(c)
  }

  /** Allowed characters only, no dot or blank in front, no blank at the end, and not too long. */
  predicate IsCleanSegment(seg: string) {
    seg != "" && |seg| <= 200 && AllAllowed(seg) && seg[0] != '.' && seg[0] != ' ' && seg[|seg| - 1] != ' '
  }

  lemma {:induction false} ReplacedKeeps(s: string)
    ensures Replaced(s) == s <==> AllAllowed(s)
  {
    if s != "" {
      ReplacedKeeps(s[1..]);
      assert s == [s[0]] + s[1..];
      assert Replaced(s)[1..] == Replaced(s[1..]);
      assert AllAllowed(s) <==> IsAllowed(s[0]) && AllAllowed(s[1..]);
    }
  }

  lemma OnlyBlanksAreWhite(c: char)
    requires IsAllowed(c)
    ensures IsWhite(c) <==> c == ' '
  {
  }

  /** A segment is kept as it is exactly when it is clean. */
  lemma CleanSegmentsAreKept(seg: string)
    ensures seg != "" && SanitizeSegment(seg) == seg <==> IsCleanSegment(seg)
    ensures IsCleanSegment(seg) ==> Trim(seg) == seg
  {
    hide IsWhite, IsAllowed, Trim, IsTrimmed;
    ReplacedKeeps(seg);
    if IsCleanSegment(seg) {
      assert seg[0] in seg && seg[|seg| - 1] in seg;
      OnlyBlanksAreWhite(seg[0]);
      OnlyBlanksAreWhite(seg[|seg| - 1]);
      TrimmedAsItIs(seg);
    } else if seg != "" && SanitizeSegment(seg) == seg {
      SanitizedAreAllowed(seg);
      TrimmedStart(seg);
      OnlyBlanksAreWhite(seg[|seg| - 1]);
      LastIsNotWhite(seg);
    }
  }

  lemma TrimmedAsItIs(s: string)
    requires s != "" && !IsWhite(s[0]) && !IsWhite(s[|s| - 1])
    ensures Trim(s) == s
  {
    assert s == "" + s + "" && AllWhite("");
    TrimIsTheTrim(s, s);
  }

  lemma LastIsNotWhite(s: string)
    requires s != "" && Trim(s) == s
    ensures !IsWhite(s[|s| - 1])
  {
    TrimIsTheTrim(s, s);
  }

  lemma SanitizedAreAllowed(raw: string)
    ensures AllAllowed(SanitizeSegment(raw))
  {
    hide IsAllowed, Trim;
    TrimmedStart(WithoutLeadingDots(Replaced(raw)));
  }

  lemma {:induction false} CleanListsAreKept(parts: seq<string>)
    ensures |KeptSegments(parts)| <= |parts|
    ensures KeptSegments(parts) == parts <==> forall p :: p in parts ==> IsCleanSegment(p)
  {
    hide SanitizeSegment, IsCleanSegment, Trim;
    if parts != [] {
      CleanListsAreKept(parts[1..]);
      CleanSegmentsAreKept(parts[0]);
      assert parts == [parts[0]] + parts[1..];
      PlainStart(parts[0]);
    }
  }

  lemma PlainStart(seg: string)
    ensures IsCleanSegment(seg) ==> seg != "" && seg[0] != '.'
  {
  }

  predicate NoSeparator(s: string) {
    forall c :: c in s ==> c != '\\' && c != '/'
  }

  lemma {:induction false} KeptHaveNoSeparator(parts: seq<string>)
    ensures forall k :: k in KeptSegments(parts) ==> NoSeparator(k)
  {
    hide SanitizeSegment;
    if parts != [] {
      KeptHaveNoSeparator(parts[1..]);
      SanitizedAreAllowed(parts[0]);
    }
  }

  lemma {:induction false} SplitOne(a: string)
    requires NoSeparator(a)
    ensures Split(a, {'\\', '/'}) == [a]
  {
    if a != "" {
      assert a[0] in a && a == [a[0]] + a[1..];
      assert forall c :: c in a[1..] ==> c in a;
      SplitOne(a[1..]);
    }
  }

  lemma {:induction false} SplitFirst(a: string, rest: string)
    requires NoSeparator(a)
    ensures Split(a + "/" + rest, {'\\', '/'}) == [a] + Split(rest, {'\\', '/'})
  {
    var s := a + "/" + rest;
    if a == "" {
      assert s[1..] == rest;
    } else {
      assert a[0] in a && a == [a[0]] + a[1..] && s[1..] == a[1..] + "/" + rest;
      assert forall c :: c in a[1..] ==> c in a;
      SplitFirst(a[1..], rest);
    }
  }

  lemma {:induction false} SplitUndoesJoin(segments: seq<string>)
    requires segments != [] && forall s :: s in segments ==> NoSeparator(s)
    ensures Split(Join(segments, '/'), {'\\', '/'}) == segments
  {
    hide NoSeparator, Split;
    if |segments| == 1 {
      SplitOne(segments[0]);
      assert segments == [segments[0]];
    } else {
      SplitUndoesJoin(segments[1..]);
      SplitFirst(segments[0], Join(segments[1..], '/'));
      assert segments == [segments[0]] + segments[1..];
    }
  }

  /** The name is made of clean segments, at most sixteen folders deep and 400 characters long. */
  ghost predicate IsMadeOf(name: string, segments: seq<string>) {
    && 1 <= |segments| <= 17 && |name| <= 400 && name == Join(segments, '/')
    && forall s :: s in segments ==> IsCleanSegment(s)
  }

  /** The rules leave alone exactly the names made of clean segments. */
  lemma CleanNamesAreMadeSo(name: string)
    ensures IsClean(name) <==> exists segments :: IsMadeOf(name, segments)
  {
    hide Split, Join, KeptSegments, IsCleanSegment, Trim;
    if IsClean(name) {
      var segments := PartsOfAClean(name);
    }
    if segments :| IsMadeOf(name, segments) {
      MadeOfCleanIsClean(name, segments);
    }
  }

  lemma PartsOfAClean(name: string) returns (segments: seq<string>)
    requires IsClean(name)
    ensures IsMadeOf(name, segments)
  {
    hide Split, Join, KeptSegments, IsCleanSegment, Trim;
    segments := KeptSegments(Split(name, {'\\', '/'}));
    if segments == [] {
      segments := ["file"];
      FileIsClean();
    } else {
      KeptHaveNoSeparator(Split(name, {'\\', '/'}));
      SplitUndoesJoin(segments);
      CleanListsAreKept(segments);
    }
  }

  lemma FileIsClean()
    ensures IsCleanSegment("file") && Join(["file"], '/') == "file"
  {
    assert forall i :: 0 <= i < 4 ==> IsAllowed("file"[i]);
  }

  lemma MadeOfCleanIsClean(name: string, segments: seq<string>)
    requires IsMadeOf(name, segments)
    ensures IsClean(name)
  {
    hide Split, Join, KeptSegments, IsCleanSegment, Trim;
    forall s | s in segments ensures NoSeparator(s) && Trim(s) != ".." {
      CleanSegmentsAreKept(s);
      CleanHasNoSeparator(s);
    }
    SplitUndoesJoin(segments);
    CleanListsAreKept(segments);
  }

  lemma CleanHasNoSeparator(s: string)
    requires IsCleanSegment(s)
    ensures NoSeparator(s) && s[0] != '.'
  {
  }

  /** What every segment the rules leave is like. Only cutting a long one can leave a blank at its end. */
  predicate IsKeptSegment(seg: string) {
    seg != "" && |seg| <= 200 && AllAllowed(seg) && seg[0] != '.' && seg[0] != ' '
  }

  lemma {:induction false} KeptSegmentsAreSo(parts: seq<string>)
    ensures forall k :: k in KeptSegments(parts) ==> IsKeptSegment(k)
  {
    hide SanitizeSegment, IsKeptSegment;
    if parts != [] {
      KeptSegmentsAreSo(parts[1..]);
      SanitizedIsSo(parts[0]);
    }
  }

  lemma SanitizedIsSo(raw: string)
    ensures SanitizeSegment(raw) != "" ==> IsKeptSegment(SanitizeSegment(raw))
  {
    SanitizedAreAllowed(raw);
  }

  /** A path is refused exactly if some part of it is a parent segment, or what is kept of it is too deep or too
      long; and what a path becomes is one to seventeen kept segments. */
  lemma ParentsAreRefused(raw: string)
    ensures var parts := Split(raw, {'\\', '/'});
            var path := SanitizeAttachmentPath(raw);
            && (path == None <==>
                  || (exists part :: part in parts && Trim(part) == "..")
                  || |KeptSegments(parts)| > 17 || |Join(KeptSegments(parts), '/')| > 400)
            && (path.Some? ==> exists segments :: 1 <= |segments| <= 17 && path.value == Join(segments, '/')
                                 && forall s :: s in segments ==> IsKeptSegment(s))
  {
    hide Split, Join, KeptSegments, IsKeptSegment, Trim;
    var parts := Split(raw, {'\\', '/'});
    var segments := KeptSegments(parts);
    KeptSegmentsAreSo(parts);
    NothingJoined();
    forall part | part in parts ensures exists i :: 0 <= i < |parts| && parts[i] == part {}
    if SanitizeAttachmentPath(raw).Some? {
      var kept := if segments == [] then ["file"] else segments;
      assert SanitizeAttachmentPath(raw).value == Join(kept, '/') && 1 <= |kept| <= 17;
    }
  }

  lemma NothingJoined()
    ensures Join([], '/') == "" && Join(["file"], '/') == "file" && IsKeptSegment("file")
  {
    FileIsClean();
  }

  // ---- Splitting ----

  /** Where the last slash is, or -1. */
  function LastSlash(p: string): (cut: int)
    ensures -1 <= cut < |p|
    ensures cut >= 0 ==> p[cut] == '/'
    ensures forall i :: cut < i < |p| ==> p[i] != '/'
  {
    if p == "" then -1
    else if p[|p| - 1] == '/' then |p| - 1
    else LastSlash(p[..|p| - 1])
  }

  /** `splitAttachmentPath(p).dir`: the folder a name lies in, "" for the uploads root. */
  function DirOf(p: string): (dir: string)
    ensures p != "" ==> |dir| < |p|
    ensures dir <= p
  {
    if LastSlash(p) == -1 then "" else p[..LastSlash(p)]
  }

  function BaseOf(p: string): string {
    p[LastSlash(p) + 1..]
  }

  /** How many segments a path has: what `split('/')` counts. */
  function Depth(p: string): nat {
    |Split(p, {'/'})|
  }

  lemma {:induction false} SplitCounts(s: string)
    ensures |Split(s, {'/'})| == 1 + SlashesIn(s)
  {
    if s != "" { SplitCounts(s[1..]); }
  }

  function SlashesIn(s: string): nat {
    if s == "" then 0 else (if s[0] == '/' then 1 else 0) + SlashesIn(s[1..])
  }

  lemma {:induction false} SlashesAddUp(a: string, b: string)
    ensures SlashesIn(a + b) == SlashesIn(a) + SlashesIn(b)
  {
    if a == "" {
      assert a + b == b;
    } else {
      assert (a + b)[1..] == a[1..] + b;
      SlashesAddUp(a[1..], b);
    }
  }

  lemma {:induction false} NoSlashes(s: string)
    ensures SlashesIn(s) == 0 <==> '/' !in s
  {
    if s != "" {
      assert s == [s[0]] + s[1..];
      NoSlashes(s[1..]);
    }
  }

  /** Names at the uploads root have depth 1, and what lies in a folder is one deeper. */
  lemma DepthsCountFolders(dir: string, base: string)
    requires '/' !in base
    ensures Depth(base) == 1 && Depth(dir + "/" + base) == Depth(dir) + 1
  {
    SplitCounts(base);
    SplitCounts(dir);
    SplitCounts(dir + "/" + base);
    SlashesAddUp(dir + "/", base);
    SlashesAddUp(dir, "/");
    NoSlashes(base);
    assert "/"[1..] == "";
  }

  predicate IsReservedBelowRoot(base: string) {
    EndsWith(base, PLAN_INPUT_SIDECAR_SUFFIX)
  }

  lemma DirOfChild(dir: string, base: string)
    requires '/' !in base
    ensures DirOf(dir + "/" + base) == dir
  {
    var p := dir + "/" + base;
    assert p[|dir|] == '/';
    forall i | |dir| < i < |p| ensures p[i] != '/' { assert p[i] == base[i - |dir| - 1]; }
    assert LastSlash(p) == |dir|;
  }

  lemma DirOfBelow(dir: string, file: string)
    ensures dir <= DirOf(dir + "/" + file)
  {
    var p := dir + "/" + file;
    assert p[|dir|] == '/';
    assert |dir| <= LastSlash(p);
    assert p[..LastSlash(p)][..|dir|] == dir;
  }

  // ---- The tree ----

  /** What a file holds: what an upload created, an intent's text with its folder and names when it parses,
      or anything else. */
  datatype Content = Bytes | Upload(id: nat) | IntentText(dir: string, files: seq<string>)

  datatype Node = Dir | File(content: Content)

  /** Everything below the uploads root, which is "" and always there. */
  type Tree = map<string, Node>

  ghost predicate WellFormed(t: Tree) {
    forall p :: p in t ==> p != "" && p != "." && (DirOf(p) == "" || (DirOf(p) in t && t[DirOf(p)].Dir?))
  }

  predicate HasChild(t: Tree, dir: string) {
    exists q | q in t :: DirOf(q) == dir
  }

  /** Walking to a folder: it is there, a folder on the way is missing, or a file stands on the way. */
  datatype Walked = Reached | Missing | NotADirectory

  function Walk(t: Tree, dir: string): Walked
    decreases |dir|
  {
    if dir == "" then Reached
    else
      var above := Walk(t, DirOf(dir));
      if above != Reached then above
      else if dir !in t then Missing
      else if t[dir].Dir? then Reached else NotADirectory
  }

  /** Removal without following links, not recursive. Absence is no failure; a folder that holds something,
      or a file on the way, is. */
  function Remove(t: Tree, p: string): (bool, Tree) {
    if p == "" then (false, t)
    else
      match Walk(t, DirOf(p))
      case Missing => (true, t)
      case NotADirectory => (false, t)
      case Reached =>
        if p !in t then (true, t)
        else if t[p].Dir? && HasChild(t, p) then (false, t)
        else (true, t - {p})
  }

  lemma RemoveKeepsTheTree(t: Tree, p: string)
    requires WellFormed(t)
    ensures WellFormed(Remove(t, p).1)
    ensures Remove(t, p).1 == t || (p in t && Remove(t, p).1 == t - {p} && !HasChild(t, p))
    ensures Remove(t, p).0 ==> p !in Remove(t, p).1
    ensures !Remove(t, p).0 ==> Remove(t, p).1 == t
    ensures p in t && t[p].File? ==> Remove(t, p).0
  {
    if p in t { WalkReaches(t, p); }
    var t' := Remove(t, p).1;
    assert p in t && t[p].File? ==> forall q :: q in t ==> DirOf(q) != p;
    forall q | q in t' ensures q != "" && q != "." && (DirOf(q) == "" || (DirOf(q) in t' && t'[DirOf(q)].Dir?)) {
      assert q in t;
    }
  }

  /** In a tree of files and folders, a removal takes what is there unless it is a folder that holds something. */
  lemma RemoveTakesExactly(t: Tree, p: string)
    requires WellFormed(t) && p in t
    ensures Remove(t, p) == if t[p].Dir? && HasChild(t, p) then (false, t) else (true, t - {p})
  {
    WalkReaches(t, p);
  }

  lemma {:induction false} WalkReaches(t: Tree, p: string)
    requires WellFormed(t) && p in t
    ensures Walk(t, DirOf(p)) == Reached
    decreases |p|
  {
    if DirOf(p) != "" { WalkReaches(t, DirOf(p)); }
  }

  /** The folders from `dir` up to the uploads root, where climbing stops. */
  ghost function Chain(dir: string): (chain: set<string>)
    ensures "" !in chain && "." !in chain
    decreases |dir|
  {
    if dir == "" || dir == "." then {} else {dir} + Chain(DirOf(dir))
  }

  lemma {:induction false} ChainIsAbove(dir: string, a: string)
    requires a in Chain(dir)
    ensures a <= dir && a != ""
    decreases |dir|
  {
    if a != dir { ChainIsAbove(DirOf(dir), a); }
  }
}
