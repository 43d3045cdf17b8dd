/** Fenced code blocks, section 4.5 of the CommonMark Spec 0.31.2, read from lines of text. */
module MarkdownFences {
  import opened Options
  import opened JsText

  datatype Opener = Opener(indent: nat, run: string, info: string)

  /** An unclosed fence has no `close`. */
  datatype Fence = Fence(lang: string, open: nat, close: Option<nat>, content: seq<string>)

  // ---- The two line patterns ----

  /** How many times `c` stands at the start, counting to at most `max`. */
  function Leading(s: string, c: char, max: nat): (n: nat)
    ensures n <= max && n <= |s|
    ensures forall i :: 0 <= i < n ==> s[i] == c
    ensures n < max && n < |s| ==> s[n] != c
  {
    if max == 0 || s == "" || s[0] != c then 0 else 1 + Leading(s[1..], c, max - 1)
  }

  /** The line without the carriage return a CRLF file leaves at its end. */
  function WithoutCr(line: string): string {
    if line != "" && line[|line| - 1] == '\r' then line[..|line| - 1] else line
  }

  /** Up to the first space or tab. */
  function FirstWord(s: string): string {
    if s == "" || s[0] == ' ' || s[0] == '\t' then "" else [s[0]] + FirstWord(s[1..])
  }

  function FenceOpener(line: string): Option<Opener> {
    var text := WithoutCr(line);
    var indent := Leading(text, ' ', 3);
    if '\r' in text || '\n' in text || indent == |text| then None
    else
      var c := text[indent];
      var run := Leading(text[indent..], c, |text|);
      if (c != '`' && c != '~') || run < 3 then None
      else
        var info := Trim(text[indent + run..]);
        if c == '`' && '`' in info then None
        else Some(Opener(indent, text[indent..indent + run], info))
  }

  predicate OnlySpaces(s: string) {
    forall c :: c in s ==> c == ' ' || c == '\t'
  }

  /** The line is indented little and holds nothing but a run that extends `run`. */
  predicate ClosesFence(line: string, run: string)
    requires run != ""
  {
    var text := WithoutCr(line);
    var indent := Leading(text, ' ', 3);
    indent < |text| && (text[indent] == '`' || text[indent] == '~') &&
    var length := Leading(text[indent..], text[indent], |text|);
    3 <= length && text[indent] == run[0] && |run| <= length && OnlySpaces(text[indent + length..])
  }

  /** The line without its first `indent` spaces, or those it has. */
  function Unindented(line: string, indent: nat): string {
    line[Leading(line, ' ', indent)..]
  }

  // ---- What the patterns match, by how a line is made up ----

  /** The end of a line: nothing, or the carriage return of a CRLF file. */
  predicate IsEnd(cr: string) {
    cr == "" || cr == "\r"
  }

  lemma LeadingOf(c: char, n: nat, rest: string, max: nat)
    requires n <= max && (n == max || rest == "" || rest[0] != c)
    ensures Leading(Copies(c, n) + rest, c, max) == n
  {
    var s := Copies(c, n) + rest;
    assert forall i :: 0 <= i < n ==> s[i] == c;
    if rest != "" { assert s[n] == rest[0]; }
  }

  lemma LeadingSplits(s: string, c: char, max: nat)
    ensures s == Copies(c, Leading(s, c, max)) + s[Leading(s, c, max)..]
  {
  }

  lemma WithoutCrOf(text: string, cr: string)
    requires IsEnd(cr) && (text != "" ==> text[|text| - 1] != '\r')
    ensures WithoutCr(text + cr) == text
  {
    if cr == "" { assert text + cr == text; } else { assert (text + cr)[..|text|] == text; }
  }

  lemma WithoutCrSplits(line: string) returns (cr: string)
    ensures IsEnd(cr) && line == WithoutCr(line) + cr
  {
    cr := if line != "" && line[|line| - 1] == '\r' then "\r" else "";
  }

  /** Up to three spaces, `k` of the run's character, as many as the run has and three at least, then spaces and
      tabs only. */
  ghost predicate IsCloser(line: string, run: string, indent: nat, k: nat, tail: string, cr: string)
    requires run != ""
  {
    && indent <= 3 && 3 <= k && |run| <= k && (run[0] == '`' || run[0] == '~') && OnlySpaces(tail) && IsEnd(cr)
    && line == Copies(' ', indent) + Copies(run[0], k) + tail + cr
  }

  lemma ClosersAreMadeSo(line: string, run: string)
    requires run != ""
    ensures ClosesFence(line, run) <==> exists indent, k, tail, cr :: IsCloser(line, run, indent, k, tail, cr)
  {
    hide ClosesFence, IsCloser;
    if ClosesFence(line, run) {
      var indent, k, tail, cr := CloserParts(line, run);
    }
    if indent, k, tail, cr :| IsCloser(line, run, indent, k, tail, cr) {
      CloserCloses(line, run, indent, k, tail, cr);
    }
  }

  lemma CloserParts(line: string, run: string) returns (indent: nat, k: nat, tail: string, cr: string)
    requires run != "" && ClosesFence(line, run)
    ensures IsCloser(line, run, indent, k, tail, cr)
  {
    hide Leading, WithoutCr, Copies, OnlySpaces;
    var text := WithoutCr(line);
    cr := WithoutCrSplits(line);
    indent := Leading(text, ' ', 3);
    var marked := text[indent..];
    k := Leading(marked, run[0], |text|);
    LeadingSplits(text, ' ', 3);
    LeadingSplits(marked, run[0], |text|);
    tail := text[indent + k..];
    assert marked[k..] == tail;
    ThreeParts(text, Copies(' ', indent), marked, Copies(run[0], k), tail);
  }

  lemma ThreeParts(text: string, a: string, x: string, b: string, c: string)
    requires text == a + x && x == b + c
    ensures text == a + b + c
  {
  }

  /** The line of an indent, a marked text that starts with no space, and an end. */
  lemma TextOf(line: string, indent: nat, marked: string, cr: string)
    requires indent <= 3 && marked != "" && marked[0] != ' ' && marked[|marked| - 1] != '\r' && IsEnd(cr)
    requires line == Copies(' ', indent) + marked + cr
    ensures var text := WithoutCr(line);
            text == Copies(' ', indent) + marked && |text| == indent + |marked| && Leading(text, ' ', 3) == indent
            && text[indent..] == marked && text[indent] == marked[0]
  {
    hide Leading, WithoutCr, Copies;
    var text := Copies(' ', indent) + marked;
    WithoutCrOf(text, cr);
    LeadingOf(' ', indent, marked, 3);
  }

  /** A run and what follows it. */
  lemma MarkOf(c: char, k: nat, rest: string, max: nat)
    requires k <= max && 0 < k && (rest == "" || rest[0] != c)
    ensures var marked := Copies(c, k) + rest;
            Leading(marked, c, max) == k && marked[..k] == Copies(c, k) && marked[k..] == rest && marked[0] == c
            && marked[|marked| - 1] == (if rest == "" then c else rest[|rest| - 1])
  {
    hide Leading;
    LeadingOf(c, k, rest, max);
  }

  lemma Halves(text: string, n: nat, marked: string, k: nat)
    requires n + k <= |text| && text[n..] == marked
    ensures text[n + k..] == marked[k..] && text[n..n + k] == marked[..k]
  {
  }

  lemma SpacesEndPlainly(tail: string)
    requires OnlySpaces(tail) && tail != ""
    ensures tail[0] in " \t" && tail[|tail| - 1] in " \t"
  {
    assert tail[0] in tail && tail[|tail| - 1] in tail;
  }

  lemma Regrouped(a: string, b: string, c: string, d: string)
    ensures a + b + c + d == a + (b + c) + d
  {
  }

  lemma LastOfBoth(a: string, b: string)
    requires a != ""
    ensures (a + b)[0] == a[0] && (a + b)[|a + b| - 1] == if b == "" then a[|a| - 1] else b[|b| - 1]
  {
  }

  /** What the patterns find in the line: an indent, a run of `c`, and the rest. */
  ghost predicate Finds(line: string, indent: nat, c: char, k: nat, rest: string) {
    var text := WithoutCr(line);
    && indent < |text| && Leading(text, ' ', 3) == indent && text[indent] == c
    && Leading(text[indent..], c, |text|) == k && indent + k <= |text|
    && text[indent..indent + k] == Copies(c, k) && text[indent + k..] == rest
  }

  lemma FoundIn(line: string, indent: nat, c: char, k: nat, rest: string, cr: string)
    requires indent <= 3 && 0 < k && (c == '`' || c == '~') && (rest != "" ==> rest[0] != c && rest[|rest| - 1] != '\r')
    requires IsEnd(cr) && line == Copies(' ', indent) + Copies(c, k) + rest + cr
    ensures Finds(line, indent, c, k, rest)
    ensures WithoutCr(line) == Copies(' ', indent) + (Copies(c, k) + rest)
  {
    hide Leading, WithoutCr;
    var run := Copies(c, k);
    Regrouped(Copies(' ', indent), run, rest, cr);
    LastOfBoth(run, rest);
    hide Copies;
    MarkOf(c, k, rest, indent + |run + rest|);
    TextOf(line, indent, run + rest, cr);
    Halves(WithoutCr(line), indent, run + rest, k);
  }

  lemma CloserCloses(line: string, run: string, indent: nat, k: nat, tail: string, cr: string)
    requires run != "" && IsCloser(line, run, indent, k, tail, cr)
    ensures ClosesFence(line, run)
  {
    hide IsCloser, Leading, WithoutCr, Copies, OnlySpaces;
    CloserFinds(line, run, indent, k, tail, cr);
  }

  lemma CloserFinds(line: string, run: string, indent: nat, k: nat, tail: string, cr: string)
    requires run != "" && IsCloser(line, run, indent, k, tail, cr)
    ensures Finds(line, indent, run[0], k, tail)
    ensures 3 <= k && |run| <= k && (run[0] == '`' || run[0] == '~') && OnlySpaces(tail)
  {
    hide Finds, Copies, OnlySpaces;
    if tail != "" { SpacesEndPlainly(tail); }
    FoundIn(line, indent, run[0], k, tail, cr);
  }

  /** Up to three spaces, a whole run of three or more of one fence character, then text of one line whose trim is
      the info; after backticks it holds none. */
  ghost predicate IsOpening(line: string, o: Opener, rest: string, cr: string) {
    && o.indent <= 3 && 3 <= |o.run| && (o.run[0] == '`' || o.run[0] == '~') && o.run == Copies(o.run[0], |o.run|)
    && (rest != "" ==> rest[0] != o.run[0]) && '\r' !in rest && '\n' !in rest && IsEnd(cr)
    && line == Copies(' ', o.indent) + o.run + rest + cr
    && IsTrimmed(rest, o.info) && (o.run[0] == '`' ==> '`' !in o.info)
  }

  lemma OpenersAreMadeSo(line: string, o: Opener)
    ensures FenceOpener(line) == Some(o) <==> exists rest, cr :: IsOpening(line, o, rest, cr)
  {
    hide FenceOpener, IsOpening;
    if FenceOpener(line) == Some(o) {
      var rest, cr := OpenerParts(line, o);
    }
    if rest, cr :| IsOpening(line, o, rest, cr) {
      OpeningOpens(line, o, rest, cr);
    }
  }

  lemma OpenerParts(line: string, o: Opener) returns (rest: string, cr: string)
    requires FenceOpener(line) == Some(o)
    ensures IsOpening(line, o, rest, cr)
  {
    hide Leading, WithoutCr, IsTrimmed, Trim, Copies;
    var text := WithoutCr(line);
    cr := WithoutCrSplits(line);
    LeadingSplits(text, ' ', 3);
    var marked := text[o.indent..];
    var c := marked[0];
    var k := Leading(marked, c, |text|);
    LeadingSplits(marked, c, |text|);
    rest := text[o.indent + k..];
    Halves(text, o.indent, marked, k);
    ThreeParts(text, Copies(' ', o.indent), marked, Copies(c, k), rest);
    WholeRun(marked, c, k, |text|);
    assert '\r' !in rest && '\n' !in rest;
    TrimIsTheTrim(rest, o.info);
  }

  lemma WholeRun(marked: string, c: char, k: nat, max: nat)
    requires k == Leading(marked, c, max) && |marked| <= max && 0 < k
    ensures marked[..k] == Copies(c, k) && marked[..k][0] == c && (marked[k..] != "" ==> marked[k..][0] != c)
  {
    hide Leading;
  }

  lemma OpeningOpens(line: string, o: Opener, rest: string, cr: string)
    requires IsOpening(line, o, rest, cr)
    ensures FenceOpener(line) == Some(o)
  {
    hide IsOpening, Leading, WithoutCr, IsTrimmed, Trim, Copies;
    OpeningFinds(line, o, rest, cr);
    TrimIsTheTrim(rest, o.info);
  }

  lemma OpeningFinds(line: string, o: Opener, rest: string, cr: string)
    requires IsOpening(line, o, rest, cr)
    ensures Finds(line, o.indent, o.run[0], |o.run|, rest) && o.run == Copies(o.run[0], |o.run|)
    ensures 3 <= |o.run| && (o.run[0] == '`' || o.run[0] == '~')
    ensures '\r' !in WithoutCr(line) && '\n' !in WithoutCr(line)
    ensures IsTrimmed(rest, o.info) && (o.run[0] == '`' ==> '`' !in o.info)
  {
    hide Finds, WithoutCr, IsTrimmed, Copies;
    if rest != "" { assert rest[|rest| - 1] in rest; }
    FoundIn(line, o.indent, o.run[0], |o.run|, rest, cr);
    NoLineEnd(WithoutCr(line), o.indent, o.run, rest);
  }

  lemma NoLineEnd(text: string, indent: nat, run: string, rest: string)
    requires run != "" && run == Copies(run[0], |run|) && run[0] != '\r' && run[0] != '\n'
    requires '\r' !in rest && '\n' !in rest && text == Copies(' ', indent) + (run + rest)
    ensures '\r' !in text && '\n' !in text
  {
  }

  /** The first word ends at the first space or tab, or with the text. */
  lemma {:induction false} FirstWordIs(s: string, w: string)
    ensures w == FirstWord(s) <==>
              w <= s && ' ' !in w && '\t' !in w && (|w| < |s| ==> s[|w|] == ' ' || s[|w|] == '\t')
  {
    if s != "" && s[0] != ' ' && s[0] != '\t' && w != "" {
      FirstWordIs(s[1..], w[1..]);
      assert w == [w[0]] + w[1..];
    }
  }

  /** As many spaces go as there are, and no more than the opener's. */
  lemma UnindentedIs(line: string, indent: nat, u: string)
    ensures u == Unindented(line, indent) <==>
              exists n :: 0 <= n <= indent && line == Copies(' ', n) + u && (n == indent || u == "" || u[0] != ' ')
  {
    hide Leading;
    var n := Leading(line, ' ', indent);
    LeadingSplits(line, ' ', indent);
    assert line == Copies(' ', n) + Unindented(line, indent);
    if m :| 0 <= m <= indent && line == Copies(' ', m) + u && (m == indent || u == "" || u[0] != ' ') {
      LeadingOf(' ', m, u, indent);
    }
  }

  lemma OpenersHaveRuns(line: string)
    ensures FenceOpener(line).Some? ==> 3 <= |FenceOpener(line).value.run|
  {
  }

  // ---- The line-by-line automaton: outside, or inside the fence a given run opened ----

  datatype Mode = Outside | Inside(opener: Opener, fence: Fence)

  datatype Scan = Scan(done: seq<Fence>, mode: Mode)

  function Feed(s: Scan, i: nat, line: string): Scan
    requires s.mode.Inside? ==> s.mode.opener.run != ""
  {
    match s.mode
    case Outside =>
      var o := FenceOpener(line);
      if o.None? then s
      else Scan(s.done, Inside(o.value, Fence(FirstWord(o.value.info), i, None, [])))
    case Inside(o, f) =>
      if ClosesFence(line, o.run) then Scan(s.done + [f.(close := Some(i))], Outside)
      else Scan(s.done, Inside(o, f.(content := f.content + [Unindented(line, o.indent)])))
  }

  function FeedAll(lines: seq<string>): (s: Scan)
    ensures s.mode.Inside? ==> s.mode.opener.run != ""
  {
    if lines == [] then Scan([], Outside)
    else
      var last := |lines| - 1;
      OpenersHaveRuns(lines[last]);
      Feed(FeedAll(lines[..last]), last, lines[last])
  }

  function Fences(s: Scan): seq<Fence> {
    s.done + if s.mode.Inside? then [s.mode.fence] else []
  }

  /** The automaton opens, holds or closes a fence on line `i`. */
  ghost predicate Marked(lines: seq<string>, i: nat)
    requires i < |lines|
  {
    FeedAll(lines[..i]).mode.Inside? || FeedAll(lines[..i + 1]).mode.Inside?
  }

  lemma NothingFed()
    ensures FeedAll([]) == Scan([], Outside)
  {
  }

  lemma FeedOne(lines: seq<string>, i: nat)
    requires i < |lines|
    ensures FeedAll(lines[..i + 1]) == Feed(FeedAll(lines[..i]), i, lines[i])
  {
    assert lines[..i + 1][..i] == lines[..i];
  }

  /** The scanner, with its two loops over one index. */
  method ScanFences(lines: seq<string>) returns (fences: seq<Fence>)
    ensures fences == Fences(FeedAll(lines))
  {
    hide FenceOpener, ClosesFence, Unindented, FirstWord, FeedAll;
    NothingFed();
    fences := [];
    var i := 0;
    while i < |lines|
      invariant 0 <= i
      invariant i <= |lines| ==> FeedAll(lines[..i]) == Scan(fences, Outside)
      invariant i > |lines| ==> i == |lines| + 1 && fences == Fences(FeedAll(lines))
    {
      FeedOne(lines, i);
      OpenersHaveRuns(lines[i]);
      var opener := FenceOpener(lines[i]);
      if opener.Some? {
        var fence := Fence(FirstWord(opener.value.info), i, None, []);
        i := i + 1;
        while i < |lines|
          invariant fence.open < i <= |lines| && fence.close == None
          invariant FeedAll(lines[..i]) == Scan(fences, Inside(opener.value, fence))
          decreases |lines| - i
        {
          FeedOne(lines, i);
          if ClosesFence(lines[i], opener.value.run) {
            fence := fence.(close := Some(i));
            break;
          }
          fence := fence.(content := fence.content + [Unindented(lines[i], opener.value.indent)]);
          i := i + 1;
        }
        if i == |lines| { assert lines[..i] == lines; }
        fences := fences + [fence];
      }
      i := i + 1;
    }
    assert lines[..|lines|] == lines;
  }

  // ---- What the fences are ----

  /** Line `i` belongs to the fence: its opener, its content, or its closer. */
  predicate Covers(f: Fence, i: nat, total: nat) {
    f.open <= i < End(f, total)
  }

  function End(f: Fence, total: nat): nat {
    if f.close.Some? then f.close.value + 1 else total
  }

  /** The fence is one the lines hold, ending before line `total`: it starts at an opener, holds every line to
      its end unindented as its opener was, no line it holds would close it, and its closer does. */
  ghost predicate IsFence(f: Fence, lines: seq<string>, total: nat)
    requires total <= |lines|
  {
    f.open < total && (f.close.Some? ==> f.open < f.close.value < total) &&
    var o := FenceOpener(lines[f.open]);
    var end := if f.close.Some? then f.close.value else total;
    o.Some? && o.value.run != "" && f.lang == FirstWord(o.value.info) && |f.content| == end - f.open - 1 &&
    (forall k :: f.open < k < end ==>
       !ClosesFence(lines[k], o.value.run) &&
       f.content[k - f.open - 1] == Unindented(lines[k], o.value.indent)) &&
    (f.close.Some? ==> ClosesFence(lines[f.close.value], o.value.run))
  }

  ghost predicate AllFences(fences: seq<Fence>, lines: seq<string>, total: nat)
    requires total <= |lines|
  {
    forall j :: 0 <= j < |fences| ==> IsFence(fences[j], lines, total)
  }

  /** In order and disjoint, and only the last one may be unclosed. */
  ghost predicate Ordered(fences: seq<Fence>) {
    forall j, k :: 0 <= j < k < |fences| ==>
      fences[j].close.Some? && fences[j].close.value < fences[k].open
  }

  /** No line outside the fences opens one. */
  ghost predicate NoneMissed(fences: seq<Fence>, lines: seq<string>, total: nat)
    requires total <= |lines|
  {
    forall i :: 0 <= i < total && FenceOpener(lines[i]).Some? ==>
      exists j :: 0 <= j < |fences| && Covers(fences[j], i, total)
  }

  /** The fences of the first `total` lines. */
  ghost predicate IsScan(fences: seq<Fence>, lines: seq<string>, total: nat)
    requires total <= |lines|
  {
    AllFences(fences, lines, total) && Ordered(fences) && NoneMissed(fences, lines, total)
  }

  /** What the automaton's state means after `total` lines. */
  ghost predicate Scanned(s: Scan, lines: seq<string>, total: nat)
    requires total <= |lines|
  {
    && IsScan(Fences(s), lines, total)
    && (forall j :: 0 <= j < |s.done| ==> s.done[j].close.Some?)
    && (s.mode.Inside? ==>
          s.mode.fence.close.None? && s.mode.fence.open < total &&
          FenceOpener(lines[s.mode.fence.open]) == Some(s.mode.opener))
  }

  lemma ClosedFenceStays(f: Fence, lines: seq<string>, total: nat)
    requires total < |lines| && IsFence(f, lines, total) && f.close.Some?
    ensures IsFence(f, lines, total + 1)
    ensures forall i :: Covers(f, i, total) <==> Covers(f, i, total + 1)
  {
    hide FenceOpener, ClosesFence, Unindented, FirstWord;
  }

  /** The unclosed fence takes in the next line, as its closer or as content. */
  function Grown(f: Fence, o: Opener, i: nat, line: string): Fence
    requires o.run != ""
  {
    if ClosesFence(line, o.run) then f.(close := Some(i))
    else f.(content := f.content + [Unindented(line, o.indent)])
  }

  lemma OpenFenceGrows(f: Fence, o: Opener, lines: seq<string>, total: nat)
    requires total < |lines| && IsFence(f, lines, total) && f.close.None? && o.run != ""
    requires FenceOpener(lines[f.open]) == Some(o)
    ensures IsFence(Grown(f, o, total, lines[total]), lines, total + 1)
    ensures End(Grown(f, o, total, lines[total]), total + 1) == total + 1
  {
    hide FenceOpener, ClosesFence, Unindented, FirstWord;
    var g := Grown(f, o, total, lines[total]);
    if ClosesFence(lines[total], o.run) {
      assert End(g, total + 1) == total + 1;
    } else {
      forall k | f.open < k < total + 1
        ensures g.content[k - f.open - 1] == Unindented(lines[k], o.indent)
        ensures !ClosesFence(lines[k], o.run)
      {
      }
    }
  }

  /** `gs` is `fs` after one more line: the closed fences are unchanged, and there is at most one other,
      which reaches to that line. */
  ghost predicate GoesOn(done: seq<Fence>, fs: seq<Fence>, gs: seq<Fence>, total: nat) {
    && |done| <= |fs| <= |gs| <= |done| + 1 && fs[..|done|] == done == gs[..|done|]
    && (forall j :: 0 <= j < |done| ==> done[j].close.Some?)
    && (|fs| > |done| ==> fs[|done|].close.None?)
    && (|gs| > |done| ==>
          && End(gs[|done|], total + 1) == total + 1
          && (gs[|done|].open == if |fs| > |done| then fs[|done|].open else total))
  }

  lemma CoverageGoesOn(done: seq<Fence>, fs: seq<Fence>, gs: seq<Fence>, lines: seq<string>, total: nat)
    requires total < |lines| && GoesOn(done, fs, gs, total) && AllFences(gs, lines, total + 1)
    requires NoneMissed(fs, lines, total)
    requires FenceOpener(lines[total]).Some? ==> |gs| > |done|
    ensures NoneMissed(gs, lines, total + 1)
  {
    hide FenceOpener, ClosesFence, Unindented, FirstWord;
    forall i | 0 <= i < total + 1 && FenceOpener(lines[i]).Some?
      ensures exists j :: 0 <= j < |gs| && Covers(gs[j], i, total + 1)
    {
      if i == total {
        assert Covers(gs[|done|], i, total + 1);
      } else {
        var j :| 0 <= j < |fs| && Covers(fs[j], i, total);
        if j < |done| { assert fs[..|done|][j] == gs[..|done|][j]; }
        assert Covers(gs[j], i, total + 1);
      }
    }
  }

  lemma OrderGoesOn(done: seq<Fence>, fs: seq<Fence>, gs: seq<Fence>, lines: seq<string>, total: nat)
    requires total < |lines| && GoesOn(done, fs, gs, total) && AllFences(fs, lines, total) && Ordered(fs)
    ensures Ordered(gs)
  {
    hide FenceOpener, ClosesFence, Unindented, FirstWord;
    forall j, k | 0 <= j < k < |gs| ensures gs[j].close.Some? && gs[j].close.value < gs[k].open {
      assert fs[..|done|][j] == gs[..|done|][j];
      assert IsFence(fs[j], lines, total);
      if k < |done| { assert fs[..|done|][k] == gs[..|done|][k]; }
    }
  }

  lemma FencesGoOn(done: seq<Fence>, fs: seq<Fence>, gs: seq<Fence>, lines: seq<string>, total: nat)
    requires total < |lines| && GoesOn(done, fs, gs, total) && AllFences(fs, lines, total)
    requires |gs| > |done| ==> IsFence(gs[|done|], lines, total + 1)
    ensures AllFences(gs, lines, total + 1)
  {
    hide IsFence, FenceOpener, ClosesFence, Unindented, FirstWord;
    forall j | 0 <= j < |gs| ensures IsFence(gs[j], lines, total + 1) {
      if j < |done| {
        assert fs[..|done|][j] == gs[..|done|][j];
        ClosedFenceStays(fs[j], lines, total);
      }
    }
  }

  /** What feeding the next line does to the fences. */
  ghost predicate LineGoesOn(s: Scan, lines: seq<string>, total: nat)
    requires total < |lines| && (s.mode.Inside? ==> s.mode.opener.run != "")
  {
    OpenersHaveRuns(lines[total]);
    var t := Feed(s, total, lines[total]);
    var fs, gs := Fences(s), Fences(t);
    && GoesOn(s.done, fs, gs, total)
    && (|gs| > |s.done| ==> IsFence(gs[|s.done|], lines, total + 1))
    && (|gs| > |s.done| <==> s.mode.Inside? || t.mode.Inside?)
    && (FenceOpener(lines[total]).Some? ==> |gs| > |s.done|)
  }

  lemma FeedGoesOn(s: Scan, lines: seq<string>, total: nat)
    requires total < |lines| && Scanned(s, lines, total) && (s.mode.Inside? ==> s.mode.opener.run != "")
    ensures LineGoesOn(s, lines, total)
  {
    hide LineGoesOn, Scanned;
    if s.mode.Inside? { FeedInside(s, lines, total); } else { FeedOutside(s, lines, total); }
  }

  lemma TheFenceInside(s: Scan, lines: seq<string>, total: nat)
    requires total < |lines| && Scanned(s, lines, total) && s.mode.Inside?
    ensures var f := s.mode.fence;
            && IsFence(f, lines, total) && f.close.None? && f.open < total
            && FenceOpener(lines[f.open]) == Some(s.mode.opener)
    ensures forall j :: 0 <= j < |s.done| ==> s.done[j].close.Some?
  {
    hide FenceOpener, IsFence, NoneMissed, Ordered;
    assert Fences(s)[|s.done|] == s.mode.fence;
  }

  lemma FeedGrows(s: Scan, i: nat, line: string)
    requires s.mode.Inside? && s.mode.opener.run != ""
    requires FenceOpener(line).Some? ==> FenceOpener(line).value.run != ""
    ensures Fences(s) == s.done + [s.mode.fence]
    ensures Fences(Feed(s, i, line)) == s.done + [Grown(s.mode.fence, s.mode.opener, i, line)]
  {
  }

  lemma FeedInside(s: Scan, lines: seq<string>, total: nat)
    requires total < |lines| && Scanned(s, lines, total) && s.mode.Inside? && s.mode.opener.run != ""
    ensures LineGoesOn(s, lines, total)
  {
    hide FenceOpener, ClosesFence, Unindented, FirstWord, IsFence, Scanned, Fences, Feed;
    OpenersHaveRuns(lines[total]);
    TheFenceInside(s, lines, total);
    FeedGrows(s, total, lines[total]);
    OpenFenceGrows(s.mode.fence, s.mode.opener, lines, total);
  }

  lemma FeedOutside(s: Scan, lines: seq<string>, total: nat)
    requires total < |lines| && Scanned(s, lines, total) && s.mode.Outside?
    ensures LineGoesOn(s, lines, total)
  {
  }

  lemma FeedKeepsTheOpener(s: Scan, lines: seq<string>, total: nat)
    requires total < |lines| && Scanned(s, lines, total) && (s.mode.Inside? ==> s.mode.opener.run != "")
    ensures var t := Feed(s, total, lines[total]);
            && (forall j :: 0 <= j < |t.done| ==> t.done[j].close.Some?)
            && (t.mode.Inside? ==>
                  t.mode.fence.close.None? && t.mode.fence.open <= total &&
                  FenceOpener(lines[t.mode.fence.open]) == Some(t.mode.opener))
  {
    hide FenceOpener, ClosesFence, Unindented, FirstWord, IsScan, Fences;
    OpenersHaveRuns(lines[total]);
    match s.mode
    case Outside =>
    case Inside(o, f) =>
      if ClosesFence(lines[total], o.run) {
        assert Feed(s, total, lines[total]).done == s.done + [f.(close := Some(total))];
      }
  }

  lemma FeedScans(s: Scan, lines: seq<string>, total: nat)
    requires total < |lines| && Scanned(s, lines, total) && (s.mode.Inside? ==> s.mode.opener.run != "")
    ensures Scanned(Feed(s, total, lines[total]), lines, total + 1)
  {
    FeedGoesOn(s, lines, total);
    OpenersHaveRuns(lines[total]);
    hide FenceOpener, ClosesFence, Unindented, FirstWord, IsFence, AllFences, Ordered, NoneMissed, GoesOn, Fences, Feed;
    FeedKeepsTheOpener(s, lines, total);
    var fs, gs := Fences(s), Fences(Feed(s, total, lines[total]));
    FencesGoOn(s.done, fs, gs, lines, total);
    OrderGoesOn(s.done, fs, gs, lines, total);
    CoverageGoesOn(s.done, fs, gs, lines, total);
  }

  lemma NothingScanned(lines: seq<string>)
    ensures Scanned(FeedAll(lines[..0]), lines, 0)
  {
    hide FenceOpener, ClosesFence, Unindented, FirstWord;
  }

  /** The automaton's fences are the fences of the text. */
  lemma {:induction false} AutomatonScans(lines: seq<string>, total: nat)
    requires total <= |lines|
    ensures Scanned(FeedAll(lines[..total]), lines, total)
  {
    hide Scanned, Feed, FeedAll;
    if total > 0 {
      AutomatonScans(lines, total - 1);
      FeedOne(lines, total - 1);
      FeedScans(FeedAll(lines[..total - 1]), lines, total - 1);
    } else {
      NothingScanned(lines);
    }
  }

  lemma SameFence(f: Fence, g: Fence, lines: seq<string>, total: nat)
    requires total <= |lines| && IsFence(f, lines, total) && IsFence(g, lines, total) && f.open == g.open
    ensures f == g
  {
    hide FenceOpener, ClosesFence, Unindented, FirstWord;
    var o := FenceOpener(lines[f.open]).value;
    if f.close.Some? && (g.close.None? || f.close.value < g.close.value) {
      assert false;
    }
    if g.close.Some? && (f.close.None? || g.close.value < f.close.value) {
      assert false;
    }
    assert f.close == g.close;
    forall k | 0 <= k < |f.content| ensures f.content[k] == g.content[k] {
      var line := f.open + 1 + k;
      assert f.content[line - f.open - 1] == Unindented(lines[line], o.indent);
      assert g.content[line - g.open - 1] == Unindented(lines[line], o.indent);
    }
  }

  lemma FenceBasics(f: Fence, lines: seq<string>, total: nat)
    requires total <= |lines| && IsFence(f, lines, total)
    ensures f.open < total && FenceOpener(lines[f.open]).Some?
    ensures f.close.Some? ==> f.open < f.close.value < total
  {
  }

  /** Each scan has a fence of the other's number, starting no later than the other's. */
  lemma NoLaterThan(fs: seq<Fence>, gs: seq<Fence>, lines: seq<string>, total: nat, k: nat)
    requires total <= |lines| && IsScan(fs, lines, total) && IsScan(gs, lines, total)
    requires k < |fs| && k <= |gs| && fs[..k] == gs[..k]
    ensures k < |gs| && gs[k].open <= fs[k].open
  {
    hide FenceOpener, IsFence;
    FenceBasics(fs[k], lines, total);
    var j :| 0 <= j < |gs| && Covers(gs[j], fs[k].open, total);
    assert forall m :: 0 <= m < k ==> fs[..k][m] == gs[..k][m];
    if j < k { assert false; }
    if k < j { assert gs[k].close.Some? && gs[k].close.value < gs[j].open; FenceBasics(gs[k], lines, total); }
  }

  lemma {:induction false} ScansAgree(fs: seq<Fence>, gs: seq<Fence>, lines: seq<string>, total: nat, k: nat)
    requires total <= |lines| && IsScan(fs, lines, total) && IsScan(gs, lines, total)
    requires k <= |fs| && k <= |gs| && fs[..k] == gs[..k]
    ensures fs == gs
    decreases |fs| - k
  {
    hide FenceOpener, IsFence;
    if k < |fs| {
      NoLaterThan(fs, gs, lines, total, k);
      NoLaterThan(gs, fs, lines, total, k);
      assert IsFence(fs[k], lines, total) && IsFence(gs[k], lines, total);
      SameFence(fs[k], gs[k], lines, total);
      assert fs[..k + 1] == fs[..k] + [fs[k]] && gs[..k + 1] == gs[..k] + [gs[k]];
      ScansAgree(fs, gs, lines, total, k + 1);
    } else {
      if k < |gs| { NoLaterThan(gs, fs, lines, total, k); }
      assert fs[..k] == fs && gs[..k] == gs;
    }
  }

  /** The scanner's result is the one list of fences the text has. */
  lemma ScanIsTheScan(lines: seq<string>, fs: seq<Fence>)
    ensures IsScan(fs, lines, |lines|) <==> fs == Fences(FeedAll(lines))
  {
    hide FenceOpener, ClosesFence, Unindented, FirstWord;
    AutomatonScans(lines, |lines|);
    assert lines[..|lines|] == lines;
    if IsScan(fs, lines, |lines|) {
      ScansAgree(fs, Fences(FeedAll(lines)), lines, |lines|, 0);
    }
  }

  // ---- Which lines are fenced ----

  ghost predicate Covered(fences: seq<Fence>, i: nat, total: nat) {
    exists j :: 0 <= j < |fences| && Covers(fences[j], i, total)
  }

  lemma {:induction false} MarkedIsCovered(lines: seq<string>, total: nat)
    requires total <= |lines|
    ensures forall i :: 0 <= i < total ==>
              (Marked(lines, i) <==> Covered(Fences(FeedAll(lines[..total])), i, total))
  {
    hide FeedAll, Feed, Fences, Scanned, Covered;
    if total > 0 {
      var n := total - 1;
      MarkedIsCovered(lines, n);
      AutomatonScans(lines, n);
      FeedOne(lines, n);
      CoverageIsKept(FeedAll(lines[..n]), lines, n);
    }
  }

  /** One more line keeps what is covered, and is covered itself when the automaton marks it. */
  lemma CoverageIsKept(s: Scan, lines: seq<string>, n: nat)
    requires n < |lines| && Scanned(s, lines, n) && (s.mode.Inside? ==> s.mode.opener.run != "")
    ensures var t := Feed(s, n, lines[n]);
            && (forall i :: 0 <= i < n ==> (Covered(Fences(s), i, n) <==> Covered(Fences(t), i, n + 1)))
            && (Covered(Fences(t), n, n + 1) <==> s.mode.Inside? || t.mode.Inside?)
  {
    FeedGoesOn(s, lines, n);
    CoversGoOn(s.done, Fences(s), Fences(Feed(s, n, lines[n])), lines, n);
  }

  lemma CoversGoOn(done: seq<Fence>, fs: seq<Fence>, gs: seq<Fence>, lines: seq<string>, n: nat)
    requires n < |lines| && GoesOn(done, fs, gs, n) && AllFences(fs, lines, n)
    requires |gs| > |done| ==> IsFence(gs[|done|], lines, n + 1)
    ensures forall i :: 0 <= i < n ==> (Covered(fs, i, n) <==> Covered(gs, i, n + 1))
    ensures Covered(gs, n, n + 1) <==> |gs| > |done|
  {
    hide FenceOpener, IsFence;
    forall j | 0 <= j < |done| ensures fs[j] == gs[j] == done[j] && End(fs[j], n) <= n {
      assert fs[..|done|][j] == gs[..|done|][j];
      FenceBasics(fs[j], lines, n);
    }
    if |gs| > |done| { FenceBasics(gs[|done|], lines, n + 1); }
    forall i | 0 <= i < n ensures Covered(fs, i, n) ==> Covered(gs, i, n + 1) {
      if Covered(fs, i, n) {
        var j :| 0 <= j < |fs| && Covers(fs[j], i, n);
        assert Covers(gs[j], i, n + 1);
      }
    }
    forall i | 0 <= i < n ensures Covered(gs, i, n + 1) ==> Covered(fs, i, n) {
      if Covered(gs, i, n + 1) {
        var j :| 0 <= j < |gs| && Covers(gs[j], i, n + 1);
        assert Covers(fs[j], i, n);
      }
    }
    if |gs| > |done| { assert Covers(gs[|done|], n, n + 1); }
  }

  /** Marks exactly the lines the automaton marks. */
  method FencedLines(lines: seq<string>) returns (inside: seq<bool>)
    ensures |inside| == |lines|
    ensures forall i :: 0 <= i < |lines| ==> (inside[i] <==> Marked(lines, i))
  {
    hide FenceOpener, IsFence, FeedAll, Marked, Covered, Ordered, NoneMissed;
    var n := |lines|;
    inside := seq(n, _ => false);
    var fences := ScanFences(lines);
    AutomatonScans(lines, n);
    assert lines[..n] == lines;
    NothingIsCovered(n);
    var j := 0;
    while j < |fences|
      invariant 0 <= j <= |fences| && |inside| == n
      invariant forall i :: 0 <= i < n ==> (inside[i] <==> Covered(fences[..j], i, n))
    {
      var f := fences[j];
      ghost var was := inside;
      FenceBasics(f, lines, n);
      var last := if f.close.Some? then f.close.value else n - 1;
      var i := f.open;
      while i <= last
        invariant f.open <= i <= last + 1 <= n && |inside| == n
        invariant forall k :: 0 <= k < n ==> (inside[k] <==> was[k] || f.open <= k < i)
      {
        inside := inside[i := true];
        i := i + 1;
      }
      forall k | 0 <= k < n ensures inside[k] <==> Covered(fences[..j + 1], k, n) {
        CoveredByOneMore(fences, j, k, n);
      }
      j := j + 1;
    }
    assert fences[..j] == fences;
    MarkedIsCovered(lines, n);
  }

  lemma NothingIsCovered(n: nat)
    ensures forall k: nat :: !Covered([], k, n)
  {
  }

  lemma CoveredByOneMore(fences: seq<Fence>, j: nat, k: nat, n: nat)
    requires j < |fences|
    ensures Covered(fences[..j + 1], k, n) <==> Covered(fences[..j], k, n) || Covers(fences[j], k, n)
  {
  }

  // ---- Scanning a text in two pieces ----

  function Shifted(f: Fence, by': nat): Fence {
    f.(open := f.open + by', close := if f.close.Some? then Some(f.close.value + by') else None)
  }

  function AllShifted(fs: seq<Fence>, by': nat): (gs: seq<Fence>)
    ensures |gs| == |fs| && forall j :: 0 <= j < |fs| ==> gs[j] == Shifted(fs[j], by')
  {
    if fs == [] then [] else AllShifted(fs[..|fs| - 1], by') + [Shifted(fs[|fs| - 1], by')]
  }

  /** `t` is what the scan `s` of a later piece looks like after a closed first piece `first` of `n` lines. */
  ghost predicate Follows(t: Scan, first: seq<Fence>, s: Scan, n: nat) {
    && t.done == first + AllShifted(s.done, n)
    && (s.mode.Outside? ==> t.mode.Outside?)
    && (s.mode.Inside? ==> t.mode == Inside(s.mode.opener, Shifted(s.mode.fence, n)))
  }

  lemma FeedFollows(t: Scan, first: seq<Fence>, s: Scan, n: nat, i: nat, line: string)
    requires Follows(t, first, s, n) && (s.mode.Inside? ==> s.mode.opener.run != "")
    requires s.mode.Inside? ==> s.mode.fence.close.None?
    ensures Follows(Feed(t, n + i, line), first, Feed(s, i, line), n)
  {
    hide FenceOpener, ClosesFence, Unindented, FirstWord;
    if s.mode.Inside? && ClosesFence(line, s.mode.opener.run) {
      var f := s.mode.fence.(close := Some(i));
      assert (s.done + [f])[..|s.done|] == s.done;
      assert AllShifted(s.done + [f], n) == AllShifted(s.done, n) + [Shifted(f, n)];
    }
  }

  lemma NothingFollows(t: Scan, n: nat)
    requires t.mode.Outside?
    ensures Follows(t, t.done, FeedAll([]), n)
  {
  }

  lemma {:induction false} FeedAppend(a: seq<string>, b: seq<string>)
    requires FeedAll(a).mode.Outside?
    ensures Follows(FeedAll(a + b), FeedAll(a).done, FeedAll(b), |a|)
  {
    hide Feed, FeedAll, Follows;
    if b == [] {
      assert a + b == a;
      NothingFollows(FeedAll(a), |a|);
    } else {
      var m := |b| - 1;
      FeedAppend(a, b[..m]);
      assert (a + b)[..|a| + m] == a + b[..m];
      assert (a + b)[|a| + m] == b[m];
      AutomatonScans(b, m);
      FeedOne(b, m);
      FeedOne(a + b, |a| + m);
      assert b[..m + 1] == b && (a + b)[..|a| + m + 1] == a + b;
      FeedFollows(FeedAll(a + b[..m]), FeedAll(a).done, FeedAll(b[..m]), |a|, m, b[m]);
    }
  }

  lemma OpenFenceIsListed(a: seq<string>)
    ensures FeedAll(a).mode.Inside? ==> exists f :: f in Fences(FeedAll(a)) && f.close.None?
  {
    hide FeedAll, IsScan;
    AutomatonScans(a, |a|);
    assert a[..|a|] == a;
    var s := FeedAll(a);
    if s.mode.Inside? { assert Fences(s)[|s.done|] == s.mode.fence; }
  }

  lemma FollowingFences(t: Scan, first: Scan, s: Scan, n: nat)
    requires first.mode.Outside? && Follows(t, first.done, s, n)
    ensures Fences(t) == Fences(first) + AllShifted(Fences(s), n)
  {
  }

  /** Scanning `a + b` is scanning `a`, then `b` moved down by `a`'s lines, whenever every fence in `a` is
      closed. */
  lemma ScanOfTwoPieces(a: seq<string>, b: seq<string>)
    requires forall f :: f in Fences(FeedAll(a)) ==> f.close.Some?
    ensures Fences(FeedAll(a + b)) == Fences(FeedAll(a)) + AllShifted(Fences(FeedAll(b)), |a|)
  {
    hide FeedAll, Scanned;
    var first := FeedAll(a);
    OpenFenceIsListed(a);
    FeedAppend(a, b);
    FollowingFences(FeedAll(a + b), first, FeedAll(b), |a|);
  }
}
