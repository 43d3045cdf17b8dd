/** The merges a cancelled task left open, read back from its event log in two passes: the reports
    first, then the settlements of what was reported. */
module MergeLeftOpen {
  import opened Options

  /** What identifies a merge: its directory and its merge head. */
  type Key = (string, string)

  /** A row of the log. A payload field that is missing or no string is None. */
  datatype Event =
    | LeftOpen(dir: Option<string>, ref: Option<string>, head: Option<string>, mergeHead: Option<string>)
    | LeftOpenSettled(dir: Option<string>, mergeHead: Option<string>, outcome: Option<string>, reason: Option<string>)
    | Other

  datatype Settlement = Settlement(outcome: string, reason: string)

  datatype Refusals = Refusals(reason: string, count: nat)

  datatype Merge = Merge(dir: string, ref: string, head: string, mergeHead: string,
                         settled: Option<Settlement>, refused: Option<Refusals>)

  const OUTCOMES := ["aborted", "moved", "refused", "aborted-by-next"]

  // ---- What the log says ----------------------------------------------------------------------

  /** A report shaped as written. */
  datatype Report = Report(dir: string, ref: string, head: string, mergeHead: string) {
    function Key(): Key {
      (dir, mergeHead)
    }
  }

  /** A settlement shaped as written. */
  datatype Answer = Answer(key: Key, outcome: string, reason: string)

  function ReportOf(e: Event): Option<Report> {
    if e.LeftOpen? && e.dir.Some? && e.ref.Some? && e.head.Some? && e.mergeHead.Some? then
      Some(Report(e.dir.value, e.ref.value, e.head.value, e.mergeHead.value))
    else
      None
  }

  function AnswerOf(e: Event): Option<Answer> {
    if e.LeftOpenSettled? && e.dir.Some? && e.mergeHead.Some? && e.outcome.Some? && e.outcome.value in OUTCOMES then
      Some(Answer((e.dir.value, e.mergeHead.value), e.outcome.value, if e.reason.Some? then e.reason.value else ""))
    else
      None
  }

  function Reports(events: seq<Event>): seq<Report> {
    if events == [] then [] else
      var before := Reports(events[..|events| - 1]);
      match ReportOf(events[|events| - 1])
      case Some(r) => before + [r]
      case None => before
  }

  function Answers(events: seq<Event>): seq<Answer> {
    if events == [] then [] else
      var before := Answers(events[..|events| - 1]);
      match AnswerOf(events[|events| - 1])
      case Some(a) => before + [a]
      case None => before
  }

  // ---- What follows from it -------------------------------------------------------------------

  predicate Reported(rs: seq<Report>, k: Key) {
    exists r :: r in rs && r.Key() == k
  }

  /** The reports that are the first of their merge. */
  function Firsts(rs: seq<Report>): seq<Report> {
    if rs == [] then [] else
      var before := Firsts(rs[..|rs| - 1]);
      var last := rs[|rs| - 1];
      if Reported(before, last.Key()) then before else before + [last]
  }

  /** How a merge stands: settled or not, and the refusals met on the way. */
  datatype Standing = Standing(settled: Option<Settlement>, refused: Option<Refusals>) {
    function Count(): nat {
      if refused.Some? then refused.value.count else 0
    }

    function Then(a: Answer): Standing {
      if settled.Some? then
        this
      else if a.outcome == "refused" then
        this.(refused := Some(Refusals(a.reason, Count() + 1)))
      else
        this.(settled := Some(Settlement(a.outcome, a.reason)))
    }
  }

  function StandingOf(answers: seq<Answer>, k: Key): Standing {
    if answers == [] then Standing(None, None) else
      var before := StandingOf(answers[..|answers| - 1], k);
      var last := answers[|answers| - 1];
      if last.key == k then before.Then(last) else before
  }

  function MergeOf(r: Report, s: Standing): Merge {
    Merge(r.dir, r.ref, r.head, r.mergeHead, s.settled, s.refused)
  }

  function Result(events: seq<Event>): seq<Merge> {
    var firsts := Firsts(Reports(events));
    seq(|firsts|, i requires 0 <= i < |firsts| => MergeOf(firsts[i], StandingOf(Answers(events), firsts[i].Key())))
  }

  // ---- The two passes -------------------------------------------------------------------------

  method LeftOpenMerges(events: seq<Event>) returns (merges: seq<Merge>)
    ensures merges == Result(events)
  {
    hide Reports, Answers, Firsts, StandingOf, Listed;
    var order: seq<Key> := [];
    var entries: map<Key, Merge> := map[];
    Nothing();
    for n := 0 to |events|
      invariant Listed(order, entries, Firsts(Reports(events[..n])), [])
    {
      var e := events[n];
      ReportStep(order, entries, events, n);
      if e.LeftOpen? && e.dir.Some? && e.ref.Some? && e.head.Some? && e.mergeHead.Some? {
        var k := (e.dir.value, e.mergeHead.value);
        if k !in entries {
          order := order + [k];
          entries := entries[k := Merge(e.dir.value, e.ref.value, e.head.value, e.mergeHead.value, None, None)];
        }
      }
    }
    assert events[..|events|] == events;
    for n := 0 to |events|
      invariant Listed(order, entries, Firsts(Reports(events)), Answers(events[..n]))
    {
      var e := events[n];
      AnswerStep(order, entries, Firsts(Reports(events)), events, n);
      if e.LeftOpenSettled? && e.dir.Some? && e.mergeHead.Some? && e.outcome.Some? && e.outcome.value in OUTCOMES {
        var k := (e.dir.value, e.mergeHead.value);
        if k in entries && entries[k].settled.None? {
          var merge := entries[k];
          var reason := if e.reason.Some? then e.reason.value else "";
          if e.outcome.value == "refused" {
            var count := if merge.refused.Some? then merge.refused.value.count else 0;
            entries := entries[k := merge.(refused := Some(Refusals(reason, count + 1)))];
          } else {
            entries := entries[k := merge.(settled := Some(Settlement(e.outcome.value, reason)))];
          }
        }
      }
    }
    ListedValues(order, entries, events);
    merges := seq(|order|, i requires 0 <= i < |order| && order[i] in entries => entries[order[i]]);
  }

  /** The insertion-ordered map holds one entry per first report, as the answers leave it. */
  ghost predicate Listed(order: seq<Key>, entries: map<Key, Merge>, firsts: seq<Report>, answers: seq<Answer>) {
    && |order| == |firsts|
    && (forall i :: 0 <= i < |order| ==>
          order[i] == firsts[i].Key() && order[i] in entries
          && entries[order[i]] == MergeOf(firsts[i], StandingOf(answers, order[i])))
    && (forall k :: k in entries ==> k in order)
    && (forall i, j :: 0 <= i < j < |order| ==> order[i] != order[j])
  }

  lemma Nothing()
    ensures Firsts(Reports([])) == [] && Answers([]) == []
    ensures Listed([], map[], [], [])
  {
  }

  lemma ListedValues(order: seq<Key>, entries: map<Key, Merge>, events: seq<Event>)
    requires Listed(order, entries, Firsts(Reports(events)), Answers(events))
    ensures forall i :: 0 <= i < |order| ==> order[i] in entries
    ensures |order| == |Result(events)|
    ensures forall i :: 0 <= i < |order| ==> entries[order[i]] == Result(events)[i]
  {
  }

  lemma KeysAreListed(order: seq<Key>, entries: map<Key, Merge>, firsts: seq<Report>, answers: seq<Answer>, k: Key)
    requires Listed(order, entries, firsts, answers)
    ensures k in entries <==> Reported(firsts, k)
  {
  }

  lemma NewEntry(order: seq<Key>, entries: map<Key, Merge>, firsts: seq<Report>, r: Report)
    requires Listed(order, entries, firsts, []) && r.Key() !in entries
    ensures Listed(order + [r.Key()], entries[r.Key() := MergeOf(r, Standing(None, None))], firsts + [r], [])
  {
  }

  /** What the first pass owes each event: a new entry for a new merge, and nothing else. */
  lemma ReportStep(order: seq<Key>, entries: map<Key, Merge>, events: seq<Event>, n: nat)
    requires n < |events| && Listed(order, entries, Firsts(Reports(events[..n])), [])
    ensures match ReportOf(events[n])
            case None => Listed(order, entries, Firsts(Reports(events[..n + 1])), [])
            case Some(r) =>
              if r.Key() in entries then
                Listed(order, entries, Firsts(Reports(events[..n + 1])), [])
              else
                Listed(order + [r.Key()], entries[r.Key() := MergeOf(r, Standing(None, None))],
                       Firsts(Reports(events[..n + 1])), [])
  {
    hide Listed;
    assert events[..n + 1][..n] == events[..n];
    var rs := Reports(events[..n]);
    match ReportOf(events[n])
    case None =>
    case Some(r) =>
      assert (rs + [r])[..|rs|] == rs;
      KeysAreListed(order, entries, Firsts(rs), [], r.Key());
      if r.Key() !in entries {
        NewEntry(order, entries, Firsts(rs), r);
      }
  }

  /** What the second pass owes each event: the entry it answers moves on, if there is one. */
  lemma AnswerStep(order: seq<Key>, entries: map<Key, Merge>, firsts: seq<Report>, events: seq<Event>, n: nat)
    requires n < |events| && Listed(order, entries, firsts, Answers(events[..n]))
    ensures match AnswerOf(events[n])
            case None => Listed(order, entries, firsts, Answers(events[..n + 1]))
            case Some(a) =>
              if a.key !in entries || entries[a.key].settled.Some? then
                Listed(order, entries, firsts, Answers(events[..n + 1]))
              else
                var s := Standing(entries[a.key].settled, entries[a.key].refused).Then(a);
                Listed(order, entries[a.key := entries[a.key].(settled := s.settled, refused := s.refused)],
                       firsts, Answers(events[..n + 1]))
  {
    assert events[..n + 1][..n] == events[..n];
    var answers := Answers(events[..n]);
    match AnswerOf(events[n])
    case None =>
    case Some(a) =>
      assert (answers + [a])[..|answers|] == answers;
      if a.key in entries {
        var i :| 0 <= i < |order| && order[i] == a.key;
        assert entries[order[i]] == MergeOf(firsts[i], StandingOf(answers, order[i]));
      }
  }

  // ---- One entry per merge, in the order of the first reports ---------------------------------

  /** Report `i` is the first of merge `k`. */
  predicate FirstAt(rs: seq<Report>, i: int, k: Key) {
    0 <= i < |rs| && rs[i].Key() == k && forall j :: 0 <= j < i ==> rs[j].Key() != k
  }

  /** Every merge reported has one entry, and no other merge has any. */
  lemma {:induction false} OneEntryPerMerge(rs: seq<Report>)
    ensures forall k :: Reported(rs, k) <==> Reported(Firsts(rs), k)
    ensures forall i, j :: 0 <= i < j < |Firsts(rs)| ==> Firsts(rs)[i].Key() != Firsts(rs)[j].Key()
  {
    if rs != [] {
      var before, last := rs[..|rs| - 1], rs[|rs| - 1];
      OneEntryPerMerge(before);
      assert rs == before + [last];
      ReportedGrows(before, last);
      ReportedGrows(Firsts(before), last);
      if !Reported(Firsts(before), last.Key()) {
        forall i | 0 <= i < |Firsts(before)| ensures Firsts(before)[i].Key() != last.Key() {
          assert Firsts(before)[i] in Firsts(before);
        }
      }
    }
  }

  /** An entry carries what the first report of its merge said. */
  lemma {:induction false} EntriesAreFirstReports(rs: seq<Report>, i: nat) returns (p: nat)
    requires i < |Firsts(rs)|
    ensures FirstAt(rs, p, Firsts(rs)[i].Key()) && rs[p] == Firsts(rs)[i]
  {
    var before, last := rs[..|rs| - 1], rs[|rs| - 1];
    assert rs == before + [last];
    FirstAtGrows(before, last);
    if i < |Firsts(before)| {
      p := EntriesAreFirstReports(before, i);
    } else {
      p := |before|;
      OneEntryPerMerge(before);
      Unreported(before, last.Key());
    }
  }

  /** The entries stand in the order of the first reports. */
  lemma {:induction false} EntriesFollowTheReports(rs: seq<Report>, i: nat, j: nat, p: int, q: int)
    requires i < j < |Firsts(rs)|
    requires FirstAt(rs, p, Firsts(rs)[i].Key()) && FirstAt(rs, q, Firsts(rs)[j].Key())
    ensures p < q
  {
    var before, last := rs[..|rs| - 1], rs[|rs| - 1];
    assert rs == before + [last];
    FirstAtGrows(before, last);
    var p' := EntriesAreFirstReports(before, i);
    assert p' == p;
    if j < |Firsts(before)| {
      var q' := EntriesAreFirstReports(before, j);
      assert q' == q;
      EntriesFollowTheReports(before, i, j, p, q);
    } else {
      OneEntryPerMerge(before);
      Unreported(before, last.Key());
    }
  }

  lemma Unreported(rs: seq<Report>, k: Key)
    requires !Reported(rs, k)
    ensures forall j :: 0 <= j < |rs| ==> rs[j].Key() != k
  {
  }

  lemma FirstAtGrows(rs: seq<Report>, r: Report)
    ensures forall k, p :: FirstAt(rs, p, k) ==> FirstAt(rs + [r], p, k)
    ensures forall k, p :: FirstAt(rs + [r], p, k) && p != |rs| ==> FirstAt(rs, p, k)
    ensures forall k :: FirstAt(rs + [r], |rs|, k) ==> !Reported(rs, k) && k == r.Key()
  {
    var more := rs + [r];
    assert forall j :: 0 <= j < |rs| ==> more[j] == rs[j];
    forall k, p | FirstAt(more, p, k) && p != |rs| ensures FirstAt(rs, p, k) {
      assert forall j :: 0 <= j < p ==> rs[j] == more[j];
    }
    forall k | FirstAt(more, |rs|, k) ensures !Reported(rs, k) && k == r.Key() {
      assert forall j :: 0 <= j < |rs| ==> rs[j] == more[j];
    }
  }

  lemma ReportedGrows(rs: seq<Report>, r: Report)
    ensures forall k :: Reported(rs + [r], k) <==> Reported(rs, k) || k == r.Key()
  {
  }

  // ---- In terms of the events themselves ----

  /** A report shaped as written, in the event's own fields. */
  predicate Reports4(e: Event, m: Merge) {
    e == LeftOpen(Some(m.dir), Some(m.ref), Some(m.head), Some(m.mergeHead))
  }

  predicate ReportsMerge(e: Event, dir: string, mergeHead: string) {
    e.LeftOpen? && e.dir == Some(dir) && e.mergeHead == Some(mergeHead) && e.ref.Some? && e.head.Some?
  }

  lemma {:induction false} ReportsAreEvents(events: seq<Event>, k: nat) returns (n: nat)
    requires k < |Reports(events)|
    ensures n < |events| && ReportOf(events[n]) == Some(Reports(events)[k])
    ensures Reports(events[..n]) == Reports(events)[..k]
  {
    var last := |events| - 1;
    if k < |Reports(events[..last])| {
      n := ReportsAreEvents(events[..last], k);
      assert events[..last][..n] == events[..n];
    } else {
      n := last;
    }
  }

  lemma {:induction false} EventsAreReports(events: seq<Event>, m: nat)
    requires m < |events| && ReportOf(events[m]).Some?
    ensures ReportOf(events[m]).value in Reports(events)
  {
    var last := |events| - 1;
    if m < last { EventsAreReports(events[..last], m); }
  }

  /** Each entry says what some event reported, the first of its directory and merge head. */
  lemma EntriesSayWhatWasReported(events: seq<Event>, i: nat) returns (n: nat)
    requires i < |Result(events)|
    ensures n < |events| && Reports4(events[n], Result(events)[i])
    ensures forall m :: 0 <= m < n ==> !ReportsMerge(events[m], Result(events)[i].dir, Result(events)[i].mergeHead)
  {
    hide Reports, Firsts, StandingOf;
    var rs := Reports(events);
    var p := EntriesAreFirstReports(rs, i);
    n := ReportsAreEvents(events, p);
    forall m | 0 <= m < n ensures !ReportsMerge(events[m], Result(events)[i].dir, Result(events)[i].mergeHead) {
      assert events[..n][m] == events[m];
      if ReportOf(events[m]).Some? { EventsAreReports(events[..n], m); }
    }
  }

  /** Which events answer for a merge: settlements of one of four outcomes, with or without a reason. */
  lemma AnswersInWords(e: Event, a: Answer)
    ensures AnswerOf(e) == Some(a) <==>
              exists reason ::
                e == LeftOpenSettled(Some(a.key.0), Some(a.key.1), Some(a.outcome), reason)
                && (a.outcome == "aborted" || a.outcome == "moved" || a.outcome == "refused"
                    || a.outcome == "aborted-by-next")
                && a.reason == match reason case Some(text) => text case None => ""
  {
    assert OUTCOMES[0] == "aborted" && OUTCOMES[1] == "moved";
    assert OUTCOMES[2] == "refused" && OUTCOMES[3] == "aborted-by-next";
    if AnswerOf(e) == Some(a) {
      assert e == LeftOpenSettled(Some(a.key.0), Some(a.key.1), Some(a.outcome), e.reason);
    }
  }

  // ---- Settled by the first answer that is no refusal -----------------------------------------

  predicate Refuses(a: Answer, k: Key) {
    a.key == k && a.outcome == "refused"
  }

  predicate Settles(a: Answer, k: Key) {
    a.key == k && a.outcome != "refused"
  }

  /** `f` is where the first answer that settles `k` stands, or the end when there is none. */
  predicate FirstSettling(answers: seq<Answer>, k: Key, f: int) {
    && 0 <= f <= |answers|
    && (forall j :: 0 <= j < f ==> !Settles(answers[j], k))
    && (f < |answers| ==> Settles(answers[f], k))
  }

  function RefusalsBefore(answers: seq<Answer>, k: Key, f: int): set<int>
    requires 0 <= f <= |answers|
  {
    set j | 0 <= j < f && Refuses(answers[j], k)
  }

  lemma RefusalsGrow(answers: seq<Answer>, k: Key, f: int)
    requires answers != [] && 0 <= f <= |answers|
    ensures var n := |answers| - 1;
            f <= n ==> RefusalsBefore(answers, k, f) == RefusalsBefore(answers[..n], k, f)
    ensures var n := |answers| - 1;
            RefusalsBefore(answers, k, n + 1)
            == RefusalsBefore(answers[..n], k, n) + if Refuses(answers[n], k) then {n} else {}
  {
  }

  /** The first settling answer settles the merge, whatever follows it, and the refusals counted are
      exactly those before it. */
  lemma {:induction false} StandingIsTheFirstSettling(answers: seq<Answer>, k: Key, f: int)
    requires FirstSettling(answers, k, f)
    ensures StandingOf(answers, k).settled ==
              if f == |answers| then None else Some(Settlement(answers[f].outcome, answers[f].reason))
    ensures StandingOf(answers, k).Count() == |RefusalsBefore(answers, k, f)|
    ensures StandingOf(answers, k).refused.Some? <==> RefusalsBefore(answers, k, f) != {}
  {
    if answers == [] {
      assert RefusalsBefore(answers, k, f) == {};
    } else {
      var n := |answers| - 1;
      RefusalsGrow(answers, k, f);
      StandingIsTheFirstSettling(answers[..n], k, if f <= n then f else n);
    }
  }

  /** The reason kept is that of the last refusal before the settlement. */
  lemma {:induction false} TheLastRefusalIsKept(answers: seq<Answer>, k: Key, f: int, j: int)
    requires FirstSettling(answers, k, f)
    requires j in RefusalsBefore(answers, k, f) && forall i :: i in RefusalsBefore(answers, k, f) ==> i <= j
    ensures StandingOf(answers, k).refused.Some?
    ensures StandingOf(answers, k).refused.value.reason == answers[j].reason
  {
    var n := |answers| - 1;
    RefusalsGrow(answers, k, f);
    StandingIsTheFirstSettling(answers[..n], k, if f <= n then f else n);
    if j < n {
      TheLastRefusalIsKept(answers[..n], k, if f <= n then f else n, j);
    }
  }

  // ---- The result depends on each kind of event alone -----------------------------------------

  function OnlyReports(events: seq<Event>): seq<Event> {
    if events == [] then [] else
      var before := OnlyReports(events[..|events| - 1]);
      if events[|events| - 1].LeftOpen? then before + [events[|events| - 1]] else before
  }

  function OnlySettlements(events: seq<Event>): seq<Event> {
    if events == [] then [] else
      var before := OnlySettlements(events[..|events| - 1]);
      if events[|events| - 1].LeftOpenSettled? then before + [events[|events| - 1]] else before
  }

  lemma {:induction false} EachPassReadsItsOwnKind(events: seq<Event>)
    ensures Reports(events) == Reports(OnlyReports(events))
    ensures Answers(events) == Answers(OnlySettlements(events))
  {
    if events != [] {
      var before, last := events[..|events| - 1], events[|events| - 1];
      EachPassReadsItsOwnKind(before);
      assert (OnlyReports(before) + [last])[..|OnlyReports(before)|] == OnlyReports(before);
      assert (OnlySettlements(before) + [last])[..|OnlySettlements(before)|] == OnlySettlements(before);
    }
  }

  /** Two logs with the same reports in the same order and the same settlements in the same order,
      however the two are interleaved with each other and with other events, give one result. */
  lemma InterleavingDoesNotMatter(a: seq<Event>, b: seq<Event>)
    requires OnlyReports(a) == OnlyReports(b) && OnlySettlements(a) == OnlySettlements(b)
    ensures Result(a) == Result(b)
  {
    EachPassReadsItsOwnKind(a);
    EachPassReadsItsOwnKind(b);
  }

  // ---- A longer log ---------------------------------------------------------------------------

  /** `later` is what `now` can become: settled merges are final, open ones only gather refusals
      until they settle, and what was reported never changes. */
  predicate Continues(now: Merge, later: Merge) {
    && later.(settled := now.settled, refused := now.refused) == now
    && (now.settled.Some? ==> later == now)
    && (now.refused.Some? ==> later.refused.Some? && later.refused.value.count >= now.refused.value.count)
  }

  /** Extending the log moves no entry and takes back no settlement. */
  lemma {:induction false} ALongerLogContinues(a: seq<Event>, b: seq<Event>)
    ensures |Result(a)| <= |Result(a + b)|
    ensures forall i :: 0 <= i < |Result(a)| ==> Continues(Result(a)[i], Result(a + b)[i])
  {
    hide FirstAt;
    if b == [] {
      assert a + b == a;
    } else {
      var init := b[..|b| - 1];
      ALongerLogContinues(a, init);
      assert (a + b)[..|a + b| - 1] == a + init;
      OneMoreEvent(a + b);
    }
  }

  lemma OneMoreEvent(events: seq<Event>)
    requires events != []
    ensures var before := Result(events[..|events| - 1]);
            |before| <= |Result(events)|
            && forall i :: 0 <= i < |before| ==> Continues(before[i], Result(events)[i])
  {
  }
}
