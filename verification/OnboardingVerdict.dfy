/** Whether a repository counts as onboarded, folded from its task history and artifact ledger, and
    whether that admits an upgrade. A reset takes back everything dated up to it. */
module OnboardingVerdict {
  import opened Options
  import opened RepositoryRecords

  const PROJECT_STATE_IMPORT_STEP_ID := "project-state-import"

  // ---- What a history holds -------------------------------------------------------------------

  predicate OnboardingOf(t: Task, user: UserId, r: RepoId) {
    t.userId == user && t.kind == Onboarding && t.repositoryId == Some(r)
  }

  /** `ids` restricted to the onboarding runs of one repository. */
  function Runs(tasks: map<TaskId, Task>, ids: set<TaskId>, user: UserId, r: RepoId): set<TaskId> {
    set id | id in ids && id in tasks && OnboardingOf(tasks[id], user, r)
  }

  function LiveRuns(tasks: map<TaskId, Task>, ids: set<TaskId>, user: UserId, r: RepoId): set<TaskId> {
    set id | id in ids && id in tasks && OnboardingOf(tasks[id], user, r) && IsLiveStatus(tasks[id].status)
  }

  function CompletedRuns(tasks: map<TaskId, Task>, ids: set<TaskId>, user: UserId, r: RepoId): set<TaskId> {
    set id | id in ids && id in tasks && OnboardingOf(tasks[id], user, r) && tasks[id].status == Completed
  }

  function CompletionDates(tasks: map<TaskId, Task>, ids: set<TaskId>, user: UserId, r: RepoId): set<int> {
    set id | id in ids && id in tasks && OnboardingOf(tasks[id], user, r) && tasks[id].status == Completed
          && tasks[id].completedAt.Some? :: tasks[id].completedAt.value
  }

  /** The completed workflows that can stand in for onboarding: of a repository created blank and never
      reset. */
  function WorkflowDates(db: Tables, user: UserId, r: RepoId): set<int> {
    if r !in db.repositories || db.repositories[r].userId != user || db.repositories[r].source != "blank"
       || db.repositories[r].onboardingResetAt.Some? then {}
    else
      set id | id in db.tasks && db.tasks[id].userId == user && db.tasks[id].kind == Workflow
            && db.tasks[id].repositoryId == Some(r) && db.tasks[id].status == Completed
            && db.tasks[id].completedAt.Some? :: db.tasks[id].completedAt.value
  }

  predicate IsImportMarker(a: Artifact) {
    a.source == FromBackfill && a.sourceStepId == PROJECT_STATE_IMPORT_STEP_ID
  }

  /** A live row that stands for a run of the step that finishes onboarding, here or on another install. */
  predicate IsEvidence(a: Artifact, user: UserId, r: RepoId, markersOnly: bool) {
    && a.userId == user && a.repositoryId == r && a.supersededAt == None
    && (a.source == FromOnboarding || IsImportMarker(a))
    && (markersOnly ==> IsImportMarker(a))
  }

  function EvidenceDate(a: Artifact): Option<int> {
    if IsImportMarker(a) then a.importedAt else Some(a.generatedAt)
  }

  function EvidenceDates(artifacts: map<nat, Artifact>, ids: set<nat>, user: UserId, r: RepoId, markersOnly: bool)
    : set<int>
  {
    set id | id in ids && id in artifacts && IsEvidence(artifacts[id], user, r, markersOnly)
          && EvidenceDate(artifacts[id]).Some? :: EvidenceDate(artifacts[id]).value
  }

  /** Which tasks are a repository's runs, live or completed, in the columns' own words. */
  lemma RunsInWords(tasks: map<TaskId, Task>, user: UserId, r: RepoId, id: TaskId)
    requires id in tasks
    ensures var t := tasks[id];
            var isRun := t.userId == user && t.kind == Onboarding && t.repositoryId == Some(r);
            && (id in Runs(tasks, tasks.Keys, user, r) <==> isRun)
            && (id in LiveRuns(tasks, tasks.Keys, user, r) <==>
                  isRun && t.status in {Created, Queued, Running, Paused, WaitingUser, WaitingPr})
            && (id in CompletedRuns(tasks, tasks.Keys, user, r) <==> isRun && t.status == Completed)
  {
  }

  lemma CompletionsInWords(tasks: map<TaskId, Task>, user: UserId, r: RepoId, d: int)
    ensures d in CompletionDates(tasks, tasks.Keys, user, r) <==>
              exists id :: id in tasks && tasks[id].userId == user && tasks[id].kind == Onboarding
                && tasks[id].repositoryId == Some(r) && tasks[id].status == Completed
                && tasks[id].completedAt == Some(d)
  {
    if id :| id in tasks && tasks[id].userId == user && tasks[id].kind == Onboarding
             && tasks[id].repositoryId == Some(r) && tasks[id].status == Completed
             && tasks[id].completedAt == Some(d) {
      assert OnboardingOf(tasks[id], user, r);
    }
  }

  /** A completed workflow counts only for a repository of its user's that was created blank and never reset. */
  lemma WorkflowsInWords(db: Tables, user: UserId, r: RepoId, d: int)
    ensures d in WorkflowDates(db, user, r) <==>
              && r in db.repositories && db.repositories[r].userId == user
              && db.repositories[r].source == "blank" && db.repositories[r].onboardingResetAt == None
              && exists id :: id in db.tasks && db.tasks[id].userId == user && db.tasks[id].kind == Workflow
                   && db.tasks[id].repositoryId == Some(r) && db.tasks[id].status == Completed
                   && db.tasks[id].completedAt == Some(d)
  {
  }

  /** What the ledger offers: a row of an onboarding by the date it was generated, and a marker of an import by the
      date of the import, both only while nothing supersedes them. */
  lemma EvidenceInWords(artifacts: map<nat, Artifact>, user: UserId, r: RepoId, markersOnly: bool, d: int)
    ensures d in EvidenceDates(artifacts, artifacts.Keys, user, r, markersOnly) <==>
              exists id :: id in artifacts && artifacts[id].userId == user && artifacts[id].repositoryId == r
                && artifacts[id].supersededAt == None
                && ((artifacts[id].source == FromOnboarding && !markersOnly && artifacts[id].generatedAt == d)
                    || (artifacts[id].source == FromBackfill
                        && artifacts[id].sourceStepId == "project-state-import" && artifacts[id].importedAt == Some(d)))
  {
    if id :| id in artifacts && artifacts[id].userId == user && artifacts[id].repositoryId == r
             && artifacts[id].supersededAt == None
             && ((artifacts[id].source == FromOnboarding && !markersOnly && artifacts[id].generatedAt == d)
                 || (artifacts[id].source == FromBackfill
                     && artifacts[id].sourceStepId == "project-state-import" && artifacts[id].importedAt == Some(d))) {
      assert IsEvidence(artifacts[id], user, r, markersOnly) && EvidenceDate(artifacts[id]) == Some(d);
    }
  }

  // ---- Folding to the newest ------------------------------------------------------------------

  predicate IsNewest(d: Option<int>, dates: set<int>) {
    match d
    case None => forall other :: other !in dates
    case Some(v) => v in dates && forall other :: other in dates ==> other <= v
  }

  predicate SomeAfter(dates: set<int>, epoch: int) {
    exists d :: d in dates && d > epoch
  }

  /** The newest date is after the epoch exactly when some date is. */
  lemma NewestDecides(d: Option<int>, dates: set<int>, epoch: int)
    requires IsNewest(d, dates)
    ensures (d.Some? && d.value > epoch) <==> SomeAfter(dates, epoch)
  {
  }

  datatype Facts = Facts(newestCompletedWorkflowAt: Option<int>, liveTaskId: Option<TaskId>,
                         hasCompleted: bool, newestCompletedAt: Option<int>, hasAny: bool)

  const NO_ONBOARDING_TASKS := Facts(None, None, false, None, false)

  /** The facts tell of exactly the runs among `ids`. Of several live runs the newest is named. */
  predicate Describes(f: Facts, tasks: map<TaskId, Task>, ids: set<TaskId>, user: UserId, r: RepoId) {
    && (f.hasAny <==> Runs(tasks, ids, user, r) != {})
    && (f.hasCompleted <==> CompletedRuns(tasks, ids, user, r) != {})
    && IsNewest(f.newestCompletedAt, CompletionDates(tasks, ids, user, r))
    && (f.liveTaskId == None ==> LiveRuns(tasks, ids, user, r) == {})
    && (f.liveTaskId.Some? ==>
          var live := f.liveTaskId.value;
          live in LiveRuns(tasks, ids, user, r)
          && forall id :: id in LiveRuns(tasks, ids, user, r) ==> tasks[id].createdAt <= tasks[live].createdAt)
  }

  function FactsAt(byRepo: map<RepoId, Facts>, r: RepoId): Facts {
    if r in byRepo then byRepo[r] else NO_ONBOARDING_TASKS
  }

  /** ORDER BY created_at DESC; rows of one instant come in any order. */
  ghost predicate NewestFirst(tasks: map<TaskId, Task>, rows: seq<TaskId>) {
    && (forall i :: 0 <= i < |rows| ==> rows[i] in tasks)
    && forall i, j :: 0 <= i < j < |rows| ==> tasks[rows[i]].createdAt >= tasks[rows[j]].createdAt
  }

  lemma {:induction false} ANewestExists(tasks: map<TaskId, Task>, ids: set<TaskId>) returns (newest: TaskId)
    requires ids != {} && ids <= tasks.Keys
    ensures newest in ids && forall id :: id in ids ==> tasks[id].createdAt <= tasks[newest].createdAt
    decreases |ids|
  {
    var one :| one in ids;
    var rest := ids - {one};
    assert ids == rest + {one};
    if rest == {} {
      return one;
    }
    newest := ANewestExists(tasks, rest);
    if tasks[newest].createdAt < tasks[one].createdAt {
      newest := one;
    }
  }

  predicate IsRunIn(t: Task, user: UserId, repos: set<RepoId>) {
    t.userId == user && t.kind == Onboarding && t.repositoryId.Some? && t.repositoryId.value in repos
  }

  method SelectOnboardingRuns(tasks: map<TaskId, Task>, user: UserId, repos: set<RepoId>) returns (rows: seq<TaskId>)
    ensures NewestFirst(tasks, rows)
    ensures forall id :: id in rows <==> id in tasks && IsRunIn(tasks[id], user, repos)
  {
    var all := set id | id in tasks && IsRunIn(tasks[id], user, repos);
    var left := all;
    rows := [];
    while left != {}
      invariant left <= all && NewestFirst(tasks, rows)
      invariant forall id :: id in all <==> id in left || id in rows
      invariant forall i, id :: 0 <= i < |rows| && id in left ==> tasks[rows[i]].createdAt >= tasks[id].createdAt
    {
      ghost var witnessed := ANewestExists(tasks, left);
      var next :| next in left && forall id :: id in left ==> tasks[id].createdAt <= tasks[next].createdAt;
      rows := rows + [next];
      left := left - {next};
    }
  }

  /** One row a repository: the newest completion, absent when no completed workflow is dated. */
  method SelectWorkflowCompletions(db: Tables, user: UserId, repos: set<RepoId>)
    returns (rows: map<RepoId, Option<int>>)
    ensures rows.Keys == repos
    ensures forall r :: r in repos ==> IsNewest(rows[r], WorkflowDates(db, user, r))
  {
    rows := map[];
    var left := repos;
    while left != {}
      invariant left <= repos && rows.Keys == repos - left
      invariant forall r :: r in rows ==> IsNewest(rows[r], WorkflowDates(db, user, r))
    {
      var r :| r in left;
      var newest := NewestOf(WorkflowDates(db, user, r));
      rows := rows[r := newest];
      left := left - {r};
    }
  }

  method NewestOf(dates: set<int>) returns (newest: Option<int>)
    ensures IsNewest(newest, dates)
  {
    newest := None;
    var left := dates;
    while exists d :: d in left
      decreases left
      invariant left <= dates
      invariant newest.Some? ==> newest.value in dates
      invariant forall d :: d in dates && d !in left ==> newest.Some? && d <= newest.value
    {
      var d :| d in left;
      if newest.None? || d > newest.value {
        newest := Some(d);
      }
      left := left - {d};
    }
  }

  lemma {:induction false} ANewestDateExists(dates: set<int>) returns (newest: Option<int>)
    ensures IsNewest(newest, dates)
    decreases |dates|
  {
    if d :| d in dates {
      newest := ANewestDateExists(dates - {d});
      assert dates == (dates - {d}) + {d};
      OneMoreDate(newest, dates - {d}, d);
      newest := if newest.None? || d > newest.value then Some(d) else newest;
    } else {
      newest := None;
    }
  }

  lemma NoDates()
    ensures IsNewest(None, {})
  {
  }

  lemma NothingIsKnown(tasks: map<TaskId, Task>, user: UserId)
    ensures forall r :: Describes(NO_ONBOARDING_TASKS, tasks, {}, user, r)
  {
  }

  /** Runs of other repositories, users and kinds leave the facts of a repository true. */
  lemma OthersDoNotMatter(f: Facts, tasks: map<TaskId, Task>, ids: set<TaskId>, more: set<TaskId>,
                          user: UserId, r: RepoId)
    requires Describes(f, tasks, ids, user, r) && ids <= more
    requires forall id :: id in more && id in tasks && OnboardingOf(tasks[id], user, r) ==> id in ids
    ensures Describes(f, tasks, more, user, r)
  {
    assert Runs(tasks, ids, user, r) == Runs(tasks, more, user, r);
    assert LiveRuns(tasks, ids, user, r) == LiveRuns(tasks, more, user, r);
    assert CompletedRuns(tasks, ids, user, r) == CompletedRuns(tasks, more, user, r);
    assert CompletionDates(tasks, ids, user, r) == CompletionDates(tasks, more, user, r);
  }

  lemma WorkflowsAreSeparate(f: Facts, at: Option<int>, tasks: map<TaskId, Task>, ids: set<TaskId>,
                             user: UserId, r: RepoId)
    requires Describes(f, tasks, ids, user, r)
    ensures Describes(f.(newestCompletedWorkflowAt := at), tasks, ids, user, r)
  {
  }

  /** The fold of one row, in the order the query gives them. */
  lemma RowIsTold(tasks: map<TaskId, Task>, seen: set<TaskId>, id: TaskId, user: UserId, r: RepoId,
                  before: Facts, after: Facts)
    requires Describes(before, tasks, seen, user, r)
    requires id in tasks && OnboardingOf(tasks[id], user, r) && seen <= tasks.Keys
    requires forall other :: other in seen ==> tasks[other].createdAt >= tasks[id].createdAt
    requires var t := tasks[id];
             after == Facts(
               before.newestCompletedWorkflowAt,
               if before.liveTaskId.None? && IsLiveStatus(t.status) then Some(id) else before.liveTaskId,
               before.hasCompleted || t.status == Completed,
               if t.status == Completed && t.completedAt.Some?
                  && (before.newestCompletedAt.None? || t.completedAt.value > before.newestCompletedAt.value)
               then t.completedAt else before.newestCompletedAt,
               true)
    ensures Describes(after, tasks, seen + {id}, user, r)
  {
    var t, more := tasks[id], seen + {id};
    assert id in Runs(tasks, more, user, r);
    assert LiveRuns(tasks, more, user, r)
        == LiveRuns(tasks, seen, user, r) + if IsLiveStatus(t.status) then {id} else {};
    assert CompletedRuns(tasks, more, user, r)
        == CompletedRuns(tasks, seen, user, r) + if t.status == Completed then {id} else {};
    assert CompletionDates(tasks, more, user, r)
        == CompletionDates(tasks, seen, user, r)
           + if t.status == Completed && t.completedAt.Some? then {t.completedAt.value} else {};
  }

  /** Every repository's entry tells of the runs among `ids`, and of no workflow yet. */
  ghost predicate TellsAll(byRepo: map<RepoId, Facts>, tasks: map<TaskId, Task>, ids: set<TaskId>,
                           user: UserId, repos: set<RepoId>) {
    forall r :: r in repos ==>
      Describes(FactsAt(byRepo, r), tasks, ids, user, r) && FactsAt(byRepo, r).newestCompletedWorkflowAt == None
  }

  lemma RowTellsAll(byRepo: map<RepoId, Facts>, tasks: map<TaskId, Task>, seen: set<TaskId>, id: TaskId,
                    user: UserId, repos: set<RepoId>, r: RepoId, entry: Facts)
    requires TellsAll(byRepo, tasks, seen, user, repos)
    requires id in tasks && OnboardingOf(tasks[id], user, r)
    requires Describes(entry, tasks, seen + {id}, user, r) && entry.newestCompletedWorkflowAt == None
    ensures TellsAll(byRepo[r := entry], tasks, seen + {id}, user, repos)
  {
    hide Describes;
    forall other | other in repos && other != r
      ensures Describes(FactsAt(byRepo, other), tasks, seen + {id}, user, other)
    {
      OthersDoNotMatter(FactsAt(byRepo, other), tasks, seen, seen + {id}, user, other);
    }
  }

  lemma AllRowsAreTold(byRepo: map<RepoId, Facts>, tasks: map<TaskId, Task>, seen: set<TaskId>,
                       user: UserId, repos: set<RepoId>)
    requires TellsAll(byRepo, tasks, seen, user, repos) && seen <= tasks.Keys
    requires forall id :: id in tasks && IsRunIn(tasks[id], user, repos) ==> id in seen
    ensures TellsAll(byRepo, tasks, tasks.Keys, user, repos)
  {
    hide Describes;
    forall r | r in repos ensures Describes(FactsAt(byRepo, r), tasks, tasks.Keys, user, r) {
      OthersDoNotMatter(FactsAt(byRepo, r), tasks, seen, tasks.Keys, user, r);
    }
  }

  /** The facts as they stand while the workflow rows of `left` are still to come. */
  ghost predicate TellsWorkflows(byRepo: map<RepoId, Facts>, db: Tables, completions: map<RepoId, Option<int>>,
                                 left: set<RepoId>, user: UserId, repos: set<RepoId>) {
    forall r :: r in repos ==>
      && Describes(FactsAt(byRepo, r), db.tasks, db.tasks.Keys, user, r)
      && FactsAt(byRepo, r).newestCompletedWorkflowAt ==
         if r in completions && r !in left then completions[r] else None
  }

  method LoadOnboardingTaskFacts(db: Tables, user: UserId, repos: set<RepoId>, blank: set<RepoId>)
    returns (byRepo: map<RepoId, Facts>)
    ensures byRepo.Keys <= repos
    ensures forall r :: r in repos ==>
              && Describes(FactsAt(byRepo, r), db.tasks, db.tasks.Keys, user, r)
              && IsNewest(FactsAt(byRepo, r).newestCompletedWorkflowAt,
                          if r in blank then WorkflowDates(db, user, r) else {})
  {
    hide Runs, LiveRuns, CompletedRuns, CompletionDates, WorkflowDates, Describes, IsNewest, TellsAll;
    byRepo := map[];
    if repos == {} {
      return;
    }
    var rows := SelectOnboardingRuns(db.tasks, user, repos);
    var completions := SelectWorkflowCompletions(db, user, repos * blank);
    byRepo := FoldRuns(db.tasks, rows, user, repos);
    var left := completions.Keys;
    WorkflowsToCome(byRepo, db, completions, user, repos);
    while left != {}
      invariant left <= completions.Keys && byRepo.Keys <= repos
      invariant TellsWorkflows(byRepo, db, completions, left, user, repos)
    {
      var r :| r in left;
      if completions[r].Some? {
        var entry := if r in byRepo then byRepo[r] else NO_ONBOARDING_TASKS;
        WorkflowsAreSeparate(entry, completions[r], db.tasks, db.tasks.Keys, user, r);
        entry := entry.(newestCompletedWorkflowAt := completions[r]);
        byRepo := byRepo[r := entry];
      }
      left := left - {r};
    }
    NoDates();
  }

  lemma WorkflowsToCome(byRepo: map<RepoId, Facts>, db: Tables, completions: map<RepoId, Option<int>>,
                        user: UserId, repos: set<RepoId>)
    requires TellsAll(byRepo, db.tasks, db.tasks.Keys, user, repos)
    ensures TellsWorkflows(byRepo, db, completions, completions.Keys, user, repos)
  {
  }

  /** The loop over the onboarding rows. */
  method FoldRuns(tasks: map<TaskId, Task>, rows: seq<TaskId>, user: UserId, repos: set<RepoId>)
    returns (byRepo: map<RepoId, Facts>)
    requires NewestFirst(tasks, rows)
    requires forall id :: id in rows <==> id in tasks && IsRunIn(tasks[id], user, repos)
    ensures byRepo.Keys <= repos && TellsAll(byRepo, tasks, tasks.Keys, user, repos)
  {
    hide Runs, LiveRuns, CompletedRuns, CompletionDates, Describes, IsNewest;
    byRepo := map[];
    NothingIsKnown(tasks, user);
    ghost var seen: set<TaskId> := {};
    for i := 0 to |rows|
      invariant seen <= tasks.Keys
      invariant forall id :: id in seen <==> id in rows[..i]
      invariant byRepo.Keys <= repos && TellsAll(byRepo, tasks, seen, user, repos)
    {
      var id := rows[i];
      assert id in rows;
      var row := tasks[id];
      var r := row.repositoryId.value;
      var entry := if r in byRepo then byRepo[r] else NO_ONBOARDING_TASKS;
      ghost var before := entry;
      entry := entry.(hasAny := true);
      if row.status == Completed {
        entry := entry.(hasCompleted := true);
        if row.completedAt.Some?
           && (entry.newestCompletedAt.None? || row.completedAt.value > entry.newestCompletedAt.value) {
          entry := entry.(newestCompletedAt := row.completedAt);
        }
      }
      if entry.liveTaskId.None? && IsLiveStatus(row.status) {
        entry := entry.(liveTaskId := Some(id));
      }
      RowIsTold(tasks, seen, id, user, r, before, entry);
      RowTellsAll(byRepo, tasks, seen, id, user, repos, r, entry);
      byRepo := byRepo[r := entry];
      seen := seen + {id};
    }
    AllRowsAreTold(byRepo, tasks, seen, user, repos);
  }

  // ---- The artifact ledger --------------------------------------------------------------------

  function DateAt(newest: map<RepoId, int>, r: RepoId): Option<int> {
    if r in newest then Some(newest[r]) else None
  }

  predicate IsSelected(a: Artifact, user: UserId, repos: set<RepoId>) {
    && a.userId == user && a.repositoryId in repos && a.supersededAt == None
    && (a.source == FromOnboarding || IsImportMarker(a))
  }

  /** Every repository's date is the newest of its evidence among `ids`. */
  ghost predicate DatesAll(newest: map<RepoId, int>, artifacts: map<nat, Artifact>, ids: set<nat>,
                           user: UserId, repos: set<RepoId>, markersOnly: bool) {
    forall r :: r in repos ==> IsNewest(DateAt(newest, r), EvidenceDates(artifacts, ids, user, r, markersOnly))
  }

  method NewestLive(artifacts: map<nat, Artifact>, user: UserId, repos: set<RepoId>, markersOnly: bool)
    returns (newest: map<RepoId, int>)
    ensures forall r :: r in repos ==>
              IsNewest(DateAt(newest, r), EvidenceDates(artifacts, artifacts.Keys, user, r, markersOnly))
  {
    hide EvidenceDates, IsNewest, DatesAll;
    newest := map[];
    var left := set id | id in artifacts && IsSelected(artifacts[id], user, repos);
    NothingIsDated(artifacts, left, user, repos, markersOnly);
    while left != {}
      invariant forall id :: id in left ==> id in artifacts && IsSelected(artifacts[id], user, repos)
      invariant DatesAll(newest, artifacts, artifacts.Keys - left, user, repos, markersOnly)
    {
      var id :| id in left;
      RowIsDated(newest, artifacts, left, id, user, repos, markersOnly);
      left := left - {id};
      var row := artifacts[id];
      var marker := IsImportMarker(row);
      if !markersOnly || marker {
        var at := if marker then row.importedAt else Some(row.generatedAt);
        if at.Some? && (row.repositoryId !in newest || at.value > newest[row.repositoryId]) {
          newest := newest[row.repositoryId := at.value];
        }
      }
    }
    NoRowIsLeft(newest, artifacts, left, user, repos, markersOnly);
  }

  lemma NothingIsDated(artifacts: map<nat, Artifact>, left: set<nat>,
                       user: UserId, repos: set<RepoId>, markersOnly: bool)
    requires forall id :: id in artifacts && IsSelected(artifacts[id], user, repos) ==> id in left
    ensures DatesAll(map[], artifacts, artifacts.Keys - left, user, repos, markersOnly)
  {
  }

  lemma NoRowIsLeft(newest: map<RepoId, int>, artifacts: map<nat, Artifact>, left: set<nat>,
                    user: UserId, repos: set<RepoId>, markersOnly: bool)
    requires left == {} && DatesAll(newest, artifacts, artifacts.Keys - left, user, repos, markersOnly)
    ensures forall r :: r in repos ==>
              IsNewest(DateAt(newest, r), EvidenceDates(artifacts, artifacts.Keys, user, r, markersOnly))
  {
    assert artifacts.Keys - left == artifacts.Keys;
  }

  /** The fold of one row: its date counts if it has one and is asked for. */
  lemma RowIsDated(newest: map<RepoId, int>, artifacts: map<nat, Artifact>, left: set<nat>, id: nat,
                   user: UserId, repos: set<RepoId>, markersOnly: bool)
    requires DatesAll(newest, artifacts, artifacts.Keys - left, user, repos, markersOnly)
    requires id in left && id in artifacts && IsSelected(artifacts[id], user, repos)
    ensures var a := artifacts[id];
            var at := if markersOnly && !IsImportMarker(a) then None else EvidenceDate(a);
            DatesAll(
              if at.Some? && (a.repositoryId !in newest || at.value > newest[a.repositoryId])
              then newest[a.repositoryId := at.value] else newest,
              artifacts, artifacts.Keys - (left - {id}), user, repos, markersOnly)
  {
    hide IsNewest;
    var a := artifacts[id];
    var at := if markersOnly && !IsImportMarker(a) then None else EvidenceDate(a);
    var before, after := artifacts.Keys - left, artifacts.Keys - (left - {id});
    forall r | r in repos
      ensures EvidenceDates(artifacts, after, user, r, markersOnly)
           == if r == a.repositoryId && at.Some?
              then EvidenceDates(artifacts, before, user, r, markersOnly) + {at.value}
              else EvidenceDates(artifacts, before, user, r, markersOnly)
    {
      assert after == before + {id};
    }
    if at.Some? {
      OneMoreDate(DateAt(newest, a.repositoryId),
                  EvidenceDates(artifacts, before, user, a.repositoryId, markersOnly), at.value);
    }
  }

  lemma OneMoreDate(d: Option<int>, dates: set<int>, at: int)
    requires IsNewest(d, dates)
    ensures IsNewest(if d.None? || at > d.value then Some(at) else d, dates + {at})
  {
  }

  // ---- The verdict ----------------------------------------------------------------------------

  predicate ImportedSinceReset(newestImportAt: Option<int>, resetAt: Option<int>) {
    newestImportAt.Some? && resetAt.Some? && newestImportAt.value > resetAt.value
  }

  predicate HasArtifactsSinceReset(newestArtifactAt: Option<int>, resetAt: Option<int>) {
    newestArtifactAt.Some? && (resetAt.None? || newestArtifactAt.value > resetAt.value)
  }

  predicate HasCompletedSinceReset(facts: Facts, resetAt: Option<int>) {
    facts.hasCompleted
    && (resetAt.None? || (facts.newestCompletedAt.Some? && facts.newestCompletedAt.value > resetAt.value))
  }

  datatype Verdict = Verdict(onboarded: bool, inProgressTaskId: Option<TaskId>, canMarkOnboarded: bool)

  /** `missing` names the markers that are required and not there. */
  function ResolveOnboardingVerdict(source: string, missing: seq<string>,
                                    onboardedAt: Option<int>, resetAt: Option<int>,
                                    artifactsSinceReset: bool, importedSinceReset: bool, facts: Facts): Verdict
  {
    var markersPresent := |missing| == 0;
    var completedSinceReset := HasCompletedSinceReset(facts, resetAt);
    var neverStarted := !facts.hasAny && resetAt.None?;
    var greenfieldCompleted := source == "blank" && neverStarted && facts.newestCompletedWorkflowAt.Some?;
    var onboarded :=
      facts.liveTaskId.None?
      && (greenfieldCompleted
          || (markersPresent && (onboardedAt.Some? || completedSinceReset || neverStarted || importedSinceReset)));
    var resetUnanswered := resetAt.Some? && !completedSinceReset && !artifactsSinceReset;
    Verdict(onboarded, facts.liveTaskId,
            markersPresent && !onboarded && facts.liveTaskId.None? && !resetUnanswered)
  }

  ghost predicate RunIsLive(db: Tables, user: UserId, r: RepoId) {
    LiveRuns(db.tasks, db.tasks.Keys, user, r) != {}
  }

  ghost predicate EverStarted(db: Tables, user: UserId, r: RepoId) {
    Runs(db.tasks, db.tasks.Keys, user, r) != {}
  }

  /** Some run completed: after the reset, if there was one. A run without a date is never after it. */
  ghost predicate CompletedSince(db: Tables, user: UserId, r: RepoId, resetAt: Option<int>) {
    match resetAt
    case None => CompletedRuns(db.tasks, db.tasks.Keys, user, r) != {}
    case Some(epoch) => SomeAfter(CompletionDates(db.tasks, db.tasks.Keys, user, r), epoch)
  }

  /** Some live row stands for a finished run here or elsewhere: after the reset, if there was one. */
  ghost predicate WrittenSince(db: Tables, user: UserId, r: RepoId, resetAt: Option<int>) {
    var dates := EvidenceDates(db.artifacts, db.artifacts.Keys, user, r, false);
    match resetAt
    case None => exists d :: d in dates
    case Some(epoch) => SomeAfter(dates, epoch)
  }

  /** Some import marker among the rows has a date later than the reset. */
  ghost predicate ImportedSince(db: Tables, user: UserId, r: RepoId, resetAt: Option<int>) {
    resetAt.Some? && SomeAfter(EvidenceDates(db.artifacts, db.artifacts.Keys, user, r, true), resetAt.value)
  }

  /** When a repository counts as onboarded, in terms of the rows there are. */
  ghost predicate CountsAsOnboarded(db: Tables, user: UserId, r: RepoId, missing: seq<string>)
    requires r in db.repositories
  {
    var repo := db.repositories[r];
    var resetAt := repo.onboardingResetAt;
    var neverStarted := !EverStarted(db, user, r) && resetAt.None?;
    !RunIsLive(db, user, r)
    && ((neverStarted && exists d :: d in WorkflowDates(db, user, r))
        || (missing == []
            && (repo.onboardedAt.Some? || neverStarted
                || CompletedSince(db, user, r, resetAt) || ImportedSince(db, user, r, resetAt))))
  }

  /** The facts the loaders fold for one repository. */
  ghost predicate AreFacts(f: Facts, db: Tables, user: UserId, r: RepoId) {
    && Describes(f, db.tasks, db.tasks.Keys, user, r)
    && IsNewest(f.newestCompletedWorkflowAt, WorkflowDates(db, user, r))
  }

  ghost predicate IsNewestEvidence(at: Option<int>, db: Tables, user: UserId, r: RepoId, markersOnly: bool) {
    IsNewest(at, EvidenceDates(db.artifacts, db.artifacts.Keys, user, r, markersOnly))
  }

  lemma ACompletionIsACompletedRun(f: Facts, db: Tables, user: UserId, r: RepoId)
    requires Describes(f, db.tasks, db.tasks.Keys, user, r) && f.newestCompletedAt.Some?
    ensures f.hasCompleted
  {
    var id :| id in db.tasks && OnboardingOf(db.tasks[id], user, r) && db.tasks[id].status == Completed
              && db.tasks[id].completedAt == f.newestCompletedAt;
    assert id in CompletedRuns(db.tasks, db.tasks.Keys, user, r);
  }

  /** Comparing the folded maximum with the epoch asks whether some row is dated after it. */
  lemma FoldsDecide(db: Tables, user: UserId, r: RepoId, f: Facts, artifactAt: Option<int>, importAt: Option<int>,
                    resetAt: Option<int>)
    requires Describes(f, db.tasks, db.tasks.Keys, user, r)
    requires IsNewestEvidence(artifactAt, db, user, r, false) && IsNewestEvidence(importAt, db, user, r, true)
    ensures HasCompletedSinceReset(f, resetAt) <==> CompletedSince(db, user, r, resetAt)
    ensures HasArtifactsSinceReset(artifactAt, resetAt) <==> WrittenSince(db, user, r, resetAt)
    ensures ImportedSinceReset(importAt, resetAt) <==> ImportedSince(db, user, r, resetAt)
  {
    hide CompletionDates, EvidenceDates, Runs, CompletedRuns, LiveRuns;
    if resetAt.Some? {
      NewestDecides(f.newestCompletedAt, CompletionDates(db.tasks, db.tasks.Keys, user, r), resetAt.value);
    }
    if f.newestCompletedAt.Some? {
      ACompletionIsACompletedRun(f, db, user, r);
    }
  }

  /** The verdict the readers of the tables come to is the one the rows call for. */
  lemma VerdictIsWhatTheRowsSay(db: Tables, user: UserId, r: RepoId, missing: seq<string>, f: Facts,
                                artifactAt: Option<int>, importAt: Option<int>)
    requires r in db.repositories && AreFacts(f, db, user, r)
    requires IsNewestEvidence(artifactAt, db, user, r, false) && IsNewestEvidence(importAt, db, user, r, true)
    ensures var repo := db.repositories[r];
            var resetAt := repo.onboardingResetAt;
            var v := ResolveOnboardingVerdict(
                       repo.source, missing, repo.onboardedAt, resetAt,
                       HasArtifactsSinceReset(artifactAt, resetAt), ImportedSinceReset(importAt, resetAt), f);
            && (v.onboarded <==> CountsAsOnboarded(db, user, r, missing))
            && (v.canMarkOnboarded <==>
                  missing == [] && !RunIsLive(db, user, r) && !CountsAsOnboarded(db, user, r, missing)
                  && (resetAt.None? || CompletedSince(db, user, r, resetAt) || WrittenSince(db, user, r, resetAt)))
            && (v.inProgressTaskId.Some? <==> RunIsLive(db, user, r))
            && (v.inProgressTaskId.Some? ==> v.inProgressTaskId.value in LiveRuns(db.tasks, db.tasks.Keys, user, r))
  {
    hide CompletionDates, EvidenceDates, Runs, CompletedRuns, LiveRuns, CompletedSince, WrittenSince, ImportedSince,
         HasCompletedSinceReset, HasArtifactsSinceReset, ImportedSinceReset;
    FoldsDecide(db, user, r, f, artifactAt, importAt, db.repositories[r].onboardingResetAt);
  }

  /** A reset erases earlier evidence. With the stamp cleared and an epoch set, two histories that agree
      on whether a run is live and on whether anything was completed, imported or written after the epoch
      get one verdict, however they differ before it: nothing dated up to the epoch counts, nor a
      completed run without a date, nor a workflow, nor the absence of runs. */
  lemma ResetErasesEarlierEvidence(db: Tables, db': Tables, user: UserId, r: RepoId, missing: seq<string>, epoch: int)
    requires r in db.repositories && r in db'.repositories
    requires db.repositories[r].onboardingResetAt == Some(epoch) == db'.repositories[r].onboardingResetAt
    requires db.repositories[r].onboardedAt == None == db'.repositories[r].onboardedAt
    requires RunIsLive(db, user, r) <==> RunIsLive(db', user, r)
    requires CompletedSince(db, user, r, Some(epoch)) <==> CompletedSince(db', user, r, Some(epoch))
    requires ImportedSince(db, user, r, Some(epoch)) <==> ImportedSince(db', user, r, Some(epoch))
    ensures CountsAsOnboarded(db, user, r, missing) <==> CountsAsOnboarded(db', user, r, missing)
    ensures CountsAsOnboarded(db, user, r, missing) <==>
              missing == [] && !RunIsLive(db, user, r)
              && (CompletedSince(db, user, r, Some(epoch)) || ImportedSince(db, user, r, Some(epoch)))
  {
  }

  /** The same for what the readers answer: both flags of the verdict, whatever was folded. */
  lemma ResetErasesEarlierVerdicts(db: Tables, db': Tables, user: UserId, r: RepoId, missing: seq<string>, epoch: int,
                                   f: Facts, f': Facts, artifactAt: Option<int>, artifactAt': Option<int>,
                                   importAt: Option<int>, importAt': Option<int>)
    requires r in db.repositories && r in db'.repositories
    requires db.repositories[r].onboardingResetAt == Some(epoch) == db'.repositories[r].onboardingResetAt
    requires db.repositories[r].onboardedAt == None == db'.repositories[r].onboardedAt
    requires RunIsLive(db, user, r) <==> RunIsLive(db', user, r)
    requires CompletedSince(db, user, r, Some(epoch)) <==> CompletedSince(db', user, r, Some(epoch))
    requires ImportedSince(db, user, r, Some(epoch)) <==> ImportedSince(db', user, r, Some(epoch))
    requires WrittenSince(db, user, r, Some(epoch)) <==> WrittenSince(db', user, r, Some(epoch))
    requires AreFacts(f, db, user, r) && AreFacts(f', db', user, r)
    requires IsNewestEvidence(artifactAt, db, user, r, false) && IsNewestEvidence(artifactAt', db', user, r, false)
    requires IsNewestEvidence(importAt, db, user, r, true) && IsNewestEvidence(importAt', db', user, r, true)
    ensures var resetAt := Some(epoch);
            var v := ResolveOnboardingVerdict(
                       db.repositories[r].source, missing, None, resetAt,
                       HasArtifactsSinceReset(artifactAt, resetAt), ImportedSinceReset(importAt, resetAt), f);
            var v' := ResolveOnboardingVerdict(
                        db'.repositories[r].source, missing, None, resetAt,
                        HasArtifactsSinceReset(artifactAt', resetAt), ImportedSinceReset(importAt', resetAt), f');
            v.onboarded == v'.onboarded && v.canMarkOnboarded == v'.canMarkOnboarded
            && v.inProgressTaskId.Some? == v'.inProgressTaskId.Some?
  {
    hide CountsAsOnboarded, RunIsLive, CompletedSince, ImportedSince, WrittenSince, AreFacts, IsNewestEvidence,
         ResolveOnboardingVerdict;
    VerdictIsWhatTheRowsSay(db, user, r, missing, f, artifactAt, importAt);
    VerdictIsWhatTheRowsSay(db', user, r, missing, f', artifactAt', importAt');
    ResetErasesEarlierEvidence(db, db', user, r, missing, epoch);
  }

  // ---- Whether an upgrade is admitted ---------------------------------------------------------

  datatype UpgradeAdmission =
    | Admitted
    | LiveOnboarding(taskId: TaskId)
    | Contested(units: set<string>)
    | ResetUnanswered
    | NeverOnboarded

  predicate BlocksUpgrade(kind: Unit) {
    !kind.NoUnit? && !kind.PlanUnit? && (kind.RtkEnabledUnit? || !(kind.SettingUnit? || kind.EnvironmentUnit?))
  }

  /** The open questions of the repository that hold upgrades. */
  function BlockingUnits(db: Tables, r: RepoId): set<string> {
    set c | c in db.conflicts && c.repositoryId == r && c.resolvedAt.None? && BlocksUpgrade(c.kind) :: c.name
  }

  /** An open question holds upgrades if it is about the render file, a claim or whether RTK is on. */
  lemma HoldsInWords(db: Tables, r: RepoId, unit: string)
    ensures unit in BlockingUnits(db, r) <==>
              exists c :: c in db.conflicts && c.repositoryId == r && c.resolvedAt == None && c.name == unit
                && c.kind in {RenderUnit, ClaimUnit, RtkEnabledUnit}
  {
    if c :| c in db.conflicts && c.repositoryId == r && c.resolvedAt == None && c.name == unit
            && c.kind in {RenderUnit, ClaimUnit, RtkEnabledUnit} {
      assert BlocksUpgrade(c.kind);
    }
  }

  /** A repository cloned in with a render context vouches for an upgrade if it counts as onboarded. */
  ghost predicate CloneVouches(db: Tables, user: UserId, r: RepoId, missing: seq<string>)
    requires r in db.repositories
  {
    var repo := db.repositories[r];
    repo.hasRenderContext && repo.ready && repo.hasRoot && CountsAsOnboarded(db, user, r, missing)
  }

  method RenderContextAdmitsUpgrade(db: Tables, user: UserId, r: RepoId, missing: seq<string>) returns (admits: bool)
    requires r in db.repositories
    ensures admits <==> CloneVouches(db, user, r, missing)
  {
    hide Describes, IsNewest, EvidenceDates, CountsAsOnboarded;
    var repo := db.repositories[r];
    if !repo.hasRenderContext || !repo.ready || !repo.hasRoot {
      return false;
    }
    var byRepo := LoadOnboardingTaskFacts(db, user, {r}, if repo.source == "blank" then {r} else {});
    var imports := NewestLive(db.artifacts, user, {r}, true);
    ghost var artifactAt := ANewestDateExists(EvidenceDates(db.artifacts, db.artifacts.Keys, user, r, false));
    admits := ResolveOnboardingVerdict(
      repo.source, missing, repo.onboardedAt, repo.onboardingResetAt, false,
      ImportedSinceReset(DateAt(imports, r), repo.onboardingResetAt), FactsAt(byRepo, r)).onboarded;
    VerdictIsWhatTheRowsSay(db, user, r, missing, FactsAt(byRepo, r), artifactAt, DateAt(imports, r));
  }

  /** An upgrade is admitted: nothing runs, nothing is contested, and there is work to upgrade. */
  ghost predicate IsAdmitted(db: Tables, user: UserId, r: RepoId, missing: seq<string>)
    requires r in db.repositories
  {
    !RunIsLive(db, user, r) && BlockingUnits(db, r) == {}
    && (CompletedSince(db, user, r, db.repositories[r].onboardingResetAt)
        || WrittenSince(db, user, r, db.repositories[r].onboardingResetAt)
        || CloneVouches(db, user, r, missing))
  }

  /** The answer the rows call for: the newest live run, or else all that is contested, or else admitted, or
      else whether it is a reset that no work answers. */
  ghost predicate IsAnswer(a: UpgradeAdmission, db: Tables, user: UserId, r: RepoId, missing: seq<string>)
    requires r in db.repositories
  {
    match a
    case Admitted => IsAdmitted(db, user, r, missing)
    case LiveOnboarding(id) =>
      id in LiveRuns(db.tasks, db.tasks.Keys, user, r)
      && forall other :: other in LiveRuns(db.tasks, db.tasks.Keys, user, r) ==>
           db.tasks[other].createdAt <= db.tasks[id].createdAt
    case Contested(units) => !RunIsLive(db, user, r) && units == BlockingUnits(db, r) != {}
    case ResetUnanswered =>
      !RunIsLive(db, user, r) && BlockingUnits(db, r) == {} && !IsAdmitted(db, user, r, missing)
      && db.repositories[r].onboardingResetAt.Some?
    case NeverOnboarded =>
      !RunIsLive(db, user, r) && BlockingUnits(db, r) == {} && !IsAdmitted(db, user, r, missing)
      && db.repositories[r].onboardingResetAt.None?
  }

  /** No two answers fit the same rows but for which of the newest live runs of one instant is named. */
  lemma OneAnswerFits(a: UpgradeAdmission, b: UpgradeAdmission, db: Tables, user: UserId, r: RepoId,
                      missing: seq<string>)
    requires r in db.repositories && IsAnswer(a, db, user, r, missing) && IsAnswer(b, db, user, r, missing)
    ensures a == b || (a.LiveOnboarding? && b.LiveOnboarding? && a.taskId in db.tasks && b.taskId in db.tasks
                       && db.tasks[a.taskId].createdAt == db.tasks[b.taskId].createdAt)
  {
    hide CompletedSince, WrittenSince, CloneVouches, BlockingUnits;
  }

  method UpgradeAdmissionOf(db: Tables, user: UserId, r: RepoId, missing: seq<string>) returns (a: UpgradeAdmission)
    requires r in db.repositories
    ensures IsAnswer(a, db, user, r, missing)
  {
    hide IsNewest, EvidenceDates, CompletionDates, Runs, CompletedRuns, LiveRuns, CompletedSince, WrittenSince,
         CloneVouches, HasCompletedSinceReset, HasArtifactsSinceReset;
    var resetAt := db.repositories[r].onboardingResetAt;
    var byRepo := LoadOnboardingTaskFacts(db, user, {r}, {});
    var facts := FactsAt(byRepo, r);
    if facts.liveTaskId.Some? {
      return LiveOnboarding(facts.liveTaskId.value);
    }
    var units := BlockingUnits(db, r);
    if units != {} {
      return Contested(units);
    }
    ghost var importAt := ANewestDateExists(EvidenceDates(db.artifacts, db.artifacts.Keys, user, r, true));
    var artifacts := NewestLive(db.artifacts, user, {r}, false);
    FoldsDecide(db, user, r, facts, DateAt(artifacts, r), importAt, resetAt);
    if HasCompletedSinceReset(facts, resetAt) {
      return Admitted;
    }
    if HasArtifactsSinceReset(DateAt(artifacts, r), resetAt) {
      return Admitted;
    }
    var vouched := RenderContextAdmitsUpgrade(db, user, r, missing);
    if vouched {
      return Admitted;
    }
    return if resetAt.None? then NeverOnboarded else ResetUnanswered;
  }

  /** Once reset, a clone's render context vouches for nothing the ledger and the task history do not:
      an upgrade is admitted exactly on a completion or a row dated after the epoch. */
  lemma AfterAResetOnlyLaterWorkAdmits(db: Tables, user: UserId, r: RepoId, missing: seq<string>, epoch: int)
    requires r in db.repositories && db.repositories[r].onboardingResetAt == Some(epoch)
    requires db.repositories[r].onboardedAt == None
    ensures (CompletedSince(db, user, r, Some(epoch)) || WrittenSince(db, user, r, Some(epoch))
             || CloneVouches(db, user, r, missing))
        <==> (CompletedSince(db, user, r, Some(epoch)) || WrittenSince(db, user, r, Some(epoch)))
  {
    if ImportedSince(db, user, r, Some(epoch)) {
      var d :| d in EvidenceDates(db.artifacts, db.artifacts.Keys, user, r, true) && d > epoch;
      assert d in EvidenceDates(db.artifacts, db.artifacts.Keys, user, r, false);
    }
  }
}
