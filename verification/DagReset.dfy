/** The DAG half of a retry: the stuck issues of the current level go back to pending, their agent history
    goes, and nothing else of the plan changes. */
module DagReset {
  import opened Options

  type Id = nat

  /** The columns a retry starts over. */
  datatype Attempt = Attempt(
    outcome: string, cliInvocationId: Option<Id>, infraRetries: nat, reviewInfraRetries: nat,
    resolution: Option<string>, reviewStatus: Option<string>, innerIteration: nat, stuckCount: nat,
    reviewerVerdict: Option<string>, advisorInvocations: nat, lastAdvisorAction: Option<string>,
    retryContext: Option<string>, filesModified: seq<string>, debtItems: seq<string>, concerns: Option<string>,
    rawOutput: Option<string>, errorMessage: Option<string>, mergeStatus: Option<string>,
    mergedAt: Option<int>, startedAt: Option<int>, endedAt: Option<int>)

  /** What the planner asked of the issue and what its coders reported besides the attempt. */
  datatype Brief = Brief(
    taskId: Id, issueKey: string, title: string, description: Option<string>, specSections: seq<string>,
    acceptanceCriteria: seq<string>, dependsOn: seq<string>, estimatedFiles: seq<string>,
    providing: Option<string>, guidance: Option<string>, parentIssueId: Option<Id>,
    similarSites: seq<string>, createdAt: int)

  datatype Worktree = Worktree(path: Option<string>, sandboxPath: Option<string>, branch: Option<string>)

  datatype Issue = Issue(dagPlanId: Id, level: int, brief: Brief, worktree: Worktree, attempt: Attempt, updatedAt: int)

  datatype Level = Level(dagPlanId: Id, level: int, issueKeys: seq<string>, phase: string,
                         mergeState: Option<string>, checkpointedAt: Option<int>, updatedAt: int)

  datatype Run = Run(dagIssueId: Id, role: string, iteration: nat, consumedAt: Option<int>)

  /** The four tables by primary key. Of a plan only its task matters. */
  datatype State = State(plans: map<Id, Id>, levels: map<Id, Level>, issues: map<Id, Issue>, runs: map<Id, Run>)

  const FAILED := "failed_unrecoverable"

  const FRESH := Attempt(
    "pending", None, 0, 0, None, None, 0, 0, None, 0, None, None, [], [], None, None, None, None, None, None, None)

  /** Resolved as a failure, or failed by outcome with no resolution at all. */
  predicate IsStuckFailed(a: Attempt) {
    a.resolution == Some(FAILED) || (a.outcome == FAILED && a.resolution == None)
  }

  predicate Unfinished(levels: map<Id, Level>, plan: Id, id: Id) {
    id in levels && levels[id].dagPlanId == plan && levels[id].checkpointedAt == None
  }

  /** The lowest level of the plan that is not checkpointed. */
  predicate IsCurrent(levels: map<Id, Level>, plan: Id, id: Id) {
    && Unfinished(levels, plan, id)
    && forall other :: other in levels && Unfinished(levels, plan, other) ==> levels[id].level <= levels[other].level
  }

  /** The unique index on plan and level. */
  ghost predicate LevelsAreUnique(levels: map<Id, Level>) {
    forall a, b | a in levels && b in levels ::
      levels[a].dagPlanId == levels[b].dagPlanId && levels[a].level == levels[b].level ==> a == b
  }

  function Stuck(s: State, cur: Id): set<Id>
    requires cur in s.levels
  {
    set id | id in s.issues && s.issues[id].dagPlanId == s.levels[cur].dagPlanId
          && s.issues[id].level == s.levels[cur].level && IsStuckFailed(s.issues[id].attempt)
  }

  /** The tables after a retry whose current level is `cur`. */
  ghost function Reset(s: State, cur: Id, now: int): State
    requires cur in s.levels
  {
    if Stuck(s, cur) == {} then s else
      State(s.plans,
            s.levels[cur := s.levels[cur].(phase := "pending", mergeState := None, updatedAt := now)],
            map id | id in s.issues ::
              if id in Stuck(s, cur) then s.issues[id].(attempt := FRESH, updatedAt := now) else s.issues[id],
            map r | r in s.runs && s.runs[r].dagIssueId !in Stuck(s, cur) :: s.runs[r])
  }

  /** A retry that found `plan` took the tables from `s` to `t` and answered `count`: nothing happens without a plan
      or an unfinished level, and else the current level is reset and its stuck issues are counted. */
  ghost predicate Retried(s: State, taskId: Id, now: int, count: nat, plan: Option<Id>, t: State) {
    match plan
    case None => taskId !in s.plans.Values && count == 0 && t == s
    case Some(p) =>
      p in s.plans && s.plans[p] == taskId
      && if exists id :: Unfinished(s.levels, p, id) then
           exists cur :: IsCurrent(s.levels, p, cur) && count == |Stuck(s, cur)| && t == Reset(s, cur, now)
         else
           count == 0 && t == s
  }

  class Tables {
    var plans: map<Id, Id>
    var levels: map<Id, Level>
    var issues: map<Id, Issue>
    var runs: map<Id, Run>

    ghost function Rows(): State
      reads this
    {
      State(plans, levels, issues, runs)
    }

    /** `plan` is the row the first query happened to find: a task may have several plans. */
    method ResetDagCurrentLevelForRetry(taskId: Id, now: int) returns (count: nat, ghost plan: Option<Id>)
      modifies this
      ensures Retried(old(Rows()), taskId, now, count, plan, Rows())
    {
      plan := None;
      if !(exists p :: p in plans && plans[p] == taskId) {
        return 0, None;
      }
      var planId :| planId in plans && plans[planId] == taskId;
      plan := Some(planId);

      if !(exists id :: id in levels && IsCurrent(levels, planId, id)) {
        LowestExists(levels, planId);
        return 0, plan;
      }
      var curLevel :| curLevel in levels && IsCurrent(levels, planId, curLevel);

      var ids := set id | id in issues && issues[id].dagPlanId == planId
                          && issues[id].level == levels[curLevel].level && IsStuckFailed(issues[id].attempt);
      assert ids == Stuck(Rows(), curLevel);
      if |ids| == 0 {
        return 0, plan;
      }

      issues := map id | id in issues ::
        if id in ids then
          issues[id].(
            attempt := Attempt(
              outcome := "pending", cliInvocationId := None, infraRetries := 0, reviewInfraRetries := 0,
              resolution := None, reviewStatus := None, innerIteration := 0, stuckCount := 0,
              reviewerVerdict := None, advisorInvocations := 0, lastAdvisorAction := None,
              retryContext := None, filesModified := [], debtItems := [], concerns := None,
              rawOutput := None, errorMessage := None, mergeStatus := None,
              mergedAt := None, startedAt := None, endedAt := None),
            updatedAt := now)
        else
          issues[id];
      runs := map r | r in runs && runs[r].dagIssueId !in ids :: runs[r];
      levels := levels[curLevel := levels[curLevel].(phase := "pending", mergeState := None, updatedAt := now)];
      return |ids|, plan;
    }
  }

  /** A plan with an unfinished level has a current one. */
  lemma LowestExists(levels: map<Id, Level>, plan: Id)
    ensures (exists id :: Unfinished(levels, plan, id)) <==> (exists id :: IsCurrent(levels, plan, id))
  {
    var open := set id | id in levels && Unfinished(levels, plan, id);
    if id :| Unfinished(levels, plan, id) {
      assert id in open;
      var low := LowestOf(levels, open);
      assert IsCurrent(levels, plan, low);
    }
  }

  lemma {:induction false} LowestOf(levels: map<Id, Level>, ids: set<Id>) returns (low: Id)
    requires ids != {} && ids <= levels.Keys
    ensures low in ids && forall id :: id in ids ==> levels[low].level <= levels[id].level
    decreases |ids|
  {
    var one :| one in ids;
    var rest := ids - {one};
    assert ids == rest + {one};
    if rest == {} {
      return one;
    }
    low := LowestOf(levels, rest);
    if levels[one].level < levels[low].level {
      low := one;
    }
  }

  // ---- Narrow ---------------------------------------------------------------------------------

  /** The issues that change are exactly the stuck ones of the current level, so the count returned is
      the number of issues changed; and what changes of them is the attempt alone. */
  lemma OnlyStuckIssuesChange(s: State, cur: Id, now: int)
    requires cur in s.levels
    ensures Reset(s, cur, now).issues.Keys == s.issues.Keys
    ensures (set id | id in s.issues && Reset(s, cur, now).issues[id] != s.issues[id]) == Stuck(s, cur)
    ensures forall id :: id in s.issues ==>
              Reset(s, cur, now).issues[id].(attempt := s.issues[id].attempt, updatedAt := s.issues[id].updatedAt)
              == s.issues[id]
  {
  }

  /** The work of a checkpointed level, of another plan, and of an issue somebody resolved deliberately
      keeps every column, and so does every level but the current one. */
  lemma DoneWorkIsKept(s: State, plan: Id, cur: Id, now: int, id: Id, l: Id)
    requires LevelsAreUnique(s.levels) && IsCurrent(s.levels, plan, cur)
    requires id in s.issues && l in s.levels
    ensures l != cur ==> Reset(s, cur, now).levels[l] == s.levels[l]
    ensures (|| s.issues[id].dagPlanId != plan
             || (s.issues[id].dagPlanId == s.levels[l].dagPlanId && s.issues[id].level == s.levels[l].level
                 && s.levels[l].checkpointedAt.Some?)
             || (s.issues[id].attempt.resolution.Some? && s.issues[id].attempt.resolution != Some(FAILED))) ==>
              Reset(s, cur, now).issues[id] == s.issues[id]
  {
  }

  /** No run of a reset issue is left to be taken for a review of the next attempt, and no other goes. */
  lemma ExactlyTheirRunsGo(s: State, cur: Id, now: int, r: Id)
    requires cur in s.levels && r in s.runs
    ensures r in Reset(s, cur, now).runs <==> s.runs[r].dagIssueId !in Stuck(s, cur)
    ensures r in Reset(s, cur, now).runs ==> Reset(s, cur, now).runs[r] == s.runs[r]
  {
  }

  // ---- Thorough -------------------------------------------------------------------------------

  /** Resolved as a failure, or failed by outcome and not resolved at all, in the columns' own words. */
  lemma StuckInWords(a: Attempt)
    ensures a.resolution == Some("failed_unrecoverable") ==> IsStuckFailed(a)
    ensures a.resolution == None ==> (IsStuckFailed(a) <==> a.outcome == "failed_unrecoverable")
    ensures a.resolution.Some? && a.resolution != Some("failed_unrecoverable") ==> !IsStuckFailed(a)
  {
  }

  /** The current level is one of the plan's that is not checkpointed, and every lower one is. */
  lemma LowerLevelsAreDone(levels: map<Id, Level>, plan: Id, cur: Id, l: Id)
    requires IsCurrent(levels, plan, cur) && l in levels && levels[l].dagPlanId == plan
    ensures levels[cur].dagPlanId == plan && levels[cur].checkpointedAt == None
    ensures levels[l].level < levels[cur].level ==> levels[l].checkpointedAt.Some?
  {
  }

  /** After a reset no issue of the level is stuck. Each that was starts over: pending, with every counter,
      verdict, report and date of the attempt cleared, and with what was asked of it and its worktree kept. The
      level starts over with them, and keeps its issues. */
  lemma NothingStaysStuck(s: State, cur: Id, now: int, id: Id)
    requires cur in s.levels && id in s.issues
    requires s.issues[id].dagPlanId == s.levels[cur].dagPlanId && s.issues[id].level == s.levels[cur].level
    ensures !IsStuckFailed(Reset(s, cur, now).issues[id].attempt)
    ensures IsStuckFailed(s.issues[id].attempt) ==>
              var t := Reset(s, cur, now);
              var a := t.issues[id].attempt;
              && a.outcome == "pending" && a.filesModified == a.debtItems == []
              && a.infraRetries == a.reviewInfraRetries == a.innerIteration == a.stuckCount == 0
              && a.advisorInvocations == 0 && a.cliInvocationId == None
              && a.resolution == a.reviewStatus == a.reviewerVerdict == a.lastAdvisorAction == a.retryContext == None
              && a.concerns == a.rawOutput == a.errorMessage == a.mergeStatus == None
              && a.mergedAt == a.startedAt == a.endedAt == None
              && t.issues[id].updatedAt == now && t.issues[id].brief == s.issues[id].brief
              && t.issues[id].worktree == s.issues[id].worktree
              && t.levels[cur].phase == "pending" && t.levels[cur].mergeState == None && t.levels[cur].updatedAt == now
              && t.levels[cur].issueKeys == s.levels[cur].issueKeys
              && t.levels[cur].checkpointedAt == s.levels[cur].checkpointedAt
  {
    if IsStuckFailed(s.issues[id].attempt) { assert id in Stuck(s, cur); }
  }

  // ---- Idempotent -----------------------------------------------------------------------------

  /** A second call for the same plan meets the same current level, finds nothing stuck there and
      changes nothing, whenever it comes. */
  lemma SecondCallDoesNothing(s: State, plan: Id, cur: Id, now: int, again: Id, later: int)
    requires LevelsAreUnique(s.levels) && IsCurrent(s.levels, plan, cur)
    requires IsCurrent(Reset(s, cur, now).levels, plan, again)
    ensures IsCurrent(Reset(s, cur, now).levels, plan, cur)
    ensures again == cur && Stuck(Reset(s, cur, now), again) == {}
    ensures Reset(Reset(s, cur, now), again, later) == Reset(s, cur, now)
  {
  }

  /** A task may have several plans and the query takes any one. A reset of one plan leaves the current
      level and the stuck issues of every other as they were, so a second call that happens to find
      another plan returns what it would have returned first: 0 exactly when that plan had none stuck. */
  lemma AnotherPlanIsUntouched(s: State, cur: Id, now: int, plan: Id, other: Id)
    requires cur in s.levels && s.levels[cur].dagPlanId != plan
    ensures IsCurrent(Reset(s, cur, now).levels, plan, other) <==> IsCurrent(s.levels, plan, other)
    ensures IsCurrent(s.levels, plan, other) ==> Stuck(Reset(s, cur, now), other) == Stuck(s, other)
  {
    var t := Reset(s, cur, now);
    assert forall l :: Unfinished(t.levels, plan, l) <==> Unfinished(s.levels, plan, l);
    assert forall l :: Unfinished(s.levels, plan, l) ==> t.levels[l] == s.levels[l];
    assert forall id :: id in Stuck(s, cur) ==> s.issues[id].dagPlanId != plan;
  }

  /** Whatever the first call left, a second for the same plan finds nothing stuck and resets nothing. */
  lemma ASecondCallAgrees(before: State, between: State, plan: Id, now: int, later: int)
    requires LevelsAreUnique(before.levels)
    requires (exists id :: Unfinished(before.levels, plan, id)) ==>
               exists cur :: IsCurrent(before.levels, plan, cur) && between == Reset(before, cur, now)
    requires !(exists id :: Unfinished(before.levels, plan, id)) ==> between == before
    ensures forall again :: IsCurrent(between.levels, plan, again) ==>
              Stuck(between, again) == {} && Reset(between, again, later) == between
  {
    if exists id :: Unfinished(before.levels, plan, id) {
      var cur :| IsCurrent(before.levels, plan, cur) && between == Reset(before, cur, now);
      forall again | IsCurrent(between.levels, plan, again)
        ensures Stuck(between, again) == {} && Reset(between, again, later) == between
      {
        SecondCallDoesNothing(before, plan, cur, now, again, later);
      }
    }
  }

  ghost predicate HasOnePlan(plans: map<Id, Id>, taskId: Id) {
    forall p, q | p in plans && q in plans :: plans[p] == taskId && plans[q] == taskId ==> p == q
  }

  /** Two calls in a row, each on what the one before left: when the second finds the plan the first found, as
      it must if the task has but one, it returns 0 and leaves the tables as the first left them. */
  method RetryTwice(tables: Tables, taskId: Id, now: int, later: int)
    returns (count: nat, second: nat, ghost between: State, ghost first: Option<Id>, ghost again: Option<Id>)
    requires LevelsAreUnique(tables.levels)
    modifies tables
    ensures Retried(old(tables.Rows()), taskId, now, count, first, between)
    ensures Retried(between, taskId, later, second, again, tables.Rows())
    ensures first == again ==> second == 0 && tables.Rows() == between
    ensures HasOnePlan(old(tables.plans), taskId) ==> first == again
  {
    ghost var before := tables.Rows();
    count, first := tables.ResetDagCurrentLevelForRetry(taskId, now);
    between := tables.Rows();
    second, again := tables.ResetDagCurrentLevelForRetry(taskId, later);
    if first.Some? { assert taskId in before.plans.Values; }
    if again.Some? { assert taskId in between.plans.Values; }
    if first == again && first.Some? {
      ASecondCallAgrees(before, between, first.value, now, later);
    }
  }
}
