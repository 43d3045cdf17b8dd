/** The checks that revive or create an onboarding or an upgrade, each statement run with any number of
    other transactions taking their own steps before it. A call that waits for a lock in vain throws. */
module RepositoryAdmission {
  import opened Options
  import opened RepositoryRecords
  import opened AdmissionRuns
  import opened OnboardingVerdict
  import RootClaimRow

  datatype Refusal =
    | NoRepository
    | RootClaimed
    | LiveUpgrade(taskId: TaskId)
    | LiveOnboardingBeside(taskId: TaskId)

  /** `Skipped` is null: another type, no repository, live already or gone. */
  datatype ReviveCheck = Skipped | Refused(refusal: Refusal) | Cleared(repo: RepoId) | Threw

  datatype Decision = GoAhead | RefusedFor(refusal: Refusal) | NotAdmitted(admission: UpgradeAdmission) | WaitedInVain

  /** A live task of the kind stands on the repository, of the user if one is asked about. */
  predicate IsLiveOfType(s: State, id: TaskId, repo: RepoId, kind: Kind, user: Option<UserId>) {
    id in s.tasks && IsLiveOn(s.tasks[id], repo) && s.tasks[id].kind == kind
    && (user.Some? ==> s.tasks[id].userId == user.value)
  }

  /** A transaction other than `x` is open and holds the repository's task lock. */
  ghost predicate LockedByAnother(s: State, x: TxId, repo: RepoId) {
    exists y :: y in s.txs && y != x && s.txs[y].locked && s.txs[y].repo == repo
  }

  /** The task `x` is about is not there yet, and nobody else is about it. */
  ghost predicate IsUnborn(s: State, x: TxId) {
    x in s.txs && s.txs[x].id !in s.tasks && forall y :: y in s.txs && y != x ==> s.txs[y].id != s.txs[x].id
  }

  class Database {
    var state: State

    ghost predicate Valid()
      reads this
    {
      Inv(state)
    }

    /** `x` is open, and holds the lock and the row of the repository of its task. */
    ghost predicate Holds(x: TxId, repo: RepoId, user: UserId, kind: Kind, id: TaskId)
      reads this
    {
      x in state.txs
      && var tx := state.txs[x];
         tx.repo == repo && tx.user == user && tx.kind == kind && tx.id == id && tx.locked && tx.rowLocked
         && tx.write.None?
    }

    constructor (state: State)
      requires Starts(state)
      ensures Valid() && this.state == state
    {
      this.state := state;
    }

    method Step(e: Event)
      requires Valid() && Enabled(state, e)
      modifies this
      ensures Valid() && state == Apply(old(state), e)
    {
      StepKeepsInv(state, e);
      state := Apply(state, e);
    }

    /** A statement that commits nothing. */
    method Look(e: Event)
      requires Valid() && Enabled(state, e) && IsLook(e)
      modifies this
      ensures Valid() && state == Apply(old(state), e)
      ensures forall x :: IsUnborn(old(state), x) ==> IsUnborn(state, x)
    {
      hide Inv;
      Step(e);
    }

    /** The other transactions run, and tasks end. */
    method Others(x: TxId)
      requires Valid()
      modifies this
      ensures Valid() && (x in state.txs <==> x in old(state).txs)
      ensures x in state.txs ==> state.txs[x] == old(state).txs[x]
      ensures state.claims.Keys == old(state).claims.Keys
      ensures x in state.txs && state.txs[x].rowLocked && state.txs[x].repo in state.claims ==>
                state.claims[state.txs[x].repo] == old(state).claims[state.txs[x].repo]
      ensures IsUnborn(old(state), x) ==> IsUnborn(state, x)
    {
      hide Inv;
      var steps: nat := *;
      while steps > 0
        invariant Valid() && (x in state.txs <==> x in old(state).txs)
        invariant x in state.txs ==> state.txs[x] == old(state).txs[x]
        invariant state.claims.Keys == old(state).claims.Keys
        invariant x in state.txs && state.txs[x].rowLocked && state.txs[x].repo in state.claims ==>
                    state.claims[state.txs[x].repo] == old(state).claims[state.txs[x].repo]
        invariant IsUnborn(old(state), x) ==> IsUnborn(state, x)
      {
        var e: Event := *;
        if !By(e, x) && Enabled(state, e) {
          Step(e);
        }
        steps := steps - 1;
      }
    }
 
    /** Wait for the repository's task lock, which `x` may already hold. The wait is in vain only if another
        transaction holds it. */
    method LockRepositoryTasksKey(x: TxId) returns (ok: bool)
      requires Valid() && x in state.txs
      modifies this
      ensures Valid() && x in state.txs && state.claims.Keys == old(state).claims.Keys
      ensures state.txs[x] == if ok then old(state).txs[x].(locked := true) else old(state).txs[x]
      ensures !ok ==> LockedByAnother(state, x, state.txs[x].repo)
      ensures IsUnborn(old(state), x) ==> IsUnborn(state, x)
    {
      hide Inv;
      Others(x);
      if state.txs[x].locked {
        return true;
      }
      ok := forall y :: y in state.txs && state.txs[y].locked ==> state.txs[y].repo != state.txs[x].repo;
      if ok {
        Step(Lock(x));
      }
    }

    /** The lock, then the row. False for no row; None when the wait was in vain. */
    method LockRepositoryRow(x: TxId) returns (found: Option<bool>)
      requires Valid() && x in state.txs
      modifies this
      ensures Valid() && x in state.txs
      ensures found == Some(true) ==>
                state.txs[x] == old(state).txs[x].(locked := true, rowLocked := true)
                && state.txs[x].repo in state.claims
      ensures found == Some(false) ==>
                state.txs[x] == old(state).txs[x].(locked := true) && state.txs[x].repo !in state.claims
      ensures found == None ==>
                state.txs[x] == old(state).txs[x] && LockedByAnother(state, x, state.txs[x].repo)
      ensures state.claims.Keys == old(state).claims.Keys
      ensures IsUnborn(old(state), x) ==> IsUnborn(state, x)
    {
      hide Inv;
      var ok := LockRepositoryTasksKey(x);
      if !ok {
        return None;
      }
      Others(x);
      if state.txs[x].repo !in state.claims {
        return Some(false);
      }
      Step(LockRow(x));
      return Some(true);
    }

    /** A live task of the kind on the repository of `x`, if any; of one user, if asked. */
    method LiveTaskIdOfType(x: TxId, kind: Kind, user: Option<UserId>) returns (live: Option<TaskId>)
      requires Valid() && x in state.txs
      modifies this
      ensures Valid() && x in state.txs && state.txs[x] == old(state).txs[x]
      ensures live.None? ==> NoneLive(state, state.txs[x].repo, kind, user)
      ensures live.Some? ==> IsLiveOfType(state, live.value, state.txs[x].repo, kind, user)
      ensures live.Some? && user.Some? ==> state.tasks[live.value].userId == user.value
      ensures IsUnborn(old(state), x) ==> IsUnborn(state, x)
      ensures state.claims.Keys == old(state).claims.Keys
    {
      hide Inv;
      Others(x);
      var repo := state.txs[x].repo;
      if id :| id in state.tasks && IsLiveOfType(state, id, repo, kind, user) {
        return Some(id);
      }
      return None;
    }

    /** What a clearance is worth: it holds now, and as long as `x` is open. */
    ghost predicate IsCleared(x: TxId, id: TaskId)
      reads this
    {
      x in state.txs
      && var tx := state.txs[x];
         && tx.id == id && tx.write.None? && MayWrite(tx)
         && tx.repo in state.claims && !RootClaimRow.IsLive(state.claims[tx.repo], state.now)
         && NoneLive(state, tx.repo, Onboarding, Some(tx.user))
         && (tx.kind == Onboarding ==> NoneLive(state, tx.repo, OnboardingUpgrade, None))
    }

    /** What the refusal names stands against the task of `x`. */
    ghost predicate Stands(x: TxId, refusal: Refusal)
      requires x in state.txs
      reads this
    {
      var tx := state.txs[x];
      match refusal
      case NoRepository => tx.repo !in state.claims
      case RootClaimed => tx.repo in state.claims && RootClaimRow.IsLive(state.claims[tx.repo], state.now)
      case LiveUpgrade(other) =>
        tx.kind == Onboarding && IsLiveOfType(state, other, tx.repo, OnboardingUpgrade, None)
      case LiveOnboardingBeside(other) => IsLiveOfType(state, other, tx.repo, Onboarding, Some(tx.user))
    }

    /** What it is worth to be let through unchecked. A task that is there and has a repository is `x`'s, under
        the lock; one of the two kinds is live, and a write to it is admitted. */
    ghost predicate LetThrough(x: TxId, id: TaskId)
      reads this
    {
      id in state.tasks && state.tasks[id].repositoryId.Some? ==>
        && x in state.txs && state.txs[x].id == id && SameTask(state.tasks[id], state.txs[x]) && state.txs[x].locked
        && (state.tasks[id].kind == Onboarding || state.tasks[id].kind == OnboardingUpgrade ==>
              IsLiveStatus(state.tasks[id].status) && MayWrite(state.txs[x]))
    }

    /** The checks of a task found dead under the lock. */
    method CheckDead(x: TxId) returns (refusal: Option<Refusal>)
      requires Valid() && x in state.txs && state.txs[x].rowLocked && state.txs[x].locked && state.txs[x].write.None?
      requires state.txs[x].seen == SeenDead && state.txs[x].repo in state.claims
      modifies this
      ensures Valid() && state.claims.Keys == old(state).claims.Keys
      ensures x in state.txs
              && state.txs[x] == old(state).txs[x].(unclaimed := state.txs[x].unclaimed,
                                                    noUpgrade := state.txs[x].noUpgrade,
                                                    noOnboarding := state.txs[x].noOnboarding)
      ensures refusal.None? ==> IsCleared(x, state.txs[x].id) && ReadStatus(state, state.txs[x]) == SeenDead
      ensures refusal.Some? ==> Stands(x, refusal.value)
      ensures refusal.Some? && refusal.value.LiveOnboardingBeside? && state.txs[x].kind == Onboarding ==>
                NoneLive(state, state.txs[x].repo, OnboardingUpgrade, None)
    {
      hide Inv, NoneLive, RootClaimRow.IsLive, IsLiveOfType, IsLiveStatus, Alone, SameTask, IsTask, ReadStatus,
           IndexAllows;
      Others(x);
      if RootClaimRow.IsLive(state.claims[state.txs[x].repo], state.now) {
        return Some(RootClaimed);
      }
      Step(SeeUnclaimed(x));
      refusal := None;
      if state.txs[x].kind == Onboarding {
        var upgradeId := LiveTaskIdOfType(x, OnboardingUpgrade, None);
        if upgradeId.Some? {
          refusal := Some(LiveUpgrade(upgradeId.value));
        } else {
          Step(SeeNoUpgrade(x));
        }
      }
      if refusal.None? {
        var onboardingId := LiveTaskIdOfType(x, Onboarding, Some(state.txs[x].user));
        if onboardingId.Some? {
          refusal := Some(LiveOnboardingBeside(onboardingId.value));
        } else {
          Step(SeeNoOnboarding(x));
        }
      }
      InvTells(state, x);
    }

    /** Reads the task, and opens `x` for it if it has a repository. */
    method CheckRevive(x: TxId, id: TaskId) returns (check: ReviveCheck)
      requires Valid() && x !in state.txs
      modifies this
      ensures Valid() && state.claims.Keys == old(state).claims.Keys
      ensures x in state.txs ==> state.txs[x].id == id && state.txs[x].write.None?
      ensures check.Skipped? ==> LetThrough(x, id)
      ensures !check.Skipped? ==> x in state.txs
      // A task of another kind is let through under the lock alone.
      ensures x in state.txs && state.txs[x].kind != Onboarding && state.txs[x].kind != OnboardingUpgrade ==>
                (check.Skipped? || check.Threw?) && !state.txs[x].rowLocked
      // It throws only while another transaction holds the lock it waits for.
      ensures check.Threw? ==> LockedByAnother(state, x, state.txs[x].repo)
      // Cleared means nothing stands against it; each refusal means what it names does.
      ensures check.Cleared? ==> IsCleared(x, id) && state.txs[x].seen == SeenDead
                                 && ReadStatus(state, state.txs[x]) == SeenDead
                                 && state.txs[x].repo == check.repo
      ensures check.Refused? ==> Stands(x, check.refusal)
      ensures check.Refused? && check.refusal.LiveOnboardingBeside? && state.txs[x].kind == Onboarding ==>
                NoneLive(state, state.txs[x].repo, OnboardingUpgrade, None)
    {
      hide Inv, NoneLive, RootClaimRow.IsLive, IsLiveOfType, LockedByAnother, IsLiveStatus, Alone,
           SameTask, ReadStatus, IndexAllows;
      Others(x);
      if id !in state.tasks || state.tasks[id].repositoryId.None? {
        return Skipped;
      }
      var task := state.tasks[id];
      Step(Begin(x, task.repositoryId.value, task.userId, task.kind, id));
      if task.kind != Onboarding && task.kind != OnboardingUpgrade {
        var ok := LockRepositoryTasksKey(x);
        TaskIsTheOne(state, x);
        return if ok then Skipped else Threw;
      }
      var found := LockRepositoryRow(x);
      if found.None? {
        return Threw;
      }
      if !found.value {
        return Refused(NoRepository);
      }
      Others(x);
      TaskIsTheOne(state, x);
      Step(SeeStatus(x));
      TaskIsTheOne(state, x);
      if id !in state.tasks || IsLiveStatus(state.tasks[id].status) {
        return Skipped;
      }
      var refusal := CheckDead(x);
      return if refusal.Some? then Refused(refusal.value) else Cleared(state.txs[x].repo);
    }

    /** `rest` are the tables besides the tasks, and `missing` the markers, when an upgrade is admitted. */
    method ReviveRefusal(x: TxId, id: TaskId, rest: Tables, missing: seq<string>) returns (verdict: Decision)
      requires Valid() && x !in state.txs && state.claims.Keys <= rest.repositories.Keys
      modifies this
      ensures Valid()
      ensures x in state.txs ==> state.txs[x].id == id && state.txs[x].write.None?
      // A task that is there, is of the two kinds and has a repository goes ahead only if its write is admitted,
      // and a dead one only if it is cleared and, if an upgrade, admitted.
      ensures verdict.GoAhead? && id in state.tasks && state.tasks[id].repositoryId.Some? ==>
                x in state.txs && SameTask(state.tasks[id], state.txs[x]) && state.txs[x].locked
      ensures verdict.GoAhead? && id in state.tasks && state.tasks[id].repositoryId.Some?
              && (state.tasks[id].kind == Onboarding || state.tasks[id].kind == OnboardingUpgrade) ==>
                && MayWrite(state.txs[x])
                && (!IsLiveStatus(state.tasks[id].status) ==>
                      var tx := state.txs[x];
                      && IsCleared(x, id)
                      && (tx.kind == OnboardingUpgrade ==>
                            tx.repo in rest.repositories
                            && IsAdmitted(rest.(tasks := state.tasks), tx.user, tx.repo, missing)))
      ensures verdict.WaitedInVain? ==> x in state.txs && LockedByAnother(state, x, state.txs[x].repo)
      ensures verdict.RefusedFor? ==> x in state.txs && Stands(x, verdict.refusal)
      ensures verdict.NotAdmitted? ==>
                x in state.txs && state.txs[x].kind == OnboardingUpgrade && state.txs[x].repo in rest.repositories
                && !verdict.admission.Admitted?
                && IsAnswer(verdict.admission, rest.(tasks := state.tasks),
                            state.txs[x].user, state.txs[x].repo, missing)
    {
      hide Inv, NoneLive, RootClaimRow.IsLive, RunIsLive, CompletedSince, WrittenSince, CloneVouches, BlockingUnits,
           IsLiveOfType, LockedByAnother, Alone;
      var check := CheckRevive(x, id);
      match check
      case Threw => return WaitedInVain;
      case Skipped => return GoAhead;
      case Refused(refusal) => return RefusedFor(refusal);
      case Cleared(repo) =>
        TaskIsTheOne(state, x);
        if state.txs[x].kind != OnboardingUpgrade {
          return GoAhead;
        }
        Others(x);
        ClearedStays(state, x);
        TaskIsTheOne(state, x);
        var db := rest.(tasks := state.tasks);
        var admission := UpgradeAdmissionOf(db, state.txs[x].user, repo, missing);
        return if admission.Admitted? then GoAhead else NotAdmitted(admission);
    }

    /** What a creation looks at under the lock. An upgrade's look for an onboarding is left to its admission. */
    method CheckCreation(x: TxId) returns (refusal: Option<Refusal>)
      requires Valid() && x in state.txs && state.txs[x].rowLocked && state.txs[x].locked
      requires state.txs[x].kind == Onboarding || state.txs[x].kind == OnboardingUpgrade
      requires state.txs[x].repo in state.claims
      modifies this
      ensures Valid() && state.claims.Keys == old(state).claims.Keys && x in state.txs
      ensures IsUnborn(old(state), x) ==> IsUnborn(state, x)
      ensures refusal.None? ==>
                state.txs[x] == old(state).txs[x].(unclaimed := true, noUpgrade := true,
                                                   noOnboarding := state.txs[x].noOnboarding)
                && (state.txs[x].kind == Onboarding ==> state.txs[x].noOnboarding)
      ensures refusal.Some? ==>
                var tx := old(state).txs[x];
                match refusal.value
                case NoRepository => false
                case RootClaimed => tx.repo in state.claims && RootClaimRow.IsLive(state.claims[tx.repo], state.now)
                case LiveUpgrade(other) => IsLiveOfType(state, other, tx.repo, OnboardingUpgrade, None)
                case LiveOnboardingBeside(other) =>
                  tx.kind == Onboarding && IsLiveOfType(state, other, tx.repo, Onboarding, Some(tx.user))
    {
      hide Inv, NoneLive, RootClaimRow.IsLive, IsLiveOfType, Alone, SameTask, ReadStatus, IndexAllows, IsFresh, IsTask,
           IsUnborn;
      var tx := state.txs[x];
      if RootClaimRow.IsLive(state.claims[tx.repo], state.now) {
        return Some(RootClaimed);
      }
      Look(SeeUnclaimed(x));
      if tx.kind == Onboarding {
        var onboardingId := LiveTaskIdOfType(x, Onboarding, Some(tx.user));
        if onboardingId.Some? {
          return Some(LiveOnboardingBeside(onboardingId.value));
        }
        Look(SeeNoOnboarding(x));
      }
      var upgradeId := LiveTaskIdOfType(x, OnboardingUpgrade, None);
      if upgradeId.Some? {
        return Some(LiveUpgrade(upgradeId.value));
      }
      Look(SeeNoUpgrade(x));
      return None;
    }

    /** The checks of a creation, in the order each kind makes them: another user's repository is not found,
        then the lock and what it guards. `id` is to be the new task's. */
    method AdmitCreation(x: TxId, kind: Kind, user: UserId, repo: RepoId, rest: Tables, missing: seq<string>)
      returns (verdict: Decision, id: TaskId)
      requires Valid() && x !in state.txs && state.claims.Keys <= rest.repositories.Keys
      requires kind == Onboarding || kind == OnboardingUpgrade
      modifies this
      ensures Valid()
      ensures verdict.GoAhead? ==>
                && Holds(x, repo, user, kind, id) && IsUnborn(state, x) && IsCleared(x, id)
                && NoneLive(state, repo, OnboardingUpgrade, None)
                && (kind == OnboardingUpgrade ==>
                      repo in rest.repositories && IsAdmitted(rest.(tasks := state.tasks), user, repo, missing))
      ensures verdict.WaitedInVain? ==> LockedByAnother(state, x, repo)
      ensures verdict == RefusedFor(NoRepository) ==> repo !in state.claims || !Owns(state, repo, user)
      ensures verdict == RefusedFor(RootClaimed) ==>
                repo in state.claims && RootClaimRow.IsLive(state.claims[repo], state.now)
      ensures verdict.RefusedFor? && verdict.refusal.LiveUpgrade? ==>
                IsLiveOfType(state, verdict.refusal.taskId, repo, OnboardingUpgrade, None)
      ensures verdict.RefusedFor? && verdict.refusal.LiveOnboardingBeside? ==>
                kind == Onboarding && IsLiveOfType(state, verdict.refusal.taskId, repo, Onboarding, Some(user))
      ensures verdict.NotAdmitted? ==>
                kind == OnboardingUpgrade && repo in rest.repositories && !verdict.admission.Admitted?
                && IsAnswer(verdict.admission, rest.(tasks := state.tasks), user, repo, missing)
    {
      hide Inv, NoneLive, RootClaimRow.IsLive, RunIsLive, CompletedSince, WrittenSince, CloneVouches, BlockingUnits,
           IsLiveOfType, LockedByAnother, Alone, SameTask, ReadStatus, IndexAllows, OwnersHold, IsFresh, IsTask,
           IsUnborn;
      Others(x);
      id := AFreshId(state);
      FreshIsUnborn(state, x, id);
      if repo !in state.owners || state.owners[repo] != user {
        return RefusedFor(NoRepository), id;
      }
      Step(Begin(x, repo, user, kind, id));
      var found := LockRepositoryRow(x);
      if found.None? {
        return WaitedInVain, id;
      }
      if !found.value {
        return RefusedFor(NoRepository), id;
      }
      var refusal := CheckCreation(x);
      if refusal.Some? {
        return RefusedFor(refusal.value), id;
      }
      if kind == OnboardingUpgrade {
        Others(x);
        var db := rest.(tasks := state.tasks);
        var admission := UpgradeAdmissionOf(db, user, repo, missing);
        if !admission.Admitted? {
          return NotAdmitted(admission), id;
        }
        NoRunIsNoneLive(state, rest, user, repo);
        Look(SeeNoOnboarding(x));
      }
      InvTells(state, x);
      return GoAhead, id;
    }
  }

  /** Ids do not run out. */
  method AFreshId(s: State) returns (id: TaskId)
    ensures IsFresh(s, id)
  {
    ghost var used := s.tasks.Keys + (set x | x in s.txs :: s.txs[x].id);
    ghost var top := AboveAll(used);
    assert IsFresh(s, top) by {
      forall y | y in s.txs ensures s.txs[y].id in used {}
    }
    id :| IsFresh(s, id);
  }

  lemma FreshIsUnborn(s: State, x: TxId, id: TaskId)
    requires x !in s.txs && IsFresh(s, id)
    ensures id !in s.tasks && forall tx: Tx :: tx.id == id ==> IsUnborn(s.(txs := s.txs[x := tx]), x)
  {
  }

  lemma {:induction false} AboveAll(ids: set<TaskId>) returns (top: TaskId)
    ensures forall id :: id in ids ==> id < top
    decreases |ids|
  {
    top := 0;
    if ids != {} {
      var one :| one in ids;
      top := AboveAll(ids - {one});
      forall id | id in ids ensures id < top || id == one {
        if id != one { assert id in ids - {one}; }
      }
      top := if one < top then top else one + 1;
    }
  }

  lemma NoRunIsNoneLive(s: State, rest: Tables, user: UserId, repo: RepoId)
    requires !RunIsLive(rest.(tasks := s.tasks), user, repo)
    ensures NoneLive(s, repo, Onboarding, Some(user))
  {
    forall id | id in s.tasks && IsLiveOn(s.tasks[id], repo) && s.tasks[id].kind == Onboarding
      ensures s.tasks[id].userId != user
    {
      assert id !in LiveRuns(s.tasks, s.tasks.Keys, user, repo);
    }
  }

  /** A task that is there is the one its transaction was opened for. */
  lemma TaskIsTheOne(s: State, x: TxId)
    requires Inv(s) && x in s.txs
    ensures var tx := s.txs[x];
            if tx.id in s.tasks then
              && SameTask(s.tasks[tx.id], tx) && s.tasks[tx.id].kind == tx.kind
              && ReadStatus(s, tx) == (if IsLiveStatus(s.tasks[tx.id].status) then SeenLive else SeenDead)
            else
              ReadStatus(s, tx) == SeenDead
  {
  }

  lemma InvTells(s: State, x: TxId)
    requires Inv(s) && x in s.txs
    ensures StillTrue(s, s.txs[x])
  {
  }

  /** What a dead task's transaction saw is still so, whoever ran since. */
  lemma ClearedStays(s: State, x: TxId)
    requires Inv(s) && x in s.txs && s.txs[x].seen == SeenDead && MayWrite(s.txs[x])
    ensures var tx := s.txs[x];
            && tx.repo in s.claims && !RootClaimRow.IsLive(s.claims[tx.repo], s.now)
            && NoneLive(s, tx.repo, Onboarding, Some(tx.user))
            && (tx.kind == Onboarding ==> NoneLive(s, tx.repo, OnboardingUpgrade, None))
            && ReadStatus(s, tx) == SeenDead
  {
  }
}
