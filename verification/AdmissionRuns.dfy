/** Any number of transactions that start or revive onboardings and upgrades of any number of
    repositories, statement by statement, among tasks that end whenever they do.

    A transaction reads which task it is about, takes the repository's lock, looks, writes and commits.
    Each statement sees what is committed. The lock goes when the transaction does. Looking may happen
    in any order and may be left out; only the write asks which looks were taken, so these runs contain
    those of every creator and reviver that makes the looks its write needs. */
module AdmissionRuns {
  import opened Options
  import opened RepositoryRecords
  import RootClaimRow

  type TxId = nat

  datatype Seen = NotRead | SeenLive | SeenDead

  /** One transaction: the task it is about, and what it has done under the lock. */
  datatype Tx = Tx(
    repo: RepoId, user: UserId, kind: Kind, id: TaskId,
    locked: bool, rowLocked: bool, unclaimed: bool, seen: Seen, noUpgrade: bool, noOnboarding: bool,
    write: Option<Task>)

  /** `owners` is the user of each repository, which nothing changes. */
  datatype State = State(tasks: map<TaskId, Task>, owners: map<RepoId, UserId>, claims: map<RepoId, RootClaimRow.Row>,
                         txs: map<TxId, Tx>, now: int)

  datatype Event =
    // A revival goes by the task's own row; a creation asks for a repository of its user, and takes a fresh id.
    | Begin(x: TxId, repo: RepoId, user: UserId, kind: Kind, id: TaskId)
    | Lock(x: TxId)
    | LockRow(x: TxId)
    | SeeUnclaimed(x: TxId)
    | SeeStatus(x: TxId)
    | SeeNoUpgrade(x: TxId)
    | SeeNoOnboarding(x: TxId)
    | Write(x: TxId, task: Task)
    | Commit(x: TxId)
    | Abort(x: TxId)
    | Ends(id: TaskId, last: Status)
    | Moves(id: TaskId, next: Status)
    | Deleted(id: TaskId)
    | ClaimWritten(repo: RepoId, row: RootClaimRow.Row)
    | Elapse(ms: nat)

  predicate By(e: Event, x: TxId) {
    !e.Ends? && !e.Moves? && !e.Deleted? && !e.ClaimWritten? && !e.Elapse? && e.x == x
  }

  predicate IsLiveOn(t: Task, repo: RepoId) {
    t.repositoryId == Some(repo) && IsLiveStatus(t.status)
  }

  /** Two such tasks must not be live on one repository. Two upgrades are kept apart by an index. */
  predicate Clash(a: Kind, b: Kind) {
    (a == Onboarding && (b == Onboarding || b == OnboardingUpgrade)) || (a == OnboardingUpgrade && b == Onboarding)
  }

  predicate SameTask(t: Task, tx: Tx) {
    IsTask(t, tx.repo, tx.user, tx.kind)
  }

  predicate IsTask(t: Task, repo: RepoId, user: UserId, kind: Kind) {
    t.userId == user && t.kind == kind && t.repositoryId == Some(repo)
  }

  /** No task has the id, and no open transaction is about it. */
  predicate IsFresh(s: State, id: TaskId) {
    id !in s.tasks && forall y :: y in s.txs ==> s.txs[y].id != id
  }

  /** The user is the repository's owner. */
  predicate Owns(s: State, repo: RepoId, user: UserId) {
    repo in s.owners && s.owners[repo] == user
  }

  predicate NoneLive(s: State, repo: RepoId, kind: Kind, user: Option<UserId>) {
    forall id :: id in s.tasks && IsLiveOn(s.tasks[id], repo) && s.tasks[id].kind == kind
      ==> user.Some? && s.tasks[id].userId != user.value
  }

  /** The looks a write needs: the task was live already, or the root was unclaimed and no live task of
      the user clashes. A look for upgrades asks about every user's. */
  predicate MayWrite(tx: Tx) {
    && tx.locked && tx.rowLocked
    && (tx.seen == SeenLive || (tx.unclaimed && tx.noOnboarding && (tx.kind == Onboarding ==> tx.noUpgrade)))
  }

  /** The unique index on live upgrades. */
  predicate IndexAllows(s: State, id: TaskId, t: Task) {
    t.kind == OnboardingUpgrade && t.repositoryId.Some? && IsLiveStatus(t.status) ==>
      forall b :: b in s.tasks && b != id && IsLiveOn(s.tasks[b], t.repositoryId.value) ==>
        s.tasks[b].kind != OnboardingUpgrade
  }

  predicate Enabled(s: State, e: Event) {
    if !e.Begin? && !e.Ends? && !e.Moves? && !e.Deleted? && !e.ClaimWritten? && !e.Elapse? && e.x !in s.txs then
      false
    else
      match e
      case Begin(x, repo, user, kind, id) =>
        x !in s.txs
        && if id in s.tasks then IsTask(s.tasks[id], repo, user, kind) else Owns(s, repo, user) && IsFresh(s, id)
      case Lock(x) => forall y :: y in s.txs && s.txs[y].locked ==> s.txs[y].repo != s.txs[x].repo
      case LockRow(x) => s.txs[x].locked && s.txs[x].repo in s.claims
      case SeeUnclaimed(x) =>
        s.txs[x].rowLocked && s.txs[x].repo in s.claims && !RootClaimRow.IsLive(s.claims[s.txs[x].repo], s.now)
      case SeeStatus(x) => s.txs[x].locked && s.txs[x].write.None?
      case SeeNoUpgrade(x) => s.txs[x].locked && NoneLive(s, s.txs[x].repo, OnboardingUpgrade, None)
      case SeeNoOnboarding(x) => s.txs[x].locked && NoneLive(s, s.txs[x].repo, Onboarding, Some(s.txs[x].user))
      case Write(x, task) => MayWrite(s.txs[x]) && SameTask(task, s.txs[x])
      case Commit(x) =>
        var tx := s.txs[x];
        tx.write.Some? ==> IndexAllows(s, tx.id, tx.write.value)
      case Abort(_) => true
      case Ends(id, last) => id in s.tasks && !IsLiveStatus(last)
      case Moves(id, next) => id in s.tasks && IsLiveStatus(s.tasks[id].status) && IsLiveStatus(next)
      case Deleted(id) => id in s.tasks
      case ClaimWritten(repo, _) =>
        repo in s.claims && forall y :: y in s.txs && s.txs[y].rowLocked ==> s.txs[y].repo != repo
      case Elapse(_) => true
  }

  function ReadStatus(s: State, tx: Tx): Seen {
    if tx.id in s.tasks && SameTask(s.tasks[tx.id], tx) && IsLiveStatus(s.tasks[tx.id].status) then
      SeenLive
    else
      SeenDead
  }

  function Apply(s: State, e: Event): State
    requires Enabled(s, e)
  {
    match e
    case Begin(x, repo, user, kind, id) =>
      s.(txs := s.txs[x := Tx(repo, user, kind, id, false, false, false, NotRead, false, false, None)])
    case Lock(x) => s.(txs := s.txs[x := s.txs[x].(locked := true)])
    case LockRow(x) => s.(txs := s.txs[x := s.txs[x].(rowLocked := true)])
    case SeeUnclaimed(x) => s.(txs := s.txs[x := s.txs[x].(unclaimed := true)])
    case SeeStatus(x) => s.(txs := s.txs[x := s.txs[x].(seen := ReadStatus(s, s.txs[x]))])
    case SeeNoUpgrade(x) => s.(txs := s.txs[x := s.txs[x].(noUpgrade := true)])
    case SeeNoOnboarding(x) => s.(txs := s.txs[x := s.txs[x].(noOnboarding := true)])
    case Write(x, task) => s.(txs := s.txs[x := s.txs[x].(write := Some(task))])
    case Commit(x) =>
      var tx := s.txs[x];
      State(if tx.write.Some? then s.tasks[tx.id := tx.write.value] else s.tasks,
            s.owners, s.claims, s.txs - {x}, s.now)
    case Abort(x) => s.(txs := s.txs - {x})
    case Ends(id, last) => s.(tasks := s.tasks[id := s.tasks[id].(status := last)])
    case Moves(id, next) => s.(tasks := s.tasks[id := s.tasks[id].(status := next)])
    case Deleted(id) => s.(tasks := s.tasks - {id})
    case ClaimWritten(repo, row) => s.(claims := s.claims[repo := row])
    case Elapse(ms) => s.(now := s.now + ms)
  }

  // ---- What every step keeps ------------------------------------------------------------------

  /** No two live tasks clash on a repository, and no two upgrades are live on it. */
  ghost predicate Exclusive(tasks: map<TaskId, Task>) {
    forall a, b, repo :: a in tasks && b in tasks && a != b && IsLiveOn(tasks[a], repo) && IsLiveOn(tasks[b], repo) ==>
      && !Clash(tasks[a].kind, tasks[b].kind)
      && !(tasks[a].kind == OnboardingUpgrade && tasks[b].kind == OnboardingUpgrade)
  }

  /** Every task on a repository is its owner's. */
  ghost predicate OwnersHold(s: State) {
    && (forall id, repo :: id in s.tasks && s.tasks[id].repositoryId == Some(repo) ==>
          Owns(s, repo, s.tasks[id].userId))
    && (forall x :: x in s.txs ==> Owns(s, s.txs[x].repo, s.txs[x].user))
  }

  /** One holder at a time of a repository's lock. */
  ghost predicate LocksHold(txs: map<TxId, Tx>) {
    && (forall x :: x in txs && txs[x].rowLocked ==> txs[x].locked)
    && forall x, y :: x in txs && y in txs && txs[x].locked && txs[y].locked && txs[x].repo == txs[y].repo ==> x == y
  }

  /** All that is about one task, open transactions and its row, agrees on what never changes of it. */
  ghost predicate OneIdentity(s: State) {
    && (forall x :: x in s.txs && s.txs[x].id in s.tasks ==> SameTask(s.tasks[s.txs[x].id], s.txs[x]))
    && forall x, y :: x in s.txs && y in s.txs && s.txs[x].id == s.txs[y].id ==>
         s.txs[x].repo == s.txs[y].repo && s.txs[x].user == s.txs[y].user && s.txs[x].kind == s.txs[y].kind
  }

  /** Nobody clashes with the task of a transaction that found it live. */
  predicate Alone(s: State, tx: Tx) {
    forall b :: b in s.tasks && b != tx.id && IsLiveOn(s.tasks[b], tx.repo) ==> !Clash(tx.kind, s.tasks[b].kind)
  }

  /** What a transaction saw under the lock is still so. */
  predicate StillTrue(s: State, tx: Tx) {
    && (tx.unclaimed || tx.seen != NotRead || tx.noUpgrade || tx.noOnboarding ==> tx.locked)
    && (tx.unclaimed ==> tx.rowLocked && tx.repo in s.claims && !RootClaimRow.IsLive(s.claims[tx.repo], s.now))
    && (tx.noUpgrade ==> NoneLive(s, tx.repo, OnboardingUpgrade, None))
    && (tx.noOnboarding ==> NoneLive(s, tx.repo, Onboarding, Some(tx.user)))
    && (tx.seen == SeenLive ==> Alone(s, tx))
    && (tx.seen == SeenDead ==> ReadStatus(s, tx) == SeenDead)
    && (tx.write.Some? ==> MayWrite(tx) && SameTask(tx.write.value, tx))
  }

  ghost predicate Inv(s: State) {
    && Exclusive(s.tasks)
    && OwnersHold(s)
    && OneIdentity(s)
    && LocksHold(s.txs)
    && forall x :: x in s.txs ==> StillTrue(s, s.txs[x])
  }

  /** The looks add up, though one of them asks about one user's tasks only: nothing clashes with a task
      about to be written. */
  lemma MayWriteIsAlone(s: State, tx: Tx)
    requires OwnersHold(s) && Owns(s, tx.repo, tx.user) && StillTrue(s, tx) && MayWrite(tx)
    ensures Alone(s, tx)
  {
  }

  /** Tasks only left the live ones or moved among them. */
  ghost predicate NoneBecameLive(s: State, t: State) {
    forall id :: id in t.tasks ==>
      id in s.tasks && t.tasks[id].(status := s.tasks[id].status) == s.tasks[id]
      && (IsLiveStatus(t.tasks[id].status) ==> IsLiveStatus(s.tasks[id].status))
  }

  lemma QuietTasksKeepSights(s: State, t: State, tx: Tx)
    requires NoneBecameLive(s, t) && t.claims == s.claims && t.now == s.now && StillTrue(s, tx)
    ensures StillTrue(t, tx)
  {
    hide RootClaimRow.IsLive;
  }

  lemma QuietTasksKeepInv(s: State, t: State)
    requires Inv(s) && NoneBecameLive(s, t) && t.txs == s.txs && t.claims == s.claims && t.now == s.now
    requires t.owners == s.owners
    ensures Inv(t)
  {
    hide StillTrue;
    forall x | x in s.txs ensures StillTrue(t, s.txs[x]) { QuietTasksKeepSights(s, t, s.txs[x]); }
    forall a, b, repo | a in t.tasks && b in t.tasks && a != b
                      && IsLiveOn(t.tasks[a], repo) && IsLiveOn(t.tasks[b], repo)
      ensures IsLiveOn(s.tasks[a], repo) && IsLiveOn(s.tasks[b], repo)
    {
    }
  }

  /** What a transaction relies on is in the tasks, the claims and the clock, and not in the other transactions. */
  lemma SameSights(s: State, t: State, tx: Tx)
    requires t.tasks == s.tasks && t.claims == s.claims && t.now == s.now
    ensures StillTrue(t, tx) <==> StillTrue(s, tx)
  {
    hide RootClaimRow.IsLive;
  }

  /** No transaction comes to be about another task. */
  lemma SameIdentities(s: State, t: State)
    requires OneIdentity(s) && t.tasks == s.tasks && t.txs.Keys <= s.txs.Keys
    requires forall x :: x in t.txs ==>
               && t.txs[x].id == s.txs[x].id && t.txs[x].repo == s.txs[x].repo
               && t.txs[x].user == s.txs[x].user && t.txs[x].kind == s.txs[x].kind
    ensures OneIdentity(t)
  {
  }

  /** A statement of `x` that writes nothing keeps what it may rely on. */
  lemma LookKeepsInv(s: State, x: TxId, tx: Tx)
    requires Inv(s) && x in s.txs && StillTrue(s, tx)
    requires tx.repo == s.txs[x].repo && tx.user == s.txs[x].user && tx.kind == s.txs[x].kind && tx.id == s.txs[x].id
    requires tx.rowLocked ==> tx.locked
    requires tx.locked ==> s.txs[x].locked || forall y :: y in s.txs && s.txs[y].locked ==> s.txs[y].repo != tx.repo
    ensures Inv(s.(txs := s.txs[x := tx]))
  {
    hide StillTrue, Exclusive, IsTask, OneIdentity;
    var t := s.(txs := s.txs[x := tx]);
    assert OneIdentity(t) by { SameIdentities(s, t); }
    forall y | y in t.txs ensures StillTrue(t, t.txs[y]) {
      SameSights(s, t, t.txs[y]);
    }
  }

  lemma CommitKeepsInv(s: State, x: TxId)
    requires Inv(s) && Enabled(s, Commit(x)) && s.txs[x].write.Some?
    ensures Inv(Apply(s, Commit(x)))
  {
    hide StillTrue, RootClaimRow.IsLive, MayWrite, OneIdentity, Exclusive;
    var tx, t := s.txs[x], Apply(s, Commit(x));
    WritesWhatItMay(s, tx);
    MayWriteIsAlone(s, tx);
    CommitKeepsIdentity(s, x);
    CommitKeepsExclusive(s, x);
    forall y | y in t.txs ensures StillTrue(t, t.txs[y]) {
      OthersAreUntouched(s, x, y);
    }
  }

  lemma CommitKeepsIdentity(s: State, x: TxId)
    requires OneIdentity(s) && Enabled(s, Commit(x))
    requires s.txs[x].write.Some? && SameTask(s.txs[x].write.value, s.txs[x])
    ensures OneIdentity(Apply(s, Commit(x)))
  {
  }

  lemma CommitKeepsExclusive(s: State, x: TxId)
    requires Exclusive(s.tasks) && Enabled(s, Commit(x)) && Alone(s, s.txs[x])
    requires s.txs[x].write.Some? && SameTask(s.txs[x].write.value, s.txs[x])
    ensures Exclusive(Apply(s, Commit(x)).tasks)
  {
  }

  lemma WritesWhatItMay(s: State, tx: Tx)
    requires StillTrue(s, tx) && tx.write.Some?
    ensures MayWrite(tx) && SameTask(tx.write.value, tx)
  {
  }

  /** No transaction but the holder of the lock has seen anything of the repository. */
  lemma OthersAreUntouched(s: State, x: TxId, y: TxId)
    requires Inv(s) && Enabled(s, Commit(x)) && s.txs[x].write.Some? && y in s.txs && y != x
    ensures StillTrue(Apply(s, Commit(x)), s.txs[y])
  {
  }

  /** A statement under the lock, or taking it, that commits nothing. */
  predicate IsLook(e: Event) {
    e.Lock? || e.LockRow? || e.SeeUnclaimed? || e.SeeStatus? || e.SeeNoUpgrade? || e.SeeNoOnboarding? || e.Write?
  }

  /** What a statement has its transaction rely on is true, and it takes the row after the lock. */
  lemma LooksAreTrue(s: State, e: Event)
    requires Inv(s) && Enabled(s, e) && IsLook(e)
    ensures var tx := Apply(s, e).txs[e.x]; StillTrue(s, tx) && (tx.rowLocked ==> tx.locked)
  {
    hide Exclusive, OneIdentity, OwnersHold, NoneLive, RootClaimRow.IsLive;
    if e.SeeStatus? { SeenIsTrue(s, e.x); }
  }

  lemma SeenIsTrue(s: State, x: TxId)
    requires Inv(s) && Enabled(s, SeeStatus(x))
    ensures StillTrue(s, s.txs[x].(seen := ReadStatus(s, s.txs[x])))
  {
    LiveMeansAlone(s, s.txs[x]);
  }

  lemma StepKeepsInv(s: State, e: Event)
    requires Inv(s) && Enabled(s, e)
    ensures Inv(Apply(s, e))
  {
    hide Inv, StillTrue, Exclusive, OneIdentity, OwnersHold, NoneLive, ReadStatus, MayWrite;
    if IsLook(e) {
      LooksAreTrue(s, e);
      LookKeepsInv(s, e.x, Apply(s, e).txs[e.x]);
      return;
    }
    match e
    case Begin(x, _, _, _, _) => BeginKeepsInv(s, e);
    case Commit(x) =>
      if s.txs[x].write.Some? {
        CommitKeepsInv(s, x);
      } else {
        LeavingKeepsInv(s, x);
      }
    case Abort(x) => LeavingKeepsInv(s, x);
    case Ends(_, _) => QuietTasksKeepInv(s, Apply(s, e));
    case Moves(_, _) => QuietTasksKeepInv(s, Apply(s, e));
    case Deleted(_) => QuietTasksKeepInv(s, Apply(s, e));
    case ClaimWritten(_, _) => ClaimKeepsInv(s, e);
    case Elapse(_) => ClaimKeepsInv(s, e);
  }

  lemma BeginKeepsInv(s: State, e: Event)
    requires Inv(s) && Enabled(s, e) && e.Begin?
    ensures Inv(Apply(s, e))
  {
    hide StillTrue, Exclusive, OneIdentity, IsFresh;
    var t := Apply(s, e);
    BeginKeepsIdentity(s, e);
    NothingSeenYet(t, t.txs[e.x]);
    forall y | y in s.txs ensures StillTrue(t, s.txs[y]) {
      SameSights(s, t, s.txs[y]);
    }
  }

  lemma BeginKeepsIdentity(s: State, e: Event)
    requires OneIdentity(s) && Enabled(s, e) && e.Begin?
    ensures OneIdentity(Apply(s, e))
  {
  }

  lemma NothingSeenYet(s: State, tx: Tx)
    requires !tx.unclaimed && tx.seen == NotRead && !tx.noUpgrade && !tx.noOnboarding && tx.write.None?
    ensures StillTrue(s, tx)
  {
  }

  lemma LeavingKeepsInv(s: State, x: TxId)
    requires Inv(s) && x in s.txs
    ensures Inv(s.(txs := s.txs - {x}))
  {
    hide StillTrue, Exclusive, IsTask, OneIdentity;
    var t := s.(txs := s.txs - {x});
    assert OneIdentity(t) by { SameIdentities(s, t); }
    forall y | y in t.txs ensures StillTrue(t, t.txs[y]) {
      SameSights(s, t, s.txs[y]);
    }
  }

  lemma ClaimKeepsInv(s: State, e: Event)
    requires Inv(s) && Enabled(s, e) && (e.ClaimWritten? || e.Elapse?)
    ensures Inv(Apply(s, e))
  {
    hide StillTrue, Exclusive, IsTask, OneIdentity;
    var t := Apply(s, e);
    assert OneIdentity(t) by { SameIdentities(s, t); }
    forall y | y in s.txs ensures StillTrue(t, s.txs[y]) {
      ClaimKeepsSights(s, e, y);
    }
  }

  lemma ClaimKeepsSights(s: State, e: Event, y: TxId)
    requires LocksHold(s.txs) && y in s.txs && StillTrue(s, s.txs[y])
    requires Enabled(s, e) && (e.ClaimWritten? || e.Elapse?)
    ensures StillTrue(Apply(s, e), s.txs[y])
  {
  }

  lemma LiveMeansAlone(s: State, tx: Tx)
    requires Exclusive(s.tasks)
    ensures ReadStatus(s, tx) == SeenLive ==> Alone(s, tx)
  {
  }

  // ---- Whole runs -----------------------------------------------------------------------------

  ghost predicate ValidRun(s: State, h: seq<Event>)
    decreases |h|
  {
    h == [] || (Enabled(s, h[0]) && ValidRun(Apply(s, h[0]), h[1..]))
  }

  ghost function After(s: State, h: seq<Event>): State
    requires ValidRun(s, h)
    decreases |h|
  {
    if h == [] then s else After(Apply(s, h[0]), h[1..])
  }

  /** Where no transaction is open yet, the tasks are exclusive, and each is its repository's owner's. */
  ghost predicate Starts(s: State) {
    s.txs == map[] && Exclusive(s.tasks) && OwnersHold(s)
  }

  lemma {:induction false} RunKeepsInv(s: State, h: seq<Event>)
    requires Inv(s) && ValidRun(s, h)
    ensures Inv(After(s, h))
    decreases |h|
  {
    hide Inv, Enabled, Apply;
    if h != [] {
      StepKeepsInv(s, h[0]);
      RunKeepsInv(Apply(s, h[0]), h[1..]);
    }
  }

  /** After every run, of two live tasks on one repository neither both are onboardings, nor both upgrades,
      nor is one of each kind. */
  lemma NeverTwoLive(s: State, h: seq<Event>, repo: RepoId, a: TaskId, b: TaskId)
    requires Starts(s) && ValidRun(s, h)
    requires var t := After(s, h).tasks;
             && a in t && b in t && a != b && IsLiveOn(t[a], repo) && IsLiveOn(t[b], repo)
    ensures var t := After(s, h).tasks;
            && !(t[a].kind == Onboarding && t[b].kind == Onboarding)
            && !(t[a].kind == Onboarding && t[b].kind == OnboardingUpgrade)
            && !(t[a].kind == OnboardingUpgrade && t[b].kind == OnboardingUpgrade)
  {
    RunKeepsInv(s, h);
  }

  /** A task that comes to life does so under a root nobody claims: a claim that is live when the
      transaction commits belongs to a task that was live when it looked. */
  lemma NothingStartsUnderAClaim(s: State, x: TxId)
    requires Inv(s) && Enabled(s, Commit(x)) && s.txs[x].write.Some? && s.txs[x].seen != SeenLive
    ensures s.txs[x].repo in s.claims && !RootClaimRow.IsLive(s.claims[s.txs[x].repo], s.now)
  {
  }
}
