/** The rows onboarding admission reads: tasks, repositories, the artifact ledger and the open questions
    of the project state. Dates are instants of one clock. */
module RepositoryRecords {
  import opened Options

  type TaskId = nat
  type RepoId = nat
  type UserId = nat

  datatype Status = Created | Queued | Running | Paused | WaitingUser | WaitingPr | Completed | Failed | Cancelled

  /** Neither completed, failed nor cancelled. */
  predicate IsLiveStatus(s: Status) {
    !s.Completed? && !s.Failed? && !s.Cancelled?
  }

  /** The statuses a task with work left can have. */
  lemma LiveStatuses(s: Status)
    ensures IsLiveStatus(s) <==> s in {Created, Queued, Running, Paused, WaitingUser, WaitingPr}
  {
  }

  datatype Kind = Onboarding | OnboardingUpgrade | Workflow | OtherKind

  datatype Task = Task(userId: UserId, repositoryId: Option<RepoId>, kind: Kind, status: Status,
                       createdAt: int, completedAt: Option<int>)

  datatype Repository = Repository(
    userId: UserId, source: string, hasRenderContext: bool, ready: bool, hasRoot: bool,
    onboardedAt: Option<int>, onboardingResetAt: Option<int>)

  datatype Source = FromOnboarding | FromUpgrade | FromRollback | FromBackfill

  datatype Artifact = Artifact(userId: UserId, repositoryId: RepoId, source: Source, sourceStepId: string,
                               generatedAt: int, importedAt: Option<int>, supersededAt: Option<int>)

  datatype Unit = PlanUnit | RenderUnit | ClaimUnit | SettingUnit | EnvironmentUnit | RtkEnabledUnit | NoUnit

  datatype Conflict = Conflict(repositoryId: RepoId, name: string, kind: Unit, resolvedAt: Option<int>)

  datatype Tables = Tables(tasks: map<TaskId, Task>, repositories: map<RepoId, Repository>,
                           artifacts: map<nat, Artifact>, conflicts: set<Conflict>)
}
