# Verified models of the repository-root lease and the other recovery protocols

This project models the parts of Haive that must stay correct when a process dies, a write loses its
acknowledgement, or two callers act at once, and proves what those parts promise. Each module stands for
one component.

| module | component |
|---|---|
| RootClaimRow | the claim columns of one repository row, and every run of committed claims, renewals and clears |
| RootClaimDatabase | the statements a holder issues against that row; a call may throw, before or after its write commits |
| CandidateStamps | the bounded set of stamps a row might carry |
| RootClaimLease | acquiring, renewing and releasing the lease, with other holders running at every database call |
| ArchiveMove | moving an uploaded archive to its final name through a record written ahead of the move, and undoing it |
| UploadPaths, Pruning | names and folders of uploads, and removing the folders that removed files leave empty |
| ExpansionSettling, UploadSections | taking back archive expansions that died half-way, and every run of the sections under the attachments lock |
| OwnedUploads | the files of attachment rows and of uploads in flight, over those runs |
| TakeBackRace, TreeFirstRace | the kinds of step that endanger them, in runs of their own |
| StepTime | the saturating credits that keep waits and closed gaps out of a step's billed time |
| RepositoryRecords, OnboardingVerdict | onboarding history folded to facts, the verdict, and upgrade admission |
| AdmissionRuns, RepositoryAdmission | any interleaving of transactions that start or revive onboardings and upgrades, and the checks they make |
| MarkdownFences | fenced code blocks, section 4.5 of the CommonMark Spec 0.31.2, by the repository's scanner |
| MergeLeftOpen | the merges a cancelled task left open, folded from its event log |
| DagReset | the retry reset of a task's current DAG level |
| JsText, Options | JavaScript string operations, and optional values |

## How the source's form is kept

Objects that change in place are classes: the database row, the candidate set, the lease, the disk, the
uploads tree, the DAG tables, the task database. Loops are loops. Each such method is proved against a
specification function or predicate, and the properties below are proved about those.

Concurrency is modelled by interference. Before every database call of a holder or of a transaction, the
others take any number of steps of their own, chosen arbitrarily. The runs the lemmas range over are
therefore not limited in length, in the number of participants, or in their order. The lease speaks of
*committed* statements: whether the caller learned of the commit is a separate, arbitrary choice.

## Assumptions

- There is one clock, for stamps and for the database's `now()`, and it does not go back.
- Every acquire has a fresh owner token, and an in-doubt write is decided by the time its call throws.
- Every release passes its stamp and its owner. A claimed row without an owner exists only before the first
  claim that writes one.
- The operations of one lease handle do not overlap: the timer skips a tick while a renewal is in flight,
  and a release waits for it (repo-root-claim.ts:667-681).
- Bounds on what is forgotten hold for renewals at least one renewal period apart; `paced` records whether
  every renewal so far was.
- Removing a file or an empty folder succeeds where the file system allows it. A rename never replaces.
- The unique index on live upgrades (`packages/database/src/schema/tasks.ts:495-503`) is part of a commit.
- Nobody but the steps of the model writes in the uploads directory, although the sandbox of a task can
  (attachments-fs.ts:153-162). Without that no row can count on its file.
- A new task gets an id that no task has and no open transaction is about, and nothing changes a task's user,
  kind or repository.
- Nothing changes the owner of a repository, and every task on it is its owner's when a run starts.
- An onboarding is created with the two checks of `packages/api/src/routes/tasks/index.ts:832-847`.

## Where the code and its comments differ

- The comment in `pruneEmptyDirs` (attachments-fs.ts:106) says the climb stops at a folder that is already
  gone. `removeNoFollow` answers false for an absent name instead of throwing (fs-safe.ts:1245-1279), so the
  climb goes on. The model follows the code; it is what makes pruning complete, and it makes the
  deepest-first order unnecessary (`Pruning.EveryOrderPrunesAlike`).
- `settleExpansionAttempt` is meant to keep every file an attachment row owns and every upload in flight. It
  takes a file exactly when the attempt reads as placed and the file is one of its unowned names, or stands
  where a folder of one should be (`ExpansionSettling.SettleTakesExactly`,
  `ExpansionSettling.OwnedFilesAreKeptExceptAtAFolder`). Three kinds of step lead there.
  - A section takes a placement back and leaves its intent to a later section
    (`packages/worker/src/attachments/expand-archives.ts:554-559`). `TakeBackRace.ATakeBackCanCostAnOwnedFile`
    is a run in which a row then loses its file.
  - A staging directory is removed recursively, outside the lock, and its tree can go before its intent. That
    can happen to an attempt that was never moved: its move threw and the settle after that failed
    (`expand-archives.ts:507-524`, `566-575`, `680-693`), or it ran out of folder names, by their number or by
    the length of a path (`512-513`, `531-534`, `698`). What is left reads as a placement in a folder somebody
    else owns. `TreeFirstRace.ATreeFirstDropCanCostBoth` is a run, without a take-back, in
    which an upload in flight and a row lose their files to the next settle.
  - A section dies half-way. A settle that ends between its removals and that of the intent
    (`attachments-fs.ts:232-236`) leaves what a take-back does, so `TakeBackRace.ADeadSettleCanCostAnOwnedFile`
    is the first run without a take-back. A delete that ends between its removals and its commit
    (`packages/api/src/routes/tasks/attachments.ts:545-561`) leaves rows without files.
  - Without the second kind, settles take no upload in flight, in any run, whatever dies
    (`UploadSections.OnlyADeleteTakesAnUpload`). A take-back and a section that dies keep every owned file safe
    exactly when they leave no intent whose files are all gone, and no row without its file
    (`OwnedUploads.StepKeepsOwned`). In runs of such steps every row and every upload has its file at every
    moment (`OwnedUploads.NothingOwnedIsEverTaken`).
- Nothing keeps the name of a row from being claimed once its file is gone. The delete of that row then takes
  the upload's file (`TakeBackRace.AStaleRowCanCostAnUpload`). A delete can take an upload exactly while some
  row speaks for its name (`UploadSections.ADeleteCanTake`), and an upload whose name nobody speaks for when
  it claims it keeps its file (`UploadSections.AnUnspokenNameIsKept`).
- At exactly the stale boundary a claim reads as dead and cannot be taken yet
  (`RootClaimRow.LiveAgainstTakeable`).
- A credit floors to whole milliseconds, so conservation of step time is exact up to less than a millisecond
  for each credit, and it fails exactly once the credits exceed the column's maximum
  (`StepTime.WorkIsConserved`).
- The check for a live onboarding looks at one user's tasks, and is enough because a repository's tasks are
  all its owner's (`AdmissionRuns.MayWriteIsAlone`).
- A task may have several DAG plans and the reset takes whichever the query finds, so the second call is a
  no-op for the same plan, and untouched by the first for any other (`DagReset.AnotherPlanIsUntouched`).

## Model

| member | source | states |
|---|---|---|
| RootClaimRow.HandOver | packages/database/src/repo-root-claim.ts:86-210 | in every run, the row leaves an owner only by that owner's own clear or by a claim over a stamp more than the stale window old, and enters one only by that one's claim of a row that is not live |
| RootClaimRow.NeverDisplaced | packages/database/src/repo-root-claim.ts:86-210 | while the stamp an owner keeps on the row is never older than the window and it commits no clear, it owns the row at every point of the run |
| RootClaimRow.OwnerWroteTheStamp | packages/database/src/repo-root-claim.ts:86-210 | under an owner's name the row carries the newest stamp that owner committed |
| RootClaimRow.HeartbeatKeepsTheLease | packages/database/src/repo-root-claim.ts:29-33 | an owner whose newest committed stamp is always fresh enough is never displaced |
| RootClaimRow.LossIsExplained | packages/database/src/repo-root-claim.ts:86-164 | an owner that claimed and no longer owns the row was taken over while stale or released it |
| RootClaimRow.NoTwoGoodClaims | packages/database/src/repo-root-claim.ts:69-119 | of two tokens that both claimed, one was taken over while stale or had released |
| RootClaimRow.ClearsOnlyItsOwn | packages/database/src/repo-root-claim.ts:121-164 | a committed clear never strips another owner |
| RootClaimRow.ClaimedRowsHaveOwners | packages/database/src/repo-root-claim.ts:138-161 | after the first claim with an owner, no claimed row lacks one |
| RootClaimRow.AQuarterOfAnHour | packages/database/src/repo-root-claim.ts:29-33 | how long a claim is live and from when it can be taken, to the millisecond, and that three periods make the window |
| RootClaimDatabase.Database.ClaimRepositoryRoot | packages/database/src/repo-root-claim.ts:86-119 | acknowledged means the claim committed and is on the row; no match means the row was not takeable or another user's when the statement ran; another user's row is never claimed |
| RootClaimDatabase.Database.RenewRootClaim | packages/database/src/repo-root-claim.ts:175-210 | what a renewal can do to the row, and what each of its three answers proves |
| RootClaimDatabase.Database.ReleaseRepositoryRoot | packages/database/src/repo-root-claim.ts:129-164 | exactly one clear is issued, and if the row still carries its stamp under this owner that clear threw |
| CandidateStamps.RememberedLosesOnlyTheOldest | packages/database/src/repo-root-claim.ts:286-298 | remembering keeps the stamps distinct and within the cap, and loses an entry exactly when the set is full and then only the oldest |
| CandidateStamps.RememberKeepsSpacing | packages/database/src/repo-root-claim.ts:286-298 | with renewals a period apart, an entry a full set forgets is more than two stale windows old |
| CandidateStamps.CandidateSet.Remember | packages/database/src/repo-root-claim.ts:295-299 | the set becomes the bounded, oldest-first-out list with the stamp in it |
| CandidateStamps.CandidateSet.Drop | packages/database/src/repo-root-claim.ts:300-303 | exactly the given stamp goes |
| CandidateStamps.CandidateSet.IndexOf | packages/database/src/repo-root-claim.ts:293 | a position of the stamp, or -1 exactly when it is absent |
| CandidateStamps.CandidateSet.Clear | packages/database/src/repo-root-claim.ts:304-306 | the set is empty |
| RootClaimLease.ReconcileAmbiguousRenewal | packages/database/src/repo-root-claim.ts:222-262 | what is called proven is what the row carries, a proven loss means another owner or none, and only a failed read leaves it unproven |
| RootClaimLease.RenewReconciled | packages/database/src/repo-root-claim.ts:491-505 | when no call throws, the stamp it names is now's, on the row, by a renewal it committed last; a write that threw is settled by reading the row back, and stays in doubt only if both threw; which stamps the row can carry then |
| RootClaimLease.ClassifyUnmatchedClear | packages/database/src/repo-root-claim.ts:346-376 | a row that was read is told exactly: free, taken over by another, or ours; a read that threw is answered as maybe ours |
| RootClaimLease.ReleaseReconciled | packages/database/src/repo-root-claim.ts:378-412 | exactly one clear of the stamp is issued; the answer is the right one for the row unless the last call threw; a row that still carries the stamp under this owner means that clear threw |
| RootClaimLease.ReleaseWithRetry | packages/database/src/repo-root-claim.ts:428-441 | one to three clears of the stamp are issued, and a row that still carries it under this owner means three were and all threw; the answer is the right one for the row unless the last call threw |
| RootClaimLease.ReadClaimStamp | packages/database/src/repo-root-claim.ts:456-477 | the row as it is, or nothing after every one of three reads threw |
| RootClaimLease.Lease.constructor | packages/database/src/repo-root-claim.ts:584-612 | a handle starts with the candidate invariant established |
| RootClaimLease.Lease.RecoverFromCandidates | packages/database/src/repo-root-claim.ts:632-657 | it is settled which candidate the row carries, or that it carries this owner only under an evicted stamp, unless a renewal and its read-back both threw last; when no call throws, a renewal of a candidate was committed last |
| RootClaimLease.Lease.RenewFromAny | packages/database/src/repo-root-claim.ts:614-657 | the same for the held stamp and the candidates together; left in doubt, at most one more candidate is kept |
| RootClaimLease.Lease.RenewOnce | packages/database/src/repo-root-claim.ts:614-665 | the candidate invariant is kept; the lease is reported lost only after a takeover or under an evicted stamp; a tick knows what the row carries unless its last two calls, a renewal and its read-back, threw, and if none threw it left a stamp it wrote itself; at most one stamp is evicted |
| RootClaimLease.Lease.Tick | packages/database/src/repo-root-claim.ts:667-674 | as long as every tick starts within a period of the one before, the first of the claim, ends within a period of its start, and no two in a row fail to leave a stamp of their own on the row, acknowledged or read back or neither, the row is this owner's, and the lease is not lost but under an evicted stamp of an unpaced timer; in general, as long as no moment comes more than the stale window after the last tick that left one |
| RootClaimLease.Lease.Work | packages/database/src/repo-root-claim.ts:29-33 | the same while the caller works and the others run |
| RootClaimLease.HeldThrough | packages/database/src/repo-root-claim.ts:29-33 | an owner that only renews, and whose newest stamp before a stretch of a run is fresh at its end, owns the row all through it |
| RootClaimLease.TickBeats | packages/database/src/repo-root-claim.ts:614-674 | a tick keeps the heartbeat, and renews it when it leaves a stamp of its own on the row |
| RootClaimLease.OneMoreTick | packages/database/src/repo-root-claim.ts:31-33 | the period is short enough: a tick on time ends within the stale window of the last stamp, also when the tick before it failed |
| RootClaimLease.Lease.OnlyStaleClaimsAreForgotten | packages/database/src/repo-root-claim.ts:286-289 | a row that still carries this owner under a stamp the handle cannot name is takeable, and stale twice over |
| RootClaimLease.Lease.ReleaseCandidates | packages/database/src/repo-root-claim.ts:698-715 | a row still under one of those stamps means three clears of it were issued and threw, and in all at most three times one more than the cap were issued; a row that is another's after the last call that answered is reported lost |
| RootClaimLease.Lease.Release | packages/database/src/repo-root-claim.ts:678-718 | a release in which no call throws frees the row of this owner unless its stamp was evicted, and leaves it unclaimed or reports the takeover; in general, three clears of the stamp it carries were issued and threw, and a takeover the last call could tell of is reported; loss is reported only after a takeover or after an own clear had committed; a second release does nothing |
| RootClaimLease.AcquireRootClaim | packages/database/src/repo-root-claim.ts:543-582 | a handle goes only to a caller whose own claim is on the row; a caller without one owns nothing unless the claim threw and every read after it failed; it throws exactly when the claim did and every read did or the row was read as free; with no call throwing it is refused only for a row it may not take or another user's |
| RootClaimLease.OwnsByItsClaim | packages/database/src/repo-root-claim.ts:543-582 | a token whose only statement is its claim owns the row only under that claim's stamp, also when two callers write one millisecond |
| ArchiveMove.PlaceReplacementArchive | packages/shared/src/bundle-replacement.ts:14-80 | wherever it stops it has made one of three steps; placed means the record and the file agree; without a failure it succeeds exactly when it can |
| ArchiveMove.DiscardReplacementArchive | packages/shared/src/bundle-replacement.ts:84-113 | wherever it stops, what it left; without a failure the recorded move is undone |
| ArchiveMove.OnlyOwnRecordsName | packages/shared/src/bundle-replacement.ts:51-64 | a record is for the upload and names a file exactly if it is the one a move of that file writes |
| ArchiveMove.OnlyOwnRecordsDiscard | packages/shared/src/bundle-replacement.ts:97-111 | a discard goes by a record exactly if a move of this upload could have written it, and takes only the file of the identity in it |
| ArchiveMove.MoveIsCrashSafe | packages/shared/src/bundle-replacement.ts:14-80 | over any number of runs stopped anywhere, the upload is staged or moved under its record, and the next undisturbed run succeeds exactly when the final name was free |
| ArchiveMove.UploadIsAtExactlyOneName | packages/shared/src/bundle-replacement.ts:14-80 | at every moment the upload is at exactly one name, a foreign file at the final name stays, and the upload is final only under the record naming it |
| ArchiveMove.DiscardsKeepTheRest | packages/shared/src/bundle-replacement.ts:84-113 | over any number of discards stopped anywhere, nothing but the upload and its record goes |
| ArchiveMove.DiscardUndoesTheMove | packages/shared/src/bundle-replacement.ts:84-113 | a move stopped anywhere, discards stopped anywhere, then one undisturbed discard leave the final name as it was before |
| UploadPaths.CleanNamesStartPlainly | packages/shared/src/attachments/paths.ts:32-84 | a name the path rules leave as it is starts with no dot and names neither the root nor a hidden entry |
| UploadPaths.CleanNamesAreMadeSo | packages/shared/src/attachments/paths.ts:32-84 | the rules leave a name alone exactly if it is one to seventeen clean segments joined by slashes, of at most 400 characters |
| UploadPaths.CleanSegmentsAreKept | packages/shared/src/attachments/paths.ts:32-43 | a segment is kept as it is exactly if it has 1 to 200 characters, allowed ones only, starts with no dot or blank and ends with no blank |
| UploadPaths.ParentsAreRefused | packages/shared/src/attachments/paths.ts:57-84 | a path is refused exactly if some part of it is a parent segment or what is kept is too deep or too long, and else becomes kept segments |
| UploadPaths.AllowedCodes | packages/shared/src/attachments/paths.ts:36 | the characters a segment may have, by code point |
| UploadPaths.RemoveKeepsTheTree | packages/shared/src/fs-safe.ts:1245-1279 | a removal takes at most its own path, keeps the tree well formed, and fails on a folder that holds something |
| UploadPaths.RemoveTakesExactly | packages/shared/src/fs-safe.ts:1245-1279 | in a tree of files and folders a removal takes what is there unless it is a folder that holds something |
| Pruning.Uploads.RemoveFiles | packages/shared/src/attachments-fs.ts:84-92 | the tree without the listed files |
| Pruning.Uploads.PruneEmptyDirs | packages/shared/src/attachments-fs.ts:96-112 | the climb from a folder up to the first that will not go |
| Pruning.Uploads.PruneAfter | packages/shared/src/attachments-fs.ts:116-124 | every folder of the removed files climbed from, deepest first |
| Pruning.TheOrderIsStable | packages/shared/src/attachments-fs.ts:121-122 | the folders are distinct, deepest first, and those of one depth in the order they first come up |
| UploadPaths.DepthsCountFolders | packages/shared/src/attachments-fs.ts:122 | a name at the root has depth 1, and what lies in a folder is one deeper |
| Pruning.ClimbSettles | packages/shared/src/attachments-fs.ts:96-112 | a climb leaves no empty folder on its way and unsettles none elsewhere |
| Pruning.ClimbTakes | packages/shared/src/attachments-fs.ts:96-112 | a climb takes only empty folders on its way, and a file only where it starts |
| Pruning.PruneIsExact | packages/shared/src/attachments-fs.ts:116-124 | pruning is complete and minimal, and takes a file exactly where a listed folder should be |
| Pruning.EveryOrderPrunesAlike | packages/shared/src/attachments-fs.ts:116-124 | every order of the same folders leaves the same tree |
| Pruning.PruneAfterIsExact | packages/shared/src/attachments-fs.ts:94-124 | each folder between a removed file and the root is gone or holds something, and no folder holding anything went |
| ExpansionSettling.AttemptNamesAreDotNames | packages/shared/src/attachments-fs.ts:135-151 | a staging name is one hidden segment |
| ExpansionSettling.AttemptsAreNamedSo | packages/shared/src/attachments-fs.ts:135-151 | a name is an attempt at an archive exactly if it is the prefix in any case, the id, and then nothing or a dash and another id |
| ExpansionSettling.UuidsAreGrouped | packages/shared/src/attachments-fs.ts:138-140 | an id is hexadecimal digits of either case in groups of 8, 4, 4, 4 and 12 with dashes between, and nothing else is |
| ExpansionSettling.TrustInWords | packages/shared/src/attachments-fs.ts:163-193 | an intent is trusted exactly if its folder is one clean segment and its files, 500 at most, have clean names of which none ends as a sidecar's does |
| ExpansionSettling.SettleExpansionAttempt | packages/shared/src/attachments-fs.ts:204-239 | the tree becomes the settled one, and it answers whether there was a trusted intent |
| ExpansionSettling.SettleExpansionIntents | packages/shared/src/attachments-fs.ts:245-260 | afterwards no attempt has an intent to trust, and it answers exactly those that had |
| ExpansionSettling.SettleExpansionAttempts | packages/shared/src/attachments-fs.ts:265-283 | exactly the listed attempts at the given archives but the kept one are settled |
| ExpansionSettling.SettleTakesExactly | packages/shared/src/attachments-fs.ts:204-239 | exactly which files a settle takes |
| ExpansionSettling.UnmovedAttemptsLoseTheirFolder | packages/shared/src/attachments-fs.ts:213-219 | the settle of an attempt whose tree is still staged takes the folder it claimed, if that is there and empty, and the intent |
| ExpansionSettling.OwnedFilesAreKeptExceptAtAFolder | packages/shared/src/attachments-fs.ts:204-239 | a file a row owns is kept if and only if it is not where the folder of an unowned name of a moved attempt should be |
| ExpansionSettling.SettleIsFinal | packages/shared/src/attachments-fs.ts:204-239 | settling removes the attempt's own intent and is invisible to every other attempt |
| ExpansionSettling.EachIsSettled | packages/shared/src/attachments-fs.ts:245-283 | settling several leaves none of them an intent to trust |
| ExpansionSettling.SettledAttemptsAreInert | packages/shared/src/attachments-fs.ts:241-260 | settling settled attempts again changes nothing, whatever took a freed name since |
| UploadSections.UploadsSurviveSettling | packages/shared/src/attachments-fs.ts:204-283 | settling any attempts in any order takes no upload in flight that no attempt threatens |
| UploadSections.StepKeepsUploads | packages/shared/src/attachments-fs.ts:126-283 | every step, also of a section that dies, but a drop that leaves only the intent keeps uploads unthreatened, and takes an upload's file only if it is a delete of its name, which does take it unless it dies |
| UploadSections.DeleteTakes | packages/api/src/routes/tasks/attachments.ts:535-561 | exactly which uploads in flight a delete takes |
| UploadSections.ADeleteCanTake | packages/api/src/routes/tasks/attachments.ts:213-247 | some delete takes the file of an upload in flight if and only if some row speaks for its name |
| UploadSections.NobodySpeaksAnew | packages/api/src/routes/tasks/attachments.ts:213-247 | no step brings a row or an upload that speaks for the name of an upload whose file is there |
| UploadSections.OnlyADeleteTakesAnUpload | packages/shared/src/attachments-fs.ts:126-283 | over every run whose drops take intents first, an upload in flight loses its file only at a delete of its name, and does at each that does not die |
| UploadSections.AnUnspokenNameIsKept | packages/api/src/routes/tasks/attachments.ts:213-292 | over such runs, an upload that claimed a name nobody spoke for has its file for as long as it is in flight |
| UploadSections.ATakeBackLooksLikeADeadSettle | packages/worker/src/attachments/expand-archives.ts:554-559 | where no row speaks for the names, a take-back is a step of a settle that dies before it removes the intent |
| OwnedUploads.SettlingKeepsOwned | packages/shared/src/attachments-fs.ts:204-283 | settling any attempts in any order takes no file a row owns, as long as no file stands where a folder of an attempt should be |
| OwnedUploads.StepKeepsOwned | packages/shared/src/attachments-fs.ts:126-283 | every step but a drop that leaves only the intent keeps rows and uploads backed by files, and the placed folders of different attempts apart, if and only if it leaves no intent whose files are all gone and no row without its file |
| OwnedUploads.SettleDiesKeepsOwned | packages/shared/src/attachments-fs.ts:204-239 | a settle that dies keeps what is owned exactly when it leaves its attempt no intent, or some file it placed |
| OwnedUploads.TakeBackKeepsOwned | packages/worker/src/attachments/expand-archives.ts:549-560 | a take-back, whole or not, keeps what is owned exactly when its attempt placed nothing or some file of it is left |
| OwnedUploads.DeleteDiesKeepsOwned | packages/api/src/routes/tasks/attachments.ts:535-561 | a delete that dies keeps what is owned exactly when no row is without its file and no settled attempt is left its intent alone |
| OwnedUploads.DeleteKeepsOwned | packages/api/src/routes/tasks/attachments.ts:535-561 | a delete that settles the attempts of which it leaves no row, before it prunes, costs no other row and no upload its file |
| OwnedUploads.MoveKeepsOwned | packages/worker/src/attachments/expand-archives.ts:487-532 | moving a staged tree to a free folder puts no file where another attempt needs a folder, and places no name a row speaks for |
| OwnedUploads.NothingOwnedIsEverTaken | packages/shared/src/attachments-fs.ts:204-260 | over every run whose drops take intents first and whose take-backs and dying sections leave nothing undone, every row and every upload in flight has its file at every moment |
| TakeBackRace.ATakeBackCanCostAnOwnedFile | packages/worker/src/attachments/expand-archives.ts:536-560 | a run of eight steps from an empty directory, one of them a take-back, after which a row has no file |
| TakeBackRace.ADeadSettleCanCostAnOwnedFile | packages/shared/src/attachments-fs.ts:232-236 | the same after a run without a take-back, in which a settle dies before it removes the intent |
| TakeBackRace.AStaleRowCanCostAnUpload | packages/api/src/routes/tasks/attachments.ts:213-247 | that run goes on: an upload claims the row's name, and the delete of the row takes the upload's file |
| TreeFirstRace.ATreeFirstDropCanCostBoth | packages/worker/src/attachments/expand-archives.ts:531-575 | a run of seven steps without a take-back, in which a drop takes a tree before its intent, and a settle then takes the files of an upload in flight and of a row |
| StepTime.ActKeepsTheBalance | packages/database/src/closed-gap.ts:4-33 | every action keeps span, work, credits and dropped microseconds in balance, and idle never decreases |
| StepTime.RunKeepsTheBalance | packages/database/src/closed-gap.ts:4-33 | the balance holds after every run |
| StepTime.TheRowFollowsTheActions | packages/database/src/closed-gap.ts:4-33 | told by the list of actions alone: the markers are set exactly while the step is parked or closed, and since when; the recorded work is the time it was under way; the credits are the lengths of the waits and gaps that ended, one each |
| StepTime.WorkIsConserved | packages/database/src/closed-gap.ts:4-33 | what is billed as work is the recorded work plus less than a millisecond a credit, exactly as long as the clamp has not bound |
| StepTime.WorkOfTheActions | packages/database/src/open-wait.ts:4-15 | in terms of the list of actions alone: the idle time is that of the waits and gaps that ended, up to what the column holds, and what is billed is the time under way, but for less than a millisecond of each, exactly as long as the column holds it |
| StepTime.WholeMillisecondsAreExact | packages/database/src/open-wait.ts:4-15 | in whole milliseconds the law is exact, exactly as long as the clamp has not bound |
| StepTime.IdleOnlyGrows | packages/database/src/open-wait.ts:4-15 | over every run idle never decreases and stays within the column |
| StepTime.ReopeningBillsNoGap | packages/database/src/closed-gap.ts:4-33 | a stop and a re-open, however far apart, bill nothing but what the floor drops |
| OnboardingVerdict.LoadOnboardingTaskFacts | packages/shared/src/onboarding-admission.ts:195-273 | the facts of each repository tell of exactly its runs: whether any, whether completed, the newest completion, the newest live one, the newest workflow |
| OnboardingVerdict.RunsInWords | packages/shared/src/onboarding-admission.ts:208-224 | which tasks are runs of a repository, live or completed, column by column |
| OnboardingVerdict.CompletionsInWords | packages/shared/src/onboarding-admission.ts:249-258 | the completion dates are those of the dated completed runs |
| OnboardingVerdict.WorkflowsInWords | packages/shared/src/onboarding-admission.ts:225-247 | a completed workflow counts only for a repository of its user's that was created blank and never reset |
| OnboardingVerdict.FoldRuns | packages/shared/src/onboarding-admission.ts:245-265 | the loop over the rows, newest first, folds exactly the rows there are |
| OnboardingVerdict.RowIsTold | packages/shared/src/onboarding-admission.ts:245-265 | the fold of one row keeps maximum, newest live run and both flags true |
| OnboardingVerdict.NewestLive | packages/shared/src/onboarding-admission.ts:66-113 | the newest date of each repository's live evidence, or none exactly when there is none |
| OnboardingVerdict.EvidenceInWords | packages/shared/src/onboarding-admission.ts:66-113 | a row of an onboarding counts by the date it was generated and an import marker by the date of the import, while nothing supersedes them |
| OnboardingVerdict.NewestDecides | packages/shared/src/onboarding-admission.ts:117-158 | the newest date is after an epoch exactly when some date is |
| OnboardingVerdict.FoldsDecide | packages/shared/src/onboarding-admission.ts:438-451 | each of the three comparisons of a fold with the epoch asks whether some row is dated after it |
| OnboardingVerdict.VerdictIsWhatTheRowsSay | packages/shared/src/onboarding-admission.ts:481-547 | all three fields of the verdict, in terms of the rows there are |
| OnboardingVerdict.ResetErasesEarlierEvidence | packages/shared/src/onboarding-admission.ts:453-525 | after a reset, histories that agree on live runs and on what is dated after the epoch are onboarded alike, and by exactly two kinds of evidence |
| OnboardingVerdict.ResetErasesEarlierVerdicts | packages/shared/src/onboarding-admission.ts:481-547 | the same for every flag the readers of those histories answer |
| OnboardingVerdict.RenderContextAdmitsUpgrade | packages/shared/src/onboarding-admission.ts:562-590 | a render context admits exactly a ready repository with a root that counts as onboarded |
| OnboardingVerdict.UpgradeAdmissionOf | packages/shared/src/onboarding-admission.ts:619-641 | the one answer the rows there are call for, with the newest live run or all that is contested |
| OnboardingVerdict.OneAnswerFits | packages/shared/src/onboarding-admission.ts:619-641 | no two answers fit the same rows, but for which of two newest live runs of one instant is named |
| OnboardingVerdict.HoldsInWords | packages/shared/src/project-state/conflicts.ts:49-67 | an open question holds upgrades exactly if it is about the render file, a claim or whether RTK is on |
| OnboardingVerdict.AfterAResetOnlyLaterWorkAdmits | packages/shared/src/onboarding-admission.ts:619-641 | after a reset a clone's render context vouches for nothing that later work does not |
| AdmissionRuns.StepKeepsInv | packages/database/src/repository-task-lock.ts:100-145 | every statement of every transaction keeps exclusion, the lock, and the truth of what each transaction saw under it |
| AdmissionRuns.MayWriteIsAlone | packages/database/src/repository-task-lock.ts:128-144 | the looks add up, though one asks about one user: a task about to be written clashes with no live task of the repository, also when its check was skipped because it was live |
| AdmissionRuns.RunKeepsInv | packages/database/src/repository-task-lock.ts:24-51 | the invariant holds after every interleaving |
| AdmissionRuns.NeverTwoLive | packages/database/src/repository-task-lock.ts:94-145 | after every interleaving, a repository has no two live onboardings, no live onboarding beside a live upgrade, and no two live upgrades |
| AdmissionRuns.NothingStartsUnderAClaim | packages/database/src/repository-task-lock.ts:129-134 | when a task that was not live commits as live, its repository's root claim is not live |
| RepositoryRecords.LiveStatuses | packages/database/src/repository-task-lock.ts:7-16 | the statuses of a task with work left |
| RepositoryAdmission.Database.LockRepositoryTasksKey | packages/database/src/repository-task-lock.ts:24-28 | the lock is held, or another open transaction holds it |
| RepositoryAdmission.Database.LockRepositoryRow | packages/database/src/repository-task-lock.ts:32-51 | the lock and the row are held, or there is no row, or another open transaction holds the lock |
| RepositoryAdmission.Database.LiveTaskIdOfType | packages/database/src/repository-task-lock.ts:56-75 | a live task of the kind and user, or none exactly when there is none |
| RepositoryAdmission.Database.CheckRevive | packages/database/src/repository-task-lock.ts:100-145 | let through unchecked, a task that is there and has a repository is held under the lock, and one of these kinds is live and its write admitted; cleared means nothing stands against the revival now and while the transaction is open; each refusal names what does; it throws only while another transaction holds the lock |
| RepositoryAdmission.Database.CheckDead | packages/database/src/repository-task-lock.ts:128-144 | the looks at a dead task: cleared, or what stands against it |
| RepositoryAdmission.Database.ReviveRefusal | packages/shared/src/onboarding-admission.ts:646-670 | a task of these kinds that is there and has a repository goes ahead only if its write is admitted, and a dead one only if cleared and, for an upgrade, admitted; each refusal names what stands against it, an upgrade that is not admitted is answered as the rows call for, and a wait is in vain only while another transaction holds the lock |
| RepositoryAdmission.Database.AdmitCreation | packages/api/src/routes/upgrades.ts:1028-1104 | a creation goes ahead only for a task that is not there yet, if the root is unclaimed and nothing live clashes and, for an upgrade, it is admitted; each refusal names what stands against it, an upgrade that is not admitted is answered as the rows call for, and a wait is in vain only while another transaction holds the lock |
| RepositoryAdmission.ClearedStays | packages/database/src/repository-task-lock.ts:94-99 | what was cleared stays so, whoever ran since |
| MarkdownFences.ScanFences | packages/shared/src/markdown-fences.ts:34-52 | the two loops over one index find the fences of the line-by-line automaton |
| MarkdownFences.AutomatonScans | packages/shared/src/markdown-fences.ts:34-52 | those fences are in order and disjoint, each is opened, filled and closed by its lines, and none is missed |
| MarkdownFences.ScanIsTheScan | packages/shared/src/markdown-fences.ts:34-52 | a text has exactly one such list of fences |
| MarkdownFences.FencedLines | packages/shared/src/markdown-fences.ts:55-61 | exactly the lines the automaton opens, holds or closes are marked |
| MarkdownFences.OpenersAreMadeSo | packages/shared/src/markdown-fences.ts:14-24 | a line opens a fence exactly if it is up to three spaces, a whole run of three or more of one fence character, and text of one line, without a backtick after backticks, whose trim is the info |
| MarkdownFences.ClosersAreMadeSo | packages/shared/src/markdown-fences.ts:15-30 | a line closes a fence exactly if it is up to three spaces, three or more of the run's character and no fewer than the run, and spaces and tabs |
| MarkdownFences.FirstWordIs | packages/shared/src/markdown-fences.ts:41 | the language is the info up to its first space or tab |
| MarkdownFences.UnindentedIs | packages/shared/src/markdown-fences.ts:40-48 | a held line loses as many spaces as it starts with, up to the opener's |
| JsText.TrimIsTheTrim | packages/shared/src/markdown-fences.ts:23 | trimming gives what is left without white characters at either end, and nothing else is that |
| JsText.WhiteCodes | packages/shared/src/markdown-fences.ts:23 | the characters trimming removes, by code point |
| MarkdownFences.MarkedIsCovered | packages/shared/src/markdown-fences.ts:55-61 | a line is marked exactly when a fence covers it |
| MarkdownFences.ScanOfTwoPieces | packages/shared/src/markdown-fences.ts:34-52 | when every fence of the first piece is closed, scanning two pieces is scanning each, the second shifted |
| MergeLeftOpen.LeftOpenMerges | packages/shared/src/merge-left-open.ts:33-64 | the two passes compute the specified result |
| MergeLeftOpen.OneEntryPerMerge | packages/shared/src/merge-left-open.ts:36-45 | every reported merge has exactly one entry, and no other has any |
| MergeLeftOpen.EntriesAreFirstReports | packages/shared/src/merge-left-open.ts:43-44 | an entry carries what the first report of its merge said |
| MergeLeftOpen.EntriesSayWhatWasReported | packages/shared/src/merge-left-open.ts:36-45 | each entry says field by field what some event reported, the first of its directory and merge head |
| MergeLeftOpen.EntriesFollowTheReports | packages/shared/src/merge-left-open.ts:36-63 | the entries stand in the order of the first reports |
| MergeLeftOpen.StandingIsTheFirstSettling | packages/shared/src/merge-left-open.ts:46-62 | the first answer that is no refusal settles a merge, and exactly the refusals before it are counted |
| MergeLeftOpen.AnswersInWords | packages/shared/src/merge-left-open.ts:46-55 | which events answer for a merge, and with which outcome and reason |
| MergeLeftOpen.TheLastRefusalIsKept | packages/shared/src/merge-left-open.ts:56-58 | the reason kept is that of the last refusal before the settlement |
| MergeLeftOpen.InterleavingDoesNotMatter | packages/shared/src/merge-left-open.ts:30-63 | how reports and settlements are interleaved does not change the result |
| MergeLeftOpen.ALongerLogContinues | packages/shared/src/merge-left-open.ts:30-63 | a longer log moves no entry, changes no report and takes back no settlement |
| DagReset.Tables.ResetDagCurrentLevelForRetry | packages/database/src/dag-reset.ts:62-135 | nothing changes and 0 is returned without a plan or an unfinished level; otherwise the tables are reset at the lowest such level and the stuck issues are counted |
| DagReset.LowestExists | packages/database/src/dag-reset.ts:69-80 | there is a current level exactly when some level is not checkpointed |
| DagReset.LowerLevelsAreDone | packages/database/src/dag-reset.ts:69-80 | the current level is not checkpointed and every lower one of the plan is |
| DagReset.OnlyStuckIssuesChange | packages/database/src/dag-reset.ts:82-122 | the issues that change are exactly the stuck ones counted, and only their attempt changes |
| DagReset.DoneWorkIsKept | packages/database/src/dag-reset.ts:33-39 | checkpointed levels, other plans, deliberately resolved issues and other levels keep every column |
| DagReset.ExactlyTheirRunsGo | packages/database/src/dag-reset.ts:124-126 | the agent runs of the reset issues go, and no other |
| DagReset.NothingStaysStuck | packages/database/src/dag-reset.ts:90-132 | after a reset no issue of the level is stuck; each that was starts over, column by column, with its brief and worktree kept, and the level with them |
| DagReset.StuckInWords | packages/database/src/dag-reset.ts:10-24 | which issues are stuck, by outcome and resolution |
| DagReset.SecondCallDoesNothing | packages/database/src/dag-reset.ts:55-59 | a second call for the plan finds the same level, nothing stuck, and changes nothing |
| DagReset.RetryTwice | packages/database/src/dag-reset.ts:55-59 | two calls in a row, each a retry of what it finds: the second returns 0 and changes nothing when it finds the plan the first found, as it must if the task has but one |
| DagReset.AnotherPlanIsUntouched | packages/database/src/dag-reset.ts:62-67 | a reset of one plan changes nothing a later call for another plan looks at |

## Left out

- RootClaimLease.Lease.Release: does not model two concurrent releases of one handle, nor the process dying inside a release, which leaves the row to the stale window.
- RootClaimLease.AcquireRootClaim: the kind of the claim and the reason of a refusal are wording only.
- The interval timer, `readLiveRootClaim` and `rootClaimRefusal`: a timer tick is one call of `Tick`, and the other two read or word the row.
- Deployments that write claims without an owner, releases without a stamp, and skew between the clocks of client and database.
- Deletion of a repository while its root is claimed or its tasks are being revived.
- ArchiveMove.PlaceReplacementArchive: the record is a parsed value whose numbers are kept apart by kind; decimal text that is not canonical is one of the other kinds. Inode reuse, links and permissions are ignored.
- ExpansionSettling.SettleExpansionAttempt: removals succeed where the file system allows them; links, permissions and parked replacements of `fs-safe` are not modelled.
- UploadSections.StepKeepsUploads: a section that dies is one step too, up to where it dies; a section that runs on without the lock after its connection is lost is not modelled. A drop that removes an intent and its tree between a settle's read of the one and its look at the other is not modelled; an attempt that is dropped only once a section has removed its intent, or its tree was moved, cannot meet it.
- UploadSections.OnlyADeleteTakesAnUpload: the extraction of an archive and the choice of its folder's name are not modelled, and files that extracted text leaves beside an attachment have no row and are not modelled.
- The attachments manifest and its rendering.
- StepTime.WorkIsConserved: the `carried_*` columns, parks before a step first ran, and the retries that start a step over with a new span are not modelled.
- OnboardingVerdict.UpgradeAdmissionOf: reads its tables at one instant, and takes the marker categories missing on disk and the kind of each contested unit as given; the contested units are a set, not a sorted list.
- RepositoryAdmission.Database.ReviveRefusal: the module guard and the lock of a plan merge, which come before the checks, are not modelled, nor is the wording of a refusal.
- RepositoryAdmission.Database.CheckRevive: the task's metadata is passed through, so it is not modelled, and a wait for a lock ends at once if the lock is not free.
- `ledgerImportedSince`, `pendingConflictUnits` beyond its filter, the marker checks on disk and the recovery of CLI membership.
- MergeLeftOpen.LeftOpenMerges: a payload is its known fields, each a string or absent.
- DagReset.Tables.ResetDagCurrentLevelForRetry: JSON columns are text, and of an agent run only the columns that tell what the reset deletes are kept.
- SQL text, query planning, connection pools and isolation levels: each statement is one atomic step on committed rows.
- Statistics, git arguments, knowledge paths, readiness probes, database snapshots, routes, queues and the user interface: shallow next to the above.
