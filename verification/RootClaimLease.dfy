/** The holder of a root claim: acquiring it, keeping it alive through writes that may commit without an
    acknowledgement, and releasing it. Every database call is a point where the other holders run. */
module RootClaimLease {
  import opened Options
  import opened RootClaimRow
  import opened RootClaimDatabase
  import opened CandidateStamps

  const RELEASE_RETRIES: nat := 3
  const CLAIM_READ_RETRIES: nat := 3

  /** What a renewal established: the stamp the row carries (None: the lease is gone), whether that was
      read or acknowledged rather than guessed, and the stamp the write attempted. */
  datatype Renewal = Renewal(stamp: Option<int>, proven: bool, attempted: int)

  datatype ReleaseOutcome = Free | StillOurs | TakenOverOutcome | NotOurs | Unknown

  /** `h'` continues `h`, and everything `a` adds is a renewal to a stamp no older than `since`. */
  ghost predicate OnlyRenews(h: seq<Event>, h': seq<Event>, a: Token, since: int) {
    h <= h' && forall i :: |h| <= i < |h'| ==> By(h'[i], a) ==> h'[i].Renew? && h'[i].to >= since
  }

  /** `h'` continues `h`, and the last statement committed is a renewal by `a` to `stamp`. */
  ghost predicate Renewed(h: seq<Event>, h': seq<Event>, a: Token, stamp: int) {
    |h| < |h'| && h'[|h'| - 1].Renew? && h'[|h'| - 1].actor == a && h'[|h'| - 1].to == stamp
  }

  /** `h'` continues `h`, and everything `a` adds is a clear. */
  ghost predicate OnlyClears(h: seq<Event>, h': seq<Event>, a: Token) {
    h <= h' && forall i :: |h| <= i < |h'| ==> By(h'[i], a) ==> h'[i].Clear?
  }

  /** Only two calls in a row that threw, and no later one, leave something open. */
  predicate Unsettled(streak: nat, open: bool) {
    if open then streak >= 2 else streak == 0
  }

  /** Settles an in-doubt renewal by one read: a stamp that is proven is on the row at this moment. */
  method ReconcileAmbiguousRenewal(db: Database, held: int, attempted: int, owner: Token)
    returns (stamp: Option<int>, proven: bool)
    requires db.Valid() && HasClaimed(db.history, owner)
    modifies db`row, db`now, db`history, db`faults, db`streak
    ensures db.Valid() && ByOthers(old(db.history), db.history, owner) && db.now >= old(db.now)
    ensures OwnedBy(db.row, owner) ==> db.row == old(db.row)
    ensures !proven ==> stamp == Some(held)
    ensures db.Counted(old(db.faults), old(db.streak), !proven)
    ensures proven && stamp.Some? ==> db.row == Claimed(stamp.value, Some(owner))
    ensures proven && stamp.None? ==> !OwnedBy(db.row, owner)
  {
    var read := db.ReadRow(owner);
    ClaimStays(old(db.history), db.history, owner);
    ClaimedRowsHaveOwners(db.start, db.history, owner);
    match read
    case None => return Some(held), false;
    case Some(Unclaimed) => return None, true;
    case Some(Claimed(onRow, rowOwner)) =>
      // A claim without an owner: never the case once this owner has claimed.
      if rowOwner == None { assert false; }
      if rowOwner != Some(owner) { return None, true; }
      if onRow == attempted { return Some(attempted), true; }
      if onRow == held { return Some(held), true; }
      return Some(onRow), true;
  }

  /** Moves the stamp from `from` to now. When no call throws, the answer is the new stamp, on the row, or
      that the row does not carry `from` under this owner. */
  method RenewReconciled(db: Database, from: int, owner: Token) returns (r: Renewal)
    requires db.Valid() && HasClaimed(db.history, owner)
    modifies db`row, db`now, db`history, db`faults, db`streak
    ensures db.Valid() && OnlyRenews(old(db.history), db.history, owner, old(db.now))
    ensures old(db.now) == r.attempted <= db.now
    // It renews: with no call throwing, the stamp it names is one this call committed.
    ensures db.faults == old(db.faults) && r.stamp.Some? ==>
              r.stamp.value == r.attempted && Renewed(old(db.history), db.history, owner, r.attempted)
    ensures OwnedBy(db.row, owner) ==> OwnedBy(old(db.row), owner)
    ensures OwnedBy(db.row, owner) ==>
              db.row == old(db.row) || (old(db.row).stamp == from && db.row.stamp == r.attempted)
    ensures r.proven && r.stamp.Some? ==> db.row == Claimed(r.stamp.value, Some(owner))
    ensures r.proven && r.stamp.None? && OwnedBy(db.row, owner) ==>
              db.row == old(db.row) && db.row.stamp != from
    // It leaves a write in doubt only if the write and the read-back after it both threw.
    ensures !r.proven ==> r.stamp == Some(from) && db.faults == old(db.faults) + 2
    ensures Unsettled(db.streak, !r.proven)
    ensures db.faults >= old(db.faults)
  {
    var attempted := db.now;
    var reply := db.RenewRootClaim(owner, from, attempted);
    ClaimStays(old(db.history), db.history, owner);
    match reply
    case Affected => r := Renewal(Some(attempted), true, attempted);
    case NoRow => r := Renewal(None, true, attempted);
    case Threw =>
      var stamp, proven := ReconcileAmbiguousRenewal(db, from, attempted, owner);
      r := Renewal(stamp, proven, attempted);
  }

  /** The answer is the right one for the row: free, another's, or ours. */
  predicate Tells(outcome: ReleaseOutcome, row: Row, owner: Token) {
    match outcome
    case Free => row.Unclaimed?
    case TakenOverOutcome => row.Claimed? && !OwnedBy(row, owner)
    case StillOurs => OwnedBy(row, owner)
    case NotOurs => OwnedBy(row, owner)
    case Unknown => false
  }

  /** Tells a row that is free or another's from one that may still be ours. */
  method ClassifyUnmatchedClear(db: Database, owner: Token) returns (outcome: ReleaseOutcome)
    requires db.Valid() && HasClaimed(db.history, owner)
    modifies db`row, db`now, db`history, db`faults, db`streak
    ensures db.Valid() && ByOthers(old(db.history), db.history, owner) && db.now >= old(db.now)
    ensures OwnedBy(db.row, owner) ==> db.row == old(db.row)
    ensures outcome == Free || outcome == TakenOverOutcome || outcome == NotOurs
    ensures db.Counted(old(db.faults), old(db.streak), db.streak > 0)
    ensures outcome != NotOurs ==> !OwnedBy(db.row, owner)
    ensures if db.streak > 0 then outcome == NotOurs else Tells(outcome, db.row, owner)
  {
    var read := db.ReadRow(owner);
    ClaimStays(old(db.history), db.history, owner);
    ClaimedRowsHaveOwners(db.start, db.history, owner);
    match read
    case None => return NotOurs;
    case Some(Unclaimed) => return Free;
    case Some(Claimed(_, rowOwner)) =>
      if rowOwner == Some(owner) { return NotOurs; }
      // A claim without an owner: never the case once this owner has claimed.
      if rowOwner == None { assert false; }
      return TakenOverOutcome;
  }

  /** When the last call did not throw, the answer is the right one; else it is that the row may be ours. */
  ghost predicate Answers(outcome: ReleaseOutcome, db: Database, owner: Token)
    reads db
  {
    if db.streak == 0 then Tells(outcome, db.row, owner) else outcome == NotOurs || outcome == Unknown
  }

  /** Issues exactly one clear and answers what the row is after it, by a second look if need be. */
  method ReleaseReconciled(db: Database, stamp: int, owner: Token) returns (outcome: ReleaseOutcome)
    requires db.Valid() && HasClaimed(db.history, owner)
    modifies db
    ensures db.Valid() && OnlyClears(old(db.history), db.history, owner) && db.now >= old(db.now)
    ensures OwnedBy(db.row, owner) ==> db.row == old(db.row)
    ensures outcome == Free || outcome == TakenOverOutcome ==> !OwnedBy(db.row, owner)
    ensures exists threw :: db.clears == old(db.clears) + [ClearCall(owner, stamp, threw)]
                            && (threw ==> db.faults > old(db.faults))
    ensures OwnedBy(db.row, owner) && db.row.stamp == stamp ==>
              db.clears == old(db.clears) + [ClearCall(owner, stamp, true)]
              && (outcome == StillOurs || outcome == Unknown) && db.faults > old(db.faults)
    ensures Answers(outcome, db, owner) && (db.streak > 0 ==> db.faults > old(db.faults))
    ensures db.faults >= old(db.faults)
  {
    var reply := db.ReleaseRepositoryRoot(owner, stamp);
    ClaimStays(old(db.history), db.history, owner);
    match reply
    case Affected => return Free;
    case NoRow =>
      outcome := ClassifyUnmatchedClear(db, owner);
    case Threw =>
      var read := db.ReadRow(owner);
      match read {
        case None => return Unknown;
        case Some(Unclaimed) => return Free;
        case Some(Claimed(onRow, rowOwner)) =>
          if rowOwner == Some(owner) {
            return if onRow == stamp then StillOurs else NotOurs;
          }
          ClaimStays(old(db.history), db.history, owner);
          ClaimedRowsHaveOwners(db.start, db.history, owner);
          if rowOwner == None { assert false; }
          return TakenOverOutcome;
      }
  }

  /** From index `i` on, `calls` holds RELEASE_RETRIES clears of `stamp` by `a`, and each of them threw. */
  ghost predicate AllThrew(calls: seq<ClearCall>, i: nat, a: Token, stamp: int) {
    i + RELEASE_RETRIES <= |calls| &&
    forall j :: i <= j < i + RELEASE_RETRIES ==> calls[j] == ClearCall(a, stamp, true)
  }

  ghost predicate GaveUpOn(calls: seq<ClearCall>, a: Token, stamp: int) {
    exists i: nat :: AllThrew(calls, i, a, stamp)
  }

  /** Issues clears of one stamp, at most RELEASE_RETRIES of them, until what the row is has been settled. */
  method ReleaseWithRetry(db: Database, stamp: int, owner: Token)
    returns (outcome: ReleaseOutcome, ghost calls: seq<ClearCall>)
    requires db.Valid() && HasClaimed(db.history, owner)
    modifies db
    ensures db.Valid() && OnlyClears(old(db.history), db.history, owner) && db.now >= old(db.now)
    ensures OwnedBy(db.row, owner) ==> db.row == old(db.row)
    ensures outcome == Free || outcome == TakenOverOutcome ==> !OwnedBy(db.row, owner)
    ensures db.clears == old(db.clears) + calls && 1 <= |calls| <= RELEASE_RETRIES
    ensures forall c :: c in calls ==> c.actor == owner && c.stamp == stamp
    ensures OwnedBy(db.row, owner) && db.row.stamp == stamp ==>
              AllThrew(calls, 0, owner, stamp) && db.faults >= old(db.faults) + RELEASE_RETRIES
    ensures Answers(outcome, db, owner) && (db.streak > 0 ==> db.faults > old(db.faults))
    ensures db.faults >= old(db.faults)
  {
    outcome := StillOurs;
    calls := [];
    var attempt := 0;
    while attempt < RELEASE_RETRIES
      invariant 0 <= attempt == |calls| <= RELEASE_RETRIES && db.clears == old(db.clears) + calls
      invariant forall c :: c in calls ==> c.actor == owner && c.stamp == stamp
      invariant db.Valid() && OnlyClears(old(db.history), db.history, owner)
      invariant OwnedBy(db.row, owner) ==> db.row == old(db.row)
      invariant (outcome == StillOurs || outcome == Unknown) && db.now >= old(db.now)
      invariant db.faults >= old(db.faults)
      invariant attempt > 0 ==> Answers(outcome, db, owner) && (db.streak > 0 ==> db.faults > old(db.faults))
      invariant OwnedBy(db.row, owner) && db.row.stamp == stamp ==>
                  db.faults >= old(db.faults) + attempt
                  && forall j :: 0 <= j < attempt ==> calls[j] == ClearCall(owner, stamp, true)
    {
      ClaimStays(old(db.history), db.history, owner);
      outcome := ReleaseReconciled(db, stamp, owner);
      calls := db.clears[|old(db.clears)|..];
      if outcome != StillOurs && outcome != Unknown { return; }
      attempt := attempt + 1;
    }
  }

  /** The row as it is, or None after CLAIM_READ_RETRIES reads that threw. */
  method ReadClaimStamp(db: Database, owner: Token) returns (read: Option<Row>)
    requires db.Valid()
    modifies db`row, db`now, db`history, db`faults, db`streak
    ensures db.Valid() && ByOthers(old(db.history), db.history, owner) && db.now >= old(db.now)
    ensures OwnedBy(db.row, owner) ==> db.row == old(db.row)
    ensures read.Some? ==> read.value == db.row
    ensures read.None? ==> db.faults == old(db.faults) + 3
    ensures db.faults >= old(db.faults) && (db.streak == 0 <==> read.Some?)
  {
    var attempt := 0;
    while attempt < CLAIM_READ_RETRIES
      invariant 0 <= attempt <= CLAIM_READ_RETRIES && db.faults == old(db.faults) + attempt
      invariant db.Valid() && ByOthers(old(db.history), db.history, owner) && db.now >= old(db.now)
      invariant OwnedBy(db.row, owner) ==> db.row == old(db.row)
      invariant attempt > 0 ==> db.streak > 0
    {
      read := db.ReadRow(owner);
      if read.Some? { return; }
      attempt := attempt + 1;
    }
    read := None;
  }

  class Lease {
    const db: Database
    const owner: Token
    const candidates: CandidateSet
    var current: Option<int>
    var lost: bool
    /** The stamps the cap pushed out of `candidates`. */
    ghost var evicted: set<int>
    /** The earliest moment the timer may fire again if it never overlaps two renewals and fires at most
        once in RENEW_MS, and whether every renewal so far respected that. */
    ghost var nextTick: int
    ghost var paced: bool
    /** When the last tick began that left its own stamp on the row, or the claim was made; and whether, at
        every moment since the claim, the one then last was at most STALE_MS ago. */
    ghost var beat: int
    ghost var steady: bool
    /** The claim this handle was made for, whether the row was this owner's then, and the ticks since. */
    ghost const claimedAt: int
    ghost const granted: bool
    ghost var ticks: seq<TickRecord>

    /** The row can carry the stamp while it carries this owner. */
    ghost predicate CanCarry(stamp: int)
      reads this, candidates
    {
      current == Some(stamp) || stamp in candidates.stamps || stamp in evicted
    }

    ghost predicate Valid()
      reads this, db, candidates
    {
      && db.Valid() && candidates.Valid() && candidates.cap == CANDIDATE_STAMP_CAP
      && HasClaimed(db.history, owner) && !OwnedBy(db.start.row, owner)
      // The candidate invariant. Once the lease is lost only an evicted stamp can still be there.
      && (current.Some? && OwnedBy(db.row, owner) ==> CanCarry(db.row.stamp))
      && (lost && OwnedBy(db.row, owner) ==> db.row.stamp in evicted)
      && (current.None? ==> candidates.stamps == [])
      && (current.Some? ==> !lost && !HasCleared(db.history, owner))
      && (paced ==>
            && Spaced(candidates.stamps, nextTick)
            && LongStale(evicted, db.now))
    }

    /** What the heartbeat is for: a steady handle owns the row. */
    ghost predicate Beating()
      reads this, db
    {
      current.Some? ==>
        && Beats(db.history, World(db.row, db.now), owner, beat, steady)
        && beat == LastBeat(claimedAt, ticks)
        && (granted && OnTime(claimedAt, ticks, db.now) ==> steady)
    }

    constructor (db: Database, owner: Token, claimedAt: int)
      requires db.Valid() && HasClaimed(db.history, owner) && !HasCleared(db.history, owner)
      requires OwnedBy(db.row, owner) ==> db.row.stamp == claimedAt
      requires !OwnedBy(db.start.row, owner) && LastStamp(db.history, owner) == Some(claimedAt) && claimedAt <= db.now
      ensures Valid() && Beating() && this.db == db && this.owner == owner && fresh(candidates)
      ensures current == Some(claimedAt) && !lost && paced && evicted == {} && candidates.stamps == []
      ensures beat == claimedAt == this.claimedAt && ticks == [] && (granted <==> OwnedBy(db.row, owner))
      ensures steady <==> OwnedBy(db.row, owner) && db.now - claimedAt <= STALE_MS
    {
      this.db, this.owner := db, owner;
      candidates := new CandidateSet(CANDIDATE_STAMP_CAP);
      current, lost := Some(claimedAt), false;
      evicted, nextTick, paced := {}, db.now + RENEW_MS, true;
      beat, steady := claimedAt, OwnedBy(db.row, owner) && db.now - claimedAt <= STALE_MS;
      this.claimedAt, granted, ticks := claimedAt, OwnedBy(db.row, owner), [];
    }

    /** The caller works while the others run: nothing the handle relies on is disturbed. */
    method Work()
      requires Valid() && Beating()
      modifies db`row, db`now, db`history, this`steady
      ensures Valid() && Beating() && db.now >= old(db.now)
      ensures steady <==> old(steady) && db.now - beat <= STALE_MS
      // As long as the ticks are on time the row is ours.
      ensures current.Some? && granted && OnTime(claimedAt, ticks, db.now) ==> steady && OwnedBy(db.row, owner)
    {
      hide OnTime, LastBeat;
      db.Others(owner);
      Continues(old(db.history), old(db.now));
      OnTimeBefore(claimedAt, ticks, old(db.now), db.now);
      OnTimeBeats(claimedAt, ticks, db.now);
      steady := steady && db.now - beat <= STALE_MS;
      if current.Some? {
        TickBeats(db.start, old(db.history), db.history, owner, beat, beat, old(steady));
      }
    }

    lemma Continues(before: seq<Event>, since: int)
      requires before <= db.history && HasClaimed(before, owner)
      ensures HasClaimed(db.history, owner)
      ensures !HasCleared(before, owner) && OnlyRenews(before, db.history, owner, since) ==>
                !HasCleared(db.history, owner)
    {
      ClaimStays(before, db.history, owner);
      if HasCleared(db.history, owner) {
        var i :| 0 <= i < |db.history| && db.history[i].Clear? && db.history[i].actor == owner;
        if i < |before| { assert before[i] == db.history[i]; } else { assert By(db.history[i], owner); }
      }
    }

    /** Forgetting stamps never forgets a live claim: with the timer pacing the renewals, a row that still
        carries this owner under a stamp the handle cannot name has been stale for longer than the window. */
    lemma OnlyStaleClaimsAreForgotten()
      requires Valid() && paced && OwnedBy(db.row, owner)
      requires lost || (current.Some? && current.value != db.row.stamp && db.row.stamp !in candidates.stamps)
      ensures db.now - db.row.stamp > 2 * STALE_MS && Takeable(db.row, db.now)
    {
      assert db.row.stamp in evicted;
    }

    /** Remember a stamp the row might carry, noting what the cap pushes out. */
    method Keep(stamp: int, ghost next: int, ghost begun: int, ghost next': int)
      requires candidates.Valid() && candidates.cap == CANDIDATE_STAMP_CAP
      requires stamp <= db.now && begun + RENEW_MS <= next' && stamp <= next'
      requires paced ==> Spaced(candidates.stamps, next) && next <= begun <= stamp
      requires paced ==> LongStale(evicted, db.now)
      modifies this`evicted, candidates
      ensures candidates.Valid() && stamp in candidates.stamps
      ensures forall s :: s in old(candidates.stamps) ==> s in candidates.stamps || s in evicted
      ensures evicted == old(evicted) ||
                (|old(candidates.stamps)| == CANDIDATE_STAMP_CAP && stamp !in old(candidates.stamps) &&
                 evicted == old(evicted) + {old(candidates.stamps)[0]})
      ensures paced ==> Spaced(candidates.stamps, next')
      ensures paced ==> LongStale(evicted, db.now)
    {
      ghost var was := candidates.stamps;
      if paced {
        RememberKeepsSpacing(was, next, begun, stamp, next', CANDIDATE_STAMP_CAP);
      }
      forall s ensures s in was ==>
          s in Remembered(was, stamp, CANDIDATE_STAMP_CAP) ||
          (|was| == CANDIDATE_STAMP_CAP && stamp !in was && s == was[0])
      {
        RememberedLosesOnlyTheOldest(was, stamp, CANDIDATE_STAMP_CAP, s);
      }
      RememberedLosesOnlyTheOldest(was, stamp, CANDIDATE_STAMP_CAP, stamp);
      candidates.Remember(stamp);
      if |was| == CANDIDATE_STAMP_CAP && stamp !in was {
        evicted := evicted + {was[0]};
      }
    }

    /** Tries the candidates in turn, until one is renewed, a try is in doubt, or none is left. */
    method RecoverFromCandidates(held: int, ghost begun: int) returns (next: Renewal)
      requires db.Valid() && candidates.Valid() && candidates.cap == CANDIDATE_STAMP_CAP
      requires HasClaimed(db.history, owner)
      requires OwnedBy(db.row, owner) ==> db.row.stamp in candidates.stamps || db.row.stamp in evicted
      requires begun <= db.now
      requires paced ==> Spaced(candidates.stamps, nextTick) && nextTick <= begun
      requires paced ==> LongStale(evicted, db.now)
      modifies this`evicted, db`row, db`now, db`history, db`faults, db`streak, candidates
      ensures db.Valid() && candidates.Valid() && OnlyRenews(old(db.history), db.history, owner, begun)
      ensures db.now >= old(db.now) && db.faults >= old(db.faults)
      ensures next.proven && next.stamp.Some? ==>
                db.row == Claimed(next.stamp.value, Some(owner)) && candidates.stamps == []
      ensures db.faults == old(db.faults) && next.stamp.Some? ==>
                && next.proven && next.stamp.value >= begun
                && Renewed(old(db.history), db.history, owner, next.stamp.value)
      ensures next.stamp.None? ==>
                candidates.stamps == [] && (OwnedBy(db.row, owner) ==> db.row.stamp in evicted)
      ensures !next.proven ==> next.stamp == Some(held) && db.faults >= old(db.faults) + 2
      ensures |old(candidates.stamps)| > 0 ==> Unsettled(db.streak, !next.proven)
      ensures !next.proven && OwnedBy(db.row, owner) ==>
                db.row.stamp in candidates.stamps || db.row.stamp in evicted
      ensures evicted == old(evicted) ||
                (|old(candidates.stamps)| == CANDIDATE_STAMP_CAP &&
                 evicted == old(evicted) + {old(candidates.stamps)[0]})
      ensures paced ==> Spaced(candidates.stamps, Max(begun + RENEW_MS, db.now))
      ensures paced ==> LongStale(evicted, db.now)
    {
      hide ValidRun, After, LastStamp, HasClaimed;
      var list := candidates.stamps;
      next := Renewal(None, true, held);
      var i := 0;
      while i < |list|
        invariant 0 <= i <= |list| && candidates.stamps == list[i..]
        invariant db.Valid() && candidates.Valid() && OnlyRenews(old(db.history), db.history, owner, begun)
        invariant db.now >= old(db.now) && db.faults >= old(db.faults)
        invariant next.proven && next.stamp.None? && evicted == old(evicted)
        invariant i > 0 ==> db.streak == 0
        invariant OwnedBy(db.row, owner) ==> db.row.stamp in list[i..] || db.row.stamp in evicted
      {
        var candidate := list[i];
        ClaimStays(old(db.history), db.history, owner);
        var recovered := RenewReconciled(db, candidate, owner);
        if !recovered.proven {
          if paced { SuffixStaysSpaced(list, nextTick, i, nextTick); }
          Keep(recovered.attempted, nextTick, begun, Max(begun + RENEW_MS, db.now));
          next := Renewal(Some(held), false, recovered.attempted);
          return;
        }
        if recovered.stamp.Some? {
          next := recovered;
          candidates.Clear();
          return;
        }
        candidates.Drop(candidate);
        assert list[i..][1..] == list[i + 1..];
        i := i + 1;
      }
    }

    /** Renew from `current`, and from every candidate if that provably misses. */
    method RenewFromAny(ghost begun: int) returns (next: Renewal)
      requires db.Valid() && candidates.Valid() && candidates.cap == CANDIDATE_STAMP_CAP
      requires HasClaimed(db.history, owner) && current.Some?
      requires OwnedBy(db.row, owner) ==> CanCarry(db.row.stamp)
      requires begun == db.now
      requires paced ==> Spaced(candidates.stamps, nextTick) && nextTick <= begun
      requires paced ==> LongStale(evicted, db.now)
      modifies this`evicted, db`row, db`now, db`history, db`faults, db`streak, candidates
      ensures db.Valid() && candidates.Valid() && OnlyRenews(old(db.history), db.history, owner, begun)
      ensures db.now >= old(db.now)
      ensures next.proven && next.stamp.Some? ==>
                db.row == Claimed(next.stamp.value, Some(owner)) && candidates.stamps == []
      ensures db.faults == old(db.faults) && next.stamp.Some? ==>
                && next.proven && next.stamp.value >= begun
                && Renewed(old(db.history), db.history, owner, next.stamp.value)
      ensures next.stamp.None? ==>
                next.proven && candidates.stamps == [] &&
                (OwnedBy(db.row, owner) ==> db.row.stamp in evicted)
      ensures !next.proven ==> next.stamp == current && db.faults >= old(db.faults) + 2
      ensures Unsettled(db.streak, !next.proven)
      ensures !next.proven && OwnedBy(db.row, owner) ==> CanCarry(db.row.stamp)
      ensures evicted == old(evicted) ||
                (|old(candidates.stamps)| == CANDIDATE_STAMP_CAP &&
                 evicted == old(evicted) + {old(candidates.stamps)[0]})
      ensures paced ==> Spaced(candidates.stamps, Max(begun + RENEW_MS, db.now))
      ensures paced ==> LongStale(evicted, db.now)
    {
      var held := current.value;
      next := RenewReconciled(db, held, owner);
      if !next.proven {
        Keep(next.attempted, nextTick, begun, Max(begun + RENEW_MS, db.now));
      } else if next.stamp.Some? {
        candidates.Clear();
      }
      if next.stamp.None? && |candidates.stamps| > 0 {
        ClaimStays(old(db.history), db.history, owner);
        next := RecoverFromCandidates(held, begun);
      }
    }

    /** Renew, recover if that misses, and give up only what is provably gone. */
    method RenewOnce()
      requires Valid()
      modifies this`current, this`lost, this`evicted, this`nextTick, this`paced, candidates
      modifies db`row, db`now, db`history, db`faults, db`streak
      ensures Valid() && OnlyRenews(old(db.history), db.history, owner, old(db.now)) && db.now >= old(db.now)
      ensures old(current).None? ==> unchanged(this) && unchanged(db) && unchanged(candidates)
      // Sound: the lease is reported lost only if somebody took it over while stale, or if the row still
      // carries one of our stamps that the cap pushed out.
      ensures lost && !old(lost) ==>
                TakenOver(db.start, db.history, owner) || (OwnedBy(db.row, owner) && db.row.stamp in evicted)
      ensures old(current).Some? ==> (current.None? <==> lost)
      // Complete: a tick settles everything unless its last two calls, a renewal and the read-back of it, threw.
      // It loses a lease only if the row is another's or carries an evicted stamp, and else knows the stamp on
      // the row; and when no call throws, it is one this very tick wrote.
      ensures old(current).Some? ==>
                Unsettled(db.streak, db.streak > 0) && (db.streak > 0 ==> db.faults >= old(db.faults) + 2)
      ensures old(current).Some? && db.streak == 0 ==>
                && candidates.stamps == []
                && (current.None? ==> !OwnedBy(db.row, owner) || db.row.stamp in evicted)
                && (current.Some? ==> db.row == Claimed(current.value, Some(owner)))
      ensures old(current).Some? && db.faults == old(db.faults) && current.Some? ==>
                current.value >= old(db.now) && Renewed(old(db.history), db.history, owner, current.value)
      ensures lost && OwnedBy(db.row, owner) ==> db.row.stamp in evicted
      // At most one stamp is forgotten, the oldest of a full set.
      ensures evicted == old(evicted) ||
                (|old(candidates.stamps)| == CANDIDATE_STAMP_CAP &&
                 evicted == old(evicted) + {old(candidates.stamps)[0]})
      ensures paced <==> old(paced) && (old(current).None? || old(db.now) >= old(nextTick))
      ensures old(current).Some? ==> nextTick == Max(old(db.now) + RENEW_MS, db.now)
    {
      hide Remembered, Max, ValidRun, After, LastStamp, HasClaimed, HasCleared, TakenOver, Spaced, Renewed, Distinct;
      if current.None? { return; }
      ghost var begun := db.now;
      paced := paced && begun >= nextTick;
      var next := RenewFromAny(begun);
      nextTick := Max(begun + RENEW_MS, db.now);
      current := next.stamp;
      Continues(old(db.history), begun);
      if current.None? {
        lost := true;
        LossIsATakeover(db.start, db.history, owner);
      }
    }

    /** The timer fires. A tick that leaves a stamp of its own on the row is the new beat, whether or not it was
        acknowledged. As long as no tick and no stretch of work ends with the last beat more than STALE_MS ago,
        the row is ours and the lease is not lost. */
    method Tick()
      requires Valid() && Beating()
      modifies this, candidates
      modifies db`row, db`now, db`history, db`faults, db`streak
      ensures Valid() && Beating() && db.now >= old(db.now)
      ensures old(current).Some? ==>
                && beat == (if WroteSince(db.row, owner, old(db.now)) then old(db.now) else old(beat))
                && (steady <==> old(steady) && db.now - old(beat) <= STALE_MS)
                && (steady ==> OwnedBy(db.row, owner))
      // A tick in which no call throws beats, and so does one whose stamp was found on the row by a read-back.
      ensures old(current).Some? && current.Some? && db.streak == 0
              && (db.faults == old(db.faults) || current.value >= old(db.now)) ==>
                beat == old(db.now)
      ensures old(current).Some? && steady && (paced || db.row.stamp !in evicted) ==> current.Some? && !lost
      // The tick is recorded, and as long as the ticks are on time it is steady: the row is ours and not lost.
      ensures old(current).Some? ==>
                && ticks == old(ticks) + [TickRecord(old(db.now), db.now, WroteSince(db.row, owner, old(db.now)))]
                && (granted && OnTime(claimedAt, ticks, db.now) ==> steady)
      ensures paced <==> old(paced) && (old(current).None? || old(db.now) >= old(nextTick))
    {
      hide ValidRun, After, LastStamp, HasClaimed, HasCleared, TakenOver, Spaced, Renewed, Distinct, Beats, OnTime,
           LastBeat, OnlyRenews, Max;
      if current.None? { return; }
      ghost var begun, last := db.now, beat;
      BeatsMeans(db.history, World(db.row, db.now), owner, beat, steady);
      RenewOnce();
      TickBeats(db.start, old(db.history), db.history, owner, last, begun, steady);
      steady := steady && db.now - last <= STALE_MS;
      beat := if WroteSince(db.row, owner, begun) then begun else last;
      ghost var tick := TickRecord(begun, db.now, WroteSince(db.row, owner, begun));
      OneMoreTick(claimedAt, ticks, tick);
      ticks := ticks + [tick];
    }

    /** If the last call did not throw and the row is another's by then, the takeover is reported. */
    ghost predicate Reported()
      reads this, db
    {
      db.streak == 0 && db.row.Claimed? && !OwnedBy(db.row, owner) ==> lost
    }

    /** Clear every candidate in turn, until one clear finds the row free. */
    method ReleaseCandidates(held: int, ghost before: seq<ClearCall>)
      requires db.Valid() && HasClaimed(db.history, owner)
      requires before <= db.clears && |db.clears| - |before| <= RELEASE_RETRIES
      requires |candidates.stamps| <= CANDIDATE_STAMP_CAP
      requires OwnedBy(db.row, owner) && db.row.stamp == held ==> GaveUpOn(db.clears[|before|..], owner, held)
      requires Reported()
      modifies this`lost, db
      ensures db.Valid() && OnlyClears(old(db.history), db.history, owner) && db.now >= old(db.now)
      ensures OwnedBy(db.row, owner) ==> db.row == old(db.row) && lost == old(lost)
      ensures old(lost) ==> lost
      ensures before <= db.clears && |db.clears| - |before| <= RELEASE_RETRIES * (1 + CANDIDATE_STAMP_CAP)
      ensures OwnedBy(db.row, owner) && (db.row.stamp == held || db.row.stamp in candidates.stamps) ==>
                GaveUpOn(db.clears[|before|..], owner, db.row.stamp)
      ensures OwnedBy(db.row, owner) && db.row.stamp in candidates.stamps ==>
                db.faults >= old(db.faults) + RELEASE_RETRIES
      ensures Reported() && (old(db.streak) == 0 && db.streak > 0 ==> db.faults > old(db.faults))
      ensures db.faults >= old(db.faults)
    {
      var list := candidates.stamps;
      var i := 0;
      while i < |list|
        invariant 0 <= i <= |list| && db.Valid() && OnlyClears(old(db.history), db.history, owner)
        invariant OwnedBy(db.row, owner) ==> db.row == old(db.row) && lost == old(lost)
        invariant db.now >= old(db.now) && (old(lost) ==> lost) && db.faults >= old(db.faults)
        invariant before <= db.clears && |db.clears| - |before| <= RELEASE_RETRIES * (1 + i)
        invariant OwnedBy(db.row, owner) && (db.row.stamp == held || db.row.stamp in list[..i]) ==>
                    GaveUpOn(db.clears[|before|..], owner, db.row.stamp)
        invariant OwnedBy(db.row, owner) && db.row.stamp in list[..i] ==>
                    db.faults >= old(db.faults) + RELEASE_RETRIES
        invariant Reported() && (old(db.streak) == 0 && db.streak > 0 ==> db.faults > old(db.faults))
      {
        ClaimStays(old(db.history), db.history, owner);
        ghost var was := db.clears[|before|..];
        var outcome;
        ghost var calls;
        outcome, calls := ReleaseWithRetry(db, list[i], owner);
        assert db.clears[|before|..] == was + calls;
        MoreCalls(was, calls, owner);
        if outcome == TakenOverOutcome { lost := true; }
        if outcome == Free { break; }
        assert list[..i + 1] == list[..i] + [list[i]];
        i := i + 1;
      }
      assert list[..|list|] == list;
    }

    /** Frees the row of this owner, and ends the handle. A handle that has ended is left as it is. */
    method Release()
      requires Valid()
      modifies this`current, this`lost, db, candidates
      ensures Valid() && current.None? && OnlyClears(old(db.history), db.history, owner)
      ensures old(current).None? ==> unchanged(this) && unchanged(db) && unchanged(candidates)
      // Sound: only a takeover of a stale lease, or a clear of ours that had already committed.
      ensures lost && !old(lost) ==>
                TakenOver(db.start, db.history, owner) || HasCleared(db.history, owner)
      // And complete: a row that is another's when the last call has answered is reported, so without a report
      // it is free, or ours still.
      ensures old(current).Some? ==> Reported() && (db.streak > 0 ==> db.faults > old(db.faults))
      // The row is free of this owner, unless it carries a stamp the cap pushed out, or every one of three
      // clears of the very stamp it carries was issued and threw.
      ensures old(current).Some? && OwnedBy(db.row, owner) && db.row.stamp !in evicted ==>
                && old(db.clears) <= db.clears
                && GaveUpOn(db.clears[|old(db.clears)|..], owner, db.row.stamp)
                && db.faults >= old(db.faults) + 3
      // So a release during which no call throws frees it, and leaves it unclaimed unless it reports a takeover.
      ensures old(current).Some? && db.faults == old(db.faults) ==> !OwnedBy(db.row, owner) || db.row.stamp in evicted
      ensures old(current).Some? && db.faults == old(db.faults) && !lost ==>
                db.row == Unclaimed || (OwnedBy(db.row, owner) && db.row.stamp in evicted)
      ensures old(db.clears) <= db.clears
      ensures |db.clears| - |old(db.clears)| <= 27
    {
      hide ValidRun, After, LastStamp, HasClaimed, HasCleared, TakenOver, GaveUpOn;
      if current.None? { return; }
      ghost var before := db.clears;
      var primary;
      ghost var calls;
      primary, calls := ReleaseWithRetry(db, current.value, owner);
      ClaimStays(old(db.history), db.history, owner);
      assert db.clears[|before|..] == calls && [] + calls == calls;
      MoreCalls([], calls, owner);
      if primary == TakenOverOutcome { lost := true; }
      if primary != Free {
        ReleaseCandidates(current.value, before);
      }
      candidates.Clear();
      current := None;
      ClaimStays(old(db.history), db.history, owner);
      if lost { LossIsATakeover(db.start, db.history, owner); }
    }
  }

  /** All of them have been stale for longer than the window. */
  ghost predicate LongStale(stamps: set<int>, now: int) {
    forall s :: s in stamps ==> now - s > 2 * STALE_MS
  }

  // ---- The heartbeat ----

  /** The newest stamp `a` committed is no older than `since`. */
  ghost predicate StampedSince(h: seq<Event>, a: Token, since: int) {
    LastStamp(h, a).Some? && LastStamp(h, a).value >= since
  }

  /** The row carries `a` under a stamp no older than `since`. */
  ghost predicate WroteSince(row: Row, a: Token, since: int) {
    OwnedBy(row, a) && row.stamp >= since
  }

  /** What a handle that was not lost can say of its heartbeat. */
  ghost predicate Beats(h: seq<Event>, w: World, a: Token, beat: int, steady: bool) {
    beat <= w.now && StampedSince(h, a, beat) && (steady ==> OwnedBy(w.row, a))
  }

  lemma BeatsMeans(h: seq<Event>, w: World, a: Token, beat: int, steady: bool)
    ensures Beats(h, w, a, beat, steady) ==> beat <= w.now && (steady ==> OwnedBy(w.row, a))
  {
  }

  /** A tick of the timer: when it began and ended, and whether it left a stamp of its own on the row. */
  datatype TickRecord = TickRecord(start: int, end: int, wrote: bool)

  /** When tick `i` is to be counted from: the start of the one before, or the claim. */
  function Before(claimedAt: int, ticks: seq<TickRecord>, i: nat): int
    requires i <= |ticks|
  {
    if i == 0 then claimedAt else ticks[i - 1].start
  }

  /** Every tick starts within a period of the one before, the first of the claim, and ends within a period of its
      start; no two in a row fail to leave a stamp; and the next is not overdue. */
  ghost predicate OnTime(claimedAt: int, ticks: seq<TickRecord>, now: int) {
    && (forall i :: 0 <= i < |ticks| ==>
          && ticks[i].start - Before(claimedAt, ticks, i) <= RENEW_MS
          && ticks[i].end - ticks[i].start <= RENEW_MS
          && (ticks[i].wrote || i == 0 || ticks[i - 1].wrote))
    && now - Before(claimedAt, ticks, |ticks|) <= RENEW_MS
  }

  /** When the last tick began that left its stamp, or the claim. */
  ghost function LastBeat(claimedAt: int, ticks: seq<TickRecord>): int {
    if ticks == [] then claimedAt
    else
      var last := ticks[|ticks| - 1];
      if last.wrote then last.start else LastBeat(claimedAt, ticks[..|ticks| - 1])
  }

  lemma OnTimeBefore(claimedAt: int, ticks: seq<TickRecord>, earlier: int, now: int)
    requires OnTime(claimedAt, ticks, now) ==> earlier <= now
    ensures OnTime(claimedAt, ticks, now) ==> OnTime(claimedAt, ticks, earlier)
  {
  }

  /** Ticks on time: the last beat is never two periods ago. */
  lemma OnTimeBeats(claimedAt: int, ticks: seq<TickRecord>, now: int)
    ensures OnTime(claimedAt, ticks, now) ==> now - LastBeat(claimedAt, ticks) <= 2 * RENEW_MS <= STALE_MS
  {
    if OnTime(claimedAt, ticks, now) && |ticks| > 0 && !ticks[|ticks| - 1].wrote {
      var n := |ticks| - 1;
      assert ticks[n].start - Before(claimedAt, ticks, n) <= RENEW_MS;
      assert LastBeat(claimedAt, ticks[..n]) == Before(claimedAt, ticks, n);
    }
  }

  /** One more tick on time: all was on time when it began, and the beat then last is within the stale window
      still when it ends. */
  lemma OneMoreTick(claimedAt: int, ticks: seq<TickRecord>, t: TickRecord)
    ensures OnTime(claimedAt, ticks + [t], t.end) ==>
              OnTime(claimedAt, ticks, t.start) && t.end - LastBeat(claimedAt, ticks) <= STALE_MS
    ensures LastBeat(claimedAt, ticks + [t]) == if t.wrote then t.start else LastBeat(claimedAt, ticks)
  {
    var more := ticks + [t];
    assert more[..|ticks|] == ticks;
    if OnTime(claimedAt, more, t.end) {
      assert forall i :: 0 <= i < |ticks| ==>
          more[i] == ticks[i] && Before(claimedAt, more, i) == Before(claimedAt, ticks, i);
      assert Before(claimedAt, more, |ticks|) == Before(claimedAt, ticks, |ticks|) && more[|ticks|] == t;
      OnTimeBeats(claimedAt, ticks, t.start);
    }
  }

  /** A tick keeps the heartbeat, and renews it if it left a stamp of its own on the row. */
  lemma TickBeats(w: World, h: seq<Event>, h': seq<Event>, a: Token, last: int, begun: int, steady: bool)
    requires ValidRun(w, h) && ValidRun(w, h') && !OwnedBy(w.row, a)
    requires OnlyRenews(h, h', a, begun) && last <= begun <= After(w, h').now
    requires Beats(h, After(w, h), a, last, steady)
    ensures var t := After(w, h');
            var still := steady && t.now - last <= STALE_MS;
            && Beats(h', t, a, last, still)
            && (OwnedBy(t.row, a) && t.row.stamp >= begun ==> Beats(h', t, a, begun, still))
            && (still ==> OwnedBy(t.row, a) && t.now - t.row.stamp <= STALE_MS)
  {
    HeldThrough(w, h, h', a, last);
  }

  lemma {:induction false} StampsRise(h: seq<Event>, h': seq<Event>, a: Token, since: int)
    requires OnlyRenews(h, h', a, since) && StampedSince(h, a, since)
    ensures StampedSince(h', a, since)
    decreases |h'|
  {
    if |h| < |h'| {
      var before := h'[..|h'| - 1];
      assert h <= before;
      assert By(h'[|h'| - 1], a) ==> h'[|h'| - 1].Renew? && h'[|h'| - 1].to >= since;
      StampsRise(h, before, a, since);
    } else {
      assert h' == h;
    }
  }

  lemma {:induction false} ClockRises(w: World, h: seq<Event>, j: nat)
    requires ValidRun(w, h) && j <= |h|
    ensures At(w, h, j).now <= After(w, h).now
    decreases |h| - j
  {
    Whole(w, h);
    if j < |h| {
      OneStep(w, h, j);
      ClockRises(w, h, j + 1);
    }
  }

  /** An owner that only renews, and whose newest stamp before the stretch is at most STALE_MS old at its
      end, owns the row all through it. */
  lemma HeldThrough(w: World, h: seq<Event>, h': seq<Event>, a: Token, since: int)
    requires ValidRun(w, h) && ValidRun(w, h') && !OwnedBy(w.row, a)
    requires OnlyRenews(h, h', a, since) && StampedSince(h, a, since)
    ensures OwnedBy(After(w, h).row, a) && After(w, h').now - since <= STALE_MS ==> OwnedBy(After(w, h').row, a)
    ensures StampedSince(h', a, since)
    ensures OwnedBy(After(w, h').row, a) ==> LastStamp(h', a) == Some(After(w, h').row.stamp)
  {
    StampsRise(h, h', a, since);
    if OwnedBy(After(w, h').row, a) { OwnerWroteTheStamp(w, h', a); }
    if OwnedBy(After(w, h).row, a) && After(w, h').now - since <= STALE_MS {
      assert h'[..|h|] == h;
      forall j | |h| <= j < |h'|
        ensures LastStamp(h'[..j], a).Some? && At(w, h', j).now - LastStamp(h'[..j], a).value <= STALE_MS
        ensures h'[j].Clear? ==> h'[j].actor != a
      {
        assert OnlyRenews(h, h'[..j], a, since);
        StampsRise(h, h'[..j], a, since);
        ClockRises(w, h', j);
        assert By(h'[j], a) ==> h'[j].Renew?;
      }
      HeartbeatKeepsTheLease(w, h', a, |h|);
    }
  }

  /** More calls keep what was given up on, and three of one stamp that threw give up on it. */
  lemma MoreCalls(was: seq<ClearCall>, calls: seq<ClearCall>, a: Token)
    ensures forall s :: GaveUpOn(was, a, s) ==> GaveUpOn(was + calls, a, s)
    ensures forall s :: AllThrew(calls, 0, a, s) ==> GaveUpOn(was + calls, a, s)
  {
    forall s | GaveUpOn(was, a, s) ensures GaveUpOn(was + calls, a, s) {
      var i: nat :| AllThrew(was, i, a, s);
      assert AllThrew(was + calls, i, a, s);
    }
    forall s | AllThrew(calls, 0, a, s) ensures GaveUpOn(was + calls, a, s) {
      assert AllThrew(was + calls, |was|, a, s);
    }
  }

  /** Take a root claim. A null handle means it was refused, or that the call threw. */
  method AcquireRootClaim(db: Database, owner: Token, userId: Option<string>)
    returns (handle: Lease?, threw: bool)
    requires db.Valid() && NothingBy(db.history, owner) && !OwnedBy(db.start.row, owner)
    modifies db`row, db`now, db`history, db`faults, db`streak
    ensures db.Valid() && old(db.history) <= db.history && db.now >= old(db.now)
    // A handle goes only to a caller whose own claim committed and is on the row.
    ensures handle != null ==>
              && !threw && fresh(handle) && fresh(handle.candidates) && handle.db == db && handle.owner == owner
              && handle.Valid() && handle.Beating() && handle.current.Some? && !handle.lost
              && db.row == Claimed(handle.current.value, Some(owner))
              && handle.current.value == old(db.now) && handle.paced && handle.beat == old(db.now)
              && (handle.steady <==> db.now - old(db.now) <= STALE_MS)
              && handle.granted && handle.claimedAt == old(db.now) && handle.ticks == []
    // A caller without one owns nothing, unless the claim threw and every read after it failed.
    ensures handle == null && OwnedBy(db.row, owner) ==>
              threw && db.faults >= old(db.faults) + 4
    // It throws only after the claim did: when every read after it threw as well, or the row was read as free.
    // A row read as another's is a refusal.
    ensures threw ==> db.faults > old(db.faults)
    ensures handle == null && db.faults > old(db.faults) ==>
              (threw <==> db.streak > 0 || db.row == Unclaimed)
    // With no call throwing it is refused only for another user's row or for one it may not take.
    ensures handle == null && db.faults == old(db.faults) ==>
              (userId.Some? && userId.value != db.userId) || !Takeable(db.row, db.now)
    ensures userId.Some? && userId.value != db.userId ==> handle == null
    ensures forall i :: |old(db.history)| <= i < |db.history| && By(db.history[i], owner) ==>
              db.history[i] == Claim(owner, old(db.now))
  {
    var attempted := db.now;
    var reply := db.ClaimRepositoryRoot(owner, attempted, userId);
    OwnsByItsClaim(db.start, db.history, owner, attempted);
    match reply {
      case NoRow => return null, false;
      case Affected => {}
      case Threw =>
        var read := ReadClaimStamp(db, owner);
        if read.None? { return null, true; }
        if read.value.Claimed? && read.value.owner == Some(owner) {
          // The token, never the stamp, proves the claim is ours.
          OwnsByItsClaim(db.start, db.history, owner, attempted);
        } else if read.value.Unclaimed? {
          return null, true;
        } else {
          return null, false;
        }
    }
    var lease := new Lease(db, owner, attempted);
    return lease, false;
  }

  /** A token whose only statement is its claim owns the row only by that claim. */
  lemma {:induction false} OwnsByItsClaim(w: World, h: seq<Event>, a: Token, stamp: int)
    requires ValidRun(w, h) && !OwnedBy(w.row, a)
    requires forall i :: 0 <= i < |h| && By(h[i], a) ==> h[i] == Claim(a, stamp)
    ensures OwnedBy(After(w, h).row, a) ==> HasClaimed(h, a) && After(w, h).row.stamp == stamp
    ensures HasClaimed(h, a) ==> LastStamp(h, a) == Some(stamp)
  {
    if |h| > 0 {
      var before := h[..|h| - 1];
      OwnsByItsClaim(w, before, a, stamp);
      if HasClaimed(before, a) { ClaimStays(before, h, a); }
      assert By(h[|h| - 1], a) ==> h[|h| - 1] == Claim(a, stamp);
    }
  }

  function Max(a: int, b: int): int {
    if a >= b then a else b
  }

  /** A token that claimed and no longer owns the row was taken over while stale, or cleared it. */
  lemma LossIsATakeover(w: World, h: seq<Event>, a: Token)
    requires ValidRun(w, h) && HasClaimed(h, a)
    ensures OwnedBy(After(w, h).row, a) || TakenOver(w, h, a) || HasCleared(h, a)
  {
    if !OwnedBy(After(w, h).row, a) { LossIsExplained(w, h, a); }
    if Released(w, h, a) {
      var i: nat :| Releases(w, h, a, i);
      assert h[i].Clear? && h[i].actor == a;
    }
  }
}
