/** The claim columns of one `repositories` row, the three conditional updates that write them, and
    every run those updates can produce.

    A run is a sequence of COMMITTED statements. A statement that matches no row, or that fails before
    it commits, leaves no mark on the row, so it is not an event. Whether a committed statement was
    acknowledged is visible only to its caller, and is the subject of RootClaimLease. */
module RootClaimRow {
  import opened Options

  /** The age up to which a stamp keeps its claim live. */
  const STALE_MS: int := 15 * 60 * 1000

  /** The time between two renewals. */
  const RENEW_MS: int := STALE_MS / 3

  /** The identity one acquire writes: a fresh UUID. */
  type Token = nat

  /** `root_claimed_at` and `root_claim_owner`. A claim need not have an owner. */
  datatype Row = Unclaimed | Claimed(stamp: int, owner: Option<Token>)

  datatype World = World(row: Row, now: int)

  datatype Event =
    | Claim(actor: Token, stamp: int)
    | Renew(actor: Token, from: int, to: int)
    | Clear(actor: Token, stamp: int)
    | Elapse(ms: nat)

  predicate By(e: Event, a: Token) {
    !e.Elapse? && e.actor == a
  }

  predicate OwnedBy(row: Row, a: Token) {
    row.Claimed? && row.owner == Some(a)
  }

  /** What readers ask: must another writer refuse for this claim? */
  predicate IsLive(row: Row, now: int) {
    row.Claimed? && now - row.stamp < STALE_MS
  }

  /** The WHERE clause of the claim: unclaimed, or claimed before `now() - STALE_MS`. */
  predicate Takeable(row: Row, now: int) {
    row.Unclaimed? || row.stamp < now - STALE_MS
  }

  /** The WHERE clause a renewal and a conditional release share. */
  predicate Matches(row: Row, stamp: int, a: Token) {
    row.Claimed? && row.stamp == stamp && (row.owner == Some(a) || row.owner == None)
  }

  /** Whether the statement affects the row, so that it can commit as an event. */
  predicate Enabled(w: World, e: Event) {
    match e
    case Claim(_, _) => Takeable(w.row, w.now)
    case Renew(actor, from, _) => Matches(w.row, from, actor)
    case Clear(actor, stamp) => Matches(w.row, stamp, actor)
    case Elapse(_) => true
  }

  /** The row and the clock after the event. A renewal writes the stamp and leaves the owner alone. */
  function Apply(w: World, e: Event): World
    requires Enabled(w, e)
  {
    match e
    case Claim(actor, stamp) => w.(row := Claimed(stamp, Some(actor)))
    case Renew(_, _, to) => w.(row := Claimed(to, w.row.owner))
    case Clear(_, _) => w.(row := Unclaimed)
    case Elapse(ms) => w.(now := w.now + ms)
  }

  /** Every event of the run affects the row it meets. */
  ghost predicate ValidRun(w: World, h: seq<Event>)
    decreases |h|, 0
  {
    |h| > 0 ==>
      var before := h[..|h| - 1];
      ValidRun(w, before) && Enabled(After(w, before), h[|h| - 1])
  }

  ghost function After(w: World, h: seq<Event>): World
    requires ValidRun(w, h)
    decreases |h|, 1
  {
    if |h| == 0 then w else Apply(After(w, h[..|h| - 1]), h[|h| - 1])
  }

  lemma {:induction false} PrefixIsRun(w: World, h: seq<Event>, k: nat)
    requires ValidRun(w, h) && k <= |h|
    ensures ValidRun(w, h[..k])
  {
    if k == |h| {
      assert h[..k] == h;
    } else {
      PrefixIsRun(w, h[..|h| - 1], k);
      assert h[..|h| - 1][..k] == h[..k];
    }
  }

  /** The world just before event `i`, or the final one for `i == |h|`. */
  ghost function At(w: World, h: seq<Event>, i: nat): World
    requires ValidRun(w, h) && i <= |h|
  {
    PrefixIsRun(w, h, i);
    After(w, h[..i])
  }

  lemma OneStep(w: World, h: seq<Event>, i: nat)
    requires ValidRun(w, h) && i < |h|
    ensures Enabled(At(w, h, i), h[i])
    ensures At(w, h, i + 1) == Apply(At(w, h, i), h[i])
  {
    PrefixIsRun(w, h, i + 1);
    assert h[..i + 1][..i] == h[..i];
  }

  lemma Whole(w: World, h: seq<Event>)
    requires ValidRun(w, h)
    ensures At(w, h, |h|) == After(w, h)
  {
    assert h[..|h|] == h;
  }

  lemma Append(w: World, h: seq<Event>, e: Event)
    requires ValidRun(w, h) && Enabled(After(w, h), e)
    ensures ValidRun(w, h + [e])
    ensures After(w, h + [e]) == Apply(After(w, h), e)
  {
  }

  // ---- Exclusion ----

  /** Event `i` is a claim by somebody else over a stamp of `a` that was more than STALE_MS old. */
  ghost predicate TakesOver(w: World, h: seq<Event>, a: Token, i: nat)
    requires ValidRun(w, h)
  {
    i < |h| && OwnedBy(At(w, h, i).row, a) && h[i].Claim? && h[i].actor != a &&
    At(w, h, i).now - At(w, h, i).row.stamp > STALE_MS
  }

  /** Event `i` is `a`'s own clear, of a row `a` owned. */
  ghost predicate Releases(w: World, h: seq<Event>, a: Token, i: nat)
    requires ValidRun(w, h)
  {
    i < |h| && OwnedBy(At(w, h, i).row, a) && h[i] == Clear(a, At(w, h, i).row.stamp)
  }

  ghost predicate TakenOver(w: World, h: seq<Event>, a: Token)
    requires ValidRun(w, h)
  {
    exists i: nat :: TakesOver(w, h, a, i)
  }

  ghost predicate Released(w: World, h: seq<Event>, a: Token)
    requires ValidRun(w, h)
  {
    exists i: nat :: Releases(w, h, a, i)
  }

  ghost predicate HasClaimed(h: seq<Event>, a: Token) {
    exists i :: 0 <= i < |h| && h[i].Claim? && h[i].actor == a
  }

  ghost predicate HasCleared(h: seq<Event>, a: Token) {
    exists i :: 0 <= i < |h| && h[i].Clear? && h[i].actor == a
  }

  /** Exclusion, one step: the row leaves `a` only through `a`'s own clear or a claim over a stale stamp,
      and it enters `a` only through `a`'s own claim of a row nobody may still rely on. */
  lemma HandOver(w: World, h: seq<Event>, a: Token, i: nat)
    requires ValidRun(w, h) && i < |h|
    ensures OwnedBy(At(w, h, i).row, a) && !OwnedBy(At(w, h, i + 1).row, a) ==>
              Releases(w, h, a, i) || TakesOver(w, h, a, i)
    ensures !OwnedBy(At(w, h, i).row, a) && OwnedBy(At(w, h, i + 1).row, a) ==>
              h[i].Claim? && h[i].actor == a && !IsLive(At(w, h, i).row, At(w, h, i).now)
  {
    OneStep(w, h, i);
  }

  /** Exclusion over a whole run: while the stamp `a` keeps on the row never gets older than STALE_MS and
      `a` commits no clear, `a` still owns the row, whatever every other holder does. */
  lemma {:induction false} NeverDisplaced(w: World, h: seq<Event>, a: Token, i: nat, k: nat)
    requires ValidRun(w, h) && i <= k <= |h|
    requires OwnedBy(At(w, h, i).row, a)
    requires forall j :: i <= j < k ==> h[j].Clear? ==> h[j].actor != a
    requires forall j :: i <= j < k && OwnedBy(At(w, h, j).row, a) ==>
               At(w, h, j).now - At(w, h, j).row.stamp <= STALE_MS
    ensures forall j :: i <= j <= k ==> OwnedBy(At(w, h, j).row, a)
  {
    if i < k {
      NeverDisplaced(w, h, a, i, k - 1);
      HandOver(w, h, a, k - 1);
    }
  }

  /** The newest stamp `a` committed, by its claim or by a renewal. */
  ghost function LastStamp(h: seq<Event>, a: Token): Option<int> {
    if |h| == 0 then None
    else
      var e := h[|h| - 1];
      if e.Claim? && e.actor == a then Some(e.stamp)
      else if e.Renew? && e.actor == a then Some(e.to)
      else LastStamp(h[..|h| - 1], a)
  }

  lemma ClaimedInPrefix(h: seq<Event>, a: Token)
    requires |h| > 0 && HasClaimed(h, a)
    ensures HasClaimed(h[..|h| - 1], a) || (h[|h| - 1].Claim? && h[|h| - 1].actor == a)
  {
  }

  /** Only a row from before the owner column has a claim with no owner, and the first claim ends that. */
  lemma {:induction false} ClaimedRowsHaveOwners(w: World, h: seq<Event>, a: Token)
    requires ValidRun(w, h) && HasClaimed(h, a)
    ensures After(w, h).row.Claimed? ==> After(w, h).row.owner.Some?
  {
    var before := h[..|h| - 1];
    ClaimedInPrefix(h, a);
    if HasClaimed(before, a) {
      ClaimedRowsHaveOwners(w, before, a);
    }
  }

  /** While a token that claimed during the run owns the row, the row carries the newest stamp that token
      committed: nobody else's write ever shows under its name. */
  lemma {:induction false} OwnerWroteTheStamp(w: World, h: seq<Event>, a: Token)
    requires ValidRun(w, h) && !OwnedBy(w.row, a)
    requires OwnedBy(After(w, h).row, a)
    ensures LastStamp(h, a) == Some(After(w, h).row.stamp)
    ensures HasClaimed(h, a)
  {
    var before := h[..|h| - 1];
    var e := h[|h| - 1];
    if OwnedBy(After(w, before).row, a) {
      OwnerWroteTheStamp(w, before, a);
      if e.Renew? && e.actor != a {
        assert false;
      }
      var i :| 0 <= i < |before| && before[i].Claim? && before[i].actor == a;
      assert h[i] == before[i];
    } else {
      assert e.Claim? && e.actor == a;
    }
  }

  /** The heartbeat is what keeps the lease: if at every point after its claim the newest stamp `a`
      committed is at most STALE_MS old, and `a` commits no clear, nobody displaces it. */
  lemma HeartbeatKeepsTheLease(w: World, h: seq<Event>, a: Token, i: nat)
    requires ValidRun(w, h) && !OwnedBy(w.row, a)
    requires i <= |h| && OwnedBy(At(w, h, i).row, a)
    requires forall j :: i <= j < |h| ==> h[j].Clear? ==> h[j].actor != a
    requires forall j :: i <= j < |h| ==>
               var last := LastStamp(h[..j], a);
               last.Some? ==> At(w, h, j).now - last.value <= STALE_MS
    ensures OwnedBy(After(w, h).row, a)
  {
    forall j | i <= j < |h| && OwnedBy(At(w, h, j).row, a)
      ensures At(w, h, j).now - At(w, h, j).row.stamp <= STALE_MS
    {
      PrefixIsRun(w, h, j);
      OwnerWroteTheStamp(w, h[..j], a);
    }
    NeverDisplaced(w, h, a, i, |h|);
    Whole(w, h);
  }

  lemma {:induction false} LossIsExplainedFrom(w: World, h: seq<Event>, a: Token, i: nat)
    requires ValidRun(w, h) && i <= |h|
    requires OwnedBy(At(w, h, i).row, a) && !OwnedBy(After(w, h).row, a)
    ensures TakenOver(w, h, a) || Released(w, h, a)
    decreases |h| - i
  {
    Whole(w, h);
    HandOver(w, h, a, i);
    if OwnedBy(At(w, h, i + 1).row, a) {
      LossIsExplainedFrom(w, h, a, i + 1);
    }
  }

  /** A token that claimed and no longer owns the row was taken over while stale, or released it. */
  lemma LossIsExplained(w: World, h: seq<Event>, a: Token)
    requires ValidRun(w, h) && HasClaimed(h, a) && !OwnedBy(After(w, h).row, a)
    ensures TakenOver(w, h, a) || Released(w, h, a)
  {
    var i :| 0 <= i < |h| && h[i].Claim? && h[i].actor == a;
    OneStep(w, h, i);
    LossIsExplainedFrom(w, h, a, i + 1);
  }

  /** Two writers: of two tokens that both claimed, at least one was taken over while stale or had
      released. Claims that are both still good cannot coexist. */
  lemma NoTwoGoodClaims(w: World, h: seq<Event>, a: Token, b: Token)
    requires ValidRun(w, h) && a != b && HasClaimed(h, a) && HasClaimed(h, b)
    ensures TakenOver(w, h, a) || Released(w, h, a) || TakenOver(w, h, b) || Released(w, h, b)
  {
    if OwnedBy(After(w, h).row, a) {
      LossIsExplained(w, h, b);
    } else {
      LossIsExplained(w, h, a);
    }
  }

  /** No clear ever strips another owner: it hits a row its own token owns, or one from before owners. */
  lemma ClearsOnlyItsOwn(w: World, h: seq<Event>, i: nat)
    requires ValidRun(w, h) && i < |h| && h[i].Clear?
    ensures At(w, h, i).row.Claimed?
    ensures forall b :: b != h[i].actor ==> !OwnedBy(At(w, h, i).row, b)
    ensures HasClaimed(h[..i], h[i].actor) ==> Releases(w, h, h[i].actor, i)
  {
    OneStep(w, h, i);
    if HasClaimed(h[..i], h[i].actor) {
      PrefixIsRun(w, h, i);
      ClaimedRowsHaveOwners(w, h[..i], h[i].actor);
    }
  }

  /** Readers and the claim disagree at exactly one instant: at the stale boundary the claim already reads
      as dead and cannot be taken yet. So a claim that can be taken is never live. */
  lemma LiveAgainstTakeable(row: Row, now: int)
    ensures Takeable(row, now) ==> !IsLive(row, now)
    ensures !Takeable(row, now) && !IsLive(row, now) <==> row.Claimed? && now - row.stamp == STALE_MS
  {
  }

  /** A claim is live for a quarter of an hour less a millisecond, can be taken a millisecond after the quarter,
      and is renewed three times in it. */
  lemma AQuarterOfAnHour(stamp: int, owner: Option<Token>)
    ensures var row := Claimed(stamp, owner);
            && IsLive(row, stamp + 899_999) && !IsLive(row, stamp + 900_000)
            && !Takeable(row, stamp + 900_000) && Takeable(row, stamp + 900_001)
    ensures 3 * RENEW_MS == 900_000
  {
  }
}
