/** One repository row shared by any number of holders, reached only through statements that can fail.

    Every call first lets the other holders run: any number of their committed statements, in any order,
    and any passing of time. A write that throws may or may not have committed; one that throws has been
    decided by then. A read may throw. There is one clock, for stamps and for the database's `now()`. */
module RootClaimDatabase {
  import opened Options
  import opened RootClaimRow

  datatype Reply = Affected | NoRow | Threw

  /** A clear that was issued, and whether the call threw. */
  datatype ClearCall = ClearCall(actor: Token, stamp: int, threw: bool)

  /** `h'` continues `h` with statements of anybody but `a`. */
  ghost predicate ByOthers(h: seq<Event>, h': seq<Event>, a: Token) {
    h <= h' && forall i :: |h| <= i < |h'| ==> !By(h'[i], a)
  }

  /** `h'` continues `h`, and every statement of `a` in the continuation is `e`. */
  ghost predicate OnlyOwn(h: seq<Event>, h': seq<Event>, a: Token, e: Event) {
    h <= h' && forall i :: |h| <= i < |h'| ==> By(h'[i], a) ==> h'[i] == e
  }

  /** `h'` continues `h`, and `e` is the last that was committed. */
  ghost predicate EndsIn(h: seq<Event>, h': seq<Event>, e: Event) {
    |h| < |h'| && h'[|h'| - 1] == e
  }

  ghost predicate NothingBy(h: seq<Event>, a: Token) {
    forall i :: 0 <= i < |h| ==> !By(h[i], a)
  }

  class Database {
    const userId: string
    ghost const start: World
    var row: Row
    var now: int
    /** The committed statements so far. */
    ghost var history: seq<Event>
    /** How many calls threw. */
    ghost var faults: nat
    /** How many calls in a row, up to the latest, threw. */
    ghost var streak: nat
    /** Every clear that was issued, whatever came of it. */
    ghost var clears: seq<ClearCall>

    ghost predicate Valid()
      reads this
    {
      ValidRun(start, history) && After(start, history) == World(row, now)
    }

    /** One call was counted, and whether it threw. */
    ghost predicate Counted(faults0: nat, streak0: nat, threw: bool)
      reads this
    {
      faults == (if threw then faults0 + 1 else faults0) && streak == (if threw then streak0 + 1 else 0)
    }

    /** Counts the call. */
    ghost method Count(threw: bool)
      modifies this`faults, this`streak
      ensures Counted(old(faults), old(streak), threw)
    {
      faults, streak := if threw then faults + 1 else faults, if threw then streak + 1 else 0;
    }

    constructor (row: Row, now: int, userId: string)
      ensures Valid() && this.row == row && this.now == now && history == [] && clears == []
      ensures faults == 0 && streak == 0
      ensures start == World(row, now) && this.userId == userId
    {
      this.userId := userId;
      start := World(row, now);
      this.row, this.now, history, clears := row, now, [], [];
      faults, streak := 0, 0;
    }

    /** One statement commits. */
    method Commit(e: Event)
      requires Valid() && Enabled(World(row, now), e)
      modifies this`row, this`now, this`history
      ensures Valid() && history == old(history) + [e]
      ensures World(row, now) == Apply(World(old(row), old(now)), e)
    {
      Append(start, history, e);
      history := history + [e];
      match e
      case Claim(actor, stamp) => row := Claimed(stamp, Some(actor));
      case Renew(_, _, to) => row := Claimed(to, row.owner);
      case Clear(_, _) => row := Unclaimed;
      case Elapse(ms) => now := now + ms;
    }

    /** The other holders run: statements that match no row or never commit change nothing. */
    method Others(a: Token)
      requires Valid()
      modifies this`row, this`now, this`history
      ensures Valid() && ByOthers(old(history), history, a) && now >= old(now)
      ensures OwnedBy(row, a) ==> row == old(row)
    {
      var steps: nat := *;
      while steps > 0
        invariant Valid() && ByOthers(old(history), history, a) && now >= old(now)
        invariant OwnedBy(row, a) ==> row == old(row)
      {
        var e: Event := *;
        if !By(e, a) && Enabled(World(row, now), e) {
          Commit(e);
        }
        steps := steps - 1;
      }
    }

    /** The one UPDATE that claims. `userId` is absent for a queue handler. A fresh token has no statement
        in the history yet. */
    method ClaimRepositoryRoot(a: Token, stamp: int, userId: Option<string>) returns (reply: Reply)
      requires Valid() && NothingBy(history, a)
      modifies this`row, this`now, this`history, this`faults, this`streak
      ensures Valid() && OnlyOwn(old(history), history, a, Claim(a, stamp)) && now >= old(now)
      ensures reply == Affected ==> HasClaimed(history, a) && row == Claimed(stamp, Some(a))
      ensures reply == NoRow ==> NothingBy(history, a)
      // It is refused only for another user's row or for one it may not take.
      ensures reply == NoRow ==> (userId.Some? && userId.value != this.userId) || !Takeable(row, now)
      ensures HasClaimed(history, a) || NothingBy(history, a)
      ensures Counted(old(faults), old(streak), reply.Threw?)
      ensures userId.Some? && userId.value != this.userId ==> NothingBy(history, a)
    {
      Others(a);
      if * { Count(true); return Threw; }
      reply := NoRow;
      if (userId.None? || userId.value == this.userId) && Takeable(row, now) {
        Commit(Claim(a, stamp));
        assert history[|history| - 1] == Claim(a, stamp);
        reply := Affected;
      }
      if * { reply := Threw; }
      Count(reply == Threw);
    }

    /** The conditional UPDATE that moves the stamp from `from` to `to`. */
    method RenewRootClaim(a: Token, from: int, to: int) returns (reply: Reply)
      requires Valid() && HasClaimed(history, a)
      modifies this`row, this`now, this`history, this`faults, this`streak
      ensures Valid() && OnlyOwn(old(history), history, a, Renew(a, from, to)) && now >= old(now)
      ensures OwnedBy(row, a) ==>
                OwnedBy(old(row), a) && (row == old(row) || (old(row).stamp == from && row.stamp == to))
      ensures reply == Affected ==> row == Claimed(to, Some(a)) && EndsIn(old(history), history, Renew(a, from, to))
      ensures reply == NoRow && OwnedBy(row, a) ==> row == old(row) && row.stamp != from
      ensures Counted(old(faults), old(streak), reply.Threw?)
    {
      Others(a);
      if * { Count(true); return Threw; }
      reply := NoRow;
      if Matches(row, from, a) {
        ClaimStays(old(history), history, a);
        ClaimedRowsHaveOwners(start, history, a);
        Commit(Renew(a, from, to));
        reply := Affected;
      }
      if * { reply := Threw; }
      Count(reply == Threw);
    }

    /** The conditional UPDATE that clears the claim. It is issued exactly once, and a row that still
        carries the stamp under this owner makes it one that threw. */
    method ReleaseRepositoryRoot(a: Token, stamp: int) returns (reply: Reply)
      requires Valid() && HasClaimed(history, a)
      modifies this
      ensures Valid() && OnlyOwn(old(history), history, a, Clear(a, stamp)) && now >= old(now)
      ensures OwnedBy(row, a) ==> row == old(row)
      ensures reply == Affected ==> row == Unclaimed
      ensures OwnedBy(row, a) && row.stamp == stamp ==> reply == Threw
      ensures clears == old(clears) + [ClearCall(a, stamp, reply == Threw)]
      ensures Counted(old(faults), old(streak), reply.Threw?)
    {
      Others(a);
      reply := Threw;
      if * {
        reply := NoRow;
        if Matches(row, stamp, a) {
          Commit(Clear(a, stamp));
          reply := Affected;
        }
        if * { reply := Threw; }
      }
      clears := clears + [ClearCall(a, stamp, reply == Threw)];
      Count(reply == Threw);
    }

    /** Read the row back. None when the read itself throws. */
    method ReadRow(a: Token) returns (read: Option<Row>)
      requires Valid()
      modifies this`row, this`now, this`history, this`faults, this`streak
      ensures Valid() && ByOthers(old(history), history, a) && now >= old(now)
      ensures OwnedBy(row, a) ==> row == old(row)
      ensures read.Some? ==> read.value == row
      ensures Counted(old(faults), old(streak), read.None?)
    {
      Others(a);
      if * { Count(true); return None; }
      Count(false);
      return Some(row);
    }
  }

  lemma ClaimStays(h: seq<Event>, h': seq<Event>, a: Token)
    requires h <= h' && HasClaimed(h, a)
    ensures HasClaimed(h', a)
  {
  }
}
