/** A bounded list of distinct stamps: those a holder cannot rule out for its row. */
module CandidateStamps {
  import opened RootClaimRow

  const CANDIDATE_STAMP_CAP: nat := 8

  ghost predicate Distinct(s: seq<int>) {
    forall i, j :: 0 <= i < j < |s| ==> s[i] != s[j]
  }

  /** The list after remembering `x`: additive, and the oldest goes once the cap is passed. */
  ghost function Remembered(s: seq<int>, x: int, cap: nat): seq<int> {
    if x in s then s
    else if |s| + 1 > cap then (s + [x])[1..]
    else s + [x]
  }

  /** Remembering loses nothing but the oldest entry, and that only when the list is full. */
  lemma RememberedLosesOnlyTheOldest(s: seq<int>, x: int, cap: nat, y: int)
    requires Distinct(s) && 0 < cap && |s| <= cap
    ensures Distinct(Remembered(s, x, cap)) && |Remembered(s, x, cap)| <= cap
    ensures x in Remembered(s, x, cap)
    ensures y in Remembered(s, x, cap) ==> y == x || y in s
    ensures (y in s && y !in Remembered(s, x, cap)) <==> (|s| == cap && x !in s && y == s[0])
  {
    var t := s + [x];
    if x !in s && |s| == cap {
      assert t[1..][|t| - 2] == x;
      if y in s && y != s[0] {
        var i :| 0 <= i < |s| && s[i] == y;
        assert t[1..][i - 1] == y;
      }
    } else if x !in s {
      assert t[|s|] == x;
      if y in s {
        var i :| 0 <= i < |s| && s[i] == y;
        assert t[i] == y;
      }
    }
  }

  /** Entry `i` is at least as many renewal periods older than `next` as there are entries after it.
      `next` is the earliest moment another renewal may start. */
  ghost predicate Spaced(s: seq<int>, next: int) {
    forall i :: 0 <= i < |s| ==> next - s[i] >= (|s| - 1 - i) * RENEW_MS
  }

  /** One renewal that starts no earlier than `next` and remembers the stamp it attempted keeps the
      spacing, with the next renewal at least a period later and after this one has ended. What a full list forgets is
      more than two stale windows old, so it is no live claim. */
  lemma RememberKeepsSpacing(s: seq<int>, next: int, start: int, x: int, next': int, cap: nat)
    requires Spaced(s, next) && 0 < cap && |s| <= cap
    requires next <= start <= x
    requires start + RENEW_MS <= next' && x <= next'
    ensures Spaced(Remembered(s, x, cap), next')
    ensures |s| == cap && x !in s ==> x - s[0] >= (cap - 1) * RENEW_MS
    ensures |s| == cap == CANDIDATE_STAMP_CAP && x !in s ==> x - s[0] > 2 * STALE_MS
  {
  }

  /** Fewer entries need less spacing: dropping any of the first ones keeps the rest spaced. */
  lemma SuffixStaysSpaced(s: seq<int>, next: int, k: nat, next': int)
    requires Spaced(s, next) && k <= |s| && next <= next'
    ensures Spaced(s[k..], next')
  {
  }

  class CandidateSet {
    const cap: nat
    var stamps: seq<int>

    ghost predicate Valid()
      reads this
    {
      0 < cap && |stamps| <= cap && Distinct(stamps)
    }

    constructor (cap: nat)
      requires 0 < cap
      ensures Valid() && stamps == [] && this.cap == cap
    {
      this.cap := cap;
      stamps := [];
    }

    method IndexOf(stamp: int) returns (at: int)
      ensures at == -1 <==> stamp !in stamps
      ensures at != -1 ==> 0 <= at < |stamps| && stamps[at] == stamp
    {
      at := 0;
      while at < |stamps|
        invariant 0 <= at <= |stamps|
        invariant stamp !in stamps[..at]
      {
        if stamps[at] == stamp { return; }
        at := at + 1;
      }
      at := -1;
    }

    method Remember(stamp: int)
      requires Valid()
      modifies this
      ensures Valid()
      ensures stamps == Remembered(old(stamps), stamp, cap)
    {
      RememberedLosesOnlyTheOldest(stamps, stamp, cap, stamp);
      var at := IndexOf(stamp);
      if at >= 0 { return; }
      stamps := stamps + [stamp];
      if |stamps| > cap {
        stamps := stamps[1..];
      }
    }

    /** Exactly the one stamp leaves. */
    method Drop(stamp: int)
      requires Valid()
      modifies this
      ensures Valid()
      ensures forall s :: s in stamps <==> s in old(stamps) && s != stamp
      ensures old(stamps) != [] && old(stamps)[0] == stamp ==> stamps == old(stamps)[1..]
    {
      var at := IndexOf(stamp);
      if at >= 0 {
        ghost var was := stamps;
        stamps := stamps[..at] + stamps[at + 1..];
        forall s | s in was && s != stamp ensures s in stamps {
          var i :| 0 <= i < |was| && was[i] == s;
          assert stamps[if i < at then i else i - 1] == s;
        }
      }
    }

    method Clear()
      modifies this
      ensures stamps == []
    {
      stamps := [];
    }
  }
}
