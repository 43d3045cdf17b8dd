/** Where the time of a task step goes: every microsecond of its span is work, a wait on its form, or a
    gap while the step was closed, and only work may be billed as work. */
module StepTime {
  import opened Options

  /** `idle_ms` is a 32-bit integer column. */
  const INT4_MAX: int := 2147483647

  /** Timestamps are microseconds; `idleMs` counts whole milliseconds. */
  datatype Step = Step(startedAt: int, endedAt: Option<int>, waitingStartedAt: Option<int>, idleMs: int)

  function Min(a: int, b: int): int {
    if a <= b then a else b
  }

  /** `floor(extract(epoch from (now() - anchor)) * 1000)`, with `greatest(0, NULL)` as 0. */
  function ElapsedMs(anchor: Option<int>, now: int): int {
    match anchor
    case None => 0
    case Some(at) => if now < at then 0 else (now - at) / 1000
  }

  /** The saturating credit that closing a wait and re-opening a step share. */
  function IntoIdle(idleMs: int, anchor: Option<int>, now: int): int {
    idleMs + Min(INT4_MAX - idleMs, ElapsedMs(anchor, now))
  }

  /** What can happen to a step. A form is parked on only while its step is open and not parked already. */
  datatype Action = Elapse(us: nat) | Park | Answer | Stop | Reopen

  /** A step and the clock, with what the row does not record: the time really spent running, the whole
      milliseconds every credit asked for, the microseconds flooring dropped, and the number of credits. */
  datatype Account = Account(step: Step, now: int, workedUs: int, creditedMs: int, droppedUs: int, credits: nat)

  function Opened(now: int): Account {
    Account(Step(now, None, None, 0), now, 0, 0, 0, 0)
  }

  predicate Running(s: Step) {
    s.endedAt.None? && s.waitingStartedAt.None?
  }

  /** Book one credit from `anchor` to now. */
  function Credited(a: Account, anchor: Option<int>): Account {
    if anchor.None? then a.(step := a.step.(idleMs := IntoIdle(a.step.idleMs, None, a.now)))
    else a.(step := a.step.(idleMs := IntoIdle(a.step.idleMs, anchor, a.now)),
            creditedMs := a.creditedMs + ElapsedMs(anchor, a.now),
            droppedUs := a.droppedUs + (a.now - anchor.value) % 1000,
            credits := a.credits + 1)
  }

  /** One action. Re-opening keeps `started_at`; answering and re-opening credit nothing when there is no
      wait or no close to credit. */
  function Act(a: Account, action: Action): Account {
    match action
    case Elapse(us) =>
      a.(now := a.now + us, workedUs := a.workedUs + if Running(a.step) then us else 0)
    case Park =>
      if Running(a.step) then a.(step := a.step.(waitingStartedAt := Some(a.now))) else a
    case Answer =>
      var c := Credited(a, a.step.waitingStartedAt);
      c.(step := c.step.(waitingStartedAt := None))
    case Stop =>
      if a.step.endedAt.Some? then a
      else
        var c := Credited(a, a.step.waitingStartedAt);
        c.(step := c.step.(waitingStartedAt := None, endedAt := Some(a.now)))
    case Reopen =>
      var c := Credited(a, a.step.endedAt);
      c.(step := c.step.(endedAt := None))
  }

  function Run(a: Account, actions: seq<Action>): Account {
    if |actions| == 0 then a else Act(Run(a, actions[..|actions| - 1]), actions[|actions| - 1])
  }

  /** The wait or gap that is open now and no credit covers yet. */
  function OpenUs(a: Account): int {
    (if a.step.endedAt.Some? then a.now - a.step.endedAt.value else 0) +
    (if a.step.waitingStartedAt.Some? then a.now - a.step.waitingStartedAt.value else 0)
  }

  /** What the reader bills as work: the span, less the recorded idle time, less what is open. */
  function BilledUs(a: Account): int {
    a.now - a.step.startedAt - 1000 * a.step.idleMs - OpenUs(a)
  }

  ghost predicate Balanced(a: Account) {
    && !(a.step.endedAt.Some? && a.step.waitingStartedAt.Some?)
    && (a.step.endedAt.Some? ==> a.step.startedAt <= a.step.endedAt.value <= a.now)
    && (a.step.waitingStartedAt.Some? ==> a.step.startedAt <= a.step.waitingStartedAt.value <= a.now)
    && a.step.idleMs == Min(INT4_MAX, a.creditedMs) && 0 <= a.creditedMs && 0 <= a.workedUs
    && 0 <= a.droppedUs <= 999 * a.credits
    && a.now - a.step.startedAt - OpenUs(a) == a.workedUs + 1000 * a.creditedMs + a.droppedUs
  }

  /** One credit covers its wait or gap, to the microseconds the floor drops, and saturates. */
  lemma CreditCovers(a: Account, anchor: Option<int>)
    requires a.step.idleMs == Min(INT4_MAX, a.creditedMs) && 0 <= a.creditedMs
    requires 0 <= a.droppedUs <= 999 * a.credits && (anchor.Some? ==> anchor.value <= a.now)
    ensures var c := Credited(a, anchor);
            && c == a.(step := a.step.(idleMs := c.step.idleMs), creditedMs := c.creditedMs,
                       droppedUs := c.droppedUs, credits := c.credits)
            && c.step.idleMs == Min(INT4_MAX, c.creditedMs) && a.step.idleMs <= c.step.idleMs
            && a.creditedMs <= c.creditedMs && 0 <= c.droppedUs <= 999 * c.credits
            && 1000 * (c.creditedMs - a.creditedMs) + c.droppedUs - a.droppedUs ==
                 (if anchor.Some? then a.now - anchor.value else 0)
  {
  }

  lemma ActKeepsTheBalance(a: Account, action: Action)
    requires Balanced(a)
    ensures Balanced(Act(a, action))
    ensures a.step.idleMs <= Act(a, action).step.idleMs <= INT4_MAX
  {
    hide Credited;
    match action
    case Elapse(_) =>
    case Park =>
    case Answer => CreditCovers(a, a.step.waitingStartedAt);
    case Stop => CreditCovers(a, a.step.waitingStartedAt);
    case Reopen => CreditCovers(a, a.step.endedAt);
  }

  // ---- What the list of actions alone says ----

  /** Where the actions leave the step: under way, or parked or closed since a moment. */
  datatype Phase = Going | Parked(since: int) | Closed(since: int)

  function Clock(now: int, actions: seq<Action>): int {
    if |actions| == 0 then now
    else
      var last := actions[|actions| - 1];
      Clock(now, actions[..|actions| - 1]) + if last.Elapse? then last.us else 0
  }

  /** A form is parked on and answered, a step is stopped, also while parked, and re-opened. */
  function PhaseOf(now: int, actions: seq<Action>): Phase {
    if |actions| == 0 then Going
    else
      var before := PhaseOf(now, actions[..|actions| - 1]);
      match actions[|actions| - 1]
      case Park => if before.Going? then Parked(Clock(now, actions)) else before
      case Answer => if before.Parked? then Going else before
      case Stop => if before.Closed? then before else Closed(Clock(now, actions))
      case Reopen => if before.Closed? then Going else before
      case Elapse(_) => before
  }

  /** The time that passed while the step was under way. */
  function WorkedUs(now: int, actions: seq<Action>): int {
    if |actions| == 0 then 0
    else
      var before, last := actions[..|actions| - 1], actions[|actions| - 1];
      WorkedUs(now, before) + if last.Elapse? && PhaseOf(now, before).Going? then last.us else 0
  }

  /** The length of the wait or gap the last action ended, if it ended one. */
  function Ended(now: int, actions: seq<Action>): Option<int>
    requires |actions| > 0
  {
    var before := actions[..|actions| - 1];
    var was := PhaseOf(now, before);
    if was.Going? || was == PhaseOf(now, actions) then None else Some(Clock(now, before) - was.since)
  }

  /** How many waits and gaps ended. */
  function PausesEnded(now: int, actions: seq<Action>): nat {
    if |actions| == 0 then 0
    else PausesEnded(now, actions[..|actions| - 1]) + if Ended(now, actions).Some? then 1 else 0
  }

  /** Their lengths, in whole milliseconds each. */
  function PausedMs(now: int, actions: seq<Action>): int {
    if |actions| == 0 then 0
    else
      var ended := Ended(now, actions);
      PausedMs(now, actions[..|actions| - 1]) + if ended.Some? then ended.value / 1000 else 0
  }

  /** The markers are set exactly while the actions say parked or closed, and since when. */
  ghost predicate Follows(a: Account, now: int, phase: Phase) {
    && a.step.startedAt == now
    && a.step.waitingStartedAt == (if phase.Parked? then Some(phase.since) else None)
    && a.step.endedAt == (if phase.Closed? then Some(phase.since) else None)
    && (!phase.Going? ==> now <= phase.since <= a.now)
  }

  /** The row and the books say what the list of actions does. */
  lemma {:induction false} TheRowFollowsTheActions(now: int, actions: seq<Action>)
    ensures var a := Run(Opened(now), actions);
            && a.now == Clock(now, actions) && Follows(a, now, PhaseOf(now, actions))
            && a.workedUs == WorkedUs(now, actions)
            && a.creditedMs == PausedMs(now, actions)
            && a.credits == PausesEnded(now, actions)
  {
    hide IntoIdle, Min;
    if |actions| > 0 {
      var before := actions[..|actions| - 1];
      TheRowFollowsTheActions(now, before);
      ClockRuns(now, before);
    }
  }

  lemma {:induction false} ClockRuns(now: int, actions: seq<Action>)
    ensures now <= Clock(now, actions)
  {
    if |actions| > 0 { ClockRuns(now, actions[..|actions| - 1]); }
  }

  /** The row and the bill, in terms of the list of actions alone: the idle time is that of the waits and gaps that
      ended, up to what a 32-bit column holds, and what is billed is the time under way, exactly as long as that
      holds it, but for less than a millisecond of each wait and gap. */
  lemma WorkOfTheActions(now: int, actions: seq<Action>)
    ensures var a := Run(Opened(now), actions);
            && a.step.idleMs == Min(2147483647, PausedMs(now, actions))
            && WorkedUs(now, actions) <= BilledUs(a)
            && (BilledUs(a) <= WorkedUs(now, actions) + 999 * PausesEnded(now, actions)
                || PausedMs(now, actions) > 2147483647)
            && (PausedMs(now, actions) > 2147483647 ==> WorkedUs(now, actions) < BilledUs(a))
  {
    RunKeepsTheBalance(now, actions);
    TheRowFollowsTheActions(now, actions);
    WorkIsConserved(now, actions);
  }

  lemma {:induction false} RunKeepsTheBalance(now: int, actions: seq<Action>)
    ensures Balanced(Run(Opened(now), actions))
  {
    if |actions| > 0 {
      RunKeepsTheBalance(now, actions[..|actions| - 1]);
      ActKeepsTheBalance(Run(Opened(now), actions[..|actions| - 1]), actions[|actions| - 1]);
    }
  }

  /** Conservation over every run: what is billed as work is the time really spent running, plus less than
      a millisecond for each credit taken, exactly as long as the clamp has not bound. Past that, the whole
      excess is billed as work. */
  lemma WorkIsConserved(now: int, actions: seq<Action>)
    ensures var a := Run(Opened(now), actions);
            && 0 <= a.droppedUs <= 999 * a.credits
            && (BilledUs(a) == a.workedUs + a.droppedUs <==> a.creditedMs <= INT4_MAX)
            && BilledUs(a) - a.workedUs - a.droppedUs == 1000 * (a.creditedMs - a.step.idleMs)
            && BilledUs(a) >= a.workedUs
  {
    RunKeepsTheBalance(now, actions);
  }

  ghost predicate WholeMs(a: Account, from: int) {
    && (a.now - from) % 1000 == 0 && a.droppedUs == 0
    && (a.step.endedAt.Some? ==> (a.step.endedAt.value - from) % 1000 == 0)
    && (a.step.waitingStartedAt.Some? ==> (a.step.waitingStartedAt.value - from) % 1000 == 0)
  }

  lemma CreditKeepsWholeMs(a: Account, anchor: Option<int>, from: int)
    requires WholeMs(a, from) && (anchor.Some? ==> (anchor.value - from) % 1000 == 0)
    ensures WholeMs(Credited(a, anchor), from)
  {
  }

  lemma ActKeepsWholeMs(a: Account, action: Action, from: int)
    requires WholeMs(a, from) && (action.Elapse? ==> action.us % 1000 == 0)
    ensures WholeMs(Act(a, action), from)
  {
    match action
    case Elapse(us) =>
    case Answer => CreditKeepsWholeMs(a, a.step.waitingStartedAt, from);
    case Stop => CreditKeepsWholeMs(a, a.step.waitingStartedAt, from);
    case Reopen => CreditKeepsWholeMs(a, a.step.endedAt, from);
    case Park =>
  }

  /** Whole milliseconds lose nothing: with every elapse a multiple of 1000 the law is exact. */
  lemma {:induction false} WholeMillisecondsAreExact(now: int, actions: seq<Action>)
    requires forall i :: 0 <= i < |actions| && actions[i].Elapse? ==> actions[i].us % 1000 == 0
    ensures var a := Run(Opened(now), actions);
            && WholeMs(a, now)
            && (BilledUs(a) == a.workedUs <==> a.creditedMs <= INT4_MAX)
  {
    if |actions| > 0 {
      WholeMillisecondsAreExact(now, actions[..|actions| - 1]);
      ActKeepsWholeMs(Run(Opened(now), actions[..|actions| - 1]), actions[|actions| - 1], now);
    }
    WorkIsConserved(now, actions);
  }

  /** Idle never decreases and never leaves the column's range, over any run. */
  lemma {:induction false} IdleOnlyGrows(now: int, actions: seq<Action>, k: nat)
    requires k <= |actions|
    ensures 0 <= Run(Opened(now), actions[..k]).step.idleMs <= Run(Opened(now), actions).step.idleMs <= INT4_MAX
    decreases |actions|
  {
    RunKeepsTheBalance(now, actions[..k]);
    if k == |actions| {
      assert actions[..k] == actions;
    } else {
      var before := actions[..|actions| - 1];
      IdleOnlyGrows(now, before, k);
      assert before[..k] == actions[..k];
      RunKeepsTheBalance(now, before);
      ActKeepsTheBalance(Run(Opened(now), before), actions[|actions| - 1]);
    }
  }

  /** Stopping and re-opening, however long the step stayed closed, adds nothing to the bill but what the
      floor drops, provided the clamp does not bind. */
  lemma ReopeningBillsNoGap(now: int, actions: seq<Action>, gap: nat)
    ensures var a := Run(Opened(now), actions);
            var b := Run(Opened(now), actions + [Stop, Elapse(gap), Reopen]);
            b.workedUs == a.workedUs &&
            (b.creditedMs <= INT4_MAX ==> BilledUs(b) == a.workedUs + b.droppedUs)
  {
    var more := actions + [Stop, Elapse(gap), Reopen];
    assert more[..|more| - 1] == actions + [Stop, Elapse(gap)];
    assert (actions + [Stop, Elapse(gap)])[..|actions| + 1] == actions + [Stop];
    assert (actions + [Stop])[..|actions|] == actions;
    var a := Run(Opened(now), actions);
    var stopped := Act(a, Stop);
    assert Run(Opened(now), actions + [Stop]) == stopped;
    assert Run(Opened(now), actions + [Stop, Elapse(gap)]) == Act(stopped, Elapse(gap));
    assert Run(Opened(now), more) == Act(Act(stopped, Elapse(gap)), Reopen);
    WorkIsConserved(now, more);
  }
}
