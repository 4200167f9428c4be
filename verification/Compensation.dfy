/**
  The pause and stop commands and the interval loop around them: every container an action succeeded on
  gets exactly one compensating call before the tick returns, whatever fails and however the wait ends,
  and what that leaves of every container is given exactly.
 */
module Compensation {
  import opened Prelude
  import opened Ticks
  import opened Cancellation

  /** The daemon, the calls made to it, the fault around each call, and when the run is cancelled. */
  class Runtime {
    var world: World
    var log: seq<Event>
    const faults: nat -> Fault
    const cancelAt: Deadline

    constructor (world: World, faults: nat -> Fault, cancelAt: Deadline)
      ensures this.world == world && log == [] && this.faults == faults && this.cancelAt == cancelAt
    {
      this.world, this.log, this.faults, this.cancelAt := world, [], faults, cancelAt;
    }

    /** The log explains how the world came about from `w0`. */
    ghost predicate Explains(w0: World)
      reads this
    {
      world == Replay(w0, log) && Honest(w0, log)
    }

    /** One call under a context that is done from call number `end` on. */
    method Call(op: Op, id: string, end: Deadline, ghost w0: World) returns (ok: bool)
      requires Explains(w0)
      modifies this
      ensures Explains(w0)
      ensures log == old(log) + [Event(op, id, FaultUnder(faults, end, |old(log)|), ok)]
    {
      hide Honest, Replay, After, Takes;
      var fault := FaultUnder(faults, end, |log|);
      ok := Takes(world, op, id).Some? && fault == NoFault;
      LogGrows(w0, log, Event(op, id, fault, ok));
      world := After(world, op, id, fault);
      log := log + [Event(op, id, fault, ok)];
    }
  }

  // ---------- one tick ----------

  predicate AnyFailed(log: seq<Event>) {
    exists i | 0 <= i < |log| :: !log[i].ok
  }

  lemma AnyFailedAppend(a: seq<Event>, b: seq<Event>)
    ensures AnyFailed(a + b) <==> AnyFailed(a) || AnyFailed(b)
  {
    assert forall i | 0 <= i < |a| :: (a + b)[i] == a[i];
    assert forall i | 0 <= i < |b| :: (a + b)[|a| + i] == b[i];
    if AnyFailed(a + b) {
      var i :| 0 <= i < |a + b| && !(a + b)[i].ok;
      assert if i < |a| then !a[i].ok else !b[i - |a|].ok;
    }
  }

  /** The acting part of a tick after `i` calls, `n` of which succeeded. */
  predicate Acting(c: Command, targets: seq<string>, i: nat, n: nat, log: seq<Event>, failed: bool) {
    && n <= i <= |targets| && |log| == i && i == (if failed then n + 1 else n)
    && (forall k | 0 <= k < i :: log[k].op == Forward(c) && log[k].id == targets[k] && (log[k].ok <==> k < n))
  }

  /** The compensating part after `j` calls. */
  predicate Undoing(c: Command, acted: seq<string>, j: nat, log: seq<Event>) {
    && j <= |acted| && |log| == j
    && forall k | 0 <= k < j :: log[k].op == Undo(c) && log[k].id == acted[k]
  }

  /** The serial loop over the targets, remembering those on which the action succeeded. */
  method Act(rt: Runtime, c: Command, targets: seq<string>, ghost w0: World)
    returns (failed: bool, acted: seq<string>, ghost part: seq<Event>)
    requires rt.Explains(w0)
    modifies rt
    ensures rt.Explains(w0) && rt.log == old(rt.log) + part
    ensures |acted| <= |targets| && acted == targets[..|acted|]
    ensures Acting(c, targets, Attempts(targets, |acted|), |acted|, part, failed)
    ensures failed <==> |acted| < |targets|
    ensures PartUnder(rt.faults, rt.cancelAt, |old(rt.log)|, part)
  {
    hide Honest, Replay;
    failed, acted, part := false, [], [];
    var i := 0;
    while i < |targets| && !failed
      invariant |acted| <= |targets| && acted == targets[..|acted|]
      invariant Acting(c, targets, i, |acted|, part, failed)
      invariant rt.Explains(w0) && rt.log == old(rt.log) + part
      invariant PartUnder(rt.faults, rt.cancelAt, |old(rt.log)|, part)
    {
      ghost var fault := FaultUnder(rt.faults, rt.cancelAt, |rt.log|);
      var ok := rt.Call(Forward(c), targets[i], rt.cancelAt, w0);
      part := part + [Event(Forward(c), targets[i], fault, ok)];
      if ok {
        acted := acted + [targets[i]];
      } else {
        failed := true;
      }
      i := i + 1;
    }
  }

  /** The loop over the successes; an error is remembered and the loop goes on. */
  method Compensate(rt: Runtime, c: Command, acted: seq<string>, end: Deadline, ghost w0: World)
    returns (failed: bool, ghost part: seq<Event>)
    requires rt.Explains(w0)
    modifies rt
    ensures rt.Explains(w0) && rt.log == old(rt.log) + part
    ensures Undoing(c, acted, |acted|, part)
    ensures failed <==> AnyFailed(part)
    ensures PartUnder(rt.faults, end, |old(rt.log)|, part)
  {
    hide Honest, Replay, AnyFailed;
    failed, part := false, [];
    NothingFailed();
    for j := 0 to |acted|
      invariant Undoing(c, acted, j, part)
      invariant failed <==> AnyFailed(part)
      invariant rt.Explains(w0) && rt.log == old(rt.log) + part
      invariant PartUnder(rt.faults, end, |old(rt.log)|, part)
    {
      ghost var fault := FaultUnder(rt.faults, end, |rt.log|);
      var ok := rt.Call(Undo(c), acted[j], end, w0);
      ghost var e := Event(Undo(c), acted[j], fault, ok);
      AnyFailedAppend(part, [e]);
      OneFailed(e);
      part := part + [e];
      failed := failed || !ok;
    }
  }

  lemma NothingFailed()
    ensures !AnyFailed([])
  {
  }

  lemma OneFailed(e: Event)
    ensures AnyFailed([e]) <==> !e.ok
  {
    assert [e][0] == e;
  }

  /** The two parts make a tick. */
  lemma PartsMakeTick(c: Command, targets: seq<string>, n: nat, a: seq<Event>, failed: bool, b: seq<Event>)
    requires n <= |targets| && Acting(c, targets, Attempts(targets, n), n, a, failed) && (failed <==> n < |targets|)
    requires if c.PauseCommand? || c.restart then Undoing(c, targets[..n], n, b) else b == []
    ensures IsTick(c, targets, n, a + b) && |a| == Attempts(targets, n)
    ensures AnyFailed(a + b) <==> failed || AnyFailed(b)
  {
    AnyFailedAppend(a, b);
    if failed {
      assert !a[n].ok;
    }
  }

  lemma UndoingNothing(c: Command)
    ensures Undoing(c, [], 0, [])
  {
  }

  lemma PartsMakeContexts(faults: nat -> Fault, cancelAt: Deadline, wake: Wake, first: nat, a: seq<Event>, b: seq<Event>)
    requires PartUnder(faults, cancelAt, first, a)
    requires PartUnder(faults, UndoDeadline(cancelAt, wake, first + |a|), first + |a|, b)
    ensures TickUnder(faults, cancelAt, wake, first, |a|, a + b)
  {
    hide PartUnder, UndoDeadline;
    assert (a + b)[..|a|] == a && (a + b)[|a|..] == b;
  }

  /** What one tick meets: what is listed, if the listing succeeds, how its wait ends, and how the wait after it does. */
  datatype Round = Round(listing: Option<seq<string>>, wake: Wake, cancelled: bool)

  /**
    One run of the command: the actions, the wait, which the timer or the cancellation ends, and the undo
    calls under the context of that branch. A failed listing makes no call.
   */
  method RunTick(rt: Runtime, c: Command, round: Round, ghost w0: World)
    returns (failed: bool, ghost n: nat, ghost tick: seq<Event>)
    requires rt.Explains(w0)
    modifies rt
    ensures rt.Explains(w0) && rt.log == old(rt.log) + tick
    ensures RoundMatches(c, round, n, tick)
    ensures RoundUnder(rt.faults, rt.cancelAt, |old(rt.log)|, round, n, tick)
    ensures failed <==> RoundFailed(round, tick)
  {
    hide Honest, Replay, Acting, Undoing, AnyFailed, IsTick, PartUnder, TickUnder;
    NothingFailed();
    if round.listing.None? {
      return true, 0, [];
    }
    var acted;
    ghost var acting, undoing := [], [];
    failed, acted, acting := Act(rt, c, round.listing.value, w0);
    n := |acted|;
    ghost var actFailed := failed;
    var end := if ByCancel(rt.cancelAt, round.wake, |rt.log|) then
                 if round.wake.allowed.Some? then Some(|rt.log| + round.wake.allowed.value) else None
               else rt.cancelAt;
    if |acted| > 0 && (c.PauseCommand? || c.restart) {
      var undoFailed;
      undoFailed, undoing := Compensate(rt, c, acted, end, w0);
      failed := failed || undoFailed;
    } else {
      UndoingNothing(c);
      NothingUnder(rt.faults, end, |rt.log|);
    }
    PartsMakeTick(c, round.listing.value, n, acting, actFailed, undoing);
    PartsMakeContexts(rt.faults, rt.cancelAt, round.wake, |old(rt.log)|, acting, undoing);
    tick := acting + undoing;
    assert rt.log == old(rt.log) + tick;
  }

  lemma NothingUnder(faults: nat -> Fault, end: Deadline, first: nat)
    ensures PartUnder(faults, end, first, [])
  {
  }

  // ---------- the interval loop ----------

  datatype Params = Params(interval: nat, skipErrors: bool)

  datatype LoopEnd = Done | Failed | StillRunning

  function Concat(ticks: seq<seq<Event>>): seq<Event> {
    if ticks == [] then [] else Concat(ticks[..|ticks| - 1]) + ticks[|ticks| - 1]
  }

  /** The calls of a round are a tick on what was listed; a failed listing makes none. */
  predicate RoundMatches(c: Command, round: Round, n: nat, tick: seq<Event>) {
    if round.listing.None? then tick == [] else IsTick(c, round.listing.value, n, tick)
  }

  /** They were made under the contexts of their branch. */
  predicate RoundUnder(faults: nat -> Fault, cancelAt: Deadline, first: nat, round: Round, n: nat, tick: seq<Event>) {
    round.listing.Some? ==> TickUnder(faults, cancelAt, round.wake, first, Attempts(round.listing.value, n), tick)
  }

  predicate RoundFailed(round: Round, tick: seq<Event>) {
    round.listing.None? || AnyFailed(tick)
  }

  predicate RoundsMatch(c: Command, rounds: seq<Round>, ns: seq<nat>, ticks: seq<seq<Event>>) {
    && |ns| == |ticks| <= |rounds|
    && forall k | 0 <= k < |ticks| :: RoundMatches(c, rounds[k], ns[k], ticks[k])
  }

  predicate RoundsUnder(faults: nat -> Fault, cancelAt: Deadline, first: nat, rounds: seq<Round>, ns: seq<nat>,
                        ticks: seq<seq<Event>>)
  {
    && |ns| == |ticks| <= |rounds|
    && forall k | 0 <= k < |ticks| :: RoundUnder(faults, cancelAt, first + |Concat(ticks[..k])|, rounds[k], ns[k], ticks[k])
  }

  lemma OneMoreTick(ticks: seq<seq<Event>>, tick: seq<Event>)
    ensures Concat(ticks + [tick]) == Concat(ticks) + tick && Concat([]) == []
  {
    assert (ticks + [tick])[..|ticks|] == ticks;
  }

  /** The loop goes on after a round: no cancellation, and no error unless errors are skipped. */
  predicate GoesOn(params: Params, round: Round, tick: seq<Event>) {
    params.interval != 0 && !round.cancelled && (RoundFailed(round, tick) ==> params.skipErrors)
  }

  /** The loop went on after each of the first `k` rounds. */
  predicate WentOn(params: Params, rounds: seq<Round>, ticks: seq<seq<Event>>, k: nat) {
    && k <= |ticks| <= |rounds|
    && forall j | 0 <= j < k :: GoesOn(params, rounds[j], ticks[j])
  }

  /** It ends on an error that is not skipped, on a cancellation, or after its only round, and goes on otherwise. */
  predicate EndedAs(end: LoopEnd, params: Params, rounds: seq<Round>, ticks: seq<seq<Event>>) {
    if end.StillRunning? then |ticks| == |rounds| && WentOn(params, rounds, ticks, |ticks|)
    else
      && ticks != [] && WentOn(params, rounds, ticks, |ticks| - 1)
      && var round, failed := rounds[|ticks| - 1], RoundFailed(rounds[|ticks| - 1], ticks[|ticks| - 1]);
         if end.Failed? then failed && !params.skipErrors
         else (round.cancelled || params.interval == 0) && (failed ==> params.skipErrors)
  }

  lemma NoRoundYet(c: Command, params: Params, rounds: seq<Round>, faults: nat -> Fault, cancelAt: Deadline, first: nat)
    ensures RoundsMatch(c, rounds, [], []) && WentOn(params, rounds, [], 0)
    ensures RoundsUnder(faults, cancelAt, first, rounds, [], [])
  {
  }

  lemma OneMoreRound(c: Command, params: Params, rounds: seq<Round>, ns: seq<nat>, ticks: seq<seq<Event>>,
                     n: nat, tick: seq<Event>)
    requires RoundsMatch(c, rounds, ns, ticks) && WentOn(params, rounds, ticks, |ticks|) && |ticks| < |rounds|
    requires RoundMatches(c, rounds[|ticks|], n, tick)
    ensures RoundsMatch(c, rounds, ns + [n], ticks + [tick])
    ensures WentOn(params, rounds, ticks + [tick], |ticks|)
    ensures GoesOn(params, rounds[|ticks|], tick) ==> WentOn(params, rounds, ticks + [tick], |ticks| + 1)
  {
    hide RoundMatches, GoesOn;
  }

  lemma OneMoreUnder(faults: nat -> Fault, cancelAt: Deadline, first: nat, rounds: seq<Round>, ns: seq<nat>,
                     ticks: seq<seq<Event>>, n: nat, tick: seq<Event>)
    requires RoundsUnder(faults, cancelAt, first, rounds, ns, ticks) && |ticks| < |rounds|
    requires RoundUnder(faults, cancelAt, first + |Concat(ticks)|, rounds[|ticks|], n, tick)
    ensures RoundsUnder(faults, cancelAt, first, rounds, ns + [n], ticks + [tick])
  {
    hide RoundUnder, Concat;
    var more := ticks + [tick];
    forall k | 0 <= k < |more|
      ensures RoundUnder(faults, cancelAt, first + |Concat(more[..k])|, rounds[k], (ns + [n])[k], more[k])
    {
      assert more[..k] == if k < |ticks| then ticks[..k] else ticks;
    }
  }

  /**
    Run the command, wait for the interval or a cancellation, and again. The loop may go on for ever;
    it is followed for as many rounds as are given.
   */
  method RunChaosCommand(rt: Runtime, c: Command, params: Params, rounds: seq<Round>, ghost w0: World)
    returns (end: LoopEnd, ghost ns: seq<nat>, ghost ticks: seq<seq<Event>>)
    requires rt.Explains(w0)
    modifies rt
    ensures rt.Explains(w0) && rt.log == old(rt.log) + Concat(ticks)
    ensures RoundsMatch(c, rounds, ns, ticks)
    ensures RoundsUnder(rt.faults, rt.cancelAt, |old(rt.log)|, rounds, ns, ticks)
    ensures EndedAs(end, params, rounds, ticks)
    ensures RunLeaves(c, rounds, ns, ticks, old(rt.world), rt.world)
    ensures RunKeepsPromise(c, rounds, ns, ticks, old(rt.world), rt.world)
  {
    hide Honest, Replay, RoundFailed, RunLeaves, RunKeepsPromise, RoundsMatch, RoundsUnder, RoundMatches, RoundUnder, Concat, WentOn;
    NoRoundYet(c, params, rounds, rt.faults, rt.cancelAt, |rt.log|);
    ticks, ns := [], [];
    OneMoreTick([], []);
    assert rt.log == rt.log + Concat(ticks);
    RunOutcomeAfter(w0, rt.log, rt.log, c, rounds, ns, ticks);
    for k := 0 to |rounds|
      invariant |ticks| == |ns| == k
      invariant rt.Explains(w0) && rt.log == old(rt.log) + Concat(ticks)
      invariant RoundsMatch(c, rounds, ns, ticks)
      invariant RoundsUnder(rt.faults, rt.cancelAt, |old(rt.log)|, rounds, ns, ticks)
      invariant WentOn(params, rounds, ticks, k)
      invariant RunLeaves(c, rounds, ns, ticks, old(rt.world), rt.world)
      invariant RunKeepsPromise(c, rounds, ns, ticks, old(rt.world), rt.world)
    {
      var failed;
      ghost var n, tick;
      failed, n, tick := RunTick(rt, c, rounds[k], w0);
      OneMoreTick(ticks, tick);
      OneMoreRound(c, params, rounds, ns, ticks, n, tick);
      OneMoreUnder(rt.faults, rt.cancelAt, |old(rt.log)|, rounds, ns, ticks, n, tick);
      ticks, ns := ticks + [tick], ns + [n];
      assert rt.log == old(rt.log) + Concat(ticks);
      RunOutcomeAfter(w0, old(rt.log), rt.log, c, rounds, ns, ticks);
      if failed && !params.skipErrors {
        return Failed, ns, ticks;
      }
      if rounds[k].cancelled {
        return Done, ns, ticks;
      }
      if params.interval == 0 {
        return Done, ns, ticks;
      }
    }
    end := StillRunning;
  }

  // ---------- what a run leaves ----------

  /** Every tick of the run spares the container. */
  predicate RunSpares(rounds: seq<Round>, ns: seq<nat>, ticks: seq<seq<Event>>, id: string) {
    && |ns| == |ticks| <= |rounds|
    && forall k | 0 <= k < |ticks| && rounds[k].listing.Some? :: TickSpares(rounds[k].listing.value, ns[k], ticks[k], id)
  }

  /** A run leaves paused or stopped exactly the running containers some tick does not spare. */
  ghost predicate RunLeaves(c: Command, rounds: seq<Round>, ns: seq<nat>, ticks: seq<seq<Event>>, before: World, after: World) {
    forall id :: Lookup(after, id) == Outcome(c, Lookup(before, id), RunSpares(rounds, ns, ticks, id))
  }

  lemma SparesOneMore(rounds: seq<Round>, ns: seq<nat>, ticks: seq<seq<Event>>, id: string)
    requires |ns| == |ticks| <= |rounds| && ticks != []
    ensures var k := |ticks| - 1;
      RunSpares(rounds, ns, ticks, id)
      <==> RunSpares(rounds, ns[..k], ticks[..k], id)
           && (rounds[k].listing.Some? ==> TickSpares(rounds[k].listing.value, ns[k], ticks[k], id))
  {
    hide TickSpares;
    var k := |ticks| - 1;
    forall j | 0 <= j < k ensures ticks[..k][j] == ticks[j] && ns[..k][j] == ns[j] {
    }
  }

  /**
    Over a whole interval run: a container that was running is left paused or stopped exactly if some tick
    does not spare it, and every other container is as it was when the loop began.
   */
  lemma {:induction false} RunOutcome(w: World, c: Command, rounds: seq<Round>, ns: seq<nat>,
                                      ticks: seq<seq<Event>>, id: string)
    requires RoundsMatch(c, rounds, ns, ticks) && Honest(w, Concat(ticks))
    ensures Lookup(Replay(w, Concat(ticks)), id) == Outcome(c, Lookup(w, id), RunSpares(rounds, ns, ticks, id))
  {
    hide Honest, Replay, Lookup, IsTick, TickSpares, RunSpares;
    if ticks != [] {
      var k := |ticks| - 1;
      var before := Concat(ticks[..k]);
      HonestSuffix(w, before, ticks[k]);
      ReplayAppend(w, before, ticks[k]);
      RunOutcome(w, c, rounds, ns[..k], ticks[..k], id);
      SparesOneMore(rounds, ns, ticks, id);
      if rounds[k].listing.Some? {
        TickOutcome(Replay(w, before), c, rounds[k].listing.value, ns[k], ticks[k], id);
      } else {
        ReplayNothing(Replay(w, before));
      }
    } else {
      ReplayNothing(w);
      NothingSpared(rounds, id);
    }
  }

  lemma NothingSpared(rounds: seq<Round>, id: string)
    ensures RunSpares(rounds, [], [], id)
  {
  }

  /**
    What a command promises. For a pause, and for a stop with a restart: if every call succeeds, every
    container is at the end what it was, so what was running is running. For a stop without a restart:
    nothing is ever started, and every container a tick stopped is exited at the end.
   */
  ghost predicate RunKeepsPromise(c: Command, rounds: seq<Round>, ns: seq<nat>, ticks: seq<seq<Event>>,
                                  before: World, after: World)
  {
    && |ns| == |ticks| <= |rounds|
    && match c
       case StopCommand(false) => (
         && (forall k, i | 0 <= k < |ticks| && 0 <= i < |ticks[k]| :: ticks[k][i].op == Stop)
         && (forall k, id | 0 <= k < |ticks| && rounds[k].listing.Some? && StoppedIn(rounds[k].listing.value, ns[k], id) ::
               Lookup(after, id) == Some(Exited)))
       case _ =>
         (forall k, i | 0 <= k < |ticks| && 0 <= i < |ticks[k]| :: ticks[k][i].ok) ==>
           forall id :: Lookup(after, id) == Lookup(before, id)
  }

  predicate StoppedIn(listing: seq<string>, n: nat, id: string) {
    n <= |listing| && id in listing[..n]
  }

  lemma RunPromiseKept(w: World, c: Command, rounds: seq<Round>, ns: seq<nat>, ticks: seq<seq<Event>>)
    requires RoundsMatch(c, rounds, ns, ticks) && Honest(w, Concat(ticks))
    ensures RunKeepsPromise(c, rounds, ns, ticks, w, Replay(w, Concat(ticks)))
  {
    hide Honest, Replay, Lookup, Concat;
    if c == StopCommand(false) {
      forall k, i | 0 <= k < |ticks| && 0 <= i < |ticks[k]| ensures ticks[k][i].op == Stop {
        assert RoundMatches(c, rounds[k], ns[k], ticks[k]);
      }
      forall k, id | 0 <= k < |ticks| && rounds[k].listing.Some? && StoppedIn(rounds[k].listing.value, ns[k], id)
        ensures Lookup(Replay(w, Concat(ticks)), id) == Some(Exited)
      {
        StoppedStays(w, rounds, ns, ticks, k, id);
      }
    } else if forall k, i | 0 <= k < |ticks| && 0 <= i < |ticks[k]| :: ticks[k][i].ok {
      forall id ensures Lookup(Replay(w, Concat(ticks)), id) == Lookup(w, id) {
        GoodRunRestores(w, c, rounds, ns, ticks, id);
      }
    }
  }

  lemma {:induction false} GoodRunRestores(w: World, c: Command, rounds: seq<Round>, ns: seq<nat>,
                                           ticks: seq<seq<Event>>, id: string)
    requires RoundsMatch(c, rounds, ns, ticks) && Honest(w, Concat(ticks)) && c in {PauseCommand, StopCommand(true)}
    requires forall k, i | 0 <= k < |ticks| && 0 <= i < |ticks[k]| :: ticks[k][i].ok
    ensures Lookup(Replay(w, Concat(ticks)), id) == Lookup(w, id)
  {
    hide Honest, Replay, Lookup, IsTick;
    if ticks != [] {
      var k := |ticks| - 1;
      var before := Concat(ticks[..k]);
      HonestSuffix(w, before, ticks[k]);
      ReplayAppend(w, before, ticks[k]);
      GoodRunRestores(w, c, rounds, ns[..k], ticks[..k], id);
      assert RoundMatches(c, rounds[k], ns[k], ticks[k]);
      if rounds[k].listing.Some? {
        GoodTickRestores(Replay(w, before), c, rounds[k].listing.value, ns[k], ticks[k], id);
      } else {
        ReplayNothing(Replay(w, before));
      }
    } else {
      ReplayNothing(w);
    }
  }

  lemma {:induction false} StoppedStays(w: World, rounds: seq<Round>, ns: seq<nat>, ticks: seq<seq<Event>>, k: nat, id: string)
    requires RoundsMatch(StopCommand(false), rounds, ns, ticks) && Honest(w, Concat(ticks))
    requires k < |ticks| && rounds[k].listing.Some? && StoppedIn(rounds[k].listing.value, ns[k], id)
    ensures Lookup(Replay(w, Concat(ticks)), id) == Some(Exited)
  {
    hide Honest, Replay, Lookup, IsTick;
    var last := |ticks| - 1;
    var before := Concat(ticks[..last]);
    HonestSuffix(w, before, ticks[last]);
    ReplayAppend(w, before, ticks[last]);
    assert RoundMatches(StopCommand(false), rounds[last], ns[last], ticks[last]);
    if k < last {
      StoppedStays(w, rounds, ns[..last], ticks[..last], k, id);
    }
    if rounds[last].listing.Some? {
      StopTickStays(Replay(w, before), rounds[last].listing.value, ns[last], ticks[last], id);
    } else {
      ReplayNothing(Replay(w, before));
    }
  }

  /** The same after any earlier calls. */
  lemma RunOutcomeAfter(w0: World, log0: seq<Event>, log: seq<Event>, c: Command, rounds: seq<Round>, ns: seq<nat>,
                        ticks: seq<seq<Event>>)
    requires RoundsMatch(c, rounds, ns, ticks) && Honest(w0, log) && log == log0 + Concat(ticks)
    ensures RunLeaves(c, rounds, ns, ticks, Replay(w0, log0), Replay(w0, log))
    ensures RunKeepsPromise(c, rounds, ns, ticks, Replay(w0, log0), Replay(w0, log))
  {
    hide Honest, Replay, RoundsMatch, Lookup, Concat, RunSpares, RunKeepsPromise;
    HonestSuffix(w0, log0, Concat(ticks));
    ReplayAppend(w0, log0, Concat(ticks));
    forall id
      ensures Lookup(Replay(w0, log), id) == Outcome(c, Lookup(Replay(w0, log0), id), RunSpares(rounds, ns, ticks, id))
    {
      RunOutcome(Replay(w0, log0), c, rounds, ns, ticks, id);
    }
    RunPromiseKept(Replay(w0, log0), c, rounds, ns, ticks);
  }
}
