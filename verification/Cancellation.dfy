/**
  What a cancellation does to the compensation of a tick. Calls are numbered over the whole run; a context
  that is done makes every later call fail before it is sent. The actions run under the cancellable context
  of the run. When the wait after them ends by the timer the undo calls run under it too; when it ends by
  the cancellation they run under a context of their own, which only the duration limits.
 */
module Cancellation {
  import opened Prelude
  import opened Ticks

  /** The number of the first call under a context that finds it done, if there will be one. */
  type Deadline = Option<nat>

  predicate DoneBy(end: Deadline, i: nat) {
    end.Some? && end.value <= i
  }

  /**
    The end of a wait: which of a timer and a cancellation that are both ready is taken, and how many undo
    calls the duration leaves time for if it is the cancellation.
   */
  datatype Wake = Wake(timerFirst: bool, allowed: Option<nat>)

  predicate ByCancel(cancelAt: Deadline, wake: Wake, at: nat) {
    DoneBy(cancelAt, at) && !wake.timerFirst
  }

  /** The deadline of the undo calls, of which number `at` is the first. */
  function UndoDeadline(cancelAt: Deadline, wake: Wake, at: nat): Deadline {
    if !ByCancel(cancelAt, wake, at) then cancelAt
    else if wake.allowed.Some? then Some(at + wake.allowed.value)
    else None
  }

  function FaultUnder(faults: nat -> Fault, end: Deadline, i: nat): Fault {
    if DoneBy(end, i) then Lost else faults(i)
  }

  /** The calls from number `first` on were made under this context. */
  predicate PartUnder(faults: nat -> Fault, end: Deadline, first: nat, part: seq<Event>) {
    forall i | 0 <= i < |part| :: part[i].fault == FaultUnder(faults, end, first + i)
  }

  /** A tick of `m` actions, each call under the context the code gives it. */
  predicate TickUnder(faults: nat -> Fault, cancelAt: Deadline, wake: Wake, first: nat, m: nat, tick: seq<Event>) {
    && m <= |tick|
    && PartUnder(faults, cancelAt, first, tick[..m])
    && PartUnder(faults, UndoDeadline(cancelAt, wake, first + m), first + m, tick[m..])
  }

  /** The undo of the target at `k` finds its context done. */
  predicate UndoLost(cancelAt: Deadline, wake: Wake, at: nat, k: nat) {
    DoneBy(UndoDeadline(cancelAt, wake, at), at + k)
  }

  /** Exactly which undo calls that is, on each branch. */
  lemma UndoLostIff(cancelAt: Deadline, wake: Wake, at: nat, k: nat)
    ensures ByCancel(cancelAt, wake, at) ==>
      (UndoLost(cancelAt, wake, at, k) <==> wake.allowed.Some? && wake.allowed.value <= k)
    ensures !ByCancel(cancelAt, wake, at) ==>
      (UndoLost(cancelAt, wake, at, k) <==> cancelAt.Some? && cancelAt.value <= at + k)
  {
  }

  /**
    When nothing but the cancellation goes wrong: a tick leaves paused or stopped exactly the containers it
    acted on whose undo found its context done, and every other container as it was.
   */
  lemma CancellationOutcome(w: World, c: Command, targets: seq<string>, n: nat, tick: seq<Event>, id: string,
                            cancelAt: Deadline, wake: Wake, first: nat)
    requires IsTick(c, targets, n, tick) && Honest(w, tick)
    requires c in {PauseCommand, StopCommand(true)}
    requires TickUnder(_ => NoFault, cancelAt, wake, first, Attempts(targets, n), tick)
    ensures var k, at := FirstAt(targets, id), first + Attempts(targets, n);
      Lookup(Replay(w, tick), id)
      == if k < n && UndoLost(cancelAt, wake, at, k) then Some(Acted(c)) else Lookup(w, id)
  {
    hide Honest, Replay, Lookup, FirstAt, IsTick;
    TickOutcome(w, c, targets, n, tick, id);
    var k, m := FirstAt(targets, id), Attempts(targets, n);
    TickLength(c, targets, n, tick);
    if k < m {
      ActionOutcome(w, c, targets, n, tick, id, k);
      ReachedAt(c, targets, n, tick, id);
      assert tick[..m][k] == tick[k];
      if k < n {
        assert tick[m..][k] == tick[m + k];
      }
    }
  }

  /** An instance: the pause succeeded, the cancellation comes with the timer, and the unpause is never sent. */
  lemma CancelledUndoStays(w: World, id: string)
    requires Lookup(w, id) == Some(Running)
    ensures var tick := [Event(Pause, id, NoFault, true), Event(Unpause, id, Lost, false)];
      && IsTick(PauseCommand, [id], 1, tick) && Honest(w, tick)
      && TickUnder(_ => NoFault, Some(1), Wake(true, None), 0, 1, tick)
      && Lookup(Replay(w, tick), id) == Some(Paused)
  {
    var pause, unpause := Event(Pause, id, NoFault, true), Event(Unpause, id, Lost, false);
    LogGrows(w, [], pause);
    assert [] + [pause] == [pause];
    LogGrows(w, [pause], unpause);
    assert [pause] + [unpause] == [pause, unpause];
    assert [pause, unpause][..1] == [pause] && [pause, unpause][1..] == [unpause];
  }

  /**
    A cancellation that the wait sees and takes loses no undo unless the duration runs out, while one that
    comes at the first undo call after the timer, or that the wait sees and does not take, loses them all.
   */
  lemma ReadyCancellation(cancelAt: Deadline, wake: Wake, at: nat, k: nat)
    requires DoneBy(cancelAt, at)
    ensures wake.timerFirst ==> UndoLost(cancelAt, wake, at, k)
    ensures !wake.timerFirst && wake.allowed.None? ==> !UndoLost(cancelAt, wake, at, k)
  {
  }
}
