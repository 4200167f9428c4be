/**
  How the Docker adapter stops a container: a signal, a bounded polling of the container's state, then
  SIGKILL and a second polling. Time is counted in milliseconds; calls take any time, sleeps at least
  the time asked for, and a timer that is due is seen by the next select.
 */
module DockerStop {
  const CHECK_INTERVAL: nat := 100

  const DEFAULT_STOP_SIGNAL := "SIGTERM"
  const DEFAULT_KILL_SIGNAL := "SIGKILL"

  datatype Seen = Running | Stopped | InspectFailed

  datatype Call =
    | Kill(signal: string, ok: bool)
    | Inspect(seen: Seen)
    | TimeOver
    | Aborted

  const SAW_STOPPED := Inspect(Stopped)

  function Inspections(log: seq<Call>): nat {
    if log == [] then 0 else Inspections(log[..|log| - 1]) + if log[|log| - 1].Inspect? then 1 else 0
  }

  lemma OneMore(log: seq<Call>, c: Call)
    ensures Inspections(log + [c]) == Inspections(log) + if c.Inspect? then 1 else 0
  {
    assert (log + [c])[..|log|] == log;
  }

  function Seconds(waitTime: int): nat {
    if waitTime > 0 then waitTime else 0
  }

  /**
    One wait: inspections that all saw a running container, and then what ended it. It succeeds exactly
    if it ended by seeing a stopped container, and it inspects at most ten times a second.
   */
  predicate IsWait(waitTime: int, part: seq<Call>, ok: bool) {
    && part != []
    && (forall i :: 0 <= i < |part| - 1 ==> part[i] == Inspect(Running))
    && !part[|part| - 1].Kill? && part[|part| - 1] != Inspect(Running)
    && (ok <==> part[|part| - 1] == SAW_STOPPED)
    && Inspections(part) <= 10 * Seconds(waitTime)
  }

  /** A stop: one signal and one wait; if that wait fails, SIGKILL and a second wait. Refused signals end it. */
  predicate IsStop(signal: string, waitTime: int, part: seq<Call>, ok: bool, first: seq<Call>, second: seq<Call>) {
    || (part == [Kill(signal, false)] && !ok)
    || (part == [Kill(signal, true)] + first && IsWait(waitTime, first, true) && ok)
    || (part == [Kill(signal, true)] + first + [Kill("SIGKILL", false)] && IsWait(waitTime, first, false) && !ok)
    || (part == [Kill(signal, true)] + first + [Kill("SIGKILL", true)] + second
        && IsWait(waitTime, first, false) && IsWait(waitTime, second, ok))
  }

  /** How long a wait takes at least, in milliseconds. */
  function LeastTime(waitTime: int, part: seq<Call>): nat {
    if part != [] && part[|part| - 1] == TimeOver then 1000 * Seconds(waitTime) else 0
  }

  class Engine {
    var log: seq<Call>
    var clock: nat

    method Answer(c: Call)
      modifies this
      ensures log == old(log) + [c] && clock >= old(clock)
    {
      log := log + [c];
      var took: nat :| took >= 0;
      clock := clock + took;
    }

    method Sleep(time: nat)
      modifies this
      ensures log == old(log) && clock >= old(clock) + time
    {
      var took: nat :| took >= time;
      clock := clock + took;
    }

    /** Polls until the container has stopped, the time is over, the context is done or an inspection fails. */
    method WaitForStop(waitTime: int) returns (ok: bool, ghost part: seq<Call>)
      modifies this
      ensures log == old(log) + part && IsWait(waitTime, part, ok)
      ensures clock >= old(clock) + LeastTime(waitTime, part)
    {
      var begin := clock;
      var deadline := begin + 1000 * Seconds(waitTime);
      part := [];
      while true
        invariant clock >= begin && deadline == begin + 1000 * Seconds(waitTime)
        invariant log == old(log) + part
        invariant forall i :: 0 <= i < |part| ==> part[i] == Inspect(Running)
        invariant CHECK_INTERVAL * Inspections(part) <= clock - begin
        invariant Inspections(part) <= 10 * Seconds(waitTime)
        decreases deadline - clock
      {
        var due, done: bool := clock >= deadline, *;
        var answer: Call;
        if due || done {
          answer :| answer in {TimeOver, Aborted} && (answer == TimeOver ==> due) && (answer == Aborted ==> done);
        } else {
          var seen: Seen := *;
          answer := Inspect(seen);
        }
        OneMore(part, answer);
        Answer(answer);
        part := part + [answer];
        if answer != Inspect(Running) {
          return answer == SAW_STOPPED, part;
        }
        Sleep(CHECK_INTERVAL);
      }
    }

    /**
      No error exactly if an inspection saw the container stopped. SIGKILL is sent as an escalation at
      most once, and only after a wait that failed.
     */
    method StopContainer(stopSignal: string, waitTime: int, dryrun: bool)
      returns (ok: bool, ghost part: seq<Call>, ghost first: seq<Call>, ghost second: seq<Call>)
      modifies this
      ensures log == old(log) + part
      ensures clock >= old(clock) + LeastTime(waitTime, first) + LeastTime(waitTime, second)
      ensures dryrun ==> ok && part == []
      ensures !dryrun ==> IsStop(if stopSignal == "" then "SIGTERM" else stopSignal, waitTime, part, ok, first, second)
    {
      hide IsWait;
      part, first, second := [], [], [];
      if dryrun {
        return true, part, first, second;
      }
      var signal := if stopSignal == "" then DEFAULT_STOP_SIGNAL else stopSignal;
      ok := *;
      Answer(Kill(signal, ok));
      part := [Kill(signal, ok)];
      if !ok {
        return;
      }
      ok, first := WaitForStop(waitTime);
      part := part + first;
      if ok {
        return;
      }
      ok := *;
      Answer(Kill(DEFAULT_KILL_SIGNAL, ok));
      part := part + [Kill(DEFAULT_KILL_SIGNAL, ok)];
      if !ok {
        return;
      }
      ok, second := WaitForStop(waitTime);
      part := part + second;
    }
  }

  function Signals(log: seq<Call>): seq<string> {
    if log == [] then []
    else Signals(log[..|log| - 1]) + if log[|log| - 1].Kill? then [log[|log| - 1].signal] else []
  }

  lemma {:induction false} Joined(a: seq<Call>, b: seq<Call>)
    ensures Signals(a + b) == Signals(a) + Signals(b)
    ensures Inspections(a + b) == Inspections(a) + Inspections(b)
  {
    if b == [] {
      assert a + b == a;
    } else {
      var n := |b| - 1;
      Joined(a, b[..n]);
      assert (a + b)[..|a + b| - 1] == a + b[..n];
    }
  }

  lemma {:induction false} WaitSendsNothing(log: seq<Call>)
    requires forall c :: c in log ==> !c.Kill?
    ensures Signals(log) == []
  {
    if log != [] {
      WaitSendsNothing(log[..|log| - 1]);
    }
  }

  predicate NoneRefused(log: seq<Call>) {
    forall c | c in log && c.Kill? :: c.ok
  }

  lemma WaitOutcome(waitTime: int, part: seq<Call>, ok: bool)
    requires IsWait(waitTime, part, ok)
    ensures ok <==> SAW_STOPPED in part
    ensures Signals(part) == [] && NoneRefused(part) && part != [] && !part[|part| - 1].Kill?
    ensures ok ==> waitTime > 0
  {
    WaitSendsNothing(part);
    if ok {
      OneMore(part[..|part| - 1], SAW_STOPPED);
      assert part == part[..|part| - 1] + [SAW_STOPPED];
    }
  }

  lemma KillAlone(signal: string, ok: bool)
    ensures Signals([Kill(signal, ok)]) == [signal] && Inspections([Kill(signal, ok)]) == 0
  {
  }

  /**
    What a caller learns from a stop, read off the list of its calls. An error means that a signal was
    refused, or that both were accepted and the wait after SIGKILL ended without a stopped container.
   */
  lemma StopOutcome(signal: string, waitTime: int, part: seq<Call>, ok: bool, first: seq<Call>, second: seq<Call>)
    requires IsStop(signal, waitTime, part, ok, first, second)
    ensures ok <==> SAW_STOPPED in part
    ensures Signals(part) == [signal] || Signals(part) == [signal, "SIGKILL"]
    ensures !ok ==> part != [] && match part[|part| - 1]
      case Kill(_, accepted) => !accepted
      case _ => Signals(part) == [signal, "SIGKILL"] && NoneRefused(part)
    ensures Inspections(part) <= 20 * Seconds(waitTime)
    ensures ok ==> waitTime > 0
  {
    hide Signals, Inspections;
    KillAlone(signal, true);
    KillAlone(signal, false);
    if part != [Kill(signal, false)] {
      var begun := [Kill(signal, true)] + first;
      Joined([Kill(signal, true)], first);
      if part == begun {
        WaitOutcome(waitTime, first, true);
      } else {
        WaitOutcome(waitTime, first, false);
        EscalationOutcome(begun, waitTime, part, ok, second);
      }
    }
  }

  /** The part after a failed first wait adds one SIGKILL, and the verdict is that of the second wait. */
  lemma EscalationOutcome(begun: seq<Call>, waitTime: int, part: seq<Call>, ok: bool, second: seq<Call>)
    requires SAW_STOPPED !in begun && NoneRefused(begun)
    requires || (part == begun + [Kill("SIGKILL", false)] && !ok)
             || (part == begun + [Kill("SIGKILL", true)] + second && IsWait(waitTime, second, ok))
    ensures ok <==> SAW_STOPPED in part
    ensures Signals(part) == Signals(begun) + ["SIGKILL"]
    ensures !ok ==> part != [] && match part[|part| - 1]
      case Kill(_, accepted) => !accepted
      case _ => NoneRefused(part)
    ensures Inspections(part) <= Inspections(begun) + 10 * Seconds(waitTime)
    ensures ok ==> waitTime > 0
  {
    hide Signals, Inspections;
    KillAlone("SIGKILL", true);
    KillAlone("SIGKILL", false);
    Joined(begun, [Kill("SIGKILL", false)]);
    Joined(begun, [Kill("SIGKILL", true)]);
    if part != begun + [Kill("SIGKILL", false)] {
      WaitOutcome(waitTime, second, ok);
      Joined(begun + [Kill("SIGKILL", true)], second);
    }
  }
}
