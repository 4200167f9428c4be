/**
  How the containerd adapter stops and restarts a container: the wait on the task is registered, the stop
  signal sent, and SIGKILL follows if the task has not exited when the grace time is over. Every call may
  end in any way, every timer may fire and a cancellation may come at any wait.
 */
module ContainerdStop {
  import opened Prelude

  type Signal = string

  const SIG_KILL: Signal := "SIGKILL"

  /** A signal to a task that is gone already is no failure. */
  datatype KillAnswer = Sent | Gone | Refused

  /** What ended a select. */
  datatype Woke = Answered | Stopped | TimedOut

  datatype TaskAnswer = Found | NoTask | LookupFailed

  /** What the wait channel delivers: an exit code, a status that holds an error, or nothing, being closed. */
  datatype Status = Code(code: int) | Unreadable | ChannelClosed

  /** One call or event; `Died` is the end of the task's process, which nobody sees by itself. */
  datatype Call =
    | LoadContainer(ok: bool)
    | FindTask(task: TaskAnswer)
    | WaitTask(ok: bool)
    | Kill(signal: Signal, answer: KillAnswer)
    | GraceOver
    | KillTimeOver
    | Cancelled
    | Exit(status: Status)
    | Died
    | DeleteTask
    | NewTask(ok: bool)
    | StartTask(ok: bool)

  /** What the calls so far amount to. */
  datatype State = State(
    awaited: bool,
    kills: seq<Signal>,
    graceOver: bool,
    exit: Option<Status>,
    died: bool,
    deletes: nat,
    task: bool,
    starts: seq<bool>)

  const NOTHING := State(false, [], false, None, false, 0, false, [])

  function After(s: State, c: Call): State {
    match c
    case WaitTask(ok) => s.(awaited := ok)
    case Kill(signal, _) => s.(kills := s.kills + [signal])
    case GraceOver => s.(graceOver := true)
    case Exit(status) => s.(exit := Some(status))
    case Died => s.(died := true)
    case FindTask(found) => s.(task := found.Found?)
    case NewTask(ok) => s.(task := ok)
    case DeleteTask => s.(deletes := s.deletes + 1, task := false)
    case StartTask(ok) => s.(starts := s.starts + [ok])
    case _ => s
  }

  function StateOf(log: seq<Call>): State {
    if log == [] then NOTHING else After(StateOf(log[..|log| - 1]), log[|log| - 1])
  }

  /**
    The protocol of a stop with the given signal, and of a start that follows it. The channel delivers a
    code only after the task died; the two other events may come at any time.
   */
  predicate Allowed(signal: Signal, s: State, c: Call) {
    match c
    case LoadContainer(_) => s.kills == [] || s.exit.Some?
    case FindTask(_) => s.kills == [] || s.exit.Some?
    case WaitTask(_) => !s.awaited && s.kills == []
    case Kill(sig, _) =>
      (&& s.awaited && s.exit.None?
       && (if s.kills == [] then sig == signal else |s.kills| == 1 && sig == SIG_KILL && s.graceOver))
    case GraceOver => |s.kills| == 1 && s.exit.None? && !s.graceOver
    case KillTimeOver => |s.kills| == 2 && s.exit.None?
    case Cancelled => s.kills != [] && s.exit.None?
    case Exit(status) => s.awaited && s.kills != [] && s.exit.None? && (status.Code? ==> s.died)
    case Died => !s.died
    case DeleteTask => s.exit.Some? && s.deletes == 0
    case NewTask(_) => s.exit.Some? && s.deletes == 1 && s.starts == [] && !s.task
    case StartTask(_) => s.exit.Some? && s.deletes == 1 && s.starts == [] && s.task
  }

  predicate Orderly(signal: Signal, log: seq<Call>) {
    forall i :: 0 <= i < |log| ==> Allowed(signal, StateOf(log[..i]), log[i])
  }

  lemma OneMore(signal: Signal, log: seq<Call>, c: Call)
    requires Orderly(signal, log) && Allowed(signal, StateOf(log), c)
    ensures Orderly(signal, log + [c]) && StateOf(log + [c]) == After(StateOf(log), c)
  {
    hide Allowed;
    assert (log + [c])[..|log|] == log;
    forall i | 0 <= i < |log + [c]| ensures Allowed(signal, StateOf((log + [c])[..i]), (log + [c])[i]) {
      if i < |log| {
        assert (log + [c])[..i] == log[..i];
      }
    }
  }

  lemma NothingYet(signal: Signal)
    ensures Orderly(signal, []) && StateOf([]) == NOTHING
  {
  }

  /** Any containerd, seen by the calls about one stop or restart with a fixed signal. */
  class Session {
    const signal: Signal
    var log: seq<Call>

    constructor (signal: Signal)
      ensures this.signal == signal && log == []
    {
      this.signal, log := signal, [];
    }

    ghost predicate Valid()
      reads this
    {
      Orderly(signal, log)
    }

    ghost function Now(): State
      reads this
    {
      StateOf(log)
    }

    method Answer(c: Call)
      requires Valid() && Allowed(signal, Now(), c)
      modifies this
      ensures Valid() && log == old(log) + [c] && Now() == After(old(Now()), c)
    {
      OneMore(signal, log, c);
      log := log + [c];
    }

    /** Once the grace time was over, SIGKILL was sent after the stop signal. */
    ghost predicate Escalated()
      reads this
    {
      Now().graceOver ==> Now().kills == [signal, "SIGKILL"]
    }

    /** The last thing that happened is a refused signal, a cancellation, or the end of the time after SIGKILL. */
    ghost predicate GaveUp()
      reads this
    {
      && log != []
      && match log[|log| - 1]
         case Kill(_, answer) => answer.Refused?
         case Cancelled => true
         case KillTimeOver => Now().graceOver && Now().kills == [signal, "SIGKILL"]
         case _ => false
    }

    /** The task may die at any moment. */
    method MayDie()
      requires Valid()
      modifies this
      ensures Valid() && old(log) <= log
      ensures Now() == old(Now()).(died := Now().died)
    {
      hide StateOf, Orderly;
      var dies: bool :| dies ==> Died !in log;
      DiedIff(log);
      if dies {
        Answer(Died);
      }
    }

    method SendSignal(sig: Signal) returns (ok: bool)
      requires Valid() && Allowed(signal, Now(), Kill(sig, Sent))
      modifies this
      ensures Valid() && old(log) <= log && Now() == old(Now()).(kills := old(Now()).kills + [sig])
      ensures log != [] && log[|log| - 1].Kill? && (ok <==> !log[|log| - 1].answer.Refused?)
    {
      hide StateOf, Orderly;
      var answer: KillAnswer := *;
      Answer(Kill(sig, answer));
      ok := !answer.Refused?;
    }

    /**
      No error exactly if the wait on the task was answered, in whatever way, and the task is deleted,
      once, in exactly those runs. The signals sent are the front of the stop signal and SIGKILL.
     */
    method StopTask() returns (ok: bool)
      requires log == []
      modifies this
      ensures Valid() && Now().starts == []
      ensures ok <==> Now().exit.Some?
      ensures ok && Now().exit.value.Code? ==> Now().died
      ensures Now().deletes == if ok then 1 else 0
      ensures Now().kills <= [signal, SIG_KILL]
      ensures Escalated() && (!ok && Now().kills != [] ==> GaveUp())
    {
      hide StateOf, Orderly;
      NothingYet(signal);
      ok := *;
      Answer(LoadContainer(ok));
      if !ok {
        return;
      }
      var task: TaskAnswer := *;
      Answer(FindTask(task));
      if !task.Found? {
        return false;
      }
      ok := *;
      Answer(WaitTask(ok));
      if !ok {
        return;
      }
      MayDie();
      ok := SendSignal(signal);
      if ok {
        ok := AwaitExit();
        CodeMeansDead(signal, log);
      }
    }

    /** One select: on the wait channel, the cancellation and this timer. */
    method Select(over: Call) returns (woke: Woke)
      requires Valid() && Now().awaited && Now().kills != [] && Now().exit.None?
      requires if over.GraceOver? then |Now().kills| == 1 && !Now().graceOver else over.KillTimeOver? && |Now().kills| == 2
      modifies this
      ensures Valid() && old(log) <= log
      ensures var s := old(Now());
        && Now() == s.(died := Now().died, exit := Now().exit, graceOver := s.graceOver || (over.GraceOver? && woke.TimedOut?))
        && (woke.Answered? <==> Now().exit.Some?)
      ensures woke.Stopped? ==> log != [] && log[|log| - 1] == Cancelled
      ensures woke.TimedOut? ==> log != [] && log[|log| - 1] == over
    {
      hide StateOf, Orderly;
      MayDie();
      DiedIff(log);
      woke := *;
      match woke
      case Answered =>
        var status: Status :| status.Code? ==> Died in log;
        Answer(Exit(status));
      case Stopped => Answer(Cancelled);
      case TimedOut => Answer(over);
    }

    /** The two selects, of which the second follows SIGKILL. */
    method AwaitExit() returns (ok: bool)
      requires Valid() && Now() == NOTHING.(awaited := true, kills := [signal], task := true, died := Now().died)
      modifies this
      ensures Valid() && old(log) <= log && Now().starts == [] && Now().kills <= [signal, SIG_KILL]
      ensures (ok <==> Now().exit.Some?) && Now().deletes == if ok then 1 else 0
      ensures Escalated() && (!ok ==> GaveUp())
    {
      hide StateOf, Orderly;
      var woke := Select(GraceOver);
      if woke.TimedOut? {
        ok := SendSignal(SIG_KILL);
        if !ok {
          return;
        }
        woke := Select(KillTimeOver);
      }
      ok := woke.Answered?;
      if ok {
        Answer(DeleteTask);
      }
    }

    /** The task to start; one that is missing, as it is after a stop, is made anew. */
    method FindOrMakeTask() returns (ok: bool)
      requires Valid() && Now().exit.Some? && Now().deletes == 1 && Now().starts == []
      modifies this
      ensures Valid() && old(log) <= log && Now() == old(Now()).(task := ok)
    {
      hide StateOf, Orderly;
      var task: TaskAnswer := *;
      Answer(FindTask(task));
      ok := task.Found?;
      if task.NoTask? {
        ok := *;
        Answer(NewTask(ok));
      }
    }

    /** The start, which is attempted at most once. */
    method BringUp() returns (ok: bool)
      requires Valid() && Now().exit.Some? && Now().deletes == 1 && Now().starts == []
      modifies this
      ensures Valid() && old(log) <= log && Now() == old(Now()).(starts := Now().starts, task := Now().task)
      ensures |Now().starts| <= 1 && (ok <==> Now().starts == [true])
    {
      hide StateOf, Orderly;
      ok := *;
      Answer(LoadContainer(ok));
      if ok {
        ok := FindOrMakeTask();
      }
      if ok {
        ok := *;
        Answer(StartTask(ok));
        assert Now().starts == [ok];
      }
    }

    /** No error exactly if the wait was answered and the start that followed succeeded. */
    method RestartContainer() returns (ok: bool)
      requires log == []
      modifies this
      ensures Valid()
      ensures ok <==> Now().exit.Some? && Now().starts == [true]
      ensures ok && Now().exit.value.Code? ==> Now().died
      ensures Escalated()
      ensures Now().starts != [] ==> Now().exit.Some? && Now().deletes == 1
    {
      hide StateOf, Orderly;
      ok := StopTask();
      if ok {
        ok := BringUp();
      }
    }
  }

  lemma {:induction false} DiedIff(log: seq<Call>)
    ensures StateOf(log).died <==> Died in log
  {
    if log != [] {
      var n := |log| - 1;
      DiedIff(log[..n]);
      assert log == log[..n] + [log[n]];
    }
  }

  // ---------- what an orderly list of calls says about positions ----------

  predicate Awaited(log: seq<Call>, w: int) {
    0 <= w < |log| && log[w] == WaitTask(true)
  }

  predicate Signalled(signal: Signal, log: seq<Call>, w: int, k: int) {
    Awaited(log, w) && w < k < |log| && log[k].Kill? && log[k].signal == signal
  }

  predicate WaitAnswered(signal: Signal, log: seq<Call>, w: int, k: int, e: int) {
    Signalled(signal, log, w, k) && k < e < |log| && log[e].Exit?
  }

  predicate Deleted(signal: Signal, log: seq<Call>, w: int, k: int, e: int, d: int) {
    WaitAnswered(signal, log, w, k, e) && e < d < |log| && log[d].DeleteTask?
  }

  /** The state's facts as events in their order. */
  ghost predicate Explained(signal: Signal, log: seq<Call>, s: State) {
    && (s.awaited ==> exists w :: Awaited(log, w))
    && (s.kills != [] ==> exists w, k :: Signalled(signal, log, w, k))
    && (s.exit.Some? ==> exists w, k, e :: WaitAnswered(signal, log, w, k, e))
    && (s.deletes > 0 ==> exists w, k, e, d :: Deleted(signal, log, w, k, e, d))
  }

  lemma StillExplained(signal: Signal, log: seq<Call>, s: State, c: Call)
    requires Explained(signal, log, s)
    ensures Explained(signal, log + [c], s)
  {
    var more := log + [c];
    forall i | 0 <= i < |log| ensures more[i] == log[i] {
    }
    if s.awaited {
      var w :| Awaited(log, w);
      assert Awaited(more, w);
    }
    if s.kills != [] {
      var w, k :| Signalled(signal, log, w, k);
      assert Signalled(signal, more, w, k);
    }
    if s.exit.Some? {
      var w, k, e :| WaitAnswered(signal, log, w, k, e);
      assert WaitAnswered(signal, more, w, k, e);
    }
    if s.deletes > 0 {
      var w, k, e, d :| Deleted(signal, log, w, k, e, d);
      assert Deleted(signal, more, w, k, e, d);
    }
  }

  lemma CallExplained(signal: Signal, log: seq<Call>, s: State, c: Call)
    requires Explained(signal, log, s) && Allowed(signal, s, c)
    ensures Explained(signal, log + [c], After(s, c))
  {
    StillExplained(signal, log, s, c);
    var more, n := log + [c], |log|;
    match c
    case WaitTask(true) => assert Awaited(more, n);
    case Kill(sig, _) =>
      if s.kills == [] {
        var w :| Awaited(log, w);
        assert Signalled(signal, more, w, n);
      }
    case Exit(_) =>
      var w, k :| Signalled(signal, log, w, k);
      assert WaitAnswered(signal, more, w, k, n);
    case DeleteTask =>
      var w, k, e :| WaitAnswered(signal, log, w, k, e);
      assert Deleted(signal, more, w, k, e, n);
    case _ =>
  }

  lemma {:induction false} AllExplained(signal: Signal, log: seq<Call>)
    requires Orderly(signal, log)
    ensures Explained(signal, log, StateOf(log))
  {
    hide Allowed, Explained;
    if log == [] {
      NothingExplained(signal);
    } else {
      var n := |log| - 1;
      FrontIsOrderly(signal, log, n);
      AllExplained(signal, log[..n]);
      CallExplained(signal, log[..n], StateOf(log[..n]), log[n]);
      assert log == log[..n] + [log[n]];
    }
  }

  lemma NothingExplained(signal: Signal)
    ensures Explained(signal, [], NOTHING)
  {
  }

  lemma FrontIsOrderly(signal: Signal, log: seq<Call>, n: nat)
    requires Orderly(signal, log) && n <= |log|
    ensures Orderly(signal, log[..n])
  {
    hide Allowed, StateOf;
    forall i | 0 <= i < n ensures Allowed(signal, StateOf(log[..n][..i]), log[..n][i]) {
      assert log[..n][..i] == log[..i];
    }
  }

  /** A restart starts the task only after the wait was registered, the signal sent, the wait answered and the old task deleted. */
  lemma StartsAfterAnswer(signal: Signal, log: seq<Call>, i: nat)
    requires Orderly(signal, log) && i < |log| && (log[i].StartTask? || log[i].NewTask?)
    ensures exists w, k, e, d :: Deleted(signal, log[..i], w, k, e, d)
  {
    hide StateOf;
    FrontIsOrderly(signal, log, i);
    AllExplained(signal, log[..i]);
    assert Allowed(signal, StateOf(log[..i]), log[i]);
  }

  /** Between the two positions the signals sent can only grow, and the grace time can only end by its timer. */
  lemma {:induction false} Between(log: seq<Call>, i: nat, k: nat)
    requires i <= k <= |log|
    ensures StateOf(log[..i]).kills <= StateOf(log[..k]).kills
    ensures StateOf(log[..k]).graceOver && !StateOf(log[..i]).graceOver ==> exists g :: i <= g < k && log[g].GraceOver?
  {
    hide StateOf;
    if i < k {
      Between(log, i, k - 1);
      Step(log, k - 1);
    }
  }

  lemma Step(log: seq<Call>, k: nat)
    requires k < |log|
    ensures StateOf(log[..k + 1]) == After(StateOf(log[..k]), log[k])
  {
    assert log[..k + 1][..k] == log[..k];
  }

  /** The signal that was the n-th to be sent. */
  lemma {:induction false} KillAt(log: seq<Call>, n: nat) returns (k: nat)
    requires n < |StateOf(log).kills|
    ensures k < |log| && log[k].Kill? && |StateOf(log[..k]).kills| == n
  {
    k := |log| - 1;
    if !(log[k].Kill? && |StateOf(log[..k]).kills| == n) {
      var all := k;
      k := KillAt(log[..all], n);
      assert log[..all][..k] == log[..k];
    }
  }

  lemma {:induction false} NoGraceBeforeSignal(signal: Signal, log: seq<Call>)
    requires Orderly(signal, log)
    ensures StateOf(log).kills == [] ==> !StateOf(log).graceOver
  {
    if log != [] {
      var n := |log| - 1;
      FrontIsOrderly(signal, log, n);
      NoGraceBeforeSignal(signal, log[..n]);
      assert Allowed(signal, StateOf(log[..n]), log[n]);
    }
  }

  /** Of two signals the first is the stop signal, the second is SIGKILL, and the grace time ended between them. */
  lemma EscalatesAfterGrace(signal: Signal, log: seq<Call>, j: nat, k: nat)
    requires Orderly(signal, log) && j < k < |log| && log[j].Kill? && log[k].Kill?
    ensures log[j].signal == signal && log[k].signal == "SIGKILL"
    ensures exists g :: j < g < k && log[g].GraceOver?
  {
    hide StateOf;
    var first, second := StateOf(log[..j]), StateOf(log[..k]);
    assert Allowed(signal, first, log[j]) && Allowed(signal, second, log[k]);
    Step(log, j);
    Between(log, j + 1, k);
    FrontIsOrderly(signal, log, j);
    NoGraceBeforeSignal(signal, log[..j]);
  }

  predicate BothSignals(signal: Signal, log: seq<Call>, j: int, g: int, k: int) {
    && 0 <= j < g < k < |log|
    && log[j].Kill? && log[j].signal == signal
    && log[g].GraceOver?
    && log[k].Kill? && log[k].signal == "SIGKILL"
  }

  /** The last timer ends a stop only after the stop signal, the end of the grace time, and SIGKILL. */
  lemma BothTimersOver(signal: Signal, log: seq<Call>, i: nat)
    requires Orderly(signal, log) && i < |log| && log[i].KillTimeOver?
    ensures exists j, g, k :: BothSignals(signal, log[..i], j, g, k)
  {
    hide StateOf;
    assert Allowed(signal, StateOf(log[..i]), log[i]);
    var before := log[..i];
    FrontIsOrderly(signal, log, i);
    var j := KillAt(before, 0);
    var k := KillAt(before, 1);
    if k < j {
      Between(before, k, j);
    }
    EscalatesAfterGrace(signal, before, j, k);
    var g :| j < g < k && before[g].GraceOver?;
    assert BothSignals(signal, before, j, g, k);
  }

  // ---------- what the event on the wait channel proves ----------

  /** After every orderly list of calls in which the channel delivered this, the task is dead. */
  ghost predicate ProvesDeath(signal: Signal, status: Status) {
    forall log | Orderly(signal, log) && StateOf(log).exit == Some(status) :: StateOf(log).died
  }

  lemma {:induction false} CodeMeansDead(signal: Signal, log: seq<Call>)
    requires Orderly(signal, log)
    ensures StateOf(log).exit.Some? && StateOf(log).exit.value.Code? ==> StateOf(log).died
  {
    if log != [] {
      var n := |log| - 1;
      FrontIsOrderly(signal, log, n);
      CodeMeansDead(signal, log[..n]);
      assert Allowed(signal, StateOf(log[..n]), log[n]);
    }
  }

  /** A stop that is answered by anything but a code, and a restart after it, without an error and with the task alive. */
  function BlindRestart(signal: Signal, status: Status): seq<Call> {
    [LoadContainer(true), FindTask(Found), WaitTask(true), Kill(signal, Sent), Exit(status), DeleteTask]
    + [LoadContainer(true), FindTask(NoTask), NewTask(true), StartTask(true)]
  }

  lemma BlindRestartSucceeds(signal: Signal, status: Status)
    requires !status.Code?
    ensures var log := BlindRestart(signal, status);
      && Orderly(signal, log)
      && StateOf(log) == State(true, [signal], false, Some(status), false, 1, true, [true])
  {
    hide StateOf, Orderly;
    var log := [LoadContainer(true), FindTask(Found), WaitTask(true), Kill(signal, Sent), Exit(status), DeleteTask];
    BlindStopSucceeds(signal, status);
    OneMore(signal, log, LoadContainer(true));
    log := log + [LoadContainer(true)];
    OneMore(signal, log, FindTask(NoTask));
    log := log + [FindTask(NoTask)];
    OneMore(signal, log, NewTask(true));
    log := log + [NewTask(true)];
    OneMore(signal, log, StartTask(true));
    assert BlindRestart(signal, status) == log + [StartTask(true)];
  }

  lemma BlindStopSucceeds(signal: Signal, status: Status)
    requires !status.Code?
    ensures var log := [LoadContainer(true), FindTask(Found), WaitTask(true), Kill(signal, Sent), Exit(status), DeleteTask];
      && Orderly(signal, log)
      && StateOf(log) == State(true, [signal], false, Some(status), false, 1, false, [])
  {
    hide StateOf, Orderly;
    NothingYet(signal);
    var log := [LoadContainer(true)];
    OneMore(signal, [], LoadContainer(true));
    assert [] + [LoadContainer(true)] == log;
    OneMore(signal, log, FindTask(Found));
    log := log + [FindTask(Found)];
    OneMore(signal, log, WaitTask(true));
    log := log + [WaitTask(true)];
    OneMore(signal, log, Kill(signal, Sent));
    log := log + [Kill(signal, Sent)];
    OneMore(signal, log, Exit(status));
    log := log + [Exit(status)];
    OneMore(signal, log, DeleteTask);
    assert log + [DeleteTask]
        == [LoadContainer(true), FindTask(Found), WaitTask(true), Kill(signal, Sent), Exit(status), DeleteTask];
  }

  /** A stop without an error means that the task is dead exactly if the event on the channel carried a code. */
  lemma ExitIsRealIff(signal: Signal, status: Status)
    ensures ProvesDeath(signal, status) <==> status.Code?
  {
    if status.Code? {
      forall log | Orderly(signal, log) && StateOf(log).exit == Some(status) ensures StateOf(log).died {
        CodeMeansDead(signal, log);
      }
    } else {
      BlindRestartSucceeds(signal, status);
      assert Orderly(signal, BlindRestart(signal, status));
    }
  }
}
