/**
  The sidecars of the containerd adapter: the short-lived ones that carry `tc` and `iptables` commands
  and the long-lived ones that run `stress-ng`. Every call may end in any way. `Allowed` is the protocol
  that the calls about one sidecar have to follow; what is proved is that they do, and what the calls
  amount to when a method returns.
 */
module ContainerdSidecars {
  import opened Prelude
  import opened Channels

  /** What a sidecar is made for, and what has to be known before it is made. */
  datatype Kind = Network | Stress

  datatype Preparation = TargetTask | TargetPid | TargetCgroup | Image | PulledImage

  /** What a task's wait channel delivers: an exit code, a status that holds an error, or nothing, being closed. */
  datatype Exit = Code(code: int) | Unreadable | ChannelClosed

  datatype Call =
    | Prepare(step: Preparation, ok: bool)
    | NewContainer(kind: Kind, ok: bool)
    | NewTask(ok: bool)
    | FindTask(ok: bool)
    | WaitTask(ok: bool)
    | StartTask(ok: bool)
    | TaskExit(exit: Exit)
    | Cancelled
    | KillTask
    | KillTimeOver
    | DeleteTask
    | DeleteContainer
    | Exec(cmd: Args, ok: bool)
    | WaitProcess(ok: bool)
    | StartProcess(ok: bool)
    | ProcessExit(code: Option<int>)
    | DeleteProcess
    | SendOutput(id: string)
    | SendError(why: Failure)
    | CloseErrors
    | CloseOutput

  /** A command's process, from its creation to its deletion. */
  datatype Process = Process(cmd: Args, awaited: bool, started: bool)

  /** The command whose process exists, those that have begun, and those that ended with exit code 0. */
  datatype Commands = Commands(process: Option<Process>, begun: seq<Args>, succeeded: seq<Args>)

  /** The two one-slot channels of a stress sidecar: what was sent on each, and which are closed. */
  datatype Delivery = Delivery(output: seq<string>, errors: seq<Failure>, outputClosed: bool, errorsClosed: bool)

  const UNDELIVERED := Delivery([], [], false, false)

  /** How many messages were sent, on both channels together. */
  function Messages(d: Delivery): nat {
    |d.output| + |d.errors|
  }

  /** What the calls so far amount to. */
  datatype State = State(
    prepared: set<Preparation>,
    kind: Option<Kind>,
    containers: nat,
    tasks: nat,
    awaited: bool,
    started: bool,
    exit: Option<Exit>,
    cancelled: bool,
    cleaning: bool,
    found: bool,
    killed: bool,
    commands: Commands,
    taskDeletes: nat,
    containerDeletes: nat,
    delivery: Delivery)

  const NOTHING := State({}, None, 0, 0, false, false, None, false, false, false, false, Commands(None, [], []), 0, 0, UNDELIVERED)

  function After(s: State, c: Call): State {
    match c
    case NewContainer(kind, ok) => if ok then s.(containers := s.containers + 1, kind := Some(kind)) else s
    case NewTask(ok) => if ok then s.(tasks := s.tasks + 1) else s
    case DeleteTask => s.(taskDeletes := s.taskDeletes + 1, cleaning := true)
    case DeleteContainer => s.(containerDeletes := s.containerDeletes + 1, cleaning := true)
    case Exec(_, _) | WaitProcess(_) | StartProcess(_) | ProcessExit(_) | DeleteProcess =>
      s.(commands := AfterCommand(s.commands, c))
    case SendOutput(_) | SendError(_) | CloseErrors | CloseOutput => s.(delivery := AfterDelivery(s.delivery, c))
    case _ => AfterEvent(s, c)
  }

  /** The calls that leave the counts, the commands and the delivery as they are. */
  function AfterEvent(s: State, c: Call): (r: State)
    ensures r.containers == s.containers && r.containerDeletes == s.containerDeletes
    ensures r.tasks == s.tasks && r.taskDeletes == s.taskDeletes
    ensures r.commands == s.commands && r.delivery == s.delivery
  {
    match c
    case Prepare(step, ok) => if ok then s.(prepared := s.prepared + {step}) else s
    case FindTask(ok) => s.(cleaning := true, awaited := false, found := ok)
    case WaitTask(ok) => s.(awaited := ok)
    case StartTask(ok) => s.(started := ok)
    case TaskExit(exit) => s.(exit := Some(exit))
    case Cancelled => s.(cancelled := true)
    case KillTask => s.(killed := true)
    case _ => s
  }

  function AfterCommand(s: Commands, c: Call): Commands {
    match c
    case Exec(cmd, ok) =>
      s.(begun := s.begun + [cmd], process := if ok then Some(Process(cmd, false, false)) else None)
    case WaitProcess(ok) => if s.process.Some? then s.(process := Some(s.process.value.(awaited := ok))) else s
    case StartProcess(ok) => if s.process.Some? then s.(process := Some(s.process.value.(started := ok))) else s
    case ProcessExit(code) =>
      if s.process.Some? && code == Some(0) then s.(succeeded := s.succeeded + [s.process.value.cmd]) else s
    case DeleteProcess => s.(process := None)
    case _ => s
  }

  function AfterDelivery(d: Delivery, c: Call): Delivery {
    match c
    case SendOutput(id) => d.(output := d.output + [id])
    case SendError(why) => d.(errors := d.errors + [why])
    case CloseErrors => d.(errorsClosed := true)
    case CloseOutput => d.(outputClosed := true)
    case _ => d
  }

  function StateOf(log: seq<Call>): State {
    if log == [] then NOTHING else After(StateOf(log[..|log| - 1]), log[|log| - 1])
  }

  /** Task and container came into being and were both deleted. */
  predicate CleanedUp(s: State) {
    s.containers == s.containerDeletes == 1 && s.tasks == s.taskDeletes == 1
  }

  /** The container exists and is not given up. */
  predicate Alive(s: State) {
    s.containers == 1 && s.containerDeletes == 0
  }

  /**
    The protocol. Nothing happens to a sidecar before it exists or after its removal, except that a
    stress sidecar's verdict is sent after the removal, once, on the output channel exactly if the task
    exited with code 0, and that the channels are closed after that; an exit is only awaited after the
    wait was registered; commands run one at a time, each process being deleted before the next begins
    and before the cleanup; a cleanup and a cancellation kill the task before it is deleted.
   */
  predicate Allowed(s: State, c: Call) {
    var cs := s.commands;
    match c
    case Prepare(_, _) => s.containers == 0
    case NewContainer(kind, _) =>
      (&& s.containers == 0 && {TargetTask, TargetPid, Image} <= s.prepared
       && (kind.Stress? ==> TargetCgroup in s.prepared))
    case NewTask(_) => Alive(s) && s.tasks == 0 && !s.cleaning
    case FindTask(_) => Alive(s) && cs.process.None? && s.kind == Some(Network)
    case WaitTask(_) => Alive(s) && !s.awaited && s.taskDeletes == 0
    case StartTask(_) => Alive(s) && s.tasks == 1 && !s.started && !s.cleaning && (s.kind == Some(Stress) ==> s.awaited)
    case TaskExit(_) => Alive(s) && s.awaited && s.exit.None?
    case Cancelled => Alive(s)
    case KillTask => Alive(s) && (s.cleaning || s.cancelled) && s.taskDeletes == 0
    case KillTimeOver => Alive(s) && s.awaited && s.killed
    case DeleteTask =>
      Alive(s) && cs.process.None? && s.taskDeletes == 0 && (s.kind == Some(Network) || s.cancelled ==> s.killed)
    case DeleteContainer => Alive(s) && cs.process.None? && (s.kind == Some(Stress) ==> s.taskDeletes == s.tasks)
    case Exec(_, _) => Alive(s) && s.started && !s.cleaning && cs.process.None? && cs.begun == cs.succeeded
    case WaitProcess(_) => Alive(s) && cs.process.Some?
    case StartProcess(_) => Alive(s) && cs.process.Some? && cs.process.value.awaited
    case ProcessExit(_) => Alive(s) && cs.process.Some? && cs.process.value.started && |cs.succeeded| < |cs.begun|
    case DeleteProcess => Alive(s) && cs.process.Some?
    case SendOutput(_) => CleanedUp(s) && s.delivery == UNDELIVERED && s.exit == Some(Code(0))
    case SendError(why) =>
      CleanedUp(s) && s.delivery == UNDELIVERED && s.exit != Some(Code(0)) && why == VerdictOf(s.exit)
    case CloseErrors => Messages(s.delivery) == 1 && !s.delivery.errorsClosed && !s.delivery.outputClosed
    case CloseOutput => Messages(s.delivery) == 1 && s.delivery.errorsClosed && !s.delivery.outputClosed
  }

  predicate Orderly(log: seq<Call>) {
    forall i :: 0 <= i < |log| ==> Allowed(StateOf(log[..i]), log[i])
  }

  lemma OneMore(log: seq<Call>, c: Call)
    requires Orderly(log) && Allowed(StateOf(log), c)
    ensures Orderly(log + [c]) && StateOf(log + [c]) == After(StateOf(log), c)
  {
    hide Allowed;
    assert (log + [c])[..|log|] == log;
    forall i | 0 <= i < |log + [c]| ensures Allowed(StateOf((log + [c])[..i]), (log + [c])[i]) {
      if i < |log| {
        assert (log + [c])[..i] == log[..i];
      }
    }
  }

  lemma NothingYet()
    ensures Orderly([]) && StateOf([]) == NOTHING
  {
  }

  /** The commands that have begun are the front of the list, and all but perhaps the last of them succeeded. */
  predicate RunningThrough(s: State, argsList: seq<Args>) {
    s.commands.succeeded <= s.commands.begun <= argsList && |s.commands.begun| <= |s.commands.succeeded| + 1
  }

  /** Any containerd, seen by the calls about one sidecar. */
  class Session {
    var log: seq<Call>

    ghost predicate Valid()
      reads this
    {
      Orderly(log)
    }

    ghost function Now(): State
      reads this
    {
      StateOf(log)
    }

    method Answer(c: Call)
      requires Valid() && Allowed(Now(), c)
      modifies this
      ensures Valid() && log == old(log) + [c] && Now() == After(old(Now()), c)
    {
      OneMore(log, c);
      log := log + [c];
    }

    /** One step before the sidecar exists. */
    method PrepareStep(step: Preparation) returns (ok: bool)
      requires Valid() && Now().containers == 0
      modifies this
      ensures Valid() && old(log) <= log && Now() == After(old(Now()), Prepare(step, ok))
    {
      hide StateOf, Orderly;
      ok := *;
      Answer(Prepare(step, ok));
    }

    /** One command's process: it is deleted exactly once if it was created, however the command ended. */
    method ExecTask(cmd: Args) returns (ok: bool)
      requires Valid() && Allowed(Now(), Exec(cmd, true))
      modifies this
      ensures Valid() && old(log) <= log
      ensures var s := old(Now());
        Now() == s.(commands := s.commands.(begun := s.commands.begun + [cmd],
                                            succeeded := s.commands.succeeded + if ok then [cmd] else []))
    {
      hide StateOf, Orderly, AfterEvent, AfterDelivery;
      ok := *;
      Answer(Exec(cmd, ok));
      if !ok {
        return;
      }
      ok := CollectExit(cmd);
      Answer(DeleteProcess);
    }

    method CollectExit(cmd: Args) returns (ok: bool)
      requires Valid() && Alive(Now()) && Now().commands.process == Some(Process(cmd, false, false))
      requires |Now().commands.succeeded| < |Now().commands.begun|
      modifies this
      ensures Valid() && old(log) <= log && Now().commands.process.Some?
      ensures var s := old(Now());
        Now() == s.(commands := s.commands.(process := Now().commands.process,
                                            succeeded := s.commands.succeeded + if ok then [cmd] else []))
    {
      hide StateOf, Orderly, AfterEvent, AfterDelivery;
      ghost var s := Now();
      ok := *;
      Answer(WaitProcess(ok));
      assert Now() == s.(commands := s.commands.(process := Some(Process(cmd, ok, false))));
      if !ok {
        return;
      }
      ok := *;
      Answer(StartProcess(ok));
      assert Now() == s.(commands := s.commands.(process := Some(Process(cmd, true, ok))));
      if !ok {
        return;
      }
      ok := *;
      if ok {
        var code: Option<int> := *;
        Answer(ProcessExit(code));
        ok := code == Some(0);
      }
    }

    /** If the task can be found it is killed, waited for and deleted; the container is deleted whatever fails. */
    method CleanupSidecar()
      requires Valid() && Alive(Now()) && Now().commands.process.None? && Now().kind == Some(Network)
      requires Now().taskDeletes == 0 && Now().exit.None? && !Now().killed
      modifies this
      ensures Valid() && old(log) <= log && Now().containerDeletes == 1
      ensures Now().killed == Now().found && Now().taskDeletes == if Now().found then 1 else 0
      ensures var s := old(Now());
        Now() == s.(taskDeletes := Now().taskDeletes, containerDeletes := 1, cleaning := true,
                    found := Now().found, killed := Now().killed, awaited := Now().awaited, exit := Now().exit)
    {
      hide StateOf, Orderly, AfterCommand, AfterDelivery;
      var found: bool := *;
      Answer(FindTask(found));
      if found {
        var waiting: bool := *;
        Answer(WaitTask(waiting));
        Answer(KillTask);
        if waiting {
          var first: Option<Exit> := *;
          Answer(if first.Some? then TaskExit(first.value) else KillTimeOver);
        }
        Answer(DeleteTask);
      }
      Answer(DeleteContainer);
    }

    /**
      A sidecar for a list of commands. It is removed exactly once if it came into being; no error means
      exactly that it was started and every command ran, in order, with exit code 0.
     */
    method SidecarExec(pull: bool, argsList: seq<Args>) returns (ok: bool)
      requires log == []
      modifies this
      ensures Valid() && Now().containers == Now().containerDeletes
      ensures Now().killed == Now().found && Now().taskDeletes == if Now().found then 1 else 0
      ensures RunningThrough(Now(), argsList) && Now().commands.process.None?
      ensures ok <==> Now().started && Now().commands.succeeded == argsList
      ensures pull && Now().containers > 0 ==> PulledImage in Now().prepared
    {
      hide StateOf, Orderly;
      ok := PrepareSidecar(pull, Network);
      if !ok {
        return;
      }
      ok := *;
      Answer(NewContainer(Network, ok));
      if !ok {
        return;
      }
      ok := RunSidecarCommands(argsList);
      CleanupSidecar();
    }

    method PrepareSidecar(pull: bool, kind: Kind) returns (ok: bool)
      requires log == []
      modifies this
      ensures Valid() && Now() == NOTHING.(prepared := Now().prepared)
      ensures ok ==> Allowed(Now(), NewContainer(kind, true)) && (pull ==> PulledImage in Now().prepared)
    {
      hide StateOf, Orderly;
      NothingYet();
      ok := true;
      if pull && kind.Network? {
        ok := PrepareStep(PulledImage);
        if !ok {
          return;
        }
      }
      ok := PrepareStep(TargetTask);
      if !ok {
        return;
      }
      ok := PrepareStep(TargetPid);
      if !ok {
        return;
      }
      if kind.Stress? {
        ok := PrepareStep(TargetCgroup);
        if !ok {
          return;
        }
        if pull {
          ok := PrepareStep(PulledImage);
          if !ok {
            return;
          }
        }
      }
      ok := PrepareStep(Image);
    }

    /** What lies between a sidecar's creation and its cleanup. */
    method RunSidecarCommands(argsList: seq<Args>) returns (ok: bool)
      requires Valid() && Now() == NOTHING.(prepared := Now().prepared, containers := 1, kind := Some(Network))
      modifies this
      ensures Valid() && old(log) <= log && RunningThrough(Now(), argsList)
      ensures var s := old(Now());
        Now() == s.(tasks := Now().tasks, started := Now().started, commands := Now().commands)
      ensures Now().commands.process.None?
      ensures ok <==> Now().started && Now().commands.succeeded == argsList
    {
      hide StateOf, Orderly;
      ok := *;
      Answer(NewTask(ok));
      if !ok {
        return;
      }
      ok := *;
      Answer(StartTask(ok));
      if !ok {
        return;
      }
      var i := 0;
      ghost var s := Now();
      while i < |argsList| && ok
        invariant 0 <= i <= |argsList| && Valid() && old(log) <= log
        invariant !ok ==> i > 0
        invariant Now() == s.(commands := Commands(None, argsList[..i], if ok then argsList[..i] else argsList[..i - 1]))
      {
        ok := ExecTask(argsList[i]);
        assert argsList[..i + 1] == argsList[..i] + [argsList[i]];
        i := i + 1;
      }
      assert ok ==> argsList[..i] == argsList;
    }

    // ---------- stress sidecars ----------

    /** Creates and starts the task. A task that came into being and could not be started is deleted. */
    method StartSidecarTask() returns (ok: bool)
      requires Valid() && Now() == NOTHING.(prepared := Now().prepared, containers := 1, kind := Some(Stress))
      modifies this
      ensures Valid() && old(log) <= log && Alive(Now()) && Now().delivery == UNDELIVERED
      ensures ok ==> Waiting() && Now().started
      ensures !ok ==> Now().kind == Some(Stress) && Now().commands.process.None? && Now().tasks == Now().taskDeletes
    {
      hide StateOf, Orderly;
      ok := *;
      Answer(NewTask(ok));
      if !ok {
        return;
      }
      ok := *;
      Answer(WaitTask(ok));
      if !ok {
        Answer(DeleteTask);
        return;
      }
      ok := *;
      Answer(StartTask(ok));
      if !ok {
        Answer(DeleteTask);
      }
    }

    /** A stress sidecar that was created but does not run is removed exactly once, after its task. */
    method CreateStressSidecar(pull: bool) returns (ok: bool)
      requires log == []
      modifies this
      ensures Valid() && Now().delivery == UNDELIVERED
      ensures ok ==> Waiting() && Now().started
      ensures !ok ==> Now().containers == Now().containerDeletes && Now().tasks == Now().taskDeletes
    {
      hide StateOf, Orderly;
      ok := PrepareSidecar(pull, Stress);
      if !ok {
        return;
      }
      ok := *;
      Answer(NewContainer(Stress, ok));
      if !ok {
        return;
      }
      ok := StartSidecarTask();
      if !ok {
        Answer(DeleteContainer);
      }
    }

    ghost predicate Waiting()
      reads this
    {
      var s := Now();
      && Valid() && Alive(s) && s.kind == Some(Stress) && s.awaited && s.tasks == 1 && s.taskDeletes == 0
      && s.exit.None? && s.delivery == UNDELIVERED && s.commands.process.None? && !s.cancelled && !s.killed
    }

    /** Waits for the exit; a cancellation kills the task and waits for a bounded time more. */
    method AwaitTask() returns (exit: Option<Exit>)
      requires Waiting()
      modifies this
      ensures Valid() && old(log) <= log
      ensures var s := old(Now()); Now() == s.(exit := exit, cancelled := Now().cancelled, killed := Now().killed)
      ensures Now().killed == Now().cancelled && (exit.None? ==> Now().killed)
    {
      hide StateOf, Orderly;
      exit := *;
      if exit.Some? {
        Answer(TaskExit(exit.value));
      } else {
        Answer(Cancelled);
        Answer(KillTask);
        exit := *;
        Answer(if exit.Some? then TaskExit(exit.value) else KillTimeOver);
      }
    }

    /**
      The goroutine that waits for a stress sidecar. On every path: one delete of the task, one of the
      container, then one message, then both channels are closed. The message is the sidecar's name on
      the output channel exactly if the task exited with code 0.
     */
    method WaitStressSidecar(id: string)
      requires Waiting()
      modifies this
      ensures Valid() && old(log) <= log && CleanedUp(Now())
      ensures Now().delivery == Delivered(id, Now().exit) && Now().killed == Now().cancelled
      ensures TellsExit(id, Now().exit, Now().delivery)
    {
      hide StateOf, Orderly, TellsExit;
      var exit := AwaitTask();
      Answer(DeleteTask);
      Answer(DeleteContainer);
      Deliver(id, exit);
    }

    /** The one message, sent into an empty channel, and the two deferred closes. */
    method Deliver(id: string, exit: Option<Exit>)
      requires Valid() && CleanedUp(Now()) && Now().delivery == UNDELIVERED && Now().exit == exit
      modifies this
      ensures Valid() && old(log) <= log && Now() == old(Now()).(delivery := Delivered(id, exit))
      ensures TellsExit(id, exit, Now().delivery)
    {
      hide StateOf, Orderly, TellsExit;
      DeliveredTellsExit(id, exit);
      Answer(if exit == Some(Code(0)) then SendOutput(id) else SendError(VerdictOf(exit)));
      Answer(CloseErrors);
      Answer(CloseOutput);
    }

    /** The whole life of a stress sidecar: as many removals as creations, and a verdict exactly if it was started. */
    method StressSidecar(id: string, pull: bool) returns (started: bool)
      requires log == []
      modifies this
      ensures Valid() && Now().containers == Now().containerDeletes && Now().tasks == Now().taskDeletes
      ensures Now().delivery == if started then Delivered(id, Now().exit) else UNDELIVERED
    {
      hide StateOf, Orderly;
      started := CreateStressSidecar(pull);
      if started {
        WaitStressSidecar(id);
      }
    }
  }

  function VerdictOf(exit: Option<Exit>): Failure {
    match exit
    case None => KillTimedOut
    case Some(ChannelClosed) => WaitLost
    case Some(Unreadable) => NoStatus
    case Some(Code(n)) => ExitedWith(n)
  }

  /** One message, and both channels closed. */
  function Delivered(id: string, exit: Option<Exit>): Delivery {
    if exit == Some(Code(0)) then Delivery([id], [], true, true) else Delivery([], [VerdictOf(exit)], true, true)
  }

  /** What a receiver can conclude: both channels are closed, and the one message names the way the wait ended. */
  ghost predicate TellsExit(id: string, exit: Option<Exit>, d: Delivery) {
    && d.outputClosed && d.errorsClosed && Messages(d) == 1
    && (d.output == [id] <==> exit == Some(Code(0)))
    && (forall n :: d.errors == [ExitedWith(n)] <==> exit == Some(Code(n)) && n != 0)
    && (d.errors == [KillTimedOut] <==> exit == None)
    && (d.errors == [WaitLost] <==> exit == Some(ChannelClosed))
    && (d.errors == [NoStatus] <==> exit == Some(Unreadable))
  }

  lemma DeliveredTellsExit(id: string, exit: Option<Exit>)
    ensures TellsExit(id, exit, Delivered(id, exit))
  {
  }

  // ---------- what an orderly list of calls guarantees ----------

  predicate ConsistentCounts(s: State) {
    s.containerDeletes <= s.containers <= 1 && s.tasks <= 1 && s.taskDeletes <= 1
  }

  predicate ConsistentCommands(s: State) {
    var cs := s.commands;
    && cs.succeeded <= cs.begun && |cs.begun| <= |cs.succeeded| + 1
    && (cs.process.Some? ==> cs.begun != [] && cs.process.value.cmd == cs.begun[|cs.begun| - 1])
  }

  predicate ConsistentDelivery(s: State) {
    && Messages(s.delivery) <= 1 && (Messages(s.delivery) == 1 ==> CleanedUp(s))
    && (s.delivery.errorsClosed || s.delivery.outputClosed ==> Messages(s.delivery) == 1)
  }

  predicate Consistent(s: State) {
    ConsistentCounts(s) && ConsistentCommands(s) && ConsistentDelivery(s)
  }

  lemma NothingIsConsistent()
    ensures Consistent(NOTHING)
  {
  }

  predicate IsProcessCall(c: Call) {
    c.Exec? || c.WaitProcess? || c.StartProcess? || c.ProcessExit? || c.DeleteProcess?
  }

  predicate IsCountedCall(c: Call) {
    c.NewContainer? || c.NewTask? || c.DeleteTask? || c.DeleteContainer?
  }

  lemma CountedCallKeepsCounts(s: State, c: Call)
    requires ConsistentCounts(s) && Allowed(s, c) && IsCountedCall(c)
    ensures ConsistentCounts(After(s, c))
  {
  }

  lemma OtherCallKeepsCounts(s: State, c: Call)
    requires !IsCountedCall(c)
    ensures var t := After(s, c);
      && t.containers == s.containers && t.containerDeletes == s.containerDeletes
      && t.tasks == s.tasks && t.taskDeletes == s.taskDeletes
  {
    hide AfterEvent, AfterCommand, AfterDelivery;
  }

  lemma ProcessCallKeepsCommands(s: State, c: Call)
    requires ConsistentCommands(s) && Allowed(s, c) && IsProcessCall(c)
    ensures ConsistentCommands(After(s, c))
  {
  }

  lemma OtherCallKeepsCommands(s: State, c: Call)
    requires ConsistentCommands(s) && !IsProcessCall(c)
    ensures ConsistentCommands(After(s, c))
  {
  }

  lemma DeliveryKeepsDelivery(s: State, c: Call)
    requires ConsistentDelivery(s) && Allowed(s, c) && (IsMessage(c) || IsClose(c))
    ensures ConsistentDelivery(After(s, c))
  {
    DeliveryAlone(s, c);
    hide After;
  }

  lemma DeliveryAlone(s: State, c: Call)
    requires IsMessage(c) || IsClose(c)
    ensures After(s, c) == s.(delivery := AfterDelivery(s.delivery, c))
  {
    hide AfterDelivery;
  }

  lemma OtherCallKeepsDelivery(s: State, c: Call)
    requires ConsistentCounts(s) && ConsistentDelivery(s) && Allowed(s, c) && !IsMessage(c) && !IsClose(c)
    ensures ConsistentDelivery(After(s, c))
  {
  }

  lemma SameCounts(s: State, t: State)
    requires ConsistentCounts(s)
    requires t.containers == s.containers && t.containerDeletes == s.containerDeletes
    requires t.tasks == s.tasks && t.taskDeletes == s.taskDeletes
    ensures ConsistentCounts(t)
  {
  }

  lemma AllowedKeeps(s: State, c: Call)
    requires Consistent(s) && Allowed(s, c)
    ensures Consistent(After(s, c))
  {
    hide After, Allowed, ConsistentCounts, ConsistentCommands, ConsistentDelivery;
    if IsCountedCall(c) {
      CountedCallKeepsCounts(s, c);
    } else {
      OtherCallKeepsCounts(s, c);
      SameCounts(s, After(s, c));
    }
    if IsProcessCall(c) {
      ProcessCallKeepsCommands(s, c);
    } else {
      OtherCallKeepsCommands(s, c);
    }
    if IsMessage(c) || IsClose(c) {
      DeliveryKeepsDelivery(s, c);
    } else {
      OtherCallKeepsDelivery(s, c);
    }
  }

  /**
    Whatever the calls are, an orderly list never removes more than was created, never makes a second
    container or task, and the commands that succeeded are the front of those that began.
   */
  lemma {:induction false} OrderlyIsConsistent(log: seq<Call>)
    requires Orderly(log)
    ensures Consistent(StateOf(log))
  {
    hide Allowed, Consistent;
    if log == [] {
      NothingIsConsistent();
    } else {
      var n := |log| - 1;
      FrontIsOrderly(log, n);
      OrderlyIsConsistent(log[..n]);
      AllowedKeeps(StateOf(log[..n]), log[n]);
    }
  }

  lemma FrontIsOrderly(log: seq<Call>, n: nat)
    requires Orderly(log) && n <= |log|
    ensures Orderly(log[..n])
  {
    hide Allowed, StateOf;
    forall i | 0 <= i < n ensures Allowed(StateOf(log[..n][..i]), log[..n][i]) {
      assert log[..n][..i] == log[..i];
    }
  }

  /** Deletes and messages are never taken back. */
  lemma {:induction false} Grow(log: seq<Call>, i: nat)
    requires i <= |log|
    ensures StateOf(log[..i]).containerDeletes <= StateOf(log).containerDeletes
    ensures Messages(StateOf(log[..i]).delivery) <= Messages(StateOf(log).delivery)
  {
    hide After;
    if i < |log| {
      var front := log[..|log| - 1];
      assert front[..i] == log[..i];
      Grow(front, i);
      OneMoreGrows(StateOf(front), log[|log| - 1]);
    } else {
      assert log[..i] == log;
    }
  }

  lemma OneMoreGrows(s: State, c: Call)
    ensures After(s, c).containerDeletes >= s.containerDeletes
    ensures Messages(After(s, c).delivery) >= Messages(s.delivery)
  {
    hide After;
    OneMoreDelete(s, c);
    OneMoreMessage(s, c);
  }

  lemma OneMoreDelete(s: State, c: Call)
    ensures After(s, c).containerDeletes == s.containerDeletes + (if c.DeleteContainer? then 1 else 0)
    ensures After(s, c).taskDeletes == s.taskDeletes + (if c.DeleteTask? then 1 else 0)
  {
    if IsCountedCall(c) {
      CountedDelete(s, c);
    } else {
      OtherCallKeepsCounts(s, c);
    }
    hide After;
  }

  lemma CountedDelete(s: State, c: Call)
    requires IsCountedCall(c)
    ensures After(s, c).containerDeletes == s.containerDeletes + (if c.DeleteContainer? then 1 else 0)
    ensures After(s, c).taskDeletes == s.taskDeletes + (if c.DeleteTask? then 1 else 0)
  {
    match c
    case NewContainer(_, _) =>
    case NewTask(_) =>
    case DeleteTask =>
    case DeleteContainer =>
  }

  lemma DeliveryOf(s: State, c: Call)
    ensures After(s, c).delivery == AfterDelivery(s.delivery, c)
  {
    if IsMessage(c) || IsClose(c) {
      DeliveryAlone(s, c);
    } else {
      DeliveryKept(s, c);
    }
    hide After;
  }

  lemma DeliveryKept(s: State, c: Call)
    requires !IsMessage(c) && !IsClose(c)
    ensures After(s, c).delivery == s.delivery
  {
    hide AfterEvent, AfterCommand, AfterDelivery;
  }

  lemma OneMoreMessage(s: State, c: Call)
    ensures Messages(After(s, c).delivery) == Messages(s.delivery) + (if IsMessage(c) then 1 else 0)
  {
    DeliveryOf(s, c);
    hide After, AfterCommand;
  }

  lemma {:induction false} DeletedSomewhere(log: seq<Call>)
    ensures StateOf(log).containerDeletes > 0 ==> exists k :: 0 <= k < |log| && log[k].DeleteContainer?
    ensures StateOf(log).taskDeletes > 0 ==> exists k :: 0 <= k < |log| && log[k].DeleteTask?
  {
    hide After;
    if log != [] {
      var n := |log| - 1;
      OneMoreDelete(StateOf(log[..n]), log[n]);
      DeletedSomewhere(log[..n]);
      forall k | 0 <= k < n ensures log[..n][k] == log[k] {
      }
      assert log[n] == log[|log| - 1];
    }
  }

  lemma {:induction false} SentSomewhere(log: seq<Call>)
    ensures Messages(StateOf(log).delivery) > 0 ==> exists i :: 0 <= i < |log| && IsMessage(log[i])
  {
    hide After;
    if log != [] {
      var n := |log| - 1;
      OneMoreMessage(StateOf(log[..n]), log[n]);
      SentSomewhere(log[..n]);
      forall i | 0 <= i < n ensures log[..n][i] == log[i] {
      }
      assert log[n] == log[|log| - 1];
    }
  }

  /** A message on either channel. */
  predicate IsMessage(c: Call) {
    c.SendOutput? || c.SendError?
  }

  predicate IsClose(c: Call) {
    c.CloseErrors? || c.CloseOutput?
  }

  /**
    The task and then the container were deleted before the message is sent, and nothing follows the
    message but the closing of the channels.
   */
  lemma MessageAfterCleanup(log: seq<Call>, i: nat)
    requires Orderly(log) && i < |log| && IsMessage(log[i])
    ensures exists j, k :: 0 <= j < k < i && log[j].DeleteTask? && log[k].DeleteContainer?
    ensures forall m :: i < m < |log| ==> IsClose(log[m])
  {
    hide StateOf, Orderly;
    var before := log[..i];
    StepAt(log, i);
    DeletedSomewhere(before);
    var j :| 0 <= j < i && before[j].DeleteTask?;
    var k :| 0 <= k < i && before[k].DeleteContainer?;
    if k < j {
      DeletedStays(log, k, j);
    }
    forall m | i < m < |log| ensures IsClose(log[m]) {
      MessageStays(log, i, m);
    }
  }

  /** Each channel is closed after the message. */
  lemma ClosedAfterMessage(log: seq<Call>, m: nat)
    requires Orderly(log) && m < |log| && IsClose(log[m])
    ensures exists i :: 0 <= i < m && IsMessage(log[i])
  {
    hide StateOf, Orderly;
    StepAt(log, m);
    SentSomewhere(log[..m]);
    var i :| 0 <= i < m && IsMessage(log[..m][i]);
    assert IsMessage(log[i]);
  }

  lemma StepAt(log: seq<Call>, i: nat)
    requires Orderly(log) && i < |log|
    ensures Allowed(StateOf(log[..i]), log[i])
    ensures StateOf(log[..i + 1]) == After(StateOf(log[..i]), log[i])
  {
    hide Allowed, After;
    assert log[..i + 1][..i] == log[..i];
  }

  /** After the removal nothing but the delivery is allowed. */
  lemma DeletedStays(log: seq<Call>, k: nat, j: nat)
    requires Orderly(log) && k < j < |log| && log[k].DeleteContainer?
    ensures IsMessage(log[j]) || IsClose(log[j])
  {
    hide StateOf, Orderly;
    var to := log[..j];
    StepAt(log, k);
    Grow(to, k + 1);
    assert to[..k + 1] == log[..k + 1];
    FrontIsOrderly(log, j);
    OrderlyIsConsistent(to);
    StepAt(log, j);
  }

  /** After a message there is neither another nor anything else before it but the closing. */
  lemma MessageStays(log: seq<Call>, i: nat, m: nat)
    requires Orderly(log) && i < m < |log| && IsMessage(log[i])
    ensures IsClose(log[m])
  {
    hide StateOf, Orderly;
    var to := log[..m];
    StepAt(log, i);
    Grow(to, i + 1);
    assert to[..i + 1] == log[..i + 1];
    FrontIsOrderly(log, m);
    OrderlyIsConsistent(to);
    StepAt(log, m);
  }
}
