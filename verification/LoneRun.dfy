/**
  One run by itself, step by step as the code takes it: a list of commands sent one at a time
  into a namespace until the first failure, a wait, and the undo list. The methods are proved
  to follow the state machine of `Protocol`; `FaultOutcomes` says what such a run leaves behind.
 */
module LoneRun {
  import opened Prelude
  import opened TrafficControl
  import opened NetemPrograms
  import opened Firewall
  import opened Accounts
  import opened Protocol
  import DockerCommands
  import ContainerdCommands

  /** The fault around each step; steps that are not commands have none. */
  type Faults = nat -> Fault

  /** One command against the namespace, with the fault around it: what is left, and whether success is reported. */
  function Call(kernel: Kernel, net: Net, j: Job, cmd: Args, fault: Fault): (Net, bool) {
    var out := kernel(net, j, cmd);
    (if out.Some? && fault != Lost then out.value else net, out.Some? && fault == NoFault)
  }

  /**
    What an error tells the caller: every accepted command shows, so after a success the namespace differs,
    and after an error it differs exactly if the command was accepted and only its report was lost.
   */
  lemma ErrorHidesEffectIff(canon: Args -> Args, net: Net, j: Job, cmd: Args, fault: Fault)
    ensures var (net', ok) := Call(Linux(canon), net, j, cmd, fault);
      if ok then net' != net else net' != net <==> fault == Unreported && Exec(canon, net, j, cmd).Some?
  {
    var out := Exec(canon, net, j, cmd);
    if out.Some? {
      match j
      case NetemJob(_, _) =>
        var (iface, op) := ReadTc(cmd).value;
        AppliedShows(net.trees[iface], op);
        assert out.value.trees[iface] != net.trees[iface];
      case LossJob(_, _) =>
        assert |out.value.chain| != |net.chain|;
    }
  }

  /** A run and the namespace it has for itself. */
  datatype Solo = Solo(net: Net, run: Run)

  function SoloStep(kernel: Kernel, s: Solo, fault: Fault): Solo {
    match NextCommand(s.run)
    case None => Solo(s.net, AfterPause(s.run))
    case Some(cmd) =>
      var out := kernel(s.net, s.run.program.job, cmd);
      if out.Some? && fault != Lost
      then Solo(out.value, AfterCommand(Counted(s.run), fault == NoFault, fault != NoFault))
      else Solo(s.net, AfterCommand(s.run, false, fault != NoFault))
  }

  /** It is the step of `Protocol` on a system whose one container is the run's target. */
  lemma SoloIsRunStep(kernel: Kernel, s: Solo, fault: Fault)
    ensures var c := s.run.program.target;
      RunStep(kernel, map[c := s.net], s.run, fault)
      == (map[c := SoloStep(kernel, s, fault).net], SoloStep(kernel, s, fault).run)
  {
    var c := s.run.program.target;
    assert forall m: Net :: map[c := s.net][c := m] == map[c := m];
  }

  /** The run and its namespace after `n` steps. */
  function Alone(kernel: Kernel, net: Net, p: Program, faults: Faults, n: nat): Solo {
    if n == 0 then Solo(net, Start(p)) else SoloStep(kernel, Alone(kernel, net, p, faults, n - 1), faults(n - 1))
  }

  /** More steps than any run takes. */
  function Enough(p: Program): nat {
    |p.install| + |p.undo| + 3
  }

  /** By step `n` the run has returned, with this error or none, and the namespace is this. */
  predicate EndedBy(kernel: Kernel, net0: Net, p: Program, faults: Faults, n: nat, net: Net, failed: bool) {
    var s := Alone(kernel, net0, p, faults, n);
    s.net == net && s.run.phase == Returned(failed)
  }

  /** How the run ends. */
  predicate Ends(kernel: Kernel, net0: Net, p: Program, faults: Faults, net: Net, failed: bool) {
    EndedBy(kernel, net0, p, faults, Enough(p), net, failed)
  }

  lemma {:induction false} ReturnedStays(kernel: Kernel, net0: Net, p: Program, faults: Faults, n: nat, m: nat)
    requires n <= m && Alone(kernel, net0, p, faults, n).run.phase.Returned?
    ensures Alone(kernel, net0, p, faults, m) == Alone(kernel, net0, p, faults, n)
  {
    if n < m {
      ReturnedStays(kernel, net0, p, faults, n, m - 1);
    }
  }

  lemma EndedStays(kernel: Kernel, net0: Net, p: Program, faults: Faults, n: nat, net: Net, failed: bool)
    requires EndedBy(kernel, net0, p, faults, n, net, failed) && n <= Enough(p)
    ensures Ends(kernel, net0, p, faults, net, failed)
  {
    ReturnedStays(kernel, net0, p, faults, n, Enough(p));
  }

  /** The undo list went through: the next step returns without an error. */
  lemma UndoneEnds(kernel: Kernel, net0: Net, p: Program, faults: Faults, net: Net)
    requires Alone(kernel, net0, p, faults, |p.install| + 2 + |p.undo|)
          == Solo(net, Run(p, Undoing, |p.install|, |p.undo|, false))
    ensures Ends(kernel, net0, p, faults, net, false)
  {
    assert Enough(p) == |p.install| + 2 + |p.undo| + 1;
  }

  /** The end of the install and the end of the wait are steps that change nothing but the phase. */
  lemma WaitSteps(kernel: Kernel, net0: Net, net: Net, p: Program, faults: Faults)
    requires Alone(kernel, net0, p, faults, |p.install|) == Solo(net, Run(p, Installing, |p.install|, 0, false))
    ensures Alone(kernel, net0, p, faults, |p.install| + 2) == Solo(net, Run(p, Undoing, |p.install|, 0, false))
  {
    assert Alone(kernel, net0, p, faults, |p.install| + 1) == Solo(net, Run(p, Waiting, |p.install|, 0, false));
  }

  /** A run after `i` commands of its current list. */
  function At(r: Run, i: nat): Run {
    if r.phase.Installing? then r.(done := i) else r.(undone := i)
  }

  /** `r` is at the start of the list `commands`. */
  predicate AtListStart(r: Run, commands: seq<Args>) {
    && !r.faulted
    && (if r.phase.Installing? then r.done == 0 && commands == r.program.install
        else r.phase.Undoing? && r.undone == 0 && commands == r.program.undo)
  }

  /** After `i` commands of a list begun at step `n` by run `r`: it is going on, or the run has ended. */
  predicate ListProgress(kernel: Kernel, net0: Net, faults: Faults, n: nat, i: nat, net: Net, r: Run, ok: bool) {
    if ok then Alone(kernel, net0, r.program, faults, n + i) == Solo(net, At(r, i))
    else EndedBy(kernel, net0, r.program, faults, n + i, net, r.phase.Installing?)
  }

  lemma ListStep(kernel: Kernel, net0: Net, faults: Faults, n: nat, i: nat, net: Net, r: Run, commands: seq<Args>)
    requires AtListStart(r, commands) && i < |commands|
    requires ListProgress(kernel, net0, faults, n, i, net, r, true)
    ensures var (net', ok) := Call(kernel, net, r.program.job, commands[i], faults(n + i));
      ListProgress(kernel, net0, faults, n, i + 1, net', r, ok)
  {
    assert NextCommand(At(r, i)) == Some(commands[i]);
    assert n + (i + 1) == n + i + 1;
  }

  // ---------- the code ----------

  class Netns {
    const target: string
    var net: Net

    constructor (target: string, net: Net)
      ensures this.target == target && this.net == net
    {
      this.target, this.net := target, net;
    }

    /** One command in the target: its own failure, or a fault around it, is reported the same way. */
    method ExecInContainer(kernel: Kernel, j: Job, cmd: Args, fault: Fault) returns (ok: bool)
      modifies this
      ensures (net, ok) == Call(kernel, old(net), j, cmd, fault)
    {
      var out := kernel(net, j, cmd);
      if out.Some? && fault != Lost {
        net := out.value;
      }
      ok := out.Some? && fault == NoFault;
    }

    /** Commands go out in order; the first error ends the list. `step` is the number of steps taken before. */
    method RunCommands(kernel: Kernel, commands: seq<Args>, faults: Faults, step: nat,
                       ghost net0: Net, ghost r: Run, j: Job)
      returns (ok: bool, sent: nat)
      requires r.program.job == j && AtListStart(r, commands)
      requires ListProgress(kernel, net0, faults, step, 0, net, r, true)
      modifies this
      ensures sent <= |commands| && (ok ==> sent == |commands|)
      ensures ListProgress(kernel, net0, faults, step, sent, net, r, ok)
    {
      sent, ok := 0, true;
      while sent < |commands| && ok
        invariant sent <= |commands|
        invariant ListProgress(kernel, net0, faults, step, sent, net, r, ok)
        decreases |commands| - sent
      {
        ListStep(kernel, net0, faults, step, sent, net, r, commands);
        ok := ExecInContainer(kernel, j, commands[sent], faults(step + sent));
        sent := sent + 1;
      }
    }
  }

  /** Install, wait for the duration or a cancellation, undo. Either way of waking leads to the same undo. */
  method RunNetem(ns: Netns, kernel: Kernel, req: NetemRequest, adapter: Adapter, faults: Faults)
    returns (failed: bool)
    modifies ns
    ensures Ends(kernel, old(ns.net), ProgramOf(NetemJob(req, adapter), ns.target), faults, ns.net, failed)
  {
    ghost var p := ProgramOf(NetemJob(req, adapter), ns.target);
    var install, undo;
    if adapter.Docker? {
      install := DockerCommands.NetemContainer(req);
      undo := DockerCommands.StopNetemContainer(req);
    } else {
      install := ContainerdCommands.NetemContainer(req);
      undo := ContainerdCommands.StopNetemContainer(req);
    }
    failed := RunInstallAndUndo(ns, kernel, p, install, undo, NetemJob(req, adapter), faults);
  }

  /** The same protocol for firewall rules; the two requests differ in their prefix. */
  method RunIPTables(ns: Netns, kernel: Kernel, loss: Loss, base: IPTablesRequest, adapter: Adapter, faults: Faults)
    returns (failed: bool)
    modifies ns
    ensures Ends(kernel, old(ns.net), ProgramOf(LossJob(loss, base), ns.target), faults, ns.net, failed)
  {
    ghost var p := ProgramOf(LossJob(loss, base), ns.target);
    var addReq, delReq := LossRequests(loss, base);
    var install, undo := SendsFor(addReq, delReq, adapter);
    failed := RunInstallAndUndo(ns, kernel, p, install, undo, LossJob(loss, base), faults);
  }

  /** The request to install and its mirror, from the same base. */
  method LossRequests(loss: Loss, base: IPTablesRequest) returns (addReq: IPTablesRequest, delReq: IPTablesRequest)
    ensures addReq == AddRequest(loss, base) && delReq == DelRequest(loss, base)
  {
    var addPrefix, delPrefix, suffix := BuildIPTablesCmd(loss);
    addReq := base.(prefix := addPrefix, suffix := suffix);
    delReq := addReq.(prefix := delPrefix);
  }

  method SendsFor(addReq: IPTablesRequest, delReq: IPTablesRequest, adapter: Adapter)
    returns (install: seq<Args>, undo: seq<Args>)
    ensures install == Issued(addReq) && undo == Issued(delReq)
  {
    if adapter.Docker? {
      install := DockerCommands.IPTablesContainer(addReq);
      undo := DockerCommands.IPTablesContainer(delReq);
    } else {
      install := ContainerdCommands.IPTablesContainer(addReq);
      undo := ContainerdCommands.IPTablesContainer(delReq);
    }
  }

  /** The add and del prefix and the shared suffix, grown piece by piece. */
  method BuildIPTablesCmd(l: Loss) returns (addCmdPrefix: Args, delCmdPrefix: Args, cmdSuffix: Args)
    ensures addCmdPrefix == ["-I", "INPUT"] + RuleHead(l)
    ensures delCmdPrefix == ["-D", "INPUT"] + RuleHead(l)
    ensures cmdSuffix == RuleTail(l)
  {
    var cmdPrefix := ["INPUT", "-i", l.iface];
    if l.protocol != "any" {
      cmdPrefix := cmdPrefix + ["-p", l.protocol];
    }
    addCmdPrefix := ["-I"] + cmdPrefix;
    delCmdPrefix := ["-D"] + cmdPrefix;
    assert cmdPrefix == ["INPUT"] + RuleHead(l);
    assert addCmdPrefix == ["-I", "INPUT"] + RuleHead(l);
    assert delCmdPrefix == ["-D", "INPUT"] + RuleHead(l);
    match l.mode
    case Random(probability) =>
      cmdSuffix := ["-m", "statistic", "--mode", "random"];
      cmdSuffix := cmdSuffix + ["--probability", probability];
      cmdSuffix := cmdSuffix + ["-j", "DROP"];
    case Nth(every, packet) =>
      cmdSuffix := ["-m", "statistic", "--mode", "nth"];
      cmdSuffix := cmdSuffix + ["--every", every, "--packet", packet];
      cmdSuffix := cmdSuffix + ["-j", "DROP"];
  }

  method RunInstallAndUndo(ns: Netns, kernel: Kernel, ghost p: Program, install: seq<Args>, undo: seq<Args>,
                           j: Job, faults: Faults)
    returns (failed: bool)
    requires p.target == ns.target && p.job == j && p.install == install && p.undo == undo
    modifies ns
    ensures Ends(kernel, old(ns.net), p, faults, ns.net, failed)
  {
    ghost var net0 := ns.net;
    var ok;
    var sent;
    ok, sent := ns.RunCommands(kernel, install, faults, 0, net0, Start(p), j);
    if !ok {
      EndedStays(kernel, net0, p, faults, sent, ns.net, true);
      return true;
    }
    WaitSteps(kernel, net0, ns.net, p, faults);
    ok, sent := ns.RunCommands(kernel, undo, faults, |install| + 2, net0, Run(p, Undoing, |install|, 0, false), j);
    if ok {
      UndoneEnds(kernel, net0, p, faults, ns.net);
    } else {
      EndedStays(kernel, net0, p, faults, |install| + 2 + sent, ns.net, false);
    }
    failed := false;
  }
}
