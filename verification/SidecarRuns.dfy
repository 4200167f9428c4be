/**
  The two models of a command list meet here: whatever becomes of the sidecar that carries a list, the
  caller sees what `LoneRun` describes for some faults around the single commands. So what is proved of a
  run by itself and its faults holds of a run by itself that sends its lists through sidecars.
 */
module SidecarRuns {
  import opened Prelude
  import opened Accounts
  import opened Protocol
  import opened LoneRun
  import FaultOutcomes
  import Sidecars
  import ContainerdSidecars

  /**
    What one sidecar did with its list: the commands begun, those that ended with exit code 0, whether a
    command that was begun and not seen to succeed took effect all the same, and the verdict.
   */
  datatype Attempt = Attempt(begun: seq<Args>, succeeded: seq<Args>, unnoticed: bool, ok: bool)

  predicate IsAttempt(argsList: seq<Args>, a: Attempt) {
    && a.succeeded <= a.begun <= argsList && |a.begun| <= |a.succeeded| + 1
    && (a.ok ==> a.succeeded == argsList)
    && (a.unnoticed ==> |a.begun| > |a.succeeded|)
  }

  /** Docker: creation, start, a command or the removal may have failed. */
  lemma DockerAttempt(argsList: seq<Args>, ok: bool, body: seq<Sidecars.Call>, removal: seq<Sidecars.Call>, unnoticed: bool)
    requires Sidecars.IsSidecarRun(argsList, ok, body, removal)
    requires unnoticed ==> Sidecars.Sum(body).begun != Sidecars.Sum(body).succeeded
    ensures IsAttempt(argsList, Told(body, unnoticed, ok))
  {
  }

  /** What a Docker sidecar's log tells of its commands. */
  function Told(body: seq<Sidecars.Call>, unnoticed: bool, ok: bool): Attempt {
    Attempt(Sidecars.Sum(body).begun, Sidecars.Sum(body).succeeded, unnoticed, ok)
  }

  /** Containerd: the same, but for a failed cleanup, which is no failure. */
  lemma ContainerdAttempt(argsList: seq<Args>, ok: bool, s: ContainerdSidecars.State, unnoticed: bool)
    requires ContainerdSidecars.RunningThrough(s, argsList)
    requires ok <==> s.started && s.commands.succeeded == argsList
    requires unnoticed ==> s.commands.begun != s.commands.succeeded
    ensures IsAttempt(argsList, Attempt(s.commands.begun, s.commands.succeeded, unnoticed, ok))
  {
  }

  // ---------- the effect of an attempt ----------

  /** The namespace after commands all of which the kernel accepts, one after the other. */
  function Through(kernel: Kernel, net: Net, j: Job, cmds: seq<Args>): Option<Net> {
    if cmds == [] then Some(net)
    else
      match Through(kernel, net, j, cmds[..|cmds| - 1])
      case Some(mid) => kernel(mid, j, cmds[|cmds| - 1])
      case None => None
  }

  /**
    The commands with exit code 0 took effect, one after the other, and so did one that was begun and did
    not end so, if it was accepted unnoticed.
   */
  predicate Affects(kernel: Kernel, net: Net, j: Job, a: Attempt, net': Net) {
    var mid := Through(kernel, net, j, a.succeeded);
    && mid.Some?
    && (if a.unnoticed then |a.begun| > |a.succeeded| && kernel(mid.value, j, a.begun[|a.succeeded|]) == Some(net')
        else net' == mid.value)
  }

  /**
    The fault around command `k` that the attempt amounts to: none while commands succeed; where it
    stops, the command was lost or, if the namespace shows its effect, unreported; and if all succeeded
    and the sidecar failed after that, the report of the last one was lost.
   */
  function FaultAt(a: Attempt, n: nat, k: nat): Fault {
    if a.ok || k + 1 < |a.succeeded| || (k + 1 == |a.succeeded| && |a.succeeded| < n) then NoFault
    else if k + 1 == |a.succeeded| || (k == |a.succeeded| && a.unnoticed) then Unreported
    else Lost
  }

  predicate FaultsOf(a: Attempt, n: nat, faults: Faults, step: nat) {
    forall k | 0 <= k < n :: faults(step + k) == FaultAt(a, n, k)
  }

  /** How many commands the caller of the list model sees sent. */
  function SentBy(a: Attempt, n: nat): nat {
    if |a.succeeded| < n then |a.succeeded| + 1 else n
  }

  lemma {:induction false} WhileSucceeding(kernel: Kernel, net0: Net, faults: Faults, step: nat, net: Net, r: Run,
                                           commands: seq<Args>, a: Attempt, i: nat)
    requires AtListStart(r, commands) && IsAttempt(commands, a) && FaultsOf(a, |commands|, faults, step)
    requires ListProgress(kernel, net0, faults, step, 0, net, r, true)
    requires i <= |a.succeeded| && (i == |commands| ==> a.ok)
    requires Through(kernel, net, r.program.job, a.succeeded[..i]).Some?
    ensures ListProgress(kernel, net0, faults, step, i, Through(kernel, net, r.program.job, a.succeeded[..i]).value, r, true)
  {
    hide ListProgress, AtListStart;
    if i > 0 {
      var front := a.succeeded[..i];
      assert front[..i - 1] == a.succeeded[..i - 1] && front[i - 1] == commands[i - 1];
      assert faults(step + (i - 1)) == FaultAt(a, |commands|, i - 1) == NoFault;
      WhileSucceeding(kernel, net0, faults, step, net, r, commands, a, i - 1);
      ListStep(kernel, net0, faults, step, i - 1, Through(kernel, net, r.program.job, a.succeeded[..i - 1]).value, r, commands);
    } else {
      assert a.succeeded[..0] == [];
    }
  }

  /** The list model reaches the attempt's namespace and verdict under the attempt's faults. */
  lemma AttemptIsFaultyList(kernel: Kernel, net0: Net, faults: Faults, step: nat, net: Net, r: Run,
                            commands: seq<Args>, a: Attempt, net': Net)
    requires AtListStart(r, commands) && IsAttempt(commands, a) && commands != []
    requires ListProgress(kernel, net0, faults, step, 0, net, r, true)
    requires Affects(kernel, net, r.program.job, a, net') && FaultsOf(a, |commands|, faults, step)
    ensures ListProgress(kernel, net0, faults, step, SentBy(a, |commands|), net', r, a.ok)
  {
    hide ListProgress, AtListStart;
    var n, m := |commands|, |a.succeeded|;
    if a.ok {
      assert a.succeeded[..n] == a.succeeded;
      WhileSucceeding(kernel, net0, faults, step, net, r, commands, a, n);
    } else {
      var k := if m < n then m else n - 1;
      assert if m < n then a.succeeded[..k] == a.succeeded else a.succeeded[..k] == a.succeeded[..|a.succeeded| - 1];
      var mid := Through(kernel, net, r.program.job, a.succeeded[..k]).value;
      WhileSucceeding(kernel, net0, faults, step, net, r, commands, a, k);
      assert faults(step + k) == FaultAt(a, n, k);
      ListStep(kernel, net0, faults, step, k, mid, r, commands);
    }
  }

  // ---------- whole runs ----------

  /** The faults a run's two attempts amount to; the two steps between the lists are no commands. */
  function FaultsOfRun(install: Attempt, n: nat, undo: Attempt, m: nat): Faults {
    (k: nat) => if k < n then FaultAt(install, n, k) else if k < n + 2 then NoFault else FaultAt(undo, m, k - n - 2)
  }

  /** A run of program `p` through two sidecars: the second carries the undo list, if the first reported no error. */
  predicate IsSidecarRun(kernel: Kernel, net0: Net, p: Program, install: Attempt, net1: Net, undo: Attempt, net2: Net) {
    && p.install != [] && p.undo != []
    && IsAttempt(p.install, install) && Affects(kernel, net0, p.job, install, net1)
    && (if install.ok then IsAttempt(p.undo, undo) && Affects(kernel, net1, p.job, undo, net2) else net2 == net1)
  }

  /** Such a run ends as the run with its faults does, with the same namespace and the same verdict. */
  lemma SidecarRunIsFaultyRun(kernel: Kernel, net0: Net, p: Program, install: Attempt, net1: Net, undo: Attempt, net2: Net)
    requires IsSidecarRun(kernel, net0, p, install, net1, undo, net2)
    ensures Ends(kernel, net0, p, FaultsOfRun(install, |p.install|, undo, |p.undo|), net2, !install.ok)
  {
    hide Affects, IsAttempt;
    var n := |p.install|;
    var faults := FaultsOfRun(install, n, undo, |p.undo|);
    AttemptIsFaultyList(kernel, net0, faults, 0, net0, Start(p), p.install, install, net1);
    if install.ok {
      SentAll(p.install, install);
      UndoAttempt(kernel, net0, p, faults, net1, undo, net2);
    } else {
      EndedStays(kernel, net0, p, faults, SentBy(install, n), net1, true);
    }
  }

  /** The second half of such a run, after an install without an error. */
  lemma UndoAttempt(kernel: Kernel, net0: Net, p: Program, faults: Faults, net1: Net, undo: Attempt, net2: Net)
    requires Alone(kernel, net0, p, faults, |p.install|) == Solo(net1, Run(p, Installing, |p.install|, 0, false))
    requires p.undo != [] && IsAttempt(p.undo, undo) && Affects(kernel, net1, p.job, undo, net2)
    requires FaultsOf(undo, |p.undo|, faults, |p.install| + 2)
    ensures Ends(kernel, net0, p, faults, net2, false)
  {
    hide Affects, IsAttempt, FaultsOf, Alone;
    var n := |p.install|;
    WaitSteps(kernel, net0, net1, p, faults);
    AttemptIsFaultyList(kernel, net0, faults, n + 2, net1, Run(p, Undoing, n, 0, false), p.undo, undo, net2);
    if undo.ok {
      SentAll(p.undo, undo);
      UndoneEnds(kernel, net0, p, faults, net2);
    } else {
      EndedStays(kernel, net0, p, faults, n + 2 + SentBy(undo, |p.undo|), net2, false);
    }
  }

  lemma SentAll(commands: seq<Args>, a: Attempt)
    requires IsAttempt(commands, a) && a.ok
    ensures SentBy(a, |commands|) == |commands|
  {
  }

  /** No command of the attempt took effect, or all of them did. */
  predicate TookNothing(a: Attempt) {
    a.succeeded == [] && !a.unnoticed
  }

  predicate TookAll(commands: seq<Args>, a: Attempt) {
    a.succeeded == commands || (|a.succeeded| + 1 == |commands| && a.unnoticed)
  }

  /** When the faults of two attempts leave nothing. */
  lemma AttemptsLeaveNothingIff(p: Program, install: Attempt, undo: Attempt)
    requires p.install != [] && p.undo != [] && IsAttempt(p.install, install)
    requires install.ok ==> IsAttempt(p.undo, undo)
    ensures FaultOutcomes.LeavesNothing(p, FaultsOfRun(install, |p.install|, undo, |p.undo|))
       <==> if install.ok then TookAll(p.undo, undo) else TookNothing(install)
  {
    var n, m := |p.install|, |p.undo|;
    var faults := FaultsOfRun(install, n, undo, m);
    if install.ok {
      InstallClear(p, install, undo);
      UndoLeavesNothingIff(p, install, undo);
    } else {
      var k := if |install.succeeded| < n then |install.succeeded| else n - 1;
      assert FaultOutcomes.IsCommandStep(p, k) && faults(k) != NoFault;
      FirstFaultOfInstall(p, install, undo, k);
      FaultOutcomes.FirstFaultDecides(p, faults, k);
    }
  }

  lemma InstallClear(p: Program, install: Attempt, undo: Attempt)
    requires install.ok
    ensures FaultOutcomes.Clear(p, FaultsOfRun(install, |p.install|, undo, |p.undo|), |p.install| + 2)
  {
  }

  lemma UndoClear(p: Program, install: Attempt, undo: Attempt, j: nat)
    requires install.ok && j <= |p.undo| && forall i | 0 <= i < j :: FaultAt(undo, |p.undo|, i) == NoFault
    ensures var faults := FaultsOfRun(install, |p.install|, undo, |p.undo|);
      && FaultOutcomes.Clear(p, faults, |p.install| + 2 + j)
      && (j == |p.undo| ==> FaultOutcomes.Clear(p, faults, Enough(p)))
  {
    hide FaultAt;
    InstallClear(p, install, undo);
    var faults, n := FaultsOfRun(install, |p.install|, undo, |p.undo|), |p.install|;
    forall k | 0 <= k < n + 2 + j && FaultOutcomes.IsCommandStep(p, k) ensures faults(k) == NoFault {
      if k >= n + 2 {
        assert faults(k) == FaultAt(undo, |p.undo|, k - n - 2);
      }
    }
  }

  lemma FirstFaultOfInstall(p: Program, install: Attempt, undo: Attempt, k: nat)
    requires !install.ok && k < |p.install| && IsAttempt(p.install, install)
    requires k == if |install.succeeded| < |p.install| then |install.succeeded| else |p.install| - 1
    ensures FaultOutcomes.Clear(p, FaultsOfRun(install, |p.install|, undo, |p.undo|), k)
  {
  }

  lemma UndoLeavesNothingIff(p: Program, install: Attempt, undo: Attempt)
    requires p.install != [] && p.undo != [] && install.ok && IsAttempt(p.install, install) && IsAttempt(p.undo, undo)
    ensures FaultOutcomes.LeavesNothing(p, FaultsOfRun(install, |p.install|, undo, |p.undo|)) <==> TookAll(p.undo, undo)
  {
    var n, m := |p.install|, |p.undo|;
    var faults := FaultsOfRun(install, n, undo, m);
    if !undo.ok {
      var j := if |undo.succeeded| < m then |undo.succeeded| else m - 1;
      var k := n + 2 + j;
      assert FaultOutcomes.IsCommandStep(p, k) && faults(k) == FaultAt(undo, m, j) != NoFault;
      UndoClear(p, install, undo, j);
      FaultOutcomes.FirstFaultDecides(p, faults, k);
    } else {
      UndoClear(p, install, undo, m);
    }
  }

  /**
    A run through sidecars restores the namespace exactly if the interface was missing or taken from the
    start; or its install failed before any command took effect; or its install succeeded and every undo
    command took effect, noticed or not.
   */
  lemma SidecarRunRestoredIff(canon: Args -> Args, net0: Net, p: Program, install: Attempt, net1: Net, undo: Attempt, net2: Net)
    requires p == ProgramOf(p.job, p.target) && IsSidecarRun(Linux(canon), net0, p, install, net1, undo, net2)
    ensures net2 == net0
       <==> !FaultOutcomes.Startable(net0, p) || (if install.ok then TookAll(p.undo, undo) else TookNothing(install))
  {
    hide Exec, ProgramOf, Affects, IsAttempt, FaultOutcomes.Startable, FaultOutcomes.LeavesNothing, FaultsOfRun;
    SidecarRunIsFaultyRun(Linux(canon), net0, p, install, net1, undo, net2);
    AttemptsLeaveNothingIff(p, install, undo);
    FaultOutcomes.RestoredIff(canon, net0, p, FaultsOfRun(install, |p.install|, undo, |p.undo|), net2, !install.ok);
  }

  /** The same on the logs of two Docker sidecars. */
  lemma DockerRunRestoredIff(canon: Args -> Args, net0: Net, p: Program,
                             ok1: bool, body1: seq<Sidecars.Call>, removal1: seq<Sidecars.Call>, unnoticed1: bool, net1: Net,
                             ok2: bool, body2: seq<Sidecars.Call>, removal2: seq<Sidecars.Call>, unnoticed2: bool, net2: Net)
    requires p == ProgramOf(p.job, p.target) && p.install != [] && p.undo != []
    requires Sidecars.IsSidecarRun(p.install, ok1, body1, removal1)
    requires Affects(Linux(canon), net0, p.job, Told(body1, unnoticed1, ok1), net1)
    requires ok1 ==> Sidecars.IsSidecarRun(p.undo, ok2, body2, removal2)
    requires if ok1 then Affects(Linux(canon), net1, p.job, Told(body2, unnoticed2, ok2), net2) else net2 == net1
    ensures net2 == net0
       <==> !FaultOutcomes.Startable(net0, p)
            || (if ok1 then TookAll(p.undo, Told(body2, unnoticed2, ok2)) else TookNothing(Told(body1, unnoticed1, ok1)))
    ensures ok1 && ok2 ==> net2 == net0
  {
    hide Exec, ProgramOf, Through, Sidecars.IsSidecarRun, Sidecars.Sum, FaultOutcomes.Startable;
    DockerAttempt(p.install, ok1, body1, removal1, unnoticed1);
    if ok1 {
      DockerAttempt(p.undo, ok2, body2, removal2, unnoticed2);
    }
    SidecarRunRestoredIff(canon, net0, p, Told(body1, unnoticed1, ok1), net1, Told(body2, unnoticed2, ok2), net2);
  }

  /** The same on the final states of two containerd sidecars. */
  lemma ContainerdRunRestoredIff(canon: Args -> Args, net0: Net, p: Program,
                                 ok1: bool, s1: ContainerdSidecars.State, unnoticed1: bool, net1: Net,
                                 ok2: bool, s2: ContainerdSidecars.State, unnoticed2: bool, net2: Net)
    requires p == ProgramOf(p.job, p.target) && p.install != [] && p.undo != []
    requires ContainerdSidecars.RunningThrough(s1, p.install) && (ok1 <==> s1.started && s1.commands.succeeded == p.install)
    requires Affects(Linux(canon), net0, p.job, Attempt(s1.commands.begun, s1.commands.succeeded, unnoticed1, ok1), net1)
    requires ok1 ==> ContainerdSidecars.RunningThrough(s2, p.undo) && (ok2 <==> s2.started && s2.commands.succeeded == p.undo)
    requires if ok1 then Affects(Linux(canon), net1, p.job, Attempt(s2.commands.begun, s2.commands.succeeded, unnoticed2, ok2), net2)
             else net2 == net1
    ensures net2 == net0
       <==> !FaultOutcomes.Startable(net0, p)
            || (if ok1 then TookAll(p.undo, Attempt(s2.commands.begun, s2.commands.succeeded, unnoticed2, ok2))
                else TookNothing(Attempt(s1.commands.begun, s1.commands.succeeded, unnoticed1, ok1)))
    ensures ok1 && ok2 ==> net2 == net0
  {
    hide Exec, ProgramOf, Through, FaultOutcomes.Startable;
    ContainerdAttempt(p.install, ok1, s1, unnoticed1);
    if ok1 {
      ContainerdAttempt(p.undo, ok2, s2, unnoticed2);
    }
    SidecarRunRestoredIff(canon, net0, p, Attempt(s1.commands.begun, s1.commands.succeeded, unnoticed1, ok1), net1,
                          Attempt(s2.commands.begun, s2.commands.succeeded, unnoticed2, ok2), net2);
  }
}
