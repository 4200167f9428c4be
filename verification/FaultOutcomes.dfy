/** What one run leaves behind, exactly, when the first fault meets any one of its commands, or none. */
module FaultOutcomes {
  import opened Prelude
  import opened TrafficControl
  import opened Firewall
  import opened Accounts
  import opened Protocol
  import opened LoneRun
  import opened ExactChains
  import Concurrency

  /** A netem run's interface exists and is bare, so that its first command is not refused. */
  predicate Startable(net: Net, p: Program) {
    && p == ProgramOf(p.job, p.target)
    && (p.job.NetemJob? ==> p.job.req.iface in net.trees && net.trees[p.job.req.iface] == Bare)
  }

  /** The namespace differs from `net0` by what the counters of `r` say and by nothing else. */
  ghost predicate LeftBy(canon: Args -> Args, net0: Net, net: Net, r: Run) {
    match r.program.job
    case NetemJob(req, _) =>
      net.chain == net0.chain && net.trees == if r.done == 0 then net0.trees else net0.trees[req.iface := Held(r)]
    case LossJob(_, _) =>
      net.trees == net0.trees && ExactChain(canon, net0, net, r)
  }

  /** The invariant of the system a run alone forms with its namespace. */
  ghost predicate SoloInv(canon: Args -> Args, net0: Net, p: Program, s: Solo) {
    && s.run.program == p && RunInv(map[p.target := s.net], s.run)
    && s.net.trees.Keys == net0.trees.Keys
    && NetsInv(map[p.target := net0], map[p.target := s.net], [AccountOf(canon, s.run)])
    && (p.job.LossJob? ==> ExactChain(canon, net0, s.net, s.run))
  }

  lemma SoloStart(canon: Args -> Args, net0: Net, p: Program)
    ensures SoloInv(canon, net0, p, Solo(net0, Start(p)))
  {
    InitiallyExplained(map[p.target := net0], [AccountOf(canon, Start(p))]);
    assert [] + net0.chain == net0.chain;
    assert Spelled(canon, p.job)[..0] == [];
  }

  lemma SoloChainStaysExact(canon: Args -> Args, net0: Net, p: Program, t: Solo, fault: Fault)
    requires p == ProgramOf(p.job, p.target) && SoloInv(canon, net0, p, t)
    ensures var s := SoloStep(Linux(canon), t, fault); p.job.LossJob? ==> ExactChain(canon, net0, s.net, s.run)
  {
    hide Exec, ProgramOf, NetsInv, AccountOf, SoloStep, ExactChain;
    RunInvAt(map[p.target := t.net], t.run);
    if p.job.LossJob? {
      StepKeepsExactChain(canon, net0, t, fault);
    }
  }

  lemma SoloStepKeeps(canon: Args -> Args, net0: Net, p: Program, t: Solo, fault: Fault)
    requires p == ProgramOf(p.job, p.target) && SoloInv(canon, net0, p, t)
    ensures SoloInv(canon, net0, p, SoloStep(Linux(canon), t, fault))
  {
    hide Exec, ProgramOf, NetsInv, RunInv, AccountOf, SoloStep, RunStep, ExactChain;
    SoloChainStaysExact(canon, net0, p, t, fault);
    var c := p.target;
    var s := SoloStep(Linux(canon), t, fault);
    SoloIsRunStep(Linux(canon), t, fault);
    RunStepKeeps(canon, map[c := net0], map[c := t.net], [AccountOf(canon, t.run)], 0, t.run, fault);
    assert [AccountOf(canon, t.run)][0 := AccountOf(canon, s.run)] == [AccountOf(canon, s.run)];
    assert map[c := t.net][c].trees.Keys == map[c := s.net][c].trees.Keys;
  }

  lemma RunInvAt(nets: Nets, r: Run)
    requires RunInv(nets, r)
    ensures r.phase.Installing? ==> r.undone == 0
    ensures r.phase.Undoing? ==> r.done == |r.program.install|
  {
  }

  lemma {:induction false} AloneInv(canon: Args -> Args, net0: Net, p: Program, faults: Faults, n: nat)
    requires p == ProgramOf(p.job, p.target)
    ensures SoloInv(canon, net0, p, Alone(Linux(canon), net0, p, faults, n))
  {
    hide Exec, ProgramOf, SoloInv, SoloStep;
    if n == 0 {
      SoloStart(canon, net0, p);
    } else {
      AloneInv(canon, net0, p, faults, n - 1);
      SoloStepKeeps(canon, net0, p, Alone(Linux(canon), net0, p, faults, n - 1), faults(n - 1));
    }
  }

  lemma SingleChain(canon: Args -> Args, net0: Net, net: Net, c: string, a: Account)
    requires ChainsInv(map[c := net0], map[c := net], [a]) && a.target == c
    ensures ChainInv(net0.chain, net.chain, a.live)
    ensures a.live == multiset{} ==> net.chain == net0.chain
  {
    assert c in map[c := net0];
    assert ChainExplained(map[c := net0], map[c := net], [a], c);
    assert LiveOn([a], c) == a.live by { assert [a][1..] == []; }
    ChainRestored(net0.chain, net.chain, a.live);
  }

  lemma SingleTree(net0: Net, net: Net, c: string, a: Account)
    requires TreesInv(map[c := net0], map[c := net], [a]) && a.target == c
    ensures a.tree == Bare ==> net.trees == net0.trees
    ensures a.iface in net0.trees && net0.trees[a.iface] == Bare ==> net.trees == net0.trees[a.iface := a.tree]
  {
    hide TreeInv;
    assert c in map[c := net0];
    assert net.trees.Keys == net0.trees.Keys;
    forall i | i in net0.trees ensures TreeInv([a], c, i, net0.trees[i], net.trees[i]) {
      assert i in map[c := net0][c].trees;
    }
    forall i | i in net0.trees
      ensures net.trees[i] == net0.trees[i] || (i == a.iface && a.tree.Rooted? && net.trees[i] == a.tree)
      ensures i == a.iface && a.tree.Rooted? ==> net.trees[i] == a.tree
    {
      SingleTreeAt(c, a, i, net0.trees[i], net.trees[i]);
    }
  }

  lemma SingleTreeAt(c: string, a: Account, i: string, tree0: Tree, tree: Tree)
    requires TreeInv([a], c, i, tree0, tree) && a.target == c
    ensures tree == tree0 || (i == a.iface && a.tree.Rooted? && tree == a.tree)
    ensures i == a.iface && a.tree.Rooted? ==> tree == a.tree
  {
    assert Holds([a][0], c, i) <==> (i == a.iface && a.tree.Rooted?);
  }

  lemma SingleAccount(canon: Args -> Args, net0: Net, s: Solo)
    requires SoloInv(canon, net0, s.run.program, s) && Startable(net0, s.run.program)
    ensures LeftBy(canon, net0, s.net, s.run)
  {
    hide ProgramOf, ChainInv, TreeInv, ExactChain;
    var c := s.run.program.target;
    var a := AccountOf(canon, s.run);
    SingleChain(canon, net0, s.net, c, a);
    SingleTree(net0, s.net, c, a);
    assert s.run.program.job.NetemJob? ==> a.live == multiset{};
    assert s.run.program.job.LossJob? || s.run.done == 0 ==> a.tree == Bare;
  }

  lemma AloneLeft(canon: Args -> Args, net0: Net, p: Program, faults: Faults, n: nat)
    requires Startable(net0, p)
    ensures var s := Alone(Linux(canon), net0, p, faults, n);
      s.run.program == p && LeftBy(canon, net0, s.net, s.run)
  {
    hide Exec, ProgramOf, SoloStep, LeftBy;
    AloneInv(canon, net0, p, faults, n);
    SingleAccount(canon, net0, Alone(Linux(canon), net0, p, faults, n));
  }

  /** Without a fault around it, no command of a run alone fails. */
  lemma NextSucceeds(canon: Args -> Args, net0: Net, p: Program, faults: Faults, n: nat)
    requires Startable(net0, p) && NextCommand(Alone(Linux(canon), net0, p, faults, n).run).Some?
    ensures var s := Alone(Linux(canon), net0, p, faults, n);
      Linux(canon)(s.net, p.job, NextCommand(s.run).value).Some?
  {
    var s := Alone(Linux(canon), net0, p, faults, n);
    AloneInv(canon, net0, p, faults, n);
    AloneLeft(canon, net0, p, faults, n);
    var nets := map[p.target := s.net];
    CommandEffect(canon, map[p.target := net0], nets, [AccountOf(canon, s.run)], 0, s.run);
    assert Attempt(Linux(canon), nets, s.run, NextCommand(s.run).value)
        == Linux(canon)(s.net, p.job, NextCommand(s.run).value);
    if s.run.done == 0 && p.job.NetemJob? {
      FirstSucceeds(canon, s.net, s.run);
    }
  }

  lemma FirstSucceeds(canon: Args -> Args, net: Net, r: Run)
    requires Startable(net, r.program) && r.program.job.NetemJob?
    requires NextCommand(r).Some? && r.done == 0 && r.undone == 0
    requires r.phase.Undoing? ==> |r.program.install| == 0
    ensures Exec(canon, net, r.program.job, NextCommand(r).value).Some?
  {
    EmptyTogether(r.program.job, r.program.target);
    NetemEffect(canon, net, r);
  }

  /** The steps of a run that are commands; the end of the install and the end of the wait are not. */
  predicate IsCommandStep(p: Program, k: nat) {
    k < |p.install| || |p.install| + 2 <= k < |p.install| + 2 + |p.undo|
  }

  /** No command before step `n` meets a fault. */
  predicate Clear(p: Program, faults: Faults, n: nat) {
    forall k | 0 <= k < n && IsCommandStep(p, k) :: faults(k) == NoFault
  }

  lemma CommandSucceeded(kernel: Kernel, net0: Net, p: Program, faults: Faults, n: nat)
    requires var s := Alone(kernel, net0, p, faults, n);
      && s.run.program == p && NextCommand(s.run).Some?
      && kernel(s.net, p.job, NextCommand(s.run).value).Some? && faults(n) == NoFault
    ensures Alone(kernel, net0, p, faults, n + 1).run == Counted(Alone(kernel, net0, p, faults, n).run).(faulted := false)
  {
  }

  lemma {:induction false} InstallGoesOn(canon: Args -> Args, net0: Net, p: Program, faults: Faults, i: nat)
    requires Startable(net0, p) && i <= |p.install| && Clear(p, faults, i)
    ensures Alone(Linux(canon), net0, p, faults, i).run == Run(p, Installing, i, 0, false)
  {
    hide Exec, ProgramOf, SoloStep, Startable;
    if i > 0 {
      InstallGoesOn(canon, net0, p, faults, i - 1);
      NextSucceeds(canon, net0, p, faults, i - 1);
      assert IsCommandStep(p, i - 1);
      CommandSucceeded(Linux(canon), net0, p, faults, i - 1);
    }
  }

  lemma {:induction false} UndoGoesOn(canon: Args -> Args, net0: Net, p: Program, faults: Faults, j: nat)
    requires Startable(net0, p) && j <= |p.undo| && Clear(p, faults, |p.install| + 2 + j)
    ensures Alone(Linux(canon), net0, p, faults, |p.install| + 2 + j).run == Run(p, Undoing, |p.install|, j, false)
  {
    hide Exec, ProgramOf, SoloStep, Startable;
    if j == 0 {
      InstallGoesOn(canon, net0, p, faults, |p.install|);
      WaitSteps(Linux(canon), net0, Alone(Linux(canon), net0, p, faults, |p.install|).net, p, faults);
    } else {
      var n := |p.install| + 2 + (j - 1);
      UndoGoesOn(canon, net0, p, faults, j - 1);
      NextSucceeds(canon, net0, p, faults, n);
      assert IsCommandStep(p, n);
      CommandSucceeded(Linux(canon), net0, p, faults, n);
    }
  }

  /** Faults change how far a run got: a lost command did not happen, an unreported one did. */
  function Reached(k: nat, fault: Fault): nat {
    if fault == Unreported then k + 1 else k
  }

  /** The first `k` rules of a packet-loss run, as the kernel spells them. */
  function FirstRules(canon: Args -> Args, p: Program, k: nat): seq<Args> {
    if k <= |Spelled(canon, p.job)| then Spelled(canon, p.job)[..k] else []
  }

  /** The chain is the original one with `front` before it, and nothing else differs. */
  predicate InFrontOf(front: seq<Args>, net0: Net, net: Net) {
    net == net0.(chain := front + net0.chain)
  }

  /** The exact chain of a lone packet-loss run at any step. */
  lemma LossLeft(canon: Args -> Args, net0: Net, p: Program, faults: Faults, n: nat)
    requires Startable(net0, p) && p.job.LossJob?
    ensures var s := Alone(Linux(canon), net0, p, faults, n);
      && InFrontOf(Without(Stacked(FirstRules(canon, p, s.run.done)), FirstRules(canon, p, s.run.undone)), net0, s.net)
      && (s.run.undone == 0 ==> InFrontOf(Stacked(FirstRules(canon, p, s.run.done)), net0, s.net))
  {
    hide Exec, ProgramOf, SoloStep, NetsInv, Stacked, Rules;
    AloneInv(canon, net0, p, faults, n);
    AloneLeft(canon, net0, p, faults, n);
    Concurrency.Lengths(p.job, p.target);
  }

  /** A fault ends the run at once; the command counts if it happened. */
  lemma FaultStops(kernel: Kernel, net0: Net, p: Program, faults: Faults, n: nat, i: nat)
    requires var s := Alone(kernel, net0, p, faults, n);
      && s.run.program == p && NextCommand(s.run).Some?
      && kernel(s.net, p.job, NextCommand(s.run).value).Some? && faults(n) != NoFault
      && i == (if s.run.phase.Installing? then s.run.done else s.run.undone)
    requires n < Enough(p)
    ensures var r := Alone(kernel, net0, p, faults, n).run;
      Alone(kernel, net0, p, faults, Enough(p)).run
      == At(r, Reached(i, faults(n))).(phase := Returned(r.phase.Installing?), faulted := true)
  {
    ReturnedStays(kernel, net0, p, faults, n + 1, Enough(p));
  }

  /**
    The first fault is at install command `k`: the run fails, sends no undo command at all, and
    leaves exactly the effect of the commands that happened; for packet loss, their rules in front of
    the chain, the last one first. That is nothing exactly if the very first command was lost.
   */
  lemma InstallFaultOutcome(canon: Args -> Args, net0: Net, p: Program, faults: Faults, k: nat)
    requires Startable(net0, p) && k < |p.install| && Clear(p, faults, k) && faults(k) != NoFault
    ensures var s := Alone(Linux(canon), net0, p, faults, Enough(p));
      && s.run == Run(p, Returned(true), Reached(k, faults(k)), 0, true)
      && LeftBy(canon, net0, s.net, s.run)
      && (p.job.LossJob? ==> InFrontOf(Stacked(FirstRules(canon, p, Reached(k, faults(k)))), net0, s.net))
      && (s.net == net0 <==> k == 0 && faults(k) == Lost)
  {
    hide Exec, ProgramOf, SoloStep, LeftBy;
    InstallGoesOn(canon, net0, p, faults, k);
    NextSucceeds(canon, net0, p, faults, k);
    FaultStops(Linux(canon), net0, p, faults, k, k);
    AloneLeft(canon, net0, p, faults, Enough(p));
    AloneRestoredIff(canon, net0, p, faults, Enough(p));
    Concurrency.Lengths(p.job, p.target);
    if p.job.LossJob? {
      LossLeft(canon, net0, p, faults, Enough(p));
    }
  }

  /**
    The first fault is at undo command `j`: the run still reports no error, and leaves exactly the
    whole installation minus the undo commands that happened; for packet loss, all its rules with those
    deleted one by one. That is nothing exactly if only the report of the very last command was lost.
   */
  lemma UndoFaultOutcome(canon: Args -> Args, net0: Net, p: Program, faults: Faults, j: nat)
    requires Startable(net0, p) && j < |p.undo|
    requires Clear(p, faults, |p.install| + 2 + j) && faults(|p.install| + 2 + j) != NoFault
    ensures var s := Alone(Linux(canon), net0, p, faults, Enough(p));
      && s.run == Run(p, Returned(false), |p.install|, Reached(j, faults(|p.install| + 2 + j)), true)
      && LeftBy(canon, net0, s.net, s.run)
      && (p.job.LossJob? ==>
            InFrontOf(Without(Stacked(FirstRules(canon, p, |p.install|)),
                              FirstRules(canon, p, Reached(j, faults(|p.install| + 2 + j)))), net0, s.net))
      && (s.net == net0 <==> j == |p.undo| - 1 && faults(|p.install| + 2 + j) == Unreported)
  {
    hide Exec, ProgramOf, SoloStep, LeftBy;
    var n := |p.install| + 2 + j;
    UndoGoesOn(canon, net0, p, faults, j);
    NextSucceeds(canon, net0, p, faults, n);
    FaultStops(Linux(canon), net0, p, faults, n, j);
    AloneLeft(canon, net0, p, faults, Enough(p));
    AloneRestoredIff(canon, net0, p, faults, Enough(p));
    Concurrency.Lengths(p.job, p.target);
    if p.job.LossJob? {
      LossLeft(canon, net0, p, faults, Enough(p));
    }
  }

  /** No fault: no error, and the namespace is exactly what it was. */
  lemma CleanOutcome(canon: Args -> Args, net0: Net, p: Program, faults: Faults)
    requires Startable(net0, p) && Clear(p, faults, |p.install| + 2 + |p.undo|)
    ensures Ends(Linux(canon), net0, p, faults, net0, false)
  {
    hide Exec, ProgramOf, SoloStep, LeftBy;
    UndoGoesOn(canon, net0, p, faults, |p.undo|);
    var n := |p.install| + 2 + |p.undo|;
    var s := Alone(Linux(canon), net0, p, faults, n);
    UndoneEnds(Linux(canon), net0, p, faults, s.net);
    AloneRestoredIff(canon, net0, p, faults, n);
  }

  /** A lone run leaves the namespace as it was if and only if it is not active. */
  lemma RestoredIffInactive(canon: Args -> Args, net0: Net, net: Net, r: Run)
    requires Startable(net0, r.program) && LeftBy(canon, net0, net, r)
    requires RunInv(map[r.program.target := net], r)
    ensures net == net0 <==> !Concurrency.Active(r)
  {
    hide ProgramOf, RunInv, Concurrency.Active, Front, Live;
    Concurrency.TraceIffActive(canon, map[r.program.target := net], r);
    FrontIsLive(canon, r);
    if r.program.job.NetemJob? {
      NetemRestoredIff(canon, net0, net, r);
    } else {
      assert Front(canon, r) != [] ==> Front(canon, r)[0] in multiset(Front(canon, r));
      assert |Front(canon, r)| == |net.chain| - |net0.chain|;
      assert [] + net0.chain == net0.chain;
    }
  }

  lemma NetemRestoredIff(canon: Args -> Args, net0: Net, net: Net, r: Run)
    requires Startable(net0, r.program) && LeftBy(canon, net0, net, r) && r.program.job.NetemJob?
    ensures net == net0 <==> Held(r) == Bare
  {
    hide ProgramOf;
    var i := r.program.job.req.iface;
    if r.done == 0 {
      assert Held(r) == Bare;
    } else {
      assert net.trees[i] == Held(r);
      assert net0.trees[i := Bare] == net0.trees;
    }
  }

  /** What is known of a lone run at any step. */
  lemma AloneRestoredIff(canon: Args -> Args, net0: Net, p: Program, faults: Faults, n: nat)
    requires Startable(net0, p)
    ensures var s := Alone(Linux(canon), net0, p, faults, n);
      s.net == net0 <==> !Concurrency.Active(s.run)
  {
    hide Exec, ProgramOf, SoloStep, LeftBy, NetsInv, RunInv, Concurrency.Active;
    AloneInv(canon, net0, p, faults, n);
    AloneLeft(canon, net0, p, faults, n);
    RestoredIffInactive(canon, net0, Alone(Linux(canon), net0, p, faults, n).net, Alone(Linux(canon), net0, p, faults, n).run);
  }

  // ---------- whatever the faults ----------

  /** Among the commands before step `n` that meet a fault, the first. */
  lemma {:induction false} FirstFault(p: Program, faults: Faults, n: nat) returns (k: nat)
    requires !Clear(p, faults, n)
    ensures k < n && IsCommandStep(p, k) && faults(k) != NoFault && Clear(p, faults, k)
  {
    if n > 0 && !Clear(p, faults, n - 1) {
      k := FirstFault(p, faults, n - 1);
    } else {
      k := n - 1;
    }
  }

  /** On an interface that is missing or already has a root qdisc the run ends at its first command. */
  lemma RefusedOutcome(canon: Args -> Args, net0: Net, p: Program, faults: Faults)
    requires p == ProgramOf(p.job, p.target) && !Startable(net0, p)
    ensures Ends(Linux(canon), net0, p, faults, net0, p.install != [])
  {
    Concurrency.Lengths(p.job, p.target);
    if p.install != [] {
      var op := NextOp(Start(p));
      assert Exec(canon, net0, p.job, p.install[0]) == None;
      assert Alone(Linux(canon), net0, p, faults, 0) == Solo(net0, Start(p));
      assert EndedBy(Linux(canon), net0, p, faults, 1, net0, true);
      EndedStays(Linux(canon), net0, p, faults, 1, net0, true);
    } else {
      assert Alone(Linux(canon), net0, p, faults, 0) == Solo(net0, Start(p));
      WaitSteps(Linux(canon), net0, net0, p, faults);
      UndoneEnds(Linux(canon), net0, p, faults, net0);
    }
  }

  /** The faults after which nothing is left: none at all, a lost first command, an unreported last one. */
  predicate LeavesNothing(p: Program, faults: Faults) {
    || Clear(p, faults, Enough(p))
    || (p.install != [] && faults(0) == Lost)
    || (p.undo != [] && Clear(p, faults, |p.install| + 1 + |p.undo|) && faults(|p.install| + 1 + |p.undo|) == Unreported)
  }

  /**
    How a lone run ends, for all requests, namespaces and faults: exactly when it leaves the namespace as
    it was, and exactly when it returns an error.
   */
  lemma RestoredIff(canon: Args -> Args, net0: Net, p: Program, faults: Faults, net: Net, failed: bool)
    requires p == ProgramOf(p.job, p.target) && Ends(Linux(canon), net0, p, faults, net, failed)
    ensures net == net0 <==> !Startable(net0, p) || LeavesNothing(p, faults)
    ensures failed <==> p.install != [] && (!Startable(net0, p) || !Clear(p, faults, |p.install|))
  {
    hide Exec, ProgramOf, SoloStep, LeftBy, Startable;
    Concurrency.Lengths(p.job, p.target);
    if !Startable(net0, p) {
      RefusedOutcome(canon, net0, p, faults);
    } else if Clear(p, faults, Enough(p)) {
      CleanOutcome(canon, net0, p, faults);
    } else {
      var k := FirstFault(p, faults, Enough(p));
      FirstFaultDecides(p, faults, k);
      if k < |p.install| {
        InstallFaultOutcome(canon, net0, p, faults, k);
      } else {
        UndoFaultOutcome(canon, net0, p, faults, k - |p.install| - 2);
      }
    }
  }

  /** Whether anything is left is decided by the first fault alone. */
  lemma FirstFaultDecides(p: Program, faults: Faults, k: nat)
    requires IsCommandStep(p, k) && faults(k) != NoFault && Clear(p, faults, k)
    ensures LeavesNothing(p, faults)
       <==> (k == 0 && p.install != [] && faults(k) == Lost)
            || (k == |p.install| + 1 + |p.undo| && faults(k) == Unreported)
    ensures Clear(p, faults, |p.install|) <==> k >= |p.install|
    ensures !Clear(p, faults, Enough(p))
  {
    if p.install != [] {
      assert IsCommandStep(p, 0);
    }
  }
}
