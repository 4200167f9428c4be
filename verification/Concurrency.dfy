/**
  What the invariant of `Protocol` means for whole runs: the firewall chains and qdisc trees
  under any interleaving of any mix of runs, with and without faults.
 */
module Concurrency {
  import opened Prelude
  import opened TrafficControl
  import opened NetemPrograms
  import opened Firewall
  import opened Accounts
  import opened Protocol

  predicate Finished(s: System) {
    forall k | 0 <= k < |s.runs| :: s.runs[k].phase.Returned?
  }

  predicate Unfaulted(s: System) {
    forall k | 0 <= k < |s.runs| :: !s.runs[k].faulted
  }

  /** A run is between taking effect for the first time and its last undo command taking effect. */
  predicate Active(r: Run) {
    r.done > 0 && r.undone < |r.program.undo|
  }

  /** How long a program's two lists are, next to the operations and rules they stand for. */
  lemma Lengths(j: Job, c: string)
    ensures var p := ProgramOf(j, c);
      && (|p.install| == 0 <==> |p.undo| == 0)
      && (j.NetemJob? && |p.install| > 0 ==>
            |p.install| == |InstallOps(j.req)| && |p.undo| == |StopOps(j.req, j.adapter)|)
      && (j.NetemJob? && !j.req.dryRun ==> |p.install| > 0)
      && (j.LossJob? && |p.install| > 0 ==> |p.install| == |p.undo| == |Rules(j.loss, j.base)|)
  {
    match j
    case NetemJob(r, a) =>
      InstallReads(r, 0);
      StopReads(r, a, 0);
    case LossJob(l, b) =>
      CommandsPair(l, b, 0);
  }

  lemma LossTrace(canon: Args -> Args, r: Run)
    requires r.program.job.LossJob?
    requires r.done > 0 ==> |r.program.install| == |r.program.undo| == |Spelled(canon, r.program.job)|
    requires r.done <= |r.program.install| && r.undone <= |r.program.undo|
    requires r.undone > 0 ==> r.done == |r.program.install|
    ensures Live(canon, r) == multiset{} <==> !Active(r)
  {
    var spelled := Spelled(canon, r.program.job);
    if Active(r) {
      assert spelled[r.undone] in spelled[r.undone..r.done];
    } else if r.undone <= r.done <= |spelled| {
      assert spelled[r.undone..r.done] == [];
    }
  }

  lemma NetemTrace(r: Run)
    requires r.program.job.NetemJob?
    requires var j := r.program.job;
      r.done > 0 ==> |r.program.install| == |InstallOps(j.req)| && |r.program.undo| == |StopOps(j.req, j.adapter)|
    requires r.done <= |r.program.install| && r.undone <= |r.program.undo|
    requires r.undone > 0 ==> r.done == |r.program.install|
    ensures Held(r).Rooted? <==> Active(r)
  {
    var req, a := r.program.job.req, r.program.job.adapter;
    if r.done > 0 {
      RootedBetween(req, a, r.done, 0);
      if r.undone < |r.program.undo| {
        RootedBetween(req, a, r.done, r.undone);
      } else {
        StopStep(req, a, 0);
      }
    }
  }

  /** Exactly the active runs answer for anything: an inactive run has left no trace or removed all of it. */
  lemma TraceIffActive(canon: Args -> Args, nets: Nets, r: Run)
    requires RunInv(nets, r) && r.program == ProgramOf(r.program.job, r.program.target)
    ensures Empty(AccountOf(canon, r)) <==> !Active(r)
    ensures r.program.job.NetemJob? ==> (Held(r).Rooted? <==> Active(r))
  {
    Lengths(r.program.job, r.program.target);
    if r.program.job.NetemJob? {
      NetemTrace(r);
    } else {
      LossTrace(canon, r);
    }
  }

  /** What is known of one run in any reachable state. */
  lemma ReachableRun(canon: Args -> Args, s0: System, es: seq<Event>, k: nat)
    requires Initial(s0) && k < |s0.runs|
    ensures var s := Execute(Linux(canon), s0, es);
      && |s.runs| == |s0.runs| && s.runs[k].program == s0.runs[k].program && RunInv(s.nets, s.runs[k])
      && s.runs[k].program == ProgramOf(s.runs[k].program.job, s.runs[k].program.target)
  {
    ReachableInv(canon, s0, es);
  }

  // ---------- firewall chains ----------

  /**
    In every reachable state each INPUT chain is some front part followed by the untouched original
    chain, and the front part holds, as a multiset, exactly the rules installed and not yet deleted.
   */
  lemma ChainIsFrontAndOriginal(canon: Args -> Args, s0: System, es: seq<Event>, c: string)
    returns (front: seq<Args>)
    requires Initial(s0) && c in s0.nets
    ensures var s := Execute(Linux(canon), s0, es);
      && c in s.nets && s.nets[c].chain == front + s0.nets[c].chain
      && multiset(front) == LiveOn(AccountsOf(canon, s.runs), c)
  {
    ReachableInv(canon, s0, es);
    var s := Execute(Linux(canon), s0, es);
    var accs := AccountsOf(canon, s.runs);
    assert ChainExplained(s0.nets, s.nets, accs, c);
    front :| InFront(front, s0.nets[c].chain, s.nets[c].chain, LiveOn(accs, c));
  }

  /** Every undo command of every loss run finds its rule, inside the front part and not in the original chain. */
  lemma DeleteFindsItsRule(canon: Args -> Args, s0: System, es: seq<Event>, k: nat)
    returns (front: seq<Args>, rule: Args)
    requires Initial(s0) && k < |s0.runs| && s0.runs[k].program.job.LossJob?
    requires var s := Execute(Linux(canon), s0, es);
      k < |s.runs| && s.runs[k].phase.Undoing? && NextCommand(s.runs[k]).Some?
    ensures var s := Execute(Linux(canon), s0, es);
      var c := s.runs[k].program.target;
      && ReadIptables(NextCommand(s.runs[k]).value) == Some(Delete(rule))
      && c in s0.nets && c in s.nets && s.nets[c].chain == front + s0.nets[c].chain && canon(rule) in front
      && RemoveFirst(front, canon(rule)).Some?
      && Attempt(Linux(canon), s.nets, s.runs[k], NextCommand(s.runs[k]).value)
         == Some(s.nets[c].(chain := RemoveFirst(front, canon(rule)).value + s0.nets[c].chain))
  {
    ReachableInv(canon, s0, es);
    var s := Execute(Linux(canon), s0, es);
    var r := s.runs[k];
    assert RunInv(s.nets, r) && r.program == s0.runs[k].program;
    Lengths(r.program.job, r.program.target);
    var c := r.program.target;
    front := ChainIsFrontAndOriginal(canon, s0, es, c);
    var accs := AccountsOf(canon, s.runs);
    LiveOnUpdate(accs, k, accs[k], c);
    rule := DeleteInFront(canon, s.nets[c], r, front, s0.nets[c].chain);
  }

  lemma DeleteInFront(canon: Args -> Args, net: Net, r: Run, front: seq<Args>, chain0: seq<Args>) returns (rule: Args)
    requires r.program == ProgramOf(r.program.job, r.program.target) && r.program.job.LossJob?
    requires r.phase.Undoing? && NextCommand(r).Some? && r.done == |r.program.install|
    requires net.chain == front + chain0 && Live(canon, r) <= multiset(front)
    ensures ReadIptables(NextCommand(r).value) == Some(Delete(rule))
    ensures canon(rule) in front && RemoveFirst(front, canon(rule)).Some?
    ensures Exec(canon, net, r.program.job, NextCommand(r).value)
         == Some(net.(chain := RemoveFirst(front, canon(rule)).value + chain0))
  {
    hide Live, ReadIptables, ProgramOf, RemoveFirst;
    rule := NextRule(canon, r);
    assert canon(rule) in Live(canon, r);
    RemoveFirstInFront(front, chain0, canon(rule));
  }

  // ---------- the root qdisc as a lock ----------

  /** At most one run holds an interface, and its tree is exactly what that run's counters say. */
  lemma RootIsLock(canon: Args -> Args, s0: System, es: seq<Event>, k: nat)
    requires Initial(s0) && k < |s0.runs| && s0.runs[k].program.job.NetemJob?
    requires var s := Execute(Linux(canon), s0, es); k < |s.runs| && Active(s.runs[k])
    ensures var s := Execute(Linux(canon), s0, es);
      var p := s0.runs[k].program;
      && s.runs[k].program == p && Placed(s0.nets, p) && Placed(s.nets, p)
      && s0.nets[p.target].trees[p.job.req.iface] == Bare
      && s.nets[p.target].trees[p.job.req.iface] == Held(s.runs[k])
      && (forall l | 0 <= l < |s.runs| && l != k && SameInterface(s.runs[l].program, p) :: !Active(s.runs[l]))
  {
    ReachableInv(canon, s0, es);
    var s := Execute(Linux(canon), s0, es);
    var accs := AccountsOf(canon, s.runs);
    var p := s0.runs[k].program;
    var c, i := p.target, p.job.req.iface;
    assert RunInv(s.nets, s.runs[k]) && s.runs[k].program == p;
    TraceIffActive(canon, s.nets, s.runs[k]);
    assert Holds(accs[k], c, i);
    assert TreeInv(accs, c, i, s0.nets[c].trees[i], s.nets[c].trees[i]);
    forall l | 0 <= l < |s.runs| && l != k && SameInterface(s.runs[l].program, p) ensures !Active(s.runs[l]) {
      assert RunInv(s.nets, s.runs[l]) && s.runs[l].program == s0.runs[l].program;
      TraceIffActive(canon, s.nets, s.runs[l]);
      assert !Holds(accs[l], c, i);
    }
  }

  predicate SameInterface(p: Program, q: Program) {
    p.job.NetemJob? && q.job.NetemJob? && p.target == q.target && p.job.req.iface == q.job.req.iface
  }

  /** While a run holds an interface, the next command of any other run on it changes no namespace, and the run ends. */
  lemma OthersAreLockedOut(canon: Args -> Args, s0: System, es: seq<Event>, k: nat, l: nat, fault: Fault)
    requires Initial(s0) && k < |s0.runs| && l < |s0.runs| && k != l
    requires SameInterface(s0.runs[k].program, s0.runs[l].program)
    requires var s := Execute(Linux(canon), s0, es);
      && k < |s.runs| && l < |s.runs| && Active(s.runs[k]) && NextCommand(s.runs[l]).Some?
    ensures var s := Execute(Linux(canon), s0, es);
      var s' := Step(Linux(canon), s, Event(l, fault));
      && s'.nets == s.nets
      && s'.runs[l].phase == Returned(true) && s'.runs[l].done == 0
  {
    var s := Execute(Linux(canon), s0, es);
    RootIsLock(canon, s0, es, k);
    ReachableRun(canon, s0, es, k);
    ReachableRun(canon, s0, es, l);
    TraceIffActive(canon, s.nets, s.runs[k]);
    LockedOut(canon, s.nets, s.runs[l], fault);
    assert s.nets == RunStep(Linux(canon), s.nets, s.runs[l], fault).0;
  }

  /** An inactive run with a command to go is at its first one, which a root qdisc on its interface refuses. */
  lemma LockedOut(canon: Args -> Args, nets: Nets, r: Run, fault: Fault)
    requires RunInv(nets, r) && r.program == ProgramOf(r.program.job, r.program.target)
    requires r.program.job.NetemJob? && NextCommand(r).Some? && !Active(r)
    requires Placed(nets, r.program) && nets[r.program.target].trees[r.program.job.req.iface].Rooted?
    ensures r.done == 0
    ensures RunStep(Linux(canon), nets, r, fault) == (nets, r.(phase := Returned(true), faulted := fault != NoFault))
  {
    Lengths(r.program.job, r.program.target);
    var op := NextOp(r);
    assert Apply(nets[r.program.target].trees[r.program.job.req.iface], op) == None;
  }

  // ---------- whole runs ----------

  lemma HolderIsPlaced(canon: Args -> Args, nets: Nets, r: Run)
    requires RunInv(nets, r)
    ensures AccountOf(canon, r).target == r.program.target
    ensures AccountOf(canon, r).tree.Rooted? ==>
      Placed(nets, r.program) && AccountOf(canon, r).iface in nets[r.program.target].trees
  {
  }

  /**
    In every reachable state, with or without faults, the network of a container is exactly what it
    was at the start if and only if no run on the container is active.
   */
  lemma UnchangedIffNoneActive(canon: Args -> Args, s0: System, es: seq<Event>, c: string)
    requires Initial(s0) && c in s0.nets
    ensures var s := Execute(Linux(canon), s0, es);
      && c in s.nets
      && (s.nets[c] == s0.nets[c]
          <==> forall k | 0 <= k < |s.runs| && s.runs[k].program.target == c :: !Active(s.runs[k]))
  {
    hide Execute, Active, Empty, TreeInv, ChainExplained, RunInv, AccountOf;
    ReachableInv(canon, s0, es);
    var s := Execute(Linux(canon), s0, es);
    var accs := AccountsOf(canon, s.runs);
    forall k | 0 <= k < |s.runs|
      ensures accs[k].target == s.runs[k].program.target && (Empty(accs[k]) <==> !Active(s.runs[k]))
      ensures accs[k].tree.Rooted? && accs[k].target == c ==> accs[k].iface in s0.nets[c].trees
    {
      ReachableRun(canon, s0, es, k);
      TraceIffActive(canon, s.nets, s.runs[k]);
      HolderIsPlaced(canon, s.nets, s.runs[k]);
      assert s.nets.Keys == s0.nets.Keys && (c in s0.nets ==> s.nets[c].trees.Keys == s0.nets[c].trees.Keys);
    }
    RestoredIffNothingHeld(s0.nets, s.nets, accs, c);
  }

  /**
    Once every run has returned, without a fault, every chain and every tree of every container is
    exactly what it was, whatever ran on it, in whatever order, and whatever was there before.
   */
  lemma AllUndone(canon: Args -> Args, s0: System, es: seq<Event>)
    requires Initial(s0)
    requires Finished(Execute(Linux(canon), s0, es)) && Unfaulted(Execute(Linux(canon), s0, es))
    ensures Execute(Linux(canon), s0, es).nets == s0.nets
  {
    ReachableInv(canon, s0, es);
    var s := Execute(Linux(canon), s0, es);
    forall k | 0 <= k < |s.runs| ensures !Active(s.runs[k]) {
      OnlyFaultsLeaveTraces(canon, s0, es, k);
    }
    forall c | c in s0.nets ensures c in s.nets && s.nets[c] == s0.nets[c] {
      UnchangedIffNoneActive(canon, s0, es, c);
    }
  }

  /** An interface that already had a root qdisc keeps its tree, whatever runs on it. */
  lemma RootedInterfaceUntouched(canon: Args -> Args, s0: System, es: seq<Event>, c: string, i: string)
    requires Initial(s0) && c in s0.nets && i in s0.nets[c].trees && s0.nets[c].trees[i].Rooted?
    ensures var s := Execute(Linux(canon), s0, es);
      c in s.nets && i in s.nets[c].trees && s.nets[c].trees[i] == s0.nets[c].trees[i]
  {
    ReachableInv(canon, s0, es);
    var s := Execute(Linux(canon), s0, es);
    assert TreeInv(AccountsOf(canon, s.runs), c, i, s0.nets[c].trees[i], s.nets[c].trees[i]);
  }

  /** ... and every netem run on it fails at its first command, without effect. */
  lemma {:induction false} RunsOnRootedFail(canon: Args -> Args, s0: System, es: seq<Event>, k: nat)
    requires Initial(s0) && k < |s0.runs| && Placed(s0.nets, s0.runs[k].program)
    requires s0.runs[k].program.job.NetemJob? && !s0.runs[k].program.job.req.dryRun
    requires s0.nets[s0.runs[k].program.target].trees[s0.runs[k].program.job.req.iface].Rooted?
    ensures var s := Execute(Linux(canon), s0, es);
      k < |s.runs| && s.runs[k].done == 0 && s.runs[k].phase in {Installing, Returned(true)}
  {
    var p := s0.runs[k].program;
    Lengths(p.job, p.target);
    ReachableRun(canon, s0, es, k);
    if es != [] {
      var s := Execute(Linux(canon), s0, es[..|es| - 1]);
      RunsOnRootedFail(canon, s0, es[..|es| - 1], k);
      ReachableRun(canon, s0, es[..|es| - 1], k);
      RootedInterfaceUntouched(canon, s0, es[..|es| - 1], p.target, p.job.req.iface);
      RefusedStep(canon, s, es[|es| - 1], k);
    }
  }

  lemma RefusedStep(canon: Args -> Args, s: System, e: Event, k: nat)
    requires k < |s.runs| && RunInv(s.nets, s.runs[k])
    requires s.runs[k].program == ProgramOf(s.runs[k].program.job, s.runs[k].program.target)
    requires var p := s.runs[k].program;
      && p.job.NetemJob? && p.install != [] && Placed(s.nets, p)
      && s.nets[p.target].trees[p.job.req.iface].Rooted?
    requires s.runs[k].done == 0
    ensures k < |Step(Linux(canon), s, e).runs| && Step(Linux(canon), s, e).runs[k].done == 0
  {
    if e.run == k && NextCommand(s.runs[k]).Some? {
      LockedOut(canon, s.nets, s.runs[k], e.fault);
    }
  }

  /** A run that returned still active met a fault after its first effect; nothing else leaves a trace. */
  lemma OnlyFaultsLeaveTraces(canon: Args -> Args, s0: System, es: seq<Event>, k: nat)
    requires Initial(s0) && k < |s0.runs|
    ensures var s := Execute(Linux(canon), s0, es);
      k < |s.runs| && (s.runs[k].phase.Returned? && Active(s.runs[k]) ==> s.runs[k].faulted)
  {
    ReachableRun(canon, s0, es, k);
    Lengths(s0.runs[k].program.job, s0.runs[k].program.target);
  }

  // ---------- every run returns ----------

  function Count(es: seq<Event>, k: nat): nat {
    if es == [] then 0 else Count(es[..|es| - 1], k) + if es[|es| - 1].run == k then 1 else 0
  }

  /** The most steps a run still needs. */
  function Remaining(r: Run): nat
    requires r.done <= |r.program.install| && r.undone <= |r.program.undo|
  {
    match r.phase
    case Installing => |r.program.install| - r.done + |r.program.undo| + 3
    case Waiting => |r.program.undo| + 2
    case Undoing => |r.program.undo| - r.undone + 1
    case Returned(_) => 0
  }

  /** A run that is scheduled often enough has returned, whatever the others do and whatever fails. */
  lemma {:induction false} RunsReturn(canon: Args -> Args, s0: System, es: seq<Event>, k: nat)
    requires Initial(s0) && k < |s0.runs|
    ensures var s := Execute(Linux(canon), s0, es);
      && k < |s.runs| && s.runs[k].done <= |s.runs[k].program.install| && s.runs[k].undone <= |s.runs[k].program.undo|
      && s.runs[k].program == s0.runs[k].program
      && (Remaining(s.runs[k]) == 0 || Remaining(s.runs[k]) + Count(es, k)
            <= |s0.runs[k].program.install| + |s0.runs[k].program.undo| + 3)
    ensures Count(es, k) >= |s0.runs[k].program.install| + |s0.runs[k].program.undo| + 3
        ==> Execute(Linux(canon), s0, es).runs[k].phase.Returned?
  {
    ReachableInv(canon, s0, es);
    var s := Execute(Linux(canon), s0, es);
    assert RunInv(s.nets, s.runs[k]);
    if es == [] {
      assert s.runs[k] == Start(s.runs[k].program);
    } else {
      var t := Execute(Linux(canon), s0, es[..|es| - 1]);
      RunsReturn(canon, s0, es[..|es| - 1], k);
      StepShortens(canon, t, es[|es| - 1], k);
    }
  }

  lemma StepShortens(canon: Args -> Args, s: System, e: Event, k: nat)
    requires k < |s.runs| && s.runs[k].done <= |s.runs[k].program.install| && s.runs[k].undone <= |s.runs[k].program.undo|
    requires var r' := Step(Linux(canon), s, e).runs[k];
      r'.program == s.runs[k].program && r'.done <= |r'.program.install| && r'.undone <= |r'.program.undo|
    ensures var r, r' := s.runs[k], Step(Linux(canon), s, e).runs[k];
      if e.run == k then Remaining(r') < Remaining(r) || Remaining(r') == Remaining(r) == 0 else r' == r
  {
  }
}
