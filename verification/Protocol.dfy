/**
  Any number of netem and packet-loss runs, on any containers, as one system whose single
  commands interleave in any order. A run installs its commands one by one, waits for its
  duration or a cancellation, and sends its undo commands; a failed install command ends it
  without undo, a failed undo command ends it with the failure only logged.
 */
module Protocol {
  import opened Prelude
  import opened TrafficControl
  import opened NetemPrograms
  import opened Firewall
  import opened Accounts

  datatype Job =
    | NetemJob(req: NetemRequest, adapter: Adapter)
    | LossJob(loss: Loss, base: IPTablesRequest)

  /** A job on a container, with the command lists its adapter issues for it. */
  datatype Program = Program(job: Job, target: string, install: seq<Args>, undo: seq<Args>)

  function ProgramOf(j: Job, target: string): Program {
    match j
    case NetemJob(r, a) => Program(j, target, NetemIssued(r), StopIssued(r, a))
    case LossJob(l, b) => Program(j, target, Issued(AddRequest(l, b)), Issued(DelRequest(l, b)))
  }

  /** One command of a job on a namespace; `None` when the command fails, which leaves it unchanged. */
  function Exec(canon: Args -> Args, net: Net, j: Job, args: Args): Option<Net> {
    match j
    case NetemJob(_, _) => (
      match ReadTc(args)
      case None => None
      case Some((iface, op)) =>
        if iface !in net.trees then None
        else match Apply(net.trees[iface], op)
             case Some(t) => Some(net.(trees := net.trees[iface := t]))
             case None => None)
    case LossJob(_, _) =>
      match ReadIptables(args)
      case None => None
      case Some(op) =>
        match ApplyRule(canon, net.chain, op)
        case Some(chain) => Some(net.(chain := chain))
        case None => None
  }

  /** What a namespace does with a command of a job. */
  type Kernel = (Net, Job, Args) -> Option<Net>

  function Linux(canon: Args -> Args): Kernel {
    (net, j, args) => Exec(canon, net, j, args)
  }

  // ---------- runs and the system ----------

  datatype Phase = Installing | Waiting | Undoing | Returned(failed: bool)

  /** `done` and `undone` count the install and undo commands that took effect. */
  datatype Run = Run(program: Program, phase: Phase, done: nat, undone: nat, faulted: bool)

  datatype System = System(nets: Nets, runs: seq<Run>)

  /** Run `run` takes its next step, with this fault if the step is a command. */
  datatype Event = Event(run: nat, fault: Fault)

  function Start(p: Program): Run {
    Run(p, Installing, 0, 0, false)
  }

  /** The next command of a run, if its next step is one. */
  function NextCommand(r: Run): Option<Args> {
    if r.phase.Installing? && r.done < |r.program.install| then Some(r.program.install[r.done])
    else if r.phase.Undoing? && r.undone < |r.program.undo| then Some(r.program.undo[r.undone])
    else None
  }

  function Attempt(kernel: Kernel, nets: Nets, r: Run, cmd: Args): Option<Net> {
    if r.program.target in nets then kernel(nets[r.program.target], r.program.job, cmd) else None
  }

  /** The run after its next command took effect. */
  function Counted(r: Run): Run {
    if r.phase.Installing? then r.(done := r.done + 1) else r.(undone := r.undone + 1)
  }

  /** After a command the run goes on if it succeeded; a failed install is an error, a failed undo is not. */
  function AfterCommand(r: Run, ok: bool, faulted: bool): Run {
    r.(phase := if ok then r.phase else Returned(r.phase.Installing?), faulted := faulted)
  }

  /** The step of a run that is not a command: the install ended, the wait ended, or the undo ended. */
  function AfterPause(r: Run): Run {
    match r.phase
    case Installing => r.(phase := Waiting)
    case Waiting => r.(phase := Undoing)
    case Undoing => r.(phase := Returned(false))
    case Returned(_) => r
  }

  /** One step of run `r` on the namespaces. */
  function RunStep(kernel: Kernel, nets: Nets, r: Run, fault: Fault): (Nets, Run) {
    match NextCommand(r)
    case None => (nets, AfterPause(r))
    case Some(cmd) =>
      var out := Attempt(kernel, nets, r, cmd);
      if out.Some? && fault != Lost
      then (nets[r.program.target := out.value], AfterCommand(Counted(r), fault == NoFault, fault != NoFault))
      else (nets, AfterCommand(r, false, fault != NoFault))
  }

  function Step(kernel: Kernel, s: System, e: Event): System {
    if e.run < |s.runs| then
      var (nets, r) := RunStep(kernel, s.nets, s.runs[e.run], e.fault);
      System(nets, s.runs[e.run := r])
    else s
  }

  function Execute(kernel: Kernel, s: System, es: seq<Event>): System {
    if es == [] then s else Step(kernel, Execute(kernel, s, es[..|es| - 1]), es[|es| - 1])
  }

  ghost predicate Initial(s: System) {
    forall k | 0 <= k < |s.runs| ::
      && s.runs[k] == Start(s.runs[k].program)
      && s.runs[k].program == ProgramOf(s.runs[k].program.job, s.runs[k].program.target)
  }

  // ---------- what a run answers for ----------

  /** The rules of a job, in the order of its commands, as the kernel spells them. */
  function Spelled(canon: Args -> Args, j: Job): seq<Args> {
    if j.LossJob? then Map(canon, Rules(j.loss, j.base)) else []
  }

  /** The rules a run has put into the chain and not yet taken out. */
  function Live(canon: Args -> Args, r: Run): multiset<Args> {
    if r.undone <= r.done <= |Spelled(canon, r.program.job)|
    then multiset(Spelled(canon, r.program.job)[r.undone..r.done])
    else multiset{}
  }

  /** The tree a run holds, told by its two counters alone. */
  function Held(r: Run): Tree {
    var j := r.program.job;
    if !j.NetemJob? || r.done == 0 then Bare
    else if 0 < r.undone <= |StopOps(j.req, j.adapter)| then UndoTreeAt(j.req, j.adapter, r.undone)
    else if r.done <= |InstallOps(j.req)| then TreeAt(j.req, r.done)
    else Bare
  }

  function AccountOf(canon: Args -> Args, r: Run): Account {
    Account(r.program.target, if r.program.job.NetemJob? then r.program.job.req.iface else "",
            Held(r), Live(canon, r))
  }

  function AccountsOf(canon: Args -> Args, runs: seq<Run>): (accs: seq<Account>)
    ensures |accs| == |runs|
  {
    seq(|runs|, k requires 0 <= k < |runs| => AccountOf(canon, runs[k]))
  }

  // ---------- the invariant ----------

  predicate Placed(nets: Nets, p: Program) {
    p.target in nets && (p.job.NetemJob? ==> p.job.req.iface in nets[p.target].trees)
  }

  /** What phase and counters say about each other. */
  predicate RunInv(nets: Nets, r: Run) {
    var n, m := |r.program.install|, |r.program.undo|;
    && r.done <= n && r.undone <= m
    && (r.done > 0 ==> Placed(nets, r.program))
    && match r.phase
       case Installing => r.undone == 0 && !r.faulted
       case Waiting => r.done == n && r.undone == 0 && !r.faulted
       case Undoing => r.done == n && !r.faulted
       case Returned(true) => r.undone == 0 && (!r.faulted ==> r.done == 0)
       case Returned(false) => r.done == n && (!r.faulted ==> r.undone == m)
  }

  predicate RunsInv(runs0: seq<Run>, nets: Nets, runs: seq<Run>) {
    && |runs| == |runs0|
    && forall k | 0 <= k < |runs| :: runs[k].program == runs0[k].program && RunInv(nets, runs[k])
  }

  ghost predicate SystemInv(canon: Args -> Args, s0: System, s: System) {
    && RunsInv(s0.runs, s.nets, s.runs)
    && NetsInv(s0.nets, s.nets, AccountsOf(canon, s.runs))
  }

  // ---------- one command of a netem run ----------

  /** The operation the next command of a netem run asks for, and what it does to the tree the run holds. */
  lemma NextOp(r: Run) returns (op: TcOp)
    requires r.program == ProgramOf(r.program.job, r.program.target)
    requires r.program.job.NetemJob? && NextCommand(r).Some?
    requires if r.phase.Installing? then r.undone == 0 else r.done == |r.program.install|
    ensures ReadTc(NextCommand(r).value) == Some((r.program.job.req.iface, op))
    ensures Apply(Held(r), op) == Some(Held(Counted(r)))
    ensures Held(r).Rooted? <==> r.done > 0
    ensures r.done == 0 ==> forall t: Tree | t.Rooted? :: Apply(t, op) == None
  {
    var req, a := r.program.job.req, r.program.job.adapter;
    InstallReads(req, if r.phase.Installing? then r.done else 0);
    StopReads(req, a, if r.phase.Installing? then 0 else r.undone);
    if r.phase.Installing? {
      op := InstallOps(req)[r.done];
      InstallStep(req, r.done);
      RootedBetween(req, a, r.done, 0);
    } else {
      op := StopOps(req, a)[r.undone];
      StopStep(req, a, r.undone);
      RootedBetween(req, a, r.done, r.undone);
    }
  }

  /** A netem command that takes effect finds the tree its run holds and leaves the one it holds next. */
  lemma NetemEffect(canon: Args -> Args, net: Net, r: Run)
    requires r.program == ProgramOf(r.program.job, r.program.target)
    requires r.program.job.NetemJob? && NextCommand(r).Some?
    requires if r.phase.Installing? then r.undone == 0 else r.done == |r.program.install|
    requires Held(r).Rooted? ==> r.program.job.req.iface in net.trees && net.trees[r.program.job.req.iface] == Held(r)
    ensures var iface := r.program.job.req.iface;
      var out := Exec(canon, net, r.program.job, NextCommand(r).value);
      && (iface in net.trees && net.trees[iface] == Held(r) ==> out.Some?)
      && (out.Some? ==>
            && iface in net.trees && net.trees[iface] == Held(r)
            && out.value == net.(trees := net.trees[iface := Held(Counted(r))]))
  {
    var op := NextOp(r);
  }

  // ---------- one command of a loss run ----------

  /** The rule the next command of a loss run inserts or deletes, and what it does to the run's live rules. */
  lemma NextRule(canon: Args -> Args, r: Run) returns (rule: Args)
    requires r.program == ProgramOf(r.program.job, r.program.target)
    requires r.program.job.LossJob? && NextCommand(r).Some?
    requires if r.phase.Installing? then r.undone == 0 else r.done == |r.program.install|
    ensures ReadIptables(NextCommand(r).value) == Some(if r.phase.Installing? then Insert(rule) else Delete(rule))
    ensures r.phase.Installing? ==> Live(canon, Counted(r)) == Live(canon, r) + multiset{canon(rule)}
    ensures r.phase.Undoing? ==> Live(canon, r) == multiset{canon(rule)} + Live(canon, Counted(r))
  {
    var j := r.program.job;
    CommandsPair(j.loss, j.base, 0);
    rule := CurrentRule(r);
    LiveCounts(canon, r, Spelled(canon, j));
  }

  lemma CurrentRule(r: Run) returns (rule: Args)
    requires r.program == ProgramOf(r.program.job, r.program.target)
    requires r.program.job.LossJob? && NextCommand(r).Some?
    ensures var rules := Rules(r.program.job.loss, r.program.job.base);
      && |rules| == |r.program.install| == |r.program.undo|
      && rule == rules[if r.phase.Installing? then r.done else r.undone]
    ensures ReadIptables(NextCommand(r).value) == Some(if r.phase.Installing? then Insert(rule) else Delete(rule))
  {
    var j := r.program.job;
    var k := if r.phase.Installing? then r.done else r.undone;
    CommandsPair(j.loss, j.base, 0);
    CommandsPair(j.loss, j.base, k);
    rule := Rules(j.loss, j.base)[k];
  }

  lemma LiveCounts(canon: Args -> Args, r: Run, spelled: seq<Args>)
    requires spelled == Spelled(canon, r.program.job) && |spelled| == |r.program.install| == |r.program.undo|
    requires NextCommand(r).Some?
    requires if r.phase.Installing? then r.undone == 0 else r.done == |r.program.install|
    ensures r.phase.Installing? ==> Live(canon, Counted(r)) == Live(canon, r) + multiset{spelled[r.done]}
    ensures r.phase.Undoing? ==> Live(canon, r) == multiset{spelled[r.undone]} + Live(canon, Counted(r))
  {
    if r.phase.Installing? {
      SliceGrows(spelled, 0, r.done);
    } else {
      SliceShrinks(spelled, r.undone, r.done);
    }
  }

  /**
    A command of a loss run always succeeds and changes the front of the chain by exactly the
    change of the run's live rules: an undo command always finds its rule there.
   */
  lemma LossEffect(canon: Args -> Args, net: Net, r: Run, chain0: seq<Args>, live: multiset<Args>)
    requires r.program == ProgramOf(r.program.job, r.program.target)
    requires r.program.job.LossJob? && NextCommand(r).Some?
    requires if r.phase.Installing? then r.undone == 0 else r.done == |r.program.install|
    requires ChainInv(chain0, net.chain, live) && Live(canon, r) <= live
    ensures var out := Exec(canon, net, r.program.job, NextCommand(r).value);
      && out.Some? && out.value.trees == net.trees
      && ChainInv(chain0, out.value.chain, live - Live(canon, r) + Live(canon, Counted(r)))
  {
    var rule := NextRule(canon, r);
    RuleEffect(canon, net.chain, if r.phase.Installing? then Insert(rule) else Delete(rule),
               chain0, live, Live(canon, r), Live(canon, Counted(r)));
  }

  lemma RuleEffect(canon: Args -> Args, chain: seq<Args>, op: ChainOp, chain0: seq<Args>, live: multiset<Args>,
                   before: multiset<Args>, after: multiset<Args>)
    requires ChainInv(chain0, chain, live) && before <= live
    requires match op case Insert(x) => after == before + multiset{canon(x)}
                      case Delete(x) => before == multiset{canon(x)} + after
    ensures var out := ApplyRule(canon, chain, op);
      out.Some? && ChainInv(chain0, out.value, live - before + after)
  {
    var x := canon(op.rule);
    if op.Insert? {
      assert live - before + (before + multiset{x}) == live + multiset{x};
      ChainGrows(chain0, chain, live, x);
    } else {
      assert x in before;
      assert live - (multiset{x} + after) + after == live - multiset{x};
      ChainShrinks(chain0, chain, live, x);
    }
  }

  // ---------- every step keeps the invariant ----------

  /** A loss command that takes effect leaves a namespace its run's new account explains. */
  lemma LossCommand(canon: Args -> Args, nets0: Nets, nets: Nets, accs: seq<Account>, k: nat, r: Run)
    requires NetsInv(nets0, nets, accs) && k < |accs| && accs[k] == AccountOf(canon, r)
    requires r.program == ProgramOf(r.program.job, r.program.target) && r.program.job.LossJob?
    requires RunInv(nets, r) && NextCommand(r).Some? && r.program.target in nets
    ensures var out := Exec(canon, nets[r.program.target], r.program.job, NextCommand(r).value);
      && out.Some? && out.value.trees == nets[r.program.target].trees
      && NetsInv(nets0, nets[r.program.target := out.value], accs[k := AccountOf(canon, Counted(r))])
  {
    var c := r.program.target;
    LiveOnUpdate(accs, k, accs[k], c);
    assert ChainExplained(nets0, nets, accs, c);
    LossEffect(canon, nets[c], r, nets0[c].chain, LiveOn(accs, c));
    var net := Exec(canon, nets[c], r.program.job, NextCommand(r).value).value;
    ChainsChange(nets0, nets, accs, k, AccountOf(canon, Counted(r)), net);
    TreesStay(nets0, nets, accs, k, AccountOf(canon, Counted(r)), net);
  }

  /** A netem command fails only before its run holds anything; otherwise it moves the tree its run holds. */
  lemma NetemCommand(canon: Args -> Args, nets0: Nets, nets: Nets, accs: seq<Account>, k: nat, r: Run)
    requires NetsInv(nets0, nets, accs) && k < |accs| && accs[k] == AccountOf(canon, r)
    requires r.program == ProgramOf(r.program.job, r.program.target) && r.program.job.NetemJob?
    requires RunInv(nets, r) && NextCommand(r).Some? && r.program.target in nets
    ensures var out := Exec(canon, nets[r.program.target], r.program.job, NextCommand(r).value);
      && (r.done > 0 ==> out.Some?)
      && (out.Some? ==>
            && Placed(nets, r.program)
            && out.value.trees.Keys == nets[r.program.target].trees.Keys
            && NetsInv(nets0, nets[r.program.target := out.value], accs[k := AccountOf(canon, Counted(r))]))
  {
    var c := r.program.target;
    if r.done > 0 {
      var _ := NextOp(r);
      HeldTree(canon, nets0, nets, accs, k, r);
    }
    assert Held(r).Rooted? ==> r.done > 0;
    NetemEffect(canon, nets[c], r);
    var out := Exec(canon, nets[c], r.program.job, NextCommand(r).value);
    if out.Some? {
      NetemMoves(canon, nets0, nets, accs, k, r, out.value);
    }
  }

  /** A netem run answers for no rule. */
  lemma NetemAccount(canon: Args -> Args, r: Run)
    requires r.program.job.NetemJob?
    ensures AccountOf(canon, r) == Account(r.program.target, r.program.job.req.iface, Held(r), multiset{})
  {
    hide Held;
  }

  lemma NetemMoves(canon: Args -> Args, nets0: Nets, nets: Nets, accs: seq<Account>, k: nat, r: Run, net: Net)
    requires NetsInv(nets0, nets, accs) && k < |accs| && accs[k] == AccountOf(canon, r)
    requires r.program.job.NetemJob? && Placed(nets, r.program)
    requires nets[r.program.target].trees[r.program.job.req.iface] == Held(r)
    requires net == nets[r.program.target].(trees := nets[r.program.target].trees[r.program.job.req.iface := Held(Counted(r))])
    ensures NetsInv(nets0, nets[r.program.target := net], accs[k := AccountOf(canon, Counted(r))])
  {
    NetemAccount(canon, r);
    NetemAccount(canon, Counted(r));
    hide AccountOf, Held, ChainsInv, TreesInv;
    var a' := AccountOf(canon, Counted(r));
    ChainsStay(nets0, nets, accs, k, a', net);
    TreesChange(nets0, nets, accs, k, a', net);
  }

  /** What one run's next command does, for either kind of job: it can fail only if the run has had no effect. */
  lemma CommandEffect(canon: Args -> Args, nets0: Nets, nets: Nets, accs: seq<Account>, k: nat, r: Run)
    requires NetsInv(nets0, nets, accs) && k < |accs| && accs[k] == AccountOf(canon, r)
    requires r.program == ProgramOf(r.program.job, r.program.target)
    requires RunInv(nets, r) && NextCommand(r).Some?
    ensures var out := Attempt(Linux(canon), nets, r, NextCommand(r).value);
      && (r.done > 0 ==> out.Some?)
      && (r.program.job.LossJob? && r.program.target in nets ==> out.Some?)
      && (out.Some? ==>
            && Placed(nets, r.program)
            && out.value.trees.Keys == nets[r.program.target].trees.Keys
            && NetsInv(nets0, nets[r.program.target := out.value], accs[k := AccountOf(canon, Counted(r))]))
  {
    if r.program.target in nets {
      if r.program.job.NetemJob? {
        NetemCommand(canon, nets0, nets, accs, k, r);
      } else {
        LossCommand(canon, nets0, nets, accs, k, r);
      }
    }
  }

  /** A run that holds a tree finds exactly that tree on its interface. */
  lemma HeldTree(canon: Args -> Args, nets0: Nets, nets: Nets, accs: seq<Account>, k: nat, r: Run)
    requires TreesInv(nets0, nets, accs) && k < |accs| && accs[k] == AccountOf(canon, r)
    requires RunInv(nets, r) && r.program.job.NetemJob? && Held(r).Rooted?
    ensures Placed(nets, r.program)
    ensures nets[r.program.target].trees[r.program.job.req.iface] == Held(r)
  {
    var c, i := r.program.target, r.program.job.req.iface;
    assert r.done > 0;
    assert TreeInv(accs, c, i, nets0[c].trees[i], nets[c].trees[i]);
    assert Holds(accs[k], c, i);
  }

  /** The record of a run stays consistent when only its phase and its fault flag change in step with a command. */
  lemma AfterCommandInv(nets: Nets, r: Run, nets': Nets, effect: bool, fault: Fault)
    requires RunInv(nets, r) && NextCommand(r).Some?
    requires |r.program.install| == 0 <==> |r.program.undo| == 0
    requires nets.Keys == nets'.Keys && forall c | c in nets :: nets[c].trees.Keys == nets'[c].trees.Keys
    requires effect ==> Placed(nets, r.program) && fault != Lost
    requires !effect && fault == NoFault ==> r.done == 0
    ensures RunInv(nets', AfterCommand(if effect then Counted(r) else r, effect && fault == NoFault, fault != NoFault))
  {
  }

  lemma RunInvByKeys(nets: Nets, nets': Nets, r: Run)
    requires RunInv(nets, r) && nets.Keys == nets'.Keys
    requires forall c | c in nets :: nets'[c].trees.Keys == nets[c].trees.Keys
    ensures RunInv(nets', r)
  {
  }

  /** Installing and undoing are empty together: only a dry run has nothing to do. */
  lemma EmptyTogether(j: Job, c: string)
    ensures |ProgramOf(j, c).install| == 0 <==> |ProgramOf(j, c).undo| == 0
  {
  }

  /** One step of one run keeps the account of all namespaces and its own record. */
  lemma RunStepKeeps(canon: Args -> Args, nets0: Nets, nets: Nets, accs: seq<Account>, k: nat, r: Run, fault: Fault)
    requires NetsInv(nets0, nets, accs) && k < |accs| && accs[k] == AccountOf(canon, r)
    requires r.program == ProgramOf(r.program.job, r.program.target) && RunInv(nets, r)
    ensures var (nets', r') := RunStep(Linux(canon), nets, r, fault);
      && r'.program == r.program
      && RunInv(nets', r')
      && nets'.Keys == nets.Keys && (forall c | c in nets :: nets'[c].trees.Keys == nets[c].trees.Keys)
      && NetsInv(nets0, nets', accs[k := AccountOf(canon, r')])
  {
    hide ProgramOf, NetsInv, AccountOf, Placed;
    assert accs[k := accs[k]] == accs;
    EmptyTogether(r.program.job, r.program.target);
    if NextCommand(r).Some? {
      var out := Attempt(Linux(canon), nets, r, NextCommand(r).value);
      CommandEffect(canon, nets0, nets, accs, k, r);
      var (nets', r') := RunStep(Linux(canon), nets, r, fault);
      if out.Some? && fault != Lost {
        SameAccount(canon, r', Counted(r));
        AfterCommandInv(nets, r, nets', true, fault);
      } else {
        SameAccount(canon, r', r);
        AfterCommandInv(nets, r, nets, false, fault);
      }
    } else {
      SameAccount(canon, AfterPause(r), r);
    }
  }

  lemma SameAccount(canon: Args -> Args, r: Run, r': Run)
    requires r == r'.(phase := r.phase, faulted := r.faulted)
    ensures AccountOf(canon, r) == AccountOf(canon, r')
  {
  }

  /** One step of any run, with or without a fault, keeps the whole system's invariant. */
  lemma StepKeeps(canon: Args -> Args, s0: System, s: System, e: Event)
    requires Initial(s0) && SystemInv(canon, s0, s)
    ensures SystemInv(canon, s0, Step(Linux(canon), s, e))
  {
    if e.run < |s.runs| {
      var r := s.runs[e.run];
      var accs := AccountsOf(canon, s.runs);
      assert RunInv(s.nets, r) && r.program == s0.runs[e.run].program;
      RunStepKeeps(canon, s0.nets, s.nets, accs, e.run, r, e.fault);
      var (nets', r') := RunStep(Linux(canon), s.nets, r, e.fault);
      AccountsUpdate(canon, s.runs, e.run, r');
      RunsStep(s0.runs, s.nets, nets', s.runs, e.run, r');
    }
  }

  lemma AccountsUpdate(canon: Args -> Args, runs: seq<Run>, k: nat, r: Run)
    requires k < |runs|
    ensures AccountsOf(canon, runs[k := r]) == AccountsOf(canon, runs)[k := AccountOf(canon, r)]
  {
  }

  lemma RunsStep(runs0: seq<Run>, nets: Nets, nets': Nets, runs: seq<Run>, k: nat, r: Run)
    requires RunsInv(runs0, nets, runs) && k < |runs| && r.program == runs[k].program && RunInv(nets', r)
    requires nets'.Keys == nets.Keys && forall c | c in nets :: nets'[c].trees.Keys == nets[c].trees.Keys
    ensures RunsInv(runs0, nets', runs[k := r])
  {
    forall l | 0 <= l < |runs| && l != k ensures RunInv(nets', runs[l]) {
      RunInvByKeys(nets, nets', runs[l]);
    }
  }

  lemma InitialInv(canon: Args -> Args, s: System)
    requires Initial(s)
    ensures SystemInv(canon, s, s)
  {
    var accs := AccountsOf(canon, s.runs);
    forall k | 0 <= k < |accs| ensures Empty(accs[k]) {
      assert s.runs[k] == Start(s.runs[k].program);
    }
    InitiallyExplained(s.nets, accs);
    assert RunsInv(s.runs, s.nets, s.runs);
  }

  /** Every reachable state satisfies the invariant, whatever the interleaving and the faults. */
  lemma {:induction false} ReachableInv(canon: Args -> Args, s0: System, es: seq<Event>)
    requires Initial(s0)
    ensures SystemInv(canon, s0, Execute(Linux(canon), s0, es))
  {
    if es == [] {
      InitialInv(canon, s0);
    } else {
      ReachableInv(canon, s0, es[..|es| - 1]);
      StepKeeps(canon, s0, Execute(Linux(canon), s0, es[..|es| - 1]), es[|es| - 1]);
    }
  }
}
