/**
  What pausing and stopping does to containers: the calls of one tick of a pause or stop command, and
  what a tick leaves of every container, exactly, whatever fails.
 */
module Ticks {
  import opened Prelude

  datatype Status = Running | Paused | Exited

  type World = map<string, Status>

  datatype Op = Pause | Unpause | Stop | Start

  /** What an operation does to a container in this status; `None` is the daemon's refusal. */
  function Effect(op: Op, st: Status): Option<Status> {
    match op
    case Pause => if st == Running then Some(Paused) else None
    case Unpause => if st == Paused then Some(Running) else None
    case Stop => if st == Running then Some(Exited) else None
    case Start => if st == Paused then None else Some(Running)
  }

  /** One call to the daemon as it happened. */
  datatype Event = Event(op: Op, id: string, fault: Fault, ok: bool)

  function Takes(w: World, op: Op, id: string): Option<Status> {
    if id in w then Effect(op, w[id]) else None
  }

  function After(w: World, op: Op, id: string, fault: Fault): World {
    var out := Takes(w, op, id);
    if out.Some? && fault != Lost then w[id := out.value] else w
  }

  function Replay(w: World, log: seq<Event>): World {
    if log == [] then w
    else
      var e := log[|log| - 1];
      After(Replay(w, log[..|log| - 1]), e.op, e.id, e.fault)
  }

  /** Every answer in the log is the one the daemon gave: success exactly when the call took effect and nothing went wrong. */
  predicate Honest(w: World, log: seq<Event>) {
    forall i | 0 <= i < |log| ::
      log[i].ok <==> Takes(Replay(w, log[..i]), log[i].op, log[i].id).Some? && log[i].fault == NoFault
  }

  /** The log grows by an honest event. */
  lemma LogGrows(w: World, log: seq<Event>, e: Event)
    requires Honest(w, log)
    requires e.ok <==> Takes(Replay(w, log), e.op, e.id).Some? && e.fault == NoFault
    ensures Honest(w, log + [e])
    ensures Replay(w, log + [e]) == After(Replay(w, log), e.op, e.id, e.fault)
  {
    hide After, Takes;
    assert (log + [e])[..|log|] == log;
    forall i | 0 <= i < |log| ensures (log + [e])[..i] == log[..i] && (log + [e])[i] == log[i] {}
  }

  // ---------- one tick ----------

  datatype Command = PauseCommand | StopCommand(restart: bool)

  /** What a command does to its targets, and what undoes it. */
  function Forward(c: Command): Op {
    if c.PauseCommand? then Pause else Stop
  }

  function Undo(c: Command): Op {
    if c.PauseCommand? then Unpause else Start
  }

  /** How many calls a tick makes to act, when the first `n` succeed. */
  function Attempts(targets: seq<string>, n: nat): nat {
    if n < |targets| then n + 1 else n
  }

  /** The containers are acted on in order until the first failure, so the successes are the first `n`. */
  predicate Acts(op: Op, targets: seq<string>, n: nat, log: seq<Event>) {
    var m := Attempts(targets, n);
    && n <= |targets| && m <= |log|
    && forall i | 0 <= i < m :: log[i].op == op && log[i].id == targets[i] && (log[i].ok <==> i < n)
  }

  /** Then each of the successes gets exactly one call, in order, whether or not an earlier one failed. */
  predicate Follows(op: Op, targets: seq<string>, n: nat, log: seq<Event>) {
    var m := Attempts(targets, n);
    && n <= |targets| && |log| == m + n
    && forall i | m <= i < |log| :: log[i].op == op && log[i].id == targets[i - m]
  }

  /**
    The calls of one tick: pausing is followed by unpausing, and stopping by starting if a restart is
    asked for; a stop without a restart is followed by nothing.
   */
  predicate IsTick(c: Command, targets: seq<string>, n: nat, log: seq<Event>) {
    match c
    case PauseCommand => Acts(Pause, targets, n, log) && Follows(Unpause, targets, n, log)
    case StopCommand(true) => Acts(Stop, targets, n, log) && Follows(Start, targets, n, log)
    case StopCommand(false) => Acts(Stop, targets, n, log) && |log| == Attempts(targets, n)
  }

  // ---------- what the calls do to a container ----------

  function Lookup(w: World, id: string): Option<Status> {
    if id in w then Some(w[id]) else None
  }

  function Acted(c: Command): Status {
    if c.PauseCommand? then Paused else Exited
  }

  lemma ReplayNothing(w: World)
    ensures Replay(w, []) == w
  {
  }

  /** The event at `i`, whatever became of it, as an effect on its own container. */
  lemma EventOn(w: World, log: seq<Event>, i: nat)
    requires Honest(w, log) && i < |log|
    ensures var e := log[i];
      var before, after := Lookup(Replay(w, log[..i]), e.id), Lookup(Replay(w, log[..i + 1]), e.id);
      var out := if before.Some? then Effect(e.op, before.value) else None;
      && after == (if out.Some? && e.fault != Lost then out else before)
      && (e.ok <==> out.Some? && e.fault == NoFault)
  {
    EventReplayed(w, log, i);
  }

  lemma EventReplayed(w: World, log: seq<Event>, i: nat)
    requires i < |log|
    ensures Replay(w, log[..i + 1]) == After(Replay(w, log[..i]), log[i].op, log[i].id, log[i].fault)
  {
    assert log[..i + 1][..i] == log[..i];
  }

  /** Another container's event leaves it alone. */
  lemma EventElsewhere(w: World, log: seq<Event>, i: nat, id: string)
    requires i < |log| && log[i].id != id
    ensures Lookup(Replay(w, log[..i + 1]), id) == Lookup(Replay(w, log[..i]), id)
  {
    EventReplayed(w, log, i);
  }

  predicate NoEventOf(log: seq<Event>, id: string, i: nat, j: nat) {
    forall l | i <= l < j && l < |log| :: log[l].id != id
  }

  lemma {:induction false} Untouched(w: World, log: seq<Event>, id: string, i: nat, j: nat)
    requires i <= j <= |log| && NoEventOf(log, id, i, j)
    ensures Lookup(Replay(w, log[..j]), id) == Lookup(Replay(w, log[..i]), id)
  {
    hide Replay, Lookup;
    if i < j {
      Untouched(w, log, id, i, j - 1);
      EventElsewhere(w, log, j - 1, id);
    }
  }

  lemma UntouchedToEnd(w: World, log: seq<Event>, id: string, i: nat)
    requires i <= |log| && NoEventOf(log, id, i, |log|)
    ensures Lookup(Replay(w, log), id) == Lookup(Replay(w, log[..i]), id)
  {
    hide Replay, Lookup, NoEventOf;
    Untouched(w, log, id, i, |log|);
    assert log[..|log|] == log;
  }

  // ---------- what a tick leaves ----------

  /** The first place of `id` in a list, or its length. */
  function FirstAt(targets: seq<string>, id: string): (k: nat)
    ensures k <= |targets|
  {
    if targets == [] || targets[0] == id then 0 else FirstAt(targets[1..], id) + 1
  }

  lemma {:induction false} FirstPlace(targets: seq<string>, id: string)
    ensures FirstAt(targets, id) < |targets| ==> targets[FirstAt(targets, id)] == id
    ensures forall l | 0 <= l < FirstAt(targets, id) :: targets[l] != id
  {
    if targets != [] && targets[0] != id {
      FirstPlace(targets[1..], id);
    }
  }

  /** What undoes the action on target `k`: the action is reported, and the undo takes effect. */
  predicate UndoneAt(targets: seq<string>, n: nat, log: seq<Event>, k: nat)
    requires k < |log|
  {
    && log[k].fault == NoFault
    && Attempts(targets, n) + k < |log| && log[Attempts(targets, n) + k].fault != Lost
  }

  /** A tick spares a container it never gets to, one whose action is lost, and one whose action is undone. */
  predicate TickSpares(targets: seq<string>, n: nat, log: seq<Event>, id: string) {
    var k := FirstAt(targets, id);
    k < Attempts(targets, n) && k < |log| ==> log[k].fault == Lost || UndoneAt(targets, n, log, k)
  }

  function Outcome(c: Command, before: Option<Status>, spared: bool): Option<Status> {
    if before == Some(Running) && !spared then Some(Acted(c)) else before
  }

  /** The tick's calls about a target before its first place and after the last attempt, for a target that is reached. */
  lemma ReachedAt(c: Command, targets: seq<string>, n: nat, log: seq<Event>, id: string)
    requires IsTick(c, targets, n, log) && FirstAt(targets, id) < Attempts(targets, n)
    ensures var k := FirstAt(targets, id);
      && n <= Attempts(targets, n) <= |log| && NoEventOf(log, id, 0, k)
      && log[k].id == id && log[k].op == Forward(c) && (log[k].ok <==> k < n)
      && (n <= k ==> k == n && NoEventOf(log, id, k + 1, |log|))
  {
    FirstPlace(targets, id);
  }

  lemma NotReached(c: Command, targets: seq<string>, n: nat, log: seq<Event>, id: string)
    requires IsTick(c, targets, n, log) && FirstAt(targets, id) >= Attempts(targets, n)
    ensures NoEventOf(log, id, 0, |log|)
  {
    FirstPlace(targets, id);
  }

  /** Once acted on, a container is not acted on again: a second success is impossible. */
  lemma {:induction false} ActedOnce(w: World, c: Command, targets: seq<string>, n: nat, log: seq<Event>, id: string, k: nat, l: nat)
    requires IsTick(c, targets, n, log) && Honest(w, log) && k < l <= Attempts(targets, n)
    requires Lookup(Replay(w, log[..k + 1]), id) == Some(Acted(c))
    ensures Lookup(Replay(w, log[..l]), id) == Some(Acted(c))
    ensures l <= n ==> NoEventOf(log, id, k + 1, l)
    ensures l >= n ==> NoEventOf(log, id, k + 1, n)
  {
    hide Honest, Replay, Lookup;
    if l > k + 1 {
      ActedOnce(w, c, targets, n, log, id, k, l - 1);
      if log[l - 1].id == id {
        EventOn(w, log, l - 1);
      } else {
        EventElsewhere(w, log, l - 1, id);
      }
    }
  }

  lemma UndoOn(w: World, log: seq<Event>, i: nat, c: Command)
    requires Honest(w, log) && i < |log| && log[i].op == Undo(c)
    requires Lookup(Replay(w, log[..i]), log[i].id) == Some(Acted(c))
    ensures Lookup(Replay(w, log[..i + 1]), log[i].id)
         == if log[i].fault != Lost then Some(Running) else Some(Acted(c))
  {
    hide Honest, Replay, Lookup;
    EventOn(w, log, i);
  }

  lemma UndoOf(w: World, c: Command, log: seq<Event>, id: string, i: nat, u: nat)
    requires Honest(w, log) && i <= u < |log|
    requires NoEventOf(log, id, i, u) && log[u].id == id && log[u].op == Undo(c) && NoEventOf(log, id, u + 1, |log|)
    requires Lookup(Replay(w, log[..i]), id) == Some(Acted(c))
    ensures Lookup(Replay(w, log), id) == if log[u].fault != Lost then Some(Running) else Some(Acted(c))
  {
    hide Honest, Replay, Lookup, NoEventOf;
    Untouched(w, log, id, i, u);
    UndoOn(w, log, u, c);
    UntouchedToEnd(w, log, id, u + 1);
  }

  /** The one undo of a container that was acted on at `k`, if the tick undoes anything. */
  lemma UndoPlace(c: Command, targets: seq<string>, n: nat, log: seq<Event>, id: string, k: nat)
    requires IsTick(c, targets, n, log) && k == FirstAt(targets, id) < n && c != StopCommand(false)
    requires NoEventOf(log, id, k + 1, n)
    ensures var m := Attempts(targets, n);
      && m + k < |log| && log[m + k].id == id && log[m + k].op == Undo(c)
      && NoEventOf(log, id, m, m + k) && NoEventOf(log, id, m + k + 1, |log|)
  {
    FirstPlace(targets, id);
    forall l | k < l < n ensures targets[l] != id {
      assert log[l].id != id;
    }
  }

  /** A container whose action succeeded runs again exactly if its undo is called and not lost. */
  lemma ActedOutcome(w: World, c: Command, targets: seq<string>, n: nat, log: seq<Event>, id: string, k: nat)
    requires IsTick(c, targets, n, log) && Honest(w, log) && k == FirstAt(targets, id) < n
    requires Lookup(Replay(w, log[..k + 1]), id) == Some(Acted(c))
    ensures Attempts(targets, n) + k < |log| <==> c != StopCommand(false)
    ensures Lookup(Replay(w, log), id)
         == if Attempts(targets, n) + k < |log| && log[Attempts(targets, n) + k].fault != Lost then Some(Running)
            else Some(Acted(c))
  {
    hide Honest, Replay, Lookup, IsTick, NoEventOf, FirstAt, Undo, Acted, Attempts;
    var m := Attempts(targets, n);
    TickLength(c, targets, n, log);
    ActedOnce(w, c, targets, n, log, id, k, m);
    if c == StopCommand(false) {
      assert log[..|log|] == log;
    } else {
      UndoPlace(c, targets, n, log, id, k);
      UndoOf(w, c, log, id, m, m + k);
    }
  }

  /** What the first action on a reached container does, and when it succeeds. */
  lemma ActionOutcome(w: World, c: Command, targets: seq<string>, n: nat, log: seq<Event>, id: string, k: nat)
    requires IsTick(c, targets, n, log) && Honest(w, log) && k == FirstAt(targets, id) < Attempts(targets, n)
    ensures k < |log| && Lookup(Replay(w, log[..k + 1]), id) == Outcome(c, Lookup(w, id), log[k].fault == Lost)
    ensures k < n <==> Lookup(w, id) == Some(Running) && log[k].fault == NoFault
  {
    ReachedAt(c, targets, n, log, id);
    hide Honest, Replay, Lookup, IsTick, NoEventOf, FirstAt;
    assert log[..0] == [];
    ReplayNothing(w);
    Untouched(w, log, id, 0, k);
    EventOn(w, log, k);
  }

  /**
    What a tick leaves of any container, exactly: one that was running and is not spared is left paused or
    stopped; every other one is as before.
   */
  lemma TickOutcome(w: World, c: Command, targets: seq<string>, n: nat, log: seq<Event>, id: string)
    requires IsTick(c, targets, n, log) && Honest(w, log)
    ensures Lookup(Replay(w, log), id) == Outcome(c, Lookup(w, id), TickSpares(targets, n, log, id))
  {
    hide Honest, Replay, Lookup, IsTick, NoEventOf, FirstAt, Attempts;
    var k := FirstAt(targets, id);
    TickLength(c, targets, n, log);
    if k >= Attempts(targets, n) {
      NotReached(c, targets, n, log, id);
      assert log[..0] == [];
      ReplayNothing(w);
      UntouchedToEnd(w, log, id, 0);
    } else {
      ReachedAt(c, targets, n, log, id);
      ActionOutcome(w, c, targets, n, log, id, k);
      if k < n {
        ActedOutcome(w, c, targets, n, log, id, k);
      } else {
        UntouchedToEnd(w, log, id, k + 1);
      }
    }
  }

  lemma TickLength(c: Command, targets: seq<string>, n: nat, log: seq<Event>)
    requires IsTick(c, targets, n, log)
    ensures n <= Attempts(targets, n) && |log| == Attempts(targets, n) + (if c == StopCommand(false) then 0 else n)
  {
  }

  /** If every call of a tick of a pause, or of a stop with a restart, succeeds, every container is as it was. */
  lemma GoodTickRestores(w: World, c: Command, targets: seq<string>, n: nat, log: seq<Event>, id: string)
    requires IsTick(c, targets, n, log) && Honest(w, log) && c in {PauseCommand, StopCommand(true)}
    requires forall i | 0 <= i < |log| :: log[i].ok
    ensures Lookup(Replay(w, log), id) == Lookup(w, id)
  {
    TickOutcome(w, c, targets, n, log, id);
    TickLength(c, targets, n, log);
    var k := FirstAt(targets, id);
    if k < Attempts(targets, n) {
      hide Replay, Lookup;
      ReachedAt(c, targets, n, log, id);
      EventOn(w, log, k);
      EventOn(w, log, Attempts(targets, n) + k);
    }
  }

  /** A stop without a restart never starts anything, and every container it stopped was running and is exited. */
  lemma StopTickStays(w: World, targets: seq<string>, n: nat, log: seq<Event>, id: string)
    requires IsTick(StopCommand(false), targets, n, log) && Honest(w, log)
    ensures forall i | 0 <= i < |log| :: log[i].op == Stop
    ensures id in targets[..n] ==> Lookup(w, id) == Some(Running) && Lookup(Replay(w, log), id) == Some(Exited)
    ensures Lookup(w, id) == Some(Exited) ==> Lookup(Replay(w, log), id) == Some(Exited)
  {
    TickOutcome(w, StopCommand(false), targets, n, log, id);
    TickLength(StopCommand(false), targets, n, log);
    if id in targets[..n] {
      var i :| 0 <= i < n && targets[i] == id;
      FirstPlace(targets, id);
      ActionOutcome(w, StopCommand(false), targets, n, log, id, FirstAt(targets, id));
    }
  }

  /**
    A call that failed after taking effect is one way not to be spared: the container is acted on, is not
    among the successes, and so is never compensated.
   */
  lemma UnreportedActionStays(w: World, id: string)
    requires Lookup(w, id) == Some(Running)
    ensures var log := [Event(Pause, id, Unreported, false)];
      && IsTick(PauseCommand, [id], 0, log) && Honest(w, log)
      && Lookup(Replay(w, log), id) == Some(Paused)
  {
    var log := [Event(Pause, id, Unreported, false)];
    assert log[..0] == [];
    assert Replay(w, log[..0]) == w;
  }

  // ---------- one log after another ----------

  lemma {:induction false} ReplayAppend(w: World, a: seq<Event>, b: seq<Event>)
    ensures Replay(w, a + b) == Replay(Replay(w, a), b)
  {
    if b == [] {
      assert a + b == a;
    } else {
      assert (a + b)[..|a + b| - 1] == a + b[..|b| - 1];
      ReplayAppend(w, a, b[..|b| - 1]);
    }
  }

  lemma HonestSuffix(w: World, a: seq<Event>, b: seq<Event>)
    requires Honest(w, a + b)
    ensures Honest(w, a) && Honest(Replay(w, a), b)
  {
    forall i | 0 <= i < |a| ensures (a + b)[i] == a[i] && (a + b)[..i] == a[..i] {}
    forall i | 0 <= i < |b|
      ensures (a + b)[|a| + i] == b[i] && Replay(w, (a + b)[..|a| + i]) == Replay(Replay(w, a), b[..i])
    {
      assert (a + b)[..|a| + i] == a + b[..i];
      ReplayAppend(w, a, b[..i]);
    }
  }
}
