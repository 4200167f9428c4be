/**
  The helper containers that carry `tc` and `iptables` commands into a target's namespace. Any
  call to the daemon may end in any way; what is proved is which calls are made, in which order.
 */
module Sidecars {
  import opened Prelude

  datatype RemoveAnswer = Removed | AlreadyGone | TimedOut | RemoveFailed

  datatype InspectAnswer = NoSuchContainer | InspectFailed | Leaving | Staying

  /** One call as it happened. `code` is the exit code, if the inspection succeeded. */
  datatype Call =
    | Resolve(ok: bool)
    | Pull(ok: bool)
    | Create(ok: bool)
    | Attach(ok: bool)
    | Start(ok: bool)
    | ExecCreate(cmd: Args, ok: bool)
    | ExecAttach(ok: bool)
    | ExecInspect(cmd: Args, code: Option<int>)
    | Remove(removal: RemoveAnswer)
    | Inspect(seen: InspectAnswer)

  // ---------- what a list of calls amounts to ----------

  function Count(log: seq<Call>, p: Call -> bool): nat {
    if log == [] then 0 else Count(log[..|log| - 1], p) + if p(log[|log| - 1]) then 1 else 0
  }

  /** Sidecars that came into being, and attempts to remove one. */
  function Created(log: seq<Call>): nat { Count(log, (c: Call) => c == Create(true)) }
  function Removals(log: seq<Call>): nat { Count(log, (c: Call) => c.Remove?) }

  /** The commands begun, in order, and the commands that ended with exit code 0, in order. */
  function Begun(log: seq<Call>): seq<Args> {
    if log == [] then []
    else Begun(log[..|log| - 1]) + if log[|log| - 1].ExecCreate? then [log[|log| - 1].cmd] else []
  }

  function Succeeded(log: seq<Call>): seq<Args> {
    if log == [] then []
    else
      var c := log[|log| - 1];
      Succeeded(log[..|log| - 1]) + if c.ExecInspect? && c.code == Some(0) then [c.cmd] else []
  }

  lemma Grows(log: seq<Call>, c: Call)
    ensures Created(log + [c]) == Created(log) + if c == Create(true) then 1 else 0
    ensures Removals(log + [c]) == Removals(log) + if c.Remove? then 1 else 0
    ensures Begun(log + [c]) == Begun(log) + if c.ExecCreate? then [c.cmd] else []
    ensures Succeeded(log + [c]) == Succeeded(log) + if c.ExecInspect? && c.code == Some(0) then [c.cmd] else []
  {
    assert (log + [c])[..|log|] == log;
  }

  /** The end of a sidecar: one removal, looked into once if it timed out, and whether the sidecar is gone. */
  predicate IsRemoval(part: seq<Call>, gone: bool) {
    && part != [] && part[0].Remove?
    && (if part[0].removal.TimedOut? then |part| == 2 && part[1].Inspect? else |part| == 1)
    && (gone <==> part[0].removal in {Removed, AlreadyGone}
                  || (part[0].removal.TimedOut? && part[1].seen in {NoSuchContainer, Leaving}))
  }

  /** The calls of one sidecar before its removal, as told by what they amount to. */
  datatype Summary = Summary(created: nat, removals: nat, begun: seq<Args>, succeeded: seq<Args>)

  function Sum(log: seq<Call>): Summary {
    Summary(Created(log), Removals(log), Begun(log), Succeeded(log))
  }

  // ---------- that what succeeded was run ----------

  /** The result of a command is only read after the command was created and run, in the three calls before. */
  predicate ResultsAreRead(log: seq<Call>) {
    forall i | 0 <= i < |log| && log[i].ExecInspect? ::
      i >= 2 && log[i - 1] == ExecAttach(true) && log[i - 2] == ExecCreate(log[i].cmd, true)
  }

  lemma ReadConcat(a: seq<Call>, b: seq<Call>)
    requires ResultsAreRead(a) && ResultsAreRead(b)
    ensures ResultsAreRead(a + b)
  {
    forall i | 0 <= i < |a + b| && (a + b)[i].ExecInspect?
      ensures i >= 2 && (a + b)[i - 1] == ExecAttach(true) && (a + b)[i - 2] == ExecCreate((a + b)[i].cmd, true)
    {
      if i >= |a| {
        assert b[i - |a|].ExecInspect?;
      }
    }
  }

  /** Every command counted as succeeded was created, run and read with exit code 0, in three calls that follow each other. */
  lemma {:induction false} SucceededWereRun(log: seq<Call>, i: nat) returns (p: nat)
    requires ResultsAreRead(log) && i < |Succeeded(log)|
    ensures 2 <= p < |log|
    ensures var cmd := Succeeded(log)[i];
      log[p - 2] == ExecCreate(cmd, true) && log[p - 1] == ExecAttach(true) && log[p] == ExecInspect(cmd, Some(0))
  {
    var n := |log| - 1;
    var front := log[..n];
    if i < |Succeeded(front)| {
      p := SucceededWereRun(front, i);
    } else {
      p := n;
    }
  }

  /** The calls of one command, to its end or to the first that fails. */
  predicate IsExec(cmd: Args, part: seq<Call>, ok: bool) {
    || (part == [ExecCreate(cmd, false)] && !ok)
    || (part == [ExecCreate(cmd, true), ExecAttach(false)] && !ok)
    || (|part| == 3 && part[0] == ExecCreate(cmd, true) && part[1] == ExecAttach(true)
        && part[2].ExecInspect? && part[2].cmd == cmd && (ok <==> part[2].code == Some(0)))
  }

  /** Any daemon: it records the calls and gives any answer. */
  class Daemon {
    var log: seq<Call>

    method Answer(c: Call)
      modifies this
      ensures log == old(log) + [c]
    {
      log := log + [c];
    }

    method RemoveSidecar() returns (gone: bool, ghost part: seq<Call>)
      modifies this
      ensures log == old(log) + part && IsRemoval(part, gone)
    {
      var a: RemoveAnswer := *;
      Answer(Remove(a));
      if a.Removed? {
        return true, [Remove(a)];
      }
      ghost var rest;
      gone, rest := SidecarRemovalComplete(a);
      part := [Remove(a)] + rest;
    }

    /** A failed removal still counts if the sidecar was gone already, or if a timeout hides that it is going. */
    method SidecarRemovalComplete(a: RemoveAnswer) returns (gone: bool, ghost part: seq<Call>)
      requires !a.Removed?
      modifies this
      ensures log == old(log) + part && IsRemoval([Remove(a)] + part, gone)
    {
      part := [];
      if a.AlreadyGone? {
        return true, part;
      }
      if !a.TimedOut? {
        return false, part;
      }
      var seen: InspectAnswer := *;
      Answer(Inspect(seen));
      part := [Inspect(seen)];
      if seen.NoSuchContainer? {
        return true, part;
      }
      if seen.InspectFailed? {
        return false, part;
      }
      return seen.Leaving?, part;
    }

    /** One command in the sidecar. An exit code other than 0 is an error, as is every failing call. */
    method RunSidecarExec(cmd: Args) returns (ok: bool, ghost part: seq<Call>)
      modifies this
      ensures log == old(log) + part
      ensures Sum(part) == Summary(0, 0, [cmd], if ok then [cmd] else [])
      ensures IsExec(cmd, part, ok) && ResultsAreRead(part)
    {
      hide Created, Removals, Begun, Succeeded;
      NothingCalled();
      ok := *;
      Answer(ExecCreate(cmd, ok));
      part := [ExecCreate(cmd, ok)];
      Grows([], part[0]);
      assert [] + [part[0]] == part;
      if !ok {
        return;
      }
      ok := *;
      Answer(ExecAttach(ok));
      Grows(part, ExecAttach(ok));
      part := part + [ExecAttach(ok)];
      if !ok {
        return;
      }
      var code: Option<int> := *;
      Answer(ExecInspect(cmd, code));
      Grows(part, ExecInspect(cmd, code));
      part := part + [ExecInspect(cmd, code)];
      ok := code == Some(0);
    }

    /** The commands in order, up to the first that does not succeed. */
    method RunCommands(argsList: seq<Args>) returns (ok: bool, ghost part: seq<Call>)
      modifies this
      ensures log == old(log) + part
      ensures IsCommands(argsList, ok, part)
    {
      hide Created, Removals, Begun, Succeeded;
      part, ok := [], true;
      NothingCalled();
      var i := 0;
      while i < |argsList| && ok
        invariant i <= |argsList| && log == old(log) + part
        invariant !ok ==> i > 0
        invariant Sum(part) == Summary(0, 0, argsList[..i], if ok then argsList[..i] else argsList[..i - 1])
        invariant ResultsAreRead(part)
      {
        ghost var one;
        ok, one := RunSidecarExec(argsList[i]);
        SumConcat(part, one);
        ReadConcat(part, one);
        part := part + one;
        assert argsList[..i + 1] == argsList[..i] + [argsList[i]];
        i := i + 1;
      }
      assert ok ==> argsList[..i] == argsList;
    }

    /**
      The whole life of a sidecar. A sidecar that came into being gets exactly one removal, after
      everything else, on every path; no error means that every command ran once, in order, with exit
      code 0, and that the sidecar is gone.
     */
    method RunSidecar(argsList: seq<Args>, pull: bool) returns (ok: bool, ghost body: seq<Call>, ghost removal: seq<Call>)
      modifies this
      ensures log == old(log) + body + removal
      ensures IsSidecarRun(argsList, ok, body, removal)
      ensures pull && Create(true) in body ==> Pull(true) in body
    {
      hide Sum, IsRemoval, IsCommands, IsSidecarRun;
      body, removal := [], [];
      NothingRun(argsList);
      var done: bool;
      if pull {
        done := *;
        Answer(Pull(done));
        NoneCreated(argsList, body, Pull(done));
        body := body + [Pull(done)];
        if !done {
          return false, body, removal;
        }
      }
      done := *;
      Answer(Create(done));
      NoneCreated(argsList, body, Create(done));
      body := body + [Create(done)];
      if !done {
        return false, body, removal;
      }
      done := *;
      Answer(Start(done));
      ghost var created := body;
      body := body + [Start(done)];
      if !done {
        done, removal := RemoveSidecar();
        RunEnds(argsList, created, Start(false), [], true, removal, done);
        assert body + [] == body;
        return false, body, removal;
      }
      ghost var part;
      done, part := RunCommands(argsList);
      ghost var ran := done;
      body := body + part;
      if !done {
        done, removal := RemoveSidecar();
        RunEnds(argsList, created, Start(true), part, ran, removal, done);
        return false, body, removal;
      }
      ok, removal := RemoveSidecar();
      RunEnds(argsList, created, Start(true), part, ran, removal, ok);
    }
  }

  /** No sidecar yet: there is nothing to remove, and the run, if it ends here, is an error. */
  lemma NothingRun(argsList: seq<Args>)
    ensures NotCreated([])
    ensures IsSidecarRun(argsList, false, [], [])
  {
    NothingCalled();
  }

  predicate NotCreated(body: seq<Call>) {
    Sum(body) == Summary(0, 0, [], []) && NothingRead(body)
  }

  predicate JustCreated(body: seq<Call>) {
    Sum(body) == Summary(1, 0, [], []) && NothingRead(body)
  }

  predicate NothingRead(body: seq<Call>) {
    forall c <- body :: !c.ExecInspect?
  }

  lemma NoneCreated(argsList: seq<Args>, body: seq<Call>, c: Call)
    requires NotCreated(body) && (c.Pull? || c.Create?)
    ensures if c == Create(true) then JustCreated(body + [c])
            else NotCreated(body + [c]) && IsSidecarRun(argsList, false, body + [c], [])
  {
    Grows(body, c);
  }

  /** The ways a run ends once the sidecar exists: not started, a command failed, or all went well up to the removal. */
  lemma RunEnds(argsList: seq<Args>, created: seq<Call>, start: Call, part: seq<Call>, ran: bool, removal: seq<Call>, gone: bool)
    requires JustCreated(created) && start.Start? && IsRemoval(removal, gone)
    requires if start.ok then IsCommands(argsList, ran, part) else part == []
    ensures IsSidecarRun(argsList, start.ok && ran && gone, created + [start] + part, removal)
    ensures IsSidecarRun(argsList, false, created + [start] + part, removal)
  {
    hide IsRemoval, Created, Removals, Begun, Succeeded;
    Grows(created, start);
    NothingCalled();
    SumConcat(created + [start], part);
    if start.ok {
      ReadConcat(created + [start], part);
    }
    var body := created + [start] + part;
    assert body[|created|] == start && body[..|created|] == created;
  }

  /** The commands begun are a prefix of the list, and all but perhaps the last of them succeeded. */
  predicate IsCommands(argsList: seq<Args>, ok: bool, part: seq<Call>) {
    var s := Sum(part);
    && ResultsAreRead(part)
    && s.created == s.removals == 0
    && s.begun <= argsList
    && (if ok then s.begun == s.succeeded == argsList
        else s.begun != [] && s.succeeded == s.begun[..|s.begun| - 1])
  }

  /** The sidecar was created, then started, and no command was begun before that. */
  predicate StartedFirst(body: seq<Call>) {
    exists i | 0 <= i < |body| :: body[i] == Start(true) && JustCreated(body[..i])
  }

  predicate IsSidecarRun(argsList: seq<Args>, ok: bool, body: seq<Call>, removal: seq<Call>) {
    var s := Sum(body);
    && s.created <= 1 && s.removals == 0 && s.begun <= argsList
    && s.succeeded <= s.begun && |s.begun| <= |s.succeeded| + 1
    && ResultsAreRead(body)
    && (if s.created == 0 then removal == [] && !ok && s.begun == []
        else IsRemoval(removal, true) || IsRemoval(removal, false))
    && (ok || s.begun != [] ==> StartedFirst(body))
    && (ok ==> s.begun == s.succeeded == argsList && IsRemoval(removal, true))
  }

  lemma NothingCalled()
    ensures Sum([]) == Summary(0, 0, [], [])
  {
  }

  lemma {:induction false} SumConcat(a: seq<Call>, b: seq<Call>)
    ensures var x, y := Sum(a), Sum(b);
      Sum(a + b) == Summary(x.created + y.created, x.removals + y.removals, x.begun + y.begun, x.succeeded + y.succeeded)
  {
    hide Created, Removals, Begun, Succeeded;
    if b == [] {
      NothingCalled();
      assert a + b == a;
    } else {
      var b', c := b[..|b| - 1], b[|b| - 1];
      SumConcat(a, b');
      assert a + b == (a + b') + [c] && b == b' + [c];
      Grows(a + b', c);
      Grows(b', c);
    }
  }

  lemma RemovalRemoves(removal: seq<Call>, gone: bool)
    requires IsRemoval(removal, gone)
    ensures Removals(removal) == 1 && Created(removal) == 0
  {
    Grows([], removal[0]);
    assert [] + [removal[0]] == [removal[0]];
    if |removal| == 2 {
      Grows([removal[0]], removal[1]);
      assert [removal[0]] + [removal[1]] == removal;
    } else {
      assert [removal[0]] == removal;
    }
  }

  /** Conservation: over a whole run, as many removals are attempted as sidecars came into being. */
  lemma RemovedAsOftenAsCreated(argsList: seq<Args>, ok: bool, body: seq<Call>, removal: seq<Call>)
    requires IsSidecarRun(argsList, ok, body, removal)
    ensures Created(body + removal) == Removals(body + removal) <= 1
  {
    hide IsRemoval;
    SumConcat(body, removal);
    if Created(body) == 1 {
      if IsRemoval(removal, true) {
        RemovalRemoves(removal, true);
      } else {
        RemovalRemoves(removal, false);
      }
    }
  }

  /** No error: each command was created, run and read with exit code 0, after the sidecar had been started. */
  lemma EveryCommandWasRun(argsList: seq<Args>, body: seq<Call>, removal: seq<Call>, i: nat) returns (started: nat, p: nat)
    requires IsSidecarRun(argsList, true, body, removal) && i < |argsList|
    ensures started + 2 < p < |body| && body[started] == Start(true)
    ensures body[p - 2] == ExecCreate(argsList[i], true) && body[p - 1] == ExecAttach(true)
    ensures body[p] == ExecInspect(argsList[i], Some(0))
  {
    hide Created, Removals, Begun, IsRemoval;
    p := SucceededWereRun(body, i);
    started :| started < |body| && body[started] == Start(true) && JustCreated(body[..started]);
    forall i | 0 <= i < started ensures !body[i].ExecInspect? {
      assert body[i] in body[..started];
    }
  }
}
