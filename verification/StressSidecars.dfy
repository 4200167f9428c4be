/**
  The stress sidecars of the Docker and the podman adapters. The daemon removes such a container by
  itself when it exits, so the adapter has to remove exactly those that never ran; and the goroutine that
  reads a sidecar's output delivers one verdict.
 */
module StressSidecars {
  import opened Prelude
  import opened Channels
  import opened Sidecars

  /** A launch that fails removes what it created, once; one that succeeds removes nothing. */
  predicate IsLaunch(started: bool, body: seq<Call>, removal: seq<Call>) {
    && Removals(body) == 0
    && Created(body) == Removals(removal) + (if started then 1 else 0)
    && Created(body) <= 1 && Created(removal) == 0
    && (started <==> body != [] && body[|body| - 1] == Start(true))
    && (removal != [] ==> IsRemoval(removal, true) || IsRemoval(removal, false))
  }

  /** The calls of a launch that goes well, in their order: resolving, perhaps pulling, creating, attaching, starting. */
  function Launched(pull: bool): seq<Call> {
    Prepared(pull) + [Attach(true), Start(true)]
  }

  function Prepared(pull: bool): seq<Call> {
    if pull then [Resolve(true), Pull(true), Create(true)] else [Resolve(true), Create(true)]
  }

  /** The calls up to the creation, the last of them with the given answer. */
  method Prepare(d: Daemon, pull: bool) returns (created: bool, ghost body: seq<Call>)
    modifies d
    ensures d.log == old(d.log) + body
    ensures body != [] && Removals(body) == 0 && Created(body) == if created then 1 else 0
    ensures body[|body| - 1] != Start(true)
    ensures created ==> body == Prepared(pull)
  {
    hide Created, Removals;
    body := [];
    NoneYet();
    var ok: bool := *;
    d.Answer(Resolve(ok));
    Grows(body, Resolve(ok));
    body := body + [Resolve(ok)];
    if !ok {
      return false, body;
    }
    if pull {
      ok := *;
      d.Answer(Pull(ok));
      Grows(body, Pull(ok));
      body := body + [Pull(ok)];
      if !ok {
        return false, body;
      }
    }
    created := *;
    d.Answer(Create(created));
    Grows(body, Create(created));
    body := body + [Create(created)];
  }

  lemma NoneYet()
    ensures Created([]) == Removals([]) == 0
  {
  }

  /** The calls between a successful creation and the first failure, or the start. */
  method AttachAndStart(d: Daemon, ghost body: seq<Call>) returns (started: bool, ghost part: seq<Call>)
    modifies d
    ensures d.log == old(d.log) + part && part != []
    ensures Created(body + part) == Created(body) && Removals(body + part) == Removals(body)
    ensures started <==> part[|part| - 1] == Start(true)
    ensures part == if started then [Attach(true), Start(true)]
                    else if part[0] == Attach(true) then [Attach(true), Start(false)]
                    else [Attach(false)]
  {
    hide Created, Removals;
    started := *;
    d.Answer(Attach(started));
    part := [Attach(started)];
    Grows(body, Attach(started));
    if started {
      started := *;
      d.Answer(Start(started));
      Grows(body + part, Start(started));
      assert body + (part + [Start(started)]) == body + part + [Start(started)];
      part := part + [Start(started)];
    }
  }

  /** Docker: a timed-out removal of a sidecar that never ran is looked into, but not repeated. */
  method LaunchOnDocker(d: Daemon, pull: bool) returns (started: bool, ghost body: seq<Call>, ghost removal: seq<Call>)
    modifies d
    ensures d.log == old(d.log) + body + removal
    ensures IsLaunch(started, body, removal)
    ensures started ==> body == Launched(pull)
  {
    hide Created, Removals, IsRemoval;
    removal := [];
    NoneYet();
    started, body := Prepare(d, pull);
    if !started {
      return;
    }
    var gone: bool;
    ghost var part;
    started, part := AttachAndStart(d, body);
    body := body + part;
    if !started {
      gone, removal := d.RemoveSidecar();
      RemovalRemoves(removal, gone);
    }
  }

  lemma OneRemoval(a: RemoveAnswer)
    ensures Removals([Remove(a)]) == 1 && Created([Remove(a)]) == 0
  {
    Grows([], Remove(a));
    assert [] + [Remove(a)] == [Remove(a)];
  }

  /** Podman: the answer to the one removal is not looked at. */
  method LaunchOnPodman(d: Daemon, pull: bool) returns (started: bool, ghost body: seq<Call>, ghost removal: seq<Call>)
    modifies d
    ensures d.log == old(d.log) + body + removal
    ensures |removal| <= 1 && Removals(removal) == |removal|
    ensures Removals(body) == 0 && Created(body) == |removal| + (if started then 1 else 0) <= 1
    ensures started <==> body != [] && body[|body| - 1] == Start(true)
    ensures started ==> body == Launched(pull)
  {
    hide Created, Removals;
    removal := [];
    NoneYet();
    started, body := Prepare(d, pull);
    if !started {
      return;
    }
    ghost var part;
    started, part := AttachAndStart(d, body);
    body := body + part;
    if !started {
      var a: RemoveAnswer := *;
      d.Answer(Remove(a));
      removal := [Remove(a)];
      OneRemoval(a);
    }
  }

  /**
    The reader of the output: one verdict, then both channels are closed. `inspected` is what the
    inspection at the end shows, if it succeeds: an exit code, or no state at all.
   */
  method DrainStressOutput(text: string, copied: bool, inspected: Option<Option<int>>,
                           output: Channel<string>, errors: Channel<Failure>)
    requires !output.closed && !errors.closed && output.sent == [] && errors.sent == []
    modifies output, errors
    ensures output.closed && errors.closed
    ensures |output.sent| + |errors.sent| == 1
    ensures output.sent == [text] <==> copied && (inspected == Some(None) || inspected == Some(Some(0)))
    ensures errors.sent == [OutputLost] <==> !copied
    ensures errors.sent == [Failure.InspectFailed] <==> copied && inspected == None
    ensures forall n :: errors.sent == [ExitedWith(n)] <==> copied && inspected == Some(Some(n)) && n != 0
  {
    if !copied {
      errors.Send(OutputLost);
    } else if inspected.None? {
      errors.Send(Failure.InspectFailed);
    } else if inspected.value.Some? && inspected.value.value != 0 {
      errors.Send(ExitedWith(inspected.value.value));
    } else {
      output.Send(text);
    }
    errors.Close();
    output.Close();
  }

  /** Conservation: what a launch created is removed by it exactly if it did not start it. */
  lemma LaunchConserves(started: bool, body: seq<Call>, removal: seq<Call>)
    requires IsLaunch(started, body, removal)
    ensures Created(body + removal) - Removals(body + removal) == if started then 1 else 0
  {
    SumConcat(body, removal);
  }
}
