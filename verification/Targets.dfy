/** Which containers an action is applied to, and in what way: filter, random cut, serial loop and fan-out. */
module Targets {
  import opened Prelude

  datatype Container = Container(id: string, name: string, labels: map<string, string>)

  datatype Filter = Filter(names: seq<string>, pattern: string)

  predicate Marked(c: Container, key: string) {
    key in c.labels && c.labels[key] == "true"
  }

  /** A name given by the user is the container's name, its id, or its name without the leading slash. */
  predicate Named(name: string, c: Container) {
    name == c.name || name == c.id || (c.name != "" && c.name[0] == '/' && name == c.name[1..])
  }

  predicate AnyNamed(names: seq<string>, c: Container) {
    exists i | 0 <= i < |names| :: Named(names[i], c)
  }

  /** `like` stands for regular-expression matching, which is not modelled. */
  predicate Accepts(f: Filter, like: (string, string) -> bool, c: Container) {
    && !Marked(c, "com.gaiaadm.pumba") && !Marked(c, "com.gaiaadm.pumba.skip")
    && (if f.names != [] then AnyNamed(f.names, c)
        else like(f.pattern, c.name) || (c.name != "" && c.name[0] == '/' && like(f.pattern, c.name[1..])))
  }

  method MatchNames(names: seq<string>, c: Container) returns (found: bool)
    ensures found <==>
      exists i | 0 <= i < |names| :: names[i] == c.name || names[i] == c.id || "/" + names[i] == c.name
  {
    for i := 0 to |names|
      invariant forall j | 0 <= j < i :: names[j] != c.name && names[j] != c.id && "/" + names[j] != c.name
    {
      if names[i] == c.name || names[i] == c.id {
        return true;
      }
      if |c.name| > 0 && c.name[0] == '/' && names[i] == c.name[1..] {
        return true;
      }
    }
    return false;
  }

  /** What the runtime lists and the filter lets through, in order. */
  function Kept(cs: seq<Container>, f: Filter, like: (string, string) -> bool): seq<Container> {
    if cs == [] then []
    else (if Accepts(f, like, cs[0]) then [cs[0]] else []) + Kept(cs[1..], f, like)
  }

  lemma {:induction false} KeptExactly(cs: seq<Container>, f: Filter, like: (string, string) -> bool, c: Container)
    ensures multiset(Kept(cs, f, like))[c] == if Accepts(f, like, c) then multiset(cs)[c] else 0
  {
    if cs != [] {
      KeptExactly(cs[1..], f, like, c);
      assert cs == [cs[0]] + cs[1..];
    }
  }

  /**
    A container is kept exactly if it is listed, neither label is "true", and it goes by one of the
    names, where names are given, or else the pattern matches its name, with or without the slash.
   */
  lemma KeptIff(cs: seq<Container>, f: Filter, like: (string, string) -> bool, c: Container)
    ensures c in Kept(cs, f, like) <==>
      && c in cs
      && !("com.gaiaadm.pumba" in c.labels && c.labels["com.gaiaadm.pumba"] == "true")
      && !("com.gaiaadm.pumba.skip" in c.labels && c.labels["com.gaiaadm.pumba.skip"] == "true")
      && if f.names != [] then
           exists i | 0 <= i < |f.names| :: f.names[i] == c.name || f.names[i] == c.id || "/" + f.names[i] == c.name
         else
           like(f.pattern, c.name) || exists rest :: "/" + rest == c.name && like(f.pattern, rest)
  {
    hide Kept;
    KeptExactly(cs, f, like, c);
    assert c in Kept(cs, f, like) <==> Accepts(f, like, c) && c in cs;
    if c.name != "" && c.name[0] == '/' {
      assert "/" + c.name[1..] == c.name;
    }
    forall rest | "/" + rest == c.name ensures rest == c.name[1..] {
    }
  }

  /** Fisher-Yates as Go's rand.Shuffle does it; `draw` is any source of random positions. */
  method Shuffle(a: array<Container>, draw: nat -> nat)
    modifies a
    ensures multiset(a[..]) == old(multiset(a[..]))
  {
    var i := a.Length - 1;
    while i > 0
      invariant multiset(a[..]) == old(multiset(a[..]))
    {
      var j := draw(i) % (i + 1);
      a[i], a[j] := a[j], a[i];
      i := i - 1;
    }
  }

  /** The listed containers that pass the filter, or `limit` of them chosen at random. */
  method ListNContainersAll(listed: Option<seq<Container>>, f: Filter, like: (string, string) -> bool, limit: int,
                            draw: nat -> nat)
    returns (r: Option<seq<Container>>)
    ensures r.None? <==> listed.None?
    ensures r.Some? ==>
      var kept := Kept(listed.value, f, like);
      && multiset(r.value) <= multiset(kept)
      && |r.value| == (if 0 < limit < |kept| then limit else |kept|)
      && (!(0 < limit < |kept|) ==> r.value == kept)
  {
    if listed.None? {
      return None;
    }
    var containers := Kept(listed.value, f, like);
    if limit > 0 && |containers| > limit {
      var a := new Container[|containers|](i requires 0 <= i < |containers| => containers[i]);
      assert a[..] == containers;
      Shuffle(a, draw);
      assert a[..] == a[..limit] + a[limit..];
      containers := a[..limit];
    }
    return Some(containers);
  }

  /** Every container acted on was listed and accepted, at most as often as it was listed, and carries no true label. */
  lemma ChosenWereAccepted(cs: seq<Container>, f: Filter, like: (string, string) -> bool, chosen: seq<Container>, c: Container)
    requires multiset(chosen) <= multiset(Kept(cs, f, like)) && c in chosen
    ensures Accepts(f, like, c) && !Marked(c, "com.gaiaadm.pumba") && !Marked(c, "com.gaiaadm.pumba.skip")
    ensures multiset(chosen)[c] <= multiset(cs)[c]
  {
    KeptExactly(cs, f, like, c);
    assert c in multiset(chosen);
  }

  // ---------- applying the action ----------

  /** How one call of the action ended; the list of calls is in the order in which they were made. */
  datatype Call = Call(target: Container, ok: bool)

  function Called(calls: seq<Call>): seq<Container> {
    Map((c: Call) => c.target, calls)
  }

  predicate AllOk(calls: seq<Call>) {
    forall i | 0 <= i < |calls| :: calls[i].ok
  }

  /** `acts(k)` says whether the k-th call succeeds. */
  method RunSerially(targets: seq<Container>, acts: nat -> bool) returns (calls: seq<Call>, failed: bool)
    ensures |calls| <= |targets| && Called(calls) == targets[..|calls|]
    ensures failed <==> !AllOk(calls)
    ensures failed ==> calls != [] && AllOk(calls[..|calls| - 1])
    ensures !failed ==> |calls| == |targets|
  {
    calls := [];
    for i := 0 to |targets|
      invariant |calls| == i && Called(calls) == targets[..i] && AllOk(calls)
    {
      var ok := acts(i);
      calls := calls + [Call(targets[i], ok)];
      if !ok {
        assert !calls[i].ok;
        assert calls[..i] == calls[..|calls| - 1];
        return calls, true;
      }
    }
    return calls, false;
  }

  // ---------- overlapping actions ----------

  datatype Stage = Ready | Acting | Over

  /** What can be seen of the actions started at once: the action on target `k` begins, or ends with this result. */
  datatype Event = Began(k: nat) | Ended(k: nat, ok: bool)

  /** Where each of `n` actions stands after some events. */
  function Stages(n: nat, events: seq<Event>): (r: seq<Stage>)
    ensures |r| == n
  {
    if events == [] then seq(n, _ => Ready)
    else
      var e, before := events[|events| - 1], Stages(n, events[..|events| - 1]);
      if e.k >= n then before else before[e.k := if e.Began? then Acting else Over]
  }

  /** Each action begins once and ends once, after it began; between the two anything may happen to the others. */
  predicate IsSchedule(n: nat, events: seq<Event>) {
    forall i | 0 <= i < |events| ::
      && events[i].k < n
      && Stages(n, events[..i])[events[i].k] == if events[i].Began? then Ready else Acting
  }

  /** The calls of the action, in the order in which they ended. */
  function Calls(targets: seq<Container>, events: seq<Event>): seq<Call> {
    if events == [] then []
    else
      var e, before := events[|events| - 1], Calls(targets, events[..|events| - 1]);
      if e.Ended? && e.k < |targets| then before + [Call(targets[e.k], e.ok)] else before
  }

  lemma OneMoreEvent(targets: seq<Container>, events: seq<Event>, e: Event)
    requires var n := |targets|;
      IsSchedule(n, events) && e.k < n && Stages(n, events)[e.k] == if e.Began? then Ready else Acting
    ensures var n := |targets|;
      IsSchedule(n, events + [e]) && Stages(n, events + [e]) == Stages(n, events)[e.k := if e.Began? then Acting else Over]
    ensures Calls(targets, events + [e])
         == Calls(targets, events) + if e.Ended? then [Call(targets[e.k], e.ok)] else []
  {
    hide Stages, Calls;
    EventAdded(targets, events, e);
    var more := events + [e];
    assert more[..|events|] == events;
    forall i | 0 <= i < |more|
      ensures more[i].k < |targets| && Stages(|targets|, more[..i])[more[i].k] == if more[i].Began? then Ready else Acting
    {
      if i < |events| {
        assert more[..i] == events[..i];
      }
    }
  }

  lemma EventAdded(targets: seq<Container>, events: seq<Event>, e: Event)
    requires e.k < |targets|
    ensures var n := |targets|;
      Stages(n, events + [e]) == Stages(n, events)[e.k := if e.Began? then Acting else Over]
    ensures Calls(targets, events + [e])
         == Calls(targets, events) + if e.Ended? then [Call(targets[e.k], e.ok)] else []
  {
    assert (events + [e])[..|events|] == events;
  }

  lemma NothingHappened(targets: seq<Container>)
    ensures IsSchedule(|targets|, []) && Stages(|targets|, []) == seq(|targets|, _ => Ready) && Calls(targets, []) == []
  {
  }

  /** The actions that have not ended, each in one of the two lists, which hold no action twice. */
  predicate Listed(stages: seq<Stage>, ready: seq<nat>, acting: seq<nat>) {
    && (forall i | 0 <= i < |ready| :: ready[i] < |stages| && stages[ready[i]] == Ready)
    && (forall i | 0 <= i < |acting| :: acting[i] < |stages| && stages[acting[i]] == Acting)
    && (forall i, j | 0 <= i < j < |ready| :: ready[i] != ready[j])
    && (forall i, j | 0 <= i < j < |acting| :: acting[i] != acting[j])
    && (forall k | 0 <= k < |stages| && stages[k] == Ready :: k in ready)
    && (forall k | 0 <= k < |stages| && stages[k] == Acting :: k in acting)
  }

  function Remove<T>(s: seq<T>, i: nat): seq<T>
    requires i < |s|
  {
    s[..i] + s[i + 1..]
  }

  lemma Begins(stages: seq<Stage>, ready: seq<nat>, acting: seq<nat>, i: nat)
    requires Listed(stages, ready, acting) && i < |ready|
    ensures Listed(stages[ready[i] := Acting], Remove(ready, i), acting + [ready[i]])
  {
    assert ready == ready[..i] + [ready[i]] + ready[i + 1..];
  }

  lemma Ends(stages: seq<Stage>, ready: seq<nat>, acting: seq<nat>, i: nat)
    requires Listed(stages, ready, acting) && i < |acting|
    ensures Listed(stages[acting[i] := Over], ready, Remove(acting, i))
  {
    assert acting == acting[..i] + [acting[i]] + acting[i + 1..];
  }

  function At(targets: seq<Container>, ks: seq<nat>): seq<Container>
    requires forall i | 0 <= i < |ks| :: ks[i] < |targets|
  {
    seq(|ks|, i requires 0 <= i < |ks| => targets[ks[i]])
  }

  lemma AtRemoved(targets: seq<Container>, ks: seq<nat>, i: nat)
    requires i < |ks| && forall j | 0 <= j < |ks| :: ks[j] < |targets|
    ensures multiset(At(targets, ks)) == multiset(At(targets, Remove(ks, i))) + multiset{targets[ks[i]]}
  {
    var all := At(targets, ks);
    assert all == all[..i] + [all[i]] + all[i + 1..];
    assert At(targets, Remove(ks, i)) == all[..i] + all[i + 1..];
  }

  /** The actions that are not over, with those that are, make up the targets. */
  predicate Accounted(targets: seq<Container>, ready: seq<nat>, acting: seq<nat>, calls: seq<Call>) {
    && (forall i | 0 <= i < |ready| :: ready[i] < |targets|)
    && (forall i | 0 <= i < |acting| :: acting[i] < |targets|)
    && multiset(At(targets, ready)) + multiset(At(targets, acting)) + multiset(Called(calls)) == multiset(targets)
    && |ready| + |acting| + |calls| == |targets|
  }

  lemma AllReady(targets: seq<Container>, ready: seq<nat>)
    requires ready == seq(|targets|, i requires 0 <= i < |targets| => i)
    ensures Listed(seq(|targets|, _ => Ready), ready, []) && Accounted(targets, ready, [], [])
  {
    assert At(targets, ready) == targets;
    forall k | 0 <= k < |targets| ensures k in ready {
      assert ready[k] == k;
    }
  }

  lemma StillAccounted(targets: seq<Container>, ready: seq<nat>, acting: seq<nat>, calls: seq<Call>, i: nat)
    requires Accounted(targets, ready, acting, calls) && i < |ready|
    ensures Accounted(targets, Remove(ready, i), acting + [ready[i]], calls)
  {
    AtRemoved(targets, ready, i);
    assert At(targets, acting + [ready[i]]) == At(targets, acting) + [targets[ready[i]]];
  }

  lemma OneMoreCall(targets: seq<Container>, ready: seq<nat>, acting: seq<nat>, calls: seq<Call>, i: nat, ok: bool)
    requires Accounted(targets, ready, acting, calls) && i < |acting|
    ensures Accounted(targets, ready, Remove(acting, i), calls + [Call(targets[acting[i]], ok)])
    ensures AllOk(calls + [Call(targets[acting[i]], ok)]) <==> AllOk(calls) && ok
  {
    AtRemoved(targets, acting, i);
    var call := Call(targets[acting[i]], ok);
    assert Called(calls + [call]) == Called(calls) + [targets[acting[i]]];
    assert forall j | 0 <= j < |calls| :: (calls + [call])[j] == calls[j];
    assert (calls + [call])[|calls|].ok == ok;
  }

  /**
    All actions are started at once and overlap in any way; none is skipped for another's error, and the
    wait ends when all have ended.
   */
  method RunInParallel(targets: seq<Container>, acts: nat -> bool)
    returns (calls: seq<Call>, failed: bool, ghost events: seq<Event>)
    ensures IsSchedule(|targets|, events) && calls == Calls(targets, events)
    ensures forall k | 0 <= k < |targets| :: Stages(|targets|, events)[k] == Over
    ensures multiset(Called(calls)) == multiset(targets) && |calls| == |targets|
    ensures failed <==> !AllOk(calls)
  {
    hide IsSchedule, Stages, Calls, Listed, Accounted, Called, AllOk;
    calls, failed, events := [], false, [];
    NothingHappened(targets);
    var ready: seq<nat>, acting: seq<nat> := seq(|targets|, i requires 0 <= i < |targets| => i), [];
    AllReady(targets, ready);
    NoCallYet();
    while ready != [] || acting != []
      invariant IsSchedule(|targets|, events) && calls == Calls(targets, events)
      invariant Listed(Stages(|targets|, events), ready, acting) && Accounted(targets, ready, acting, calls)
      invariant failed <==> !AllOk(calls)
      decreases 2 * |ready| + |acting|
    {
      var begin: bool :| (begin ==> ready != []) && (!begin ==> acting != []);
      if begin {
        var i: nat :| i < |ready|;
        ListedAt(Stages(|targets|, events), ready, acting);
        OneMoreEvent(targets, events, Began(ready[i]));
        Begins(Stages(|targets|, events), ready, acting, i);
        StillAccounted(targets, ready, acting, calls, i);
        events := events + [Began(ready[i])];
        ready, acting := Remove(ready, i), acting + [ready[i]];
      } else {
        var i: nat :| i < |acting|;
        var ok := acts(acting[i]);
        ListedAt(Stages(|targets|, events), ready, acting);
        OneMoreEvent(targets, events, Ended(acting[i], ok));
        Ends(Stages(|targets|, events), ready, acting, i);
        OneMoreCall(targets, ready, acting, calls, i, ok);
        events := events + [Ended(acting[i], ok)];
        calls := calls + [Call(targets[acting[i]], ok)];
        acting := Remove(acting, i);
        failed := failed || !ok;
      }
    }
    AllOver(targets, events, calls);
  }

  lemma NoCallYet()
    ensures AllOk([])
  {
  }

  lemma ListedAt(stages: seq<Stage>, ready: seq<nat>, acting: seq<nat>)
    requires Listed(stages, ready, acting)
    ensures forall i | 0 <= i < |ready| :: ready[i] < |stages| && stages[ready[i]] == Ready
    ensures forall i | 0 <= i < |acting| :: acting[i] < |stages| && stages[acting[i]] == Acting
  {
  }

  lemma AllOver(targets: seq<Container>, events: seq<Event>, calls: seq<Call>)
    requires Listed(Stages(|targets|, events), [], []) && Accounted(targets, [], [], calls)
    ensures forall k | 0 <= k < |targets| :: Stages(|targets|, events)[k] == Over
    ensures multiset(Called(calls)) == multiset(targets) && |calls| == |targets|
  {
  }

  /** Listing, the optional random pick, and the dispatch. A failed listing is an error without any call. */
  method RunOnContainers(listed: Option<seq<Container>>, f: Filter, like: (string, string) -> bool, limit: int,
                         draw: nat -> nat, random: bool, parallel: bool, acts: nat -> bool)
    returns (calls: seq<Call>, failed: bool)
    ensures listed.None? ==> calls == [] && failed
    ensures listed.Some? ==> Dispatched(Kept(listed.value, f, like), limit, random, parallel, calls, failed)
  {
    hide Kept, Accepts, Stages, IsSchedule, Calls;
    var found := ListNContainersAll(listed, f, like, limit, draw);
    if found.None? {
      return [], true;
    }
    ghost var kept := Kept(listed.value, f, like);
    var containers := found.value;
    if |containers| == 0 {
      return [], false;
    }
    if random {
      var i := draw(0) % |containers|;
      OneOf(containers, i);
      containers := [containers[i]];
    }
    if !parallel {
      calls, failed := RunSerially(containers, acts);
      PrefixOf(containers, |calls|);
    } else {
      ghost var events;
      calls, failed, events := RunInParallel(containers, acts);
    }
  }

  /** How the calls of one dispatch relate to the containers that passed the filter. */
  predicate Dispatched(kept: seq<Container>, limit: int, random: bool, parallel: bool, calls: seq<Call>, failed: bool) {
    var n := if 0 < limit < |kept| then limit else |kept|;
    var wanted := if random && n > 0 then 1 else n;
    && multiset(Called(calls)) <= multiset(kept)
    && |calls| <= wanted
    && (parallel || !failed ==> |calls| == wanted)
    && (failed <==> !AllOk(calls))
    && (!parallel && failed ==> calls != [] && AllOk(calls[..|calls| - 1]))
  }

  lemma OneOf(cs: seq<Container>, i: nat)
    requires i < |cs|
    ensures multiset([cs[i]]) <= multiset(cs)
  {
    assert cs == cs[..i] + [cs[i]] + cs[i + 1..];
  }

  lemma PrefixOf(cs: seq<Container>, n: nat)
    requires n <= |cs|
    ensures multiset(cs[..n]) <= multiset(cs)
  {
    assert cs == cs[..n] + cs[n..];
  }
}
