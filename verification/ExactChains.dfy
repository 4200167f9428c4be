/**
  The exact list of rules one packet-loss run has in front of the original chain: the rules it inserted,
  the last one first, less the first occurrence of each rule it deleted, one after the other.
 */
module ExactChains {
  import opened Prelude
  import opened Firewall
  import opened Accounts
  import opened Protocol
  import opened LoneRun

  /** Rules inserted one by one at the head. */
  function Stacked<T>(rules: seq<T>): (front: seq<T>)
    ensures |front| == |rules|
  {
    if rules == [] then [] else [rules[|rules| - 1]] + Stacked(rules[..|rules| - 1])
  }

  /** What is left when the given rules are deleted one by one, each at its first occurrence. */
  function Without<T(==)>(front: seq<T>, rules: seq<T>): seq<T> {
    if rules == [] then front
    else
      var rest := Without(front, rules[..|rules| - 1]);
      match RemoveFirst(rest, rules[|rules| - 1])
      case Some(less) => less
      case None => rest
  }

  /** The rules of a run, told by its two counters. */
  function Front(canon: Args -> Args, r: Run): seq<Args> {
    var rules := Spelled(canon, r.program.job);
    if r.undone <= r.done <= |rules| then Without(Stacked(rules[..r.done]), rules[..r.undone]) else []
  }

  lemma {:induction false} StackedRules<T>(rules: seq<T>)
    ensures multiset(Stacked(rules)) == multiset(rules)
  {
    if rules != [] {
      var n := |rules| - 1;
      StackedRules(rules[..n]);
      assert rules == rules[..n] + [rules[n]];
    }
  }

  lemma {:induction false} WithoutRules<T>(front: seq<T>, rules: seq<T>)
    requires multiset(rules) <= multiset(front)
    ensures multiset(Without(front, rules)) == multiset(front) - multiset(rules)
    ensures rules != [] ==> rules[|rules| - 1] in Without(front, rules[..|rules| - 1])
  {
    if rules != [] {
      var n := |rules| - 1;
      assert rules == rules[..n] + [rules[n]];
      WithoutRules(front, rules[..n]);
      var rest := Without(front, rules[..n]);
      assert rules[n] in multiset(rest);
      RemoveFirstInFront(rest, [], rules[n]);
    }
  }

  /** The exact list holds exactly the live rules. */
  lemma FrontIsLive(canon: Args -> Args, r: Run)
    ensures multiset(Front(canon, r)) == Live(canon, r)
  {
    hide Stacked, Without, Spelled;
    var rules := Spelled(canon, r.program.job);
    if r.undone <= r.done <= |rules| {
      var inserted, deleted := rules[..r.done], rules[..r.undone];
      StackedRules(inserted);
      assert inserted == deleted + rules[r.undone..r.done];
      WithoutRules(Stacked(inserted), deleted);
    }
  }

  /** While rules are deleted in the order of their insertion, each is found. */
  lemma NextWithout<T>(rules: seq<T>, k: nat, j: nat)
    requires j < k <= |rules|
    ensures var front := Without(Stacked(rules[..k]), rules[..j]);
      && rules[j] in front
      && RemoveFirst(front, rules[j]) == Some(Without(Stacked(rules[..k]), rules[..j + 1]))
  {
    hide Stacked, RemoveFirst;
    var deleted := rules[..j + 1];
    assert deleted[..j] == rules[..j];
    StackedRules(rules[..k]);
    assert rules[..k] == deleted + rules[j + 1..k];
    WithoutRules(Stacked(rules[..k]), deleted);
    RemoveFirstInFront(Without(Stacked(rules[..k]), rules[..j]), [], rules[j]);
  }

  // ---------- one command ----------

  /** The rule of the next command, by its place in the list. */
  lemma NextSpelled(canon: Args -> Args, r: Run) returns (rule: Args)
    requires r.program == ProgramOf(r.program.job, r.program.target)
    requires r.program.job.LossJob? && NextCommand(r).Some?
    ensures var rules := Spelled(canon, r.program.job);
      && |rules| == |r.program.install| == |r.program.undo|
      && canon(rule) == rules[if r.phase.Installing? then r.done else r.undone]
    ensures ReadIptables(NextCommand(r).value) == Some(if r.phase.Installing? then Insert(rule) else Delete(rule))
  {
    rule := CurrentRule(r);
  }

  lemma Inserted(canon: Args -> Args, r: Run, rule: Args)
    requires r.phase.Installing? && r.undone == 0 && r.done < |Spelled(canon, r.program.job)|
    requires canon(rule) == Spelled(canon, r.program.job)[r.done]
    ensures Front(canon, Counted(r)) == [canon(rule)] + Front(canon, r)
  {
    var rules := Spelled(canon, r.program.job);
    assert rules[..r.done + 1][..r.done] == rules[..r.done];
  }

  lemma Deleted(canon: Args -> Args, r: Run, rule: Args)
    requires r.phase.Undoing? && r.undone < r.done == |Spelled(canon, r.program.job)|
    requires canon(rule) == Spelled(canon, r.program.job)[r.undone]
    ensures canon(rule) in Front(canon, r)
    ensures RemoveFirst(Front(canon, r), canon(rule)) == Some(Front(canon, Counted(r)))
  {
    NextWithout(Spelled(canon, r.program.job), r.done, r.undone);
  }

  /** The chain of a lone packet-loss run is the exact list in front of the original. */
  predicate ExactChain(canon: Args -> Args, net0: Net, net: Net, r: Run) {
    net.chain == Front(canon, r) + net0.chain
  }

  lemma CommandKeepsExactChain(canon: Args -> Args, net0: Net, net: Net, r: Run)
    requires r.program == ProgramOf(r.program.job, r.program.target) && r.program.job.LossJob?
    requires NextCommand(r).Some?
    requires if r.phase.Installing? then r.undone == 0 else r.done == |r.program.install|
    requires ExactChain(canon, net0, net, r)
    ensures var out := Exec(canon, net, r.program.job, NextCommand(r).value);
      out.Some? && ExactChain(canon, net0, out.value, Counted(r))
  {
    hide Front, ProgramOf, Spelled, ReadIptables, Live, RemoveFirst;
    var rule := NextSpelled(canon, r);
    if r.phase.Installing? {
      Inserted(canon, r, rule);
      assert [canon(rule)] + (Front(canon, r) + net0.chain) == ([canon(rule)] + Front(canon, r)) + net0.chain;
    } else {
      Deleted(canon, r, rule);
      RemoveFirstInFront(Front(canon, r), net0.chain, canon(rule));
    }
  }

  /** A step of a lone run keeps its chain exact, whatever the fault. */
  lemma StepKeepsExactChain(canon: Args -> Args, net0: Net, s: Solo, fault: Fault)
    requires s.run.program == ProgramOf(s.run.program.job, s.run.program.target) && s.run.program.job.LossJob?
    requires if s.run.phase.Installing? then s.run.undone == 0 else s.run.phase.Undoing? ==> s.run.done == |s.run.program.install|
    requires ExactChain(canon, net0, s.net, s.run)
    ensures var t := SoloStep(Linux(canon), s, fault); ExactChain(canon, net0, t.net, t.run)
  {
    hide Exec, ProgramOf, Spelled, Stacked, Without;
    if NextCommand(s.run).Some? {
      CommandKeepsExactChain(canon, net0, s.net, s.run);
    }
  }

  // ---------- without duplicates ----------

  lemma {:induction false} StackedLast<T>(rules: seq<T>)
    requires rules != []
    ensures Stacked(rules) == Stacked(rules[1..]) + [rules[0]]
  {
    var n := |rules| - 1;
    if n > 0 {
      StackedLast(rules[..n]);
      assert rules[1..][..n - 1] == rules[..n][1..];
      assert [rules[n]] + (Stacked(rules[..n][1..]) + [rules[0]]) == ([rules[n]] + Stacked(rules[..n][1..])) + [rules[0]];
    } else {
      assert rules[..0] == [] == rules[1..];
    }
  }

  lemma {:induction false} RemoveLast<T>(front: seq<T>, x: T)
    requires x !in front
    ensures RemoveFirst(front + [x], x) == Some(front)
  {
    if front == [] {
      assert front + [x] == [x];
    } else {
      assert (front + [x])[1..] == front[1..] + [x];
      RemoveLast(front[1..], x);
      assert front == [front[0]] + front[1..];
    }
  }

  /** If no rule occurs twice, what an interrupted cleanup leaves is simply the rest, stacked. */
  lemma {:induction false} RestStacked<T>(rules: seq<T>, j: nat)
    requires j <= |rules| && forall k, l | 0 <= k < l < |rules| :: rules[k] != rules[l]
    ensures Without(Stacked(rules), rules[..j]) == Stacked(rules[j..])
  {
    if j == 0 {
      assert rules[0..] == rules && rules[..0] == [];
    } else {
      RestStacked(rules, j - 1);
      var rest := rules[j - 1..];
      assert rules[..j][..j - 1] == rules[..j - 1] && rest[1..] == rules[j..];
      StackedLast(rest);
      StackedRules(rules[j..]);
      assert rules[j - 1] !in multiset(rules[j..]);
      RemoveLast(Stacked(rules[j..]), rules[j - 1]);
    }
  }
}
