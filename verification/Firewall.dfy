/**
  The INPUT chain of a network namespace, the `iptables` commands that change it, and the
  rules a packet-loss run installs and removes. As iptables(8) describes, `-I` without a
  position puts a rule at the head and `-D` removes the first rule equal to the one given.
 */
module Firewall {
  import opened Prelude

  datatype ChainOp = Insert(rule: Args) | Delete(rule: Args)

  /** The operation an `iptables` command line asks for. A rule starts with an option, not a position. */
  function ReadIptables(args: Args): Option<ChainOp> {
    if |args| > 2 && args[1] == "INPUT" && args[2] != "" && args[2][0] == '-' then
      if args[0] == "-I" then Some(Insert(args[2..]))
      else if args[0] == "-D" then Some(Delete(args[2..]))
      else None
    else None
  }

  function RemoveFirst<T(==)>(chain: seq<T>, x: T): (r: Option<seq<T>>)
    ensures r.Some? ==> |r.value| == |chain| - 1
  {
    if chain == [] then None
    else if chain[0] == x then Some(chain[1..])
    else match RemoveFirst(chain[1..], x)
         case Some(rest) => Some([chain[0]] + rest)
         case None => None
  }

  /**
    The chain after `op`, or `None` when the command fails. `canon` is how the kernel spells a
    rule: two texts are the same rule when it spells them alike. Nothing is assumed about it.
   */
  function ApplyRule(canon: Args -> Args, chain: seq<Args>, op: ChainOp): Option<seq<Args>> {
    match op
    case Insert(r) => Some([canon(r)] + chain)
    case Delete(r) => RemoveFirst(chain, canon(r))
  }

  /** The rule to delete lies in the front part, so only the front part changes, by one copy of the rule. */
  lemma {:induction false} RemoveFirstInFront<T>(front: seq<T>, back: seq<T>, x: T)
    requires x in front
    ensures RemoveFirst(front, x).Some?
    ensures RemoveFirst(front + back, x) == Some(RemoveFirst(front, x).value + back)
    ensures multiset(RemoveFirst(front, x).value) == multiset(front) - multiset{x}
  {
    assert front == [front[0]] + front[1..];
    assert (front + back)[1..] == front[1..] + back;
    if front[0] != x {
      RemoveFirstInFront(front[1..], back, x);
      var rest := RemoveFirst(front[1..], x).value;
      assert [front[0]] + (rest + back) == ([front[0]] + rest) + back;
    }
  }

  // ---------- requests and command lines ----------

  datatype IPTablesRequest = IPTablesRequest(prefix: Args, suffix: Args, srcIPs: seq<string>, dstIPs: seq<string>,
                                             sports: seq<string>, dports: seq<string>, dryRun: bool)

  function Narrowed(flag: string, values: seq<string>): seq<Args> {
    Map(value => [flag, value], values)
  }

  /** What narrows each rule, in the order the commands are issued. */
  function Listed(r: IPTablesRequest): seq<Args> {
    Narrowed("-s", r.srcIPs) + Narrowed("-d", r.dstIPs) + Narrowed("--sport", r.sports) + Narrowed("--dport", r.dports)
  }

  function Lines(head: Args, tail: Args, sels: seq<Args>): seq<Args> {
    Map(sel => head + sel + tail, sels)
  }

  /** The lines grow by one for each further value. */
  lemma OneMoreLine(head: Args, tail: Args, before: seq<Args>, flag: string, values: seq<string>, i: nat)
    requires i < |values|
    ensures Lines(head, tail, before + Narrowed(flag, values[..i + 1]))
         == Lines(head, tail, before + Narrowed(flag, values[..i])) + [head + [flag, values[i]] + tail]
  {
  }

  lemma NoLineYet(head: Args, tail: Args, before: seq<Args>, flag: string, values: seq<string>)
    ensures Lines(head, tail, []) == []
    ensures before + Narrowed(flag, values[..0]) == before
    ensures values[..|values|] == values
  {
  }

  /** Without filters there is one rule that nothing narrows. */
  function Selectors(r: IPTablesRequest): (s: seq<Args>)
    ensures s != []
  {
    if Listed(r) == [] then [[]] else Listed(r)
  }

  function Commands(r: IPTablesRequest): seq<Args> {
    Lines(r.prefix, r.suffix, Selectors(r))
  }

  /** An adapter that found nothing to narrow by has built no line yet. */
  lemma LinesOf(r: IPTablesRequest)
    ensures |Lines(r.prefix, r.suffix, Listed(r))| == |Listed(r)|
    ensures Commands(r) == if Listed(r) == [] then [r.prefix + [] + r.suffix] else Lines(r.prefix, r.suffix, Listed(r))
  {
  }

  /** What an adapter really issues, for the install and the undo request alike. */
  function Issued(r: IPTablesRequest): seq<Args> {
    if r.dryRun then [] else Commands(r)
  }

  // ---------- packet loss ----------

  /** The numbers are texts: how they are formatted is not modelled. */
  datatype LossMode = Random(probability: string) | Nth(every: string, packet: string)

  datatype Loss = Loss(iface: string, protocol: string, mode: LossMode)

  /** The part of every rule of a run that comes before what narrows it. */
  function RuleHead(l: Loss): Args {
    ["-i", l.iface] + if l.protocol == "any" then [] else ["-p", l.protocol]
  }

  function RuleTail(l: Loss): Args {
    ["-m", "statistic", "--mode"]
    + (match l.mode
       case Random(p) => ["random", "--probability", p]
       case Nth(e, k) => ["nth", "--every", e, "--packet", k])
    + ["-j", "DROP"]
  }

  /** The two requests of one run: they differ in the verb alone. */
  function AddRequest(l: Loss, base: IPTablesRequest): IPTablesRequest {
    base.(prefix := ["-I", "INPUT"] + RuleHead(l), suffix := RuleTail(l))
  }

  function DelRequest(l: Loss, base: IPTablesRequest): IPTablesRequest {
    base.(prefix := ["-D", "INPUT"] + RuleHead(l), suffix := RuleTail(l))
  }

  function Rules(l: Loss, base: IPTablesRequest): seq<Args> {
    Lines(RuleHead(l), RuleTail(l), Selectors(base))
  }

  /**
    Command by command, the install and the undo list name the same rule: one inserts it, the
    other deletes it.
   */
  lemma CommandsPair(l: Loss, base: IPTablesRequest, k: nat)
    requires k < |Rules(l, base)|
    ensures |Commands(AddRequest(l, base))| == |Commands(DelRequest(l, base))| == |Rules(l, base)|
    ensures ReadIptables(Commands(AddRequest(l, base))[k]) == Some(Insert(Rules(l, base)[k]))
    ensures ReadIptables(Commands(DelRequest(l, base))[k]) == Some(Delete(Rules(l, base)[k]))
  {
    assert Listed(AddRequest(l, base)) == Listed(DelRequest(l, base)) == Listed(base);
    var sel := Selectors(base)[k];
    VerbReads("-I", l, sel);
    VerbReads("-D", l, sel);
    assert Commands(AddRequest(l, base))[k] == ["-I", "INPUT"] + RuleHead(l) + sel + RuleTail(l);
    assert Commands(DelRequest(l, base))[k] == ["-D", "INPUT"] + RuleHead(l) + sel + RuleTail(l);
  }

  lemma VerbReads(verb: string, l: Loss, sel: Args)
    ensures var args := [verb, "INPUT"] + RuleHead(l) + sel + RuleTail(l);
      && args[2..] == RuleHead(l) + sel + RuleTail(l)
      && (verb == "-I" ==> ReadIptables(args) == Some(Insert(args[2..])))
      && (verb == "-D" ==> ReadIptables(args) == Some(Delete(args[2..])))
  {
    var args := [verb, "INPUT"] + RuleHead(l) + sel + RuleTail(l);
    assert args[2..] == RuleHead(l) + sel + RuleTail(l);
    assert args[2] == RuleHead(l)[0] == "-i";
  }
}
