/**
  What the words of a firewall rule ask for, read as iptables(8) and iptables-extensions(8) describe the
  options, and that every rule of a packet-loss run asks for exactly the loss that was requested.
 */
module RuleTexts {
  import opened Prelude
  import opened Firewall

  /** What a rule names; an option that is not given is `None`. `statistic` says that the match is loaded. */
  datatype Rule = Rule(
    iface: Option<string>,
    protocol: Option<string>,
    source: Option<string>,
    destination: Option<string>,
    sourcePort: Option<string>,
    destinationPort: Option<string>,
    statistic: bool,
    mode: Option<string>,
    probability: Option<string>,
    every: Option<string>,
    packet: Option<string>,
    target: Option<string>)

  const ANY_PACKET := Rule(None, None, None, None, None, None, false, None, None, None, None, None)

  /** One option with its value; an option given twice, or an option of a match that is not loaded, is not understood. */
  function TakeOption(r: Rule, option: string, value: string): Option<Rule> {
    if option == "-i" && r.iface.None? then Some(r.(iface := Some(value)))
    else if option == "-p" && r.protocol.None? then Some(r.(protocol := Some(value)))
    else if option == "-s" && r.source.None? then Some(r.(source := Some(value)))
    else if option == "-d" && r.destination.None? then Some(r.(destination := Some(value)))
    else if option == "--sport" && r.sourcePort.None? then Some(r.(sourcePort := Some(value)))
    else if option == "--dport" && r.destinationPort.None? then Some(r.(destinationPort := Some(value)))
    else if option == "-m" && value == "statistic" && !r.statistic then Some(r.(statistic := true))
    else if option == "--mode" && r.statistic && r.mode.None? then Some(r.(mode := Some(value)))
    else if option == "--probability" && r.mode == Some("random") && r.probability.None? then
      Some(r.(probability := Some(value)))
    else if option == "--every" && r.mode == Some("nth") && r.every.None? then Some(r.(every := Some(value)))
    else if option == "--packet" && r.mode == Some("nth") && r.packet.None? then Some(r.(packet := Some(value)))
    else if option == "-j" && r.target.None? then Some(r.(target := Some(value)))
    else None
  }

  /** Every option has one value. */
  function ReadOptions(words: Args, r: Rule): Option<Rule>
    decreases |words|
  {
    if words == [] then Some(r)
    else if |words| == 1 then None
    else match TakeOption(r, words[0], words[1])
         case Some(r') => ReadOptions(words[2..], r')
         case None => None
  }

  function ReadRule(words: Args): Option<Rule> {
    ReadOptions(words, ANY_PACKET)
  }

  lemma PairReads(option: string, value: string, rest: Args, r: Rule)
    requires TakeOption(r, option, value).Some?
    ensures ReadOptions([option, value] + rest, r) == ReadOptions(rest, TakeOption(r, option, value).value)
  {
    assert ([option, value] + rest)[2..] == rest;
  }

  // ---------- what a run asks for ----------

  /** The rule that drops what a loss asks to be dropped, before anything narrows it. */
  function Wanted(l: Loss): Rule {
    var r := ANY_PACKET.(iface := Some(l.iface), protocol := if l.protocol == "any" then None else Some(l.protocol),
                         statistic := true, target := Some("DROP"));
    match l.mode
    case Random(p) => r.(mode := Some("random"), probability := Some(p))
    case Nth(every, packet) => r.(mode := Some("nth"), every := Some(every), packet := Some(packet))
  }

  /** How many rules a request makes: one for each value listed, or a single one that nothing narrows. */
  function RuleCount(b: IPTablesRequest): nat {
    var n := |b.srcIPs| + |b.dstIPs| + |b.sports| + |b.dports|;
    if n == 0 then 1 else n
  }

  /** The `k`-th rule narrows by the `k`-th value listed: sources first, then destinations, then the ports. */
  function WantedAt(l: Loss, b: IPTablesRequest, k: nat): Rule {
    var w, s, d, p := Wanted(l), |b.srcIPs|, |b.dstIPs|, |b.sports|;
    if k < s then w.(source := Some(b.srcIPs[k]))
    else if k < s + d then w.(destination := Some(b.dstIPs[k - s]))
    else if k < s + d + p then w.(sourcePort := Some(b.sports[k - s - d]))
    else if k < s + d + p + |b.dports| then w.(destinationPort := Some(b.dports[k - s - d - p]))
    else w
  }

  /** The words before what narrows the rule. */
  lemma HeadReads(l: Loss, rest: Args)
    ensures ReadRule(RuleHead(l) + rest)
         == ReadOptions(rest, ANY_PACKET.(iface := Some(l.iface),
                                          protocol := if l.protocol == "any" then None else Some(l.protocol)))
  {
    if l.protocol == "any" {
      assert RuleHead(l) + rest == ["-i", l.iface] + rest;
    } else {
      assert RuleHead(l) + rest == ["-i", l.iface] + (["-p", l.protocol] + rest);
      PairReads("-p", l.protocol, rest, ANY_PACKET.(iface := Some(l.iface)));
    }
    PairReads("-i", l.iface, (RuleHead(l) + rest)[2..], ANY_PACKET);
    assert RuleHead(l) + rest == ["-i", l.iface] + (RuleHead(l) + rest)[2..];
    assert l.protocol != "any" ==> (RuleHead(l) + rest)[2..] == ["-p", l.protocol] + rest;
    assert l.protocol == "any" ==> (RuleHead(l) + rest)[2..] == rest;
  }

  /** The words after it. */
  lemma TailReads(l: Loss, r: Rule)
    requires !r.statistic && r.mode.None? && r.probability.None? && r.every.None? && r.packet.None? && r.target.None?
    ensures var w := Wanted(l);
      ReadOptions(RuleTail(l), r)
      == Some(r.(statistic := true, mode := w.mode, probability := w.probability, every := w.every, packet := w.packet,
                 target := w.target))
  {
    var loaded := r.(statistic := true);
    match l.mode
    case Random(p) =>
      var moded := loaded.(mode := Some("random"));
      assert RuleTail(l) == ["-m", "statistic"] + (["--mode", "random"] + (["--probability", p] + (["-j", "DROP"] + [])));
      PairReads("-m", "statistic", ["--mode", "random"] + (["--probability", p] + (["-j", "DROP"] + [])), r);
      PairReads("--mode", "random", ["--probability", p] + (["-j", "DROP"] + []), loaded);
      PairReads("--probability", p, ["-j", "DROP"] + [], moded);
      PairReads("-j", "DROP", [], moded.(probability := Some(p)));
    case Nth(every, packet) =>
      var moded := loaded.(mode := Some("nth"));
      NthReads(every, packet, moded);
      assert RuleTail(l)
          == ["-m", "statistic"] + (["--mode", "nth"] + ["--every", every, "--packet", packet, "-j", "DROP"]);
      PairReads("-m", "statistic", ["--mode", "nth"] + ["--every", every, "--packet", packet, "-j", "DROP"], r);
      PairReads("--mode", "nth", ["--every", every, "--packet", packet, "-j", "DROP"], loaded);
  }

  lemma NthReads(every: string, packet: string, r: Rule)
    requires r.mode == Some("nth") && r.every.None? && r.packet.None? && r.target.None?
    ensures ReadOptions(["--every", every, "--packet", packet, "-j", "DROP"], r)
         == Some(r.(every := Some(every), packet := Some(packet), target := Some("DROP")))
  {
    assert ["--every", every, "--packet", packet, "-j", "DROP"]
        == ["--every", every] + (["--packet", packet] + (["-j", "DROP"] + []));
    PairReads("--every", every, ["--packet", packet] + (["-j", "DROP"] + []), r);
    PairReads("--packet", packet, ["-j", "DROP"] + [], r.(every := Some(every)));
    PairReads("-j", "DROP", [], r.(every := Some(every), packet := Some(packet)));
  }

  /** What narrows the `k`-th rule. */
  lemma SelectorReads(l: Loss, b: IPTablesRequest, k: nat, rest: Args, r: Rule)
    requires k < |Selectors(b)|
    requires r.source.None? && r.destination.None? && r.sourcePort.None? && r.destinationPort.None?
    ensures |Selectors(b)| == RuleCount(b)
    ensures var w := WantedAt(l, b, k);
      ReadOptions(Selectors(b)[k] + rest, r)
      == ReadOptions(rest, r.(source := w.source, destination := w.destination,
                              sourcePort := w.sourcePort, destinationPort := w.destinationPort))
  {
    if Listed(b) == [] {
      assert [] + rest == rest;
    } else {
      var sel := Listed(b)[k];
      PairReads(sel[0], sel[1], rest, r);
      assert sel == [sel[0], sel[1]];
    }
  }

  /** What is wanted of the `k`-th rule, field by field. */
  lemma FieldsWanted(l: Loss, base: IPTablesRequest, k: nat)
    ensures var rule, s, d, p := WantedAt(l, base, k), |base.srcIPs|, |base.dstIPs|, |base.sports|;
      && rule.iface == Some(l.iface) && rule.target == Some("DROP")
      && rule.protocol == (if l.protocol == "any" then None else Some(l.protocol))
      && rule.mode == Some(if l.mode.Random? then "random" else "nth")
      && rule.probability == (if l.mode.Random? then Some(l.mode.probability) else None)
      && rule.every == (if l.mode.Nth? then Some(l.mode.every) else None)
      && rule.packet == (if l.mode.Nth? then Some(l.mode.packet) else None)
      && rule.source == (if k < s then Some(base.srcIPs[k]) else None)
      && rule.destination == (if s <= k < s + d then Some(base.dstIPs[k - s]) else None)
      && rule.sourcePort == (if s + d <= k < s + d + p then Some(base.sports[k - s - d]) else None)
      && rule.destinationPort
      == (if s + d + p <= k < s + d + p + |base.dports| then Some(base.dports[k - s - d - p]) else None)
  {
  }

  /**
    Every line of a run's install and undo list, for every loss and every request: it inserts or deletes at
    the chain, and its rule asks for exactly the loss's interface, protocol and mode, with every value in its
    own place, for the one listed value under its own option, and for the packet to be dropped.
   */
  lemma LinesAskForLoss(l: Loss, base: IPTablesRequest, k: nat) returns (words: Args, rule: Rule)
    requires !base.dryRun && k < RuleCount(base)
    ensures |Issued(AddRequest(l, base))| == |Issued(DelRequest(l, base))| == RuleCount(base)
    ensures ReadIptables(Issued(AddRequest(l, base))[k]) == Some(Insert(words))
    ensures ReadIptables(Issued(DelRequest(l, base))[k]) == Some(Delete(words))
    ensures ReadRule(words) == Some(rule)
    ensures rule.iface == Some(l.iface) && rule.target == Some("DROP")
    ensures rule.protocol == if l.protocol == "any" then None else Some(l.protocol)
    ensures rule.mode == Some(if l.mode.Random? then "random" else "nth")
    ensures rule.probability == if l.mode.Random? then Some(l.mode.probability) else None
    ensures rule.every == if l.mode.Nth? then Some(l.mode.every) else None
    ensures rule.packet == if l.mode.Nth? then Some(l.mode.packet) else None
    ensures var s, d, p := |base.srcIPs|, |base.dstIPs|, |base.sports|;
      && rule.source == (if k < s then Some(base.srcIPs[k]) else None)
      && rule.destination == (if s <= k < s + d then Some(base.dstIPs[k - s]) else None)
      && rule.sourcePort == (if s + d <= k < s + d + p then Some(base.sports[k - s - d]) else None)
      && rule.destinationPort
      == (if s + d + p <= k < s + d + p + |base.dports| then Some(base.dports[k - s - d - p]) else None)
  {
    rule := WantedAt(l, base, k);
    FieldsWanted(l, base, k);
    words := WantedIsRead(l, base, k);
  }

  lemma WantedIsRead(l: Loss, base: IPTablesRequest, k: nat) returns (words: Args)
    requires !base.dryRun && k < RuleCount(base)
    ensures |Issued(AddRequest(l, base))| == |Issued(DelRequest(l, base))| == RuleCount(base)
    ensures ReadIptables(Issued(AddRequest(l, base))[k]) == Some(Insert(words))
    ensures ReadIptables(Issued(DelRequest(l, base))[k]) == Some(Delete(words))
    ensures ReadRule(words) == Some(WantedAt(l, base, k))
  {
    SelectorCount(base);
    CommandsPair(l, base, k);
    words := Rules(l, base)[k];
    var sel := Selectors(base)[k];
    assert words == RuleHead(l) + (sel + RuleTail(l));
    var headed := ANY_PACKET.(iface := Some(l.iface), protocol := if l.protocol == "any" then None else Some(l.protocol));
    var w := WantedAt(l, base, k);
    hide ReadOptions, RuleHead, RuleTail, Selectors;
    HeadReads(l, sel + RuleTail(l));
    SelectorReads(l, base, k, RuleTail(l), headed);
    TailReads(l, headed.(source := w.source, destination := w.destination,
                         sourcePort := w.sourcePort, destinationPort := w.destinationPort));
  }

  lemma SelectorCount(b: IPTablesRequest)
    ensures |Selectors(b)| == RuleCount(b)
  {
  }

  /** A dry run issues nothing, and no other run issues nothing. */
  lemma IssuesUnlessDry(r: IPTablesRequest)
    ensures Issued(r) == [] <==> r.dryRun
  {
  }
}
