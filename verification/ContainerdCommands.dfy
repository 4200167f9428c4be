/** The command builders of the containerd adapter, which grow a list in loops. */
module ContainerdCommands {
  import opened Prelude
  import opened NetemPrograms
  import Firewall

  /** The qdiscs with which a filtered installation begins. */
  method BuildBands(netInterface: string, netemCmd: Args) returns (commands: seq<Args>)
    ensures commands == BandCommands(netInterface, netemCmd)
  {
    var netemArgs := ["qdisc", "add", "dev", netInterface, "parent", "1:3", "handle", "30:", "netem"];
    netemArgs := netemArgs + netemCmd;
    commands := [
      ["qdisc", "add", "dev", netInterface, "root", "handle", "1:", "prio"],
      ["qdisc", "add", "dev", netInterface, "parent", "1:1", "handle", "10:", "sfq"],
      ["qdisc", "add", "dev", netInterface, "parent", "1:2", "handle", "20:", "sfq"],
      netemArgs];
  }

  method BuildNetemCommands(netInterface: string, netemCmd: Args, ips: seq<string>, sports: seq<string>,
                            dports: seq<string>)
    returns (commands: seq<Args>)
    ensures commands == InstallCommands(NetemRequest(netInterface, netemCmd, ips, sports, dports, false))
  {
    if |ips| == 0 && |sports| == 0 && |dports| == 0 {
      var args := ["qdisc", "add", "dev", netInterface, "root", "netem"];
      args := args + netemCmd;
      return [args];
    }
    commands := BuildBands(netInterface, netemCmd);
    ghost var bands := commands;
    NoFilterYet(netInterface);
    NoMatchYet(ips, sports, dports);
    hide FilterCommands, FilterArgs, BandCommands, Dsts, SrcPorts, DstPorts;
    for i := 0 to |ips|
      invariant commands == bands + FilterCommands(netInterface, Dsts(ips[..i]))
    {
      OneMoreDst(netInterface, ips, i);
      DstLine(netInterface, ips[i]);
      commands := commands + [["filter", "add", "dev", netInterface, "protocol", "ip", "parent", "1:0", "prio", "1",
                               "u32", "match", "ip", "dst", ips[i], "flowid", "1:3"]];
    }
    for i := 0 to |sports|
      invariant commands == bands + FilterCommands(netInterface, Dsts(ips) + SrcPorts(sports[..i]))
    {
      OneMoreSrcPort(netInterface, Dsts(ips), sports, i);
      SrcPortLine(netInterface, sports[i]);
      commands := commands + [["filter", "add", "dev", netInterface, "protocol", "ip", "parent", "1:0", "prio", "1",
                               "u32", "match", "ip", "sport", sports[i], "0xffff", "flowid", "1:3"]];
    }
    for i := 0 to |dports|
      invariant commands == bands + FilterCommands(netInterface, Dsts(ips) + SrcPorts(sports) + DstPorts(dports[..i]))
    {
      OneMoreDstPort(netInterface, Dsts(ips) + SrcPorts(sports), dports, i);
      DstPortLine(netInterface, dports[i]);
      commands := commands + [["filter", "add", "dev", netInterface, "protocol", "ip", "parent", "1:0", "prio", "1",
                               "u32", "match", "ip", "dport", dports[i], "0xffff", "flowid", "1:3"]];
    }
  }

  /** The branch the caller takes on the request's filters picks the matching undo list. */
  method BuildStopNetemCommands(r: NetemRequest) returns (commands: seq<Args>)
    ensures commands == StopCommands(r, Containerd)
  {
    var hasFilters := |r.ips| > 0 || |r.sports| > 0 || |r.dports| > 0;
    if !hasFilters {
      return [["qdisc", "del", "dev", r.iface, "root"]];
    }
    return [
      ["qdisc", "del", "dev", r.iface, "parent", "1:1", "handle", "10:"],
      ["qdisc", "del", "dev", r.iface, "parent", "1:2", "handle", "20:"],
      ["qdisc", "del", "dev", r.iface, "parent", "1:3", "handle", "30:"],
      ["qdisc", "del", "dev", r.iface, "root", "handle", "1:", "prio"]];
  }

  method BuildIPTablesCommands(cmdPrefix: Args, cmdSuffix: Args, srcIPs: seq<string>, dstIPs: seq<string>,
                               sports: seq<string>, dports: seq<string>)
    returns (commands: seq<Args>)
    ensures commands == Firewall.Commands(
      Firewall.IPTablesRequest(cmdPrefix, cmdSuffix, srcIPs, dstIPs, sports, dports, false))
  {
    commands := [];
    ghost var before: seq<Args> := [];
    hide Firewall.Lines, Firewall.Narrowed;
    Firewall.NoLineYet(cmdPrefix, cmdSuffix, before, "-s", srcIPs);
    for i := 0 to |srcIPs|
      invariant commands == Firewall.Lines(cmdPrefix, cmdSuffix, before + Firewall.Narrowed("-s", srcIPs[..i]))
    {
      Firewall.OneMoreLine(cmdPrefix, cmdSuffix, before, "-s", srcIPs, i);
      var cmd := cmdPrefix + ["-s", srcIPs[i]] + cmdSuffix;
      commands := commands + [cmd];
    }
    before := before + Firewall.Narrowed("-s", srcIPs);
    Firewall.NoLineYet(cmdPrefix, cmdSuffix, before, "-d", dstIPs);
    for i := 0 to |dstIPs|
      invariant commands == Firewall.Lines(cmdPrefix, cmdSuffix, before + Firewall.Narrowed("-d", dstIPs[..i]))
    {
      Firewall.OneMoreLine(cmdPrefix, cmdSuffix, before, "-d", dstIPs, i);
      var cmd := cmdPrefix + ["-d", dstIPs[i]] + cmdSuffix;
      commands := commands + [cmd];
    }
    before := before + Firewall.Narrowed("-d", dstIPs);
    Firewall.NoLineYet(cmdPrefix, cmdSuffix, before, "--sport", sports);
    for i := 0 to |sports|
      invariant commands == Firewall.Lines(cmdPrefix, cmdSuffix, before + Firewall.Narrowed("--sport", sports[..i]))
    {
      Firewall.OneMoreLine(cmdPrefix, cmdSuffix, before, "--sport", sports, i);
      var cmd := cmdPrefix + ["--sport", sports[i]] + cmdSuffix;
      commands := commands + [cmd];
    }
    before := before + Firewall.Narrowed("--sport", sports);
    Firewall.NoLineYet(cmdPrefix, cmdSuffix, before, "--dport", dports);
    for i := 0 to |dports|
      invariant commands == Firewall.Lines(cmdPrefix, cmdSuffix, before + Firewall.Narrowed("--dport", dports[..i]))
    {
      Firewall.OneMoreLine(cmdPrefix, cmdSuffix, before, "--dport", dports, i);
      var cmd := cmdPrefix + ["--dport", dports[i]] + cmdSuffix;
      commands := commands + [cmd];
    }
    before := before + Firewall.Narrowed("--dport", dports);
    ghost var r := Firewall.IPTablesRequest(cmdPrefix, cmdSuffix, srcIPs, dstIPs, sports, dports, false);
    assert before == Firewall.Listed(r);
    Firewall.LinesOf(r);
    if |commands| == 0 {
      var cmd := cmdPrefix + cmdSuffix;
      assert cmd == cmdPrefix + [] + cmdSuffix;
      commands := commands + [cmd];
    }
  }

  /** The commands one adapter call sends into the target; the stop call sends those of `StopNetemContainer`. */
  method NetemContainer(r: NetemRequest) returns (sent: seq<Args>)
    ensures sent == NetemIssued(r)
  {
    if r.dryRun {
      return [];
    }
    sent := BuildNetemCommands(r.iface, r.command, r.ips, r.sports, r.dports);
    assert Matches(NetemRequest(r.iface, r.command, r.ips, r.sports, r.dports, false)) == Matches(r);
  }

  method StopNetemContainer(r: NetemRequest) returns (sent: seq<Args>)
    ensures sent == StopIssued(r, Containerd)
  {
    if r.dryRun {
      return [];
    }
    sent := BuildStopNetemCommands(r);
  }

  /** Install and undo are the same call on requests with different prefixes. */
  method IPTablesContainer(r: Firewall.IPTablesRequest) returns (sent: seq<Args>)
    ensures sent == Firewall.Issued(r)
  {
    if r.dryRun {
      return [];
    }
    sent := BuildIPTablesCommands(r.prefix, r.suffix, r.srcIPs, r.dstIPs, r.sports, r.dports);
  }
}
