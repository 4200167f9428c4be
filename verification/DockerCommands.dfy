/** The Docker adapter builds its command lists inline and independently of containerd's builders. */
module DockerCommands {
  import opened Prelude
  import opened NetemPrograms
  import Firewall

  method NetemContainer(r: NetemRequest) returns (sent: seq<Args>)
    ensures sent == NetemIssued(r)
  {
    if |r.ips| == 0 && |r.sports| == 0 && |r.dports| == 0 {
      sent := StartNetemContainer(r);
    } else {
      sent := StartNetemContainerIPFilter(r);
    }
  }

  method StartNetemContainer(r: NetemRequest) returns (sent: seq<Args>)
    requires !HasFilters(r)
    ensures sent == NetemIssued(r)
  {
    sent := [];
    if !r.dryRun {
      var netemCommand := ["qdisc", "add", "dev", r.iface, "root", "netem"] + r.command;
      sent := [netemCommand];
    }
  }

  method StartNetemContainerIPFilter(r: NetemRequest) returns (sent: seq<Args>)
    requires HasFilters(r)
    ensures sent == NetemIssued(r)
  {
    sent := [];
    if !r.dryRun {
      var commands := [
        ["qdisc", "add", "dev", r.iface, "root", "handle", "1:", "prio"],
        ["qdisc", "add", "dev", r.iface, "parent", "1:1", "handle", "10:", "sfq"],
        ["qdisc", "add", "dev", r.iface, "parent", "1:2", "handle", "20:", "sfq"],
        ["qdisc", "add", "dev", r.iface, "parent", "1:3", "handle", "30:", "netem"] + r.command];
      ghost var bands := BandCommands(r.iface, r.command);
      NoFilterYet(r.iface);
      NoMatchYet(r.ips, r.sports, r.dports);
      hide FilterCommands, FilterArgs, BandCommands, Dsts, SrcPorts, DstPorts;
      for i := 0 to |r.ips|
        invariant commands == bands + FilterCommands(r.iface, Dsts(r.ips[..i]))
      {
        OneMoreDst(r.iface, r.ips, i);
        DstLine(r.iface, r.ips[i]);
        commands := commands + [["filter", "add", "dev", r.iface, "protocol", "ip", "parent", "1:0", "prio", "1",
                                 "u32", "match", "ip", "dst", r.ips[i], "flowid", "1:3"]];
      }
      for i := 0 to |r.sports|
        invariant commands == bands + FilterCommands(r.iface, Dsts(r.ips) + SrcPorts(r.sports[..i]))
      {
        OneMoreSrcPort(r.iface, Dsts(r.ips), r.sports, i);
        SrcPortLine(r.iface, r.sports[i]);
        commands := commands + [["filter", "add", "dev", r.iface, "protocol", "ip", "parent", "1:0", "prio", "1",
                                 "u32", "match", "ip", "sport", r.sports[i], "0xffff", "flowid", "1:3"]];
      }
      for i := 0 to |r.dports|
        invariant commands == bands + FilterCommands(r.iface, Dsts(r.ips) + SrcPorts(r.sports) + DstPorts(r.dports[..i]))
      {
        OneMoreDstPort(r.iface, Dsts(r.ips) + SrcPorts(r.sports), r.dports, i);
        DstPortLine(r.iface, r.dports[i]);
        commands := commands + [["filter", "add", "dev", r.iface, "protocol", "ip", "parent", "1:0", "prio", "1",
                                 "u32", "match", "ip", "dport", r.dports[i], "0xffff", "flowid", "1:3"]];
      }
      sent := commands;
    }
  }

  method StopNetemContainer(r: NetemRequest) returns (sent: seq<Args>)
    ensures sent == StopIssued(r, Docker)
  {
    sent := [];
    if !r.dryRun {
      if |r.ips| != 0 || |r.sports| != 0 || |r.dports| != 0 {
        sent := [
          ["qdisc", "del", "dev", r.iface, "parent", "1:1", "handle", "10:"],
          ["qdisc", "del", "dev", r.iface, "parent", "1:2", "handle", "20:"],
          ["qdisc", "del", "dev", r.iface, "parent", "1:3", "handle", "30:"],
          ["qdisc", "del", "dev", r.iface, "root", "handle", "1:", "prio"]];
      } else {
        sent := [["qdisc", "del", "dev", r.iface, "root", "netem"]];
      }
    }
  }

  /** Install and undo are the same call on requests with different prefixes. */
  method IPTablesContainer(r: Firewall.IPTablesRequest) returns (sent: seq<Args>)
    ensures sent == Firewall.Issued(r)
  {
    if |r.srcIPs| == 0 && |r.dstIPs| == 0 && |r.sports| == 0 && |r.dports| == 0 {
      sent := [];
      if !r.dryRun {
        var command := r.prefix + r.suffix;
        assert command == r.prefix + [] + r.suffix;
        sent := [command];
      }
    } else {
      sent := IPTablesContainerWithIPFilter(r);
    }
  }

  method IPTablesContainerWithIPFilter(r: Firewall.IPTablesRequest) returns (sent: seq<Args>)
    requires Firewall.Listed(r) != []
    ensures sent == Firewall.Issued(r)
  {
    sent := [];
    if !r.dryRun {
      ghost var before: seq<Args> := [];
      assert Firewall.Listed(r) == before + Firewall.Narrowed("-s", r.srcIPs) + Firewall.Narrowed("-d", r.dstIPs)
        + Firewall.Narrowed("--sport", r.sports) + Firewall.Narrowed("--dport", r.dports);
      hide Firewall.Lines, Firewall.Narrowed, Firewall.Listed;
      Firewall.NoLineYet(r.prefix, r.suffix, before, "-s", r.srcIPs);
      for i := 0 to |r.srcIPs|
        invariant sent == Firewall.Lines(r.prefix, r.suffix, before + Firewall.Narrowed("-s", r.srcIPs[..i]))
      {
        Firewall.OneMoreLine(r.prefix, r.suffix, before, "-s", r.srcIPs, i);
        var cmd := r.prefix + ["-s", r.srcIPs[i]] + r.suffix;
        sent := sent + [cmd];
      }
      before := before + Firewall.Narrowed("-s", r.srcIPs);
      Firewall.NoLineYet(r.prefix, r.suffix, before, "-d", r.dstIPs);
      for i := 0 to |r.dstIPs|
        invariant sent == Firewall.Lines(r.prefix, r.suffix, before + Firewall.Narrowed("-d", r.dstIPs[..i]))
      {
        Firewall.OneMoreLine(r.prefix, r.suffix, before, "-d", r.dstIPs, i);
        var cmd := r.prefix + ["-d", r.dstIPs[i]] + r.suffix;
        sent := sent + [cmd];
      }
      before := before + Firewall.Narrowed("-d", r.dstIPs);
      Firewall.NoLineYet(r.prefix, r.suffix, before, "--sport", r.sports);
      for i := 0 to |r.sports|
        invariant sent == Firewall.Lines(r.prefix, r.suffix, before + Firewall.Narrowed("--sport", r.sports[..i]))
      {
        Firewall.OneMoreLine(r.prefix, r.suffix, before, "--sport", r.sports, i);
        var cmd := r.prefix + ["--sport", r.sports[i]] + r.suffix;
        sent := sent + [cmd];
      }
      before := before + Firewall.Narrowed("--sport", r.sports);
      Firewall.NoLineYet(r.prefix, r.suffix, before, "--dport", r.dports);
      for i := 0 to |r.dports|
        invariant sent == Firewall.Lines(r.prefix, r.suffix, before + Firewall.Narrowed("--dport", r.dports[..i]))
      {
        Firewall.OneMoreLine(r.prefix, r.suffix, before, "--dport", r.dports, i);
        var cmd := r.prefix + ["--dport", r.dports[i]] + r.suffix;
        sent := sent + [cmd];
      }
      before := before + Firewall.Narrowed("--dport", r.dports);
      assert before == Firewall.Listed(r);
      Firewall.LinesOf(r);
    }
  }
}
