/**
  The lists of `tc` commands that install and undo one network emulation, what each
  command does at its turn, and what the finished installation does to a packet.
 */
module NetemPrograms {
  import opened Prelude
  import opened TrafficControl

  /** Which of the two independent implementations issues the commands; podman uses Docker's. */
  datatype Adapter = Docker | Containerd

  datatype NetemRequest = NetemRequest(iface: string, command: Args, ips: seq<string>, sports: seq<string>,
                                       dports: seq<string>, dryRun: bool)

  predicate HasFilters(r: NetemRequest) {
    |r.ips| > 0 || |r.sports| > 0 || |r.dports| > 0
  }

  // ---------- the command lines ----------

  function Dsts(ips: seq<string>): (ms: seq<Match>) { Map(ip => Dst(ip), ips) }
  function SrcPorts(ports: seq<string>): (ms: seq<Match>) { Map(port => SrcPort(port), ports) }
  function DstPorts(ports: seq<string>): (ms: seq<Match>) { Map(port => DstPort(port), ports) }

  /** What the request's filters select, in the order their commands are issued. */
  function Matches(r: NetemRequest): seq<Match> {
    Dsts(r.ips) + SrcPorts(r.sports) + DstPorts(r.dports)
  }

  lemma NoMatchYet(ips: seq<string>, sports: seq<string>, dports: seq<string>)
    ensures Dsts(ips[..0]) == SrcPorts(sports[..0]) == DstPorts(dports[..0]) == []
    ensures ips[..|ips|] == ips && sports[..|sports|] == sports && dports[..|dports|] == dports
  {
  }

  function SelectorArgs(m: Match): Args {
    match m
    case Dst(net) => ["dst", net]
    case SrcPort(port) => ["sport", port, "0xffff"]
    case DstPort(port) => ["dport", port, "0xffff"]
  }

  function FilterArgs(iface: string, m: Match): Args {
    ["filter", "add", "dev", iface, "protocol", "ip", "parent", "1:0", "prio", "1", "u32", "match", "ip"]
    + SelectorArgs(m) + ["flowid", "1:3"]
  }

  /** The line of a filter, spelled out for each kind. */
  lemma DstLine(iface: string, ip: string)
    ensures FilterArgs(iface, Dst(ip))
         == ["filter", "add", "dev", iface, "protocol", "ip", "parent", "1:0", "prio", "1",
             "u32", "match", "ip", "dst", ip, "flowid", "1:3"]
  {
  }

  lemma SrcPortLine(iface: string, port: string)
    ensures FilterArgs(iface, SrcPort(port))
         == ["filter", "add", "dev", iface, "protocol", "ip", "parent", "1:0", "prio", "1",
             "u32", "match", "ip", "sport", port, "0xffff", "flowid", "1:3"]
  {
  }

  lemma DstPortLine(iface: string, port: string)
    ensures FilterArgs(iface, DstPort(port))
         == ["filter", "add", "dev", iface, "protocol", "ip", "parent", "1:0", "prio", "1",
             "u32", "match", "ip", "dport", port, "0xffff", "flowid", "1:3"]
  {
  }

  function FilterCommands(iface: string, ms: seq<Match>): seq<Args> {
    Map(m => FilterArgs(iface, m), ms)
  }

  lemma NoFilterYet(iface: string)
    ensures FilterCommands(iface, []) == []
  {
  }

  /** The filter commands grow by one line for each further match. */
  lemma OneMoreFilter(iface: string, ms: seq<Match>, m: Match)
    ensures FilterCommands(iface, ms + [m]) == FilterCommands(iface, ms) + [FilterArgs(iface, m)]
  {
  }

  lemma OneMoreDst(iface: string, values: seq<string>, i: nat)
    requires i < |values|
    ensures FilterCommands(iface, Dsts(values[..i + 1]))
         == FilterCommands(iface, Dsts(values[..i])) + [FilterArgs(iface, Dst(values[i]))]
  {
    hide FilterCommands;
    assert Dsts(values[..i + 1]) == Dsts(values[..i]) + [Dst(values[i])];
    OneMoreFilter(iface, Dsts(values[..i]), Dst(values[i]));
  }

  lemma OneMoreSrcPort(iface: string, before: seq<Match>, values: seq<string>, i: nat)
    requires i < |values|
    ensures FilterCommands(iface, before + SrcPorts(values[..i + 1]))
         == FilterCommands(iface, before + SrcPorts(values[..i])) + [FilterArgs(iface, SrcPort(values[i]))]
  {
    hide FilterCommands;
    assert before + SrcPorts(values[..i + 1]) == before + SrcPorts(values[..i]) + [SrcPort(values[i])];
    OneMoreFilter(iface, before + SrcPorts(values[..i]), SrcPort(values[i]));
  }

  lemma OneMoreDstPort(iface: string, before: seq<Match>, values: seq<string>, i: nat)
    requires i < |values|
    ensures FilterCommands(iface, before + DstPorts(values[..i + 1]))
         == FilterCommands(iface, before + DstPorts(values[..i])) + [FilterArgs(iface, DstPort(values[i]))]
  {
    hide FilterCommands;
    assert before + DstPorts(values[..i + 1]) == before + DstPorts(values[..i]) + [DstPort(values[i])];
    OneMoreFilter(iface, before + DstPorts(values[..i]), DstPort(values[i]));
  }

  /** The qdiscs of a filtered installation: two plain bands and the emulation on the third. */
  function BandCommands(iface: string, command: Args): seq<Args> {
    [["qdisc", "add", "dev", iface, "root", "handle", "1:", "prio"],
     ["qdisc", "add", "dev", iface, "parent", "1:1", "handle", "10:", "sfq"],
     ["qdisc", "add", "dev", iface, "parent", "1:2", "handle", "20:", "sfq"],
     ["qdisc", "add", "dev", iface, "parent", "1:3", "handle", "30:", "netem"] + command]
  }

  /** Every command of an installation, before a dry run is considered. */
  function InstallCommands(r: NetemRequest): seq<Args> {
    if HasFilters(r) then BandCommands(r.iface, r.command) + FilterCommands(r.iface, Matches(r))
    else [["qdisc", "add", "dev", r.iface, "root", "netem"] + r.command]
  }

  function StopCommands(r: NetemRequest, a: Adapter): seq<Args> {
    if HasFilters(r) then
      [["qdisc", "del", "dev", r.iface, "parent", "1:1", "handle", "10:"],
       ["qdisc", "del", "dev", r.iface, "parent", "1:2", "handle", "20:"],
       ["qdisc", "del", "dev", r.iface, "parent", "1:3", "handle", "30:"],
       ["qdisc", "del", "dev", r.iface, "root", "handle", "1:", "prio"]]
    else if a.Docker? then [["qdisc", "del", "dev", r.iface, "root", "netem"]]
    else [["qdisc", "del", "dev", r.iface, "root"]]
  }

  /** What an adapter really issues: a dry run issues nothing. */
  function NetemIssued(r: NetemRequest): seq<Args> {
    if r.dryRun then [] else InstallCommands(r)
  }

  function StopIssued(r: NetemRequest, a: Adapter): seq<Args> {
    if r.dryRun then [] else StopCommands(r, a)
  }

  // ---------- the operations the command lines ask for ----------

  const PRIO := Qdisc(Some("1:"), "prio", [])
  const SFQ10 := Qdisc(Some("10:"), "sfq", [])
  const SFQ20 := Qdisc(Some("20:"), "sfq", [])

  function Netem30(r: NetemRequest): Qdisc { Qdisc(Some("30:"), "netem", r.command) }
  function RootNetem(r: NetemRequest): Qdisc { Qdisc(None, "netem", r.command) }

  function ToBand3(m: Match): Filter { Filter("1", m, "1:3") }
  function InstalledFilters(r: NetemRequest): seq<Filter> { Map(ToBand3, Matches(r)) }

  function InstallOps(r: NetemRequest): seq<TcOp> {
    if HasFilters(r) then
      [AddRoot(PRIO), AddChild("1:1", SFQ10), AddChild("1:2", SFQ20), AddChild("1:3", Netem30(r))]
      + Map(f => AddFilter("1:0", f), InstalledFilters(r))
    else [AddRoot(RootNetem(r))]
  }

  function StopOps(r: NetemRequest, a: Adapter): seq<TcOp> {
    if HasFilters(r) then
      [DelChild("1:1", Some("10:")), DelChild("1:2", Some("20:")), DelChild("1:3", Some("30:")),
       DelRoot(Some("1:"), Some("prio"))]
    else [DelRoot(None, if a.Docker? then Some("netem") else None)]
  }

  lemma QdiscCommandReads(verb: string, iface: string, rest: Args, o: Options, op: TcOp)
    requires o == ReadOptions(rest, false, NO_OPTIONS.(dev := Some(iface)))
    requires o.dev == Some(iface) && Request("qdisc", verb, o) == Some(op)
    ensures ReadTc(["qdisc", verb, "dev", iface] + rest) == Some((iface, op))
  {
    var args := ["qdisc", verb, "dev", iface] + rest;
    assert args[2..] == ["dev", iface] + rest && args[2..][2..] == rest;
    assert ReadOptions(args[2..], false, NO_OPTIONS) == o;
  }

  /** A keyword with its value is consumed; the rest is read with the value recorded. */
  lemma KeywordReads(word: string, value: string, rest: Args, filter: bool, o: Options)
    ensures var ts := [word, value] + rest;
      && (word == "dev" ==> ReadOptions(ts, filter, o) == ReadOptions(rest, filter, o.(dev := Some(value))))
      && (word == "parent" ==> ReadOptions(ts, filter, o) == ReadOptions(rest, filter, o.(parent := Some(value))))
      && (word == "handle" ==> ReadOptions(ts, filter, o) == ReadOptions(rest, filter, o.(handle := Some(value))))
      && (filter && word == "protocol" ==> ReadOptions(ts, filter, o) == ReadOptions(rest, filter, o))
      && (filter && word == "prio" ==> ReadOptions(ts, filter, o) == ReadOptions(rest, filter, o.(prio := value)))
  {
    assert ([word, value] + rest)[2..] == rest;
  }

  predicate IsTail(tail: Args) {
    tail == [] || tail[0] in {"netem", "prio", "sfq", "u32"}
  }

  /** A kind ends the options; everything after it is its parameters. */
  lemma KindReads(tail: Args, filter: bool, o: Options)
    requires IsTail(tail) && (tail == [] || tail[0] == "prio" ==> !filter)
    ensures ReadOptions(tail, filter, o)
         == if tail == [] then o else o.(kind := Some(tail[0]), params := tail[1..])
  {
  }

  /** `root [handle H] [KIND PARAMS]` after the interface. */
  lemma RootReads(h: Option<string>, tail: Args, o: Options)
    requires IsTail(tail)
    ensures var o' := o.(root := true, handle := if h.Some? then h else o.handle);
      ReadOptions(["root"] + (if h.Some? then ["handle", h.value] else []) + tail, false, o)
      == if tail == [] then o' else o'.(kind := Some(tail[0]), params := tail[1..])
  {
    var mid := if h.Some? then ["handle", h.value] else [];
    var ts := ["root"] + mid + tail;
    assert ts[1..] == mid + tail;
    if h.Some? {
      KeywordReads("handle", h.value, tail, false, o.(root := true));
      KindReads(tail, false, o.(root := true, handle := h));
    } else {
      assert mid + tail == tail;
      KindReads(tail, false, o.(root := true));
    }
  }

  /** `parent P handle H [KIND PARAMS]` after the interface. */
  lemma ParentReads(p: string, h: string, tail: Args, o: Options)
    requires IsTail(tail)
    ensures var o' := o.(parent := Some(p), handle := Some(h));
      ReadOptions(["parent", p, "handle", h] + tail, false, o)
      == if tail == [] then o' else o'.(kind := Some(tail[0]), params := tail[1..])
  {
    assert ["parent", p, "handle", h] + tail == ["parent", p] + (["handle", h] + tail);
    KeywordReads("parent", p, ["handle", h] + tail, false, o);
    KeywordReads("handle", h, tail, false, o.(parent := Some(p)));
    KindReads(tail, false, o.(parent := Some(p), handle := Some(h)));
  }

  lemma RootCommandReads(verb: string, iface: string, h: Option<string>, tail: Args, op: TcOp)
    requires IsTail(tail)
    requires (verb == "add" && tail != [] && op == AddRoot(Qdisc(h, tail[0], tail[1..])))
          || (verb == "del" && op == DelRoot(h, if tail == [] then None else Some(tail[0])))
    ensures ReadTc(["qdisc", verb, "dev", iface, "root"] + (if h.Some? then ["handle", h.value] else []) + tail)
         == Some((iface, op))
  {
    var rest := ["root"] + (if h.Some? then ["handle", h.value] else []) + tail;
    RootReads(h, tail, NO_OPTIONS.(dev := Some(iface)));
    QdiscCommandReads(verb, iface, rest, ReadOptions(rest, false, NO_OPTIONS.(dev := Some(iface))), op);
    assert ["qdisc", verb, "dev", iface] + rest
        == ["qdisc", verb, "dev", iface, "root"] + (if h.Some? then ["handle", h.value] else []) + tail;
  }

  lemma ChildCommandReads(verb: string, iface: string, p: string, h: string, tail: Args, op: TcOp)
    requires IsTail(tail)
    requires (verb == "add" && tail != [] && op == AddChild(p, Qdisc(Some(h), tail[0], tail[1..])))
          || (verb == "del" && tail == [] && op == DelChild(p, Some(h)))
    ensures ReadTc(["qdisc", verb, "dev", iface, "parent", p, "handle", h] + tail) == Some((iface, op))
  {
    var rest := ["parent", p, "handle", h] + tail;
    ParentReads(p, h, tail, NO_OPTIONS.(dev := Some(iface)));
    QdiscCommandReads(verb, iface, rest, ReadOptions(rest, false, NO_OPTIONS.(dev := Some(iface))), op);
    assert ["qdisc", verb, "dev", iface] + rest == ["qdisc", verb, "dev", iface, "parent", p, "handle", h] + tail;
  }

  lemma U32Reads(m: Match)
    ensures ReadU32(["match", "ip"] + SelectorArgs(m) + ["flowid", "1:3"]) == Some((m, "1:3"))
  {
    assert (["match", "ip"] + SelectorArgs(m) + ["flowid", "1:3"])[..3] == ["match", "ip", SelectorArgs(m)[0]];
  }

  lemma FilterCommandReads(iface: string, m: Match)
    ensures ReadTc(FilterArgs(iface, m)) == Some((iface, AddFilter("1:0", ToBand3(m))))
  {
    var u32 := ["match", "ip"] + SelectorArgs(m) + ["flowid", "1:3"];
    var t4 := ["u32"] + u32;
    var t3 := ["prio", "1"] + t4;
    var t2 := ["parent", "1:0"] + t3;
    var t1 := ["protocol", "ip"] + t2;
    var args := FilterArgs(iface, m);
    assert args == ["filter", "add", "dev", iface] + t1;
    assert args[2..] == ["dev", iface] + t1;
    var o := NO_OPTIONS.(dev := Some(iface));
    var o' := o.(parent := Some("1:0"), prio := "1", kind := Some("u32"), params := u32);
    assert ReadOptions(args[2..], true, NO_OPTIONS) == o' by {
      KeywordReads("dev", iface, t1, true, NO_OPTIONS);
      KeywordReads("protocol", "ip", t2, true, o);
      KeywordReads("parent", "1:0", t3, true, o);
      KeywordReads("prio", "1", t4, true, o.(parent := Some("1:0")));
      KindReads(t4, true, o.(parent := Some("1:0"), prio := "1"));
    }
    U32Reads(m);
  }

  lemma BandsRead(i: string, command: Args)
    ensures ReadTc(BandCommands(i, command)[0]) == Some((i, AddRoot(PRIO)))
    ensures ReadTc(BandCommands(i, command)[1]) == Some((i, AddChild("1:1", SFQ10)))
    ensures ReadTc(BandCommands(i, command)[2]) == Some((i, AddChild("1:2", SFQ20)))
  {
    var bands := BandCommands(i, command);
    RootCommandReads("add", i, Some("1:"), ["prio"], AddRoot(PRIO));
    assert ["qdisc", "add", "dev", i, "root"] + ["handle", "1:"] + ["prio"] == bands[0];
    ChildCommandReads("add", i, "1:1", "10:", ["sfq"], AddChild("1:1", SFQ10));
    assert ["qdisc", "add", "dev", i, "parent", "1:1", "handle", "10:"] + ["sfq"] == bands[1];
    ChildCommandReads("add", i, "1:2", "20:", ["sfq"], AddChild("1:2", SFQ20));
    assert ["qdisc", "add", "dev", i, "parent", "1:2", "handle", "20:"] + ["sfq"] == bands[2];
  }

  lemma EmulationReads(r: NetemRequest)
    ensures ReadTc(["qdisc", "add", "dev", r.iface, "root", "netem"] + r.command)
         == Some((r.iface, AddRoot(RootNetem(r))))
    ensures ReadTc(BandCommands(r.iface, r.command)[3]) == Some((r.iface, AddChild("1:3", Netem30(r))))
  {
    var i, tail := r.iface, ["netem"] + r.command;
    RootCommandReads("add", i, None, tail, AddRoot(RootNetem(r)));
    assert ["qdisc", "add", "dev", i, "root"] + [] + tail
        == ["qdisc", "add", "dev", i, "root", "netem"] + r.command;
    ChildCommandReads("add", i, "1:3", "30:", tail, AddChild("1:3", Netem30(r)));
    assert ["qdisc", "add", "dev", i, "parent", "1:3", "handle", "30:"] + tail == BandCommands(i, r.command)[3];
  }

  /** Every install command line is understood as the operation it was written for, on its own interface. */
  lemma InstallReads(r: NetemRequest, k: nat)
    requires k < |InstallCommands(r)|
    ensures |InstallOps(r)| == |InstallCommands(r)|
    ensures ReadTc(InstallCommands(r)[k]) == Some((r.iface, InstallOps(r)[k]))
  {
    EmulationReads(r);
    if HasFilters(r) {
      BandsRead(r.iface, r.command);
      assert k < 4 ==> InstallCommands(r)[k] == BandCommands(r.iface, r.command)[k];
      if k >= 4 {
        FilterCommandReads(r.iface, Matches(r)[k - 4]);
        assert InstallCommands(r)[k] == FilterArgs(r.iface, Matches(r)[k - 4]);
        assert InstallOps(r)[k] == AddFilter("1:0", InstalledFilters(r)[k - 4]);
      }
    }
  }

  lemma StopReads(r: NetemRequest, a: Adapter, k: nat)
    requires k < |StopCommands(r, a)|
    ensures |StopOps(r, a)| == |StopCommands(r, a)|
    ensures ReadTc(StopCommands(r, a)[k]) == Some((r.iface, StopOps(r, a)[k]))
  {
    var i := r.iface;
    if !HasFilters(r) {
      var tail := if a.Docker? then ["netem"] else [];
      RootCommandReads("del", i, None, tail, StopOps(r, a)[0]);
      assert ["qdisc", "del", "dev", i, "root"] + [] + tail == StopCommands(r, a)[0];
    } else if k == 3 {
      RootCommandReads("del", i, Some("1:"), ["prio"], StopOps(r, a)[3]);
      assert ["qdisc", "del", "dev", i, "root"] + ["handle", "1:"] + ["prio"] == StopCommands(r, a)[3];
    } else {
      var p := if k == 0 then "1:1" else if k == 1 then "1:2" else "1:3";
      var h := if k == 0 then "10:" else if k == 1 then "20:" else "30:";
      ChildCommandReads("del", i, p, h, [], StopOps(r, a)[k]);
      assert ["qdisc", "del", "dev", i, "parent", p, "handle", h] + [] == StopCommands(r, a)[k];
    }
  }

  // ---------- the tree at every turn ----------

  const BANDS := {"1:1", "1:2", "1:3"}

  /** The tree a run has built after its first `k` install commands, starting from a bare interface. */
  function TreeAt(r: NetemRequest, k: nat): Tree
    requires k <= |InstallOps(r)|
  {
    if k == 0 then Bare
    else if !HasFilters(r) then Rooted(RootNetem(r), {}, map[], [])
    else
      var all := map["1:1" := SFQ10, "1:2" := SFQ20, "1:3" := Netem30(r)];
      Rooted(PRIO, BANDS,
             if k == 1 then map[] else if k == 2 then map["1:1" := SFQ10]
             else if k == 3 then map["1:1" := SFQ10, "1:2" := SFQ20] else all,
             if k <= 4 then [] else InstalledFilters(r)[..k - 4])
  }

  /** What is left of the complete tree after the first `k` undo commands. */
  function UndoTreeAt(r: NetemRequest, a: Adapter, k: nat): Tree
    requires k <= |StopOps(r, a)|
  {
    if k == 0 then TreeAt(r, |InstallOps(r)|)
    else if !HasFilters(r) || k == 4 then Bare
    else Rooted(PRIO, BANDS,
                if k == 1 then map["1:2" := SFQ20, "1:3" := Netem30(r)]
                else if k == 2 then map["1:3" := Netem30(r)] else map[],
                InstalledFilters(r))
  }

  /** Each install command is legal at its turn and moves the tree one step on. */
  lemma InstallStep(r: NetemRequest, k: nat)
    requires k < |InstallOps(r)|
    ensures Apply(TreeAt(r, k), InstallOps(r)[k]) == Some(TreeAt(r, k + 1))
  {
    if HasFilters(r) {
      assert "1:" + "1" == "1:1" && "1:" + "2" == "1:2" && "1:" + "3" == "1:3" && "1:" + "0" == "1:0";
      if k >= 4 {
        var fs := InstalledFilters(r);
        assert fs[..k - 3] == fs[..k - 4] + [fs[k - 4]];
        assert InstallOps(r)[k] == AddFilter("1:0", fs[k - 4]);
      }
    }
  }

  /** Each undo command finds what it deletes, children before the root, and the last leaves the interface bare. */
  lemma StopStep(r: NetemRequest, a: Adapter, k: nat)
    requires k < |StopOps(r, a)|
    ensures Apply(UndoTreeAt(r, a, k), StopOps(r, a)[k]) == Some(UndoTreeAt(r, a, k + 1))
    ensures UndoTreeAt(r, a, |StopOps(r, a)|) == Bare
  {
    if HasFilters(r) {
      var t := UndoTreeAt(r, a, k);
      assert |InstallOps(r)| > 4;
      if k == 0 {
        assert InstalledFilters(r)[..|InstallOps(r)| - 4] == InstalledFilters(r);
        assert t.children - {"1:1"} == map["1:2" := SFQ20, "1:3" := Netem30(r)];
      } else if k == 1 {
        assert t.children - {"1:2"} == map["1:3" := Netem30(r)];
      } else if k == 2 {
        assert t.children - {"1:3"} == map[];
      }
    }
  }

  /** The root is taken from the first install command until the last undo command. */
  lemma RootedBetween(r: NetemRequest, a: Adapter, k: nat, j: nat)
    requires k <= |InstallOps(r)| && j < |StopOps(r, a)|
    ensures TreeAt(r, k).Rooted? <==> k > 0
    ensures UndoTreeAt(r, a, j).Rooted?
  {
  }

  /** On an interface that already has a root qdisc the first command is refused. */
  lemma FirstCommandLockedOut(r: NetemRequest, t: Tree)
    requires t.Rooted?
    ensures InstallOps(r) != [] && Apply(t, InstallOps(r)[0]) == None
  {
  }

  // ---------- what the installation does ----------

  lemma {:induction false} ClassifyExactly(ms: seq<Match>, rd: Reading, p: Packet)
    ensures Classify(Map(ToBand3, ms), rd, p)
         == if exists m <- ms :: Selects(m, rd, p) then Some("1:3") else None
  {
    if ms != [] {
      assert Map(ToBand3, ms)[1..] == Map(ToBand3, ms[1..]);
      ClassifyExactly(ms[1..], rd, p);
      assert ms == [ms[0]] + ms[1..];
    }
  }

  /** The filters are one per listed network and port, and no others. */
  lemma ListedMatches(r: NetemRequest)
    ensures forall m :: m in Matches(r) <==>
      match m case Dst(ip) => ip in r.ips case SrcPort(s) => s in r.sports case DstPort(d) => d in r.dports
  {
    var a, b, c := Dsts(r.ips), SrcPorts(r.sports), DstPorts(r.dports);
    forall m ensures m in a <==> m.Dst? && m.net in r.ips {
      if m.Dst? && m.net in r.ips { var i :| 0 <= i < |r.ips| && r.ips[i] == m.net; assert a[i] == m; }
    }
    forall m ensures m in b <==> m.SrcPort? && m.port in r.sports {
      if m.SrcPort? && m.port in r.sports { var i :| 0 <= i < |r.sports| && r.sports[i] == m.port; assert b[i] == m; }
    }
    forall m ensures m in c <==> m.DstPort? && m.port in r.dports {
      if m.DstPort? && m.port in r.dports { var i :| 0 <= i < |r.dports| && r.dports[i] == m.port; assert c[i] == m; }
    }
    assert Matches(r) == a + b + c;
  }

  predicate Listed(r: NetemRequest, rd: Reading, p: Packet) {
    || (exists ip <- r.ips :: rd.within(ip, p.dst))
    || (exists port <- r.sports :: rd.number(port) == p.sport)
    || (exists port <- r.dports :: rd.number(port) == p.dport)
  }

  lemma ListedIffSelected(r: NetemRequest, rd: Reading, p: Packet)
    ensures Listed(r, rd, p) <==> exists m <- Matches(r) :: Selects(m, rd, p)
  {
    ListedMatches(r);
    if ip :| ip in r.ips && rd.within(ip, p.dst) { assert Dst(ip) in Matches(r); }
    if s :| s in r.sports && rd.number(s) == p.sport { assert SrcPort(s) in Matches(r); }
    if d :| d in r.dports && rd.number(d) == p.dport { assert DstPort(d) in Matches(r); }
  }

  /**
    A request that lists any network or port ends in a tree whose third band holds the emulation. It
    sends a packet there exactly when its destination is in a listed network or one of its ports is
    listed; no filter touches any other packet.
   */
  lemma FiltersRouteExactly(r: NetemRequest, rd: Reading, p: Packet)
    requires r.ips != [] || r.sports != [] || r.dports != []
    ensures var t := TreeAt(r, |InstallOps(r)|);
      && t.Rooted? && t.root == Qdisc(Some("1:"), "prio", []) && t.classes == {"1:1", "1:2", "1:3"}
      && t.children == map["1:1" := Qdisc(Some("10:"), "sfq", []), "1:2" := Qdisc(Some("20:"), "sfq", []),
                           "1:3" := Qdisc(Some("30:"), "netem", r.command)]
      && Classify(t.filters, rd, p) == if Listed(r, rd, p) then Some("1:3") else None
  {
    var n := |InstallOps(r)|;
    assert n > 4 && InstalledFilters(r)[..n - 4] == InstalledFilters(r);
    ClassifyExactly(Matches(r), rd, p);
    ListedIffSelected(r, rd, p);
  }

  /** A request that lists none is one command, after which the root itself holds the emulation. */
  lemma UnfilteredAtRoot(r: NetemRequest)
    requires r.ips == r.sports == r.dports == []
    ensures |InstallCommands(r)| == |InstallOps(r)| == 1
    ensures TreeAt(r, 1) == Rooted(Qdisc(None, "netem", r.command), {}, map[], [])
  {
  }

  /** Commands are issued unless the run is dry, and then none at all. */
  lemma IssuesUnlessDry(r: NetemRequest, a: Adapter)
    ensures NetemIssued(r) == [] <==> r.dryRun
    ensures StopIssued(r, a) == [] <==> r.dryRun
  {
    assert InstallCommands(r) != [] && StopCommands(r, a) != [];
  }

  /**
    Docker names the kind when it undoes an unfiltered run and containerd does not. The two
    commands act alike on a tree exactly when it is bare or its root is a netem qdisc ...
   */
  lemma UnfilteredStopsAgreeIff(r: NetemRequest, t: Tree)
    requires r.ips == r.sports == r.dports == []
    ensures Apply(t, StopOps(r, Docker)[0]) == Apply(t, StopOps(r, Containerd)[0])
       <==> (t.Bare? || t.root.kind == "netem")
  {
  }

  /** ... which covers every tree the matching install can leave, complete or cut short. */
  lemma StopsAgreeAfterInstall(r: NetemRequest, k: nat, j: nat)
    requires k <= |InstallOps(r)| && j < |StopOps(r, Docker)|
    ensures |StopOps(r, Docker)| == |StopOps(r, Containerd)|
    ensures Apply(TreeAt(r, k), StopOps(r, Docker)[j]) == Apply(TreeAt(r, k), StopOps(r, Containerd)[j])
  {
    if !HasFilters(r) {
      UnfilteredStopsAgreeIff(r, TreeAt(r, k));
    }
  }
}
