/**
  The queueing disciplines of one network interface and the `tc` commands that change
  them, as tc(8) and tc-netem(8) describe them: `add` on an occupied slot fails, `del`
  of an absent or differently named qdisc fails, and a failing command changes nothing.
 */
module TrafficControl {
  import opened Prelude

  datatype Qdisc = Qdisc(handle: Option<string>, kind: string, params: Args)

  /** What a u32 filter compares: a destination network or a port, as the command line spells it. */
  datatype Match = Dst(net: string) | SrcPort(port: string) | DstPort(port: string)

  datatype Filter = Filter(prio: string, what: Match, flowid: string)

  /** The qdisc tree of an interface. `Bare` is the kernel's default, which `add root` replaces. */
  datatype Tree =
    | Bare
    | Rooted(root: Qdisc, classes: set<string>, children: map<string, Qdisc>, filters: seq<Filter>)

  /** One `tc` command after its words have been read. */
  datatype TcOp =
    | AddRoot(qdisc: Qdisc)
    | AddChild(parent: string, qdisc: Qdisc)
    | AddFilter(parent: string, filter: Filter)
    | DelRoot(handle: Option<string>, kind: Option<string>)
    | DelChild(parent: string, handle: Option<string>)

  // ---------- the effect of a command ----------

  /** A prio qdisc creates its three bands; no other kind used here creates classes. */
  function ClassesOf(q: Qdisc): set<string> {
    if q.kind == "prio" && q.handle.Some?
    then {q.handle.value + "1", q.handle.value + "2", q.handle.value + "3"}
    else {}
  }

  predicate HandleInUse(t: Tree, h: Option<string>)
    requires t.Rooted?
  {
    h.Some? && (t.root.handle == h || exists c <- t.children :: t.children[c].handle == h)
  }

  /** `given` is a check the command line makes only if it names a value. */
  predicate Agrees(given: Option<string>, actual: Option<string>) {
    given.None? || given == actual
  }

  /** The tree after `op`, or `None` when the kernel refuses it. */
  function Apply(t: Tree, op: TcOp): Option<Tree> {
    match op
    case AddRoot(q) =>
      if t.Rooted? then None else Some(Rooted(q, ClassesOf(q), map[], []))
    case AddChild(p, q) =>
      if t.Rooted? && p in t.classes && p !in t.children && !HandleInUse(t, q.handle)
      then Some(t.(children := t.children[p := q])) else None
    case AddFilter(p, f) =>
      if t.Rooted? && t.root.handle.Some? && p == t.root.handle.value + "0"
      then Some(t.(filters := t.filters + [f])) else None
    case DelRoot(h, k) =>
      if t.Rooted? && Agrees(h, t.root.handle) && Agrees(k, Some(t.root.kind))
      then Some(Bare) else None
    case DelChild(p, h) =>
      if t.Rooted? && p in t.children && Agrees(h, t.children[p].handle)
      then Some(t.(children := t.children - {p})) else None
  }

  /** No accepted operation leaves the tree as it was. */
  lemma AppliedShows(t: Tree, op: TcOp)
    ensures Apply(t, op) != Some(t)
  {
    match op
    case AddChild(p, q) =>
      if Apply(t, op).Some? {
        assert p in Apply(t, op).value.children;
      }
    case DelChild(p, h) =>
      if Apply(t, op).Some? {
        assert p !in Apply(t, op).value.children;
      }
    case AddFilter(p, f) =>
      if Apply(t, op).Some? {
        assert |Apply(t, op).value.filters| == |t.filters| + 1;
      }
    case _ =>
  }

  // ---------- reading a command line ----------

  datatype Options = Options(dev: Option<string>, root: bool, parent: Option<string>, handle: Option<string>,
                             prio: string, kind: Option<string>, params: Args)

  const NO_OPTIONS := Options(None, false, None, None, "", None, [])

  /** Keywords first, each with its value; the first other word is the kind, the rest its parameters. */
  function ReadOptions(ts: Args, filter: bool, o: Options): Options
    decreases |ts|
  {
    if ts == [] then o
    else if ts[0] == "root" then ReadOptions(ts[1..], filter, o.(root := true))
    else if |ts| >= 2 && ts[0] == "dev" then ReadOptions(ts[2..], filter, o.(dev := Some(ts[1])))
    else if |ts| >= 2 && ts[0] == "parent" then ReadOptions(ts[2..], filter, o.(parent := Some(ts[1])))
    else if |ts| >= 2 && ts[0] == "handle" then ReadOptions(ts[2..], filter, o.(handle := Some(ts[1])))
    else if |ts| >= 2 && filter && ts[0] == "protocol" then ReadOptions(ts[2..], filter, o)
    else if |ts| >= 2 && filter && ts[0] == "prio" then ReadOptions(ts[2..], filter, o.(prio := ts[1]))
    else o.(kind := Some(ts[0]), params := ts[1..])
  }

  /** The parameters of a u32 filter: one IP selector (ports carry a full mask) and the class it selects. */
  function ReadU32(ps: Args): Option<(Match, string)> {
    if |ps| == 6 && ps[..3] == ["match", "ip", "dst"] && ps[4] == "flowid" then Some((Dst(ps[3]), ps[5]))
    else if |ps| == 7 && ps[4] == "0xffff" && ps[5] == "flowid" then
      if ps[..3] == ["match", "ip", "sport"] then Some((SrcPort(ps[3]), ps[6]))
      else if ps[..3] == ["match", "ip", "dport"] then Some((DstPort(ps[3]), ps[6]))
      else None
    else None
  }

  /** The operation a set of options asks for. */
  function Request(entity: string, verb: string, o: Options): Option<TcOp> {
    if entity == "qdisc" && verb == "add" && o.kind.Some? && o.root then
      Some(AddRoot(Qdisc(o.handle, o.kind.value, o.params)))
    else if entity == "qdisc" && verb == "add" && o.kind.Some? && o.parent.Some? then
      Some(AddChild(o.parent.value, Qdisc(o.handle, o.kind.value, o.params)))
    else if entity == "qdisc" && verb == "del" && o.root then Some(DelRoot(o.handle, o.kind))
    else if entity == "qdisc" && verb == "del" && o.parent.Some? then Some(DelChild(o.parent.value, o.handle))
    else if entity == "filter" && verb == "add" && o.parent.Some? && o.kind == Some("u32") then
      match ReadU32(o.params)
      case Some((m, flow)) => Some(AddFilter(o.parent.value, Filter(o.prio, m, flow)))
      case None => None
    else None
  }

  /** The interface and operation a `tc` command line names, or `None` if it is not understood. */
  function ReadTc(args: Args): Option<(string, TcOp)> {
    if |args| < 2 then None
    else
      var o := ReadOptions(args[2..], args[0] == "filter", NO_OPTIONS);
      match Request(args[0], args[1], o)
      case Some(op) => if o.dev.Some? then Some((o.dev.value, op)) else None
      case None => None
  }

  // ---------- where a packet goes ----------

  datatype Packet = Packet(dst: nat, sport: nat, dport: nat)

  /** How the texts of networks and ports are understood; every theorem holds for any reading. */
  datatype Reading = Reading(within: (string, nat) -> bool, number: string -> nat)

  predicate Selects(m: Match, rd: Reading, p: Packet) {
    match m
    case Dst(net) => rd.within(net, p.dst)
    case SrcPort(port) => rd.number(port) == p.sport
    case DstPort(port) => rd.number(port) == p.dport
  }

  /** The class of the first filter that selects the packet; `None` leaves it to the qdisc's default. */
  function Classify(fs: seq<Filter>, rd: Reading, p: Packet): Option<string> {
    if fs == [] then None
    else if Selects(fs[0].what, rd, p) then Some(fs[0].flowid)
    else Classify(fs[1..], rd, p)
  }
}
