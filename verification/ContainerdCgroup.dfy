/**
  The containerd adapter's own reading of /proc/<pid>/cgroup: one pass that stops at the first
  v2 line, with the memory hierarchy as a fallback, and its agreement with podman's parser.
 */
module ContainerdCgroup {
  import opened Prelude
  import opened GoStrings
  import PodmanCgroup
  import PodmanLocation

  /** What the scan sees in one line. Lines whose path is the root are skipped like malformed ones. */
  datatype Entry = Skipped | V2(path: string) | Memory(path: string) | Other(path: string)

  function PathIf(e: Entry, v2: bool): string {
    if (if v2 then e.V2? else e.Memory?) then e.path else ""
  }

  function ReadEntry(line: string): Entry {
    var parts := SplitN(line, ':', 3);
    if |parts| != 3 || parts[2] == "/" then Skipped
    else if parts[0] == "0" && parts[1] == "" then V2(parts[2])
    else if Contains(parts[1], "memory") then Memory(parts[2])
    else Other(parts[2])
  }

  /** Unlike podman's parser, this one trims the contents as a whole and no line by itself. */
  function ReadEntries(contents: string): seq<Entry> {
    Map(ReadEntry, Split(TrimSpace(contents), '\n'))
  }

  /** The first path among `es` that is of this kind and not empty, or "". */
  function FirstPath(es: seq<Entry>, v2: bool): string {
    if es == [] then ""
    else if PathIf(es[0], v2) != "" then PathIf(es[0], v2)
    else FirstPath(es[1..], v2)
  }

  /** How many lines the scan reads before it stops at a v2 line, or all. */
  function StopsAt(es: seq<Entry>): (n: nat)
    ensures n <= |es| && (n < |es| ==> es[n].V2?) && forall j | 0 <= j < n :: !es[j].V2?
  {
    if es == [] then 0 else if es[0].V2? then 0 else 1 + StopsAt(es[1..])
  }

  /** What the scan finds, on any input: the path at which it stops, else the first memory path before. */
  function Scan(es: seq<Entry>): string {
    var n := StopsAt(es);
    if n < |es| && es[n].path != "" then es[n].path else FirstPath(es[..n], false)
  }

  /** The intended rule: the first v2 path that is not the root, else the first such memory path. */
  function Intended(es: seq<Entry>): string {
    if FirstPath(es, true) != "" then FirstPath(es, true) else FirstPath(es, false)
  }

  /** The code's loop with its early exit, the parent cut, and the error when nothing was found. */
  method ResolveCgroupPath(read: Option<string>) returns (r: Option<(string, string)>)
    ensures read.None? ==> r == None
    ensures read.Some? ==>
      var path := Scan(ReadEntries(read.value));
      r == if path == "" then None else Some((path, ParentOf(path)))
  {
    hide ReadEntry, TrimSpace, Split, FirstPath, StopsAt, Scan, Contains;
    if read.None? {
      return None;
    }
    var lines := Split(TrimSpace(read.value), '\n');
    ghost var es := ReadEntries(read.value);
    var cgroupPath, v1MemoryPath := "", "";
    NothingFound();
    for i := 0 to |lines|
      invariant cgroupPath == "" && v1MemoryPath == FirstPath(es[..i], false)
      invariant i <= StopsAt(es)
    {
      ghost var e := es[i];
      assert e == ReadEntry(lines[i]);
      FirstPathGrows(es, i);
      NotYet(es, i);
      ScanStops(es, i);
      LineOf(lines[i]);
      var parts := SplitN(lines[i], ':', 3);
      if |parts| != 3 || parts[2] == "/" {
        continue;
      }
      if parts[0] == "0" && parts[1] == "" {
        cgroupPath := parts[2];
        break;
      }
      if v1MemoryPath == "" && Contains(parts[1], "memory") {
        v1MemoryPath := parts[2];
      }
    }
    ScanStops(es, |es|);
    if cgroupPath == "" {
      cgroupPath := v1MemoryPath;
    }
    if cgroupPath == "" {
      return None;
    }
    var cgroupParent := "/";
    var lastSlash := LastIndex(cgroupPath, '/');
    if lastSlash > 0 {
      cgroupParent := cgroupPath[..lastSlash];
    }
    return Some((cgroupPath, cgroupParent));
  }

  function ParentOf(path: string): string {
    if LastIndex(path, '/') > 0 then path[..LastIndex(path, '/')] else "/"
  }

  lemma LineOf(line: string)
    ensures var parts := SplitN(line, ':', 3);
      ReadEntry(line) == if |parts| != 3 || parts[2] == "/" then Skipped
                         else if parts[0] == "0" && parts[1] == "" then V2(parts[2])
                         else if Contains(parts[1], "memory") then Memory(parts[2]) else Other(parts[2])
  {
  }

  lemma {:induction false} FirstPathAppend(a: seq<Entry>, b: seq<Entry>, v2: bool)
    ensures FirstPath(a + b, v2) == if FirstPath(a, v2) != "" then FirstPath(a, v2) else FirstPath(b, v2)
  {
    if a == [] {
      assert a + b == b;
    } else {
      assert (a + b)[1..] == a[1..] + b;
      FirstPathAppend(a[1..], b, v2);
    }
  }

  lemma NothingFound()
    ensures FirstPath([], false) == ""
  {
  }

  lemma FirstPathGrows(es: seq<Entry>, i: nat)
    requires i < |es|
    ensures FirstPath(es[..i + 1], false)
         == if FirstPath(es[..i], false) != "" then FirstPath(es[..i], false) else PathIf(es[i], false)
  {
    assert es[..i + 1] == es[..i] + [es[i]];
    FirstPathAppend(es[..i], [es[i]], false);
    assert [es[i]][1..] == [];
  }

  /** What the scan finds, by where it stops. */
  lemma ScanStops(es: seq<Entry>, i: nat)
    requires i <= |es|
    ensures StopsAt(es) == i ==>
      Scan(es) == if i < |es| && es[i].path != "" then es[i].path else FirstPath(es[..i], false)
  {
  }

  /** The scan stops exactly at line `i` if it has not stopped before and the line is a v2 line. */
  lemma NotYet(es: seq<Entry>, i: nat)
    requires i < |es| && i <= StopsAt(es)
    ensures StopsAt(es) == i <==> es[i].V2?
  {
  }

  lemma {:induction false} FirstPathBefore(es: seq<Entry>, n: nat)
    requires n <= |es| && forall j | 0 <= j < n :: !es[j].V2?
    ensures FirstPath(es, true) == FirstPath(es[n..], true)
  {
    if n > 0 {
      FirstPathBefore(es[1..], n - 1);
      assert es[1..][n - 1..] == es[n..];
    }
  }

  predicate Absolute(e: Entry) {
    e.Skipped? || (e.path != "" && e.path[0] == '/')
  }

  /** On contents whose paths are absolute, as the kernel writes them, the scan follows the intended rule. */
  lemma ScanIsIntended(es: seq<Entry>)
    requires forall e <- es :: Absolute(e)
    ensures Scan(es) == Intended(es)
  {
    var n := StopsAt(es);
    FirstPathBefore(es, n);
    if n < |es| {
      assert Absolute(es[n]);
    } else {
      assert es[n..] == [] && es[..n] == es;
    }
  }

  /**
    On any contents: if the scan stops at a v2 line without a path it ignores every line after that
    one, and otherwise it follows the rule.
   */
  lemma ScanOnAnyInput(es: seq<Entry>)
    ensures var n := StopsAt(es);
      if n < |es| && es[n].path == "" then Scan(es) == Intended(es[..n]) else Scan(es) == Intended(es)
  {
    var n := StopsAt(es);
    FirstPathBefore(es, n);
    if n < |es| && es[n].path == "" {
      FirstPathBefore(es[..n], n);
      assert es[..n][n..] == [];
    } else if n == |es| {
      assert es[n..] == [] && es[..n] == es;
    }
  }

  /** What lies behind the line at which the scan stops would not have changed the answer. */
  predicate HiddenIsIrrelevant(es: seq<Entry>, n: nat)
    requires n < |es|
  {
    var before, behind := FirstPath(es[..n], false), es[n + 1..];
    if FirstPath(behind, true) != "" then before == FirstPath(behind, true)
    else before != "" || FirstPath(behind, false) == ""
  }

  /**
    Exactly when the scan meets the rule: it reads to the end, stops at a v2 line with a path, or stops at
    one without a path behind which nothing matters.
   */
  lemma ScanMeetsRuleIff(es: seq<Entry>)
    ensures var n := StopsAt(es);
      Scan(es) == Intended(es) <==> n == |es| || es[n].path != "" || HiddenIsIrrelevant(es, n)
  {
    var n := StopsAt(es);
    ScanOnAnyInput(es);
    if n < |es| && es[n].path == "" {
      FirstPathBefore(es[..n], n);
      assert es[..n][n..] == [];
      FirstPathBefore(es, n);
      assert es == es[..n] + es[n..] && es[n..][1..] == es[n + 1..];
      FirstPathAppend(es[..n], es[n..], false);
    }
  }

  /** The departure is real: in these contents a v2 line without a path hides the memory line after it. */
  lemma PathlessV2HidesMemory()
    ensures var es := ReadEntries("0::\n5:memory:/a"); Scan(es) == "" && Intended(es) == "/a"
  {
    hide Scan, Intended, TrimSpace, ReadEntry, ReadEntries, Split;
    assert "0::" + ['\n'] + "5:memory:/a" == "0::\n5:memory:/a";
    TwoLinesRead("0::", "5:memory:/a");
    PathlessLineReads();
    MemoryLineReads();
    PathlessScan();
  }

  lemma TwoLinesRead(a: string, b: string)
    requires '\n' !in a && '\n' !in b && Trimmed(a + ['\n'] + b)
    ensures ReadEntries(a + ['\n'] + b) == [ReadEntry(a), ReadEntry(b)]
  {
    hide TrimSpace, ReadEntry, Split;
    TrimmedStays(a + ['\n'] + b);
    SplitAtSeparator(a, b, '\n');
    SplitAtSeparator(b, "", '\n');
  }

  lemma PathlessLineReads()
    ensures ReadEntry("0::") == V2("")
  {
    hide SplitN;
    ThreeFields("0", "", "", ':');
    assert "0" + [':'] + "" + [':'] + "" == "0::";
  }

  /**
    A line of three fields: a root path is skipped, the v2 line is hierarchy 0 without controllers, a memory
    line has `memory` somewhere among its controllers, and the path is all that follows the second colon;
    a line with fewer fields is skipped.
   */
  lemma EntryOfFields(hierarchy: string, controllers: string, path: string)
    requires ':' !in hierarchy && ':' !in controllers
    ensures ReadEntry(hierarchy + [':'] + controllers + [':'] + path)
         == if path == "/" then Skipped
            else if hierarchy == "0" && controllers == "" then V2(path)
            else if exists before, after :: Around(controllers, before, "memory", after) then Memory(path)
            else Other(path)
  {
    hide SplitN;
    ThreeFields(hierarchy, controllers, path, ':');
    ContainsIff(controllers, "memory");
  }

  lemma ShortEntry(line: string)
    requires |Split(line, ':')| < 3
    ensures ReadEntry(line) == Skipped
  {
    FewFields(line, ':');
  }

  lemma MemoryLineReads()
    ensures ReadEntry("5:memory:/a") == Memory("/a")
  {
    hide SplitN;
    ThreeFields("5", "memory", "/a", ':');
    assert "5" + [':'] + "memory" + [':'] + "/a" == "5:memory:/a";
    assert ContainsAt("memory", "memory", 0);
  }

  lemma PathlessScan()
    ensures Scan([V2(""), Memory("/a")]) == "" && Intended([V2(""), Memory("/a")]) == "/a"
  {
    var es := [V2(""), Memory("/a")];
    assert StopsAt(es) == 0 && es[..0] == [];
    assert es[1..] == [Memory("/a")];
    assert FirstPath([Memory("/a")], true) == FirstPath([Memory("/a")][1..], true) == "";
    assert FirstPath(es, false) == FirstPath(es[1..], false) == "/a";
    assert FirstPath(es, true) == FirstPath(es[1..], true);
  }

  /** The parent cut is the one podman makes, on every path. */
  lemma ParentsAgree(path: string)
    ensures ParentOf(path) == PodmanLocation.SplitParentLeaf(path).0
  {
  }

  /**
    Both parsers read the same path from the one line a v2 kernel writes for a process below the
    root, whatever the path, colons included, as long as it does not look like podman's own
    private view or end in a slash, which podman alone gives a meaning of their own.
   */
  lemma ParsersAgree(p: string)
    requires p != "" && p[0] == '/' && '\n' !in p && !IsSpace(p[|p| - 1]) && p[|p| - 1] != '/'
    requires p != "/container"
    ensures PodmanCgroup.RawPath("0::" + p + "\n") == Ok(p)
    ensures Scan(ReadEntries("0::" + p + "\n")) == p
  {
    PodmanSide(p);
    ContainerdSide(p);
    assert [V2(p)][..0] == [] && StopsAt([V2(p)]) == 0;
  }

  lemma ContainerdSide(p: string)
    requires p != "" && '\n' !in p && !IsSpace(p[|p| - 1]) && p[|p| - 1] != '/'
    ensures ReadEntries("0::" + p + "\n") == [V2(p)]
  {
    var s := "0::" + p;
    TrimTrailingNewline(s);
    EntryOfLine(p);
    assert '\n' !in s;
    SplitAtSeparator(s, "", '\n');
    hide TrimSpace, Split, ReadEntry;
    assert ReadEntries(s + "\n") == Map(ReadEntry, [s]);
  }

  lemma EntryOfLine(p: string)
    requires p != "" && p[|p| - 1] != '/'
    ensures ReadEntry("0::" + p) == V2(p)
  {
    PodmanCgroup.V2Fields(p);
    hide SplitN;
    assert p != "/";
  }

  lemma TrimTrailingNewline(s: string)
    requires s != "" && Trimmed(s)
    ensures TrimSpace(s + "\n") == s && TrimSpace(s) == s
  {
    var t := s + "\n";
    assert t[0] == s[0] && t[..|t| - 1] == s && t[|t| - 1] == '\n';
    assert IsSpace('\n');
    assert TrimLeft(t) == t && TrimLeft(s) == s;
    assert TrimRight(t) == TrimRight(s) == s;
  }

  lemma PodmanSide(p: string)
    requires p != "" && '\n' !in p && !IsSpace(p[|p| - 1]) && p[|p| - 1] != '/' && p != "/container"
    ensures PodmanCgroup.RawPath("0::" + p + "\n") == Ok(p)
  {
    TrimTrailingNewline("0::" + p);
    hide TrimSpace, IsSpace;
    PodmanCgroup.PrintedLineParses(p);
  }
}
