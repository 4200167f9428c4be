/**
  Where a container's cgroup is, read from the text of /proc/<pid>/cgroup. Its lines are
  `hierarchy-ID:controller-list:cgroup-path` as in cgroups(7); the parser picks one line, cuts
  the path back to the container's own scope, and splits it into parent and leaf.
 */
module PodmanCgroup {
  import opened Prelude
  import opened GoStrings

  datatype Error = EmptyCgroup | Malformed | NoLine | PrivateView(path: string)

  // ---------- picking a line ----------

  /** What the parser sees in one line; the last two kinds carry a path but only `Systemd` and `V2` can be picked. */
  datatype Line = Unstructured | V2(path: string) | Systemd(path: string) | OtherController(path: string)

  function ReadLine(raw: string): Line {
    var parts := SplitN(TrimSpace(raw), ':', 3);
    if |parts| != 3 then Unstructured
    else if parts[0] == "0" && parts[1] == "" then V2(parts[2])
    else if "name=systemd" in Split(parts[1], ',') then Systemd(parts[2])
    else OtherController(parts[2])
  }

  function ReadLines(contents: string): seq<Line> {
    Map(ReadLine, Split(contents, '\n'))
  }

  /** The paths of the v2 lines that have one, in order; likewise for the systemd hierarchy. */
  function V2Paths(ls: seq<Line>): seq<string> {
    if ls == [] then []
    else (if ls[0].V2? && ls[0].path != "" then [ls[0].path] else []) + V2Paths(ls[1..])
  }

  function SystemdPaths(ls: seq<Line>): seq<string> {
    if ls == [] then []
    else (if ls[0].Systemd? && ls[0].path != "" then [ls[0].path] else []) + SystemdPaths(ls[1..])
  }

  /** No line has three fields. */
  predicate NoFields(ls: seq<Line>) {
    forall l <- ls :: l.Unstructured?
  }

  /** The rule: the first v2 line with a path, else the first systemd line with a path. */
  function Select(ls: seq<Line>): Result<string, Error> {
    if NoFields(ls) then Err(Malformed)
    else if V2Paths(ls) != [] then Ok(V2Paths(ls)[0])
    else if SystemdPaths(ls) != [] then Ok(SystemdPaths(ls)[0])
    else Err(NoLine)
  }

  predicate Pickable(l: Line) {
    (l.V2? || l.Systemd?) && l.path != ""
  }

  function FirstOf(paths: seq<string>): string {
    if paths == [] then "" else paths[0]
  }

  /** The three variables of the code's pass, told from the lines it has seen. */
  predicate Seen(ls: seq<Line>, v2Path: string, v1SystemdPath: string, sawStructuredLine: bool) {
    && v2Path == FirstOf(V2Paths(ls))
    && v1SystemdPath == FirstOf(SystemdPaths(ls))
    && (sawStructuredLine <==> exists l <- ls :: !l.Unstructured?)
  }

  /** One more line fills a candidate that is still empty, and no other. */
  lemma SeenStep(ls: seq<Line>, l: Line, v2: string, sys: string, saw: bool)
    requires Seen(ls, v2, sys, saw)
    ensures Seen(ls + [l], if l.V2? && v2 == "" then l.path else v2,
                 if l.Systemd? && sys == "" then l.path else sys, saw || !l.Unstructured?)
  {
    PathsAppend(ls, [l]);
    PathsNonEmpty(ls);
    assert V2Paths([l]) == if l.V2? && l.path != "" then [l.path] else [];
    assert SystemdPaths([l]) == if l.Systemd? && l.path != "" then [l.path] else [];
  }

  lemma SeenDecides(ls: seq<Line>, v2: string, sys: string, saw: bool)
    requires Seen(ls, v2, sys, saw)
    ensures Select(ls) == if !saw then Err(Malformed) else if v2 != "" then Ok(v2)
                          else if sys != "" then Ok(sys) else Err(NoLine)
  {
    PathsNonEmpty(ls);
  }

  lemma {:induction false} V2PathsAppend(a: seq<Line>, b: seq<Line>)
    ensures V2Paths(a + b) == V2Paths(a) + V2Paths(b)
  {
    if a == [] {
      assert a + b == b;
    } else {
      assert (a + b)[1..] == a[1..] + b;
      V2PathsAppend(a[1..], b);
    }
  }

  lemma {:induction false} SystemdPathsAppend(a: seq<Line>, b: seq<Line>)
    ensures SystemdPaths(a + b) == SystemdPaths(a) + SystemdPaths(b)
  {
    if a == [] {
      assert a + b == b;
    } else {
      assert (a + b)[1..] == a[1..] + b;
      SystemdPathsAppend(a[1..], b);
    }
  }

  lemma PathsAppend(a: seq<Line>, b: seq<Line>)
    ensures V2Paths(a + b) == V2Paths(a) + V2Paths(b)
    ensures SystemdPaths(a + b) == SystemdPaths(a) + SystemdPaths(b)
  {
    V2PathsAppend(a, b);
    SystemdPathsAppend(a, b);
  }

  lemma {:induction false} PathsNonEmpty(ls: seq<Line>)
    ensures "" !in V2Paths(ls) && "" !in SystemdPaths(ls)
  {
    if ls != [] {
      PathsNonEmpty(ls[1..]);
    }
  }

  method HasSubsystem(subsystems: string, name: string) returns (found: bool)
    ensures found <==> name in Split(subsystems, ',')
  {
    var entries := Split(subsystems, ',');
    for i := 0 to |entries|
      invariant name !in entries[..i]
    {
      if entries[i] == name {
        return true;
      }
    }
    return false;
  }

  /** The code's single pass over the lines, with the two candidates it keeps. */
  method SelectCgroupPath(contents: string) returns (r: Result<string, Error>)
    ensures r == Select(ReadLines(contents))
  {
    hide Seen, Select, TrimSpace, SplitN, Split;
    var v2Path, v1SystemdPath, sawStructuredLine := "", "", false;
    var lines := Split(contents, '\n');
    ghost var ls := ReadLines(contents);
    SeenNothing();
    assert ls[..0] == [];
    for i := 0 to |lines|
      invariant Seen(ls[..i], v2Path, v1SystemdPath, sawStructuredLine)
    {
      SeenStep(ls[..i], ls[i], v2Path, v1SystemdPath, sawStructuredLine);
      assert ls[..i + 1] == ls[..i] + [ls[i]];
      assert ls[i] == ReadLine(lines[i]);
      var line := TrimSpace(lines[i]);
      if line == "" {
        BlankLine(lines[i]);
        continue;
      }
      var parts := SplitN(line, ':', 3);
      if |parts| != 3 {
        continue;
      }
      sawStructuredLine := true;
      if parts[0] == "0" && parts[1] == "" {
        if v2Path == "" {
          v2Path := parts[2];
        }
        continue;
      }
      var systemd := HasSubsystem(parts[1], "name=systemd");
      if v1SystemdPath == "" && systemd {
        v1SystemdPath := parts[2];
      }
    }
    assert ls[..|lines|] == ls;
    SeenDecides(ls, v2Path, v1SystemdPath, sawStructuredLine);
    if !sawStructuredLine {
      return Err(Malformed);
    }
    if v2Path != "" {
      return Ok(v2Path);
    }
    if v1SystemdPath != "" {
      return Ok(v1SystemdPath);
    }
    return Err(NoLine);
  }

  lemma SeenNothing()
    ensures Seen([], "", "", false)
  {
  }

  lemma BlankLine(raw: string)
    requires TrimSpace(raw) == ""
    ensures ReadLine(raw) == Unstructured
  {
    assert SplitN("", ':', 3) == [""];
  }

  /**
    The pass refines the rule by position: the picked line is a v2 line with a path that no earlier
    one precedes, or, if no v2 line has a path, a systemd line with a path that no earlier one precedes.
   */
  lemma SelectedIsFirst(ls: seq<Line>) returns (i: nat)
    requires Select(ls).Ok?
    ensures i < |ls| && Pickable(ls[i]) && ls[i].path == Select(ls).value
    ensures ls[i].V2? ==> forall j | 0 <= j < i && ls[j].V2? :: ls[j].path == ""
    ensures ls[i].Systemd? ==> forall j | 0 <= j < |ls| && ls[j].V2? :: ls[j].path == ""
    ensures ls[i].Systemd? ==> forall j | 0 <= j < i && ls[j].Systemd? :: ls[j].path == ""
  {
    if V2Paths(ls) != [] {
      i := FirstV2(ls);
    } else {
      NoV2(ls);
      i := FirstSystemd(ls);
    }
  }

  lemma {:induction false} FirstV2(ls: seq<Line>) returns (i: nat)
    requires V2Paths(ls) != []
    ensures i < |ls| && ls[i] == V2(V2Paths(ls)[0]) && ls[i].path != ""
    ensures forall j | 0 <= j < i && ls[j].V2? :: ls[j].path == ""
  {
    if ls[0].V2? && ls[0].path != "" {
      i := 0;
    } else {
      i := FirstV2(ls[1..]);
      i := i + 1;
      assert forall j | 0 < j < i :: ls[j] == ls[1..][j - 1];
    }
  }

  lemma {:induction false} FirstSystemd(ls: seq<Line>) returns (i: nat)
    requires SystemdPaths(ls) != []
    ensures i < |ls| && ls[i] == Systemd(SystemdPaths(ls)[0]) && ls[i].path != ""
    ensures forall j | 0 <= j < i && ls[j].Systemd? :: ls[j].path == ""
  {
    if ls[0].Systemd? && ls[0].path != "" {
      i := 0;
    } else {
      i := FirstSystemd(ls[1..]);
      i := i + 1;
      assert forall j | 0 < j < i :: ls[j] == ls[1..][j - 1];
    }
  }

  lemma {:induction false} NoV2(ls: seq<Line>)
    requires V2Paths(ls) == []
    ensures forall j | 0 <= j < |ls| && ls[j].V2? :: ls[j].path == ""
  {
    if ls != [] {
      NoV2(ls[1..]);
      assert forall j | 0 < j < |ls| :: ls[j] == ls[1..][j - 1];
    }
  }

  predicate HasThreeFields(raw: string) {
    |SplitN(TrimSpace(raw), ':', 3)| == 3
  }

  /** The malformed error means exactly that no line has three fields. */
  lemma MalformedIff(contents: string)
    ensures Select(ReadLines(contents)) == Err(Malformed)
       <==> forall raw <- Split(contents, '\n') :: !HasThreeFields(raw)
  {
    hide TrimSpace, SplitN, Split;
    var raws := Split(contents, '\n');
    var ls := ReadLines(contents);
    forall i | 0 <= i < |raws| ensures ls[i].Unstructured? <==> !HasThreeFields(raws[i]) {
      assert ls[i] == ReadLine(raws[i]);
    }
    if forall l <- ls :: l.Unstructured? {
      assert forall i | 0 <= i < |raws| :: ls[i] in ls;
    }
    if forall raw <- raws :: !HasThreeFields(raw) {
      assert forall i | 0 <= i < |raws| :: raws[i] in raws;
    }
  }

  /**
    Inserting a line that cannot be picked, anywhere, changes the answer in exactly one case: a line of
    three fields among lines none of which has three, which are then no longer malformed.
   */
  lemma InsertedLineIgnored(a: seq<Line>, x: Line, b: seq<Line>)
    requires !Pickable(x)
    ensures Select(a + [x] + b) == Select(a + b) <==> Select(a + b) != Err(Malformed) || x.Unstructured?
    ensures Select(a + b) == Err(Malformed) && !x.Unstructured? ==> Select(a + [x] + b) == Err(NoLine)
  {
    UnpickableLine(x);
    NoFieldsInserted(a, x, b);
    hide V2Paths, SystemdPaths, NoFields, Pickable;
    PathsAppend(a, [x]);
    PathsAppend(a + [x], b);
    PathsAppend(a, b);
    if NoFields(a + b) {
      AllUnstructured(a + b);
    }
  }

  /** Contents in which an inserted line, which cannot be picked, changes the answer. */
  lemma InsertedLineChangesAnswer()
    ensures RawPath("x") == Err(Malformed) && RawPath("x\n5:cpu:/a") == Err(NoLine)
  {
    hide TrimSpace, ReadLine, Select, ReadLines;
    TrimmedStays("x");
    OneLineReads("x");
    TrimmedStays("x\n5:cpu:/a");
    TwoLinesRead("x", "5:cpu:/a");
    assert "x" + ['\n'] + "5:cpu:/a" == "x\n5:cpu:/a";
    FieldlessLine("x");
    OtherLine();
    SelectFieldless();
  }

  lemma SelectFieldless()
    ensures Select([Unstructured]) == Err(Malformed)
    ensures Select([Unstructured, OtherController("/a")]) == Err(NoLine)
  {
    var two := [Unstructured, OtherController("/a")];
    assert two[1] in two && two == [Unstructured] + [OtherController("/a")];
    PathsAppend([Unstructured], [OtherController("/a")]);
    UnpickableLine(Unstructured);
    UnpickableLine(OtherController("/a"));
  }

  lemma FieldlessLine(s: string)
    requires ':' !in s && Trimmed(s)
    ensures ReadLine(s) == Unstructured
  {
    TrimmedStays(s);
  }

  /**
    A line of three fields, with spaces around it or not: it is the v2 line if the hierarchy is 0 and there
    are no controllers, a systemd line if one of the controllers is `name=systemd`, and the path is all that
    follows the second colon.
   */
  lemma LineOfFields(a: string, hierarchy: string, controllers: seq<string>, path: string, b: string)
    requires AllSpace(a) && AllSpace(b) && ':' !in hierarchy
    requires controllers != [] && forall i | 0 <= i < |controllers| :: ':' !in controllers[i] && ',' !in controllers[i]
    requires Trimmed(hierarchy + [':'] + Join(controllers, ',') + [':'] + path)
    ensures ReadLine(a + (hierarchy + [':'] + Join(controllers, ',') + [':'] + path) + b)
         == if hierarchy == "0" && controllers == [""] then V2(path)
            else if "name=systemd" in controllers then Systemd(path)
            else OtherController(path)
  {
    var line := hierarchy + [':'] + Join(controllers, ',') + [':'] + path;
    TrimSpaceIgnores(a, line, b);
    TrimmedStays(line);
    NoSeparatorJoined(controllers, ',', ':');
    ThreeFields(hierarchy, Join(controllers, ','), path, ':');
    SplitJoin(controllers, ',');
    EmptyJoinIff(controllers, ',');
  }

  lemma OtherLine()
    ensures ReadLine("5:cpu:/a") == OtherController("/a")
  {
    hide ReadLine;
    assert "" + ("5" + [':'] + Join(["cpu"], ',') + [':'] + "/a") + "" == "5:cpu:/a";
    LineOfFields("", "5", ["cpu"], "/a", "");
  }

  /** Printing a systemd line of hierarchy 1 and parsing it gives the path back. */
  lemma PrintedSystemdParses(p: string)
    requires p != "" && '\n' !in p && !IsSpace(p[|p| - 1])
    ensures Select(ReadLines(TrimSpace("1:name=systemd:" + p))) == Ok(p)
  {
    hide TrimSpace, ReadLine, ReadLines, Select, Join;
    var line := "1" + [':'] + Join(["name=systemd"], ',') + [':'] + p;
    SystemdText(p);
    assert line[0] == '1' && line[|line| - 1] == p[|p| - 1];
    TrimmedStays(line);
    OneLineReads(line);
    assert "" + line + "" == line;
    LineOfFields("", "1", ["name=systemd"], p, "");
    OneSystemdSelected(p);
  }

  lemma SystemdText(p: string)
    ensures "1" + [':'] + Join(["name=systemd"], ',') + [':'] + p == "1:name=systemd:" + p
    ensures '\n' !in p ==> '\n' !in "1:name=systemd:" + p
  {
    assert "1" + [':'] + "name=systemd" + [':'] == "1:name=systemd:";
  }

  lemma OneSystemdSelected(p: string)
    requires p != ""
    ensures Select([Systemd(p)]) == Ok(p)
  {
    var ls := [Systemd(p)];
    assert Systemd(p) in ls;
    assert V2Paths(ls) == V2Paths([]) && SystemdPaths(ls) == [p] + SystemdPaths([]);
  }

  lemma TwoLinesRead(a: string, b: string)
    requires '\n' !in a && '\n' !in b
    ensures ReadLines(a + ['\n'] + b) == [ReadLine(a), ReadLine(b)]
  {
    hide ReadLine;
    SplitAtSeparator(a, b, '\n');
    SplitAtSeparator(b, "", '\n');
  }

  lemma NoFieldsInserted(a: seq<Line>, x: Line, b: seq<Line>)
    ensures NoFields(a + [x] + b) <==> NoFields(a + b) && x.Unstructured?
  {
    assert forall l :: l in a + [x] + b <==> l in a + b || l == x;
  }

  lemma UnpickableLine(x: Line)
    requires !Pickable(x)
    ensures V2Paths([x]) == [] && SystemdPaths([x]) == []
  {
    assert [x][1..] == [];
  }

  /** Lines without fields hold no paths. */
  lemma {:induction false} AllUnstructured(ls: seq<Line>)
    requires NoFields(ls)
    ensures V2Paths(ls) == [] && SystemdPaths(ls) == []
  {
    if ls != [] {
      assert ls[0] in ls;
      AllUnstructured(ls[1..]);
    }
  }

  /** Exchanging two neighbouring lines matters only if both could be picked by the same rule. */
  lemma ExchangedLinesIgnored(a: seq<Line>, x: Line, y: Line, b: seq<Line>)
    requires !(Pickable(x) && Pickable(y) && (x.V2? <==> y.V2?))
    ensures Select(a + [x, y] + b) == Select(a + [y, x] + b)
  {
    PathsAppend(a, [x, y]);
    PathsAppend(a + [x, y], b);
    PathsAppend(a, [y, x]);
    PathsAppend(a + [y, x], b);
    assert V2Paths([x, y]) == V2Paths([y, x]) && SystemdPaths([x, y]) == SystemdPaths([y, x]) by {
      PathsAppend([x], [y]);
      PathsAppend([y], [x]);
      assert [x] + [y] == [x, y] && [y] + [x] == [y, x];
    }
    assert forall l :: l in a + [x, y] + b <==> l in a + [y, x] + b;
  }

  // ---------- the un-truncated path ----------

  function NormaliseCgroupPath(p: string): string {
    if p == "/" then p else TrimSlashes(p)
  }

  /** The path the process is in, or why it cannot be told. */
  function RawPath(contents: string): Result<string, Error> {
    var trimmed := TrimSpace(contents);
    if trimmed == "" then Err(EmptyCgroup)
    else match Select(ReadLines(trimmed))
         case Err(e) => Err(e)
         case Ok(p) =>
           var raw := NormaliseCgroupPath(p);
           if raw == "/" || raw == "/container" then Err(PrivateView(raw)) else Ok(raw)
  }

  method RawCgroupPath(contents: string) returns (r: Result<string, Error>)
    ensures r == RawPath(contents)
  {
    hide TrimSpace, Select, ReadLines, NormaliseCgroupPath;
    var trimmed := TrimSpace(contents);
    if trimmed == "" {
      return Err(EmptyCgroup);
    }
    var selected := SelectCgroupPath(trimmed);
    if selected.Err? {
      return Err(selected.error);
    }
    var rawPath := NormaliseCgroupPath(selected.value);
    if rawPath == "/" || rawPath == "/" + "container" {
      return Err(PrivateView(rawPath));
    }
    return Ok(rawPath);
  }

  /** Printing a v2 line and parsing it returns the path, colons included. */
  lemma PrintedLineParses(p: string)
    requires p != "" && '\n' !in p && !IsSpace(p[|p| - 1])
    ensures Select(ReadLines(TrimSpace("0::" + p))) == Ok(p)
  {
    hide TrimSpace, ReadLine, ReadLines, Select;
    var s := "0::" + p;
    assert s[|s| - 1] == p[|p| - 1];
    TrimmedStays(s);
    OneLineReads(s);
    V2LineReads(p);
    OneV2Selected(p);
  }

  lemma OneLineReads(s: string)
    requires '\n' !in s
    ensures ReadLines(s) == [ReadLine(s)]
  {
    hide ReadLine;
    SplitAtSeparator(s, "", '\n');
  }

  lemma OneV2Selected(p: string)
    requires p != ""
    ensures Select([V2(p)]) == Ok(p)
  {
    var ls := [V2(p)];
    assert V2(p) in ls;
    assert V2Paths(ls) == [p] + V2Paths([]);
  }

  /** Spaces and newlines around the contents do not matter, and contents of nothing else are the empty-file error. */
  lemma SurroundingSpaceIgnored(a: string, contents: string, b: string)
    requires AllSpace(a) && AllSpace(b)
    ensures RawPath(a + contents + b) == RawPath(contents)
    ensures RawPath(contents) == Err(EmptyCgroup) <==> AllSpace(contents)
  {
    TrimSpaceIgnores(a, contents, b);
    TrimSpaceEmptyIff(contents);
    hide TrimSpace, Select, ReadLines, NormaliseCgroupPath;
    NeverEmptyCgroup(ReadLines(TrimSpace(contents)));
  }

  lemma NeverEmptyCgroup(ls: seq<Line>)
    ensures Select(ls) != Err(EmptyCgroup)
  {
  }

  /** A printed path is accepted as it is, but for its trailing slashes, unless it is a private view. */
  lemma PrintedRawPath(p: string)
    requires p != "" && '\n' !in p && !IsSpace(p[|p| - 1])
    ensures var raw := NormaliseCgroupPath(p);
      RawPath("0::" + p) == if raw == "/" || raw == "/container" then Err(PrivateView(raw)) else Ok(raw)
  {
    hide TrimSpace, Select, ReadLines, NormaliseCgroupPath;
    var s := "0::" + p;
    assert s[0] == '0' && s[|s| - 1] == p[|p| - 1];
    TrimmedStays(s);
    PrintedLineParses(p);
  }

  /** Contents that are accepted although they name no cgroup. */
  lemma SlashesAccepted()
    ensures RawPath("0:://") == Ok("")
  {
    assert "0::" + "//" == "0:://";
    PrintedRawPath("//");
    OnlySlashes("//");
  }

  lemma V2Fields(p: string)
    ensures SplitN("0::" + p, ':', 3) == ["0", "", p]
  {
    ThreeFields("0", "", p, ':');
    assert "0::" + p == "0" + [':'] + "" + [':'] + p;
  }

  lemma V2LineReads(p: string)
    requires p != "" && !IsSpace(p[|p| - 1])
    ensures ReadLine("0::" + p) == V2(p)
  {
    TrimmedStays("0::" + p);
    V2Fields(p);
    hide TrimSpace, SplitN, IsSpace, Split;
  }

  /**
    Not every accepted path names a cgroup: a path of two or more slashes and nothing else is
    accepted as the empty path, which the check for a private view does not catch.
   */
  lemma EmptyPathAcceptedIff(contents: string)
    ensures RawPath(contents) == Ok("")
       <==> var trimmed := TrimSpace(contents);
            trimmed != "" && Select(ReadLines(trimmed)).Ok?
            && var p := Select(ReadLines(trimmed)).value; |p| >= 2 && AllSlashes(p)
  {
    var trimmed := TrimSpace(contents);
    if trimmed != "" && Select(ReadLines(trimmed)).Ok? {
      var p := Select(ReadLines(trimmed)).value;
      PathsNonEmpty(ReadLines(trimmed));
      assert p != "";
      OnlySlashes(p);
    }
  }

  predicate AllSlashes(p: string) {
    forall i | 0 <= i < |p| :: p[i] == '/'
  }

  lemma {:induction false} OnlySlashes(p: string)
    ensures TrimSlashes(p) == "" <==> AllSlashes(p)
  {
    if p != "" && p[|p| - 1] == '/' {
      OnlySlashes(p[..|p| - 1]);
    }
  }
}
