/**
  From the raw cgroup path to the container's own cgroup: truncation at the container's scope,
  the driver, parent and leaf, and where a stress sidecar is placed or writes its process id.
 */
module PodmanLocation {
  import opened Prelude
  import opened GoStrings
  import opened PodmanCgroup

  /** A segment that ends the search: `init.scope` is noise when scopes are searched for. */
  predicate Qualifies(seg: string, suffix: string, skipInitScope: bool) {
    seg != "" && !(skipInitScope && seg == "init.scope") && HasSuffix(seg, suffix)
  }

  /** `r` is the position of the rightmost qualifying segment, or -1. */
  predicate IsLastEndingIn(segs: seq<string>, suffix: string, skip: bool, r: int) {
    && -1 <= r < |segs|
    && (r >= 0 ==> Qualifies(segs[r], suffix, skip))
    && forall j | r < j < |segs| :: !Qualifies(segs[j], suffix, skip)
  }

  function LastEndingIn(segs: seq<string>, suffix: string, skip: bool): (r: int)
    ensures IsLastEndingIn(segs, suffix, skip, r)
  {
    if segs == [] then -1
    else if Qualifies(segs[|segs| - 1], suffix, skip) then |segs| - 1
    else LastEndingIn(segs[..|segs| - 1], suffix, skip)
  }

  /** The code's backward scan: the last segment with the suffix that is neither empty nor a skipped `init.scope`. */
  method LastIndexEndingIn(segments: seq<string>, suffix: string, skipInitScope: bool) returns (r: int)
    ensures IsLastEndingIn(segments, suffix, skipInitScope, r)
    ensures r >= 0 ==>
      segments[r] != "" && HasSuffix(segments[r], suffix) && (skipInitScope ==> segments[r] != "init.scope")
    ensures forall j | r < j < |segments| && segments[j] != "" && HasSuffix(segments[j], suffix) ::
      skipInitScope && segments[j] == "init.scope"
  {
    var i := |segments|;
    while i > 0
      invariant 0 <= i <= |segments|
      invariant forall j | i <= j < |segments| :: !Qualifies(segments[j], suffix, skipInitScope)
    {
      i := i - 1;
      var seg := segments[i];
      if seg == "" {
        continue;
      }
      if skipInitScope && seg == "init.scope" {
        continue;
      }
      if HasSuffix(seg, suffix) {
        return i;
      }
    }
    return -1;
  }

  /** How many segments are kept: up to the rightmost scope, else up to the rightmost slice, else all. */
  function Kept(segs: seq<string>): (n: nat)
    requires segs != []
    ensures 1 <= n <= |segs|
  {
    var scope, slice := LastEndingIn(segs, ".scope", true), LastEndingIn(segs, ".slice", false);
    if scope >= 0 then scope + 1 else if slice >= 0 then slice + 1 else |segs|
  }

  function Truncate(p: string): string {
    var segs := Split(p, '/');
    Join(segs[..Kept(segs)], '/')
  }

  method TruncateToContainerScope(p: string) returns (r: string)
    ensures r == Truncate(p)
  {
    var segments := Split(p, '/');
    var idx := LastIndexEndingIn(segments, ".scope", true);
    assert idx == LastEndingIn(segments, ".scope", true);
    if idx >= 0 {
      return Join(segments[..idx + 1], '/');
    }
    idx := LastIndexEndingIn(segments, ".slice", false);
    assert idx == LastEndingIn(segments, ".slice", false);
    if idx >= 0 {
      return Join(segments[..idx + 1], '/');
    }
    JoinSplit(p, '/');
    assert segments[..|segments|] == segments;
    return p;
  }

  // ---------- what truncation keeps ----------

  /** `a` is `p` or an ancestor of it: a prefix that ends where a segment ends. */
  predicate AncestorOrSelf(a: string, p: string) {
    p == a || (|a| < |p| && p[..|a|] == a && p[|a|] == '/')
  }

  /** The truncated path is made of the kept segments and is an ancestor of the raw path, or the raw path. */
  lemma TruncateKeeps(p: string)
    ensures Split(Truncate(p), '/') == Split(p, '/')[..Kept(Split(p, '/'))]
    ensures AncestorOrSelf(Truncate(p), p)
  {
    var segs := Split(p, '/');
    var n := Kept(segs);
    JoinSplit(p, '/');
    SplitJoin(segs[..n], '/');
    if n < |segs| {
      JoinPrefix(segs, n, '/');
    } else {
      assert segs[..n] == segs;
    }
  }

  /**
    Which segments are kept, for any segment `i` of the path. If it ends in ".scope" and is not
    "init.scope", it is kept and the last kept segment is such a scope too. If it ends in ".slice", either
    the last kept segment is such a scope, or `i` is kept and the last kept one is a slice too. And nothing
    is cut unless the last kept segment is one of the two.
   */
  lemma TruncateEndsInScope(p: string, i: nat)
    requires i < |Split(p, '/')|
    ensures var segs, n := Split(p, '/'), |Split(Truncate(p), '/')|;
      && 1 <= n <= |segs| && Split(Truncate(p), '/') == segs[..n]
      && (HasSuffix(segs[i], ".scope") && segs[i] != "init.scope" ==>
            i < n && HasSuffix(segs[n - 1], ".scope") && segs[n - 1] != "init.scope")
      && (HasSuffix(segs[i], ".slice") ==>
            || (HasSuffix(segs[n - 1], ".scope") && segs[n - 1] != "init.scope")
            || (i < n && HasSuffix(segs[n - 1], ".slice")))
      && (Truncate(p) == p || HasSuffix(segs[n - 1], ".slice")
          || (HasSuffix(segs[n - 1], ".scope") && segs[n - 1] != "init.scope"))
  {
    var segs, n := Split(p, '/'), Kept(Split(p, '/'));
    KeptPart(p);
    LastKept(segs, i);
    hide *;
    ScopeOrSlice(segs[i]);
    ScopeOrSlice(segs[n - 1]);
  }

  lemma KeptPart(p: string)
    ensures var segs, n := Split(p, '/'), Kept(Split(p, '/'));
      |Split(Truncate(p), '/')| == n && Split(Truncate(p), '/') == segs[..n] && (n == |segs| ==> Truncate(p) == p)
  {
    TruncateKeeps(p);
    if Kept(Split(p, '/')) == |Split(p, '/')| {
      WholePathKept(p);
    }
    hide Truncate, Split, Kept;
  }

  lemma ScopeOrSlice(seg: string)
    ensures Qualifies(seg, ".scope", true) <==> HasSuffix(seg, ".scope") && seg != "init.scope"
    ensures Qualifies(seg, ".slice", false) <==> HasSuffix(seg, ".slice")
  {
    NoSuffixOfNothing();
    hide HasSuffix;
  }

  /** The last kept segment, seen from any segment. */
  lemma LastKept(segs: seq<string>, i: nat)
    requires i < |segs|
    ensures var n := Kept(segs);
      && (Qualifies(segs[i], ".scope", true) ==> i < n && Qualifies(segs[n - 1], ".scope", true))
      && (Qualifies(segs[i], ".slice", false) ==>
            Qualifies(segs[n - 1], ".scope", true) || (i < n && Qualifies(segs[n - 1], ".slice", false)))
      && (n == |segs| || Qualifies(segs[n - 1], ".scope", true) || Qualifies(segs[n - 1], ".slice", false))
  {
    hide Qualifies, LastEndingIn;
    assert IsLastEndingIn(segs, ".scope", true, LastEndingIn(segs, ".scope", true));
    assert IsLastEndingIn(segs, ".slice", false, LastEndingIn(segs, ".slice", false));
  }

  lemma NoSuffixOfNothing()
    ensures !HasSuffix("", ".scope") && !HasSuffix("", ".slice")
  {
  }

  lemma WholePathKept(p: string)
    requires Kept(Split(p, '/')) == |Split(p, '/')|
    ensures Truncate(p) == p
  {
    JoinSplit(p, '/');
    assert Split(p, '/')[..|Split(p, '/')|] == Split(p, '/');
  }

  /**
    A container's scope hides whatever lies below it: one more segment that is no scope of its own, such as
    `init.scope` or `container`, is cut off again.
   */
  lemma BelowScopeIsCut(p: string, below: string)
    requires '/' !in below && !(HasSuffix(below, ".scope") && below != "init.scope")
    requires var segs := Split(p, '/'); HasSuffix(segs[|segs| - 1], ".scope") && segs[|segs| - 1] != "init.scope"
    ensures Truncate(p + "/" + below) == p
  {
    var segs, longer := Split(p, '/'), p + "/" + below;
    JoinSplit(p, '/');
    SplitJoin(segs + [below], '/');
    JoinPrefix(segs + [below], |segs|, '/');
    assert (segs + [below])[..|segs|] == segs && (segs + [below])[|segs|..] == [below];
    assert Join(segs + [below], '/') == longer;
    hide Join, Split, HasSuffix, LastEndingIn;
    assert IsLastEndingIn(segs + [below], ".scope", true, LastEndingIn(segs + [below], ".scope", true));
    assert (segs + [below])[|segs| - 1] == segs[|segs| - 1] && (segs + [below])[|segs|] == below;
    NoSuffixOfNothing();
    assert LastEndingIn(segs + [below], ".scope", true) == |segs| - 1;
  }

  /** An init process in the container's scope: the path is cut to the scope. */
  lemma InitScopeIsCut()
    ensures Truncate("/machine.slice/libpod-abc.scope/init.scope") == "/machine.slice/libpod-abc.scope"
  {
    var p := "/machine.slice/libpod-abc.scope";
    hide Truncate, Split, HasSuffix;
    ScopeSegments();
    ScopeSuffix();
    BelowScopeIsCut(p, "init.scope");
    InitScopeBelow();
  }

  lemma InitScopeBelow()
    ensures "/machine.slice/libpod-abc.scope" + "/" + "init.scope" == "/machine.slice/libpod-abc.scope/init.scope"
  {
  }

  lemma ScopeSuffix()
    ensures HasSuffix("libpod-abc.scope", ".scope")
  {
    assert "libpod-abc.scope"[10..] == ".scope";
  }

  lemma ScopeSegments()
    ensures Split("/machine.slice/libpod-abc.scope", '/') == ["", "machine.slice", "libpod-abc.scope"]
  {
    hide Split;
    assert "/machine.slice/libpod-abc.scope" == "" + ['/'] + ("machine.slice" + ['/'] + "libpod-abc.scope");
    SplitAtSeparator("", "machine.slice" + ['/'] + "libpod-abc.scope", '/');
    SplitAtSeparator("machine.slice", "libpod-abc.scope", '/');
    SplitAtSeparator("libpod-abc.scope", "", '/');
  }

  /** Truncating again changes nothing. */
  lemma TruncateIdempotent(p: string)
    ensures Truncate(Truncate(p)) == Truncate(p)
  {
    var segs := Split(p, '/');
    TruncateKeeps(p);
    KeptIdempotent(segs);
    var kept := segs[..Kept(segs)];
    assert kept[..Kept(kept)] == kept;
  }

  lemma KeptIdempotent(segs: seq<string>)
    requires segs != []
    ensures Kept(segs[..Kept(segs)]) == Kept(segs)
  {
    hide Qualifies;
    var n := Kept(segs);
    var scope, slice := LastEndingIn(segs, ".scope", true), LastEndingIn(segs, ".slice", false);
    var scope', slice' := LastEndingIn(segs[..n], ".scope", true), LastEndingIn(segs[..n], ".slice", false);
    if scope >= 0 {
      assert segs[..n][n - 1] == segs[scope];
      assert scope' == n - 1;
    } else if slice >= 0 {
      assert segs[..n][n - 1] == segs[slice];
      assert slice' == n - 1;
    } else {
      assert segs[..n] == segs;
    }
  }

  // ---------- driver, parent and leaf ----------

  function DriverForPath(p: string): string {
    if Contains(p, ".slice") || Contains(p, ".scope") then "systemd" else "cgroupfs"
  }

  function SplitParentLeaf(p: string): (string, string) {
    var i := LastIndex(p, '/');
    if i < 0 then ("/", p)
    else if i == 0 then ("/", p[1..])
    else (p[..i], p[i + 1..])
  }

  /** Putting a leaf under a parent. */
  function Rejoin(parent: string, leaf: string): string {
    if parent == "/" then "/" + leaf else parent + "/" + leaf
  }

  /** The driver is cgroupfs only if nothing was cut. */
  lemma DriverIff(p: string)
    ensures DriverForPath(p) == "systemd"
       <==> exists before, after :: Around(p, before, ".slice", after) || Around(p, before, ".scope", after)
    ensures DriverForPath(p) == "cgroupfs" || DriverForPath(p) == "systemd"
  {
    ContainsIff(p, ".slice");
    ContainsIff(p, ".scope");
  }

  lemma CgroupfsMeansUntruncated(p: string)
    requires DriverForPath(Truncate(p)) == "cgroupfs"
    ensures Truncate(p) == p
  {
    hide Truncate, Kept;
    TruncateEndsInScope(p, 0);
    var kept := Split(Truncate(p), '/');
    var last := kept[|kept| - 1];
    JoinSplit(Truncate(p), '/');
    LastSegmentAtEnd(kept);
    if Qualifies(last, ".scope", true) {
      SuffixContained(Truncate(p), ".scope");
    } else if Qualifies(last, ".slice", false) {
      SuffixContained(Truncate(p), ".slice");
    }
  }

  lemma SuffixContained(s: string, suffix: string)
    requires HasSuffix(s, suffix)
    ensures Contains(s, suffix)
  {
    assert ContainsAt(s, suffix, |s| - |suffix|);
  }

  lemma {:induction false} LastSegmentAtEnd(parts: seq<string>)
    requires parts != []
    ensures HasSuffix(Join(parts, '/'), parts[|parts| - 1])
    ensures forall suffix | HasSuffix(parts[|parts| - 1], suffix) :: HasSuffix(Join(parts, '/'), suffix)
  {
    if |parts| > 1 {
      LastSegmentAtEnd(parts[1..]);
      var tail := Join(parts[1..], '/');
      assert Join(parts, '/') == (parts[0] + ['/']) + tail;
    }
  }

  /** A leaf never contains a slash. */
  lemma LeafHasNoSlash(p: string)
    ensures '/' !in SplitParentLeaf(p).1
  {
  }

  /**
    Parent and leaf rejoin to the path exactly when the path has a slash and is not two slashes
    followed by a single segment: there the parent is "/" and one slash is lost.
   */
  lemma ParentLeafRejoinIff(p: string)
    ensures var (parent, leaf) := SplitParentLeaf(p);
      Rejoin(parent, leaf) == p <==> '/' in p && !(|p| >= 2 && p[..2] == "//" && '/' !in p[2..])
  {
    var i := LastIndex(p, '/');
    if i < 0 {
      assert '/' !in p;
      assert |Rejoin("/", p)| == |p| + 1;
    } else {
      assert p == p[..i] + ['/'] + p[i + 1..];
      if i == 1 && p[0] == '/' {
        assert p[..1] == "/" && p[..2] == "//";
      } else {
        assert i != 0 ==> p[..i] != "/";
        if |p| >= 2 && p[..2] == "//" {
          assert p[0] == p[..2][0] == '/' && p[1] == p[..2][1] == '/';
          assert i >= 2 && p[2..][i - 2] == '/';
        }
      }
    }
  }

  // ---------- the parser's result ----------

  datatype Location = Location(driver: string, fullPath: string, parent: string, leaf: string)

  function LocationOf(raw: string): Location {
    var fullPath := Truncate(raw);
    Location(DriverForPath(fullPath), fullPath, SplitParentLeaf(fullPath).0, SplitParentLeaf(fullPath).1)
  }

  /** The code parses again rather than sharing RawCgroupPath; both succeed, and fail, on the same contents. */
  method ParseProc1Cgroup(contents: string) returns (r: Result<Location, Error>)
    ensures match RawPath(contents)
            case Ok(raw) => r == Ok(LocationOf(raw))
            case Err(e) => r == Err(e)
  {
    hide TrimSpace, Select, ReadLines, NormaliseCgroupPath, Truncate, SplitParentLeaf, DriverForPath;
    var trimmed := TrimSpace(contents);
    if trimmed == "" {
      return Err(EmptyCgroup);
    }
    var selected := SelectCgroupPath(trimmed);
    if selected.Err? {
      return Err(selected.error);
    }
    var rawPath := NormaliseCgroupPath(selected.value);
    if rawPath == "/" || rawPath == "/" + "container" {
      return Err(PrivateView(rawPath));
    }
    var fullPath := TruncateToContainerScope(rawPath);
    var driver := DriverForPath(fullPath);
    var (parent, leaf) := SplitParentLeaf(fullPath);
    return Ok(Location(driver, fullPath, parent, leaf));
  }

  /** An accepted path can still split badly: the contents `0:://b` give parent "/" and leaf "b". */
  lemma DoubleSlashAccepted()
    ensures RawPath("0:://b") == Ok("//b") && LocationOf("//b") == Location("cgroupfs", "//b", "/", "b")
    ensures Rejoin("/", "b") != "//b"
  {
    TruncateDoubleSlash();
    hide RawPath, LocationOf;
    assert "0::" + "//b" == "0:://b";
    PrintedRawPath("//b");
  }

  lemma SegmentsOfDoubleSlash()
    ensures Split("//b", '/') == ["", "", "b"] && Truncate("//b") == "//b"
  {
    assert "//b" == "" + ['/'] + "/b" && "/b" == "" + ['/'] + "b";
    SplitAtSeparator("", "/b", '/');
    SplitAtSeparator("", "b", '/');
    SplitAtSeparator("b", "", '/');
    assert Split("//b", '/') == [""] + ([""] + ["b"]) == ["", "", "b"];
    hide Truncate, Split, LastEndingIn;
    TruncateEndsInScope("//b", 0);
  }

  lemma TruncateDoubleSlash()
    ensures LocationOf("//b") == Location("cgroupfs", "//b", "/", "b")
  {
    hide Truncate;
    SegmentsOfDoubleSlash();
    var p := "//b";
    assert LastIndex(p, '/') == 1 by { assert p[1] == '/' && p[2] != '/'; }
    assert p[..1] == "/" && p[2..] == "b";
  }

  // ---------- where the sidecar goes ----------

  datatype Target = NotFound | NotRunning | Running(pid: nat)

  datatype ResolveError = InspectFailed | NoPid | ReadFailed | ParseFailed(e: Error)

  datatype CgroupLocation = CgroupLocation(location: Location, procsPath: string)

  /**
    `target` is what inspecting the container says, `read` what the file system has at the
    process's cgroup file, and `missing` whether a cgroup directory does not exist.
   */
  method ResolveCgroup(target: Target, read: nat -> Option<string>, missing: string -> bool)
    returns (r: Result<CgroupLocation, ResolveError>)
    ensures target.Running? && read(target.pid).Some? ==>
      match RawPath(read(target.pid).value)
      case Err(e) => r == Err(ParseFailed(e))
      case Ok(raw) => r == Ok(CgroupLocation(LocationOf(raw), if missing(raw) then Truncate(raw) else raw))
    ensures r.Ok? ==> AncestorOrSelf(r.value.location.fullPath, r.value.procsPath)
    ensures r == Err(InspectFailed) <==> target.NotFound?
    ensures r == Err(NoPid) <==> target.NotRunning?
    ensures r == Err(ReadFailed) <==> target.Running? && read(target.pid).None?
  {
    if target.NotFound? {
      return Err(InspectFailed);
    }
    if target.NotRunning? {
      return Err(NoPid);
    }
    var raw := read(target.pid);
    if raw.None? {
      return Err(ReadFailed);
    }
    var parsed := ParseProc1Cgroup(raw.value);
    if parsed.Err? {
      return Err(ParseFailed(parsed.error));
    }
    var rawPath := RawCgroupPath(raw.value);
    if rawPath.Err? {
      assert false;
    } else {
      TruncateKeeps(rawPath.value);
      var procsPath := rawPath.value;
      if missing(rawPath.value) {
        procsPath := parsed.value.fullPath;
      }
      return Ok(CgroupLocation(parsed.value, procsPath));
    }
  }

  /** Where a stress sidecar runs: told to write its process id into a cgroup, or created under a parent. */
  datatype Placement = Inject(procsPath: string) | Under(cgroupParent: string)

  function BuildStressConfig(cg: CgroupLocation, injectCgroup: bool): Placement {
    if injectCgroup then Inject(cg.procsPath)
    else if cg.location.driver == "cgroupfs" then Under(cg.location.fullPath)
    else Under(cg.location.parent)
  }

  lemma SystemdSiblings(raw: string)
    ensures var full := Truncate(raw);
      '/' in full && !(|full| >= 2 && full[..2] == "//" && '/' !in full[2..]) ==>
        '/' !in LocationOf(raw).leaf && Rejoin(LocationOf(raw).parent, LocationOf(raw).leaf) == full
  {
    hide Truncate, DriverForPath, SplitParentLeaf;
    ParentLeafRejoinIff(Truncate(raw));
    LeafHasNoSlash(Truncate(raw));
  }

  /**
    A sidecar's cgroup parent is the root, or an ancestor of the target's raw cgroup or that cgroup itself.
    With the cgroupfs driver it is exactly the target's raw cgroup; with systemd it is the cgroup in which
    the target's own, truncated one lies, so that the two are siblings. Injecting names the procs path.
   */
  lemma SidecarSharesAncestors(raw: string, procsPath: string)
    ensures BuildStressConfig(CgroupLocation(LocationOf(raw), procsPath), true) == Inject(procsPath)
    ensures var p, full := BuildStressConfig(CgroupLocation(LocationOf(raw), procsPath), false), Truncate(raw);
      && p.Under?
      && (p.cgroupParent == "/" || AncestorOrSelf(p.cgroupParent, raw))
      && (LocationOf(raw).driver == "cgroupfs" ==> p.cgroupParent == raw)
      && (LocationOf(raw).driver == "systemd" && '/' in full && !(|full| >= 2 && full[..2] == "//" && '/' !in full[2..]) ==>
            '/' !in LocationOf(raw).leaf && Rejoin(p.cgroupParent, LocationOf(raw).leaf) == full)
  {
    SystemdSiblings(raw);
    DriverIff(Truncate(raw));
    hide Truncate, Rejoin, DriverForPath;
    var full := Truncate(raw);
    TruncateKeeps(raw);
    if DriverForPath(full) == "cgroupfs" {
      CgroupfsMeansUntruncated(raw);
    } else {
      var i := LastIndex(full, '/');
      if i > 0 {
        assert full[i] == '/' && full[..i] == raw[..i] && raw[i] == '/';
      }
    }
  }
}
