/** The string operations of Go's `strings` package that the cgroup parsers use, on sequences of characters. */
module GoStrings {

  /** Go's unicode.IsSpace: the characters with the White_Space property. */
  predicate IsSpace(c: char) {
    || '\t' <= c <= '\r' || c == ' ' || c == '\U{0085}' || c == '\U{00A0}' || c == '\U{1680}'
    || '\U{2000}' <= c <= '\U{200A}' || c == '\U{2028}' || c == '\U{2029}' || c == '\U{202F}'
    || c == '\U{205F}' || c == '\U{3000}'
  }

  function TrimLeft(s: string): string {
    if s != "" && IsSpace(s[0]) then TrimLeft(s[1..]) else s
  }

  function TrimRight(s: string): (r: string)
    ensures r <= s
  {
    if s != "" && IsSpace(s[|s| - 1]) then TrimRight(s[..|s| - 1]) else s
  }

  function TrimSpace(s: string): string {
    TrimRight(TrimLeft(s))
  }

  /** `strings.TrimRight(s, "/")`. */
  function TrimSlashes(s: string): (r: string)
    ensures r <= s && (r != "" ==> r[|r| - 1] != '/')
    ensures forall i | |r| <= i < |s| :: s[i] == '/'
  {
    if s != "" && s[|s| - 1] == '/' then TrimSlashes(s[..|s| - 1]) else s
  }

  predicate HasSuffix(s: string, suffix: string) {
    |suffix| <= |s| && s[|s| - |suffix|..] == suffix
  }

  predicate ContainsAt(s: string, sub: string, i: nat) {
    i + |sub| <= |s| && s[i..i + |sub|] == sub
  }

  predicate Contains(s: string, sub: string) {
    exists i: nat | i <= |s| :: ContainsAt(s, sub, i)
  }

  /** The position of the first `c`, or -1. */
  function Index(s: string, c: char): (r: int)
    ensures -1 <= r < |s|
    ensures r >= 0 ==> s[r] == c && c !in s[..r]
    ensures r == -1 <==> c !in s
  {
    if s == "" then -1
    else if s[0] == c then 0
    else
      var r := Index(s[1..], c);
      assert s == [s[0]] + s[1..];
      if r < 0 then -1 else r + 1
  }

  /** The position of the last `c`, or -1. */
  function LastIndex(s: string, c: char): (r: int)
    ensures -1 <= r < |s|
    ensures r >= 0 ==> s[r] == c && c !in s[r + 1..]
    ensures r == -1 <==> c !in s
  {
    if s == "" then -1
    else if s[|s| - 1] == c then |s| - 1
    else
      var t := s[..|s| - 1];
      var r := LastIndex(t, c);
      assert s == t + [s[|s| - 1]];
      assert r >= 0 ==> s[r + 1..] == t[r + 1..] + [s[|s| - 1]];
      r
  }

  /** At most `n` fields; the last keeps its separators. */
  function SplitN(s: string, sep: char, n: nat): (r: seq<string>)
    requires n >= 1
    ensures 1 <= |r| <= n
  {
    var i := Index(s, sep);
    if n == 1 || i < 0 then [s] else [s[..i]] + SplitN(s[i + 1..], sep, n - 1)
  }

  function Split(s: string, sep: char): (r: seq<string>)
    ensures r != []
    ensures forall i | 0 <= i < |r| :: sep !in r[i]
  {
    if s == "" then [""]
    else
      var rest := Split(s[1..], sep);
      if s[0] == sep then [""] + rest else [[s[0]] + rest[0]] + rest[1..]
  }

  function Join(parts: seq<string>, sep: char): string {
    if parts == [] then ""
    else if |parts| == 1 then parts[0]
    else parts[0] + [sep] + Join(parts[1..], sep)
  }

  lemma IndexAt(a: string, b: string, c: char)
    requires c !in a
    ensures Index(a + [c] + b, c) == |a|
  {
    var s := a + [c] + b;
    var r := Index(s, c);
    assert s[|a|] == c;
    forall k | 0 <= k < |a| ensures s[k] == a[k] {
    }
    assert forall k | 0 <= k < |s| && s[k] !in s[..k] :: s[k] == c ==> k == |a|;
  }

  /** The first field of a limited split ends at the first separator. */
  lemma SplitNAt(a: string, b: string, sep: char, n: nat)
    requires sep !in a && n >= 2
    ensures SplitN(a + [sep] + b, sep, n) == [a] + SplitN(b, sep, n - 1)
  {
    IndexAt(a, b, sep);
    assert (a + [sep] + b)[..|a|] == a && (a + [sep] + b)[|a| + 1..] == b;
  }

  lemma ThreeFields(a: string, b: string, c: string, sep: char)
    requires sep !in a && sep !in b
    ensures SplitN(a + [sep] + b + [sep] + c, sep, 3) == [a, b, c]
  {
    hide Index;
    SplitNAt(a, b + [sep] + c, sep, 3);
    assert a + [sep] + b + [sep] + c == a + [sep] + (b + [sep] + c);
    SplitNAt(b, c, sep, 2);
    assert SplitN(c, sep, 1) == [c];
    assert [a] + ([b] + [c]) == [a, b, c];
  }

  // ---------- splitting and joining are inverse ----------

  lemma {:induction false} JoinSplit(s: string, sep: char)
    ensures Join(Split(s, sep), sep) == s
  {
    if s != "" {
      JoinSplit(s[1..], sep);
      var rest := Split(s[1..], sep);
      if s[0] == sep {
        assert ([""] + rest)[1..] == rest;
      } else {
        var r := [[s[0]] + rest[0]] + rest[1..];
        assert r[1..] == rest[1..];
        if |rest| > 1 {
          assert [s[0]] + (rest[0] + [sep] + Join(rest[1..], sep)) == r[0] + [sep] + Join(r[1..], sep);
        }
      }
      assert s == [s[0]] + s[1..];
    }
  }

  /** The first field ends at the first separator. */
  lemma {:induction false} SplitAtSeparator(a: string, b: string, sep: char)
    requires sep !in a
    ensures Split(a + [sep] + b, sep) == [a] + Split(b, sep)
    ensures Split(a, sep) == [a]
  {
    var s := a + [sep] + b;
    if a == "" {
      assert s[1..] == b;
    } else {
      assert a == [a[0]] + a[1..];
      assert s[1..] == a[1..] + [sep] + b;
      SplitAtSeparator(a[1..], b, sep);
      assert ([a[1..]] + Split(b, sep))[1..] == Split(b, sep);
    }
  }

  lemma {:induction false} SplitJoin(parts: seq<string>, sep: char)
    requires parts != [] && forall i | 0 <= i < |parts| :: sep !in parts[i]
    ensures Split(Join(parts, sep), sep) == parts
  {
    if |parts| == 1 {
      SplitAtSeparator(parts[0], "", sep);
    } else {
      SplitJoin(parts[1..], sep);
      SplitAtSeparator(parts[0], Join(parts[1..], sep), sep);
      assert parts == [parts[0]] + parts[1..];
    }
  }

  /** Cutting the list of fields cuts the text at a separator. */
  lemma {:induction false} JoinPrefix(parts: seq<string>, n: nat, sep: char)
    requires 1 <= n < |parts|
    ensures Join(parts, sep) == Join(parts[..n], sep) + [sep] + Join(parts[n..], sep)
  {
    if n == 1 {
      assert parts[..1] == [parts[0]];
    } else {
      JoinPrefix(parts[1..], n - 1, sep);
      assert parts[..n][1..] == parts[1..][..n - 1] && parts[1..][n - 1..] == parts[n..];
      var x, y := Join(parts[1..][..n - 1], sep), Join(parts[n..], sep);
      assert parts[0] + [sep] + (x + [sep] + y) == (parts[0] + [sep] + x) + [sep] + y;
    }
  }

  // ---------- trimming ----------

  predicate Trimmed(s: string) {
    s == "" || (!IsSpace(s[0]) && !IsSpace(s[|s| - 1]))
  }

  lemma TrimmedStays(s: string)
    requires Trimmed(s)
    ensures TrimSpace(s) == s
  {
  }

  predicate AllSpace(s: string) {
    forall i | 0 <= i < |s| :: IsSpace(s[i])
  }

  lemma {:induction false} TrimLeftSkips(a: string, s: string)
    requires AllSpace(a)
    ensures TrimLeft(a + s) == TrimLeft(s)
  {
    if a == "" {
      assert a + s == s;
    } else {
      assert (a + s)[1..] == a[1..] + s;
      TrimLeftSkips(a[1..], s);
    }
  }

  lemma {:induction false} TrimRightSkips(s: string, b: string)
    requires AllSpace(b)
    ensures TrimRight(s + b) == TrimRight(s)
  {
    if b == "" {
      assert s + b == s;
    } else {
      assert (s + b)[..|s + b| - 1] == s + b[..|b| - 1];
      TrimRightSkips(s, b[..|b| - 1]);
    }
  }

  /** Spaces at the right end do not matter to the left one, unless there is nothing else. */
  lemma {:induction false} TrimLeftThenRight(s: string, b: string)
    requires AllSpace(b)
    ensures TrimLeft(s + b) == if AllSpace(s) then "" else TrimLeft(s) + b
  {
    if s == "" {
      assert s + b == b + "";
      TrimLeftSkips(b, "");
    } else if IsSpace(s[0]) {
      assert (s + b)[1..] == s[1..] + b;
      TrimLeftThenRight(s[1..], b);
      assert s == [s[0]] + s[1..];
    } else {
      assert (s + b)[0] == s[0];
    }
  }

  /** Surrounding spaces are exactly what trimming removes; nothing is left exactly of spaces alone. */
  lemma TrimSpaceIgnores(a: string, s: string, b: string)
    requires AllSpace(a) && AllSpace(b)
    ensures TrimSpace(a + s + b) == TrimSpace(s)
  {
    assert a + s + b == a + (s + b);
    TrimLeftSkips(a, s + b);
    TrimLeftThenRight(s, b);
    TrimLeftThenRight(s, "");
    assert s + "" == s && TrimLeft(s) + "" == TrimLeft(s);
    if !AllSpace(s) {
      TrimRightSkips(TrimLeft(s), b);
    }
  }

  lemma TrimSpaceEmptyIff(s: string)
    ensures TrimSpace(s) == "" <==> AllSpace(s)
  {
    TrimLeftThenRight(s, "");
    assert s + "" == s;
    if !AllSpace(s) {
      TrimLeftStops(s);
      TrimRightStops(TrimLeft(s), 0);
    }
  }

  lemma {:induction false} TrimLeftStops(s: string)
    requires !AllSpace(s)
    ensures TrimLeft(s) != "" && !IsSpace(TrimLeft(s)[0])
  {
    if IsSpace(s[0]) {
      assert s == [s[0]] + s[1..];
      TrimLeftStops(s[1..]);
    }
  }

  lemma {:induction false} TrimRightStops(s: string, i: nat)
    requires i < |s| && !IsSpace(s[i])
    ensures |TrimRight(s)| > i
  {
    if IsSpace(s[|s| - 1]) {
      TrimRightStops(s[..|s| - 1], i);
    }
  }

  /** A string without two separators has fewer than three fields. */
  lemma FewFields(s: string, sep: char)
    requires |Split(s, sep)| < 3
    ensures |SplitN(s, sep, 3)| < 3
  {
    hide Split, Index;
    if sep in s {
      SplitAtFirst(s, sep);
      var rest := s[Index(s, sep) + 1..];
      if sep in rest {
        SplitAtFirst(rest, sep);
      }
    }
  }

  lemma SplitAtFirst(s: string, sep: char)
    requires sep in s
    ensures var i := Index(s, sep); 0 <= i < |s| && Split(s, sep) == [s[..i]] + Split(s[i + 1..], sep)
  {
    hide Split;
    IndexSplits(s, sep);
    hide Index;
    SplitAtSeparator(s[..Index(s, sep)], s[Index(s, sep) + 1..], sep);
  }

  lemma {:induction false} IndexSplits(s: string, sep: char)
    requires sep in s
    ensures var i := Index(s, sep); 0 <= i < |s| && s == s[..i] + [sep] + s[i + 1..] && sep !in s[..i]
  {
  }

  /** `s` is `sub` with something before and after it. */
  predicate Around(s: string, before: string, sub: string, after: string) {
    s == before + sub + after
  }

  lemma ContainsIff(s: string, sub: string)
    ensures Contains(s, sub) <==> exists before, after :: Around(s, before, sub, after)
  {
    if Contains(s, sub) {
      var i: nat :| i <= |s| && ContainsAt(s, sub, i);
      assert s == s[..i] + s[i..i + |sub|] + s[i + |sub|..];
      assert Around(s, s[..i], sub, s[i + |sub|..]);
    }
    if before, after :| Around(s, before, sub, after) {
      assert s[|before|..|before| + |sub|] == sub;
      assert ContainsAt(s, sub, |before|);
    }
  }

  lemma {:induction false} NoSeparatorJoined(parts: seq<string>, sep: char, c: char)
    requires c != sep && forall i | 0 <= i < |parts| :: c !in parts[i]
    ensures c !in Join(parts, sep)
  {
    if |parts| > 1 {
      NoSeparatorJoined(parts[1..], sep, c);
    }
  }

  lemma EmptyJoinIff(parts: seq<string>, sep: char)
    requires parts != []
    ensures Join(parts, sep) == "" <==> parts == [""]
  {
    if |parts| > 1 {
      assert |Join(parts, sep)| >= 1;
    }
  }
}
