/**
 * Character classes and string primitives shared by the renderer and the
 * response normaliser: the whitespace set of ECMAScript (what both the regular
 * expression class `\s` and `String.prototype.trim` use), line terminators,
 * searching, `trim`, `split` and `join`.
 */
module Text {

  datatype Option<T> = None | Some(value: T)

  /** ECMAScript WhiteSpace or LineTerminator: the characters `\s` matches and `trim` strips. */
  predicate IsSpace(c: char) {
    var n := c as int;
    n == 0x20 || (0x09 <= n <= 0x0D) || n == 0xA0 || n == 0x1680 || (0x2000 <= n <= 0x200A) ||
    n == 0x2028 || n == 0x2029 || n == 0x202F || n == 0x205F || n == 0x3000 || n == 0xFEFF
  }

  /** ECMAScript LineTerminator: where `^`/`$` match in multiline mode and what `.` refuses. */
  predicate IsLineTerminator(c: char) {
    c == '\n' || c == '\r' || c as int == 0x2028 || c as int == 0x2029
  }

  predicate IsDigit(c: char) { '0' <= c <= '9' }

  predicate IsAsciiLetter(c: char) { ('a' <= c <= 'z') || ('A' <= c <= 'Z') }

  /** The class `[A-Za-z0-9]`. */
  predicate IsAlnum(c: char) { IsAsciiLetter(c) || IsDigit(c) }

  predicate IsHash(c: char) { c == '#' }

  /** What `.` matches: anything but a line terminator. */
  predicate OnLine(c: char) { !IsLineTerminator(c) }

  /** `pat` occurs in `s` starting at index `i`. */
  predicate OccursAt(s: string, pat: string, i: int) {
    0 <= i && i + |pat| <= |s| && s[i..i + |pat|] == pat
  }

  predicate StartsWith(s: string, pat: string) {
    OccursAt(s, pat, 0)
  }

  /** `s` ends with `pat`. */
  predicate EndsWith(s: string, pat: string) {
    |pat| <= |s| && s[|s| - |pat|..] == pat
  }

  /** `pat` occurs nowhere in `s`. */
  predicate Free(s: string, pat: string) {
    forall i :: 0 <= i <= |s| ==> !OccursAt(s, pat, i)
  }

  /** First index `k >= from` where `c` occurs. */
  function IndexOf(s: string, c: char, from: nat): (r: Option<nat>)
    decreases |s| - from
    ensures r.Some? ==> from <= r.value < |s| && s[r.value] == c
    ensures r.Some? ==> forall k :: from <= k < r.value ==> s[k] != c
    ensures r.None? ==> forall k :: from <= k < |s| ==> s[k] != c
  {
    if from >= |s| then None
    else if s[from] == c then Some(from)
    else IndexOf(s, c, from + 1)
  }

  /** First index `k >= from` where `pat` occurs (a lazy `[\s\S]*?pat`). */
  function Find(s: string, pat: string, from: nat): (r: Option<nat>)
    decreases |s| - from
    ensures r.Some? ==> from <= r.value && OccursAt(s, pat, r.value)
    ensures r.Some? ==> forall k :: from <= k < r.value ==> !OccursAt(s, pat, k)
    ensures r.None? ==> forall k :: from <= k ==> !OccursAt(s, pat, k)
  {
    if from + |pat| > |s| then None
    else if s[from..from + |pat|] == pat then Some(from)
    else Find(s, pat, from + 1)
  }

  /** Length of the run of characters satisfying `p` that starts at `i`. */
  function Run(s: string, i: nat, p: char -> bool): (n: nat)
    decreases |s| - i
    ensures i + n <= |s| || n == 0
    ensures forall k :: i <= k < i + n ==> p(s[k])
    ensures i + n < |s| ==> !p(s[i + n])
  {
    if i < |s| && p(s[i]) then 1 + Run(s, i + 1, p) else 0
  }

  /** `n` line feeds. */
  function Newlines(n: nat): string {
    seq(n, _ => '\n')
  }

  /** Drops leading whitespace. */
  function TrimStart(s: string): (r: string)
    ensures |r| <= |s| && r == s[|s| - |r|..]
    ensures forall k :: 0 <= k < |s| - |r| ==> IsSpace(s[k])
    ensures r != [] ==> !IsSpace(r[0])
  {
    if s != [] && IsSpace(s[0]) then TrimStart(s[1..]) else s
  }

  /** Drops trailing whitespace. */
  function TrimEnd(s: string): (r: string)
    ensures |r| <= |s| && r == s[..|r|]
    ensures forall k :: |r| <= k < |s| ==> IsSpace(s[k])
    ensures r != [] ==> !IsSpace(r[|r| - 1])
  {
    if s != [] && IsSpace(s[|s| - 1]) then TrimEnd(s[..|s| - 1]) else s
  }

  /** `String.prototype.trim`. */
  function Trim(s: string): (r: string)
    ensures |r| <= |s|
    ensures r != [] ==> !IsSpace(r[0]) && !IsSpace(r[|r| - 1])
  {
    TrimEnd(TrimStart(s))
  }

  /** `Trim(s)` is the slice `s[i..i + |Trim(s)|]`, and all that it drops is whitespace. */
  lemma TrimSlice(s: string) returns (i: nat)
    ensures i + |Trim(s)| <= |s| && Trim(s) == s[i..i + |Trim(s)|]
    ensures forall k :: 0 <= k < i ==> IsSpace(s[k])
    ensures forall k :: i + |Trim(s)| <= k < |s| ==> IsSpace(s[k])
  {
    var t := TrimStart(s);
    i := |s| - |t|;
    var u := TrimEnd(t);
    assert Trim(s) == u;
    SliceOfSuffix(s, t, u, i);
  }

  lemma SliceOfSuffix(s: string, t: string, u: string, i: nat)
    requires i + |t| == |s| && t == s[i..]
    requires |u| <= |t| && u == t[..|u|]
    requires forall k :: |u| <= k < |t| ==> IsSpace(t[k])
    ensures u == s[i..i + |u|]
    ensures forall k :: i + |u| <= k < |s| ==> IsSpace(s[k])
  {
    forall k | i + |u| <= k < |s| ensures IsSpace(s[k]) {
      assert s[k] == t[k - i];
    }
  }

  /** A string with no leading or trailing whitespace is its own trim. */
  lemma TrimTrimmed(s: string)
    requires s == [] || (!IsSpace(s[0]) && !IsSpace(s[|s| - 1]))
    ensures Trim(s) == s
  {
  }

  /** Number of occurrences of `c` in `s`. */
  function Count(s: string, c: char): nat {
    if s == [] then 0 else (if s[0] == c then 1 else 0) + Count(s[1..], c)
  }

  lemma {:induction false} CountAppend(a: string, b: string, c: char)
    ensures Count(a + b, c) == Count(a, c) + Count(b, c)
  {
    if a == [] {
      assert a + b == b;
    } else {
      assert (a + b)[1..] == a[1..] + b;
      CountAppend(a[1..], b, c);
    }
  }

  /** `parts.join(sep)`. */
  function Join(parts: seq<string>, sep: string): string {
    if |parts| == 0 then []
    else if |parts| == 1 then parts[0]
    else parts[0] + sep + Join(parts[1..], sep)
  }

  /** `s.split(sep)` for a non-empty literal separator: cuts at the leftmost, non-overlapping occurrences. */
  function Split(s: string, sep: string): (parts: seq<string>)
    requires sep != []
    ensures |parts| >= 1
  {
    SplitFrom(s, sep, 0, 0)
  }

  /** The scan behind `Split`: the current part started at `p`, the search is at `q`. */
  function SplitFrom(s: string, sep: string, p: nat, q: nat): (parts: seq<string>)
    requires sep != [] && p <= q <= |s|
    decreases |s| - q
    ensures |parts| >= 1
  {
    if q + |sep| > |s| then
      [s[p..]]
    else if s[q..q + |sep|] == sep then
      [s[p..q]] + SplitFrom(s, sep, q + |sep|, q + |sep|)
    else
      SplitFrom(s, sep, p, q + 1)
  }

  /** The parts join back to the string, and no part contains the separator. */
  lemma SplitParts(s: string, sep: string)
    requires sep != []
    ensures Join(Split(s, sep), sep) == s
    ensures forall k :: 0 <= k < |Split(s, sep)| ==> Free(Split(s, sep)[k], sep)
  {
    SplitFromParts(s, sep, 0, 0);
    assert s[0..] == s;
  }

  lemma {:induction false} SplitFromParts(s: string, sep: string, p: nat, q: nat)
    requires sep != [] && p <= q <= |s|
    requires forall i :: p <= i < q ==> !OccursAt(s, sep, i)
    decreases |s| - q
    ensures Join(SplitFrom(s, sep, p, q), sep) == s[p..]
    ensures forall k :: 0 <= k < |SplitFrom(s, sep, p, q)| ==> Free(SplitFrom(s, sep, p, q)[k], sep)
  {
    if q + |sep| > |s| {
      FreeSlice(s, sep, p, |s|);
      assert s[p..] == s[p..|s|];
    } else if s[q..q + |sep|] == sep {
      FreeSlice(s, sep, p, q);
      SplitFromParts(s, sep, q + |sep|, q + |sep|);
      var rest := SplitFrom(s, sep, q + |sep|, q + |sep|);
      assert SplitFrom(s, sep, p, q) == [s[p..q]] + rest;
      assert s[p..] == s[p..q] + sep + s[q + |sep|..];
      assert ([s[p..q]] + rest)[1..] == rest;
    } else {
      SplitFromParts(s, sep, p, q + 1);
    }
  }

  /** A slice in which no occurrence of `sep` starts (within the slice) is free of `sep`. */
  lemma FreeSlice(s: string, sep: string, p: nat, e: nat)
    requires p <= e <= |s|
    requires forall i :: p <= i && i + |sep| <= e ==> !OccursAt(s, sep, i)
    ensures Free(s[p..e], sep)
  {
    forall i | 0 <= i <= e - p
      ensures !OccursAt(s[p..e], sep, i)
    {
      if OccursAt(s[p..e], sep, i) {
        forall j | 0 <= j < |sep|
          ensures s[p + i + j] == sep[j]
        {
          assert s[p..e][i..i + |sep|][j] == sep[j];
        }
        assert s[p + i..p + i + |sep|] == sep;
        assert OccursAt(s, sep, p + i);
      }
    }
  }

  /** Scanning past indices where `sep` does not occur changes nothing. */
  lemma {:induction false} SplitFromScan(s: string, sep: string, p: nat, q: nat, q': nat)
    requires sep != [] && p <= q <= q' <= |s|
    requires forall i :: q <= i < q' ==> !OccursAt(s, sep, i)
    decreases q' - q
    ensures SplitFrom(s, sep, p, q) == SplitFrom(s, sep, p, q')
  {
    if q < q' {
      assert !OccursAt(s, sep, q);
      SplitFromScan(s, sep, p, q + 1, q');
    }
  }

  /** A one-character separator occurs exactly where that character is. */
  lemma OccursChar(s: string, c: char, i: nat)
    ensures OccursAt(s, [c], i) <==> i < |s| && s[i] == c
  {
    if i < |s| {
      assert s[i..i + 1] == [s[i]];
    }
  }

  /** A string is free of a one-character separator exactly when the character is not in it. */
  lemma FreeChar(s: string, c: char)
    ensures Free(s, [c]) <==> c !in s
  {
    if c in s {
      var i :| 0 <= i < |s| && s[i] == c;
      OccursChar(s, c, i);
    } else {
      forall i | 0 <= i <= |s| ensures !OccursAt(s, [c], i) {
        OccursChar(s, c, i);
      }
    }
  }

  /** Splitting a join on a one-character separator that no part contains gives the parts back. */
  lemma SplitJoinChar(parts: seq<string>, c: char)
    requires |parts| >= 1
    requires forall k :: 0 <= k < |parts| ==> c !in parts[k]
    ensures Split(Join(parts, [c]), [c]) == parts
  {
    var s := Join(parts, [c]);
    assert s[0..] == s;
    SplitJoinFrom(s, c, 0, parts);
  }

  lemma {:induction false} SplitJoinFrom(s: string, c: char, p: nat, parts: seq<string>)
    requires p <= |s| && s[p..] == Join(parts, [c])
    requires |parts| >= 1
    requires forall k :: 0 <= k < |parts| ==> c !in parts[k]
    decreases |parts|
    ensures SplitFrom(s, [c], p, p) == parts
  {
    var e := p + |parts[0]|;
    if |parts| > 1 {
      assert Join(parts, [c]) == parts[0] + [c] + Join(parts[1..], [c]);
    }
    assert e <= |s| && s[p..e] == parts[0];
    forall i | p <= i < e
      ensures !OccursAt(s, [c], i)
    {
      assert s[i] == parts[0][i - p];
      OccursChar(s, c, i);
    }
    SplitFromScan(s, [c], p, p, e);
    if |parts| == 1 {
      assert e == |s|;
      assert s[p..] == s[p..e];
    } else {
      assert s[e] == c;
      OccursChar(s, c, e);
      assert s[e + 1..] == Join(parts[1..], [c]);
      SplitJoinFrom(s, c, e + 1, parts[1..]);
      assert parts == [parts[0]] + parts[1..];
    }
  }

  /** Joining parts free of `c` on `c` adds one `c` per gap. */
  lemma {:induction false} CountJoin(parts: seq<string>, c: char)
    requires |parts| >= 1
    requires forall k :: 0 <= k < |parts| ==> c !in parts[k]
    ensures Count(Join(parts, [c]), c) == |parts| - 1
  {
    CountAbsent(parts[0], c);
    if |parts| > 1 {
      CountJoin(parts[1..], c);
      CountAppend(parts[0], [c], c);
      CountAppend(parts[0] + [c], Join(parts[1..], [c]), c);
    }
  }

  lemma {:induction false} CountAbsent(s: string, c: char)
    requires c !in s
    ensures Count(s, c) == 0
  {
    if s != [] {
      assert s[0] != c && c !in s[1..];
      CountAbsent(s[1..], c);
    }
  }

  /** `s.split(c)` has one part more than `s` has occurrences of `c`. */
  lemma SplitCount(s: string, c: char)
    ensures |Split(s, [c])| == Count(s, c) + 1
  {
    var parts := Split(s, [c]);
    SplitParts(s, [c]);
    forall k | 0 <= k < |parts| ensures c !in parts[k] {
      FreeChar(parts[k], c);
    }
    CountJoin(parts, c);
  }

  /** Trimming a trimmed string padded with one space on either side gives it back. */
  lemma TrimPadded(s: string)
    requires s == [] || (!IsSpace(s[0]) && !IsSpace(s[|s| - 1]))
    ensures Trim(" " + s + " ") == s
  {
    var x := " " + s + " ";
    assert x[1..] == s + " ";
    assert TrimStart(x) == TrimStart(s + " ");
    if s == [] {
      assert TrimStart(" ") == TrimStart(" "[1..]);
    } else {
      assert TrimStart(s + " ") == s + " ";
      assert (s + " ")[..|s + " "| - 1] == s;
      assert TrimEnd(s + " ") == TrimEnd(s);
    }
  }

  /** A run of exactly `m` characters satisfying `p`, ended by the text or by one that does not. */
  lemma {:induction false} RunIs(s: string, i: nat, p: char -> bool, m: nat)
    requires i + m <= |s|
    requires forall k :: i <= k < i + m ==> p(s[k])
    requires i + m == |s| || !p(s[i + m])
    decreases m
    ensures Run(s, i, p) == m
  {
    if m > 0 {
      RunIs(s, i + 1, p, m - 1);
    }
  }

  /** Characters that all satisfy `p` make a run at least as long. */
  lemma {:induction false} RunAtLeast(s: string, i: nat, p: char -> bool, m: nat)
    requires i + m <= |s|
    requires forall k :: i <= k < i + m ==> p(s[k])
    decreases m
    ensures Run(s, i, p) >= m
  {
    if m > 0 {
      RunAtLeast(s, i + 1, p, m - 1);
    }
  }

  /** A run from the second character is a run of the text without its first. */
  lemma RunDrop(s: string, p: char -> bool)
    requires s != []
    ensures Run(s, 1, p) == Run(s[1..], 0, p)
  {
    var m := Run(s[1..], 0, p);
    assert forall k :: 1 <= k <= |s| - 1 ==> s[k] == s[1..][k - 1];
    RunIs(s, 1, p, m);
  }

  /** Occurrences in `b` are occurrences in `a + b`, shifted by `|a|`. */
  lemma OccursShift(a: string, b: string, pat: string, i: nat)
    ensures OccursAt(a + b, pat, |a| + i) <==> OccursAt(b, pat, i)
  {
    if i + |pat| <= |b| {
      assert (a + b)[|a| + i..|a| + i + |pat|] == b[i..i + |pat|];
    }
  }

  /** Splitting the tail `b` of `a + b` is splitting `b` on its own. */
  lemma {:induction false} SplitShift(a: string, b: string, sep: string, p: nat, q: nat)
    requires sep != [] && p <= q <= |b|
    decreases |b| - q
    ensures SplitFrom(a + b, sep, |a| + p, |a| + q) == SplitFrom(b, sep, p, q)
  {
    var n := |a|;
    if n + q + |sep| > |a + b| {
      SplitShiftEnd(a, b, sep, p, q);
    } else {
      SliceShift(a, b, q, q + |sep|);
      if b[q..q + |sep|] == sep {
        SplitShift(a, b, sep, q + |sep|, q + |sep|);
        SplitShiftCut(a, b, sep, p, q);
      } else {
        SplitShift(a, b, sep, p, q + 1);
      }
    }
  }

  lemma SplitShiftEnd(a: string, b: string, sep: string, p: nat, q: nat)
    requires sep != [] && p <= q <= |b| && |a| + q + |sep| > |a + b|
    ensures SplitFrom(a + b, sep, |a| + p, |a| + q) == SplitFrom(b, sep, p, q)
  {
    var s := a + b;
    SliceShift(a, b, p, |b|);
    assert s[|a| + p..] == s[|a| + p..|s|];
    assert b[p..] == b[p..|b|];
  }

  lemma SplitShiftCut(a: string, b: string, sep: string, p: nat, q: nat)
    requires sep != [] && p <= q && q + |sep| <= |b| && b[q..q + |sep|] == sep
    requires SplitFrom(a + b, sep, |a| + q + |sep|, |a| + q + |sep|) == SplitFrom(b, sep, q + |sep|, q + |sep|)
    ensures SplitFrom(a + b, sep, |a| + p, |a| + q) == SplitFrom(b, sep, p, q)
  {
    var s := a + b;
    SliceShift(a, b, q, q + |sep|);
    SliceShift(a, b, p, q);
    assert SplitFrom(s, sep, |a| + p, |a| + q) == [s[|a| + p..|a| + q]] + SplitFrom(s, sep, |a| + q + |sep|, |a| + q + |sep|);
  }

  lemma SliceThree(s: string, i: nat, j: nat)
    requires i <= j <= |s|
    ensures s == s[..i] + s[i..j] + s[j..]
  {
  }

  lemma SliceShift(a: string, b: string, i: nat, j: nat)
    requires i <= j <= |b|
    ensures (a + b)[|a| + i..|a| + j] == b[i..j]
  {
  }

  /** A string in which `sep` never occurs splits into itself alone. */
  lemma SplitFree(s: string, sep: string)
    requires sep != [] && Free(s, sep)
    ensures Split(s, sep) == [s]
  {
    SplitFromScan(s, sep, 0, 0, |s|);
    assert s[0..] == s;
  }

  /** Cutting at the first occurrence: `x + sep + y` splits into `x` and the parts of `y`. */
  lemma SplitAfter(x: string, sep: string, y: string)
    requires sep != []
    requires forall i :: 0 <= i < |x| ==> !OccursAt(x + sep + y, sep, i)
    ensures Split(x + sep + y, sep) == [x] + Split(y, sep)
  {
    var s := x + sep + y;
    SplitFromScan(s, sep, 0, 0, |x|);
    assert s[|x|..|x| + |sep|] == sep;
    assert s[0..|x|] == x;
    SplitShift(x + sep, y, sep, 0, 0);
  }
}
