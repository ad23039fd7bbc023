/** What each clean-up step, and the two chains, promise about the text. */
module NormaliseFacts {
  import opened Text
  import opened Normalise

  // Step 1: a space after leading hashes.

  /** A line of `n` hashes followed by a letter or digit gets a space after the hashes. */
  lemma HashSpaceLine(s: string, n: nat)
    requires 1 <= n < |s|
    requires forall k :: 0 <= k < n ==> s[k] == '#'
    requires IsAlnum(s[n])
    ensures HashSpace(s, true) == s[..n] + " " + HashSpace(s[n..], false)
  {
    RunIs(s, 0, IsHash, n);
    HashSpaceAt(s, n);
  }

  /** A line whose hashes are followed by anything else is left alone. */
  lemma HashSpaceOther(s: string, n: nat)
    requires 1 <= n <= |s|
    requires forall k :: 0 <= k < n ==> s[k] == '#'
    requires n == |s| || (s[n] != '#' && !IsAlnum(s[n]))
    ensures HashSpace(s, true) == s[..n] + HashSpace(s[n..], false)
  {
    RunIs(s, 0, IsHash, n);
    HashSpaceAt(s, n);
  }

  lemma HashSpaceAt(s: string, n: nat)
    requires s != [] && s[0] == '#' && Run(s, 0, IsHash) == n
    ensures n < |s| && IsAlnum(s[n]) ==> HashSpace(s, true) == s[..n] + " " + HashSpace(s[n..], false)
    ensures !(n < |s| && IsAlnum(s[n])) ==> HashSpace(s, true) == s[..n] + HashSpace(s[n..], false)
  {
    var x := HashSpace(s[n..], false);
    assert s[..n] + "" + x == s[..n] + x;
  }

  /** Text without a hash passes through unchanged. */
  lemma {:induction false} HashSpaceNoHash(s: string, atLineStart: bool)
    requires '#' !in s
    decreases |s|
    ensures HashSpace(s, atLineStart) == s
  {
    if s != [] {
      assert '#' !in s[1..];
      HashSpaceNoHash(s[1..], IsLineTerminator(s[0]));
      assert s == [s[0]] + s[1..];
    }
  }

  // Step 2: asterisk bullets become hyphens.

  /** Whitespace, an asterisk and a whitespace character at a line start become the whitespace and "- ". */
  lemma BulletLine(s: string, w: nat)
    requires w + 1 < |s|
    requires forall k :: 0 <= k < w ==> IsSpace(s[k])
    requires s[w] == '*' && IsSpace(s[w + 1])
    ensures Bullets(s, true) == s[..w] + "- " + Bullets(s[w + 2..], IsLineTerminator(s[w + 1]))
  {
    RunIs(s, 0, IsSpace, w);
  }

  /** Text without an asterisk passes through unchanged. */
  lemma {:induction false} BulletsNoStar(s: string, atLineStart: bool)
    requires '*' !in s
    decreases |s|
    ensures Bullets(s, atLineStart) == s
  {
    if s != [] {
      assert '*' !in s[1..];
      BulletsNoStar(s[1..], IsLineTerminator(s[0]));
      assert s == [s[0]] + s[1..];
    }
  }

  /** `d` is what the bullet step may make of `c`: `c` itself, a hyphen for a star, a space for whitespace. */
  predicate Changed(c: char, d: char) {
    d == c || (c == '*' && d == '-') || (IsSpace(c) && d == ' ')
  }

  predicate ChangedAll(s: string, r: string) {
    |s| == |r| && forall k :: 0 <= k < |s| ==> Changed(s[k], r[k])
  }

  /** The step keeps the length and changes only a star to a hyphen or a whitespace character to a space. */
  lemma {:induction false} BulletsChanges(s: string, atLineStart: bool)
    decreases |s|
    ensures ChangedAll(s, Bullets(s, atLineStart))
  {
    if s != [] {
      var w := Run(s, 0, IsSpace);
      if atLineStart && w + 1 < |s| && s[w] == '*' && IsSpace(s[w + 1]) {
        var t := s[w + 2..];
        BulletsChanges(t, IsLineTerminator(s[w + 1]));
        BulletsChangesLine(s, w, Bullets(t, IsLineTerminator(s[w + 1])));
      } else {
        BulletsChanges(s[1..], IsLineTerminator(s[0]));
        BulletsChangesOther(s, atLineStart);
      }
    }
  }

  lemma BulletsChangesLine(s: string, w: nat, rest: string)
    requires w + 1 < |s| && s[w] == '*' && IsSpace(s[w + 1])
    requires ChangedAll(s[w + 2..], rest)
    ensures ChangedAll(s, s[..w] + "- " + rest)
  {
    var a := s[..w + 2];
    assert ChangedAll(a, s[..w] + "- ");
    ChangedJoin(a, s[..w] + "- ", s[w + 2..], rest);
    assert s == a + s[w + 2..];
  }

  lemma BulletsChangesOther(s: string, atLineStart: bool)
    requires s != []
    requires !(atLineStart && Run(s, 0, IsSpace) + 1 < |s| && s[Run(s, 0, IsSpace)] == '*' && IsSpace(s[Run(s, 0, IsSpace) + 1]))
    requires ChangedAll(s[1..], Bullets(s[1..], IsLineTerminator(s[0])))
    ensures ChangedAll(s, Bullets(s, atLineStart))
  {
    ChangedJoin([s[0]], [s[0]], s[1..], Bullets(s[1..], IsLineTerminator(s[0])));
    assert s == [s[0]] + s[1..];
  }

  lemma ChangedJoin(a: string, b: string, x: string, y: string)
    requires ChangedAll(a, b) && ChangedAll(x, y)
    ensures ChangedAll(a + x, b + y)
  {
    forall k | 0 <= k < |a + x| ensures Changed((a + x)[k], (b + y)[k]) {
      if k >= |a| {
        assert (a + x)[k] == x[k - |a|] && (b + y)[k] == y[k - |a|];
      }
    }
  }

  // Step 3: pairs of asterisks deleted.

  /** The text with its asterisks left out. */
  function Unstarred(s: string): string {
    if s == [] then [] else (if s[0] == '*' then [] else [s[0]]) + Unstarred(s[1..])
  }

  /** Deleting pairs removes asterisks and nothing else. */
  lemma {:induction false} StripBoldOnlyStars(s: string)
    decreases |s|
    ensures Unstarred(StripBold(s)) == Unstarred(s)
  {
    if |s| >= 2 && s[0] == '*' && s[1] == '*' {
      StripBoldOnlyStars(s[2..]);
      assert s[1..][1..] == s[2..];
    } else if s != [] {
      StripBoldOnlyStars(s[1..]);
      assert ([s[0]] + StripBold(s[1..]))[1..] == StripBold(s[1..]);
    }
  }

  /** Text without a pair of asterisks is left alone. */
  lemma {:induction false} StripBoldFixed(s: string)
    requires NoDoubleStar(s)
    decreases |s|
    ensures StripBold(s) == s
  {
    if s != [] {
      assert NoDoubleStar(s[1..]) by {
        forall i | 0 <= i < |s[1..]| - 1 ensures !(s[1..][i] == '*' && s[1..][i + 1] == '*') {
          assert s[1..][i] == s[i + 1] && s[1..][i + 1] == s[i + 2];
        }
      }
      StripBoldFixed(s[1..]);
      assert s == [s[0]] + s[1..];
    }
  }

  /** Deleting pairs twice deletes nothing more. */
  lemma StripBoldIdempotent(s: string)
    ensures StripBold(StripBold(s)) == StripBold(s)
  {
    StripBoldFixed(StripBold(s));
  }

  // Step 4: heading lines wrapped in blank lines.

  /**
   * A heading at a line start (one to six hashes, whitespace up to `m`, text
   * up to the line end at `e`) is put between two blank-line markers, and the
   * scan goes on after it.
   */
  lemma WrapHeadingLine(s: string, n: nat, m: nat, e: nat)
    requires 1 <= n <= 6 && n < m <= e <= |s|
    requires forall k :: 0 <= k < n ==> s[k] == '#'
    requires forall k :: n <= k < m ==> IsSpace(s[k])
    requires m == |s| || !IsSpace(s[m])
    requires forall k :: m <= k < e ==> !IsLineTerminator(s[k])
    requires e == |s| || IsLineTerminator(s[e])
    ensures Wrap(s, true) == "\n\n" + s[..e] + "\n\n" + Wrap(s[e..], false)
  {
    HeadingEndAt(s, n, m, e);
  }

  /** The heading expression matches such a line, up to its line end. */
  lemma HeadingEndAt(s: string, n: nat, m: nat, e: nat)
    requires 1 <= n <= 6 && n < m <= e <= |s|
    requires forall k :: 0 <= k < n ==> s[k] == '#'
    requires forall k :: n <= k < m ==> IsSpace(s[k])
    requires m == |s| || !IsSpace(s[m])
    requires forall k :: m <= k < e ==> !IsLineTerminator(s[k])
    requires e == |s| || IsLineTerminator(s[e])
    ensures HeadingEnd(s) == Some(e)
  {
    RunIs(s, 0, IsHash, n);
    RunIs(s, n, IsSpace, m - n);
    RunIs(s, m, OnLine, e - m);
  }

  /**
   * Every heading match has that shape: one to six hashes, whitespace up to
   * `m` (which may run over line ends), then the rest of the line `m` is on.
   */
  lemma HeadingEndShape(s: string) returns (n: nat, m: nat)
    requires HeadingEnd(s).Some?
    ensures var e := HeadingEnd(s).value;
      && 1 <= n <= 6 && n < m <= e <= |s|
      && (forall k :: 0 <= k < n ==> s[k] == '#')
      && (forall k :: n <= k < m ==> IsSpace(s[k])) && (m == |s| || !IsSpace(s[m]))
      && (forall k :: m <= k < e ==> !IsLineTerminator(s[k])) && (e == |s| || IsLineTerminator(s[e]))
  {
    n := Run(s, 0, IsHash);
    m := n + Run(s, n, IsSpace);
  }

  /**
   * A run of hashes that is empty, longer than six, or not followed by
   * whitespace never matches.
   */
  lemma HeadingEndNone(s: string, n: nat)
    requires n <= |s| && forall k :: 0 <= k < n ==> s[k] == '#'
    requires n == |s| || s[n] != '#'
    requires n == 0 || n > 6 || n == |s| || !IsSpace(s[n])
    ensures HeadingEnd(s).None?
  {
    RunIs(s, 0, IsHash, n);
  }

  /** Seven hashes at a line start are not a heading: the scan moves on one character. */
  lemma WrapSevenHashes(s: string)
    requires 7 <= |s| && forall k :: 0 <= k < 7 ==> s[k] == '#'
    ensures Wrap(s, true) == [s[0]] + Wrap(s[1..], false)
  {
  }

  /** Text without a hash passes through unchanged. */
  lemma {:induction false} WrapNoHash(s: string, atLineStart: bool)
    requires '#' !in s
    decreases |s|
    ensures Wrap(s, atLineStart) == s
  {
    if s != [] {
      assert '#' !in s[1..];
      WrapNoHash(s[1..], IsLineTerminator(s[0]));
      assert s == [s[0]] + s[1..];
    }
  }

  /** No line terminator. */
  predicate OneLine(l: string) {
    forall k :: 0 <= k < |l| ==> !IsLineTerminator(l[k])
  }

  /**
   * A heading line whose text stays on it: one to six hashes, whitespace that
   * is no line terminator, and then some text.
   */
  predicate HeadingLine(l: string) {
    var n := Run(l, 0, IsHash);
    1 <= n <= 6 && n < n + Run(l, n, IsSpace) < |l| && OneLine(l)
  }

  /** A line that does not start with a hash. */
  predicate PlainLine(l: string) {
    OneLine(l) && (l == [] || l[0] != '#')
  }

  /** What the wrapping step is meant to make of a line. */
  function Wrapped(l: string): string {
    if HeadingLine(l) then "\n\n" + l + "\n\n" else l
  }

  /** Inside a line the scan is never at a line start, so the line passes unchanged. */
  lemma {:induction false} WrapOnLine(x: string, y: string)
    requires OneLine(x)
    decreases |x|
    ensures Wrap(x + y, false) == x + Wrap(y, false)
  {
    if x != [] {
      assert (x + y)[0] == x[0] && (x + y)[1..] == x[1..] + y;
      OneLineTail(x);
      WrapOnLine(x[1..], y);
      assert x == [x[0]] + x[1..];
    } else {
      assert x + y == y;
    }
  }

  /** The heading expression matches a heading line up to its end, and nothing of the next line. */
  lemma HeadingLineEnd(l: string, t: string)
    requires HeadingLine(l)
    ensures HeadingEnd(l + t) == Some(|l|) || (t != [] && !IsLineTerminator(t[0]))
  {
    var s := l + t;
    var n := Run(l, 0, IsHash);
    var m := n + Run(l, n, IsSpace);
    if t == [] || IsLineTerminator(t[0]) {
      assert forall k :: 0 <= k < |l| ==> s[k] == l[k];
      HeadingEndAt(s, n, m, |l|);
    }
  }

  /** One line and the line feed after it, at a line start. */
  lemma WrapLineStep(l: string, t: string)
    requires HeadingLine(l) || PlainLine(l)
    ensures Wrap(l + ("\n" + t), true) == Wrapped(l) + "\n" + Wrap(t, true)
  {
    var y := "\n" + t;
    assert y[0] == '\n' && y[1..] == t;
    assert Wrap(y, false) == "\n" + Wrap(t, true);
    if HeadingLine(l) {
      WrapHeadingStep(l, y);
    } else {
      WrapPlainStep(l, y);
    }
  }

  lemma WrapHeadingStep(l: string, y: string)
    requires HeadingLine(l) && y != [] && y[0] == '\n'
    ensures Wrap(l + y, true) == "\n\n" + l + "\n\n" + Wrap(y, false)
  {
    HeadingLineEnd(l, y);
    var s := l + y;
    assert s[..|l|] == l && s[|l|..] == y;
  }

  lemma WrapPlainStep(l: string, y: string)
    requires PlainLine(l) && y != [] && y[0] == '\n'
    ensures Wrap(l + y, true) == l + Wrap(y, false)
  {
    if l == [] {
      assert l + y == y;
      WrapNotHash(y, true);
      WrapNotHash(y, false);
    } else {
      var s := l + y;
      WrapNotHash(s, true);
      assert s[0] == l[0] && s[1..] == l[1..] + y;
      OneLineTail(l);
      WrapOnLine(l[1..], y);
      assert l == [l[0]] + l[1..];
    }
  }

  /** Where the text does not start with a hash, the scan moves on one character. */
  lemma WrapNotHash(s: string, atLineStart: bool)
    requires s != [] && s[0] != '#'
    ensures Wrap(s, atLineStart) == [s[0]] + Wrap(s[1..], IsLineTerminator(s[0]))
  {
    assert HeadingEnd(s).None?;
  }

  lemma OneLineTail(l: string)
    requires OneLine(l) && l != []
    ensures OneLine(l[1..])
  {
    forall k | 0 <= k < |l[1..]| ensures !IsLineTerminator(l[1..][k]) {
      assert l[1..][k] == l[k + 1];
    }
  }

  /** The last line, at a line start. */
  lemma WrapLast(l: string)
    requires HeadingLine(l) || PlainLine(l)
    ensures Wrap(l, true) == Wrapped(l)
  {
    if HeadingLine(l) {
      WrapLastHeading(l);
    } else if l != [] {
      WrapLastPlain(l);
    }
  }

  lemma WrapLastHeading(l: string)
    requires HeadingLine(l)
    ensures Wrap(l, true) == "\n\n" + l + "\n\n"
  {
    HeadingLineEnd(l, []);
    assert l + [] == l;
    assert l[..|l|] == l && l[|l|..] == [];
  }

  lemma WrapLastPlain(l: string)
    requires PlainLine(l) && l != []
    ensures Wrap(l, true) == l
  {
    WrapNotHash(l, true);
    OneLineTail(l);
    WrapOnLine(l[1..], []);
    assert l[1..] + [] == l[1..];
    assert l == [l[0]] + l[1..];
  }

  /**
   * When every heading line keeps its text on its own line and every other
   * line does not start with a hash, the wrapping step puts each heading line,
   * and nothing else, between blank-line markers.
   */
  lemma {:induction false} WrapLines(lines: seq<string>)
    requires |lines| >= 1
    requires forall k :: 0 <= k < |lines| ==> HeadingLine(lines[k]) || PlainLine(lines[k])
    decreases |lines|
    ensures Wrap(Join(lines, "\n"), true) == Join(seq(|lines|, k requires 0 <= k < |lines| => Wrapped(lines[k])), "\n")
  {
    var w := seq(|lines|, k requires 0 <= k < |lines| => Wrapped(lines[k]));
    if |lines| == 1 {
      WrapLast(lines[0]);
    } else {
      var rest := lines[1..];
      var w' := seq(|rest|, k requires 0 <= k < |rest| => Wrapped(rest[k]));
      WrapLines(rest);
      assert w[1..] == w' && w[0] == Wrapped(lines[0]);
      WrapLineStep(lines[0], Join(rest, "\n"));
      JoinFirst(lines, "\n");
      JoinGlue(lines, w, Wrap(Join(lines, "\n"), true), Wrap(Join(rest, "\n"), true));
    }
  }

  lemma JoinFirst(lines: seq<string>, sep: string)
    requires |lines| >= 2
    ensures Join(lines, sep) == lines[0] + (sep + Join(lines[1..], sep))
  {
  }

  /** The sequence algebra of one step of `WrapLines`, kept apart from `Wrap`. */
  lemma JoinGlue(lines: seq<string>, w: seq<string>, a: string, b: string)
    requires |lines| >= 2 && |w| == |lines|
    requires a == w[0] + "\n" + b && b == Join(w[1..], "\n")
    ensures a == Join(w, "\n")
  {
  }

  /**
   * A line of hashes alone: its `\s+` runs over the line end, so the heading
   * below is taken into the same match and the two lines are wrapped
   * together, with no blank line between them.
   */
  lemma WrapAcrossLines()
    ensures Wrap("#\n## T", true) == "\n\n#\n## T\n\n"
  {
    var s := "#\n## T";
    HeadingEndAt(s, 1, 2, 6);
    assert s[..6] == s && s[6..] == [];
  }

  // Step 5: runs of line feeds collapsed.

  lemma NoTripleCons(c: char, rest: string)
    requires c != '\n' && NoTriple(rest)
    ensures NoTriple([c] + rest)
  {
    var s := [c] + rest;
    forall i | 0 <= i < |s| - 2 ensures !(s[i] == '\n' && s[i + 1] == '\n' && s[i + 2] == '\n') {
      if i > 0 {
        assert s[i] == rest[i - 1] && s[i + 1] == rest[i] && s[i + 2] == rest[i + 1];
      }
    }
  }

  lemma NoTripleAfterRun(seg: string, rest: string)
    requires |seg| <= 2 && NoTriple(rest) && (rest == [] || rest[0] != '\n')
    ensures NoTriple(seg + rest)
  {
    var s := seg + rest;
    forall i | 0 <= i < |s| - 2 ensures !(s[i] == '\n' && s[i + 1] == '\n' && s[i + 2] == '\n') {
      if i >= |seg| {
        assert s[i] == rest[i - |seg|] && s[i + 1] == rest[i - |seg| + 1] && s[i + 2] == rest[i - |seg| + 2];
      } else if i + 1 == |seg| {
        assert s[i + 1] == rest[0];
      } else {
        assert s[i + 2] == rest[0];
      }
    }
  }

  lemma NoTripleSuffix(s: string, n: nat)
    requires n <= |s| && NoTriple(s)
    ensures NoTriple(s[n..])
  {
    forall i | 0 <= i < |s[n..]| - 2 ensures !(s[n..][i] == '\n' && s[n..][i + 1] == '\n' && s[n..][i + 2] == '\n') {
      assert s[n..][i] == s[n + i] && s[n..][i + 1] == s[n + i + 1] && s[n..][i + 2] == s[n + i + 2];
    }
  }

  /** After the collapse no three line feeds are left in a row. */
  lemma {:induction false} CollapseNoTriple(s: string)
    decreases |s|
    ensures NoTriple(Collapse(s))
  {
    if s == [] {
    } else if s[0] == '\n' {
      var n := Run(s, 0, IsNewline);
      CollapseNoTriple(s[n..]);
      NoTripleAfterRun(if n >= 3 then "\n\n" else s[..n], Collapse(s[n..]));
    } else {
      CollapseNoTriple(s[1..]);
      NoTripleCons(s[0], Collapse(s[1..]));
    }
  }

  lemma NoTripleRun(s: string)
    requires NoTriple(s)
    ensures Run(s, 0, IsNewline) <= 2
  {
    var n := Run(s, 0, IsNewline);
    if |s| >= 3 {
      assert !(s[0] == '\n' && s[1] == '\n' && s[2] == '\n');
    }
  }

  /** Text without three line feeds in a row is left alone. */
  lemma {:induction false} CollapseFixed(s: string)
    requires NoTriple(s)
    decreases |s|
    ensures Collapse(s) == s
  {
    if s == [] {
    } else if s[0] == '\n' {
      var n := Run(s, 0, IsNewline);
      NoTripleRun(s);
      NoTripleSuffix(s, n);
      CollapseFixed(s[n..]);
      assert s == s[..n] + s[n..];
    } else {
      NoTripleSuffix(s, 1);
      CollapseFixed(s[1..]);
      assert s == [s[0]] + s[1..];
    }
  }

  /** Collapsing twice changes nothing more. */
  lemma CollapseIdempotent(s: string)
    ensures Collapse(Collapse(s)) == Collapse(s)
  {
    CollapseNoTriple(s);
    CollapseFixed(Collapse(s));
  }

  /** Text that ends in something other than a line feed collapses on its own. */
  lemma {:induction false} CollapseAppend(x: string, z: string)
    requires x == [] || x[|x| - 1] != '\n'
    decreases |x|
    ensures Collapse(x + z) == Collapse(x) + Collapse(z)
  {
    if x == [] {
      assert x + z == z;
    } else if x[0] == '\n' {
      var n := Run(x, 0, IsNewline);
      RunBefore(x);
      CollapseAppend(x[n..], z);
      CollapseAppendRun(x, z, n);
    } else {
      CollapseAppend(x[1..], z);
      CollapseAppendChar(x, z);
    }
  }

  lemma RunBefore(x: string)
    requires x != [] && x[|x| - 1] != '\n'
    ensures Run(x, 0, IsNewline) < |x|
  {
    var n := Run(x, 0, IsNewline);
    assert forall k :: 0 <= k < n ==> IsNewline(x[k]);
  }

  lemma CollapseAppendRun(x: string, z: string, n: nat)
    requires 0 < n < |x| && x[0] == '\n' && n == Run(x, 0, IsNewline)
    requires Collapse(x[n..] + z) == Collapse(x[n..]) + Collapse(z)
    ensures Collapse(x + z) == Collapse(x) + Collapse(z)
  {
    var seg := if n >= 3 then "\n\n" else x[..n];
    CollapseStep(x, n);
    CollapseStepAppend(x, z, n);
    Regroup(Collapse(x), Collapse(x + z), Collapse(x[n..]), Collapse(x[n..] + z), Collapse(z), seg);
  }

  lemma CollapseStepAppend(x: string, z: string, n: nat)
    requires 0 < n < |x| && x[0] == '\n' && n == Run(x, 0, IsNewline)
    ensures Collapse(x + z) == (if n >= 3 then "\n\n" else x[..n]) + Collapse(x[n..] + z)
  {
    RunPrefix(x, z, n);
    CollapseStep(x + z, n);
    assert (x + z)[n..] == x[n..] + z;
    assert (x + z)[..n] == x[..n];
  }

  lemma Regroup(a: string, b: string, c: string, d: string, e: string, seg: string)
    requires a == seg + c && b == seg + d && d == c + e
    ensures b == a + e
  {
  }

  lemma RunPrefix(x: string, z: string, n: nat)
    requires n == Run(x, 0, IsNewline) && n < |x|
    ensures Run(x + z, 0, IsNewline) == n
  {
    forall k | 0 <= k < n ensures IsNewline((x + z)[k]) {
      assert (x + z)[k] == x[k];
    }
    assert (x + z)[n] == x[n];
    RunIs(x + z, 0, IsNewline, n);
  }

  /** One step of the collapse over a leading run of `n` line feeds. */
  lemma CollapseStep(s: string, n: nat)
    requires s != [] && s[0] == '\n' && n == Run(s, 0, IsNewline)
    ensures Collapse(s) == (if n >= 3 then "\n\n" else s[..n]) + Collapse(s[n..])
  {
  }

  lemma CollapseAppendChar(x: string, z: string)
    requires x != [] && x[0] != '\n'
    requires Collapse(x[1..] + z) == Collapse(x[1..]) + Collapse(z)
    ensures Collapse(x + z) == Collapse(x) + Collapse(z)
  {
    assert (x + z)[1..] == x[1..] + z;
    assert (x + z)[0] == x[0];
  }

  /** A run of `n` line feeds before text that does not start with one becomes two when `n >= 3`. */
  lemma CollapseRun(n: nat, y: string)
    requires y == [] || y[0] != '\n'
    ensures Collapse(Newlines(n) + y) == Newlines(if n >= 3 then 2 else n) + Collapse(y)
  {
    var s := Newlines(n) + y;
    if n == 0 {
      assert s == y;
    } else {
      RunIs(s, 0, IsNewline, n);
      assert s[n..] == y;
      assert s[..n] == Newlines(n);
      assert Newlines(2) == "\n\n";
    }
  }

  /**
   * A heading that the wrapping step put between line feeds, with a line
   * feed of the text on each side, ends up with exactly one blank line on
   * each side.
   */
  lemma CollapseAroundHeading(x: string, h: string, y: string)
    requires x != [] && x[|x| - 1] != '\n'
    requires h != [] && h[0] != '\n' && h[|h| - 1] != '\n' && NoTriple(h)
    requires y == [] || y[0] != '\n'
    ensures Collapse(x + Newlines(3) + h + Newlines(3) + y) == Collapse(x) + Newlines(2) + h + Newlines(2) + Collapse(y)
  {
    var a := Newlines(3) + y;
    CollapseRun(3, y);
    var b := h + a;
    CollapseAppend(h, a);
    CollapseFixed(h);
    assert Collapse(b) == h + (Newlines(2) + Collapse(y));
    var c := Newlines(3) + b;
    CollapseRun(3, b);
    CollapseAppend(x, c);
    assert Collapse(x + c) == Collapse(x) + (Newlines(2) + (h + (Newlines(2) + Collapse(y))));
    Assoc5(x, Newlines(3), h, Newlines(3), y);
    Assoc5(Collapse(x), Newlines(2), h, Newlines(2), Collapse(y));
  }

  lemma Assoc5(a: string, b: string, c: string, d: string, e: string)
    ensures a + b + c + d + e == a + (b + (c + (d + e)))
  {
  }

  // The structurer's chain.

  lemma NoTripleSlice(s: string, i: nat, j: nat)
    requires i <= j <= |s| && NoTriple(s)
    ensures NoTriple(s[i..j])
  {
    var t := s[i..j];
    forall k | 0 <= k < |t| - 2 ensures !(t[k] == '\n' && t[k + 1] == '\n' && t[k + 2] == '\n') {
      assert t[k] == s[i + k] && t[k + 1] == s[i + k + 1] && t[k + 2] == s[i + k + 2];
    }
  }

  /** Trimming text without three line feeds in a row leaves none. */
  lemma TrimNoTriple(t: string)
    requires NoTriple(t)
    ensures NoTriple(Trim(t))
  {
    var i := TrimSlice(t);
    NoTripleSlice(t, i, i + |Trim(t)|);
  }

  /** The structurer's answer has no whitespace at either end and no three line feeds in a row. */
  lemma StructureClean(text: string)
    ensures var r := Structure(text); r == [] || (!IsSpace(r[0]) && !IsSpace(r[|r| - 1]))
    ensures NoTriple(Structure(text))
  {
    CollapseNoTriple(Wrap(StripBold(Bullets(HashSpace(text, true), true)), true));
    TrimNoTriple(Tidy(text));
  }

  /**
   * The structurer leaves a line of hashes alone and the heading below it
   * together: no blank line is put between them.
   */
  lemma StructureAcrossLines(s: string)
    requires s == "#\n## T"
    ensures Structure(s) == s
  {
    TidyOf(s);
    PaddedOf(s);
    TrimBlankLines(s);
  }

  lemma TidyOf(s: string)
    requires s == "#\n## T"
    ensures Tidy(s) == "\n\n#\n## T\n\n"
  {
    TidyAcross();
  }

  lemma PaddedOf(s: string)
    requires s == "#\n## T"
    ensures "\n\n#\n## T\n\n" == "\n\n" + s + "\n\n"
  {
  }

  lemma TidyAcross()
    ensures Tidy("#\n## T") == "\n\n#\n## T\n\n"
  {
    var s := "#\n## T";
    HashSpaceAcross(s);
    assert '*' !in s;
    BulletsNoStar(s, true);
    StripBoldFixed(s);
    WrapAcrossLines();
    NoTripleAcross();
    CollapseFixed("\n\n#\n## T\n\n");
  }

  lemma NoTripleAcross()
    ensures NoTriple("\n\n#\n## T\n\n")
  {
  }

  /** Blank-line markers on either side of trimmed text are trimmed away. */
  lemma TrimBlankLines(x: string)
    requires x != [] && !IsSpace(x[0]) && !IsSpace(x[|x| - 1])
    ensures Trim("\n\n" + x + "\n\n") == x
  {
    var w := "\n\n" + x + "\n\n";
    var v := x + "\n\n";
    assert w[1..][1..] == v;
    assert TrimStart(w) == TrimStart(v) == v;
    assert v[..|v| - 1][..|v| - 2] == x;
    assert TrimEnd(v) == TrimEnd(x) == x;
  }

  lemma HashSpaceAcross(s: string)
    requires s == "#\n## T"
    ensures HashSpace(s, true) == s
  {
    var t := s[1..];
    var u := t[1..];
    assert s[..1] == "#" && t[0] == '\n';
    HashSpaceOther(s, 1);
    HashSpaceHeading(u);
    assert HashSpace(t, false) == "\n" + HashSpace(u, true);
  }

  /** The second line of the example: two hashes, a space and a letter. */
  lemma HashSpaceHeading(u: string)
    requires u == "## T"
    ensures HashSpace(u, true) == u
  {
    HashSpaceOther(u, 2);
    HashSpaceNoHash(u[2..], false);
  }
}
