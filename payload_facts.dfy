/**
 * The clean-up chain runs over the whole answer, diagram fences included: a
 * payload line that starts with a hash and a letter or digit (a colour such
 * as `#abc`) is read as a heading. It gets a space after the hash and a blank
 * line on either side, and the diagram then renders with that altered line.
 */
module PayloadFacts {
  import opened Text
  import opened Normalise
  import opened NormaliseFacts
  import opened Fences
  import opened Markdown
  import opened RenderFacts

  /** Text without a hash before `b` passes through the first step unchanged. */
  lemma {:induction false} HashSpacePrefix(a: string, b: string, atLineStart: bool)
    requires '#' !in a
    decreases |a|
    ensures HashSpace(a + b, atLineStart) == a + HashSpace(b, if a == [] then atLineStart else IsLineTerminator(a[|a| - 1]))
  {
    if a != [] {
      var t := a[1..];
      HashSpaceStep(a, b, atLineStart);
      assert '#' !in t;
      HashSpacePrefix(t, b, IsLineTerminator(a[0]));
      ConsRegroup(a, HashSpace(b, if t == [] then IsLineTerminator(a[0]) else IsLineTerminator(t[|t| - 1])));
    } else {
      assert a + b == b;
    }
  }

  /** Text without a hash before `b` passes through the wrapping step unchanged. */
  lemma {:induction false} WrapPrefix(a: string, b: string, atLineStart: bool)
    requires '#' !in a
    decreases |a|
    ensures Wrap(a + b, atLineStart) == a + Wrap(b, if a == [] then atLineStart else IsLineTerminator(a[|a| - 1]))
  {
    if a != [] {
      var t := a[1..];
      WrapStep(a, b, atLineStart);
      assert '#' !in t;
      WrapPrefix(t, b, IsLineTerminator(a[0]));
      ConsRegroup(a, Wrap(b, if t == [] then IsLineTerminator(a[0]) else IsLineTerminator(t[|t| - 1])));
    } else {
      assert a + b == b;
    }
  }

  lemma HashSpaceStep(a: string, b: string, atLineStart: bool)
    requires a != [] && a[0] != '#'
    ensures HashSpace(a + b, atLineStart) == [a[0]] + HashSpace(a[1..] + b, IsLineTerminator(a[0]))
  {
    assert (a + b)[0] == a[0] && (a + b)[1..] == a[1..] + b;
  }

  lemma ConsRegroup(a: string, z: string)
    requires a != []
    ensures [a[0]] + (a[1..] + z) == a + z
    ensures (if a[1..] == [] then a[0] else a[1..][|a[1..]| - 1]) == a[|a| - 1]
  {
    assert a == [a[0]] + a[1..];
  }

  lemma WrapStep(a: string, b: string, atLineStart: bool)
    requires a != [] && a[0] != '#'
    ensures Wrap(a + b, atLineStart) == [a[0]] + Wrap(a[1..] + b, IsLineTerminator(a[0]))
  {
    assert (a + b)[0] == a[0] && (a + b)[1..] == a[1..] + b;
    assert Run(a + b, 0, IsHash) == 0;
  }

  /** What a payload line may hold: a letter or digit first, then no hash, asterisk, backtick or line end. */
  predicate ColourText(w: string) {
    && w != [] && IsAlnum(w[0])
    && forall k :: 0 <= k < |w| ==> w[k] != '#' && w[k] != '*' && w[k] != '`' && !IsLineTerminator(w[k])
  }

  /** Step 1 on the line itself: the hash gets a space. */
  lemma LineSpaced(w: string, y: string)
    requires ColourText(w) && '#' !in y
    ensures HashSpace("#" + w + y, true) == "# " + w + y
  {
    var z := w + y;
    LiteralGlue(w, y);
    var s := ['#'] + z;
    assert s[..1] == "#" && s[1..] == z && s[1] == w[0];
    HashSpaceLine(s, 1);
    assert '#' !in z;
    HashSpaceNoHash(z, false);
  }

  lemma LiteralGlue(w: string, y: string)
    ensures "#" + w + y == ['#'] + (w + y)
    ensures "#" + " " + (w + y) == "# " + w + y
  {
  }

  /** Step 1: a line of a hash and a colour, after a line end, gets a space after the hash. */
  lemma HashLine(x: string, w: string, y: string)
    requires '#' !in x && x != [] && x[|x| - 1] == '\n'
    requires ColourText(w) && '#' !in y
    ensures HashSpace(x + ("#" + w + y), true) == x + ("# " + w) + y
  {
    HashSpacePrefix(x, "#" + w + y, true);
    LineSpaced(w, y);
  }

  /** Step 4 on the line itself: it is wrapped in blank-line markers. */
  lemma LineWrapped(h: string, y: string)
    requires |h| >= 3 && h[0] == '#' && h[1] == ' ' && !IsSpace(h[2])
    requires forall k :: 2 <= k < |h| ==> !IsLineTerminator(h[k])
    requires '#' !in y && y != [] && y[0] == '\n'
    ensures Wrap(h + y, true) == Newlines(2) + h + Newlines(2) + y
  {
    var s := h + y;
    assert s[..|h|] == h && s[|h|..] == y;
    WrapHeadingLine(s, 1, 2, |h|);
    WrapNoHash(y, false);
    assert Newlines(2) == "\n\n";
  }

  /** Step 4: the spaced line, between two line ends, is wrapped in blank-line markers. */
  lemma WrapLine(x: string, h: string, y: string)
    requires '#' !in x && x != [] && x[|x| - 1] == '\n'
    requires |h| >= 3 && h[0] == '#' && h[1] == ' ' && !IsSpace(h[2])
    requires forall k :: 2 <= k < |h| ==> !IsLineTerminator(h[k])
    requires '#' !in y && y != [] && y[0] == '\n'
    ensures Wrap(x + h + y, true) == x + Newlines(2) + h + Newlines(2) + y
  {
    var s := h + y;
    assert x + h + y == x + s;
    WrapPrefix(x, s, true);
    LineWrapped(h, y);
    PrefixGlue(x, h, y, Newlines(2), Wrap(x + s, true), Wrap(s, true));
  }

  lemma PrefixGlue(x: string, h: string, y: string, n: string, a: string, b: string)
    requires a == x + b && b == n + h + n + y
    ensures a == x + n + h + n + y
  {
    Assoc5(x, n, h, n, y);
  }

  /** Step 5 and the trim: the three line ends on each side of the line become two. */
  lemma CollapseLine(x: string, h: string, y: string)
    requires x != [] && x[|x| - 1] != '\n' && !IsSpace(x[0]) && NoTriple(x)
    requires h != [] && h[0] != '\n' && h[|h| - 1] != '\n' && NoTriple(h)
    requires y != [] && y[0] != '\n' && !IsSpace(y[|y| - 1]) && NoTriple(y)
    ensures Trim(Collapse(x + Newlines(3) + h + Newlines(3) + y)) == x + Newlines(2) + h + Newlines(2) + y
  {
    CollapseAroundHeading(x, h, y);
    CollapseFixed(x);
    CollapseFixed(y);
    var r := x + Newlines(2) + h + Newlines(2) + y;
    assert r[0] == x[0] && r[|r| - 1] == y[|y| - 1];
    TrimTrimmed(r);
  }

  lemma ColourLine(w: string)
    requires ColourText(w)
    ensures var h := "# " + w; |h| >= 3 && h[0] == '#' && h[1] == ' ' && !IsSpace(h[2]) && h[|h| - 1] != '\n'
    ensures var h := "# " + w; (forall k :: 2 <= k < |h| ==> !IsLineTerminator(h[k])) && NoTriple(h) && '*' !in h && '`' !in h
  {
    var h := "# " + w;
    assert forall k :: 2 <= k < |h| ==> h[k] == w[k - 2];
  }

  /** The fence's own characters: no hash or asterisk, and no line end or whitespace at the edges. */
  lemma FenceMarks()
    ensures '#' !in Open && '*' !in Open && Open[0] == '`' && Open[|Open| - 1] == 'g' && NoTriple(Open)
    ensures '#' !in Close && '*' !in Close && Close[0] == '`' && Close[|Close| - 1] == '`' && NoTriple(Close)
  {
  }

  /**
   * A line of a hash and a colour between two lines without hashes or
   * asterisks goes through the structurer as a heading.
   */
  lemma ChainLine(a: string, w: string, c: string)
    requires a != [] && '#' !in a && '*' !in a && !IsSpace(a[0]) && a[|a| - 1] != '\n' && NoTriple(a)
    requires c != [] && '#' !in c && '*' !in c && c[0] != '\n' && !IsSpace(c[|c| - 1]) && NoTriple(c)
    requires ColourText(w)
    ensures Structure(a + ("\n" + ("#" + w + ("\n" + c)))) == a + Newlines(2) + ("# " + w) + Newlines(2) + c
  {
    ColourLine(w);
    var x := a + "\n";
    var y := "\n" + c;
    var h := "# " + w;
    Regroup4(a, "\n", "#" + w + y);
    HashLine(x, w, y);
    var t := x + h + y;
    assert '*' !in t;
    BulletsNoStar(t, true);
    StripBoldFixed(t);
    WrapLine(x, h, y);
    Regroup6(a, h, c);
    CollapseLine(a, h, c);
  }

  lemma Regroup4(a: string, b: string, c: string)
    ensures a + (b + c) == (a + b) + c
  {
  }

  lemma Regroup6(a: string, h: string, c: string)
    ensures (a + "\n") + Newlines(2) + h + Newlines(2) + ("\n" + c) == a + Newlines(3) + h + Newlines(3) + c
  {
    assert Newlines(2) == "\n\n" && Newlines(3) == "\n\n\n";
  }

  /**
   * A fence whose one payload line is `#` and a colour comes out of the
   * structurer with a space after the hash and a blank line on either side.
   */
  lemma PayloadHeading(w: string)
    requires ColourText(w)
    ensures Structure(Open + "\n#" + w + "\n" + Close) == Open + "\n\n# " + w + "\n\n" + Close
  {
    FenceMarks();
    ChainLine(Open, w, Close);
    SameText(Open, w, Close);
  }

  lemma SameText(a: string, w: string, c: string)
    ensures a + "\n#" + w + "\n" + c == a + ("\n" + ("#" + w + ("\n" + c)))
    ensures a + Newlines(2) + ("# " + w) + Newlines(2) + c == a + "\n\n# " + w + "\n\n" + c
  {
    assert Newlines(2) == "\n\n";
  }

  /** A fence with a payload free of backticks. */
  lemma FenceAround(m: string)
    requires '`' !in m
    ensures IsFence(Open + m + Close) && (Open + m + Close)[6..|Open + m + Close| - 3] == m
  {
    var f := Open + m + Close;
    assert f[..6] == Open;
    assert f[|f| - 3..|f|] == Close;
    forall k | 6 <= k < |f| - 3 ensures !OccursAt(f, Close, k) {
      assert f[k] == m[k - 6];
    }
    assert f[6..|f| - 3] == m;
  }

  /**
   * The structured fence still renders as one diagram, but its payload is the
   * altered line: a newline, the hash, a space, the colour and two newlines.
   */
  lemma PayloadRendered(w: string)
    requires ColourText(w)
    ensures IsFence(Structure(Open + "\n#" + w + "\n" + Close))
    ensures RenderPart(Structure(Open + "\n#" + w + "\n" + Close)) == [Svg("\n# " + w + "\n\n")]
  {
    PayloadHeading(w);
    RenderedFence(w);
  }

  lemma RenderedFence(w: string)
    requires ColourText(w)
    ensures IsFence(Open + "\n\n# " + w + "\n\n" + Close)
    ensures RenderPart(Open + "\n\n# " + w + "\n\n" + Close) == [Svg("\n# " + w + "\n\n")]
  {
    ColourLine(w);
    var m := "\n\n# " + w + "\n\n";
    assert '`' !in m;
    assert m == "\n" + ("\n# " + w + "\n\n");
    assert Open + "\n\n# " + w + "\n\n" + Close == Open + m + Close;
    FenceAround(m);
    FenceRenders(Open + m + Close);
    DropFirst("\n# " + w + "\n\n", m);
  }

  lemma DropFirst(rest: string, m: string)
    requires m == "\n" + rest
    ensures DropNewline(m) == rest
  {
    assert m[1..] == rest;
  }
}
