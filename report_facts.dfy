/**
 * What the report chain's last three steps promise: a meta-title line goes
 * away but its line end stays, and no "Here is the ... report" line is left
 * anywhere in the report.
 */
module ReportFacts {
  import opened Text
  import opened Normalise

  // Meta-title lines.

  /** A character that folds to a lower-case letter is a letter: neither a hash nor whitespace. */
  lemma FoldLetter(c: char)
    requires 'a' <= Fold(c) <= 'z'
    ensures c != '#' && !IsSpace(c) && !IsLineTerminator(c)
  {
  }

  /**
   * A title line at a line start (hashes up to `n`, whitespace up to `m`,
   * `word` in any case, the rest of the line up to `e`) is deleted, and the
   * line end after it is kept.
   */
  lemma DropTitleLine(s: string, word: string, n: nat, m: nat, e: nat)
    requires word != [] && 'a' <= word[0] <= 'z'
    requires 1 <= n <= m && m + |word| <= e <= |s|
    requires forall k :: 0 <= k < n ==> s[k] == '#'
    requires forall k :: n <= k < m ==> IsSpace(s[k])
    requires MatchesAt(s, word, m)
    requires forall k :: m + |word| <= k < e ==> !IsLineTerminator(s[k])
    requires e == |s| || IsLineTerminator(s[e])
    ensures DropTitle(s, true, word) == DropTitle(s[e..], false, word)
    ensures e < |s| ==> DropTitle(s, true, word) == [s[e]] + DropTitle(s[e + 1..], true, word)
  {
    TitleEndIs(s, word, n, m, e);
    if e < |s| {
      DropTitleBreak(s[e..], word);
      assert s[e..][1..] == s[e + 1..];
    }
  }

  lemma TitleEndIs(s: string, word: string, n: nat, m: nat, e: nat)
    requires word != [] && 'a' <= word[0] <= 'z'
    requires 1 <= n <= m && m + |word| <= e <= |s|
    requires forall k :: 0 <= k < n ==> s[k] == '#'
    requires forall k :: n <= k < m ==> IsSpace(s[k])
    requires MatchesAt(s, word, m)
    requires forall k :: m + |word| <= k < e ==> !IsLineTerminator(s[k])
    requires e == |s| || IsLineTerminator(s[e])
    ensures TitleEnd(s, word) == Some(e)
  {
    assert Fold(s[m + 0]) == word[0];
    FoldLetter(s[m]);
    RunIs(s, 0, IsHash, n);
    RunIs(s, n, IsSpace, m - n);
    RunIs(s, m + |word|, OnLine, e - (m + |word|));
    TitleEndFrom(s, word, n, m, e);
  }

  lemma TitleEndFrom(s: string, word: string, n: nat, m: nat, e: nat)
    requires 1 <= n && Run(s, 0, IsHash) == n && n + Run(s, n, IsSpace) == m
    requires MatchesAt(s, word, m) && m + |word| + Run(s, m + |word|, OnLine) == e
    ensures TitleEnd(s, word) == Some(e)
  {
  }

  /**
   * Every title match has that shape: a non-empty run of hashes up to `n`,
   * whitespace up to `m` (which may run over line ends), `word` in any case,
   * and then the rest of the line.
   */
  lemma TitleEndShape(s: string, word: string) returns (n: nat, m: nat)
    requires TitleEnd(s, word).Some?
    ensures var e := TitleEnd(s, word).value;
      && 1 <= n <= m && m + |word| <= e <= |s|
      && (forall k :: 0 <= k < n ==> s[k] == '#') && (n == |s| || s[n] != '#')
      && (forall k :: n <= k < m ==> IsSpace(s[k])) && (m == |s| || !IsSpace(s[m]))
      && MatchesAt(s, word, m)
      && (forall k :: m + |word| <= k < e ==> !IsLineTerminator(s[k]))
      && (e == |s| || IsLineTerminator(s[e]))
  {
    n := Run(s, 0, IsHash);
    m := n + Run(s, n, IsSpace);
  }

  /**
   * The hash run (up to `n`) and the whitespace run after it (up to `m`)
   * decide the match: no hash, or not the word after the whitespace, and the
   * line is no title.
   */
  lemma TitleEndNone(s: string, word: string, n: nat, m: nat)
    requires n <= m <= |s|
    requires forall k :: 0 <= k < n ==> s[k] == '#'
    requires n == |s| || s[n] != '#'
    requires forall k :: n <= k < m ==> IsSpace(s[k])
    requires m == |s| || !IsSpace(s[m])
    requires n == 0 || !MatchesAt(s, word, m)
    ensures TitleEnd(s, word).None?
  {
    RunIs(s, 0, IsHash, n);
    if n > 0 {
      assert !IsSpace('#');
      RunIs(s, n, IsSpace, m - n);
    }
  }

  /**
   * A line that is no title match is kept whole, its line end too, and the
   * scan starts the next line afresh.
   */
  lemma DropTitleKeepsLine(l: string, rest: string, word: string)
    requires forall k :: 0 <= k < |l| ==> !IsLineTerminator(l[k])
    requires TitleEnd(l + "\n" + rest, word).None?
    ensures DropTitle(l + "\n" + rest, true, word) == l + "\n" + DropTitle(rest, true, word)
  {
    var t := "\n" + rest;
    var d := DropTitle(rest, true, word);
    assert l + "\n" + rest == l + t;
    DropTitleBreak(t, word);
    assert t[1..] == rest;
    assert DropTitle(t, false, word) == "\n" + d;
    if l != [] {
      KeepFirst(l, t, word);
      DropTitleOnLine(l[1..], t, word);
      calc {
        DropTitle(l + t, true, word);
        [l[0]] + (l[1..] + ("\n" + d));
        { assert [l[0]] + l[1..] == l; }
        l + "\n" + d;
      }
    }
  }

  lemma KeepFirst(l: string, t: string, word: string)
    requires l != [] && !IsLineTerminator(l[0])
    requires TitleEnd(l + t, word).None?
    ensures DropTitle(l + t, true, word) == [l[0]] + DropTitle(l[1..] + t, false, word)
  {
    assert (l + t)[0] == l[0] && (l + t)[1..] == l[1..] + t;
  }

  /** Inside a line the scan is not at a line start, so nothing of the line goes. */
  lemma {:induction false} DropTitleOnLine(x: string, y: string, word: string)
    requires forall k :: 0 <= k < |x| ==> !IsLineTerminator(x[k])
    decreases |x|
    ensures DropTitle(x + y, false, word) == x + DropTitle(y, false, word)
  {
    if x != [] {
      assert (x + y)[0] == x[0] && (x + y)[1..] == x[1..] + y;
      assert !IsLineTerminator(x[0]);
      assert DropTitle(x + y, false, word) == [x[0]] + DropTitle(x[1..] + y, false, word);
      DropTitleOnLine(x[1..], y, word);
      assert x + DropTitle(y, false, word) == [x[0]] + (x[1..] + DropTitle(y, false, word));
    } else {
      assert x + y == y;
    }
  }

  /** Past a title the scan is not at a line start, so the line end after it is kept. */
  lemma DropTitleBreak(t: string, word: string)
    requires t != [] && IsLineTerminator(t[0])
    ensures DropTitle(t, false, word) == [t[0]] + DropTitle(t[1..], true, word)
  {
  }

  /** Text without a hash has no title line to delete. */
  lemma {:induction false} DropTitleNoHash(s: string, atLineStart: bool, word: string)
    requires '#' !in s
    decreases |s|
    ensures DropTitle(s, atLineStart, word) == s
  {
    if s != [] {
      assert '#' !in s[1..];
      DropTitleNoHash(s[1..], IsLineTerminator(s[0]), word);
      assert s == [s[0]] + s[1..];
    }
  }

  // "Here is the ... report" lines.

  /**
   * "here is the" in any case at the start, "report" in any case at `j`
   * further on the same line, and the line ending at `e`: the line is deleted
   * and its line end kept.
   */
  lemma DropHereLine(s: string, j: nat, e: nat)
    requires MatchesAt(s, HereIsThe, 0)
    requires |HereIsThe| <= j && MatchesAt(s, ReportWord, j) && j + |ReportWord| <= e <= |s|
    requires forall k :: 0 <= k < e ==> !IsLineTerminator(s[k])
    requires e == |s| || IsLineTerminator(s[e])
    ensures DropHere(s) == DropHere(s[e..])
    ensures e < |s| ==> DropHere(s) == [s[e]] + DropHere(s[e + 1..])
  {
    RunIs(s, 0, OnLine, e);
    assert HereAt(s);
    if e < |s| {
      NotHereAtBreak(s[e..]);
      assert s[e..][1..] == s[e + 1..];
    }
  }

  /** No match starts on a line terminator. */
  lemma NotHereAtBreak(s: string)
    requires s != [] && IsLineTerminator(s[0])
    ensures !HereAt(s)
  {
    assert !(Fold(s[0 + 0]) == HereIsThe[0]);
  }

  /** A match seen in the first line of `y` is seen in any `z` whose first line begins the same way. */
  lemma HereAtPrefix(y: string, z: string)
    requires HereAt(y)
    requires LineLength(y) <= LineLength(z) && y[..LineLength(y)] == z[..LineLength(y)]
    ensures HereAt(z)
  {
    var L := LineLength(y);
    var j :| FindWord(y, ReportWord, |HereIsThe|) == Some(j);
    assert L <= |z|;
    MatchesPrefix(y, z, HereIsThe, 0, L);
    MatchesPrefix(y, z, ReportWord, j, L);
    match FindWord(z, ReportWord, |HereIsThe|)
    case None =>
    case Some(j') =>
  }

  lemma MatchesPrefix(y: string, z: string, word: string, i: nat, L: nat)
    requires MatchesAt(y, word, i) && i + |word| <= L <= |y| && L <= |z| && y[..L] == z[..L]
    ensures MatchesAt(z, word, i)
  {
    forall k | 0 <= k < |word| ensures Fold(z[i + k]) == word[k] {
      assert y[..L][i + k] == y[i + k] && z[..L][i + k] == z[i + k];
    }
  }

  /**
   * The first line of what is left begins the way the first line of the text
   * did, and is no longer: deleting only ever starts a line afresh.
   */
  lemma {:induction false} FirstLineKept(s: string)
    decreases |s|
    ensures LineLength(DropHere(s)) <= LineLength(s)
    ensures DropHere(s)[..LineLength(DropHere(s))] == s[..LineLength(DropHere(s))]
  {
    var r := DropHere(s);
    if s == [] {
    } else if HereAt(s) {
      var t := s[LineLength(s)..];
      assert r == DropHere(t);
      if t != [] {
        AfterLine(t);
      }
    } else if IsLineTerminator(s[0]) {
    } else {
      var d := DropHere(s[1..]);
      FirstLineKept(s[1..]);
      assert r == [s[0]] + d;
      RunDrop(r, OnLine);
      assert r[1..] == d;
      RunDrop(s, OnLine);
      var L := LineLength(d);
      assert r[..1 + L] == [s[0]] + d[..L];
      assert s[..1 + L] == [s[0]] + s[1..][..L];
    }
  }

  /** Text that starts on a line end keeps it first. */
  lemma AfterLine(t: string)
    requires t != [] && IsLineTerminator(t[0])
    ensures LineLength(DropHere(t)) == 0
  {
    NotHereAtBreak(t);
    assert DropHere(t) == [t[0]] + DropHere(t[1..]);
  }

  /** What the deletion leaves holds no match at any position. */
  lemma {:induction false} NoHereLeft(s: string)
    decreases |s|
    ensures forall p :: 0 <= p < |DropHere(s)| ==> !HereAt(DropHere(s)[p..])
  {
    var r := DropHere(s);
    if s == [] {
    } else if HereAt(s) {
      NoHereLeft(s[LineLength(s)..]);
    } else {
      var d := DropHere(s[1..]);
      NoHereLeft(s[1..]);
      assert r == [s[0]] + d;
      forall p | 0 <= p < |r| ensures !HereAt(r[p..]) {
        if p == 0 {
          FirstLineKept(s);
          if HereAt(r) {
            HereAtPrefix(r, s);
          }
        } else {
          assert r[p..] == d[p - 1..];
        }
      }
    }
  }

  lemma NoHereInSlice(r: string, t: string, i: nat, p: nat)
    requires i + |t| <= |r| && t == r[i..i + |t|] && p < |t|
    requires !HereAt(r[i + p..])
    ensures !HereAt(t[p..])
  {
    if HereAt(t[p..]) {
      HereAtSlice(r, t, i, p);
    }
  }

  /** A match in a slice of `r` is a match in `r`: the slice can only end a line earlier. */
  lemma HereAtSlice(r: string, t: string, i: nat, p: nat)
    requires i + |t| <= |r| && t == r[i..i + |t|] && p < |t|
    requires HereAt(t[p..])
    ensures HereAt(r[i + p..])
  {
    var y := t[p..];
    var z := r[i + p..];
    var L := LineLength(y);
    assert y == z[..|y|];
    forall k | 0 <= k < L ensures OnLine(z[k]) {
      assert z[k] == y[k];
    }
    if L < |y| {
      assert z[L] == y[L];
      RunIs(z, 0, OnLine, L);
    } else {
      // The match needs a line of at least seventeen characters.
      RunAtLeast(z, 0, OnLine, L);
    }
    HereAtPrefix(y, z);
  }

  /**
   * The report has no whitespace at either end and no "Here is the ...
   * report" line at any position.
   */
  lemma ReportClean(text: string)
    ensures var r := Report(text); r == [] || (!IsSpace(r[0]) && !IsSpace(r[|r| - 1]))
    ensures forall p :: 0 <= p < |Report(text)| ==> !HereAt(Report(text)[p..])
  {
    var x := DropTitle(DropTitle(Tidy(text), true, VirtualPrincipal), true, Consula);
    NoHereLeft(x);
    TrimClean(DropHere(x));
  }

  /** Trimming text with no match anywhere leaves none. */
  lemma TrimClean(d: string)
    requires forall p :: 0 <= p < |d| ==> !HereAt(d[p..])
    ensures forall p :: 0 <= p < |Trim(d)| ==> !HereAt(Trim(d)[p..])
  {
    var i := TrimSlice(d);
    var t := Trim(d);
    forall p | 0 <= p < |t| ensures !HereAt(t[p..]) {
      NoHereInSlice(d, t, i, p);
    }
  }
}
