/**
 * How prose is cut into blocks: a blank line separates blocks, a run of more
 * than two line feeds separates them just as one blank line does, and text
 * without a blank line is a single block.
 */
module Prose {
  import opened Text
  import opened Markdown

  lemma BlocksCons(x: string, rest: seq<string>, f: string -> Option<Block>)
    ensures Blocks([x] + rest, f) == Blocks([x], f) + Blocks(rest, f)
  {
    assert ([x] + rest)[1..] == rest;
    assert [x][1..] == [];
  }

  lemma OneCut(part: string, f: string -> Option<Block>)
    requires Free(part, "\n\n")
    ensures Cut(part, f) == Blocks([part], f)
  {
    SplitFree(part, "\n\n");
  }

  /** Prose with no blank line in it is one block, or none when it is only whitespace. */
  lemma OneBlock(part: string)
    requires Free(part, "\n\n")
    ensures ProseBlocks(part) == if Trim(part) == [] then [] else [Classify(Trim(part)).value]
  {
    OneCut(part, Classify);
    BlocksOne(part, Classify);
  }

  lemma BlocksOne(b: string, f: string -> Option<Block>)
    ensures Blocks([b], f) == match f(Trim(b)) case None => [] case Some(x) => [x]
  {
    assert [b][1..] == [];
  }

  lemma CutSeparated(x: string, y: string, f: string -> Option<Block>)
    requires Free(x, "\n\n")
    requires x == [] || x[|x| - 1] != '\n'
    ensures Cut(x + "\n\n" + y, f) == Cut(x, f) + Cut(y, f)
  {
    var s := x + "\n\n" + y;
    forall i | 0 <= i < |x| ensures !OccursAt(s, "\n\n", i) {
      if i + 2 <= |x| {
        assert s[i..i + 2] == x[i..i + 2];
        assert !OccursAt(x, "\n\n", i);
      } else {
        assert s[i] == x[|x| - 1];
      }
    }
    SplitAfter(x, "\n\n", y);
    SplitFree(x, "\n\n");
    BlocksCons(x, Split(y, "\n\n"), f);
  }

  /**
   * A blank line separates blocks, in order: the blocks of `x` (which holds no
   * blank line and does not end in a line feed), then the blocks of `y`.
   */
  lemma ProseSeparated(x: string, y: string)
    requires Free(x, "\n\n")
    requires x == [] || x[|x| - 1] != '\n'
    ensures ProseBlocks(x + "\n\n" + y) == ProseBlocks(x) + ProseBlocks(y)
  {
    CutSeparated(x, y, Classify);
  }

  lemma TrimNewline(y: string)
    ensures Trim("\n" + y) == Trim(y)
  {
    assert ("\n" + y)[1..] == y;
  }

  /** Prefixing a line feed to prose that has no blank line and does not start with one keeps it free of blank lines. */
  lemma FreeNewline(x: string)
    requires Free(x, "\n\n") && (x == [] || x[0] != '\n')
    ensures Free("\n" + x, "\n\n")
  {
    forall i | 0 <= i <= |x| + 1 ensures !OccursAt("\n" + x, "\n\n", i) {
      if i == 0 {
        if x != [] {
          assert ("\n" + x)[1] == x[0];
        }
      } else {
        OccursShift("\n", x, "\n\n", i - 1);
      }
    }
  }

  lemma SameTrim(x: string, y: string, f: string -> Option<Block>)
    requires Trim(x) == Trim(y)
    ensures Blocks([x], f) == Blocks([y], f)
  {
  }

  /** A leading line feed never changes how prose is cut into blocks. */
  lemma {:induction false} CutNewline(y: string, f: string -> Option<Block>)
    requires f([]).None?
    decreases |y|
    ensures Cut("\n" + y, f) == Cut(y, f)
  {
    if y != [] && y[0] == '\n' {
      CutNewline(y[1..], f);
      CutNewlineBlank(y, f);
    } else {
      match Find(y, "\n\n", 0)
      case None =>
        CutNewlineFree(y, f);
      case Some(i) =>
        CutNewlineAt(y, i, f);
    }
  }

  /** Prose that is only whitespace has no blocks, when the empty block reads as nothing. */
  lemma EmptyCut(e: string, f: string -> Option<Block>)
    requires f([]).None? && e == []
    ensures Cut(e, f) == []
  {
    OneCut(e, f);
    BlocksOne(e, f);
  }

  /** The case of `CutNewline` where `y` itself starts with a line feed. */
  lemma CutNewlineBlank(y: string, f: string -> Option<Block>)
    requires f([]).None?
    requires y != [] && y[0] == '\n'
    requires Cut("\n" + y[1..], f) == Cut(y[1..], f)
    ensures Cut("\n" + y, f) == Cut(y, f)
  {
    var z := y[1..];
    var e := y[..0];
    Twice(y, e);
    CutSeparated(e, z, f);
    EmptyCut(e, f);
  }

  lemma Twice(y: string, e: string)
    requires y != [] && y[0] == '\n' && e == []
    ensures "\n" + y == e + "\n\n" + y[1..]
    ensures y == "\n" + y[1..]
  {
    assert y == [y[0]] + y[1..];
  }

  /** The case of `CutNewline` where `y` has no blank line and does not start with a line feed. */
  lemma CutNewlineFree(y: string, f: string -> Option<Block>)
    requires (y == [] || y[0] != '\n') && Find(y, "\n\n", 0).None?
    ensures Cut("\n" + y, f) == Cut(y, f)
  {
    assert Free(y, "\n\n");
    FreeNewline(y);
    OneCut(y, f);
    OneCut("\n" + y, f);
    TrimNewline(y);
    SameTrim("\n" + y, y, f);
  }

  /** The case of `CutNewline` where `y` starts with text and has a blank line at `i`. */
  lemma CutNewlineAt(y: string, i: nat, f: string -> Option<Block>)
    requires y != [] && y[0] != '\n' && Find(y, "\n\n", 0) == Some(i)
    ensures Cut("\n" + y, f) == Cut(y, f)
  {
    var x, z := y[..i], y[i + 2..];
    FirstCut(y, i);
    FreeNewline(x);
    var x' := "\n" + x;
    Glue(x, z);
    CutSeparated(x, z, f);
    CutSeparated(x', z, f);
    OneCut(x, f);
    OneCut(x', f);
    TrimNewline(x);
    SameTrim(x', x, f);
  }

  lemma Glue(x: string, z: string)
    ensures "\n" + (x + "\n\n" + z) == ("\n" + x) + "\n\n" + z
  {
  }

  /** The first blank line of `y`, at `i`, cuts it into a text with no blank line and the rest. */
  lemma FirstCut(y: string, i: nat)
    requires y != [] && y[0] != '\n' && Find(y, "\n\n", 0) == Some(i)
    ensures 0 < i && i + 2 <= |y| && y == y[..i] + "\n\n" + y[i + 2..]
    ensures Free(y[..i], "\n\n") && y[i - 1] != '\n' && y[..i][0] != '\n'
  {
    FirstCutShape(y, i);
    FreeSlice(y, "\n\n", 0, i);
    assert y[0..i] == y[..i];
  }

  lemma FirstCutShape(y: string, i: nat)
    requires y != [] && y[0] != '\n'
    requires OccursAt(y, "\n\n", i) && !OccursAt(y, "\n\n", i - 1)
    ensures 0 < i && i + 2 <= |y| && y == y[..i] + "\n\n" + y[i + 2..] && y[i - 1] != '\n'
  {
    assert y[i..i + 2] == "\n\n";
    assert y[i] == '\n';
    SliceThree(y, i, i + 2);
  }

  /** A leading line feed never changes the blocks of a prose part. */
  lemma LeadingNewline(y: string)
    ensures ProseBlocks("\n" + y) == ProseBlocks(y)
  {
    CutNewline(y, Classify);
  }

  lemma {:induction false} LeadingNewlines(n: nat, y: string)
    ensures ProseBlocks(Newlines(n) + y) == ProseBlocks(y)
  {
    if n > 0 {
      NewlinesCons(n, y);
      LeadingNewline(Newlines(n - 1) + y);
      LeadingNewlines(n - 1, y);
    }
  }

  lemma NewlinesCons(n: nat, y: string)
    requires n > 0
    ensures Newlines(n) + y == "\n" + (Newlines(n - 1) + y)
  {
    assert Newlines(n) == "\n" + Newlines(n - 1);
  }

  /** Two or more line feeds separate blocks exactly as a single blank line does. */
  lemma BlankLines(x: string, n: nat, y: string)
    requires n >= 2
    requires Free(x, "\n\n")
    requires x == [] || x[|x| - 1] != '\n'
    ensures ProseBlocks(x + Newlines(n) + y) == ProseBlocks(x) + ProseBlocks(y)
  {
    assert x + Newlines(n) + y == x + "\n\n" + (Newlines(n - 2) + y);
    ProseSeparated(x, Newlines(n - 2) + y);
    LeadingNewlines(n - 2, y);
  }
}
