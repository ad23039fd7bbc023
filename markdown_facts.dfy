/** What the block renderer promises, proved about the model in `Markdown`. */
module MarkdownFacts {
  import opened Text
  import opened Inline
  import opened Fences
  import opened Markdown
  import opened InlineFacts

  function Hashes(n: nat): string {
    seq(n, _ => '#')
  }

  /**
   * How a heading reads: `n` hashes (one to six) at the start, then a run of
   * whitespace up to index `m` (it may cross line ends), then text up to the
   * next line end at `e`, give a heading of level `n` whose text is `b[m..e]`;
   * whatever follows that line is dropped.
   */
  lemma HeadingShape(b: string, n: nat, m: nat, e: nat)
    requires 1 <= n < m < e <= |b| && n <= 6
    requires forall k :: 0 <= k < n ==> b[k] == '#'
    requires forall k :: n <= k < m ==> IsSpace(b[k])
    requires !IsSpace(b[m])
    requires forall k :: m <= k < e ==> !IsLineTerminator(b[k])
    requires e == |b| || IsLineTerminator(b[e])
    ensures HeadingOf(b) == Some((n, b[m..e]))
  {
    RunIs(b, 0, IsHash, n);
    RunIs(b, n, IsSpace, m - n);
    RunIs(b, m, OnLine, e - m);
  }

  /** Such a block renders as a heading, levels four to six all as level four. */
  lemma HeadingBlock(b: string, n: nat, m: nat, e: nat)
    requires 1 <= n < m < e <= |b| && n <= 6
    requires forall k :: 0 <= k < n ==> b[k] == '#'
    requires forall k :: n <= k < m ==> IsSpace(b[k])
    requires !IsSpace(b[m])
    requires forall k :: m <= k < e ==> !IsLineTerminator(b[k])
    requires e == |b| || IsLineTerminator(b[e])
    ensures Classify(b) == Some(Heading(if n <= 3 then n else 4, InlineTokens(b[m..e])))
  {
    HeadingShape(b, n, m, e);
  }

  /** Seven or more hashes never open a heading. */
  lemma NoSevenHashHeading(s: string)
    ensures HeadingOf(Hashes(7) + s).None?
  {
    var b := Hashes(7) + s;
    assert forall k :: 0 <= k < 7 ==> b[k] == '#';
  }

  /** A lone run of hashes is not a heading: the text must follow whitespace. */
  lemma BareHashesNoHeading(n: nat)
    ensures HeadingOf(Hashes(n)).None?
  {
    if 1 <= n <= 6 {
      RunIs(Hashes(n), 0, IsHash, n);
    }
  }

  /** No whitespace at either end. */
  predicate Trimmed(s: string) {
    s == [] || (!IsSpace(s[0]) && !IsSpace(s[|s| - 1]))
  }

  /** No string of `xs` holds `c`. */
  predicate AllFree(xs: seq<string>, c: char) {
    forall k :: 0 <= k < |xs| ==> c !in xs[k]
  }

  /** Every cell of a parsed row is trimmed and holds no pipe. */
  lemma TableCellsClean(row: string)
    ensures forall k :: 0 <= k < |TableCells(row)| ==> '|' !in TableCells(row)[k] && Trimmed(TableCells(row)[k])
  {
    var popped := TableCellsOf(row);
    TrimAllClean(popped, TableCells(row));
  }

  /** The cells of a row are the trimmed strings between its pipes, less a blank first and a blank last. */
  lemma TableCellsOf(row: string) returns (popped: seq<string>)
    ensures AllFree(popped, '|')
    ensures |TableCells(row)| == |popped| && forall k :: 0 <= k < |popped| ==> TableCells(row)[k] == Trim(popped[k])
  {
    var cells := Split(row, "|");
    SplitFree(row);
    var shifted := if Trim(cells[0]) == [] then cells[1..] else cells;
    assert AllFree(shifted, '|');
    popped := if |shifted| > 0 && Trim(shifted[|shifted| - 1]) == [] then shifted[..|shifted| - 1] else shifted;
  }

  lemma SplitFree(row: string)
    ensures AllFree(Split(row, "|"), '|')
  {
    var cells := Split(row, "|");
    SplitParts(row, "|");
    forall k | 0 <= k < |cells| ensures '|' !in cells[k] {
      FreeChar(cells[k], '|');
    }
  }

  lemma TrimAllClean(xs: seq<string>, ys: seq<string>)
    requires AllFree(xs, '|')
    requires |ys| == |xs| && forall k :: 0 <= k < |xs| ==> ys[k] == Trim(xs[k])
    ensures forall k :: 0 <= k < |ys| ==> '|' !in ys[k] && Trimmed(ys[k])
  {
    forall k | 0 <= k < |ys| ensures '|' !in ys[k] && Trimmed(ys[k]) {
      TrimKeepsOut(xs[k], '|');
    }
  }

  /** Empty body rows are dropped, and every line that parses to some cells gives a row. */
  lemma {:induction false} BodyRowsNonEmpty(lines: seq<string>)
    ensures forall k :: 0 <= k < |BodyRows(lines)| ==> BodyRows(lines)[k] != []
    ensures forall k :: 0 <= k < |lines| && TableCells(lines[k]) != [] ==> TableCells(lines[k]) in BodyRows(lines)
  {
    if lines != [] {
      BodyRowsNonEmpty(lines[1..]);
      var cells := TableCells(lines[0]);
      if cells != [] {
        ConsNonEmpty(cells, BodyRows(lines[1..]));
      }
      forall k | 0 <= k < |lines| && TableCells(lines[k]) != [] ensures TableCells(lines[k]) in BodyRows(lines) {
        if k > 0 {
          assert lines[k] == lines[1..][k - 1];
        }
      }
    }
  }

  /** Rows are parsed line by line, so the rows of two runs of lines are those of each, in order. */
  lemma {:induction false} BodyRowsAppend(a: seq<string>, b: seq<string>)
    ensures BodyRows(a + b) == BodyRows(a) + BodyRows(b)
  {
    if a == [] {
      assert a + b == b;
    } else {
      assert (a + b)[0] == a[0] && (a + b)[1..] == a[1..] + b;
      BodyRowsAppend(a[1..], b);
    }
  }

  /** Lines that all parse to some cells give one row each, in order. */
  lemma {:induction false} BodyRowsAll(lines: seq<string>)
    requires forall k :: 0 <= k < |lines| ==> TableCells(lines[k]) != []
    ensures BodyRows(lines) == seq(|lines|, k requires 0 <= k < |lines| => TableCells(lines[k]))
  {
    if lines != [] {
      BodyRowsAll(lines[1..]);
    }
  }

  /** Keeping the pipe lines commutes with concatenation: the kept lines stay in their order. */
  lemma {:induction false} PipeLinesAppend(a: seq<string>, b: seq<string>)
    ensures PipeLines(a + b) == PipeLines(a) + PipeLines(b)
  {
    if a == [] {
      assert a + b == b;
    } else {
      assert (a + b)[0] == a[0] && (a + b)[1..] == a[1..] + b;
      PipeLinesAppend(a[1..], b);
    }
  }

  /** Lines that all hold a pipe are all kept, in order. */
  lemma {:induction false} PipeLinesAll(lines: seq<string>)
    requires forall k :: 0 <= k < |lines| ==> '|' in lines[k]
    ensures PipeLines(lines) == lines
  {
    if lines != [] {
      PipeLinesAll(lines[1..]);
    }
  }

  /** Lines without a pipe are all dropped. */
  lemma {:induction false} PipeLinesNone(lines: seq<string>)
    requires forall k :: 0 <= k < |lines| ==> '|' !in lines[k]
    ensures PipeLines(lines) == []
  {
    if lines != [] {
      PipeLinesNone(lines[1..]);
    }
  }

  /** No two lines hold a pipe. */
  predicate AtMostOnePipe(lines: seq<string>) {
    forall j, k :: 0 <= j < k < |lines| && '|' in lines[j] ==> '|' !in lines[k]
  }

  /** With at most one line holding a pipe, at most one line is kept. */
  lemma {:induction false} PipeLinesAtMostOne(lines: seq<string>)
    requires AtMostOnePipe(lines)
    ensures |PipeLines(lines)| <= 1
  {
    if lines != [] {
      var rest := lines[1..];
      if '|' in lines[0] {
        assert forall k :: 0 <= k < |rest| ==> '|' !in rest[k] by {
          forall k | 0 <= k < |rest| ensures '|' !in rest[k] {
            assert rest[k] == lines[k + 1];
          }
        }
        PipeLinesNone(rest);
      } else {
        assert AtMostOnePipe(rest) by {
          forall j, k | 0 <= j < k < |rest| && '|' in rest[j] ensures '|' !in rest[k] {
            assert rest[j] == lines[j + 1] && rest[k] == lines[k + 1];
          }
        }
        PipeLinesAtMostOne(rest);
      }
    }
  }

  /** No line is a separator row. */
  predicate NoSeparator(lines: seq<string>) {
    forall k :: 0 <= k < |lines| ==> !IsSeparatorRow(lines[k])
  }

  function Dashes(d: nat): string {
    seq(d, _ => '-')
  }

  /** A separator row holds a pipe and a hyphen. */
  lemma SeparatorRowMarks(line: string)
    requires IsSeparatorRow(line)
    ensures '|' in line && '-' in line
  {
    var a := Opt(line, 0, '|');
    var b := a + Run(line, a, IsSpace);
    var c := b + Opt(line, b, ':');
    assert line[c] == '-';
  }

  /**
   * The plainest separator rows: an optional pipe, one or more hyphens and a
   * pipe, followed by anything (`|---|---|`, `---|---`).
   */
  lemma DashRow(a: string, d: nat, rest: string)
    requires a == "" || a == "|"
    requires d >= 1
    ensures IsSeparatorRow(a + Dashes(d) + "|" + rest)
  {
    var line := a + Dashes(d) + "|" + rest;
    var i := |a|;
    assert forall k :: i <= k < i + d ==> line[k] == '-';
    assert line[i + d] == '|';
    assert i == 1 ==> line[0] == '|';
    SeparatorAt(line, i, d);
  }

  /** An optional pipe, `d` hyphens and a pipe: the separator expression matches. */
  lemma SeparatorAt(line: string, i: nat, d: nat)
    requires i <= 1 && d >= 1 && i + d < |line|
    requires i == 1 ==> line[0] == '|'
    requires forall k :: i <= k < i + d ==> line[k] == '-'
    requires line[i + d] == '|'
    ensures IsSeparatorRow(line)
  {
    RunIs(line, i, IsDash, d);
    SeparatorRun(line, i, d);
  }

  lemma SeparatorRun(line: string, i: nat, d: nat)
    requires i <= 1 && d >= 1 && i + d < |line|
    requires i == 1 ==> line[0] == '|'
    requires line[i] == '-' && Run(line, i, IsDash) == d && line[i + d] == '|'
    ensures IsSeparatorRow(line)
  {
    assert Opt(line, 0, '|') == i;
    RunIs(line, i, IsSpace, 0);
    RunIs(line, i + d, IsSpace, 0);
    SeparatorValues(line, i, d);
  }

  lemma SeparatorValues(line: string, i: nat, d: nat)
    requires d >= 1 && i + d < |line| && line[i + d] == '|'
    requires Opt(line, 0, '|') == i && Run(line, i, IsSpace) == 0 && Opt(line, i, ':') == 0
    requires Run(line, i, IsDash) == d && Opt(line, i + d, ':') == 0 && Run(line, i + d, IsSpace) == 0
    ensures IsSeparatorRow(line)
  {
  }

  /** A join of lines begins with its first line. */
  lemma JoinStart(lines: seq<string>, sep: string)
    requires |lines| >= 1
    ensures |lines[0]| <= |Join(lines, sep)| && Join(lines, sep)[..|lines[0]|] == lines[0]
  {
    if |lines| > 1 {
      assert Join(lines, sep) == lines[0] + (sep + Join(lines[1..], sep));
    }
  }

  /**
   * A block written as lines without line feeds, the first not starting with
   * a hash: it is not empty, not a heading, and splits back into its lines.
   */
  lemma BlockOfLines(lines: seq<string>)
    requires |lines| >= 1 && lines[0] != [] && lines[0][0] != '#'
    requires forall k :: 0 <= k < |lines| ==> '\n' !in lines[k]
    ensures var b := Join(lines, "\n"); b != [] && HeadingOf(b).None? && Split(b, "\n") == lines
    ensures forall c :: c in lines[0] ==> c in Join(lines, "\n")
  {
    var b := Join(lines, "\n");
    JoinStart(lines, "\n");
    assert b[0] == lines[0][0];
    SplitJoinChar(lines, '\n');
    forall c | c in lines[0] ensures c in b {
      var i :| 0 <= i < |lines[0]| && lines[0][i] == c;
      assert b[i] == c;
    }
  }

  /**
   * A table: lines that each hold a pipe, the first not starting with a
   * hash, with a separator row among them (line `sep`). The header is the
   * first line, parsed whatever cells it has; the second line is dropped
   * whatever it holds, so when the separator is not second it is shown as a
   * body row; the lines after the second give the rows, one per line with
   * cells, in order (`BodyRowsAppend`, `BodyRowsAll`, `BodyRowsNonEmpty`).
   */
  lemma TableBlock(lines: seq<string>, sep: nat)
    requires |lines| >= 2 && lines[0] != [] && lines[0][0] != '#'
    requires forall k :: 0 <= k < |lines| ==> '|' in lines[k] && '\n' !in lines[k]
    requires sep < |lines| && IsSeparatorRow(lines[sep])
    ensures Classify(Join(lines, "\n")) == Some(Table(Inlines(TableCells(lines[0])), InlineRows(BodyRows(lines[2..]))))
  {
    BlockOfLines(lines);
    TableOfSplit(Join(lines, "\n"), lines, sep);
  }

  lemma TableOfSplit(b: string, lines: seq<string>, sep: nat)
    requires b != [] && HeadingOf(b).None? && Split(b, "\n") == lines && '|' in b
    requires forall k :: 0 <= k < |lines| ==> '|' in lines[k]
    requires 2 <= |lines| && sep < |lines| && IsSeparatorRow(lines[sep])
    ensures Classify(b) == Some(Table(Inlines(TableCells(lines[0])), InlineRows(BodyRows(lines[2..]))))
  {
    IsTableAt(b, sep);
    PipeLinesAll(lines);
    ClassifyTable(b);
  }

  /**
   * When the separator row is the third line, the second line is lost and
   * the separator itself is shown as the first body row.
   */
  lemma SeparatorThird(lines: seq<string>)
    requires |lines| >= 3 && lines[0] != [] && lines[0][0] != '#'
    requires forall k :: 0 <= k < |lines| ==> '|' in lines[k] && '\n' !in lines[k]
    requires IsSeparatorRow(lines[2]) && TableCells(lines[2]) != []
    ensures Classify(Join(lines, "\n")) ==
      Some(Table(Inlines(TableCells(lines[0])), InlineRows([TableCells(lines[2])] + BodyRows(lines[3..]))))
  {
    TableBlock(lines, 2);
    BodyRowsHead(lines[2..]);
    assert lines[2..][1..] == lines[3..];
  }

  lemma BodyRowsHead(rest: seq<string>)
    requires rest != [] && TableCells(rest[0]) != []
    ensures BodyRows(rest) == [TableCells(rest[0])] + BodyRows(rest[1..])
  {
  }

  /** The table branch of the classification, for a block that is no heading. */
  lemma ClassifyTable(b: string)
    requires b != [] && HeadingOf(b).None? && IsTable(b) && |PipeLines(Split(b, "\n"))| >= 2
    ensures var pipes := PipeLines(Split(b, "\n"));
      Classify(b) == Some(Table(Inlines(TableCells(pipes[0])), InlineRows(BodyRows(pipes[2..]))))
  {
  }

  lemma IsTableAt(b: string, k: nat)
    requires '|' in b && k < |Split(b, "\n")| && IsSeparatorRow(Split(b, "\n")[k])
    ensures IsTable(b)
  {
  }

  /**
   * A block that is not a table, because no line is a separator row or
   * because at most one line holds a pipe, and that does not start with a
   * hash, is a list when it starts like one (ordered exactly when it starts
   * with a number) and otherwise a paragraph of its lines.
   */
  lemma NotTableBlock(lines: seq<string>)
    requires |lines| >= 1 && lines[0] != [] && lines[0][0] != '#'
    requires forall k :: 0 <= k < |lines| ==> '\n' !in lines[k]
    requires NoSeparator(lines) || AtMostOnePipe(lines)
    ensures var b := Join(lines, "\n");
      Classify(b) == Some(
        if !IsListStart(b) then Paragraph(Inlines(lines))
        else if Numbered(b) then OrderedList(ListItems(lines))
        else BulletList(ListItems(lines)))
  {
    BlockOfLines(lines);
    if !NoSeparator(lines) {
      PipeLinesAtMostOne(lines);
    }
  }

  /**
   * A list has one item per line of its block, each reading back as its line
   * with the bullet and number markers stripped; it is ordered exactly when
   * the block starts with digits, a full stop and whitespace.
   */
  lemma ListLines(b: string)
    requires Classify(b).Some? && (Classify(b).value.OrderedList? || Classify(b).value.BulletList?)
    ensures IsListStart(b)
    ensures Classify(b).value.OrderedList? <==> Numbered(b)
    ensures |Classify(b).value.items| == Count(b, '\n') + 1
    ensures forall k :: 0 <= k < |Classify(b).value.items| ==>
      SourceOf(Classify(b).value.items[k]) == ListItem(Split(b, "\n")[k])
  {
    var lines := Split(b, "\n");
    assert Classify(b).value.items == ListItems(lines);
    SplitCount(b, '\n');
    forall k | 0 <= k < |lines| ensures SourceOf(ListItems(lines)[k]) == ListItem(lines[k]) {
      TokensCover(ListItem(lines[k]), 0);
    }
  }

  lemma ConsNonEmpty(cells: seq<string>, rest: seq<seq<string>>)
    requires cells != [] && forall k :: 0 <= k < |rest| ==> rest[k] != []
    ensures forall k :: 0 <= k < |rest| + 1 ==> ([cells] + rest)[k] != []
  {
    assert forall k :: 1 <= k < |rest| + 1 ==> ([cells] + rest)[k] == rest[k - 1];
  }

  /** Trimming adds no character. */
  lemma TrimKeepsOut(x: string, c: char)
    requires c !in x
    ensures c !in Trim(x)
  {
    var i := TrimSlice(x);
    assert forall j :: 0 <= j < |Trim(x)| ==> Trim(x)[j] == x[i + j];
  }

  /** The text between the pipes of a row: each cell with a space on either side. */
  function Padded(cells: seq<string>): seq<string> {
    seq(|cells|, k requires 0 <= k < |cells| => " " + cells[k] + " ")
  }

  lemma {:induction false} JoinPadded(cells: seq<string>)
    requires |cells| >= 1
    ensures Join(Padded(cells), "|") == " " + Join(cells, " | ") + " "
  {
    if |cells| > 1 {
      JoinPadded(cells[1..]);
      assert Padded(cells)[1..] == Padded(cells[1..]);
    }
  }

  lemma JoinRow(cells: seq<string>)
    requires |cells| >= 1
    ensures Join([""] + Padded(cells) + [""], "|") == "| " + Join(cells, " | ") + " |"
  {
    JoinWrap(Padded(cells), "|");
    JoinPadded(cells);
    Bracket(Join(cells, " | "));
  }

  lemma Bracket(j: string)
    ensures "|" + (" " + j + " ") + "|" == "| " + j + " |"
  {
  }

  /** Joining with an empty part at either end puts a separator at either end. */
  lemma JoinWrap(parts: seq<string>, sep: string)
    requires |parts| >= 1
    ensures Join([[]] + parts + [[]], sep) == sep + Join(parts, sep) + sep
  {
    JoinSnoc(parts, [], sep);
    var all := [[]] + parts + [[]];
    assert all[1..] == parts + [[]];
  }

  lemma {:induction false} JoinSnoc(parts: seq<string>, last: string, sep: string)
    requires |parts| >= 1
    ensures Join(parts + [last], sep) == Join(parts, sep) + sep + last
  {
    if |parts| > 1 {
      assert (parts + [last])[1..] == parts[1..] + [last];
      JoinSnoc(parts[1..], last, sep);
    } else {
      assert (parts + [last])[1..] == [last];
    }
  }

  /** A row split as a blank, some inner cells and a blank parses to the inner cells, trimmed. */
  lemma CellsOfSplit(row: string, inner: seq<string>)
    requires Split(row, "|") == [""] + inner + [""]
    ensures TableCells(row) == seq(|inner|, k requires 0 <= k < |inner| => Trim(inner[k]))
  {
    var cells := Split(row, "|");
    assert Trim(cells[0]) == [];
    var shifted := cells[1..];
    assert shifted == inner + [""];
    assert Trim(shifted[|shifted| - 1]) == [];
    assert shifted[..|shifted| - 1] == inner;
  }

  /**
   * A table row written the usual way, `| a | b | c |`, parses back to its
   * cells, provided each cell is trimmed and holds no pipe.
   */
  lemma TableRowRoundTrip(cells: seq<string>)
    requires |cells| >= 1
    requires forall k :: 0 <= k < |cells| ==> '|' !in cells[k] && Trimmed(cells[k])
    ensures TableCells("| " + Join(cells, " | ") + " |") == cells
  {
    var row := "| " + Join(cells, " | ") + " |";
    SplitRow(cells);
    CellsOfSplit(row, Padded(cells));
    UnpadAll(cells);
  }

  /** The row splits at its pipes into a blank, the padded cells and a blank. */
  lemma SplitRow(cells: seq<string>)
    requires |cells| >= 1
    requires forall k :: 0 <= k < |cells| ==> '|' !in cells[k]
    ensures Split("| " + Join(cells, " | ") + " |", "|") == [""] + Padded(cells) + [""]
  {
    var pads := Padded(cells);
    var parts := [""] + pads + [""];
    JoinRow(cells);
    forall k | 0 <= k < |parts| ensures '|' !in parts[k] {
      if 1 <= k <= |pads| {
        PadNoPipe(cells[k - 1]);
      }
    }
    SplitJoinChar(parts, '|');
  }

  lemma PadNoPipe(c: string)
    requires '|' !in c
    ensures '|' !in " " + c + " "
  {
  }

  lemma UnpadAll(cells: seq<string>)
    requires forall k :: 0 <= k < |cells| ==> Trimmed(cells[k])
    ensures seq(|cells|, k requires 0 <= k < |cells| => Trim(Padded(cells)[k])) == cells
  {
    forall k | 0 <= k < |cells| ensures Trim(Padded(cells)[k]) == cells[k] {
      TrimPadded(cells[k]);
    }
  }

  /**
   * An item line `- 1. x`: a bullet, whitespace up to `i`, digits up to `j`, a
   * full stop, whitespace up to `k`, then text not starting with whitespace:
   * both markers are stripped and the text is what remains.
   */
  lemma ListItemMarkers(line: string, i: nat, j: nat, k: nat)
    requires 2 <= i < j && j + 2 <= k <= |line|
    requires line[0] == '-' || line[0] == '*'
    requires forall x :: 1 <= x < i ==> IsSpace(line[x])
    requires forall x :: i <= x < j ==> IsDigit(line[x])
    requires line[j] == '.'
    requires forall x :: j + 1 <= x < k ==> IsSpace(line[x])
    requires k == |line| || !IsSpace(line[k])
    ensures ListItem(line) == line[k..]
  {
    var y := line[i..];
    BulletMarker(line, i);
    NumberTail(line, i, j, k);
    NumberMarker(y, j - i, k - i);
    ItemOf(line, y, y[k - i..]);
    assert y[k - i..] == line[k..];
  }

  lemma ItemOf(line: string, y: string, z: string)
    requires StripBullet(line) == y && StripNumber(y) == z
    ensures ListItem(line) == z
  {
  }

  /** The number marker conditions, moved to the text after the bullet. */
  lemma NumberTail(line: string, i: nat, j: nat, k: nat)
    requires i < j && j + 2 <= k <= |line|
    requires forall x :: i <= x < j ==> IsDigit(line[x])
    requires line[j] == '.'
    requires forall x :: j + 1 <= x < k ==> IsSpace(line[x])
    requires k == |line| || !IsSpace(line[k])
    ensures var y := line[i..];
      && (forall x :: 0 <= x < j - i ==> IsDigit(y[x]))
      && y[j - i] == '.'
      && (forall x :: j - i + 1 <= x < k - i ==> IsSpace(y[x]))
      && (k - i == |y| || !IsSpace(y[k - i]))
  {
  }

  /**
   * An item line `1. x` (digits up to `j`, a full stop, whitespace up to `k`,
   * text): the number marker is stripped.
   */
  lemma NumberMarker(line: string, j: nat, k: nat)
    requires 1 <= j && j + 2 <= k <= |line|
    requires forall x :: 0 <= x < j ==> IsDigit(line[x])
    requires line[j] == '.'
    requires forall x :: j + 1 <= x < k ==> IsSpace(line[x])
    requires k == |line| || !IsSpace(line[k])
    ensures StripBullet(line) == line && StripNumber(line) == line[k..]
    ensures ListItem(line) == line[k..]
  {
    assert IsDigit(line[0]);
    assert StripBullet(line) == line;
    NumberedPrefix(line, j);
    RunIs(line, j + 1, IsSpace, k - j - 1);
    StripNumberAt(line, j, k);
  }

  lemma StripNumberAt(line: string, j: nat, k: nat)
    requires j + 1 <= k <= |line|
    requires Numbered(line) && Run(line, 0, IsDigit) == j && Run(line, j + 1, IsSpace) == k - j - 1
    ensures StripNumber(line) == line[k..]
  {
    assert j + 1 + Run(line, j + 1, IsSpace) == k;
  }

  /** Digits up to `j`, a full stop and whitespace make a numbered line, with `j` digits. */
  lemma NumberedPrefix(line: string, j: nat)
    requires 1 <= j && j + 1 < |line|
    requires forall x :: 0 <= x < j ==> IsDigit(line[x])
    requires line[j] == '.' && IsSpace(line[j + 1])
    ensures Numbered(line) && Run(line, 0, IsDigit) == j
  {
    RunIs(line, 0, IsDigit, j);
  }

  /** An item line `- x`: the bullet and the whitespace after it are stripped. */
  lemma BulletMarker(line: string, k: nat)
    requires 2 <= k <= |line|
    requires line[0] == '-' || line[0] == '*'
    requires forall x :: 1 <= x < k ==> IsSpace(line[x])
    requires k == |line| || !IsSpace(line[k])
    ensures StripBullet(line) == line[k..]
  {
    RunIs(line, 1, IsSpace, k - 1);
  }
}
