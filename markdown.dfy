/**
 * The block renderer (`renderMarkdown`): a report is cut into svg fences and
 * prose; a fence becomes a diagram, and prose is cut at blank lines ("\n\n")
 * into blocks, each trimmed and then read as the first of: a heading, a
 * table, a list, a paragraph. Empty blocks render as nothing.
 *
 * The elements built here are the values the page would show, without their
 * styling: every piece of inline text is the result of the inline scanner.
 */
module Markdown {
  import opened Text
  import opened Inline
  import opened Fences

  datatype Block =
    | Svg(payload: string)
    | Heading(tag: nat, content: seq<Span>)
    | Table(headers: seq<seq<Span>>, rows: seq<seq<seq<Span>>>)
    | OrderedList(items: seq<seq<Span>>)
    | BulletList(items: seq<seq<Span>>)
    | Paragraph(lines: seq<seq<Span>>)

  predicate IsDash(c: char) { c == '-' }

  /**
   * `^(#{1,6})\s+(.*)` on a trimmed block: the number of leading hashes and the
   * heading text. The hash run must be whole (a seventh hash cannot be left
   * for `\s+`), the greedy `\s+` may cross line ends, and `.*` stops at the
   * first line terminator, so the rest of the block is dropped.
   */
  function HeadingOf(b: string): (r: Option<(nat, string)>)
    ensures r.Some? ==> 1 <= r.value.0 <= 6 && r.value.0 < |b| && IsSpace(b[r.value.0])
    ensures r.Some? ==> forall k :: 0 <= k < r.value.0 ==> b[k] == '#'
    ensures r.Some? ==> forall k :: 0 <= k < |r.value.1| ==> !IsLineTerminator(r.value.1[k])
    ensures r.Some? && r.value.1 != [] ==> !IsSpace(r.value.1[0])
  {
    var n := Run(b, 0, IsHash);
    if 1 <= n <= 6 && n < |b| && IsSpace(b[n]) then
      var start := n + Run(b, n, IsSpace);
      var content := b[start..start + Run(b, start, OnLine)];
      assert forall k :: 0 <= k < |content| ==> content[k] == b[start + k];
      Some((n, content))
    else None
  }

  /** 1 when `s[i]` is `c` (an optional `c?`), else 0. */
  function Opt(s: string, i: nat, c: char): nat {
    if i < |s| && s[i] == c then 1 else 0
  }

  /** `^\|?\s*:?-+:?\s*\|`: the row under a table's header. */
  predicate IsSeparatorRow(line: string) {
    var a := Opt(line, 0, '|');
    var b := a + Run(line, a, IsSpace);
    var c := b + Opt(line, b, ':');
    var d := Run(line, c, IsDash);
    var e := c + d + Opt(line, c + d, ':');
    var f := e + Run(line, e, IsSpace);
    d >= 1 && f < |line| && line[f] == '|'
  }

  /**
   * `.filter(line => line.includes('|'))`: the lines that contain a pipe, and
   * every one of them. Their order is kept (`MarkdownFacts.PipeLinesAppend`).
   */
  function PipeLines(lines: seq<string>): (r: seq<string>)
    ensures |r| <= |lines|
    ensures forall k :: 0 <= k < |r| ==> '|' in r[k] && r[k] in lines
    ensures forall k :: 0 <= k < |lines| && '|' in lines[k] ==> lines[k] in r
  {
    if lines == [] then []
    else (if '|' in lines[0] then [lines[0]] else []) + PipeLines(lines[1..])
  }

  /**
   * `parseTableRow`: split at pipes, drop a blank first cell and then a blank
   * last cell (the outer pipes of `| a | b |`), trim what is left.
   */
  function TableCells(row: string): seq<string> {
    var cells := Split(row, "|");
    var shifted := if Trim(cells[0]) == [] then cells[1..] else cells;
    var popped := if |shifted| > 0 && Trim(shifted[|shifted| - 1]) == [] then shifted[..|shifted| - 1] else shifted;
    seq(|popped|, k requires 0 <= k < |popped| => Trim(popped[k]))
  }

  /** `parseTableRow` as written: shift and pop on the local array of cells. */
  method ParseTableRow(rowStr: string) returns (cells: seq<string>)
    ensures cells == TableCells(rowStr)
  {
    cells := Split(rowStr, "|");
    if Trim(cells[0]) == [] {
      cells := cells[1..];
    }
    if |cells| > 0 && Trim(cells[|cells| - 1]) == [] {
      cells := cells[..|cells| - 1];
    }
    cells := seq(|cells|, k requires 0 <= k < |cells| => Trim(cells[k]));
  }

  /** The body rows: every pipe line after the second, parsed, with empty rows dropped. */
  function BodyRows(lines: seq<string>): seq<seq<string>> {
    if lines == [] then []
    else
      var cells := TableCells(lines[0]);
      var rest := BodyRows(lines[1..]);
      if cells == [] then rest else [cells] + rest
  }

  function Inlines(cells: seq<string>): seq<seq<Span>> {
    seq(|cells|, k requires 0 <= k < |cells| => InlineTokens(cells[k]))
  }

  function InlineRows(rows: seq<seq<string>>): seq<seq<seq<Span>>> {
    seq(|rows|, k requires 0 <= k < |rows| => Inlines(rows[k]))
  }

  /** `^\d+\.\s`: digits, a full stop, a whitespace character. */
  predicate Numbered(s: string) {
    var d := Run(s, 0, IsDigit);
    d >= 1 && d + 1 < |s| && s[d] == '.' && IsSpace(s[d + 1])
  }

  predicate IsListStart(b: string) {
    StartsWith(b, "- ") || StartsWith(b, "* ") || Numbered(b)
  }

  /**
   * `.replace(/^[-*]\s+/, '')`: a hyphen or star and the whitespace after it
   * are cut from the start, and nothing else is touched.
   */
  function StripBullet(line: string): (r: string)
    ensures EndsWith(line, r)
    ensures r != line <==> |line| >= 2 && (line[0] == '-' || line[0] == '*') && IsSpace(line[1])
    ensures r != line ==> r == [] || !IsSpace(r[0])
  {
    if |line| >= 2 && (line[0] == '-' || line[0] == '*') && IsSpace(line[1]) then
      line[1 + Run(line, 1, IsSpace)..]
    else line
  }

  /**
   * `.replace(/^\d+\.\s+/, '')`: digits, a full stop and the whitespace after
   * it are cut from the start of a numbered line, and nothing else is touched.
   */
  function StripNumber(line: string): (r: string)
    ensures EndsWith(line, r)
    ensures r != line <==> Numbered(line)
    ensures r != line ==> r == [] || !IsSpace(r[0])
  {
    var d := Run(line, 0, IsDigit);
    if Numbered(line) then line[d + 1 + Run(line, d + 1, IsSpace)..] else line
  }

  /**
   * The text of a list item: the bullet, then the number, stripped. It is the
   * end of the line, and a line that starts with no marker character is kept.
   */
  function ListItem(line: string): (r: string)
    ensures EndsWith(line, r)
    ensures line == [] || (line[0] != '-' && line[0] != '*' && !IsDigit(line[0])) ==> r == line
  {
    StripNumber(StripBullet(line))
  }

  /** The items of a list block: each line, its markers stripped, through the inline scanner. */
  function ListItems(lines: seq<string>): seq<seq<Span>> {
    seq(|lines|, k requires 0 <= k < |lines| => InlineTokens(ListItem(lines[k])))
  }

  /** Whether a trimmed block is a table: it holds a pipe and one of its lines is a separator row. */
  predicate IsTable(b: string) {
    var lines := Split(b, "\n");
    '|' in b && exists k :: 0 <= k < |lines| && IsSeparatorRow(lines[k])
  }

  /** What one trimmed block renders as; nothing for the empty block. */
  function Classify(b: string): (r: Option<Block>)
    ensures r.Some? <==> b != []
  {
    if b == [] then None
    else
      match HeadingOf(b)
      case Some((n, content)) => Some(Heading(if n <= 3 then n else 4, InlineTokens(content)))
      case None =>
        var lines := Split(b, "\n");
        var pipes := PipeLines(lines);
        if IsTable(b) && |pipes| >= 2 then
          Some(Table(Inlines(TableCells(pipes[0])), InlineRows(BodyRows(pipes[2..]))))
        else if IsListStart(b) then
          var items := ListItems(lines);
          Some(if Numbered(b) then OrderedList(items) else BulletList(items))
        else
          Some(Paragraph(Inlines(lines)))
  }

  /** The blocks of a run of raw blocks, each trimmed and then read by `classify`. */
  function Blocks(raw: seq<string>, classify: string -> Option<Block>): seq<Block> {
    if raw == [] then []
    else
      (match classify(Trim(raw[0])) case None => [] case Some(x) => [x]) + Blocks(raw[1..], classify)
  }

  /** Prose cut at blank lines, with each block read by `classify`. */
  function Cut(part: string, classify: string -> Option<Block>): seq<Block> {
    Blocks(Split(part, "\n\n"), classify)
  }

  /** A prose part, cut at blank lines. */
  function ProseBlocks(part: string): seq<Block> {
    Cut(part, Classify)
  }

  /** A part that opens like a fence is a diagram; any other part is prose. */
  function RenderPart(part: string): seq<Block> {
    if StartsWith(part, Open) then [Svg(SvgPayload(part))] else ProseBlocks(part)
  }

  function RenderParts(parts: seq<string>): seq<Block> {
    if parts == [] then [] else RenderPart(parts[0]) + RenderParts(parts[1..])
  }

  /** The whole report: nothing at all for the empty text. */
  function RenderMarkdown(text: string): (r: Option<seq<Block>>)
    ensures r.None? <==> text == []
  {
    if text == [] then None else Some(RenderParts(Parts(text)))
  }
}
