/**
 * The clean-up applied to every model response before it is shown: a chain
 * of global regular-expression replacements, then `trim`. The structurer's
 * answer goes through the first five steps; the consulting report through the
 * same five and three more that delete meta-titles and "Here is the ...
 * report" lines.
 *
 * Each replacement is written as the left-to-right scan the regular-expression
 * engine performs. The `m` flag lets `^` match at the start of the text and
 * after every line terminator, so the scans carry `atLineStart`: whether the
 * current position is such a place. Every expression here matches
 * deterministically: each greedy run is followed by something its own
 * characters cannot match, so giving characters back never helps, and the
 * scans only try the longest run.
 */
module Normalise {
  import opened Text

  predicate IsNewline(c: char) { c == '\n' }

  /**
   * `.replace(/^(#+)(?=[A-Za-z0-9])/gm, '$1 ')`: at a line start, a run of
   * hashes directly followed by a letter or digit gets a space after it.
   */
  function HashSpace(s: string, atLineStart: bool): (r: string)
    decreases |s|
    ensures |s| <= |r|
  {
    if s == [] then []
    else if atLineStart && s[0] == '#' then
      var n := Run(s, 0, IsHash);
      s[..n] + (if n < |s| && IsAlnum(s[n]) then " " else "") + HashSpace(s[n..], false)
    else [s[0]] + HashSpace(s[1..], IsLineTerminator(s[0]))
  }

  /**
   * `.replace(/^(\s*)\*\s/gm, '$1- ')`: at a line start, whitespace (which may
   * run over line ends), an asterisk and one whitespace character become the
   * same whitespace and "- ". The whitespace character after the asterisk is
   * consumed, so when it is a line feed the next line start is right after it.
   * Only an asterisk becomes a hyphen and only a whitespace character a space:
   * the text keeps its length.
   */
  function Bullets(s: string, atLineStart: bool): (r: string)
    decreases |s|
    ensures |r| == |s|
  {
    if s == [] then []
    else
      var w := Run(s, 0, IsSpace);
      if atLineStart && w + 1 < |s| && s[w] == '*' && IsSpace(s[w + 1]) then
        s[..w] + "- " + Bullets(s[w + 2..], IsLineTerminator(s[w + 1]))
      else [s[0]] + Bullets(s[1..], IsLineTerminator(s[0]))
  }

  /** No two asterisks side by side. */
  predicate NoDoubleStar(s: string) {
    forall i :: 0 <= i < |s| - 1 ==> !(s[i] == '*' && s[i + 1] == '*')
  }

  /**
   * The replacement of `\*\*` (flag `g`) by nothing: every pair of asterisks,
   * taken left to right without overlap, is deleted (so three in a row leave one). No pair is left
   * afterwards: an asterisk that stays is one not followed by another.
   */
  function StripBold(s: string): (r: string)
    decreases |s|
    ensures NoDoubleStar(r)
    ensures s != [] && s[0] != '*' ==> r != [] && r[0] == s[0]
  {
    if |s| >= 2 && s[0] == '*' && s[1] == '*' then StripBold(s[2..])
    else if s == [] then []
    else
      var rest := StripBold(s[1..]);
      assert s[0] == '*' ==> |s| == 1 || s[1] != '*';
      assert forall i :: 1 <= i < |rest| ==> ([s[0]] + rest)[i] == rest[i - 1];
      [s[0]] + rest
  }

  /**
   * `.replace(/^(#{1,6}\s+.*)$/gm, '\n\n$1\n\n')`: at a line start, one to six
   * hashes, whitespace (which may run over line ends) and the rest of the line
   * the whitespace ends on are put between two blank-line markers. A seventh
   * hash is never matched. A match ends at a line end, and unless the text
   * ends in its whitespace the character before that end is no line
   * terminator, so no line starts right after a match.
   */
  function Wrap(s: string, atLineStart: bool): string
    decreases |s|
  {
    if s == [] then []
    else
      match if atLineStart then HeadingEnd(s) else None
      case Some(e) => "\n\n" + s[..e] + "\n\n" + Wrap(s[e..], false)
      case None => [s[0]] + Wrap(s[1..], IsLineTerminator(s[0]))
  }

  /**
   * Where the heading expression's match at the start of `s` ends, if it
   * matches there: a match starts with a hash and ends at a line end.
   */
  function HeadingEnd(s: string): (r: Option<nat>)
    ensures r.Some? ==> 0 < r.value <= |s| && s[0] == '#'
    ensures r.Some? ==> r.value == |s| || IsLineTerminator(s[r.value])
  {
    var n := Run(s, 0, IsHash);
    if 1 <= n <= 6 && n < |s| && IsSpace(s[n]) then
      var m := n + Run(s, n, IsSpace);
      Some(m + Run(s, m, OnLine))
    else None
  }

  /** No three line feeds in a row. */
  predicate NoTriple(s: string) {
    forall i :: 0 <= i < |s| - 2 ==> !(s[i] == '\n' && s[i + 1] == '\n' && s[i + 2] == '\n')
  }

  /** `.replace(/\n{3,}/g, '\n\n')`: every run of three or more line feeds becomes two. */
  function Collapse(s: string): (r: string)
    decreases |s|
    ensures |r| <= |s|
  {
    if s == [] then []
    else if s[0] == '\n' then
      var n := Run(s, 0, IsNewline);
      (if n >= 3 then "\n\n" else s[..n]) + Collapse(s[n..])
    else [s[0]] + Collapse(s[1..])
  }

  /** The five steps both chains share. */
  function Tidy(text: string): string {
    Collapse(Wrap(StripBold(Bullets(HashSpace(text, true), true)), true))
  }

  /** The structurer's answer as it is put into the problem box. */
  function Structure(text: string): (r: string)
    ensures r == [] || (!IsSpace(r[0]) && !IsSpace(r[|r| - 1]))
  {
    Trim(Tidy(text))
  }

  /** ASCII case folding, which is all the `i` flag does outside the `u` mode. */
  function Fold(c: char): char {
    if 'A' <= c <= 'Z' then (c as int + 32) as char else c
  }

  /** `word` (lower-case) occurs at `i`, ignoring case. */
  predicate MatchesAt(s: string, word: string, i: nat) {
    i + |word| <= |s| && forall k :: 0 <= k < |word| ==> Fold(s[i + k]) == word[k]
  }

  const VirtualPrincipal: string := "virtual principal"
  const Consula: string := "consula"

  /**
   * The replacement of `^#+\s*<word>.*` (flags `gmi`) by nothing: at a line
   * start, hashes, optional whitespace (which may run over line ends), `word`
   * in any case and the rest of its line are deleted; the line terminator
   * after them stays. `word` starts with a letter, so neither run can give
   * characters back to it.
   */
  function DropTitle(s: string, atLineStart: bool, word: string): (r: string)
    decreases |s|
    ensures |r| <= |s|
  {
    if s == [] then []
    else
      match if atLineStart then TitleEnd(s, word) else None
      case Some(e) => DropTitle(s[e..], false, word)
      case None => [s[0]] + DropTitle(s[1..], IsLineTerminator(s[0]), word)
  }

  /**
   * Where the title expression's match at the start of `s` ends, if it
   * matches there: a match starts with a hash, holds the word and ends at a
   * line end.
   */
  function TitleEnd(s: string, word: string): (r: Option<nat>)
    ensures r.Some? ==> 0 < r.value <= |s| && s[0] == '#' && |word| < r.value
    ensures r.Some? ==> r.value == |s| || IsLineTerminator(s[r.value])
  {
    var n := Run(s, 0, IsHash);
    var m := n + Run(s, n, IsSpace);
    if n >= 1 && MatchesAt(s, word, m) then
      Some(m + |word| + Run(s, m + |word|, OnLine))
    else None
  }

  const HereIsThe: string := "here is the"
  const ReportWord: string := "report"

  /** The first place from `i` where `word` occurs, ignoring case. */
  function FindWord(s: string, word: string, i: nat): (r: Option<nat>)
    decreases |s| - i
    ensures r.Some? ==> i <= r.value && MatchesAt(s, word, r.value)
    ensures r.Some? ==> forall k :: i <= k < r.value ==> !MatchesAt(s, word, k)
    ensures r.None? ==> forall k :: i <= k ==> !MatchesAt(s, word, k)
  {
    if i + |word| > |s| then None
    else if MatchesAt(s, word, i) then Some(i)
    else FindWord(s, word, i + 1)
  }

  /** The length of the first line of `s`. */
  function LineLength(s: string): nat {
    Run(s, 0, OnLine)
  }

  /**
   * `Here is the.*report.*` (flags `gi`) matches at the start of `s`: "here is
   * the" in any case, then "report" later on the same line. The match runs to
   * the end of the line whichever "report" the greedy `.*` settles on.
   */
  predicate HereAt(s: string) {
    && MatchesAt(s, HereIsThe, 0)
    && match FindWord(s, ReportWord, |HereIsThe|)
       case None => false
       case Some(j) => j + |ReportWord| <= LineLength(s)
  }

  /**
   * The replacement of `Here is the.*report.*` (flags `gi`) by nothing: each
   * such match, leftmost first, is deleted up to its line end.
   */
  function DropHere(s: string): string
    decreases |s|
  {
    if s == [] then []
    else if HereAt(s) then DropHere(s[LineLength(s)..])
    else [s[0]] + DropHere(s[1..])
  }

  /** The consulting report as it is shown and stored. */
  function Report(text: string): (r: string)
    ensures r == [] || (!IsSpace(r[0]) && !IsSpace(r[|r| - 1]))
  {
    Trim(DropHere(DropTitle(DropTitle(Tidy(text), true, VirtualPrincipal), true, Consula)))
  }
}
