/**
 * `formatInline` as the loop it is: repeatedly ask the global regular expression
 * for its next match from `lastIndex`, push the gap before it and the styled
 * piece, and move `lastIndex` to the end of the match.
 */
module InlineFormat {
  import opened Text
  import opened Inline
  import opened InlineFacts

  /**
   * The pieces of `text`, in order. They are the leftmost-match scan of the
   * whole line, they read back as `text` exactly, and a non-empty line always
   * yields at least one piece (so the source's fall-back of returning the bare
   * string only happens for the empty line).
   */
  method FormatInline(text: string) returns (elements: seq<Span>)
    ensures elements == InlineTokens(text)
    ensures SourceOf(elements) == text
    ensures Leftmost(text, 0, elements)
    ensures WellFormed(elements)
    ensures elements == [] <==> text == []
  {
    if text == [] {
      ScanFacts(text);
      return [];
    }
    elements := [];
    var lastIndex: nat := 0;
    var m := FindMatch(text, lastIndex);
    while m.Some?
      invariant lastIndex <= |text|
      invariant m == FindMatch(text, lastIndex)
      invariant elements + Tokens(text, lastIndex) == InlineTokens(text)
      decreases |text| - lastIndex
    {
      var index, found := m.value.0, m.value.1;
      TokensStep(text, lastIndex);
      var gap: seq<Span> := if index > lastIndex then [Plain(text[lastIndex..index])] else [];
      ghost var before := elements;
      if index > lastIndex {
        elements := elements + [Plain(text[lastIndex..index])];
      }
      elements := elements + [found.piece];
      assert elements == before + gap + [found.piece];
      Regroup(before, gap, found.piece, Tokens(text, found.end));
      lastIndex := found.end;
      m := FindMatch(text, lastIndex);
    }
    TokensLast(text, lastIndex);
    if lastIndex < |text| {
      elements := elements + [Plain(text[lastIndex..])];
    }
    ScanFacts(text);
  }

  lemma Regroup(before: seq<Span>, gap: seq<Span>, piece: Span, rest: seq<Span>)
    ensures before + gap + [piece] + rest == before + (gap + [piece] + rest)
  {
  }

  /** With no match left from `from`, the scan ends with at most one plain run. */
  lemma TokensLast(t: string, from: nat)
    requires from <= |t| && FindMatch(t, from).None?
    ensures Tokens(t, from) == if from < |t| then [Plain(t[from..])] else []
  {
  }

  /** What the scan of a whole line is known to satisfy. */
  lemma ScanFacts(text: string)
    ensures SourceOf(InlineTokens(text)) == text
    ensures Leftmost(text, 0, InlineTokens(text))
    ensures WellFormed(InlineTokens(text))
    ensures InlineTokens(text) == [] <==> text == []
  {
    TokensCover(text, 0);
    TokensLeftmost(text, 0);
    TokensWellFormed(text, 0);
    if InlineTokens(text) == [] {
      assert SourceOf(InlineTokens(text)) == [];
    }
  }
}
