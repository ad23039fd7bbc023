/**
 * What the whole renderer promises: a fence renders as one diagram of its
 * body, no diagram ever carries a closing "```", prose never renders as a
 * diagram, and a paragraph keeps every line of its block.
 */
module RenderFacts {
  import opened Text
  import opened Inline
  import opened InlineFacts
  import opened Fences
  import opened FenceFacts
  import opened Markdown

  /** A block of prose is read as a heading, table, list or paragraph, never as a diagram. */
  lemma ClassifyNotSvg(b: string)
    ensures Classify(b).Some? ==> !Classify(b).value.Svg?
  {
  }

  lemma {:induction false} BlocksNoSvg(raw: seq<string>, f: string -> Option<Block>)
    requires forall b :: f(b).Some? ==> !f(b).value.Svg?
    ensures forall x :: x in Blocks(raw, f) ==> !x.Svg?
  {
    if raw != [] {
      BlocksNoSvg(raw[1..], f);
    }
  }

  /** Prose renders without diagrams. */
  lemma ProseNoSvg(part: string)
    ensures forall x :: x in ProseBlocks(part) ==> !x.Svg?
  {
    forall b ensures Classify(b).Some? ==> !Classify(b).value.Svg? {
      ClassifyNotSvg(b);
    }
    BlocksNoSvg(Split(part, "\n\n"), Classify);
  }

  /** A fence renders as one diagram: its body between the opening and the closing, less one leading newline. */
  lemma FenceRenders(f: string)
    requires IsFence(f)
    ensures RenderPart(f) == [Svg(DropNewline(f[6..|f| - 3]))]
  {
    FencePayload(f);
  }

  /** A part that is a fence or holds none renders with no closing "```" inside any diagram. */
  lemma PartClean(part: string)
    requires IsFence(part) || NoFence(part)
    ensures forall x :: x in RenderPart(part) && x.Svg? ==> Free(x.payload, Close)
  {
    if StartsWith(part, Open) {
      if IsFence(part) {
        FencePayload(part);
      } else {
        UnclosedPayload(part);
      }
    } else {
      ProseNoSvg(part);
    }
  }

  lemma {:induction false} PartsClean(parts: seq<string>)
    requires forall k :: 0 <= k < |parts| ==> IsFence(parts[k]) || NoFence(parts[k])
    ensures forall x :: x in RenderParts(parts) && x.Svg? ==> Free(x.payload, Close)
  {
    if parts != [] {
      PartClean(parts[0]);
      PartsClean(parts[1..]);
      assert RenderParts(parts) == RenderPart(parts[0]) + RenderParts(parts[1..]);
    }
  }

  /**
   * No diagram of a rendered report holds "```": a closed fence stops at its
   * first closing, and an unclosed one at the end of the report holds none.
   */
  lemma DiagramsClean(text: string)
    requires text != []
    ensures forall x :: x in RenderMarkdown(text).value && x.Svg? ==> Free(x.payload, Close)
  {
    PartsShape(text);
    var parts := Parts(text);
    forall k | 0 <= k < |parts| ensures IsFence(parts[k]) || NoFence(parts[k]) {
      if k % 2 == 1 {
        assert IsFence(parts[k]);
      } else {
        assert NoFence(parts[k]);
      }
    }
    PartsClean(parts);
  }

  /** Every fence of a report, at the odd positions of its parts, renders as the diagram of its body. */
  lemma FencesRender(text: string)
    ensures forall k :: 0 <= k < |Parts(text)| && k % 2 == 1 ==>
      IsFence(Parts(text)[k]) && RenderPart(Parts(text)[k]) == [Svg(DropNewline(Parts(text)[k][6..|Parts(text)[k]| - 3]))]
  {
    PartsShape(text);
    forall k | 0 <= k < |Parts(text)| && k % 2 == 1
      ensures IsFence(Parts(text)[k]) && RenderPart(Parts(text)[k]) == [Svg(DropNewline(Parts(text)[k][6..|Parts(text)[k]| - 3]))]
    {
      FenceRenders(Parts(text)[k]);
    }
  }

  /**
   * A paragraph has one line per line of its block, and each line's pieces
   * read back as that line.
   */
  lemma ParagraphLines(b: string)
    requires Classify(b).Some? && Classify(b).value.Paragraph?
    ensures |Classify(b).value.lines| == Count(b, '\n') + 1
    ensures forall k :: 0 <= k < |Classify(b).value.lines| ==>
      SourceOf(Classify(b).value.lines[k]) == Split(b, "\n")[k]
  {
    var lines := Split(b, "\n");
    assert Classify(b).value.lines == Inlines(lines);
    SplitCount(b, '\n');
    forall k | 0 <= k < |lines| ensures SourceOf(Inlines(lines)[k]) == lines[k] {
      TokensCover(lines[k], 0);
    }
  }
}
