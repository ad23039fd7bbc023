# Consulting workspace: text pipeline model

A Dafny model of the text processing at the heart of the consulting
workspace's single-page app (`src/App.jsx`). Model answers pass through it
on their way to the screen:

- **The Markdown/SVG renderer.**
  - `formatInline` turns one line into plain runs, links, bold and italic.
  - `renderMarkdown` cuts a report into ```` ```svg ```` fences and prose, then cuts prose at blank lines into blocks. Each block becomes a heading, a table (through `parseTableRow`), a list or a paragraph.
- **The clean-up chains.**
  - The structurer's answer gets five regular-expression replacements and a trim.
  - The consulting report gets the same five, plus three more that delete meta-title lines and "Here is the ... report" lines.
- **Small helpers.**
  - The retry schedule of `fetchWithRetry`.
  - The PDF file name (`safeTitle`).
  - The stored report title (the description cut to fifty characters).

The model is organised as follows:

- **Pure code** (the renderer's passes, the replacement chains, the titles) is written as functions.
  - Each regular expression is written out as the deterministic scan the engine performs.
  - `^` under the `m` flag is tracked with an `atLineStart` flag.
  - `\s` is ECMAScript whitespace plus line terminators.
  - `.` stops at `\n`, `\r`, U+2028 and U+2029.
- **Loops** are methods proved against those functions:
  - the `while (regex.exec(...))` loop of `formatInline`;
  - the shift/pop on the local cells array in `parseTableRow`;
  - the counted retry loop with its early return.

The modules, by file:

| file | modules | what they hold |
|---|---|---|
| `text.dfy` | `Text` | Whitespace, `trim`, `split`/`join`, runs and searches. |
| `inline.dfy` | `Inline`, `InlineFacts` | The inline scanner's specification, and its proofs. |
| `inline_format.dfy` | `InlineFormat` | The `formatInline` loop. |
| `fences.dfy` | `Fences`, `FenceFacts` | The fence split. |
| `markdown.dfy`, `markdown_facts.dfy` | `Markdown`, `MarkdownFacts` | Blocks. |
| `prose.dfy` | `Prose` | Blank-line cutting. |
| `render.dfy` | `RenderFacts` | Whole-report facts. |
| `normalise.dfy`, `normalise_facts.dfy` | `Normalise`, `NormaliseFacts` | The replacement chains. |
| `report_facts.dfy` | `ReportFacts` | The report chain's last three steps. |
| `payload_facts.dfy` | `PayloadFacts` | The chain's effect on diagram payloads. |
| `retry.dfy` | `Retry` | The retry schedule. |
| `titles.dfy` | `Titles` | The PDF file name and the stored title. |

## Model

| member | source | states |
|---|---|---|
| Text.Trim | src/App.jsx:163 | `trim`: the result neither starts nor ends with whitespace and is no longer than the input |
| Text.TrimSlice | src/App.jsx:163 | the trimmed text is a slice of the input and everything cut off on either side is whitespace |
| Text.SplitParts | src/App.jsx:160 | `split` on a literal: the parts joined with the separator give the text back, and no part holds the separator |
| Text.Find | src/App.jsx:148 | the first occurrence of a pattern at or after an index; none means no occurrence at all |
| Text.Run | src/App.jsx:339 | a greedy run: every character in it satisfies the class and the one after it does not |
| Inline.LinkAt | src/App.jsx:115 | the link alternative matches at `i` only with a non-empty label free of `]` and a non-empty url free of `)`, and spans as many characters as its source text |
| InlineFacts.LinkSource | src/App.jsx:115 | a matched link's source text, `[label](url)`, is exactly the text from `i` to the match's end |
| Inline.BoldAt | src/App.jsx:115 | the bold alternative matches only a non-empty body without `*` between `**` pairs |
| Inline.ItalicAt | src/App.jsx:115 | the italic alternative matches only a non-empty body without `*` between single stars |
| Inline.MatchAt | src/App.jsx:115 | the alternatives are tried in order: bold only where no link matches, italic only where neither does, none exactly when all three fail |
| Inline.FindMatch | src/App.jsx:118 | `regex.exec` from `lastIndex`: the leftmost match at or after it, with no match in between; none means no match at any later index |
| InlineFacts.TokensCover | src/App.jsx:118-140 | the pieces read back, in order, as the scanned text exactly: nothing is lost or duplicated |
| InlineFacts.TokensWellFormed | src/App.jsx:118-140 | plain runs are never empty and never adjacent |
| InlineFacts.TokensLeftmost | src/App.jsx:118-135 | every styled piece is the leftmost match from where it starts, and no match starts inside a plain run |
| InlineFacts.NoMatchIsPlain | src/App.jsx:138-142 | a non-empty line where nothing matches is one plain run |
| InlineFacts.LoneStarStaysPlain | src/App.jsx:115 | a line with at most one `*` has no bold or italic piece |
| InlineFacts.LinkAtComplete | src/App.jsx:123-128 | `[label](url)` with a label free of `]` and a url free of `)` is always matched as that link |
| InlineFacts.BoldAtComplete | src/App.jsx:129-130 | `**body**` with a star-free body is always matched as bold |
| InlineFacts.ItalicAtComplete | src/App.jsx:131-132 | `*body*` with a star-free body is always matched as italic |
| InlineFormat.FormatInline | src/App.jsx:109-143 | the loop yields exactly the specified pieces, which read back as the line, are leftmost-match and well formed, and are empty only for the empty line |
| InlineFormat.ScanFacts | src/App.jsx:109-143 | `InlineTokens`, the specification of the scan, reads back as the line, is leftmost-match, well formed, and empty only for the empty line |
| Fences.FenceEnd | src/App.jsx:148 | a fence matches at `q` iff the opening is there and a closing follows; it then ends just past the first closing after the opening, with none in between |
| Fences.SplitFences | src/App.jsx:148 | the split yields an odd number of parts that concatenate back to the text |
| FenceFacts.PartsShape | src/App.jsx:148 | parts alternate prose and fence with no gaps: the odd parts are whole fences and the even parts contain no fence |
| FenceFacts.OddPartsAreFences | src/App.jsx:148 | every part at an odd index is a fence stopping at its first closing |
| FenceFacts.EvenPartsHaveNoFence | src/App.jsx:148 | no fence starts anywhere inside a prose part |
| FenceFacts.OpenProseIsLast | src/App.jsx:148-151 | an unclosed opening can start only the last prose part |
| FenceFacts.FencePayload | src/App.jsx:151-152 | a fence's payload is its body less the opening, one optional newline and the closing, and holds no closing |
| FenceFacts.UnclosedPayload | src/App.jsx:151-152 | an unclosed opening part keeps everything after the opening and optional newline, with no closing in it |
| Fences.SvgPayload | src/App.jsx:152 | the payload is the part from just after the opening and one optional newline, and all that is cut from its end is nothing or a closing "```" |
| Markdown.HeadingOf | src/App.jsx:167-169 | a heading has one to six whole hashes and whitespace after them; its text is a single line starting with a non-space |
| Markdown.PipeLines | src/App.jsx:179 | every kept line holds a pipe and is one of the lines, and every line that holds a pipe is kept |
| MarkdownFacts.PipeLinesAppend | src/App.jsx:179 | the filter distributes over concatenation, so pipe lines keep their order |
| MarkdownFacts.PipeLinesAll | src/App.jsx:179 | lines that all hold a pipe are kept whole |
| MarkdownFacts.PipeLinesAtMostOne | src/App.jsx:179-180 | at most one line with a pipe leaves at most one pipe line, too few for a table |
| Markdown.ParseTableRow | src/App.jsx:181-186 | the shift/pop loop on the cells computes the specified row cells |
| MarkdownFacts.BodyRowsNonEmpty | src/App.jsx:189 | every kept body row has cells, and every line whose cells are non-empty gives a kept row |
| MarkdownFacts.BodyRowsAppend | src/App.jsx:189 | the rows of two runs of lines are the rows of each, in order |
| MarkdownFacts.BodyRowsAll | src/App.jsx:189 | when every line has cells, the rows are the lines' cells one for one, in order |
| Markdown.Classify | src/App.jsx:163-165 | a trimmed block renders as something exactly when it is non-empty; the branches are stated by HeadingBlock, TableBlock, NotTableBlock, ListLines and ParagraphLines |
| MarkdownFacts.HeadingShape | src/App.jsx:167-169 | hashes, whitespace and a first line yield that level and exactly that line as text |
| MarkdownFacts.HeadingBlock | src/App.jsx:167-174 | such a block renders as a heading of level 1, 2 or 3, or 4 for four to six hashes, holding the line's inline pieces |
| MarkdownFacts.NoSevenHashHeading | src/App.jsx:167 | seven leading hashes never make a heading |
| MarkdownFacts.BareHashesNoHeading | src/App.jsx:167 | hashes with nothing after them are not a heading |
| MarkdownFacts.SeparatorRowMarks | src/App.jsx:177 | `IsSeparatorRow`: a separator row holds a pipe and a hyphen |
| MarkdownFacts.DashRow | src/App.jsx:177 | `IsSeparatorRow`: an optional pipe, one or more hyphens and a pipe start a separator row, whatever follows |
| MarkdownFacts.TableBlock | src/App.jsx:177-189 | `IsTable`: lines that all hold a pipe, one of them a separator row, make a table. The header is the first line's cells, unfiltered. The second line is dropped whatever it holds. The rest give the body rows. |
| MarkdownFacts.SeparatorThird | src/App.jsx:188-189 | with the separator third, the second line is lost and the separator's cells become the first body row |
| MarkdownFacts.NotTableBlock | src/App.jsx:177-232 | a block with no separator row, or with at most one pipe line, falls through: a list when it starts like one, ordered exactly when `Numbered`, else a paragraph of its lines |
| MarkdownFacts.ListLines | src/App.jsx:212-221 | a list block starts like a list, is ordered exactly when it starts with a number, has one item per line (line feeds plus one), and item k reads back as line k with its markers stripped |
| Markdown.StripBullet | src/App.jsx:214 | the result is an end of the line; it differs from the line exactly when a hyphen or star and whitespace start it, and then no leading whitespace is left |
| Markdown.StripNumber | src/App.jsx:214 | the result is an end of the line; it differs from the line exactly when the line is `Numbered`, and then no leading whitespace is left |
| Markdown.ListItem | src/App.jsx:214 | the item text is an end of the line, and a line starting with no hyphen, star or digit is kept whole |
| MarkdownFacts.TableCellsClean | src/App.jsx:181-186 | every parsed cell is trimmed and holds no pipe |
| MarkdownFacts.TableRowRoundTrip | src/App.jsx:181-186 | a row written as pipe-delimited trimmed cells parses back to those cells |
| MarkdownFacts.ListItemMarkers | src/App.jsx:214 | a bullet and then a number before an item are both stripped |
| MarkdownFacts.NumberMarker | src/App.jsx:214 | a numbered line loses its number, full stop and spaces, and no bullet is removed |
| MarkdownFacts.NumberedPrefix | src/App.jsx:212 | digits, a full stop and whitespace start an ordered list |
| MarkdownFacts.BulletMarker | src/App.jsx:214 | a hyphen or star and its whitespace are stripped from an item |
| Prose.OneBlock | src/App.jsx:160-165 | prose without a blank line is one block, or none when it is only whitespace |
| Prose.ProseSeparated | src/App.jsx:160-165 | a blank line after blank-line-free text splits the blocks into those of each side |
| Prose.LeadingNewline | src/App.jsx:160-165 | a leading line feed never changes the blocks of a prose part |
| Prose.BlankLines | src/App.jsx:160-165 | two or more line feeds separate blocks exactly as one blank line does |
| Markdown.RenderMarkdown | src/App.jsx:145-146 | an empty report renders as nothing at all, and any other report as a list of blocks; FencesRender, DiagramsClean and ProseNoSvg say what the blocks are |
| RenderFacts.ProseNoSvg | src/App.jsx:160-233 | prose never renders as a diagram |
| RenderFacts.FenceRenders | src/App.jsx:151-155 | a fence renders as one diagram of its body, without the opening, one newline and the closing |
| RenderFacts.DiagramsClean | src/App.jsx:148-155 | no diagram of a rendered report contains a closing fence |
| RenderFacts.FencesRender | src/App.jsx:148-155 | every odd part of a report is a fence rendering as the diagram of its body |
| RenderFacts.ParagraphLines | src/App.jsx:224-232 | a paragraph has one entry per line of its block, each reading back as that line |
| Normalise.HashSpace | src/App.jsx:339 | the step never shortens the text; HashSpaceLine, HashSpaceOther and HashSpaceNoHash pin where it inserts a space |
| NormaliseFacts.BulletsChanges | src/App.jsx:340 | the step keeps the length and changes only a star to a hyphen or a whitespace character to a space |
| Normalise.StripBold | src/App.jsx:341 | no two stars are left side by side, and a first character other than a star is kept |
| Normalise.HeadingEnd | src/App.jsx:342 | a heading match starts with a hash, is non-empty, and ends at a line end or the end of the text |
| Normalise.TitleEnd | src/App.jsx:418-419 | a title match starts with a hash, is longer than the word, and ends at a line end or the end of the text |
| Normalise.FindWord | src/App.jsx:420 | the first case-insensitive occurrence of a word at or after an index, with none in between |
| NormaliseFacts.HashSpaceLine | src/App.jsx:339 | a line of hashes followed by a letter or digit gets one space after the hashes |
| NormaliseFacts.HashSpaceOther | src/App.jsx:339 | hashes followed by anything else are left alone |
| NormaliseFacts.HashSpaceNoHash | src/App.jsx:339 | text without a hash is unchanged |
| Normalise.Bullets | src/App.jsx:340 | the step keeps the length of the text |
| NormaliseFacts.BulletLine | src/App.jsx:340 | leading whitespace, a star and a whitespace character become the whitespace and a hyphen and space |
| NormaliseFacts.BulletsNoStar | src/App.jsx:340 | text without a star is unchanged |
| NormaliseFacts.StripBoldOnlyStars | src/App.jsx:341 | only stars are removed: the text without its stars is the same before and after |
| NormaliseFacts.StripBoldFixed | src/App.jsx:341 | text with no pair of stars is unchanged |
| NormaliseFacts.StripBoldIdempotent | src/App.jsx:341 | deleting pairs twice deletes nothing more |
| NormaliseFacts.HeadingEndShape | src/App.jsx:342 | every heading match is one to six hashes, a maximal whitespace run and the rest of the line that run ends on |
| NormaliseFacts.HeadingEndNone | src/App.jsx:342 | no hash, more than six, or hashes not followed by whitespace: no match |
| NormaliseFacts.HeadingEndAt | src/App.jsx:342 | one to six hashes, whitespace and the rest of a line always match, up to that line's end |
| NormaliseFacts.WrapHeadingLine | src/App.jsx:342 | a heading at a line start (one to six hashes, whitespace, the rest of the line) is put between two blank-line markers |
| NormaliseFacts.WrapSevenHashes | src/App.jsx:342 | seven hashes at a line start are not wrapped |
| NormaliseFacts.WrapNoHash | src/App.jsx:342 | text without a hash is unchanged |
| NormaliseFacts.WrapLines | src/App.jsx:342 | `Wrap`: when each heading line keeps its text on its own line and no other line starts with a hash, exactly the heading lines are put between blank-line markers |
| NormaliseFacts.WrapAcrossLines | src/App.jsx:342 | `#` alone on a line above `## T` is wrapped together with it, with no blank line between them |
| NormaliseFacts.CollapseNoTriple | src/App.jsx:343 | after collapsing, no three line feeds are left in a row |
| Normalise.Collapse | src/App.jsx:343 | the step never lengthens the text |
| NormaliseFacts.CollapseFixed | src/App.jsx:343 | text without three line feeds in a row is unchanged |
| NormaliseFacts.CollapseIdempotent | src/App.jsx:343 | collapsing twice changes nothing more |
| NormaliseFacts.CollapseAppend | src/App.jsx:343 | text ending in something other than a line feed collapses independently of what follows |
| NormaliseFacts.CollapseRun | src/App.jsx:343 | a run of n line feeds becomes two when n is three or more and stays otherwise |
| NormaliseFacts.CollapseAroundHeading | src/App.jsx:342-343 | a wrapped heading line between text ends up with exactly one blank line on each side |
| NormaliseFacts.TrimNoTriple | src/App.jsx:344 | trimming cannot create three line feeds in a row |
| NormaliseFacts.StructureClean | src/App.jsx:338-344 | the structurer's result has no whitespace at either end and no three line feeds in a row |
| Normalise.Structure | src/App.jsx:338-344 | the structurer's result has no whitespace at either end |
| NormaliseFacts.StructureAcrossLines | src/App.jsx:338-344 | `#\n## T` comes out of the structurer unchanged: the heading below a bare `#` gets no blank line |
| ReportFacts.DropTitleLine | src/App.jsx:418-419 | a meta-title line (hashes, optional whitespace, the word in any case, the rest of the line) is deleted and its line end kept |
| ReportFacts.DropTitleNoHash | src/App.jsx:418-419 | text without a hash loses no title |
| Normalise.DropTitle | src/App.jsx:418-419 | the deletion never lengthens the text |
| ReportFacts.TitleEndShape | src/App.jsx:418-419 | every title match is a maximal hash run, a maximal whitespace run, the word in any case, and the rest of the line |
| ReportFacts.TitleEndNone | src/App.jsx:418-419 | no hash, or not the word after the whitespace run: no match |
| ReportFacts.DropTitleKeepsLine | src/App.jsx:418-419 | a line that is no title match is kept whole with its line end, and the next line is scanned afresh |
| ReportFacts.DropHereLine | src/App.jsx:420 | "here is the" followed on the same line by "report", in any case, is deleted to the line end and the line end kept |
| ReportFacts.HereAtPrefix | src/App.jsx:420 | a match depends only on the first line, so it survives in any text whose first line extends it |
| ReportFacts.FirstLineKept | src/App.jsx:420 | deleting matches only shortens the first line, never changes its kept start |
| ReportFacts.NoHereLeft | src/App.jsx:420 | after the deletion no match starts at any position |
| ReportFacts.ReportClean | src/App.jsx:412-421 | the report has no whitespace at either end and no "Here is the ... report" line anywhere |
| Normalise.Report | src/App.jsx:412-421 | the report has no whitespace at either end |
| PayloadFacts.HashSpacePrefix | src/App.jsx:339 | text without a hash passes the first step unchanged and only sets the line-start state |
| PayloadFacts.WrapPrefix | src/App.jsx:342 | text without a hash passes the wrapping step unchanged and only sets the line-start state |
| PayloadFacts.ChainLine | src/App.jsx:338-344 | a line of a hash and a colour between hash-free lines comes out of the structurer as a spaced heading with a blank line on each side |
| PayloadFacts.PayloadHeading | src/App.jsx:338-344 | a diagram fence whose payload line is a hash and a colour (`#abc`) becomes `# abc` with a blank line on each side |
| PayloadFacts.PayloadRendered | src/App.jsx:338-344 | that altered fence still renders as one diagram, whose payload is the altered line |
| Retry.FetchWithRetry | src/App.jsx:296-308 | at most `retries` attempts and at least one when `retries` is positive. The first success is returned; all earlier attempts failed. The last failure is rethrown only after `retries` attempts. The waits after failures follow the delay table in order. With no attempts the result is `undefined`. |
| Retry.DefaultSchedule | src/App.jsx:296-305 | with the default five attempts the waits are 1, 2, 4 and 8 seconds, 16 seconds is never used, and the total wait is at most 15 seconds |
| Retry.Delay | src/App.jsx:297 | entry i of the table is 1000·2^i ms for i below 5, and 0 past the table |
| Retry.SumWaits | src/App.jsx:297-305 | the waits after n failures sum to 1000·(2^n − 1) ms |
| Titles.Underscore | src/App.jsx:460 | every character that is not an ASCII letter or digit becomes `_`, and letters and digits are kept |
| Titles.LowerAll | src/App.jsx:460 | lower-casing keeps the length |
| Titles.SafeTitle | src/App.jsx:460 | the file name is as long as the title, or as the default name when the title is empty, and holds only lower-case letters, digits and `_` |
| Titles.SafeTitleChars | src/App.jsx:460 | each character of a non-empty title maps to its lower-case form if it is a letter or digit, and to `_` otherwise |
| Titles.SafeTitleIdempotent | src/App.jsx:460 | a safe name is its own safe name |
| Titles.DefaultTitleSafe | src/App.jsx:460 | a missing or empty title gives `strategy_report` |
| Titles.StoredTitle | src/App.jsx:428 | a description of at most 50 characters is kept whole; a longer one is cut to its first 50 characters followed by `...` |
| Titles.StoredTitleBounds | src/App.jsx:428 | the stored title has at most 53 characters and starts with the description's first min(50, length) characters |

## Left out

- React output: element types, CSS classes, `key` values, icons and the `<br />` between paragraph lines. Blocks and inline pieces are abstract values.
- The `dangerouslySetInnerHTML` injection of diagram payloads. A payload is an opaque string; the source does no sanitising and the model claims none.
- Firebase authentication, Firestore reads and writes, and the snapshot subscription and its sort. These are foreign calls.
- Network I/O in `fetchWithRetry`:
  - `fetch`, the status check and `res.json` are one abstract attempt outcome per index;
  - `setTimeout` is reduced to the length of each wait;
  - the promise machinery is not modelled.
- Prompt constants, request payloads, PDF export, CDN script loading, DOM access, all view state and date formatting. These hold nothing to prove apart from the `safeTitle` expression, which is modelled.
- Strings are sequences of characters. The difference between UTF-16 code units and code points (surrogate pairs) is not modelled.
- Titles.LowerAll: case mapping covers ASCII letters only. `toLowerCase` also maps non-ASCII letters, but those become `_` before lower-casing, so the file name is unaffected.
- Retry.Delay: `delays[i]` past the table (more than five attempts) is `undefined`. The model reads that as a wait of 0, the way `setTimeout` treats an undefined delay.
- InlineFormat.FormatInline: for the empty line, `formatInline` returns the string itself rather than an array. The model returns no pieces, which renders the same.
- Normalise.Report: the report chain deletes title and "Here is the" lines after the collapse step. The lines they leave behind can therefore bring back runs of three or more line feeds. The model keeps them, as the source does; `Prose.BlankLines` shows the renderer treats such runs like one blank line.
- Normalise.DropTitle: `\s*` after the hashes may cross line ends. One pass can therefore expose a new title match (`#` on one line, a title line deleted below it), so the step is not idempotent. No lemma claims otherwise.
- Normalise.Wrap: the heading step's `\s+` may cross a line end, so a line holding only hashes swallows the line below it into one match. Each heading is set off by blank lines only when its hashes are followed by whitespace on the same line and text after it (`NormaliseFacts.WrapLines`). `#` above `## T` gets no blank line between the two (`NormaliseFacts.WrapAcrossLines`, `NormaliseFacts.StructureAcrossLines`). The source behaves the same way, and the model keeps it.
