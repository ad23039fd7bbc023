/**
 * The inline scanner of the renderer (`formatInline`): one line of text becomes
 * plain runs, links `[label](url)`, bold `**text**` and italic `*text*`.
 *
 * The combined regular expression `\[([^\]]+)\]\(([^)]+)\)|\*\*([^*]+)\*\*|\*([^*]+)\*`
 * is written out as three scanners. Each bracketed class is a greedy run of
 * "anything but the closing character" immediately followed by that character,
 * so the only way it can match ends at the FIRST closing character: no
 * backtracking is ever needed, and the scanners below search for that character.
 */
module Inline {
  import opened Text

  datatype Span = Plain(text: string) | Link(caption: string, url: string) | Bold(body: string) | Italic(body: string)

  /** The source text a piece was scanned from. */
  function Source(x: Span): string {
    match x
    case Plain(s) => s
    case Link(l, u) => "[" + l + "](" + u + ")"
    case Bold(b) => "**" + b + "**"
    case Italic(b) => "*" + b + "*"
  }

  /** The source text of a run of pieces, in order. */
  function SourceOf(xs: seq<Span>): string {
    if xs == [] then [] else Source(xs[0]) + SourceOf(xs[1..])
  }

  /** A match of one alternative: the piece and the index just past it. */
  datatype Match = Match(piece: Span, end: nat)

  /** Length of a piece's source text. */
  function Width(x: Span): nat {
    match x
    case Plain(s) => |s|
    case Link(c, u) => |c| + |u| + 4
    case Bold(b) => |b| + 4
    case Italic(b) => |b| + 2
  }

  /** A piece matched at `i` spans `t[i..end]`, which is as long as its source text. */
  predicate Covers(t: string, i: nat, m: Match) {
    i < m.end <= |t| && m.end == i + Width(m.piece)
  }

  /** Alternative 1, `\[([^\]]+)\]\(([^)]+)\)`, tried at `i`. */
  function LinkAt(t: string, i: nat): (r: Option<Match>)
    ensures r.Some? ==> Covers(t, i, r.value) && r.value.piece.Link?
    ensures r.Some? ==> var l := r.value.piece.caption; l != [] && ']' !in l
    ensures r.Some? ==> var u := r.value.piece.url; u != [] && ')' !in u
  {
    if i < |t| && t[i] == '[' then
      match IndexOf(t, ']', i + 1)
      case None => None
      case Some(j) =>
        if j > i + 1 && j + 1 < |t| && t[j + 1] == '(' then
          match IndexOf(t, ')', j + 2)
          case None => None
          case Some(k) =>
            if k > j + 2 then
              Some(Match(Link(t[i + 1..j], t[j + 2..k]), k + 1))
            else None
        else None
    else None
  }

  /** Alternative 2, `\*\*([^*]+)\*\*`, tried at `i`. */
  function BoldAt(t: string, i: nat): (r: Option<Match>)
    ensures r.Some? ==> Covers(t, i, r.value) && r.value.piece.Bold?
    ensures r.Some? ==> var b := r.value.piece.body; b != [] && '*' !in b
  {
    if i + 1 < |t| && t[i] == '*' && t[i + 1] == '*' then
      match IndexOf(t, '*', i + 2)
      case None => None
      case Some(j) =>
        if j > i + 2 && j + 1 < |t| && t[j + 1] == '*' then
          Some(Match(Bold(t[i + 2..j]), j + 2))
        else None
    else None
  }

  /** Alternative 3, `\*([^*]+)\*`, tried at `i`. */
  function ItalicAt(t: string, i: nat): (r: Option<Match>)
    ensures r.Some? ==> Covers(t, i, r.value) && r.value.piece.Italic?
    ensures r.Some? ==> var b := r.value.piece.body; b != [] && '*' !in b
  {
    if i < |t| && t[i] == '*' then
      match IndexOf(t, '*', i + 1)
      case None => None
      case Some(j) =>
        if j > i + 1 then
          Some(Match(Italic(t[i + 1..j]), j + 1))
        else None
    else None
  }

  /** The combined expression tried at `i`: the first alternative that matches wins. */
  function MatchAt(t: string, i: nat): (r: Option<Match>)
    ensures r.Some? ==> Covers(t, i, r.value) && !r.value.piece.Plain?
    ensures r.Some? && r.value.piece.Bold? ==> LinkAt(t, i).None?
    ensures r.Some? && r.value.piece.Italic? ==> LinkAt(t, i).None? && BoldAt(t, i).None?
    ensures r.None? <==> LinkAt(t, i).None? && BoldAt(t, i).None? && ItalicAt(t, i).None?
  {
    if LinkAt(t, i).Some? then LinkAt(t, i)
    else if BoldAt(t, i).Some? then BoldAt(t, i)
    else ItalicAt(t, i)
  }

  /** What `regex.exec` finds when its `lastIndex` is `from`: the leftmost match at or after `from`. */
  function FindMatch(t: string, from: nat): (r: Option<(nat, Match)>)
    decreases |t| - from
    ensures r.Some? ==> from <= r.value.0 && MatchAt(t, r.value.0) == Some(r.value.1)
    ensures r.Some? ==> forall p :: from <= p < r.value.0 ==> MatchAt(t, p).None?
    ensures r.None? ==> forall p :: from <= p ==> MatchAt(t, p).None?
  {
    if from >= |t| then
      None
    else if MatchAt(t, from).Some? then Some((from, MatchAt(t, from).value))
    else FindMatch(t, from + 1)
  }

  /** The pieces `formatInline` produces for `t[from..]`, as a specification. */
  function Tokens(t: string, from: nat): seq<Span>
    requires from <= |t|
    decreases |t| - from
  {
    match FindMatch(t, from)
    case None => if from < |t| then [Plain(t[from..])] else []
    case Some((i, m)) =>
      assert Covers(t, i, m);
      (if i > from then [Plain(t[from..i])] else []) + [m.piece] + Tokens(t, m.end)
  }

  /** The pieces of a whole line. */
  function InlineTokens(t: string): seq<Span> {
    Tokens(t, 0)
  }
}

module InlineFacts {
  import opened Text
  import opened Inline

  lemma {:induction false} SourceOfAppend(a: seq<Span>, b: seq<Span>)
    ensures SourceOf(a + b) == SourceOf(a) + SourceOf(b)
  {
    if a == [] {
      assert a + b == b;
    } else {
      assert (a + b)[0] == a[0];
      assert (a + b)[1..] == a[1..] + b;
      SourceOfAppend(a[1..], b);
    }
  }

  /** One step of the scan: the gap before the leftmost match, the match, then the rest. */
  lemma TokensStep(t: string, from: nat)
    requires from <= |t| && FindMatch(t, from).Some?
    ensures var i, m := FindMatch(t, from).value.0, FindMatch(t, from).value.1;
      && Covers(t, i, m)
      && Tokens(t, from) == (if i > from then [Plain(t[from..i])] else []) + [m.piece] + Tokens(t, m.end)
  {
  }

  /** A match reads back as exactly the text it was matched from. */
  lemma MatchSource(t: string, i: nat)
    requires MatchAt(t, i).Some?
    ensures Source(MatchAt(t, i).value.piece) == t[i..MatchAt(t, i).value.end]
  {
    if LinkAt(t, i).Some? {
      LinkSource(t, i);
    } else if BoldAt(t, i).Some? {
      BoldSource(t, i);
    } else {
      ItalicSource(t, i);
    }
  }

  lemma LinkSource(t: string, i: nat)
    requires LinkAt(t, i).Some?
    ensures Source(LinkAt(t, i).value.piece) == t[i..LinkAt(t, i).value.end]
  {
    var j := IndexOf(t, ']', i + 1).value;
    var k := IndexOf(t, ')', j + 2).value;
    assert t[i..k + 1] == "[" + t[i + 1..j] + "](" + t[j + 2..k] + ")";
  }

  lemma BoldSource(t: string, i: nat)
    requires BoldAt(t, i).Some?
    ensures Source(BoldAt(t, i).value.piece) == t[i..BoldAt(t, i).value.end]
  {
    var j := IndexOf(t, '*', i + 2).value;
    assert t[i..j + 2] == "**" + t[i + 2..j] + "**";
  }

  lemma ItalicSource(t: string, i: nat)
    requires ItalicAt(t, i).Some?
    ensures Source(ItalicAt(t, i).value.piece) == t[i..ItalicAt(t, i).value.end]
  {
    var j := IndexOf(t, '*', i + 1).value;
    assert t[i..j + 1] == "*" + t[i + 1..j] + "*";
  }

  /** Coverage: the pieces, read back as source text, give `t[from..]` exactly. */
  lemma {:induction false} TokensCover(t: string, from: nat)
    requires from <= |t|
    decreases |t| - from
    ensures SourceOf(Tokens(t, from)) == t[from..]
  {
    if FindMatch(t, from).Some? {
      var head, end := TokensHead(t, from);
      TokensCover(t, end);
      CoverJoin(t, from, end, head, Tokens(t, end));
    }
  }

  lemma CoverJoin(t: string, from: nat, end: nat, head: seq<Span>, rest: seq<Span>)
    requires from <= end <= |t|
    requires SourceOf(head) == t[from..end] && SourceOf(rest) == t[end..]
    ensures SourceOf(head + rest) == t[from..]
  {
    SourceOfAppend(head, rest);
    SliceSplit(t, from, end);
  }

  lemma SliceSplit(t: string, from: nat, end: nat)
    requires from <= end <= |t|
    ensures t[from..] == t[from..end] + t[end..]
  {
  }

  /**
   * The opening step of the scan, the gap and the match, as a run `head` of one
   * or two pieces: it reads back as `t[from..end]`, satisfies `Leftmost`, and
   * ends with a styled piece.
   */
  lemma TokensHead(t: string, from: nat) returns (head: seq<Span>, end: nat)
    requires from <= |t| && FindMatch(t, from).Some?
    ensures from < end <= |t| && Tokens(t, from) == head + Tokens(t, end)
    ensures SourceOf(head) == t[from..end]
    ensures AllAt(OkIn(t), from, head) && from + Widths(head) == end
    ensures WellFormed(head) && head != [] && !head[|head| - 1].Plain?
  {
    var i, m := FindMatch(t, from).value.0, FindMatch(t, from).value.1;
    var pre: seq<Span> := if i > from then [Plain(t[from..i])] else [];
    TokensStep(t, from);
    CoverHead(t, from);
    LeftmostHead(t, from);
    head, end := pre + [m.piece], m.end;
  }

  /** The gap and the match that open a step of the scan read back as `t[from..end]`. */
  lemma CoverHead(t: string, from: nat)
    requires from <= |t| && FindMatch(t, from).Some?
    ensures var i, m := FindMatch(t, from).value.0, FindMatch(t, from).value.1;
      var pre: seq<Span> := if i > from then [Plain(t[from..i])] else [];
      SourceOf(pre + [m.piece]) == t[from..m.end]
  {
    var i, m := FindMatch(t, from).value.0, FindMatch(t, from).value.1;
    var pre: seq<Span> := if i > from then [Plain(t[from..i])] else [];
    assert SourceOf(pre) == t[from..i];
    MatchSource(t, i);
    assert SourceOf([m.piece]) == t[i..m.end];
    SourceOfAppend(pre, [m.piece]);
    assert t[from..m.end] == t[from..i] + t[i..m.end];
  }

  /** Plain runs are never empty and never follow one another. */
  ghost predicate WellFormed(xs: seq<Span>) {
    && (forall k :: 0 <= k < |xs| && xs[k].Plain? ==> xs[k].text != [])
    && (forall j, k :: 0 <= j < k < |xs| && k == j + 1 ==> !(xs[j].Plain? && xs[k].Plain?))
  }

  lemma {:induction false} TokensWellFormed(t: string, from: nat)
    requires from <= |t|
    decreases |t| - from
    ensures WellFormed(Tokens(t, from))
  {
    if FindMatch(t, from).Some? {
      var head, end := TokensHead(t, from);
      TokensWellFormed(t, end);
      WellFormedJoin(head, Tokens(t, end));
    }
  }

  /** A run that ends with a styled piece can be followed by any well-formed run. */
  lemma WellFormedJoin(head: seq<Span>, rest: seq<Span>)
    requires WellFormed(head) && head != [] && !head[|head| - 1].Plain?
    requires WellFormed(rest)
    ensures WellFormed(head + rest)
  {
    var xs := head + rest;
    forall k | 0 <= k < |xs| && xs[k].Plain? ensures xs[k].text != [] {
      if k >= |head| { assert xs[k] == rest[k - |head|]; }
    }
    forall j, k | 0 <= j < k < |xs| && k == j + 1 ensures !(xs[j].Plain? && xs[k].Plain?) {
      if j >= |head| { assert xs[j] == rest[j - |head|] && xs[k] == rest[k - |head|]; }
    }
  }

  /** Total length of the source text of a run of pieces. */
  function Widths(xs: seq<Span>): nat {
    if xs == [] then 0 else Width(xs[0]) + Widths(xs[1..])
  }

  lemma {:induction false} WidthsAppend(a: seq<Span>, b: seq<Span>)
    ensures Widths(a + b) == Widths(a) + Widths(b)
  {
    if a == [] {
      assert a + b == b;
    } else {
      assert (a + b)[0] == a[0];
      assert (a + b)[1..] == a[1..] + b;
      WidthsAppend(a[1..], b);
    }
  }

  lemma WidthSource(x: Span)
    ensures Width(x) == |Source(x)|
  {
  }

  lemma {:induction false} WidthsSource(xs: seq<Span>)
    ensures Widths(xs) == |SourceOf(xs)|
  {
    if xs != [] {
      WidthSource(xs[0]);
      WidthsSource(xs[1..]);
    }
  }

  /** Where piece `k` starts, relative to the start of the run. */
  function Offset(xs: seq<Span>, k: nat): nat
    requires k <= |xs|
  {
    Widths(xs[..k])
  }

  /**
   * The pieces are exactly what the leftmost-match scan yields: no match of the
   * combined expression starts inside a plain run, and each styled piece is the
   * match that starts where it does.
   */
  ghost predicate Leftmost(t: string, from: nat, xs: seq<Span>) {
    AllAt(OkIn(t), from, xs)
  }

  /** Every piece of `xs`, placed from index `from` on, satisfies `ok`. */
  ghost predicate AllAt(ok: (nat, Span) -> bool, from: nat, xs: seq<Span>) {
    forall k {:trigger Offset(xs, k)} :: 0 <= k < |xs| ==> ok(from + Offset(xs, k), xs[k])
  }

  ghost function OkIn(t: string): (nat, Span) -> bool {
    (o: nat, x: Span) => PieceOk(t, o, x)
  }

  /**
   * Piece `x`, starting at index `o` of `t`, is what the scan finds there: the
   * leftmost match at or after the start of a plain run lies beyond the run, and
   * a styled piece is itself the leftmost match from where it starts.
   */
  ghost predicate PieceOk(t: string, o: nat, x: Span) {
    (x.Plain? ==> FindMatch(t, o).None? || FindMatch(t, o).value.0 >= o + |x.text|) &&
    (!x.Plain? ==> FindMatch(t, o) == Some((o, Match(x, o + Width(x)))))
  }

  lemma OffsetAppend(a: seq<Span>, b: seq<Span>, k: nat)
    requires k <= |b|
    ensures Offset(a + b, |a| + k) == Widths(a) + Offset(b, k)
  {
    assert (a + b)[..|a| + k] == a + b[..k];
    WidthsAppend(a, b[..k]);
  }

  lemma AllAtAppend(ok: (nat, Span) -> bool, from: nat, mid: nat, a: seq<Span>, b: seq<Span>)
    requires AllAt(ok, from, a) && from + Widths(a) == mid && AllAt(ok, mid, b)
    ensures AllAt(ok, from, a + b)
  {
    forall k | 0 <= k < |a + b|
      ensures ok(from + Offset(a + b, k), (a + b)[k])
    {
      if k < |a| {
        AllAtLeft(ok, from, a, b, k);
      } else {
        AllAtRight(ok, from, a, b, k - |a|);
      }
    }
  }

  lemma AllAtLeft(ok: (nat, Span) -> bool, from: nat, a: seq<Span>, b: seq<Span>, k: nat)
    requires AllAt(ok, from, a) && k < |a|
    ensures ok(from + Offset(a + b, k), (a + b)[k])
  {
    assert (a + b)[..k] == a[..k];
    assert Offset(a + b, k) == Offset(a, k);
  }

  lemma AllAtRight(ok: (nat, Span) -> bool, from: nat, a: seq<Span>, b: seq<Span>, k: nat)
    requires AllAt(ok, from + Widths(a), b) && k < |b|
    ensures ok(from + Offset(a + b, |a| + k), (a + b)[|a| + k])
  {
    var o := from + Widths(a) + Offset(b, k);
    assert ok(o, b[k]);
    OffsetAppend(a, b, k);
    assert from + Offset(a + b, |a| + k) == o;
    assert (a + b)[|a| + k] == b[k];
  }

  lemma AllAtOne(ok: (nat, Span) -> bool, from: nat, x: Span)
    requires ok(from, x)
    ensures AllAt(ok, from, [x])
  {
    assert [x][..0] == [];
    assert Offset([x], 0) == 0;
  }

  lemma {:induction false} TokensLeftmost(t: string, from: nat)
    requires from <= |t|
    decreases |t| - from
    ensures Leftmost(t, from, Tokens(t, from))
  {
    if FindMatch(t, from).None? {
      LeftmostLast(t, from);
    } else {
      var head, end := TokensHead(t, from);
      TokensLeftmost(t, end);
      AllAtAppend(OkIn(t), from, end, head, Tokens(t, end));
    }
  }

  /** With no match left, the rest of the text is one plain run (or nothing). */
  lemma LeftmostLast(t: string, from: nat)
    requires from <= |t| && FindMatch(t, from).None?
    ensures Leftmost(t, from, Tokens(t, from))
  {
    if from < |t| {
      assert Tokens(t, from) == [Plain(t[from..])];
      assert OkIn(t)(from, Plain(t[from..]));
      AllAtOne(OkIn(t), from, Plain(t[from..]));
    } else {
      assert Tokens(t, from) == [];
    }
  }

  /** The gap and the match that open a step of the scan satisfy `Leftmost` and span up to the match end. */
  lemma LeftmostHead(t: string, from: nat)
    requires from <= |t| && FindMatch(t, from).Some?
    ensures var i, m := FindMatch(t, from).value.0, FindMatch(t, from).value.1;
      var pre: seq<Span> := if i > from then [Plain(t[from..i])] else [];
      && AllAt(OkIn(t), from, pre + [m.piece])
      && from + Widths(pre + [m.piece]) == m.end
  {
    var i, m := FindMatch(t, from).value.0, FindMatch(t, from).value.1;
    var pre: seq<Span> := if i > from then [Plain(t[from..i])] else [];
    var ok := OkIn(t);
    if i > from {
      assert ok(from, Plain(t[from..i]));
      AllAtOne(ok, from, Plain(t[from..i]));
    }
    assert Widths(pre) == i - from;
    assert ok(i, m.piece);
    AllAtOne(ok, i, m.piece);
    AllAtAppend(ok, from, i, pre, [m.piece]);
    WidthsAppend(pre, [m.piece]);
  }

  /** A line in which nothing matches comes back as one plain run. */
  lemma NoMatchIsPlain(t: string)
    requires t != []
    requires forall p :: 0 <= p < |t| ==> MatchAt(t, p).None?
    ensures InlineTokens(t) == [Plain(t)]
  {
    assert FindMatch(t, 0).None?;
  }

  /** A source line whose stars cannot pair produces no bold or italic piece. */
  lemma LoneStarStaysPlain(t: string)
    requires Count(t, '*') <= 1
    ensures forall k :: 0 <= k < |InlineTokens(t)| ==>
      !InlineTokens(t)[k].Bold? && !InlineTokens(t)[k].Italic?
  {
    var xs := InlineTokens(t);
    TokensCover(t, 0);
    assert t[0..] == t;
    forall k | 0 <= k < |xs| ensures !xs[k].Bold? && !xs[k].Italic? {
      PieceWithin(xs, k, '*');
      match xs[k]
      case Bold(b) =>
        CountAppend("**", b, '*');
        CountAppend("**" + b, "**", '*');
      case Italic(b) =>
        CountAppend("*", b, '*');
        CountAppend("*" + b, "*", '*');
      case _ =>
    }
  }

  lemma {:induction false} PieceWithin(xs: seq<Span>, k: nat, c: char)
    requires k < |xs|
    ensures Count(Source(xs[k]), c) <= Count(SourceOf(xs), c)
  {
    var a, b := Source(xs[0]), SourceOf(xs[1..]);
    assert SourceOf(xs) == a + b;
    CountAppend(a, b, c);
    if k > 0 {
      PieceWithin(xs[1..], k - 1, c);
      assert xs[1..][k - 1] == xs[k];
    }
  }

  /** The link alternative matches every `[caption](url)` the expression describes. */
  lemma LinkAtComplete(t: string, i: nat, c: string, u: string)
    requires c != [] && ']' !in c && u != [] && ')' !in u
    requires OccursAt(t, "[" + c + "](" + u + ")", i)
    ensures LinkAt(t, i) == Some(Match(Link(c, u), i + |c| + |u| + 4))
  {
    var w := "[" + c + "](" + u + ")";
    assert t[i..i + |w|] == w;
    assert forall x :: 0 <= x < |w| ==> t[i + x] == w[x];
    var j := i + 1 + |c|;
    forall k | i + 1 <= k < j ensures t[k] != ']' { assert t[k] == w[k - i] == c[k - i - 1]; }
    assert t[j] == w[1 + |c|];
    assert t[j + 1] == w[2 + |c|];
    var e := j + 2 + |u|;
    forall k | j + 2 <= k < e ensures t[k] != ')' { assert t[k] == w[k - i] == u[k - j - 2]; }
    assert t[e] == w[|w| - 1];
    assert t[i + 1..j] == c by {
      forall x | 0 <= x < |c| ensures t[i + 1..j][x] == c[x] { assert t[i + 1 + x] == w[1 + x]; }
    }
    assert t[j + 2..e] == u by {
      forall x | 0 <= x < |u| ensures t[j + 2..e][x] == u[x] { assert t[j + 2 + x] == w[|c| + 3 + x]; }
    }
  }

  /** The bold alternative matches every `**body**` the expression describes. */
  lemma BoldAtComplete(t: string, i: nat, b: string)
    requires b != [] && '*' !in b
    requires OccursAt(t, "**" + b + "**", i)
    ensures BoldAt(t, i) == Some(Match(Bold(b), i + |b| + 4))
  {
    var w := "**" + b + "**";
    assert t[i..i + |w|] == w;
    assert forall x :: 0 <= x < |w| ==> t[i + x] == w[x];
    var j := i + 2 + |b|;
    forall k | i + 2 <= k < j ensures t[k] != '*' { assert t[k] == w[k - i] == b[k - i - 2]; }
    assert t[j] == w[2 + |b|] && t[j + 1] == w[3 + |b|];
    assert t[i + 2..j] == b by {
      forall x | 0 <= x < |b| ensures t[i + 2..j][x] == b[x] { assert t[i + 2 + x] == w[2 + x]; }
    }
  }

  /** The italic alternative matches every `*body*` the expression describes. */
  lemma ItalicAtComplete(t: string, i: nat, b: string)
    requires b != [] && '*' !in b
    requires OccursAt(t, "*" + b + "*", i)
    ensures ItalicAt(t, i) == Some(Match(Italic(b), i + |b| + 2))
  {
    var w := "*" + b + "*";
    assert t[i..i + |w|] == w;
    assert forall x :: 0 <= x < |w| ==> t[i + x] == w[x];
    var j := i + 1 + |b|;
    forall k | i + 1 <= k < j ensures t[k] != '*' { assert t[k] == w[k - i] == b[k - i - 1]; }
    assert t[j] == w[1 + |b|];
    assert t[i + 1..j] == b by {
      forall x | 0 <= x < |b| ensures t[i + 1..j][x] == b[x] { assert t[i + 1 + x] == w[1 + x]; }
    }
  }
}
