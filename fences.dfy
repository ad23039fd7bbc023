/**
 * The first cut the renderer makes: `text.split(/(```svg[\s\S]*?```)/g)`.
 *
 * The expression is a literal opening "```svg", a lazy run of anything, and
 * the first "```" after the opening; with a capturing group, the split keeps
 * every fence as its own part. So the parts alternate prose, fence, prose,
 * ..., prose: there is always an odd number of them, the fences sit at the odd
 * indices, and the prose parts may be empty (before a fence at the very start,
 * between two adjacent fences, after a fence at the very end).
 */
module Fences {
  import opened Text

  const Open: string := "```svg"
  const Close: string := "```"

  /** End of the fence that the expression matches at `q`, if it matches there. */
  function FenceEnd(t: string, q: nat): (r: Option<nat>)
    ensures r.Some? <==> OccursAt(t, Open, q) && Find(t, Close, q + 6).Some?
    ensures r.Some? ==> q + 9 <= r.value <= |t| && OccursAt(t, Close, r.value - 3)
    ensures r.Some? ==> forall k :: q + 6 <= k < r.value - 3 ==> !OccursAt(t, Close, k)
  {
    if OccursAt(t, Open, q) then
      match Find(t, Close, q + 6)
      case None => None
      case Some(k) => Some(k + 3)
    else None
  }

  /** The concatenation of the parts (`parts.join('')`). */
  function Concat(parts: seq<string>): string {
    if parts == [] then [] else parts[0] + Concat(parts[1..])
  }

  /**
   * The regular-expression split of `t[p..]`: the current prose part began at
   * `p`, and a fence has been tried, and has failed, at every index in `[p, q)`.
   */
  function SplitFences(t: string, p: nat, q: nat): (parts: seq<string>)
    requires p <= q <= |t|
    decreases |t| - q
    ensures |parts| % 2 == 1
    ensures Concat(parts) == t[p..]
  {
    if q == |t| then
      [t[p..]]
    else
      match FenceEnd(t, q)
      case Some(e) =>
        var rest := SplitFences(t, e, e);
        assert t[q..] == t[q..e] + t[e..];
        assert t[p..] == t[p..q] + t[q..];
        assert ([t[p..q], t[q..e]] + rest)[1..] == [t[q..e]] + rest;
        assert ([t[q..e]] + rest)[1..] == rest;
        [t[p..q], t[q..e]] + rest
      case None =>
        SplitFences(t, p, q + 1)
  }

  /** The parts of a whole document. */
  function Parts(t: string): seq<string> {
    SplitFences(t, 0, 0)
  }

  /**
   * A fence as the lazy expression matches it: the opening, at least the
   * closing after it, and no earlier closing after the opening.
   */
  predicate IsFence(f: string) {
    && |f| >= 9
    && StartsWith(f, Open)
    && OccursAt(f, Close, |f| - 3)
    && forall k :: 6 <= k < |f| - 3 ==> !OccursAt(f, Close, k)
  }

  /** `.replace(/```svg\n?/, '')` on a part that starts with the opening drops it and one newline. */
  function DropNewline(b: string): string {
    if b != [] && b[0] == '\n' then b[1..] else b
  }

  /**
   * The diagram source handed to the page: the opening and an optional newline
   * removed, then a closing "```" removed when the part ends with one.
   */
  function SvgPayload(part: string): (r: string)
    requires StartsWith(part, Open)
    ensures var k := if |part| > 6 && part[6] == '\n' then 7 else 6;
      k + |r| <= |part| && r == part[k..k + |r|]
    ensures var k := if |part| > 6 && part[6] == '\n' then 7 else 6;
      k + |r| == |part| || part[k + |r|..] == Close
  {
    var body := DropNewline(part[6..]);
    if |body| >= 3 && body[|body| - 3..] == Close then body[..|body| - 3] else body
  }

  /** No fence can be matched anywhere inside `s`. */
  predicate NoFence(s: string) {
    forall i :: 0 <= i < |s| ==> FenceEnd(s, i).None?
  }
}

module FenceFacts {
  import opened Text
  import opened Fences

  /** `pat` occurs in a slice exactly where it occurs, inside the slice, in the whole. */
  lemma OccursInSlice(t: string, pat: string, p: nat, e: nat, k: nat)
    requires p <= e <= |t|
    ensures OccursAt(t[p..e], pat, k) <==> (k + |pat| <= e - p && OccursAt(t, pat, p + k))
  {
    if k + |pat| <= e - p {
      SliceOfSlice(t, p, e, k, k + |pat|);
    }
  }

  lemma SliceOfSlice(t: string, p: nat, e: nat, i: nat, j: nat)
    requires p <= e <= |t| && i <= j <= e - p
    ensures t[p..e][i..j] == t[p + i..p + j]
  {
    assert |t[p..e][i..j]| == |t[p + i..p + j]|;
    forall x | 0 <= x < j - i
      ensures t[p..e][i..j][x] == t[p + i..p + j][x]
    {
    }
  }

  /** A match found inside a slice is a match of the whole text at the same place. */
  lemma FenceInSlice(t: string, p: nat, e: nat, i: nat)
    requires p <= e <= |t| && FenceEnd(t[p..e], i).Some?
    ensures FenceEnd(t, p + i).Some?
  {
    var s := t[p..e];
    var k := Find(s, Close, i + 6).value;
    OccursInSlice(t, Open, p, e, i);
    OccursInSlice(t, Close, p, e, k);
  }

  /** A fence matched at `q` is a well-formed fence. */
  lemma MatchIsFence(t: string, q: nat)
    requires FenceEnd(t, q).Some?
    ensures IsFence(t[q..FenceEnd(t, q).value])
  {
    var e := FenceEnd(t, q).value;
    var f := t[q..e];
    OccursInSlice(t, Open, q, e, 0);
    OccursInSlice(t, Close, q, e, |f| - 3);
    forall k | 6 <= k < |f| - 3
      ensures !OccursAt(f, Close, k)
    {
      OccursInSlice(t, Close, q, e, k);
    }
  }

  /** Fences sit at the odd indices. */
  lemma {:induction false} OddPartsAreFences(t: string, p: nat, q: nat)
    requires p <= q <= |t|
    decreases |t| - q
    ensures forall k :: 0 <= k < |SplitFences(t, p, q)| && k % 2 == 1 ==> IsFence(SplitFences(t, p, q)[k])
  {
    if q < |t| {
      match FenceEnd(t, q)
      case Some(e) =>
        MatchIsFence(t, q);
        OddPartsAreFences(t, e, e);
        var rest := SplitFences(t, e, e);
        assert SplitFences(t, p, q) == [t[p..q], t[q..e]] + rest;
        forall k | 0 <= k < |SplitFences(t, p, q)| && k % 2 == 1
          ensures IsFence(SplitFences(t, p, q)[k])
        {
          if k > 1 {
            assert SplitFences(t, p, q)[k] == rest[k - 2];
          }
        }
      case None =>
        OddPartsAreFences(t, p, q + 1);
    }
  }

  /** Prose sits at the even indices, and no fence can be matched inside it. */
  lemma {:induction false} EvenPartsHaveNoFence(t: string, p: nat, q: nat)
    requires p <= q <= |t|
    requires forall i :: p <= i < q ==> FenceEnd(t, i).None?
    decreases |t| - q
    ensures forall k :: 0 <= k < |SplitFences(t, p, q)| && k % 2 == 0 ==> NoFence(SplitFences(t, p, q)[k])
  {
    if q == |t| {
      ProseSlice(t, p, q);
      assert t[p..] == t[p..q];
    } else {
      match FenceEnd(t, q)
      case Some(e) =>
        ProseSlice(t, p, q);
        EvenPartsHaveNoFence(t, e, e);
        var rest := SplitFences(t, e, e);
        assert SplitFences(t, p, q) == [t[p..q], t[q..e]] + rest;
        forall k | 0 <= k < |SplitFences(t, p, q)| && k % 2 == 0
          ensures NoFence(SplitFences(t, p, q)[k])
        {
          if k > 1 {
            assert SplitFences(t, p, q)[k] == rest[k - 2];
          }
        }
      case None =>
        EvenPartsHaveNoFence(t, p, q + 1);
    }
  }

  lemma ProseSlice(t: string, p: nat, q: nat)
    requires p <= q <= |t|
    requires forall i :: p <= i < q ==> FenceEnd(t, i).None?
    ensures NoFence(t[p..q])
  {
    forall i | 0 <= i < q - p
      ensures FenceEnd(t[p..q], i).None?
    {
      if FenceEnd(t[p..q], i).Some? {
        FenceInSlice(t, p, q, i);
      }
    }
  }

  /** The parts of a document alternate prose and fences, and concatenate back to it. */
  lemma PartsShape(t: string)
    ensures |Parts(t)| % 2 == 1 && Concat(Parts(t)) == t
    ensures forall k :: 0 <= k < |Parts(t)| && k % 2 == 1 ==> IsFence(Parts(t)[k])
    ensures forall k :: 0 <= k < |Parts(t)| && k % 2 == 0 ==> NoFence(Parts(t)[k])
  {
    OddPartsAreFences(t, 0, 0);
    EvenPartsHaveNoFence(t, 0, 0);
  }

  /** A closed fence hands over exactly what lies between the opening (and its newline) and the closing. */
  lemma FencePayload(f: string)
    requires IsFence(f)
    ensures SvgPayload(f) == DropNewline(f[6..|f| - 3])
    ensures Free(SvgPayload(f), Close)
  {
    var b := f[6..|f| - 3];
    assert f[6..] == b + Close;
    var d := DropNewline(b);
    assert DropNewline(f[6..]) == d + Close;
    assert (d + Close)[|d + Close| - 3..] == Close;
    assert (d + Close)[..|d + Close| - 3] == d;
    var s := if b != [] && b[0] == '\n' then 7 else 6;
    assert d == f[s..|f| - 3];
    forall j | 0 <= j <= |d|
      ensures !OccursAt(d, Close, j)
    {
      OccursInSlice(f, Close, s, |f| - 3, j);
    }
  }

  /**
   * A part that opens like a fence but has no closing (the unclosed tail of a
   * document) keeps everything after the opening: the trailing removal finds
   * nothing to remove.
   */
  lemma UnclosedPayload(part: string)
    requires NoFence(part) && StartsWith(part, Open)
    ensures SvgPayload(part) == DropNewline(part[6..])
    ensures Free(SvgPayload(part), Close)
  {
    assert FenceEnd(part, 0).None?;
    var s := if |part| > 6 && part[6] == '\n' then 7 else 6;
    var d := DropNewline(part[6..]);
    assert d == part[s..];
    forall j | 0 <= j <= |d|
      ensures !OccursAt(d, Close, j)
    {
      OccursInSlice(part, Close, s, |part|, j);
      assert part[s..] == part[s..|part|];
    }
    if |d| >= 3 && d[|d| - 3..] == Close {
      assert OccursAt(d, Close, |d| - 3);
    }
  }

  /** A fence at `q` supplies a closing for any opening at or before `q`. */
  lemma ClosingAfter(t: string, p: nat, q: nat)
    requires p <= q && FenceEnd(t, q).Some?
    ensures Find(t, Close, p + 6).Some?
    ensures OccursAt(t, Open, p) ==> FenceEnd(t, p).Some?
  {
    var c := Find(t, Close, q + 6).value;
    assert OccursAt(t, Close, c);
  }

  /**
   * Only the last part can be prose that opens like a fence: a prose part that
   * is followed by a fence has a closing after it, so a fence would have
   * matched at its own start.
   */
  lemma {:induction false} OpenProseIsLast(t: string, p: nat, q: nat)
    requires p <= q <= |t|
    requires forall i :: p <= i < q ==> FenceEnd(t, i).None?
    decreases |t| - q
    ensures forall k :: 0 <= k < |SplitFences(t, p, q)| - 1 && k % 2 == 0 ==> !StartsWith(SplitFences(t, p, q)[k], Open)
  {
    if q < |t| {
      match FenceEnd(t, q)
      case Some(e) =>
        if StartsWith(t[p..q], Open) {
          OccursInSlice(t, Open, p, q, 0);
          ClosingAfter(t, p, q);
          assert false;
        }
        OpenProseIsLast(t, e, e);
        var rest := SplitFences(t, e, e);
        assert SplitFences(t, p, q) == [t[p..q], t[q..e]] + rest;
        forall k | 0 <= k < |SplitFences(t, p, q)| - 1 && k % 2 == 0
          ensures !StartsWith(SplitFences(t, p, q)[k], Open)
        {
          if k > 1 {
            assert SplitFences(t, p, q)[k] == rest[k - 2];
          }
        }
      case None =>
        OpenProseIsLast(t, p, q + 1);
    }
  }
}
