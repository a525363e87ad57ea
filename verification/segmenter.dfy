/**
 The first pass of the quiz parser. The document is split with `re.split` on
 the capturing marker pattern `(\n\s*\*\*\d+\.\s*)`; every captured marker is
 glued back onto the text that follows it; and the leading piece is kept as a
 chunk of its own only when, once stripped, it starts with `**`.

 A marker is described by where Python's `re` finds it (`MarkerAt`), the split
 by the list of marker spans it uses (`SpansFrom`), and that list is shown to be
 the unique leftmost, non-overlapping choice (`IsSplittingFrom`).
 */
module Segmenter {
  import opened Wrappers
  import opened Text

  /** One way the marker pattern `\n\s*\*\*\d+\.\s*` matches `t[i..e]`: the
      newline at `i`, whitespace up to the stars at `j`, digits up to the period
      at `d`, whitespace up to `e`. */
  ghost predicate MarkerSpan(t: string, i: nat, j: nat, d: nat, e: nat) {
    && i < j && d < e <= |t|
    && StarsAt(t, j)
    && t[i] == '\n'
    && (forall k :: i < k < j ==> IsSpace(t[k]))
    && j + 2 < d && (forall k :: j + 2 <= k < d ==> IsDigit(t[k]))
    && t[d] == '.'
    && (forall k :: d < k < e ==> IsSpace(t[k]))
  }

  /** The match of the marker pattern that Python's `re` tries first at `i`:
      every quantifier is greedy, so the trailing `\s*` runs as far as it can. */
  function MarkerAt(t: string, i: nat): (r: Option<nat>)
    ensures r.Some? ==> i < r.value <= |t| && t[i] == '\n'
    ensures r.Some? ==> r.value == |t| || !IsSpace(t[r.value])
  {
    if i < |t| && t[i] == '\n' then
      var j := SkipSpace(t, i + 1);
      if StarsAt(t, j) then
        var d := SkipDigits(t, j + 2);
        if j + 2 < d < |t| && t[d] == '.' then Some(SkipSpace(t, d + 1)) else None
      else None
    else None
  }

  /** What `MarkerAt` finds is a match of the marker pattern. */
  lemma MarkerAtSound(t: string, i: nat)
    requires MarkerAt(t, i).Some?
    ensures exists j, d :: MarkerSpan(t, i, j, d, MarkerAt(t, i).value)
  {
    var j := SkipSpace(t, i + 1);
    var d := SkipDigits(t, j + 2);
    assert MarkerSpan(t, i, j, d, MarkerAt(t, i).value);
  }

  /** Every way the marker pattern can match at `i` is found by `MarkerAt`,
      which returns the longest of them. */
  lemma MarkerAtLongest(t: string, i: nat, j: nat, d: nat, e: nat)
    requires MarkerSpan(t, i, j, d, e)
    ensures MarkerAt(t, i).Some? && e <= MarkerAt(t, i).value
  {
    SkipSpaceIs(t, i + 1, j);
    SkipDigitsIs(t, j + 2, d);
  }

  ghost predicate NoMarkerIn(t: string, lo: nat, hi: nat) {
    forall i :: lo <= i < hi ==> MarkerAt(t, i).None?
  }

  /** The positions where a marker starts. */
  function Marks(t: string): nat -> bool {
    (i: nat) => MarkerAt(t, i).Some?
  }

  /** The leftmost marker at or after `from`, as `re.split` looks for the next one. */
  function NextMarker(t: string, from: nat): (r: Option<(nat, nat)>)
    requires from <= |t|
    ensures r.Some? ==> from <= r.value.0 && MarkerAt(t, r.value.0) == Some(r.value.1)
    ensures r.Some? ==> NoMarkerIn(t, from, r.value.0)
    ensures r.None? ==> NoMarkerIn(t, from, |t|)
  {
    var f := FirstWhere(Marks(t), from, |t|);
    if f.None? then
      NoMarks(t, from, |t|);
      None
    else
      NoMarks(t, from, f.value);
      Some((f.value, MarkerAt(t, f.value).value))
  }

  lemma NoMarks(t: string, lo: nat, hi: nat)
    requires forall k: nat :: lo <= k < hi ==> !Marks(t)(k)
    ensures NoMarkerIn(t, lo, hi)
  {
    forall i | lo <= i < hi ensures MarkerAt(t, i).None? {
      assert !Marks(t)(i);
    }
  }

  /** Where the next span starts, or the end of the text when there is none. */
  function NextStart(t: string, sp: seq<(nat, nat)>): nat
  {
    if |sp| == 0 then |t| else sp[0].0
  }

  /** Spans listed left to right inside `t[from..]`, none empty, none overlapping. */
  ghost predicate Ordered(t: string, from: nat, sp: seq<(nat, nat)>)
    decreases |sp|
  {
    && from <= |t|
    && (|sp| > 0 ==> from <= sp[0].0 < sp[0].1 && Ordered(t, sp[0].1, sp[1..]))
  }

  /** The reference reading of a split of `t[from..]`: a list of marker
      matches, each found where `MarkerAt` finds it, with no marker starting
      anywhere in the text before, between or after them. */
  ghost predicate IsSplittingFrom(t: string, from: nat, sp: seq<(nat, nat)>) {
    && from <= NextStart(t, sp) <= |t|
    && NoMarkerIn(t, from, NextStart(t, sp))
    && (forall k :: 0 <= k < |sp| ==> MarkerAt(t, sp[k].0) == Some(sp[k].1))
    && (forall k :: 0 <= k < |sp| ==>
          sp[k].1 <= NextStart(t, sp[k + 1..]) && NoMarkerIn(t, sp[k].1, NextStart(t, sp[k + 1..])))
  }

  /** The marker spans `re.split` uses, scanning from `from`: the leftmost
      match, then the leftmost match after it, and so on. */
  function SpansFrom(t: string, from: nat): (r: seq<(nat, nat)>)
    requires from <= |t|
    ensures Ordered(t, from, r)
    decreases |t| - from
  {
    match NextMarker(t, from)
    case None => []
    case Some(m) =>
      var r := [m] + SpansFrom(t, m.1);
      assert r[1..] == SpansFrom(t, m.1);
      r
  }

  /** The spans `re.split` uses meet the reference reading. */
  lemma {:induction false} SpansFromSplitting(t: string, from: nat)
    requires from <= |t|
    ensures IsSplittingFrom(t, from, SpansFrom(t, from))
    decreases |t| - from
  {
    var sp := SpansFrom(t, from);
    match NextMarker(t, from)
    case None =>
    case Some(m) =>
      var rest := SpansFrom(t, m.1);
      SpansFromSplitting(t, m.1);
      assert sp == [m] + rest;
      forall k | 0 <= k < |sp|
        ensures MarkerAt(t, sp[k].0) == Some(sp[k].1)
        ensures sp[k].1 <= NextStart(t, sp[k + 1..]) && NoMarkerIn(t, sp[k].1, NextStart(t, sp[k + 1..]))
      {
        if k > 0 {
          assert sp[k] == rest[k - 1];
          assert sp[k + 1..] == rest[k..];
        } else {
          assert sp[1..] == rest;
        }
      }
  }

  lemma NextMarkerIs(t: string, from: nat, i: nat)
    requires from <= i && MarkerAt(t, i).Some? && NoMarkerIn(t, from, i)
    ensures NextMarker(t, from) == Some((i, MarkerAt(t, i).value))
  {
    assert forall k: nat :: from <= k < i ==> !Marks(t)(k);
    FirstWhereIs(Marks(t), from, |t|, i);
  }

  lemma NextMarkerNone(t: string, from: nat)
    requires from <= |t| && NoMarkerIn(t, from, |t|)
    ensures NextMarker(t, from) == None
  {
  }

  /** The first span of a reference split is the leftmost marker. */
  lemma SplittingHead(t: string, from: nat, sp: seq<(nat, nat)>)
    requires IsSplittingFrom(t, from, sp)
    ensures NextMarker(t, from) == if |sp| == 0 then None else Some(sp[0])
  {
    if |sp| == 0 {
      NextMarkerNone(t, from);
    } else {
      NextMarkerIs(t, from, sp[0].0);
    }
  }

  /** What follows the first span of a reference split is a reference split of the rest. */
  lemma SplittingTail(t: string, from: nat, sp: seq<(nat, nat)>)
    requires IsSplittingFrom(t, from, sp) && |sp| > 0
    ensures IsSplittingFrom(t, sp[0].1, sp[1..])
  {
    var rest := sp[1..];
    forall k | 0 <= k < |rest|
      ensures MarkerAt(t, rest[k].0) == Some(rest[k].1)
      ensures rest[k].1 <= NextStart(t, rest[k + 1..]) && NoMarkerIn(t, rest[k].1, NextStart(t, rest[k + 1..]))
    {
      assert rest[k] == sp[k + 1];
      assert rest[k + 1..] == sp[k + 2..];
    }
  }

  /** A split is determined by the text: only one list of spans meets the reference reading. */
  lemma {:induction false} SplittingUnique(t: string, from: nat, sp: seq<(nat, nat)>)
    requires IsSplittingFrom(t, from, sp)
    ensures sp == SpansFrom(t, from)
    decreases |sp|
  {
    SplittingHead(t, from, sp);
    if |sp| > 0 {
      var m, rest := sp[0], sp[1..];
      SplittingTail(t, from, sp);
      SplittingUnique(t, m.1, rest);
      assert SpansFrom(t, from) == [m] + SpansFrom(t, m.1);
      assert sp == [m] + rest;
    }
  }

  function Spans(t: string): (r: seq<(nat, nat)>)
    ensures Ordered(t, 0, r)
  {
    SpansFrom(t, 0)
  }

  lemma {:induction false} ConcatAppend(a: seq<string>, b: seq<string>)
    ensures Concat(a + b) == Concat(a) + Concat(b)
    decreases |a|
  {
    if |a| > 0 {
      ConcatAppend(a[1..], b);
      assert (a + b)[1..] == a[1..] + b;
    } else {
      assert a + b == b;
    }
  }

  /** `re.split` given the spans it splits at: the text pieces with the
      captured markers between them. */
  function SplitWith(t: string, from: nat, sp: seq<(nat, nat)>): (r: seq<string>)
    requires Ordered(t, from, sp)
    ensures |r| == 2 * |sp| + 1
    ensures Concat(r) == t[from..]
    decreases |sp|
  {
    if |sp| == 0 then [t[from..]]
    else
      var rest := SplitWith(t, sp[0].1, sp[1..]);
      var r := [t[from..sp[0].0], t[sp[0].0..sp[0].1]] + rest;
      ConcatAppend([t[from..sp[0].0], t[sp[0].0..sp[0].1]], rest);
      assert t[from..] == t[from..sp[0].0] + t[sp[0].0..sp[0].1] + t[sp[0].1..];
      r
  }

  /** Piece `0` is the text before the first marker; piece `2k+1` is marker
      `k`; piece `2k+2` is the text from marker `k` to the next one. */
  lemma {:induction false} SplitWithPieces(t: string, from: nat, sp: seq<(nat, nat)>, k: nat)
    requires Ordered(t, from, sp)
    ensures from <= NextStart(t, sp) <= |t|
    ensures SplitWith(t, from, sp)[0] == t[from..NextStart(t, sp)]
    ensures k < |sp| ==> from <= sp[k].0 < sp[k].1 <= NextStart(t, sp[k + 1..]) <= |t|
    ensures k < |sp| ==> SplitWith(t, from, sp)[2 * k + 1] == t[sp[k].0..sp[k].1]
    ensures k < |sp| ==> SplitWith(t, from, sp)[2 * k + 2] == t[sp[k].1..NextStart(t, sp[k + 1..])]
    decreases |sp|
  {
    if |sp| > 0 {
      var rest := sp[1..];
      SplitWithPieces(t, sp[0].1, rest, 0);
      if 0 < k < |sp| {
        SplitWithPieces(t, sp[0].1, rest, k - 1);
        assert rest[k - 1] == sp[k];
        assert rest[k..] == sp[k + 1..];
      }
    }
  }

  /** `re.split(r'(\n\s*\*\*\d+\.\s*)', t)`: the list `blocks` of the source. */
  function Split(t: string): (r: seq<string>)
    ensures |r| == 2 * |Spans(t)| + 1
    ensures Concat(r) == t
  {
    SplitWith(t, 0, Spans(t))
  }

  /** `[blocks[i] + blocks[i+1] for i in range(1, len(blocks) - 1, 2)]`: each
      captured marker glued to the text that follows it. */
  function GluePairs(blocks: seq<string>): (r: seq<string>)
    ensures |r| == if |blocks| < 2 then 0 else (|blocks| - 1) / 2
    decreases |blocks|
  {
    if |blocks| < 3 then [] else [blocks[1] + blocks[2]] + GluePairs(blocks[2..])
  }

  lemma {:induction false} GluePairsAt(blocks: seq<string>, k: nat)
    requires k < (|blocks| - 1) / 2
    ensures GluePairs(blocks)[k] == blocks[2 * k + 1] + blocks[2 * k + 2]
    decreases |blocks|
  {
    if k > 0 {
      GluePairsAt(blocks[2..], k - 1);
    }
  }

  lemma {:induction false} GluePairsConcat(blocks: seq<string>)
    requires |blocks| % 2 == 1
    ensures Concat(GluePairs(blocks)) == Concat(blocks[1..])
    decreases |blocks|
  {
    if |blocks| >= 3 {
      var rest := blocks[2..];
      GluePairsConcat(rest);
      assert blocks[1..] == [blocks[1]] + rest;
      ConcatAppend([blocks[1]], rest);
      ConcatAppend([blocks[1] + blocks[2]], GluePairs(rest));
      assert rest == [rest[0]] + rest[1..];
      ConcatAppend([rest[0]], rest[1..]);
    }
  }

  /** The leading piece of the split: the text before the first marker. */
  function Preamble(t: string): string
  {
    Split(t)[0]
  }

  /** The source keeps the leading piece when, stripped, it starts with `**`. */
  predicate KeepsPreamble(t: string) {
    StartsWith(Strip(Preamble(t)), "**")
  }

  /** The glued blocks, with the leading block put in front when, stripped,
      it starts with `**`. */
  function ChunksOf(blocks: seq<string>): seq<string>
    requires |blocks| > 0
  {
    var fullBlocks := GluePairs(blocks);
    if StartsWith(Strip(blocks[0]), "**") then [blocks[0]] + fullBlocks else fullBlocks
  }

  /** The chunk list the extractor works through. */
  function Chunks(t: string): seq<string>
  {
    ChunksOf(Split(t))
  }

  // ---- Properties of the chunk list ----

  /** One chunk per marker, plus the preamble exactly when its stripped form starts with `**`. */
  lemma ChunkCount(t: string)
    ensures |Chunks(t)| == |Spans(t)| + (if KeepsPreamble(t) then 1 else 0)
  {
  }

  /** The preamble is the document up to its first marker. */
  lemma PreambleIs(t: string)
    ensures NextStart(t, Spans(t)) <= |t| && Preamble(t) == t[..NextStart(t, Spans(t))]
  {
    SplitWithPieces(t, 0, Spans(t), 0);
  }

  /** Glued pair `k` of a split is span `k` together with the text up to the next span. */
  lemma GluedPiece(t: string, from: nat, sp: seq<(nat, nat)>, k: nat)
    requires Ordered(t, from, sp) && k < |sp|
    ensures sp[k].0 <= NextStart(t, sp[k + 1..]) <= |t|
    ensures GluePairs(SplitWith(t, from, sp))[k] == t[sp[k].0..NextStart(t, sp[k + 1..])]
  {
    SplitWithPieces(t, from, sp, k);
    GluePairsAt(SplitWith(t, from, sp), k);
  }

  /** Glued chunk `k` is marker `k` together with all the text up to the next marker (or the end). */
  lemma ChunkContents(t: string, k: nat)
    requires k < |Spans(t)|
    ensures Spans(t)[k].0 <= NextStart(t, Spans(t)[k + 1..]) <= |t|
    ensures GluePairs(Split(t))[k] == t[Spans(t)[k].0..NextStart(t, Spans(t)[k + 1..])]
  {
    GluedPiece(t, 0, Spans(t), k);
  }

  /** Gluing keeps every block but the first, in order. */
  lemma GlueAll(blocks: seq<string>)
    requires |blocks| % 2 == 1
    ensures Concat(GluePairs(blocks)) == Concat(blocks[1..])
    ensures Concat(blocks) == blocks[0] + Concat(blocks[1..])
    ensures Concat([blocks[0]] + GluePairs(blocks)) == Concat(blocks)
  {
    GluePairsConcat(blocks);
    assert blocks == [blocks[0]] + blocks[1..];
    ConcatAppend([blocks[0]], blocks[1..]);
    ConcatAppend([blocks[0]], GluePairs(blocks));
  }

  /** Nothing of the document is lost but a discarded preamble: the chunks put
      back together give the document, or the document from its first marker on. */
  lemma ChunksConcat(t: string)
    ensures KeepsPreamble(t) ==> Concat(Chunks(t)) == t
    ensures !KeepsPreamble(t) ==> Concat(Chunks(t)) == t[|Preamble(t)|..]
  {
    var blocks := Split(t);
    GlueAll(blocks);
    assert Chunks(t) == ChunksOf(blocks);
  }

  /** A document that starts with `**` keeps its first piece: question 1 is
      not lost although a marker at offset 0 is never a split point. */
  lemma LeadingQuestionKept(t: string)
    requires StartsWith(t, "**")
    ensures MarkerAt(t, 0).None?
    ensures KeepsPreamble(t) && Chunks(t)[0] == Preamble(t) && StartsWith(Preamble(t), "**")
  {
    PreambleStars(t);
    StripKeepsStars(Preamble(t));
  }

  lemma PreambleStars(t: string)
    requires StartsWith(t, "**")
    ensures StartsWith(Preamble(t), "**")
  {
    var sp := Spans(t);
    SpansFromSplitting(t, 0);
    if |sp| > 0 {
      assert MarkerAt(t, sp[0].0) == Some(sp[0].1);
    }
    FirstPieceStars(t, sp);
  }

  lemma FirstPieceStars(t: string, sp: seq<(nat, nat)>)
    requires StartsWith(t, "**") && Ordered(t, 0, sp)
    requires |sp| > 0 ==> sp[0].0 < |t| && t[sp[0].0] == '\n'
    ensures StartsWith(SplitWith(t, 0, sp)[0], "**")
  {
    SplitWithPieces(t, 0, sp, 0);
  }

  /** Stripping a string that starts with `**` keeps the two stars in front. */
  lemma StripKeepsStars(s: string)
    requires StartsWith(s, "**")
    ensures StartsWith(Strip(s), "**")
  {
    assert s[0] == '*' && s[1] == '*';
    assert SkipSpace(s, 0) == 0;
    assert SkipSpaceBack(s, 0, |s|) >= 2;
  }
}
