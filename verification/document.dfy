/**
 Whole documents. A quiz written block after block, each block on a line of
 its own after an optional introduction and followed by optional whitespace,
 is parsed back into exactly its questions, in order: the introduction adds
 no record and every block is found by the segmenter and read by the
 extractor.
 */
module Document {
  import opened Wrappers
  import opened Text
  import opened Options
  import opened Segmenter
  import opened Extractor
  import opened Render
  import opened Parser

  /** The blocks of the questions, each after a line break. */
  function Pieces(qs: seq<Source>): string
    decreases |qs|
  {
    if |qs| == 0 then "" else "\n" + PieceText(qs[0]) + Pieces(qs[1..])
  }

  /** A quiz document: an introduction, the blocks, trailing text. */
  function QuizText(intro: string, qs: seq<Source>, trail: string): string
  {
    intro + Pieces(qs) + trail
  }

  /** The records the questions describe, in order. */
  function ExpectedAll(qs: seq<Source>): (r: seq<Question>)
    requires forall k :: 0 <= k < |qs| ==> Writable(qs[k])
    ensures |r| == |qs| && forall k :: 0 <= k < |qs| ==> r[k] == Expected(qs[k])
  {
    seq(|qs|, k requires 0 <= k < |qs| => Expected(qs[k]))
  }

  /** An introduction the parser drops without a trace: no `*`, and not ending
      in whitespace (which would join the line break of the first block). */
  predicate PlainIntro(intro: string) {
    NoStar(intro) && (|intro| == 0 || !IsSpace(intro[|intro| - 1]))
  }

  // ---- Where the blocks lie ----

  lemma {:induction false} PiecesAppend(a: seq<Source>, b: seq<Source>)
    ensures Pieces(a + b) == Pieces(a) + Pieces(b)
    decreases |a|
  {
    if |a| == 0 {
      assert a + b == b;
    } else {
      assert (a + b)[1..] == a[1..] + b;
      PiecesAppend(a[1..], b);
    }
  }

  /** Where block `k` starts: its line break. */
  function Start(intro: string, qs: seq<Source>, k: nat): nat
    requires k <= |qs|
  {
    |intro| + |Pieces(qs[..k])|
  }

  lemma PiecesOne(q: Source)
    ensures Pieces([q]) == "\n" + PieceText(q)
  {
    assert [q][1..] == [];
  }

  lemma PiecesSplit(qs: seq<Source>, k: nat)
    requires k < |qs|
    ensures Pieces(qs) == Pieces(qs[..k]) + ("\n" + PieceText(qs[k])) + Pieces(qs[k + 1..])
  {
    var tail := [qs[k]] + qs[k + 1..];
    assert qs == qs[..k] + tail;
    PiecesAppend(qs[..k], tail);
    PiecesAppend([qs[k]], qs[k + 1..]);
    PiecesOne(qs[k]);
    Glue3(Pieces(qs), Pieces(qs[..k]), Pieces(tail), "\n" + PieceText(qs[k]), Pieces(qs[k + 1..]));
  }

  lemma Glue3(w: string, a: string, m: string, b: string, c: string)
    requires w == a + m && m == b + c
    ensures w == a + b + c
  {
  }

  lemma PiecesNext(qs: seq<Source>, k: nat)
    requires k < |qs|
    ensures |Pieces(qs[..k + 1])| == |Pieces(qs[..k])| + 1 + |PieceText(qs[k])|
  {
    assert qs[..k + 1] == qs[..k] + [qs[k]];
    PiecesAppend(qs[..k], [qs[k]]);
    PiecesOne(qs[k]);
  }

  lemma Regroup(a: string, b: string, c: string, d: string, e: string)
    ensures a + (b + c + d) + e == (a + b) + c + (d + e)
  {
  }

  lemma PieceOccurs(intro: string, qs: seq<Source>, trail: string, k: nat)
    requires k < |qs|
    ensures OccursAt(QuizText(intro, qs, trail), |intro| + |Pieces(qs[..k])|, "\n" + PieceText(qs[k]))
  {
    var piece := "\n" + PieceText(qs[k]);
    var b := Pieces(qs[..k]);
    PiecesSplit(qs, k);
    Regroup(intro, b, piece, Pieces(qs[k + 1..]), trail);
    OccursWhole(intro + b, piece, Pieces(qs[k + 1..]) + trail);
  }

  /** Block `k` lies at its start, and the next one starts right after it. */
  lemma PieceAt(intro: string, qs: seq<Source>, trail: string, k: nat)
    requires k < |qs|
    ensures OccursAt(QuizText(intro, qs, trail), Start(intro, qs, k), "\n" + PieceText(qs[k]))
    ensures Start(intro, qs, k + 1) == Start(intro, qs, k) + 1 + |PieceText(qs[k])|
  {
    var b := Pieces(qs[..k]);
    assert Start(intro, qs, k) == |intro| + |b|;
    PieceOccurs(intro, qs, trail, k);
    PiecesNext(qs, k);
    assert Start(intro, qs, k + 1) == |intro| + |Pieces(qs[..k + 1])|;
  }

  /** The introduction and the trailing text lie at the two ends. */
  lemma EndsAt(intro: string, qs: seq<Source>, trail: string)
    ensures OccursAt(QuizText(intro, qs, trail), 0, intro)
    ensures Start(intro, qs, |qs|) + |trail| == |QuizText(intro, qs, trail)|
    ensures QuizText(intro, qs, trail)[Start(intro, qs, |qs|)..] == trail
  {
    var t := QuizText(intro, qs, trail);
    assert qs[..|qs|] == qs;
    assert forall k :: 0 <= k < |intro| ==> t[k] == intro[k];
  }

  // ---- Where the segmenter finds markers ----

  /** A line break followed by `**` and a question head is a marker ending where the question starts. */
  lemma MarkerFromHead(t: string, i: nat)
    requires i + 1 < |t| && t[i] == '\n' && t[i + 1] == '*' && Head(t, i + 1).Some?
    ensures MarkerAt(t, i) == Some(Head(t, i + 1).value.1)
  {
    SkipSpaceIs(t, i + 1, i + 1);
  }

  /** A line break followed by something other than whitespace or `*` starts no marker. */
  lemma QuietBreak(t: string, j: nat)
    requires j + 1 < |t| && !IsSpace(t[j + 1]) && t[j + 1] != '*'
    ensures MarkerAt(t, j).None?
  {
    SkipSpaceIs(t, j + 1, j + 1);
  }

  lemma NoMarkerJoin(t: string, a: nat, b: nat, c: nat)
    requires a <= b <= c && NoMarkerIn(t, a, b) && NoMarkerIn(t, b, c)
    ensures NoMarkerIn(t, a, c)
  {
  }

  /** A `*`-free text that does not end in whitespace holds no marker: the
      whitespace after any of its line breaks stops inside it, at a character
      that is not `*`. */
  lemma QuietText(t: string, x: nat, u: string)
    requires OccursAt(t, x, u) && NoStar(u) && (|u| == 0 || !IsSpace(u[|u| - 1]))
    ensures NoMarkerIn(t, x, x + |u|)
  {
    forall j | x <= j < x + |u| ensures MarkerAt(t, j).None? {
      if t[j] == '\n' {
        var last := x + |u| - 1;
        OccursChar(t, x, u, j - x);
        OccursChar(t, x, u, |u| - 1);
        var r := SkipSpace(t, j + 1);
        assert r <= last;
        OccursChar(t, x, u, r - x);
      }
    }
  }

  /** Whitespace up to the end of the text holds no marker. */
  lemma QuietSpace(t: string, lo: nat)
    requires lo <= |t| && forall k :: lo <= k < |t| ==> IsSpace(t[k])
    ensures NoMarkerIn(t, lo, |t|)
  {
    forall j | lo <= j < |t| ensures MarkerAt(t, j).None? {
      if j + 1 <= |t| {
        SkipSpaceIs(t, j + 1, |t|);
      }
    }
  }

  /** An option line holds no marker when what follows it is neither
      whitespace nor `*`: its only line break is its last character. */
  lemma QuietLine(t: string, o: nat, e: Entry)
    requires OccursAt(t, o, OptionLine(e)) && WritableEntry(e)
    requires o + |OptionLine(e)| < |t| && !IsSpace(t[o + |OptionLine(e)|]) && t[o + |OptionLine(e)|] != '*'
    ensures NoMarkerIn(t, o, o + |OptionLine(e)|)
  {
    var line := OptionLine(e);
    var n := |line|;
    forall j | o <= j < o + n ensures MarkerAt(t, j).None? {
      OccursChar(t, o, line, j - o);
      if j - o < n - 1 {
        assert line[j - o] != '\n' by {
          if j - o >= 3 {
            assert line[j - o] == e.value[j - o - 3];
          }
        }
      } else {
        QuietBreak(t, j);
      }
    }
  }

  /** Written option lines hold no marker when what follows them is neither whitespace nor `*`. */
  lemma {:induction false} QuietLines(t: string, o: nat, es: seq<Entry>)
    requires OccursAt(t, o, OptionLines(es)) && forall k :: 0 <= k < |es| ==> WritableEntry(es[k])
    requires o + |OptionLines(es)| < |t|
    requires !IsSpace(t[o + |OptionLines(es)|]) && t[o + |OptionLines(es)|] != '*'
    ensures NoMarkerIn(t, o, o + |OptionLines(es)|)
    decreases |es|
  {
    if |es| > 0 {
      var m := FirstLine(t, o, es);
      QuietLine(t, o, es[0]);
      QuietLines(t, m, es[1..]);
      NoMarkerJoin(t, o, m, o + |OptionLines(es)|);
    }
  }

  /** The first written option line, and where the rest start. */
  lemma FirstLine(t: string, o: nat, es: seq<Entry>) returns (m: nat)
    requires OccursAt(t, o, OptionLines(es)) && |es| > 0 && forall k :: 0 <= k < |es| ==> WritableEntry(es[k])
    requires o + |OptionLines(es)| < |t|
    requires !IsSpace(t[o + |OptionLines(es)|]) && t[o + |OptionLines(es)|] != '*'
    ensures m == o + |OptionLine(es[0])| && m + |OptionLines(es[1..])| == o + |OptionLines(es)|
    ensures OccursAt(t, o, OptionLine(es[0])) && OccursAt(t, m, OptionLines(es[1..]))
    ensures m < |t| && !IsSpace(t[m]) && t[m] != '*'
  {
    var line := OptionLine(es[0]);
    var rest := OptionLines(es[1..]);
    m := o + |line|;
    assert OptionLines(es) == line + rest;
    OccursSplit(t, o, line, rest);
    if |es| > 1 {
      OptionLinesShape(es[1..]);
      OccursChar(t, m, rest, 0);
    }
  }

  /** The closing `**` of the question and its line break hold no marker: the
      next line starts with an option key. */
  lemma QuietClose(t: string, e: nat)
    requires OccursAt(t, e, "**\n") && e + 3 < |t| && IsOptionKey(t[e + 3])
    ensures NoMarkerIn(t, e, e + 3)
  {
    OccursChar(t, e, "**\n", 0);
    OccursChar(t, e, "**\n", 1);
    OccursChar(t, e, "**\n", 2);
    QuietBreak(t, e + 2);
    QuietChar(t, e);
    QuietChar(t, e + 1);
    QuietThree(t, e);
  }

  lemma QuietChar(t: string, j: nat)
    requires j < |t| && t[j] != '\n'
    ensures MarkerAt(t, j).None?
  {
  }

  lemma QuietThree(t: string, j: nat)
    requires MarkerAt(t, j).None? && MarkerAt(t, j + 1).None? && MarkerAt(t, j + 2).None?
    ensures NoMarkerIn(t, j, j + 3)
  {
  }

  /** The answer line and the explanation keyword hold no marker: the line
      break after the letter is followed by `G`. */
  lemma QuietAnswer(t: string, tt: nat, letter: char)
    requires OccursAt(t, tt, AnswerKeyword + " ") && OccursAt(t, tt + 8, [letter] + "\n")
    requires OccursAt(t, tt + 10, ExplanationKeyword + " ") && IsAnswerLetter(letter)
    ensures NoMarkerIn(t, tt, tt + 22)
  {
    forall j | tt <= j < tt + 22 ensures MarkerAt(t, j).None? {
      QuietAnswerAt(t, tt, letter, j);
    }
  }

  lemma QuietAnswerAt(t: string, tt: nat, letter: char, j: nat)
    requires OccursAt(t, tt, AnswerKeyword + " ") && OccursAt(t, tt + 8, [letter] + "\n")
    requires OccursAt(t, tt + 10, ExplanationKeyword + " ") && IsAnswerLetter(letter)
    requires tt <= j < tt + 22
    ensures MarkerAt(t, j).None?
  {
    FixedLinesNoBreak(t, tt, letter, j);
    if j == tt + 9 {
      OccursChar(t, tt + 10, ExplanationKeyword + " ", 0);
      QuietBreak(t, j);
    }
  }

  /** A written block after its line break is a marker, ending where its question starts. */
  lemma PieceMarker(t: string, i: nat, q: Source)
    requires OccursAt(t, i, "\n" + PieceText(q)) && Writable(q)
    ensures MarkerAt(t, i) == Some(SpotsOf(i + 1, q).q0)
  {
    var sp := SpotsOf(i + 1, q);
    OccursSplit(t, i, "\n", PieceText(q));
    OccursChar(t, i, "\n", 0);
    PieceParts(t, i + 1, q);
    OccursChar(t, i + 1, "**", 0);
    if |q.question| > 0 {
      OccursChar(t, sp.q0, q.question, 0);
    } else {
      OccursChar(t, sp.e, "**\n", 0);
    }
    HeadLaid(t, i + 1, ShowNat(q.id), sp.d, sp.q0);
    MarkerFromHead(t, i);
  }

  /** After its marker, a written block holds no other marker. */
  lemma PieceQuiet(t: string, i: nat, q: Source)
    requires OccursAt(t, i, "\n" + PieceText(q)) && Writable(q)
    ensures SpotsOf(i + 1, q).q0 <= i + 1 + |PieceText(q)|
    ensures NoMarkerIn(t, SpotsOf(i + 1, q).q0, i + 1 + |PieceText(q)|)
  {
    OccursSplit(t, i, "\n", PieceText(q));
    QuietAfterHead(t, SpotsOf(i + 1, q), q);
    SpotsEnd(i + 1, q);
  }

  lemma QuietAfterHead(t: string, sp: Spots, q: Source)
    requires OccursAt(t, sp.s, PieceText(q)) && Writable(q) && sp == SpotsOf(sp.s, q)
    ensures sp.q0 <= sp.z && NoMarkerIn(t, sp.q0, sp.z)
  {
    PieceParts(t, sp.s, q);
    QuietFront(t, sp, q);
    QuietBack(t, sp, q);
    NoMarkerJoin(t, sp.q0, sp.t, sp.z);
  }

  /** The question, its closing `**` and the option lines hold no marker. */
  lemma QuietFront(t: string, sp: Spots, q: Source)
    requires Writable(q) && sp.q0 <= sp.e && sp.o == sp.e + 3 && sp.t == sp.o + |OptionLines(q.options)|
    requires OccursAt(t, sp.q0, q.question) && sp.e == sp.q0 + |q.question| && OccursAt(t, sp.e, "**\n")
    requires OccursAt(t, sp.o, OptionLines(q.options)) && OccursAt(t, sp.t, AnswerKeyword + " ")
    ensures NoMarkerIn(t, sp.q0, sp.t)
  {
    QuietText(t, sp.q0, q.question);
    OptionLinesShape(q.options);
    OccursChar(t, sp.o, OptionLines(q.options), 0);
    QuietClose(t, sp.e);
    OccursChar(t, sp.t, AnswerKeyword + " ", 0);
    QuietLines(t, sp.o, q.options);
    NoMarkerJoin(t, sp.q0, sp.e, sp.o);
    NoMarkerJoin(t, sp.q0, sp.o, sp.t);
  }

  /** The answer line, the keyword and the explanation hold no marker. */
  lemma QuietBack(t: string, sp: Spots, q: Source)
    requires Writable(q) && sp.a == sp.t + 8 && sp.g == sp.a + 2 && sp.x == sp.g + 12 && sp.z == sp.x + |q.explanation|
    requires OccursAt(t, sp.t, AnswerKeyword + " ") && OccursAt(t, sp.a, [q.letter] + "\n")
    requires OccursAt(t, sp.g, ExplanationKeyword + " ") && OccursAt(t, sp.x, q.explanation)
    ensures NoMarkerIn(t, sp.t, sp.z)
  {
    QuietAnswer(t, sp.t, q.letter);
    QuietText(t, sp.x, q.explanation);
    NoMarkerJoin(t, sp.t, sp.x, sp.z);
  }

  // ---- The split of a quiz document ----

  /** Where the marker of block `k` ends: where its question starts. */
  function MarkerEnd(intro: string, qs: seq<Source>, k: nat): nat
    requires k < |qs|
  {
    SpotsOf(Start(intro, qs, k) + 1, qs[k]).q0
  }

  /** The marker spans of a quiz document, one per block. */
  function QuizSpans(intro: string, qs: seq<Source>): (sp: seq<(nat, nat)>)
    ensures |sp| == |qs|
    ensures forall k :: 0 <= k < |qs| ==> sp[k] == (Start(intro, qs, k), MarkerEnd(intro, qs, k))
  {
    seq(|qs|, k requires 0 <= k < |qs| => (Start(intro, qs, k), MarkerEnd(intro, qs, k)))
  }

  /** Where the text that belongs to block `k` ends: at the next block, or at
      the end of the document for the last one. */
  function BlockEnd(intro: string, qs: seq<Source>, trail: string, k: nat): nat
    requires k < |qs|
  {
    if k + 1 < |qs| then Start(intro, qs, k + 1) else |QuizText(intro, qs, trail)|
  }

  /** Block `k` starts with a marker that ends where its question starts. */
  lemma BlockMarker(intro: string, qs: seq<Source>, trail: string, k: nat)
    requires k < |qs| && Writable(qs[k])
    ensures MarkerAt(QuizText(intro, qs, trail), Start(intro, qs, k)) == Some(MarkerEnd(intro, qs, k))
  {
    var t, i := QuizText(intro, qs, trail), Start(intro, qs, k);
    PieceAt(intro, qs, trail, k);
    PieceMarker(t, i, qs[k]);
    assert MarkerEnd(intro, qs, k) == SpotsOf(i + 1, qs[k]).q0;
  }

  /** After the marker of block `k`, no marker starts before the block's text ends. */
  lemma BlockQuiet(intro: string, qs: seq<Source>, trail: string, k: nat)
    requires k < |qs| && Writable(qs[k])
    ensures MarkerEnd(intro, qs, k) <= Start(intro, qs, k + 1)
    ensures NoMarkerIn(QuizText(intro, qs, trail), MarkerEnd(intro, qs, k), Start(intro, qs, k + 1))
  {
    PieceAt(intro, qs, trail, k);
    PieceQuiet(QuizText(intro, qs, trail), Start(intro, qs, k), qs[k]);
  }

  /** Quiet text followed by nothing but whitespace stays quiet to the end. */
  lemma QuietToEnd(t: string, lo: nat, z: nat)
    requires lo <= z <= |t| && NoMarkerIn(t, lo, z) && AllSpace(t[z..])
    ensures NoMarkerIn(t, lo, |t|)
  {
    forall j | z <= j < |t| ensures IsSpace(t[j]) {
      assert t[j] == t[z..][j - z];
    }
    QuietSpace(t, z);
    NoMarkerJoin(t, lo, z, |t|);
  }

  /** Nothing after the marker of block `k` is a marker up to the block's end. */
  lemma BlockSplit(intro: string, qs: seq<Source>, trail: string, k: nat)
    requires k < |qs| && Writable(qs[k]) && AllSpace(trail)
    ensures MarkerEnd(intro, qs, k) <= BlockEnd(intro, qs, trail, k)
    ensures NoMarkerIn(QuizText(intro, qs, trail), MarkerEnd(intro, qs, k), BlockEnd(intro, qs, trail, k))
  {
    BlockQuiet(intro, qs, trail, k);
    if k + 1 == |qs| {
      EndsAt(intro, qs, trail);
      QuietToEnd(QuizText(intro, qs, trail), MarkerEnd(intro, qs, k), Start(intro, qs, |qs|));
    }
  }

  /** Where the text after span `k` ends: at the next span, or at the end. */
  function After(t: string, sp: seq<(nat, nat)>, k: nat): nat
    requires k < |sp|
  {
    if k + 1 < |sp| then sp[k + 1].0 else |t|
  }

  /** The splitting conditions, stated span by span. */
  lemma SplittingFromParts(t: string, sp: seq<(nat, nat)>)
    requires |sp| > 0 && sp[0].0 <= |t| && NoMarkerIn(t, 0, sp[0].0)
    requires forall k :: 0 <= k < |sp| ==> MarkerAt(t, sp[k].0) == Some(sp[k].1)
    requires forall k :: 0 <= k < |sp| ==> sp[k].1 <= After(t, sp, k) && NoMarkerIn(t, sp[k].1, After(t, sp, k))
    ensures IsSplittingFrom(t, 0, sp)
  {
    forall k | 0 <= k < |sp| ensures NextStart(t, sp[k + 1..]) == After(t, sp, k) {
      if k + 1 < |sp| {
        assert sp[k + 1..][0] == sp[k + 1];
      }
    }
  }

  /** No marker starts in the introduction, which ends where the first block starts. */
  lemma QuizFront(intro: string, qs: seq<Source>, trail: string)
    requires PlainIntro(intro) && |qs| > 0
    ensures QuizSpans(intro, qs)[0].0 <= |QuizText(intro, qs, trail)|
    ensures NoMarkerIn(QuizText(intro, qs, trail), 0, QuizSpans(intro, qs)[0].0)
  {
    EndsAt(intro, qs, trail);
    assert qs[..0] == [];
    QuietText(QuizText(intro, qs, trail), 0, intro);
  }

  lemma QuizMarkers(intro: string, qs: seq<Source>, trail: string)
    requires forall k :: 0 <= k < |qs| ==> Writable(qs[k])
    ensures forall k :: 0 <= k < |qs| ==>
      MarkerAt(QuizText(intro, qs, trail), QuizSpans(intro, qs)[k].0) == Some(QuizSpans(intro, qs)[k].1)
  {
    forall k | 0 <= k < |qs|
      ensures MarkerAt(QuizText(intro, qs, trail), QuizSpans(intro, qs)[k].0) == Some(QuizSpans(intro, qs)[k].1)
    {
      BlockMarker(intro, qs, trail, k);
    }
  }

  lemma QuizQuiet(intro: string, qs: seq<Source>, trail: string)
    requires AllSpace(trail) && forall k :: 0 <= k < |qs| ==> Writable(qs[k])
    ensures forall k :: 0 <= k < |qs| ==>
      && QuizSpans(intro, qs)[k].1 <= After(QuizText(intro, qs, trail), QuizSpans(intro, qs), k)
      && NoMarkerIn(QuizText(intro, qs, trail), QuizSpans(intro, qs)[k].1, After(QuizText(intro, qs, trail), QuizSpans(intro, qs), k))
  {
    var t := QuizText(intro, qs, trail);
    var sp := QuizSpans(intro, qs);
    forall k | 0 <= k < |qs| ensures sp[k].1 <= After(t, sp, k) && NoMarkerIn(t, sp[k].1, After(t, sp, k)) {
      BlockSplit(intro, qs, trail, k);
    }
  }

  /** The spans of a quiz document meet the reference reading of a split. */
  lemma QuizSplitting(intro: string, qs: seq<Source>, trail: string)
    requires PlainIntro(intro) && |qs| > 0 && AllSpace(trail)
    requires forall k :: 0 <= k < |qs| ==> Writable(qs[k])
    ensures IsSplittingFrom(QuizText(intro, qs, trail), 0, QuizSpans(intro, qs))
  {
    QuizFront(intro, qs, trail);
    QuizMarkers(intro, qs, trail);
    QuizQuiet(intro, qs, trail);
    SplittingFromParts(QuizText(intro, qs, trail), QuizSpans(intro, qs));
  }

  /** The markers the split uses are exactly those of the blocks. */
  lemma QuizSpansAre(intro: string, qs: seq<Source>, trail: string)
    requires PlainIntro(intro) && |qs| > 0 && AllSpace(trail)
    requires forall k :: 0 <= k < |qs| ==> Writable(qs[k])
    ensures Spans(QuizText(intro, qs, trail)) == QuizSpans(intro, qs)
  {
    QuizSplitting(intro, qs, trail);
    SplittingUnique(QuizText(intro, qs, trail), 0, QuizSpans(intro, qs));
  }

  /** A plain text in front of the first marker is the leading piece, and is dropped. */
  lemma IntroDropped(t: string, intro: string)
    requires PlainIntro(intro) && OccursAt(t, 0, intro)
    requires |Spans(t)| > 0 && Spans(t)[0].0 == |intro|
    ensures Preamble(t) == intro && Chunks(t) == GluePairs(Split(t))
  {
    PreambleIs(t);
    OccursSlice(t, 0, intro);
    assert Preamble(t) == intro;
    StarlessNotKept(intro);
  }

  /** Text with no `*` does not, stripped, start with `**`. */
  lemma StarlessNotKept(s: string)
    requires NoStar(s)
    ensures !StartsWith(Strip(s), "**")
  {
    StripChars(s);
    if |Strip(s)| >= 2 {
      assert Strip(s)[0] in s;
    }
  }

  /** The introduction is the leading piece, and it is dropped. */
  lemma QuizPreamble(intro: string, qs: seq<Source>, trail: string)
    requires PlainIntro(intro) && |qs| > 0 && AllSpace(trail)
    requires forall k :: 0 <= k < |qs| ==> Writable(qs[k])
    ensures Preamble(QuizText(intro, qs, trail)) == intro
    ensures Chunks(QuizText(intro, qs, trail)) == GluePairs(Split(QuizText(intro, qs, trail)))
  {
    QuizSpansAre(intro, qs, trail);
    assert qs[..0] == [];
    EndsAt(intro, qs, trail);
    IntroDropped(QuizText(intro, qs, trail), intro);
  }

  /** The glued chunk of a marker that is not the last runs up to the next marker. */
  lemma ChunkMid(t: string, k: nat, u: string)
    requires k + 1 < |Spans(t)| && OccursAt(t, Spans(t)[k].0, u)
    requires Spans(t)[k + 1].0 == Spans(t)[k].0 + |u|
    ensures k < |GluePairs(Split(t))| && GluePairs(Split(t))[k] == u
  {
    var sp := Spans(t);
    ChunkContents(t, k);
    assert NextStart(t, sp[k + 1..]) == sp[k + 1].0 by {
      assert sp[k + 1..][0] == sp[k + 1];
    }
    OccursSlice(t, sp[k].0, u);
  }

  /** The glued chunk of the last marker runs to the end of the text. */
  lemma ChunkLast(t: string, k: nat, u: string, w: string)
    requires k + 1 == |Spans(t)| && OccursAt(t, Spans(t)[k].0, u)
    requires Spans(t)[k].0 + |u| <= |t| && t[Spans(t)[k].0 + |u|..] == w
    ensures k < |GluePairs(Split(t))| && GluePairs(Split(t))[k] == u + w
  {
    var sp := Spans(t);
    var s := sp[k].0;
    assert sp[k + 1..] == [];
    ChunkContents(t, k);
    OccursSlice(t, s, u);
    SliceJoin(t, s, s + |u|, u, w);
  }

  lemma SliceJoin(t: string, s: nat, m: nat, u: string, w: string)
    requires s <= m <= |t| && t[s..m] == u && t[m..] == w
    ensures t[s..|t|] == u + w
  {
    assert t[s..|t|] == t[s..m] + t[m..];
  }

  /** A glued chunk before the last is its block with the block's leading
      newline, once the markers are known to be those of the blocks. */
  lemma QuizChunkMid(intro: string, qs: seq<Source>, trail: string, k: nat)
    requires k + 1 < |qs| && Spans(QuizText(intro, qs, trail)) == QuizSpans(intro, qs)
    ensures k < |GluePairs(Split(QuizText(intro, qs, trail)))|
    ensures GluePairs(Split(QuizText(intro, qs, trail)))[k] == "\n" + PieceText(qs[k])
  {
    PieceAt(intro, qs, trail, k);
    ChunkMid(QuizText(intro, qs, trail), k, "\n" + PieceText(qs[k]));
  }

  /** The last glued chunk is the last block followed by the trailing text. */
  lemma QuizChunkLast(intro: string, qs: seq<Source>, trail: string)
    requires 0 < |qs| && Spans(QuizText(intro, qs, trail)) == QuizSpans(intro, qs)
    ensures |qs| - 1 < |GluePairs(Split(QuizText(intro, qs, trail)))|
    ensures GluePairs(Split(QuizText(intro, qs, trail)))[|qs| - 1] == "\n" + PieceText(qs[|qs| - 1]) + trail
  {
    var k := |qs| - 1;
    var t := QuizText(intro, qs, trail);
    var u := "\n" + PieceText(qs[k]);
    PieceAt(intro, qs, trail, k);
    EndsAt(intro, qs, trail);
    assert Spans(t)[k].0 + |u| == Start(intro, qs, |qs|);
    ChunkLast(t, k, u, trail);
  }

  /** A block with its leading newline and trailing whitespace gives the block's record. */
  lemma BlockExtract(c: string, q: Source, w: string)
    requires c == "\n" + PieceText(q) + w && AllSpace(w) && Writable(q)
    ensures Extract(c) == Some(Expected(q))
  {
    ExtractPiece("\n", q, w);
  }

  /** Each glued chunk of a document whose markers are those of its blocks
      gives its block's record. */
  lemma GluedExtract(intro: string, qs: seq<Source>, trail: string, k: nat)
    requires k < |qs| && AllSpace(trail) && Spans(QuizText(intro, qs, trail)) == QuizSpans(intro, qs)
    requires forall j :: 0 <= j < |qs| ==> Writable(qs[j])
    ensures k < |GluePairs(Split(QuizText(intro, qs, trail)))|
    ensures Extract(GluePairs(Split(QuizText(intro, qs, trail)))[k]) == Some(Expected(qs[k]))
  {
    var glued := GluePairs(Split(QuizText(intro, qs, trail)));
    if k + 1 < |qs| {
      QuizChunkMid(intro, qs, trail, k);
      assert glued[k] == "\n" + PieceText(qs[k]) + "";
      BlockExtract(glued[k], qs[k], "");
    } else {
      QuizChunkLast(intro, qs, trail);
      BlockExtract(glued[k], qs[k], trail);
    }
  }

  /** Each chunk of a quiz document gives its block's record. */
  lemma QuizExtract(intro: string, qs: seq<Source>, trail: string, k: nat)
    requires PlainIntro(intro) && k < |qs| && AllSpace(trail)
    requires forall j :: 0 <= j < |qs| ==> Writable(qs[j])
    ensures k < |Chunks(QuizText(intro, qs, trail))|
    ensures Extract(Chunks(QuizText(intro, qs, trail))[k]) == Some(Expected(qs[k]))
  {
    QuizSpansAre(intro, qs, trail);
    QuizPreamble(intro, qs, trail);
    GluedExtract(intro, qs, trail, k);
  }

  /** A document written from well-formed blocks after a plain introduction
      parses back to the records of those blocks, one each, in order. */
  lemma ParseQuiz(intro: string, qs: seq<Source>, trail: string)
    requires PlainIntro(intro) && |qs| > 0 && AllSpace(trail)
    requires forall k :: 0 <= k < |qs| ==> Writable(qs[k])
    ensures ParseQuestions(QuizText(intro, qs, trail)) == ExpectedAll(qs)
  {
    var chunks := Chunks(QuizText(intro, qs, trail));
    QuizSpansAre(intro, qs, trail);
    QuizPreamble(intro, qs, trail);
    forall k | 0 <= k < |qs| ensures Extract(chunks[k]) == Some(ExpectedAll(qs)[k]) {
      QuizExtract(intro, qs, trail, k);
    }
    CollectAll(chunks, ExpectedAll(qs));
  }

  // ---- A document that opens with a block ----

  /** Text without a line break holds no marker. */
  lemma QuietNoBreak(t: string, x: nat, u: string)
    requires OccursAt(t, x, u) && forall k :: 0 <= k < |u| ==> u[k] != '\n'
    ensures NoMarkerIn(t, x, x + |u|)
  {
    forall j | x <= j < x + |u| ensures MarkerAt(t, j).None? {
      OccursChar(t, x, u, j - x);
      QuietChar(t, j);
    }
  }

  /** A block at the very start holds no marker: its head has no line break,
      and after the head it is quiet. */
  lemma LeadQuiet(t: string, q: Source)
    requires OccursAt(t, 0, PieceText(q)) && Writable(q)
    ensures NoMarkerIn(t, 0, |PieceText(q)|)
  {
    var sp := SpotsOf(0, q);
    PieceParts(t, 0, q);
    QuietAfterHead(t, sp, q);
    QuietNoBreak(t, 0, "**");
    QuietNoBreak(t, 2, ShowNat(q.id));
    QuietNoBreak(t, sp.d, ". ");
    NoMarkerJoin(t, 0, 2, sp.d);
    NoMarkerJoin(t, 0, sp.d, sp.q0);
    NoMarkerJoin(t, 0, sp.q0, sp.z);
    SpotsEnd(0, q);
  }

  /** A document opening with a block starts with `**`. */
  lemma LeadStars(t: string, q: Source)
    requires OccursAt(t, 0, PieceText(q))
    ensures StartsWith(t, "**")
  {
    PieceParts(t, 0, q);
    OccursSlice(t, 0, "**");
  }

  /** In a document that opens with a block, the markers `re.split` uses are
      exactly those of the blocks after it. */
  lemma LeadSpansAre(q: Source, qs: seq<Source>, trail: string)
    requires Writable(q) && |qs| > 0 && AllSpace(trail)
    requires forall k :: 0 <= k < |qs| ==> Writable(qs[k])
    ensures Spans(QuizText(PieceText(q), qs, trail)) == QuizSpans(PieceText(q), qs)
  {
    var t := QuizText(PieceText(q), qs, trail);
    EndsAt(PieceText(q), qs, trail);
    LeadQuiet(t, q);
    assert qs[..0] == [];
    QuizMarkers(PieceText(q), qs, trail);
    QuizQuiet(PieceText(q), qs, trail);
    SplittingFromParts(t, QuizSpans(PieceText(q), qs));
    SplittingUnique(t, 0, QuizSpans(PieceText(q), qs));
  }

  /** The leading block is the leading piece of the split, and it is kept as
      the first chunk, in front of one glued chunk per further block. */
  lemma LeadKept(q: Source, qs: seq<Source>, trail: string)
    requires Writable(q) && |qs| > 0 && AllSpace(trail)
    requires forall k :: 0 <= k < |qs| ==> Writable(qs[k])
    ensures Chunks(QuizText(PieceText(q), qs, trail)) == [PieceText(q)] + GluePairs(Split(QuizText(PieceText(q), qs, trail)))
    ensures |Chunks(QuizText(PieceText(q), qs, trail))| == |qs| + 1
  {
    var t := QuizText(PieceText(q), qs, trail);
    LeadSpansAre(q, qs, trail);
    EndsAt(PieceText(q), qs, trail);
    assert qs[..0] == [];
    PreambleIs(t);
    OccursSlice(t, 0, PieceText(q));
    assert Preamble(t) == PieceText(q);
    LeadStars(t, q);
    LeadingQuestionKept(t);
    ChunkCount(t);
  }

  /** A block with nothing after it but whitespace is the whole text's only
      chunk. */
  lemma LeadAlone(q: Source, trail: string)
    requires Writable(q) && AllSpace(trail)
    ensures Chunks(PieceText(q) + trail) == [PieceText(q) + trail]
  {
    var t := PieceText(q) + trail;
    assert t == QuizText(PieceText(q), [], trail);
    EndsAt(PieceText(q), [], trail);
    assert Start(PieceText(q), [], 0) == |PieceText(q)|;
    LeadQuiet(t, q);
    QuietToEnd(t, 0, |PieceText(q)|);
    NextMarkerNone(t, 0);
    PreambleIs(t);
    LeadStars(t, q);
    LeadingQuestionKept(t);
    ChunkCount(t);
  }

  lemma EmptyFront(u: string, w: string)
    ensures [] + u + w == u + w
  {
  }

  lemma EmptyMiddle(u: string, m: string, w: string)
    requires m == ""
    ensures u + m + w == u + w
  {
  }

  /** The leading block read on its own gives its record. */
  lemma LeadExtract(q: Source, w: string)
    requires Writable(q) && AllSpace(w)
    ensures Extract(PieceText(q) + w) == Some(Expected(q))
  {
    ExtractPiece([], q, w);
    EmptyFront(PieceText(q), w);
  }

  /** Records collected from a leading chunk and the chunks after it. */
  lemma CollectLead(chunks: seq<string>, first: string, rest: seq<string>, r: Question, rs: seq<Question>)
    requires chunks == [first] + rest && |rest| == |rs| && Extract(first) == Some(r)
    requires forall k :: 0 <= k < |rest| ==> Extract(rest[k]) == Some(rs[k])
    ensures Collect(chunks) == [r] + rs
  {
    var all := [r] + rs;
    forall k | 0 <= k < |chunks| ensures Extract(chunks[k]) == Some(all[k]) {
      if k > 0 {
        assert chunks[k] == rest[k - 1] && all[k] == rs[k - 1];
      }
    }
    CollectAll(chunks, all);
  }

  /** A lone block followed by whitespace parses to its record. */
  lemma ParseLeadingAlone(q: Source, trail: string)
    requires Writable(q) && AllSpace(trail)
    ensures ParseQuestions(PieceText(q) + trail) == [Expected(q)]
  {
    LeadAlone(q, trail);
    LeadExtract(q, trail);
    ParseOneChunk(PieceText(q) + trail, Expected(q));
  }

  /** A text that is its own only chunk gives that chunk's record alone. */
  lemma ParseOneChunk(t: string, r: Question)
    requires Chunks(t) == [t] && Extract(t) == Some(r)
    ensures ParseQuestions(t) == [r]
  {
    CollectLead(Chunks(t), t, [], r, []);
  }

  /** A block followed by further blocks parses to the leading block's record,
      then the others'. */
  lemma ParseLeadingMore(q: Source, qs: seq<Source>, trail: string)
    requires Writable(q) && |qs| > 0 && AllSpace(trail)
    requires forall k :: 0 <= k < |qs| ==> Writable(qs[k])
    ensures ParseQuestions(QuizText(PieceText(q), qs, trail)) == [Expected(q)] + ExpectedAll(qs)
  {
    var t := QuizText(PieceText(q), qs, trail);
    var glued := GluePairs(Split(t));
    LeadKept(q, qs, trail);
    LeadSpansAre(q, qs, trail);
    LeadExtract(q, "");
    assert PieceText(q) + "" == PieceText(q);
    forall k | 0 <= k < |qs| ensures Extract(glued[k]) == Some(ExpectedAll(qs)[k]) {
      GluedExtract(PieceText(q), qs, trail, k);
    }
    CollectLead(Chunks(t), PieceText(q), glued, Expected(q), ExpectedAll(qs));
  }

  /** A document that opens directly with a block, with no introduction in
      front of it, parses back to the records of all its blocks, the leading
      one first. */
  lemma ParseLeading(q: Source, qs: seq<Source>, trail: string)
    requires Writable(q) && AllSpace(trail)
    requires forall k :: 0 <= k < |qs| ==> Writable(qs[k])
    ensures ParseQuestions(PieceText(q) + Pieces(qs) + trail) == [Expected(q)] + ExpectedAll(qs)
  {
    if |qs| == 0 {
      EmptyMiddle(PieceText(q), Pieces(qs), trail);
      ParseLeadingAlone(q, trail);
      assert ExpectedAll(qs) == [];
    } else {
      ParseLeadingMore(q, qs, trail);
    }
  }

  // ---- One question ----

  /** A document holding a single well-formed block parses to its record. */
  lemma ParseOne(intro: string, q: Source, trail: string)
    requires PlainIntro(intro) && Writable(q) && AllSpace(trail)
    ensures ParseQuestions(QuizText(intro, [q], trail)) == [Expected(q)]
  {
    ParseQuiz(intro, [q], trail);
  }

  /** The answer letter is not checked against the options: a block whose
      letter names no listed option still gives a record, with that letter. */
  lemma AnswerNotCrossChecked(intro: string, q: Source, trail: string)
    requires PlainIntro(intro) && Writable(q) && AllSpace(trail)
    requires forall k :: 0 <= k < |q.options| ==> q.options[k].key != ToUpper(q.letter)
    ensures |ParseQuestions(QuizText(intro, [q], trail))| == 1
    ensures ParseQuestions(QuizText(intro, [q], trail))[0].answer[0]
            !in ParseQuestions(QuizText(intro, [q], trail))[0].options
  {
    ParseOne(intro, q, trail);
  }

  /** Each option reads back with the value of the last line for its key: a
      repeated key keeps its last value. */
  lemma OptionReadBack(intro: string, q: Source, trail: string, k: nat)
    requires PlainIntro(intro) && Writable(q) && AllSpace(trail)
    requires k < |q.options| && forall k' :: k < k' < |q.options| ==> q.options[k'].key != q.options[k].key
    ensures |ParseQuestions(QuizText(intro, [q], trail))| == 1
    ensures var m := ParseQuestions(QuizText(intro, [q], trail))[0].options;
            q.options[k].key in m && m[q.options[k].key] == q.options[k].value
  {
    ParseOne(intro, q, trail);
    BuildMapLastWins(q.options, k);
  }

  /** A lower-case answer letter comes back in upper case. */
  lemma AnswerUpperCased(intro: string, q: Source, trail: string)
    requires PlainIntro(intro) && Writable(q) && AllSpace(trail) && 'a' <= q.letter <= 'd'
    ensures |ParseQuestions(QuizText(intro, [q], trail))| == 1
    ensures var a := ParseQuestions(QuizText(intro, [q], trail))[0].answer;
            |a| == 1 && a[0] as int == q.letter as int - 32
  {
    ParseOne(intro, q, trail);
  }
}
