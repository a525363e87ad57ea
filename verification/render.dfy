/**
 Writing a question block in the layout the parser expects, and reading it
 back. This is the partner of the extractor: for every well-formed question,
 the block written for it (with any text before it that has no `*`, and any
 whitespace after it) is read back into exactly the record the question
 describes.

   **<id>. <question>**
   <K>. <value>            (one line per option, in any order)
   đáp án: <letter>
   Giải thích: <explanation>
 */
module Render {
  import opened Wrappers
  import opened Text
  import opened Options
  import opened Extractor

  /** A question as an author writes it. */
  datatype Source = Source(id: nat, question: string, options: seq<Entry>, letter: char, explanation: string)

  predicate NoStar(s: string) {
    forall k :: 0 <= k < |s| ==> s[k] != '*'
  }

  /** Where a text with no `*` occurs, the document has no `*` either. */
  lemma StarlessOccurs(b: string, i: nat, u: string)
    requires OccursAt(b, i, u) && NoStar(u)
    ensures forall k :: i <= k < i + |u| ==> b[k] != '*'
  {
    forall k | i <= k < i + |u| ensures b[k] != '*' {
      assert b[i + (k - i)] == u[k - i];
    }
  }

  /** No line of `s` after the first starts with the answer keyword (in any case). */
  predicate NoAnswerLine(s: string) {
    forall i :: 0 <= i < |s| && s[i] == '\n' ==> !KeywordAt(s, i + 1, AnswerKeyword)
  }

  /** What the layout needs of a question: stripped texts; no `*` in the
      question or the explanation; at least one option, each writable; an
      answer letter `A`-`D` in either case; and no explanation line that could
      be taken for a second answer line. Excluding `*` is a simple sufficient
      condition: a lone `*` is harmless, but a `**` in the question followed by
      a tail that matches would end it early, and one in the explanation could
      start a new block. */
  predicate Writable(q: Source) {
    && IsTrimmed(q.question) && NoStar(q.question)
    && |q.options| > 0 && (forall k :: 0 <= k < |q.options| ==> WritableEntry(q.options[k]))
    && IsAnswerLetter(q.letter)
    && IsTrimmed(q.explanation) && NoStar(q.explanation) && NoAnswerLine(q.explanation)
  }

  /** The block written for a question. */
  function PieceText(q: Source): string
  {
    "**" + ShowNat(q.id) + ". " + q.question + "**\n" + OptionLines(q.options)
      + (AnswerKeyword + " ") + ([q.letter] + "\n") + (ExplanationKeyword + " ") + q.explanation
  }

  /** The record the parser should produce for a question. */
  function Expected(q: Source): (r: Question)
    requires Writable(q)
  {
    Question(q.id, q.question, BuildMap(q.options), [ToUpper(q.letter)], q.explanation)
  }

  // ---- Where each part of a written block lies ----

  /** Positions in a chunk holding a written block: its start, the period
      after the id, the question, the options, the answer keyword, the answer
      letter, the explanation keyword, the explanation and its end. */
  datatype Spots = Spots(s: nat, d: nat, q0: nat, e: nat, o: nat, t: nat, a: nat, g: nat, x: nat, z: nat)

  function SpotsOf(s: nat, q: Source): Spots
  {
    var d := s + 2 + |ShowNat(q.id)|;
    var e := d + 2 + |q.question|;
    var t := e + 3 + |OptionLines(q.options)|;
    var g := t + 10;
    var x := g + 12;
    Spots(s, d, d + 2, e, e + 3, t, t + 8, g, x, x + |q.explanation|)
  }

  /** The chunk `b` holds the block of `q` at the positions `sp`, with no `*`
      before it and only whitespace after it. */
  ghost predicate Laid(b: string, q: Source, sp: Spots) {
    && OccursAt(b, sp.s, "**") && OccursAt(b, sp.s + 2, ShowNat(q.id)) && sp.d == sp.s + 2 + |ShowNat(q.id)|
    && OccursAt(b, sp.d, ". ") && sp.q0 == sp.d + 2
    && OccursAt(b, sp.q0, q.question) && sp.e == sp.q0 + |q.question|
    && OccursAt(b, sp.e, "**\n") && sp.o == sp.e + 3
    && OccursAt(b, sp.o, OptionLines(q.options)) && sp.t == sp.o + |OptionLines(q.options)|
    && OccursAt(b, sp.t, AnswerKeyword + " ") && sp.a == sp.t + 8
    && OccursAt(b, sp.a, [q.letter] + "\n") && sp.g == sp.a + 2
    && OccursAt(b, sp.g, ExplanationKeyword + " ") && sp.x == sp.g + 12
    && OccursAt(b, sp.x, q.explanation) && sp.z == sp.x + |q.explanation|
    && sp.z <= |b| && (forall k :: sp.z <= k < |b| ==> IsSpace(b[k]))
    && (forall k :: 0 <= k < sp.s ==> b[k] != '*')
  }

  /** The block ends where its explanation does. */
  lemma SpotsEnd(s: nat, q: Source)
    ensures SpotsOf(s, q).z == s + |PieceText(q)|
  {
  }

  /** The parts of a block lie where `SpotsOf` says, wherever the block occurs. */
  lemma PieceParts(b: string, s: nat, q: Source)
    requires OccursAt(b, s, PieceText(q))
    ensures var sp := SpotsOf(s, q);
      && OccursAt(b, sp.s, "**") && OccursAt(b, sp.s + 2, ShowNat(q.id))
      && OccursAt(b, sp.d, ". ") && OccursAt(b, sp.q0, q.question) && OccursAt(b, sp.e, "**\n")
      && OccursAt(b, sp.o, OptionLines(q.options)) && OccursAt(b, sp.t, AnswerKeyword + " ")
      && OccursAt(b, sp.a, [q.letter] + "\n") && OccursAt(b, sp.g, ExplanationKeyword + " ")
      && OccursAt(b, sp.x, q.explanation)
  {
    var sp := SpotsOf(s, q);
    BlockParts(b, ShowNat(q.id), q.question, OptionLines(q.options), q.letter, q.explanation,
      s, sp.d, sp.q0, sp.e, sp.o, sp.t, sp.a, sp.g, sp.x);
  }

  /** The same, with the pieces of the block given as plain strings. */
  lemma BlockParts(b: string, n: string, question: string, l: string, letter: char, x: string,
                   s: nat, d: nat, q0: nat, e: nat, o: nat, t: nat, a: nat, g: nat, xs: nat)
    requires OccursAt(b, s, "**" + n + ". " + question + "**\n" + l
      + (AnswerKeyword + " ") + ([letter] + "\n") + (ExplanationKeyword + " ") + x)
    requires d == s + 2 + |n| && q0 == d + 2 && e == q0 + |question| && o == e + 3
    requires t == o + |l| && a == t + 8 && g == a + 2 && xs == g + 12
    ensures OccursAt(b, s, "**") && OccursAt(b, s + 2, n) && OccursAt(b, d, ". ")
    ensures OccursAt(b, q0, question) && OccursAt(b, e, "**\n") && OccursAt(b, o, l)
    ensures OccursAt(b, t, AnswerKeyword + " ") && OccursAt(b, a, [letter] + "\n")
    ensures OccursAt(b, g, ExplanationKeyword + " ") && OccursAt(b, xs, x)
  {
    var front := "**" + n + ". " + question + "**\n";
    var back := l + (AnswerKeyword + " ") + ([letter] + "\n") + (ExplanationKeyword + " ") + x;
    assert front + back == "**" + n + ". " + question + "**\n" + l
      + (AnswerKeyword + " ") + ([letter] + "\n") + (ExplanationKeyword + " ") + x;
    OccursSplitAt(b, s, o, front, back);
    OccursFive(b, s, s + 2, d, q0, e, "**", n, ". ", question, "**\n");
    OccursFive(b, o, t, a, g, xs, l, AnswerKeyword + " ", [letter] + "\n", ExplanationKeyword + " ", x);
  }

  lemma PieceLaid(p: string, q: Source, w: string)
    requires NoStar(p) && AllSpace(w)
    ensures Laid(p + PieceText(q) + w, q, SpotsOf(|p|, q))
  {
    var b := p + PieceText(q) + w;
    var sp := SpotsOf(|p|, q);
    OccursWhole(p, PieceText(q), w);
    PieceParts(b, |p|, q);
    assert |b| == sp.z + |w|;
    forall k | sp.z <= k < |b| ensures IsSpace(b[k]) {
      assert b[k] == w[k - sp.z];
    }
    forall k | 0 <= k < sp.s ensures b[k] != '*' {
      assert b[k] == p[k];
    }
  }

  // ---- Reading a laid-out block back ----

  /** A keyword written verbatim matches itself under IGNORECASE. */
  lemma KeywordOccurs(b: string, i: nat, kw: string, rest: string)
    requires OccursAt(b, i, kw + rest)
    ensures KeywordAt(b, i, kw)
  {
    OccursSplit(b, i, kw, rest);
  }

  /** The head `**<id>. ` is read with the period and the question start where they were written. */
  lemma HeadLaid(b: string, s: nat, n: string, d: nat, q0: nat)
    requires OccursAt(b, s, "**") && OccursAt(b, s + 2, n) && OccursAt(b, d, ". ")
    requires |n| > 0 && AllDigits(n) && d == s + 2 + |n| && q0 == d + 2
    requires q0 < |b| && !IsSpace(b[q0])
    ensures Head(b, s) == Some((d, q0))
  {
    OccursChar(b, d, ". ", 0);
    OccursChar(b, d, ". ", 1);
    OccursChar(b, s, "**", 0);
    OccursChar(b, s, "**", 1);
    forall k | s + 2 <= k < d ensures IsDigit(b[k]) {
      OccursChar(b, s + 2, n, k - s - 2);
    }
    SkipDigitsIs(b, s + 2, d);
    SkipSpaceIs(b, d + 1, q0);
  }

  /** The lazy question stops at the first `**` after which the rest matches;
      when no `*` comes before `e`, that is `e`. */
  lemma QuestionEndSkips(b: string, from: nat, e: nat)
    requires from <= e && TailAt(b, e).Some?
    requires forall k :: from <= k < e ==> b[k] != '*'
    ensures QuestionEnd(b, from) == Some(e)
  {
    forall k: nat | from <= k < e ensures !TailMatches(b)(k) {
      assert !StarsAt(b, k);
    }
    FirstWhereIs(TailMatches(b), from, |b|, e);
  }

  /** The greedy options group settles on `t` when no later end is acceptable. */
  lemma LastOptionsEndSkips(b: string, o: nat, hi: nat, t: nat)
    requires t <= hi <= |b| && OptionsEndOk(b, o, t)
    requires forall t' :: t < t' <= hi ==> !OptionsEndOk(b, o, t')
    ensures LastOptionsEnd(b, o, hi) == Some(t)
  {
    LastOptionsEndIsLast(b, o, hi, t);
    assert LastOptionsEnd(b, o, hi).value == t by {
      var r := LastOptionsEnd(b, o, hi).value;
      if t < r {
        assert EndsOptions(b, o)(r);
      }
    }
  }

  /** The pattern matches nowhere in a stretch without `*`. */
  lemma StarlessNoMatch(b: string, from: nat, s: nat)
    requires s <= |b| && forall k :: from <= k < s ==> b[k] != '*'
    ensures forall k: nat :: from <= k < s ==> !Matches(b)(k)
  {
    forall k: nat | from <= k < s ensures !Matches(b)(k) {
      assert !StarsAt(b, k);
    }
  }

  /** `search` reports `s` when the pattern matches there and no `*` comes earlier. */
  lemma SearchSkips(b: string, from: nat, s: nat)
    requires from <= s && MatchAt(b, s).Some?
    requires forall k :: from <= k < s ==> b[k] != '*'
    ensures Search(b, from) == Some(s)
  {
    StarlessNoMatch(b, from, s);
    FirstWhereIs(Matches(b), from, |b|, s);
  }

  /** After the closing `**` and its line break, the options group starts on
      the first written option line. */
  lemma TailLaid(b: string, e: nat, o: nat, t: nat, es: seq<Entry>)
    requires OccursAt(b, e, "**\n") && o == e + 3 && OccursAt(b, o, OptionLines(es)) && t == o + |OptionLines(es)|
    requires |es| > 0 && forall k :: 0 <= k < |es| ==> WritableEntry(es[k])
    requires AnswerAt(b, t).Some?
    requires forall t' :: t < t' <= |b| && b[t' - 1] == '\n' ==> !KeywordAt(b, t', AnswerKeyword)
    ensures TailAt(b, e) == Some((o, t))
  {
    TailOpens(b, e, o, es);
    assert OptionsEndOk(b, o, t);
    LastOptionsEndSkips(b, o, |b|, t);
  }

  /** The closing `**`, its line break and the written option lines give the
      start of the options group and an acceptable place for its end. */
  lemma TailOpens(b: string, e: nat, o: nat, es: seq<Entry>)
    requires OccursAt(b, e, "**\n") && o == e + 3 && OccursAt(b, o, OptionLines(es))
    requires |es| > 0 && forall k :: 0 <= k < |es| ==> WritableEntry(es[k])
    ensures StarsAt(b, e) && OptionsStart(b, e + 2) == Some(o)
    ensures o + 3 <= o + |OptionLines(es)| <= |b| && b[o + |OptionLines(es)| - 1] == '\n'
  {
    var l := OptionLines(es);
    OptionLinesShape(es);
    OccursChar(b, e, "**\n", 0);
    OccursChar(b, e, "**\n", 1);
    OccursChar(b, e, "**\n", 2);
    OccursChar(b, o, l, 0);
    OccursChar(b, o, l, 1);
    OccursChar(b, o, l, |l| - 1);
    SkipSpaceIs(b, e + 2, o);
  }

  /** The answer line and the explanation keyword are read where they were
      written; the explanation starts after the whitespace that follows. */
  lemma AnswerLaid(b: string, t: nat, letter: char)
    requires OccursAt(b, t, AnswerKeyword + " ") && OccursAt(b, t + 8, [letter] + "\n")
    requires OccursAt(b, t + 10, ExplanationKeyword + " ") && IsAnswerLetter(letter)
    ensures AnswerAt(b, t) == Some((t + 8, SkipSpace(b, t + 22)))
  {
    var a := t + 8;
    var g := t + 10;
    KeywordOccurs(b, t, AnswerKeyword, " ");
    KeywordOccurs(b, g, ExplanationKeyword, " ");
    AnswerGaps(b, t, letter);
    AnswerAtFrom(b, t, a, g);
  }

  /** The single spaces around the written answer letter are skipped. */
  lemma AnswerGaps(b: string, t: nat, letter: char)
    requires OccursAt(b, t, AnswerKeyword + " ") && OccursAt(b, t + 8, [letter] + "\n")
    requires OccursAt(b, t + 10, ExplanationKeyword + " ") && IsAnswerLetter(letter)
    ensures SkipSpace(b, t + 7) == t + 8 && t + 8 < |b| && b[t + 8] == letter
    ensures SkipSpace(b, t + 9) == t + 10
    ensures SkipSpace(b, t + 21) == SkipSpace(b, t + 22)
  {
    var a := t + 8;
    var g := t + 10;
    OccursChar(b, t, AnswerKeyword + " ", 7);
    OccursChar(b, a, [letter] + "\n", 0);
    OccursChar(b, a, [letter] + "\n", 1);
    OccursChar(b, g, ExplanationKeyword + " ", 0);
    OccursChar(b, g, ExplanationKeyword + " ", 11);
    SkipSpaceIs(b, t + 7, a);
    SkipSpaceIs(b, a + 1, g);
  }

  /** The stripped rest of the chunk from the explanation start is the written explanation. */
  lemma ExplanationLaid(b: string, x: nat, expl: string)
    requires OccursAt(b, x, expl) && IsTrimmed(expl)
    requires forall k :: x + |expl| <= k < |b| ==> IsSpace(b[k])
    ensures Strip(b[SkipSpace(b, x)..]) == expl
  {
    var x' := SkipSpace(b, x);
    OccursSlice(b, x, expl);
    AllSpaceSlice(b, x + |expl|, |b|);
    StripRest(b, x, x + |expl|, expl);
    AllSpaceSlice(b, x, x');
    SkipAndStrip(b, x, x');
  }

  lemma StripRest(b: string, x: nat, z: nat, expl: string)
    requires x <= z <= |b| && b[x..z] == expl && IsTrimmed(expl) && AllSpace(b[z..])
    ensures Strip(b[x..]) == expl
  {
    assert b[x..] == "" + b[x..z] + b[z..];
    StripPadded("", expl, b[z..]);
  }

  /** No line after the options can be taken for a later answer line: the
      only line break in the answer and keyword lines is followed by the
      explanation keyword, the explanation has no such line, and the
      whitespace after it cannot hold the keyword's colon. */
  lemma NoLaterAnswer(b: string, t: nat, letter: char, expl: string)
    requires OccursAt(b, t, AnswerKeyword + " ") && OccursAt(b, t + 8, [letter] + "\n")
    requires OccursAt(b, t + 10, ExplanationKeyword + " ") && IsAnswerLetter(letter)
    requires OccursAt(b, t + 22, expl) && NoAnswerLine(expl)
    requires forall k :: t + 22 + |expl| <= k < |b| ==> IsSpace(b[k])
    ensures forall t' :: t < t' <= |b| && b[t' - 1] == '\n' ==> !KeywordAt(b, t', AnswerKeyword)
  {
    var x := t + 22;
    var z := x + |expl|;
    forall t' | t < t' <= |b| && b[t' - 1] == '\n' ensures !KeywordAt(b, t', AnswerKeyword) {
      var i := t' - 1;
      if i < x {
        FixedLinesNoBreak(b, t, letter, i);
      } else if t' + 7 <= z {
        OccursChar(b, x, expl, i - x);
        KeywordInside(b, x, expl, t');
      } else if t' + 7 <= |b| {
        ColonNotSpace(b, t');
      }
    }
  }

  /** Within the answer and keyword lines, the only line break is the one
      before the explanation keyword, which is not the answer keyword. */
  lemma FixedLinesNoBreak(b: string, t: nat, letter: char, i: nat)
    requires OccursAt(b, t, AnswerKeyword + " ") && OccursAt(b, t + 8, [letter] + "\n")
    requires OccursAt(b, t + 10, ExplanationKeyword + " ") && IsAnswerLetter(letter)
    requires t <= i < t + 22
    ensures i != t + 9 ==> b[i] != '\n'
    ensures !KeywordAt(b, t + 10, AnswerKeyword)
  {
    OccursChar(b, t + 10, ExplanationKeyword + " ", 0);
    var u := AnswerKeyword + " ";
    var v := ExplanationKeyword + " ";
    assert '\n' !in u && '\n' !in v;
    assert b[t + 10] == 'G' && AnswerKeyword[0] == '\U{111}';
    if i < t + 8 {
      OccursChar(b, t, u, i - t);
      assert b[i] == u[i - t];
      assert u[i - t] in u;
    } else if i < t + 10 {
      OccursChar(b, t + 8, [letter] + "\n", i - t - 8);
    } else {
      OccursChar(b, t + 10, v, i - t - 10);
      assert v[i - t - 10] in v;
    }
  }

  /** A keyword lying inside the explanation is a keyword of the explanation. */
  lemma KeywordInside(b: string, x: nat, expl: string, i: nat)
    requires OccursAt(b, x, expl) && x <= i && i + |AnswerKeyword| <= x + |expl|
    ensures KeywordAt(b, i, AnswerKeyword) ==> KeywordAt(expl, i - x, AnswerKeyword)
  {
    forall k | 0 <= k < |AnswerKeyword|
      ensures FoldMatch(AnswerKeyword[k], b[i + k]) ==> FoldMatch(AnswerKeyword[k], expl[i - x + k])
    {
      OccursChar(b, x, expl, i - x + k);
    }
  }

  /** The keyword ends in a colon, which no whitespace matches. */
  lemma ColonNotSpace(b: string, i: nat)
    requires i + 7 <= |b| && IsSpace(b[i + 6])
    ensures !KeywordAt(b, i, AnswerKeyword)
  {
    assert AnswerKeyword[6] == ':';
  }

  /** The question of a laid-out block starts after the whitespace that follows the period. */
  lemma LaidHead(b: string, q: Source, sp: Spots)
    requires Laid(b, q, sp) && Writable(q)
    ensures Head(b, sp.s) == Some((sp.d, sp.q0))
  {
    if |q.question| > 0 {
      OccursChar(b, sp.q0, q.question, 0);
    } else {
      OccursChar(b, sp.e, "**\n", 0);
    }
    HeadLaid(b, sp.s, ShowNat(q.id), sp.d, sp.q0);
  }

  /** Everything after the question of a laid-out block is read where it was written. */
  lemma LaidTail(b: string, q: Source, sp: Spots)
    requires Laid(b, q, sp) && Writable(q)
    ensures TailAt(b, sp.e) == Some((sp.o, sp.t))
    ensures AnswerAt(b, sp.t) == Some((sp.a, SkipSpace(b, sp.x)))
  {
    LaidAnswer(b, q, sp);
    LaidNoLater(b, q, sp);
    TailLaid(b, sp.e, sp.o, sp.t, q.options);
  }

  lemma LaidAnswer(b: string, q: Source, sp: Spots)
    requires Laid(b, q, sp) && Writable(q)
    ensures AnswerAt(b, sp.t) == Some((sp.a, SkipSpace(b, sp.x)))
  {
    AnswerLaid(b, sp.t, q.letter);
  }

  lemma LaidNoLater(b: string, q: Source, sp: Spots)
    requires Laid(b, q, sp) && Writable(q)
    ensures forall t' :: sp.t < t' <= |b| && b[t' - 1] == '\n' ==> !KeywordAt(b, t', AnswerKeyword)
  {
    NoLaterAnswer(b, sp.t, q.letter, q.explanation);
  }

  /** The lazy question of a laid-out block ends at its closing `**`. */
  lemma LaidQuestion(b: string, q: Source, sp: Spots)
    requires Laid(b, q, sp) && Writable(q) && TailAt(b, sp.e).Some?
    ensures QuestionEnd(b, sp.q0) == Some(sp.e)
  {
    StarlessOccurs(b, sp.q0, q.question);
    QuestionEndSkips(b, sp.q0, sp.e);
  }

  /** The scan at `s` assembles the parts found there. */
  lemma MatchFromParts(b: string, m: Match)
    requires Head(b, m.start) == Some((m.digitsEnd, m.questionStart))
    requires QuestionEnd(b, m.questionStart) == Some(m.questionEnd)
    requires TailAt(b, m.questionEnd) == Some((m.optionsStart, m.optionsEnd))
    requires AnswerAt(b, m.optionsEnd) == Some((m.letter, m.explanationStart))
    ensures MatchAt(b, m.start) == Some(m)
  {
  }

  /** The scan finds the laid-out block and nothing else. */
  lemma MatchLaid(b: string, q: Source, sp: Spots) returns (m: Match)
    requires Laid(b, q, sp) && Writable(q)
    ensures m == Match(sp.s, sp.d, sp.q0, sp.e, sp.o, sp.t, sp.a, SkipSpace(b, sp.x))
    ensures Search(b, 0) == Some(sp.s) && MatchAt(b, sp.s) == Some(m)
  {
    m := Match(sp.s, sp.d, sp.q0, sp.e, sp.o, sp.t, sp.a, SkipSpace(b, sp.x));
    LaidHead(b, q, sp);
    LaidTail(b, q, sp);
    LaidQuestion(b, q, sp);
    MatchFromParts(b, m);
    SearchSkips(b, 0, sp.s);
  }

  /** The groups of the match are the written parts. */
  lemma LaidGroups(b: string, q: Source, sp: Spots)
    requires Laid(b, q, sp) && Writable(q)
    ensures b[sp.s + 2..sp.d] == ShowNat(q.id) && b[sp.q0..sp.e] == q.question
    ensures b[sp.o..sp.t] == OptionLines(q.options) && sp.a < |b| && b[sp.a] == q.letter
    ensures sp.x <= |b| && Strip(b[SkipSpace(b, sp.x)..]) == q.explanation
  {
    LaidSlices(b, q, sp);
    OccursChar(b, sp.a, [q.letter] + "\n", 0);
    ExplanationLaid(b, sp.x, q.explanation);
  }

  lemma LaidSlices(b: string, q: Source, sp: Spots)
    requires Laid(b, q, sp)
    ensures b[sp.s + 2..sp.d] == ShowNat(q.id) && b[sp.q0..sp.e] == q.question
    ensures b[sp.o..sp.t] == OptionLines(q.options)
  {
    OccursSlice(b, sp.s + 2, ShowNat(q.id));
    OccursSlice(b, sp.q0, q.question);
    OccursSlice(b, sp.o, OptionLines(q.options));
  }

  lemma RecordId(b: string, m: Match, id: nat)
    requires Fits(b, m) && b[m.start + 2..m.digitsEnd] == ShowNat(id)
    ensures Record(b, m).id == id
  {
    ShowNatValue(id);
  }

  lemma RecordOptions(b: string, m: Match, es: seq<Entry>)
    requires Fits(b, m) && b[m.optionsStart..m.optionsEnd] == OptionLines(es)
    requires forall k :: 0 <= k < |es| ==> WritableEntry(es[k])
    ensures Record(b, m).options == BuildMap(es)
  {
    ScanOptionLines(es);
    assert OptionsDict(OptionLines(es)) == BuildMap(es);
    assert Record(b, m).options == OptionsDict(b[m.optionsStart..m.optionsEnd]);
  }

  lemma RecordText(b: string, m: Match, question: string, letter: char, expl: string)
    requires Fits(b, m) && b[m.questionStart..m.questionEnd] == question && IsTrimmed(question)
    requires b[m.letter] == letter && Strip(b[m.explanationStart..]) == expl
    ensures Record(b, m).question == question && Record(b, m).answer == [ToUpper(letter)]
    ensures Record(b, m).explanation == expl
  {
    StripTrimmed(question);
  }

  /** The record built from groups holding the written parts is the expected one. */
  lemma RecordIs(b: string, m: Match, q: Source)
    requires Writable(q) && Fits(b, m)
    requires b[m.start + 2..m.digitsEnd] == ShowNat(q.id)
    requires b[m.questionStart..m.questionEnd] == q.question
    requires b[m.optionsStart..m.optionsEnd] == OptionLines(q.options)
    requires b[m.letter] == q.letter && Strip(b[m.explanationStart..]) == q.explanation
    ensures Record(b, m) == Expected(q)
  {
    RecordId(b, m, q.id);
    RecordOptions(b, m, q.options);
    RecordText(b, m, q.question, q.letter, q.explanation);
  }

  /** `Extract` reads the expected record from a match whose groups hold the written parts. */
  lemma ExtractIs(b: string, m: Match, q: Source)
    requires Search(b, 0) == Some(m.start) && MatchAt(b, m.start) == Some(m)
    requires Writable(q)
    requires b[m.start + 2..m.digitsEnd] == ShowNat(q.id)
    requires b[m.questionStart..m.questionEnd] == q.question
    requires b[m.optionsStart..m.optionsEnd] == OptionLines(q.options)
    requires b[m.letter] == q.letter && Strip(b[m.explanationStart..]) == q.explanation
    ensures Extract(b) == Some(Expected(q))
  {
    RecordIs(b, m, q);
  }

  /** The record read from a laid-out block is the one the question describes. */
  lemma ExtractLaid(b: string, q: Source, sp: Spots)
    requires Laid(b, q, sp) && Writable(q)
    ensures Extract(b) == Some(Expected(q))
  {
    var m := MatchLaid(b, q, sp);
    LaidGroups(b, q, sp);
    ExtractIs(b, m, q);
  }

  /** Round trip: a written block, after any text without `*` and before any
      whitespace, is read back into the record it was written from. */
  lemma ExtractPiece(p: string, q: Source, w: string)
    requires NoStar(p) && AllSpace(w) && Writable(q)
    ensures Extract(p + PieceText(q) + w) == Some(Expected(q))
  {
    PieceLaid(p, q, w);
    ExtractLaid(p + PieceText(q) + w, q, SpotsOf(|p|, q));
  }
}
