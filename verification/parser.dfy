/**
 The quiz parser: the chunks of the segmenter, each searched once by the
 extractor, with the records of the chunks that match kept in chunk order.
 The file read in front of it is modelled as an optional text, absent when the
 file does not exist.
 */
module Parser {
  import opened Wrappers
  import opened Text
  import opened Options
  import opened Segmenter
  import opened Extractor

  /** The shape every record has: a single answer letter `A`-`D`, stripped
      texts, and option keys `A`-`D` with stripped values. */
  predicate WellFormed(q: Question) {
    && |q.answer| == 1 && IsOptionKey(q.answer[0])
    && IsTrimmed(q.question) && IsTrimmed(q.explanation)
    && (forall c :: c in q.options ==> IsOptionKey(c) && IsTrimmed(q.options[c]))
  }

  /** What the search finds in each chunk. */
  function Outcomes(chunks: seq<string>): (r: seq<Option<Question>>)
    ensures |r| == |chunks|
    ensures forall k :: 0 <= k < |r| && r[k].Some? ==> WellFormed(r[k].value)
  {
    seq(|chunks|, k requires 0 <= k < |chunks| => Extract(chunks[k]))
  }

  /** The records of the outcomes that found one, in order. */
  function Somes<T>(rs: seq<Option<T>>): (r: seq<T>)
    ensures |r| <= |rs|
    decreases |rs|
  {
    if |rs| == 0 then []
    else if rs[0].Some? then [rs[0].value] + Somes(rs[1..])
    else Somes(rs[1..])
  }

  /** The loop over the chunks: a chunk that matches adds its record, one that
      does not is skipped without an error. */
  function Collect(chunks: seq<string>): (r: seq<Question>)
    ensures |r| <= |chunks|
    ensures forall k :: 0 <= k < |r| ==> WellFormed(r[k])
  {
    FoundPicks(Outcomes(chunks));
    Somes(Outcomes(chunks))
  }

  /** The positions of the outcomes that found a record. */
  function Found<T>(rs: seq<Option<T>>): (r: seq<nat>)
    ensures |r| == |Somes(rs)|
    decreases |rs|
  {
    if |rs| == 0 then []
    else (if rs[0].Some? then [0] else []) + Shift(Found(rs[1..]))
  }

  lemma {:induction false} FoundPicks<T>(rs: seq<Option<T>>)
    ensures forall k :: 0 <= k < |Found(rs)| ==> Found(rs)[k] < |rs| && rs[Found(rs)[k]] == Some(Somes(rs)[k])
    decreases |rs|
  {
    if |rs| > 0 {
      var tail := rs[1..];
      FoundPicks(tail);
      var idx := Found(rs);
      var rest := Found(tail);
      var f := if rs[0].Some? then 1 else 0;
      assert Somes(rs) == (if rs[0].Some? then [rs[0].value] else []) + Somes(tail);
      forall k | f <= k < |idx| ensures idx[k] < |rs| && rs[idx[k]] == Some(Somes(rs)[k]) {
        assert idx[k] == rest[k - f] + 1;
        assert Somes(rs)[k] == Somes(tail)[k - f];
        assert rs[idx[k]] == tail[rest[k - f]];
      }
    }
  }

  lemma {:induction false} FoundIncreasing<T>(rs: seq<Option<T>>)
    ensures forall k, l :: 0 <= k < l < |Found(rs)| ==> Found(rs)[k] < Found(rs)[l]
    decreases |rs|
  {
    if |rs| > 0 {
      var tail := rs[1..];
      FoundIncreasing(tail);
      var idx := Found(rs);
      var rest := Found(tail);
      var f := if rs[0].Some? then 1 else 0;
      var head: seq<nat> := if rs[0].Some? then [0] else [];
      assert idx == head + Shift(rest) && |head| == f;
      forall k, l | 0 <= k < l < |idx| ensures idx[k] < idx[l] {
        assert idx[l] == Shift(rest)[l - f] == rest[l - f] + 1;
        if k >= f {
          assert idx[k] == Shift(rest)[k - f] == rest[k - f] + 1;
        }
      }
    }
  }

  lemma {:induction false} FoundComplete<T>(rs: seq<Option<T>>)
    ensures forall j :: 0 <= j < |rs| && rs[j].Some? ==> j in Found(rs)
    decreases |rs|
  {
    if |rs| > 0 {
      var tail := rs[1..];
      FoundComplete(tail);
      var rest := Found(tail);
      forall j | 0 <= j < |rs| && rs[j].Some? ensures j in Found(rs) {
        if j > 0 {
          assert tail[j - 1] == rs[j];
          ShiftIn(rest, j - 1);
        }
      }
    }
  }

  /** Every position moved one place on. */
  function Shift(xs: seq<nat>): (r: seq<nat>)
    ensures |r| == |xs| && forall k :: 0 <= k < |xs| ==> r[k] == xs[k] + 1
  {
    seq(|xs|, k requires 0 <= k < |xs| => xs[k] + 1)
  }

  lemma ShiftIn(xs: seq<nat>, x: nat)
    requires x in xs
    ensures x + 1 in Shift(xs)
  {
    var k :| 0 <= k < |xs| && xs[k] == x;
    assert Shift(xs)[k] == x + 1;
  }

  /** The records are those of the matching chunks, one each, in chunk order. */
  lemma CollectIndices(chunks: seq<string>) returns (idx: seq<nat>)
    ensures |idx| == |Collect(chunks)|
    ensures forall k :: 0 <= k < |idx| ==> idx[k] < |chunks| && Extract(chunks[idx[k]]) == Some(Collect(chunks)[k])
    ensures forall k, l :: 0 <= k < l < |idx| ==> idx[k] < idx[l]
    ensures forall j :: 0 <= j < |chunks| && Extract(chunks[j]).Some? ==> j in idx
  {
    var rs := Outcomes(chunks);
    idx := Found(rs);
    FoundPicks(rs);
    FoundIncreasing(rs);
    FoundComplete(rs);
  }

  /** When every outcome found a record, the records are exactly those, in order. */
  lemma {:induction false} SomesAll(rs: seq<Option<Question>>, qs: seq<Question>)
    requires |rs| == |qs| && forall k :: 0 <= k < |rs| ==> rs[k] == Some(qs[k])
    ensures Somes(rs) == qs
    decreases |rs|
  {
    if |rs| > 0 {
      SomesAll(rs[1..], qs[1..]);
    }
  }

  lemma CollectAll(chunks: seq<string>, qs: seq<Question>)
    requires |qs| == |chunks|
    requires forall k :: 0 <= k < |chunks| ==> Extract(chunks[k]) == Some(qs[k])
    ensures Collect(chunks) == qs
  {
    SomesAll(Outcomes(chunks), qs);
  }

  /** No record comes out exactly when no chunk matches. */
  lemma CollectEmpty(chunks: seq<string>)
    ensures Collect(chunks) == [] <==> forall k :: 0 <= k < |chunks| ==> Extract(chunks[k]).None?
  {
    var idx := CollectIndices(chunks);
    if Collect(chunks) != [] {
      assert Extract(chunks[idx[0]]).Some?;
    }
  }

  /** `parse_quiz_md` after the file has been read. */
  function ParseQuestions(content: string): (r: seq<Question>)
    ensures |r| <= |Spans(content)| + (if KeepsPreamble(content) then 1 else 0)
    ensures forall k :: 0 <= k < |r| ==> WellFormed(r[k])
  {
    ChunkCount(content);
    Collect(Chunks(content))
  }

  /** `parse_quiz_md`, with the file given as its content or `None` when it
      does not exist. */
  function ParseQuizFile(file: Option<string>): (r: seq<Question>)
    ensures file.None? ==> r == []
    ensures forall k :: 0 <= k < |r| ==> WellFormed(r[k])
  {
    match file
    case None => []
    case Some(content) => ParseQuestions(content)
  }

  // ---- Properties of the parser ----

  /** The explanation of a record is the stripped rest of its own chunk after
      an explanation keyword: it holds nothing from beyond the chunk. */
  lemma ExplanationIsRest(b: string)
    requires Extract(b).Some?
    ensures exists g: nat :: g + |ExplanationKeyword| <= |b| && KeywordAt(b, g, ExplanationKeyword)
                             && Extract(b).value.explanation == Strip(b[g + |ExplanationKeyword|..])
  {
    var m := MatchAt(b, Search(b, 0).value).value;
    assert Extract(b).value.explanation == Strip(b[m.explanationStart..]);
    var g := AnswerRest(b, m.optionsEnd);
  }

  /** After the answer, the explanation starts past the keyword and its whitespace. */
  lemma AnswerRest(b: string, t: nat) returns (g: nat)
    requires t <= |b| && AnswerAt(b, t).Some?
    ensures g + |ExplanationKeyword| <= |b| && KeywordAt(b, g, ExplanationKeyword)
    ensures Strip(b[AnswerAt(b, t).value.1..]) == Strip(b[g + |ExplanationKeyword|..])
  {
    g := AnswerAtParts(b, t);
    var y, x := g + |ExplanationKeyword|, AnswerAt(b, t).value.1;
    AllSpaceSlice(b, y, x);
    SkipAndStrip(b, y, x);
  }

  /** Text with no newline-preceded marker whose stripped form does not start
      with `**` gives no record. */
  lemma NoMarkerNoQuestion(content: string)
    requires NoMarkerIn(content, 0, |content|) && !StartsWith(Strip(content), "**")
    ensures ParseQuestions(content) == []
  {
    NextMarkerNone(content, 0);
    PreambleIs(content);
  }

  /** A preamble that, stripped, does not start with `**` adds no record: the
      records are those of the marker-started chunks alone. */
  lemma PreambleDropped(content: string)
    requires !KeepsPreamble(content)
    ensures ParseQuestions(content) == Collect(GluePairs(Split(content)))
  {
  }

  /** A text that starts with `**` keeps its leading question chunk, which is
      searched like every other chunk. */
  lemma LeadingChunkSearched(content: string)
    requires StartsWith(content, "**")
    ensures ParseQuestions(content) == Collect([Preamble(content)] + GluePairs(Split(content)))
  {
    LeadingQuestionKept(content);
  }

  /** A missing file and a file with no recognisable question both give no records. */
  lemma NothingParsed(file: Option<string>)
    ensures ParseQuizFile(file) == [] <==>
      file.None? || forall k :: 0 <= k < |Chunks(file.value)| ==> Extract(Chunks(file.value)[k]).None?
  {
    if file.Some? {
      CollectEmpty(Chunks(file.value));
    }
  }
}
