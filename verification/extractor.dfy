/**
 The per-chunk pattern of the parser, searched (not anchored) with MULTILINE,
 DOTALL and IGNORECASE:

   `\*\*(\d+)\.\s*(?P<question>.*?)\*\*\s*(?P<options>(?:^[A-D]\..*$\n?)+)`
   `đáp án:\s*(?P<answer>[A-D])\s*Giải thích:\s*(?P<explanation>.*)`

 Instead of a regular-expression engine, the match is described by the three
 choices the backtracking search makes: the start `s` (leftmost), the end `e`
 of the lazy question (shortest), and the end `t` of the options group, whose
 DOTALL `.*` is greedy (longest). Every `\s*` and the digit run are greedy and
 each is followed by a token that cannot be whitespace or a digit, so giving
 characters back to them never leads to another match; they are fixed by
 `SkipSpace` and `SkipDigits`.
 */
module Extractor {
  import opened Wrappers
  import opened Text
  import opened Options

  /** One parsed question record. */
  datatype Question = Question(id: nat, question: string, options: map<char, string>, answer: string, explanation: string)

  const AnswerKeyword: string := "\U{111}\U{E1}p \U{E1}n:"
  const ExplanationKeyword: string := "Gi\U{1EA3}i th\U{ED}ch:"

  /** Whether the text character `c` matches the pattern character `p` under
      IGNORECASE, for the characters of the two keywords. A lower-case `i` also
      matches the dotted capital and the dotless small i. */
  predicate FoldMatch(p: char, c: char) {
    if p == 'i' then c == 'i' || c == 'I' || c == '\U{130}' || c == '\U{131}'
    else if 'a' <= p <= 'z' || p == '\U{E1}' || p == '\U{ED}' then c == p || c as int == p as int - 32
    else if 'A' <= p <= 'Z' then c == p || c as int == p as int + 32
    else if p == '\U{1EA3}' then c == p || c == '\U{1EA2}'
    else if p == '\U{111}' then c == p || c == '\U{110}'
    else c == p
  }

  /** The literal `kw` matches at `i`, ignoring case. */
  predicate KeywordAt(b: string, i: nat, kw: string) {
    i + |kw| <= |b| && forall k :: 0 <= k < |kw| ==> FoldMatch(kw[k], b[i + k])
  }

  /** `[A-D]` under IGNORECASE. */
  predicate IsAnswerLetter(c: char) {
    'A' <= c <= 'D' || 'a' <= c <= 'd'
  }

  /** `str.upper()` on an answer letter. */
  function ToUpper(c: char): (r: char)
    requires IsAnswerLetter(c)
    ensures IsOptionKey(r)
    ensures 'A' <= c <= 'D' ==> r == c
    ensures 'a' <= c <= 'd' ==> r as int == c as int - 32
  {
    if 'a' <= c <= 'd' then (c as int - 32) as char else c
  }

  /** `\*\*(\d+)\.\s*` at `s`: the end `d` of the digit run (where the period
      is) and the start of the question. */
  function Head(b: string, s: nat): (r: Option<(nat, nat)>)
    ensures r.Some? ==> StarsAt(b, s) && s + 2 < r.value.0 < r.value.1 <= |b| && b[r.value.0] == '.'
    ensures r.Some? ==> AllDigits(b[s + 2..r.value.0])
  {
    if StarsAt(b, s) then
      var d := SkipDigits(b, s + 2);
      if s + 2 < d < |b| && b[d] == '.' then
        AllDigitsSlice(b, s + 2, d);
        Some((d, SkipSpace(b, d + 1)))
      else None
    else None
  }

  /** `^` under MULTILINE: the start of the chunk or just after a line break. */
  predicate LineStart(b: string, i: nat) {
    i == 0 || (0 < i <= |b| && b[i - 1] == '\n')
  }

  /** `\s*` and the first `^[A-D]\.` of the options group after the closing
      `**` of the question: where the options start. */
  function OptionsStart(b: string, i: nat): (r: Option<nat>)
    requires i <= |b|
    ensures r.Some? ==> i <= r.value && r.value + 2 <= |b| && LineStart(b, r.value)
    ensures r.Some? ==> IsAnswerLetter(b[r.value]) && b[r.value + 1] == '.'
  {
    var o := SkipSpace(b, i);
    if LineStart(b, o) && o + 2 <= |b| && IsAnswerLetter(b[o]) && b[o + 1] == '.' then Some(o) else None
  }

  /** `đáp án:\s*([A-D])\s*Giải thích:\s*` at `t`: the position of the answer
      letter and where the explanation starts. */
  function AnswerAt(b: string, t: nat): (r: Option<(nat, nat)>)
    requires t <= |b|
    ensures r.Some? ==> KeywordAt(b, t, AnswerKeyword)
    ensures r.Some? ==> t + |AnswerKeyword| <= r.value.0 < r.value.1 <= |b| && IsAnswerLetter(b[r.value.0])
    ensures r.Some? ==> AllSpace(b[t + |AnswerKeyword|..r.value.0])
  {
    if KeywordAt(b, t, AnswerKeyword) then
      var a := SkipSpace(b, t + |AnswerKeyword|);
      if a < |b| && IsAnswerLetter(b[a]) then
        var g := SkipSpace(b, a + 1);
        if KeywordAt(b, g, ExplanationKeyword) then
          AllSpaceSlice(b, t + |AnswerKeyword|, a);
          Some((a, SkipSpace(b, g + |ExplanationKeyword|)))
        else None
      else None
    else None
  }

  /** After the answer letter, the explanation keyword follows its whitespace,
      and the explanation starts after the keyword's own whitespace. */
  lemma AnswerAtParts(b: string, t: nat) returns (g: nat)
    requires t <= |b| && AnswerAt(b, t).Some?
    ensures g == SkipSpace(b, AnswerAt(b, t).value.0 + 1)
    ensures g + |ExplanationKeyword| <= |b| && KeywordAt(b, g, ExplanationKeyword)
    ensures AnswerAt(b, t).value.1 == SkipSpace(b, g + |ExplanationKeyword|)
  {
    var a := SkipSpace(b, t + |AnswerKeyword|);
    g := SkipSpace(b, a + 1);
    assert AnswerAt(b, t) == Some((a, SkipSpace(b, g + |ExplanationKeyword|)));
  }

  /** The answer is read once its parts are found in order. */
  lemma AnswerAtFrom(b: string, t: nat, a: nat, g: nat)
    requires t + |AnswerKeyword| <= |b| && KeywordAt(b, t, AnswerKeyword)
    requires a == SkipSpace(b, t + |AnswerKeyword|) && a < |b| && IsAnswerLetter(b[a])
    requires g == SkipSpace(b, a + 1) && KeywordAt(b, g, ExplanationKeyword)
    ensures AnswerAt(b, t) == Some((a, SkipSpace(b, g + |ExplanationKeyword|)))
  {
  }

  /** `t` can end the options group begun at `o`: the group's last `.*` stops
      before a line break that its `\n?` takes, and the answer follows. */
  predicate OptionsEndOk(b: string, o: nat, t: nat) {
    o + 3 <= t <= |b| && b[t - 1] == '\n' && AnswerAt(b, t).Some?
  }

  /** The ends at which the options group begun at `o` can stop. */
  function EndsOptions(b: string, o: nat): nat -> bool {
    (t: nat) => OptionsEndOk(b, o, t)
  }

  /** The end the greedy options group settles on: the last acceptable one up to `hi`. */
  function LastOptionsEnd(b: string, o: nat, hi: nat): (r: Option<nat>)
    requires hi <= |b|
    ensures r.Some? ==> r.value <= hi && OptionsEndOk(b, o, r.value)
  {
    LastWhere(EndsOptions(b, o), o + 3, hi)
  }

  /** No acceptable end is passed over. */
  lemma LastOptionsEndIsLast(b: string, o: nat, hi: nat, t: nat)
    requires hi <= |b| && t <= hi && OptionsEndOk(b, o, t)
    ensures LastOptionsEnd(b, o, hi).Some? && t <= LastOptionsEnd(b, o, hi).value
  {
    LastWhereFinds(EndsOptions(b, o), o + 3, hi, t);
  }

  /** Everything after the question, tried with the question ending at `e`:
      the closing `**`, the options group and the answer. Yields where the
      options start and end. */
  function TailAt(b: string, e: nat): (r: Option<(nat, nat)>)
    ensures r.Some? ==> StarsAt(b, e) && OptionsStart(b, e + 2) == Some(r.value.0)
    ensures r.Some? ==> OptionsEndOk(b, r.value.0, r.value.1)
  {
    if StarsAt(b, e) then
      match OptionsStart(b, e + 2)
      case None => None
      case Some(o) =>
        match LastOptionsEnd(b, o, |b|)
        case None => None
        case Some(t) => Some((o, t))
    else None
  }

  /** The positions where the part of the pattern after the question matches. */
  function TailMatches(b: string): nat -> bool {
    (e: nat) => TailAt(b, e).Some?
  }

  /** The lazy question group: the first `e` from `from` on where the rest of the pattern matches. */
  function QuestionEnd(b: string, from: nat): (r: Option<nat>)
    ensures r.Some? ==> from <= r.value < |b| && TailAt(b, r.value).Some?
  {
    FirstWhere(TailMatches(b), from, |b|)
  }

  lemma QuestionEndIsFirst(b: string, from: nat, e: nat)
    requires from <= e && TailAt(b, e).Some?
    ensures QuestionEnd(b, from).Some? && QuestionEnd(b, from).value <= e
  {
    FirstWhereFinds(TailMatches(b), from, |b|, e);
  }

  /** Where each part of a match lies in the chunk. */
  datatype Match = Match(start: nat, digitsEnd: nat, questionStart: nat, questionEnd: nat,
                         optionsStart: nat, optionsEnd: nat, letter: nat, explanationStart: nat)

  /** The whole pattern tried at `s`. It fails exactly when the pattern
      cannot match with its start at `s`. Otherwise it reports one way the
      pattern matches there: the shortest question (the group is lazy) and,
      for that question, the longest options group (its `.*` is greedy). */
  function MatchAt(b: string, s: nat): (r: Option<Match>)
    ensures r.None? <==> forall e: nat, t: nat :: !Viable(b, s, e, t)
    ensures r.Some? ==> && Viable(b, s, r.value.questionEnd, r.value.optionsEnd)
                        && r.value == Located(b, s, r.value.questionEnd, r.value.optionsEnd)
    ensures r.Some? ==> forall e: nat, t: nat :: e < r.value.questionEnd ==> !Viable(b, s, e, t)
    ensures r.Some? ==> forall t: nat :: r.value.optionsEnd < t ==> !Viable(b, s, r.value.questionEnd, t)
    ensures r.Some? ==> s + 2 < |b| && Fits(b, r.value)
  {
    match Head(b, s)
    case None => None
    case Some(h) =>
      match QuestionEnd(b, h.1)
      case None =>
        NoQuestionEnd(b, s);
        None
      case Some(e) =>
        ScanFound(b, s, e);
        LazyAndGreedy(b, s, e);
        Some(Located(b, s, e, TailAt(b, e).value.1))
  }

  /** Once the head and the lazy question are found, the greedy options group
      and the answer complete a match, whose groups lie inside the chunk. */
  lemma ScanFound(b: string, s: nat, e: nat)
    requires Head(b, s).Some? && QuestionEnd(b, Head(b, s).value.1) == Some(e)
    ensures TailAt(b, e).Some? && Viable(b, s, e, TailAt(b, e).value.1)
    ensures s + 2 < |b| && Fits(b, Located(b, s, e, TailAt(b, e).value.1))
  {
    ScanViable(b, s, e);
    ScanFits(b, s, e, TailAt(b, e).value.1);
  }

  lemma ScanViable(b: string, s: nat, e: nat)
    requires Head(b, s).Some? && QuestionEnd(b, Head(b, s).value.1) == Some(e)
    ensures TailAt(b, e).Some? && Viable(b, s, e, TailAt(b, e).value.1)
  {
  }

  lemma ScanFits(b: string, s: nat, e: nat, t: nat)
    requires Viable(b, s, e, t) && Head(b, s).value.1 <= e < |b|
    ensures s + 2 < |b| && Fits(b, Located(b, s, e, t))
  {
    assert AnswerAt(b, t).Some?;
  }

  /** When the lazy question finds no end, the pattern cannot match at `s`. */
  lemma NoQuestionEnd(b: string, s: nat)
    requires Head(b, s).Some? && QuestionEnd(b, Head(b, s).value.1).None?
    ensures forall e: nat, t: nat :: !Viable(b, s, e, t)
  {
    forall e: nat, t: nat ensures !Viable(b, s, e, t) {
      if Viable(b, s, e, t) {
        ViableTail(b, e, t);
        QuestionEndIsFirst(b, Head(b, s).value.1, e);
      }
    }
  }

  /** No match at `s` has a shorter question than the lazy end `e`, and none
      with that question has a longer options group than the greedy one. */
  lemma LazyAndGreedy(b: string, s: nat, e: nat)
    requires Head(b, s).Some? && QuestionEnd(b, Head(b, s).value.1) == Some(e)
    ensures forall e': nat, t: nat :: e' < e ==> !Viable(b, s, e', t)
    ensures forall t: nat :: TailAt(b, e).value.1 < t ==> !Viable(b, s, e, t)
  {
    forall e': nat, t: nat | e' < e ensures !Viable(b, s, e', t) {
      if Viable(b, s, e', t) {
        ViableTail(b, e', t);
        QuestionEndIsFirst(b, Head(b, s).value.1, e');
      }
    }
    forall t: nat | TailAt(b, e).value.1 < t ensures !Viable(b, s, e, t) {
      if Viable(b, s, e, t) {
        ViableTail(b, e, t);
      }
    }
  }

  /** The positions where the whole pattern matches. */
  function Matches(b: string): nat -> bool {
    (s: nat) => MatchAt(b, s).Some?
  }

  /** `search`: the first start from `from` on where the pattern matches. */
  function Search(b: string, from: nat): (r: Option<nat>)
    ensures r.Some? ==> from <= r.value < |b| && MatchAt(b, r.value).Some?
  {
    FirstWhere(Matches(b), from, |b|)
  }

  lemma SearchIsFirst(b: string, from: nat, s: nat)
    requires from <= s && MatchAt(b, s).Some?
    ensures Search(b, from).Some? && Search(b, from).value <= s
  {
    FirstWhereFinds(Matches(b), from, |b|, s);
  }

  /** The parts of a match lie inside the chunk, the id is digits and the
      answer a letter. */
  predicate Fits(b: string, m: Match) {
    && m.start + 2 < m.digitsEnd <= |b| && AllDigits(b[m.start + 2..m.digitsEnd])
    && m.questionStart <= m.questionEnd <= |b|
    && m.optionsStart <= m.optionsEnd <= |b|
    && m.letter < |b| && IsAnswerLetter(b[m.letter]) && m.explanationStart <= |b|
  }

  /** The record built from a match. */
  function Record(b: string, m: Match): (q: Question)
    requires Fits(b, m)
    ensures |q.answer| == 1 && IsOptionKey(q.answer[0])
    ensures IsTrimmed(q.question) && IsTrimmed(q.explanation)
    ensures forall c :: c in q.options ==> IsOptionKey(c) && IsTrimmed(q.options[c])
  {
    Question(
      DigitsValue(b[m.start + 2..m.digitsEnd]),
      Strip(b[m.questionStart..m.questionEnd]),
      OptionsDict(b[m.optionsStart..m.optionsEnd]),
      [ToUpper(b[m.letter])],
      Strip(b[m.explanationStart..]))
  }

  /** `parser_regex.search(block)` and the record built from its groups, or
      `None` when the chunk does not match. */
  function Extract(b: string): (r: Option<Question>)
    ensures r.Some? ==> |r.value.answer| == 1 && IsOptionKey(r.value.answer[0])
    ensures r.Some? ==> IsTrimmed(r.value.question) && IsTrimmed(r.value.explanation)
    ensures r.Some? ==> forall c :: c in r.value.options ==> IsOptionKey(c) && IsTrimmed(r.value.options[c])
  {
    match Search(b, 0)
    case None => None
    case Some(s) => Some(Record(b, MatchAt(b, s).value))
  }

  // ---- The declarative reading of the match ----

  /** The pattern can match the chunk with its start at `s`, the question
      ending at `e` and the options group ending at `t`. */
  ghost predicate Viable(b: string, s: nat, e: nat, t: nat) {
    && Head(b, s).Some? && Head(b, s).value.1 <= e
    && StarsAt(b, e) && OptionsStart(b, e + 2).Some?
    && OptionsEndOk(b, OptionsStart(b, e + 2).value, t)
  }

  /** The match `search` reports among all the ways the pattern can match:
      the leftmost start, then the shortest question (the group is lazy),
      then the longest options group (its `.*` is greedy). */
  ghost predicate Preferred(b: string, s: nat, e: nat, t: nat) {
    && Viable(b, s, e, t)
    && (forall s': nat, e': nat, t': nat :: s' < s ==> !Viable(b, s', e', t'))
    && (forall e': nat, t': nat :: e' < e ==> !Viable(b, s, e', t'))
    && (forall t': nat :: t < t' ==> !Viable(b, s, e, t'))
  }

  /** At most one match is the preferred one. */
  lemma PreferredUnique(b: string, s: nat, e: nat, t: nat, s': nat, e': nat, t': nat)
    requires Preferred(b, s, e, t) && Preferred(b, s', e', t')
    ensures s == s' && e == e' && t == t'
  {
  }

  /** Where the parts of a viable match lie. */
  function Located(b: string, s: nat, e: nat, t: nat): (m: Match)
    requires Viable(b, s, e, t)
    ensures m.start == s && m.questionEnd == e && m.optionsEnd == t
    ensures Head(b, s) == Some((m.digitsEnd, m.questionStart))
    ensures OptionsStart(b, e + 2) == Some(m.optionsStart)
    ensures AnswerAt(b, t) == Some((m.letter, m.explanationStart))
  {
    var h := Head(b, s).value;
    var ax := AnswerAt(b, t).value;
    Match(s, h.0, h.1, e, OptionsStart(b, e + 2).value, t, ax.0, ax.1)
  }

  /** The record built from a viable match. */
  function RecordAt(b: string, s: nat, e: nat, t: nat): Question
    requires Viable(b, s, e, t)
  {
    Record(b, Located(b, s, e, t))
  }

  /** Whenever the pattern can match at `s`, the scan at `s` succeeds, with a
      question no longer than that match's and, for the same question, an
      options group no shorter. */
  lemma ViableMatchAt(b: string, s: nat, e: nat, t: nat)
    requires Viable(b, s, e, t)
    ensures MatchAt(b, s).Some?
    ensures MatchAt(b, s).value.questionEnd <= e
    ensures MatchAt(b, s).value.questionEnd == e ==> t <= MatchAt(b, s).value.optionsEnd
  {
  }

  lemma ViableTail(b: string, e: nat, t: nat)
    requires StarsAt(b, e) && OptionsStart(b, e + 2).Some? && OptionsEndOk(b, OptionsStart(b, e + 2).value, t)
    ensures TailAt(b, e).Some? && t <= TailAt(b, e).value.1
  {
    LastOptionsEndIsLast(b, OptionsStart(b, e + 2).value, |b|, t);
  }

  /** What the scan at `s` finds is a viable match. */
  lemma MatchAtViable(b: string, s: nat)
    requires MatchAt(b, s).Some?
    ensures Viable(b, s, MatchAt(b, s).value.questionEnd, MatchAt(b, s).value.optionsEnd)
    ensures Located(b, s, MatchAt(b, s).value.questionEnd, MatchAt(b, s).value.optionsEnd) == MatchAt(b, s).value
  {
  }

  /** Whenever the pattern can match, `search` finds a start no later. */
  lemma ViableSearch(b: string, s: nat, e: nat, t: nat)
    requires Viable(b, s, e, t)
    ensures Search(b, 0).Some? && Search(b, 0).value <= s
  {
    ViableMatchAt(b, s, e, t);
    SearchIsFirst(b, 0, s);
  }

  /** The match found by `search` is the preferred one. */
  lemma SearchPreferred(b: string)
    requires Search(b, 0).Some?
    ensures Preferred(b, Search(b, 0).value, MatchAt(b, Search(b, 0).value).value.questionEnd,
                      MatchAt(b, Search(b, 0).value).value.optionsEnd)
  {
    var s := Search(b, 0).value;
    var m := MatchAt(b, s).value;
    MatchAtViable(b, s);
    forall s': nat, e': nat, t': nat | s' < s ensures !Viable(b, s', e', t') {
      if Viable(b, s', e', t') {
        ViableSearch(b, s', e', t');
      }
    }
    forall e': nat, t': nat | e' < m.questionEnd ensures !Viable(b, s, e', t') {
      if Viable(b, s, e', t') {
        ViableMatchAt(b, s, e', t');
      }
    }
    forall t': nat | m.optionsEnd < t' ensures !Viable(b, s, m.questionEnd, t') {
      if Viable(b, s, m.questionEnd, t') {
        ViableMatchAt(b, s, m.questionEnd, t');
      }
    }
  }

  /** `Extract` in declarative terms: it fails exactly when the pattern cannot
      match anywhere in the chunk, and otherwise builds the record from the
      preferred match. */
  lemma ExtractMeaning(b: string)
    ensures Extract(b).None? <==> forall s: nat, e: nat, t: nat :: !Viable(b, s, e, t)
    ensures forall s: nat, e: nat, t: nat :: Preferred(b, s, e, t) ==> Extract(b) == Some(RecordAt(b, s, e, t))
  {
    if Search(b, 0).Some? {
      var s := Search(b, 0).value;
      var m := MatchAt(b, s).value;
      SearchPreferred(b);
      MatchAtViable(b, s);
      forall s': nat, e': nat, t': nat | Preferred(b, s', e', t')
        ensures Extract(b) == Some(RecordAt(b, s', e', t'))
      {
        PreferredUnique(b, s, m.questionEnd, m.optionsEnd, s', e', t');
      }
    } else {
      forall s: nat, e: nat, t: nat ensures !Viable(b, s, e, t) {
        if Viable(b, s, e, t) {
          ViableSearch(b, s, e, t);
        }
      }
    }
  }
}
