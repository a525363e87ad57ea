/**
 Turning a quiz title into a file name stem. The web application lower-cases
 the title, transliterates the accented Vietnamese vowels and `đ` to plain
 letters, turns every whitespace run into `_` and keeps only `-_.() ` and ASCII
 letters and digits. The command-line tool does the same without the
 transliteration, so accented letters are dropped instead of mapped.
 */
module Sanitize {
  import opened Text

  // ---- The alphabet ----

  /* The character classes of the seven transliteration passes, in the order
     the passes run; each is replaced by the letter it is named after. */

  predicate InSmallA(c: char) {
    || c == '\U{E0}' || c == '\U{E1}' || c == '\U{1EA1}' || c == '\U{1EA3}' || c == '\U{E3}' || c == '\U{E2}'
    || c == '\U{1EA7}' || c == '\U{1EA5}' || c == '\U{1EAD}' || c == '\U{1EA9}' || c == '\U{1EAB}' || c == '\U{103}'
    || c == '\U{1EB1}' || c == '\U{1EAF}' || c == '\U{1EB7}' || c == '\U{1EB3}' || c == '\U{1EB5}'
  }

  predicate InSmallE(c: char) {
    || c == '\U{E8}' || c == '\U{E9}' || c == '\U{1EB9}' || c == '\U{1EBB}' || c == '\U{1EBD}' || c == '\U{EA}'
    || c == '\U{1EC1}' || c == '\U{1EBF}' || c == '\U{1EC7}' || c == '\U{1EC3}' || c == '\U{1EC5}'
  }

  predicate InSmallI(c: char) {
    || c == '\U{EC}' || c == '\U{ED}' || c == '\U{1ECB}' || c == '\U{1EC9}' || c == '\U{129}'
  }

  predicate InSmallO(c: char) {
    || c == '\U{F2}' || c == '\U{F3}' || c == '\U{1ECD}' || c == '\U{1ECF}' || c == '\U{F5}' || c == '\U{F4}'
    || c == '\U{1ED3}' || c == '\U{1ED1}' || c == '\U{1ED9}' || c == '\U{1ED5}' || c == '\U{1ED7}' || c == '\U{1A1}'
    || c == '\U{1EDD}' || c == '\U{1EDB}' || c == '\U{1EE3}' || c == '\U{1EDF}' || c == '\U{1EE1}'
  }

  predicate InSmallU(c: char) {
    || c == '\U{F9}' || c == '\U{FA}' || c == '\U{1EE5}' || c == '\U{1EE7}' || c == '\U{169}' || c == '\U{1B0}'
    || c == '\U{1EEB}' || c == '\U{1EE9}' || c == '\U{1EF1}' || c == '\U{1EED}' || c == '\U{1EEF}'
  }

  predicate InSmallY(c: char) {
    || c == '\U{1EF3}' || c == '\U{FD}' || c == '\U{1EF5}' || c == '\U{1EF7}' || c == '\U{1EF9}'
  }

  predicate InSmallD(c: char) {
    || c == '\U{111}'
  }

  /** The characters the final filter keeps: `-_.() ` and ASCII letters and digits. */
  predicate IsValidChar(c: char) {
    || c == '-' || c == '_' || c == '.' || c == '(' || c == ')' || c == ' '
    || 'a' <= c <= 'z' || 'A' <= c <= 'Z' || '0' <= c <= '9'
  }

  /** The characters a sanitised name can hold: lower-case ASCII letters,
      digits and `-_.()`. */
  predicate IsSafe(c: char) {
    || c == '-' || c == '_' || c == '.' || c == '(' || c == ')'
    || 'a' <= c <= 'z' || '0' <= c <= '9'
  }

  predicate AllSafe(s: string) {
    forall k :: 0 <= k < |s| ==> IsSafe(s[k])
  }

  predicate IsUpperAscii(c: char) {
    'A' <= c <= 'Z'
  }

  // ---- Lower-casing ----

  /** Capitals in Latin-1 of the classes above: each lowers to the letter 32 code points on. */
  predicate IsLatin1Capital(c: char) {
    || c == '\U{C0}' || c == '\U{C1}' || c == '\U{C2}' || c == '\U{C3}' || c == '\U{C8}' || c == '\U{C9}'
    || c == '\U{CA}' || c == '\U{CC}' || c == '\U{CD}' || c == '\U{D2}' || c == '\U{D3}' || c == '\U{D4}'
    || c == '\U{D5}' || c == '\U{D9}' || c == '\U{DA}' || c == '\U{DD}'
  }

  /** The other capitals of the classes above: each lowers to the next code
      point. In U+1EA0-U+1EF9 every even capital pairs with the odd letter after it. */
  predicate IsVietCapital(c: char) {
    || c == '\U{102}' || c == '\U{110}' || c == '\U{128}' || c == '\U{168}' || c == '\U{1A0}' || c == '\U{1AF}'
    || ('\U{1EA0}' <= c <= '\U{1EF8}' && c as int % 2 == 0)
  }

  /** `str.lower()` on one character, over ASCII, the Vietnamese capitals of
      the classes above, the Kelvin sign and the dotted capital I (which lowers
      to `i` followed by a combining dot); every other character is kept. */
  function LowerChar(c: char): (r: string)
    ensures |r| > 0
    ensures IsSpace(c) ==> r == [c]
    ensures !IsSpace(c) ==> forall k :: 0 <= k < |r| ==> !IsSpace(r[k])
    ensures forall k :: 0 <= k < |r| ==> !IsUpperAscii(r[k])
    ensures !IsUpperAscii(c) && c as int < 128 ==> r == [c]
  {
    if IsUpperAscii(c) || IsLatin1Capital(c) then [(c as int + 32) as char]
    else if IsVietCapital(c) then [(c as int + 1) as char]
    else if c == '\U{212A}' then "k"
    else if c == '\U{130}' then "i\U{307}"
    else [c]
  }

  /** `str.lower()`, character by character. */
  function Lower(s: string): (r: string)
    ensures forall k :: 0 <= k < |r| ==> !IsUpperAscii(r[k])
    decreases |s|
  {
    if |s| == 0 then "" else LowerChar(s[0]) + Lower(s[1..])
  }

  // ---- Transliteration ----

  /** One `re.sub` with a character class and a one-letter replacement. */
  function ReplaceClass(s: string, cls: char -> bool, b: char): (r: string)
    ensures |r| == |s|
    ensures forall k :: 0 <= k < |s| ==> r[k] == Pass(s[k], cls, b)
    decreases |s|
  {
    if |s| == 0 then "" else [Pass(s[0], cls, b)] + ReplaceClass(s[1..], cls, b)
  }

  /** One pass on one character. */
  function Pass(c: char, cls: char -> bool, b: char): char
  {
    if cls(c) then b else c
  }

  /** The seven passes, in order. */
  function Translit(s: string): string
  {
    var s1 := ReplaceClass(s, InSmallA, 'a');
    var s2 := ReplaceClass(s1, InSmallE, 'e');
    var s3 := ReplaceClass(s2, InSmallI, 'i');
    var s4 := ReplaceClass(s3, InSmallO, 'o');
    var s5 := ReplaceClass(s4, InSmallU, 'u');
    var s6 := ReplaceClass(s5, InSmallY, 'y');
    ReplaceClass(s6, InSmallD, 'd')
  }

  /** The plain letter an accented letter stands for; any other character is
      its own. */
  function Base(c: char): char
  {
    if InSmallA(c) then 'a'
    else if InSmallE(c) then 'e'
    else if InSmallI(c) then 'i'
    else if InSmallO(c) then 'o'
    else if InSmallU(c) then 'u'
    else if InSmallY(c) then 'y'
    else if InSmallD(c) then 'd'
    else c
  }

  /** The seven passes in a row on one character leave what `Base` gives: no
      pass produces a character that a later pass replaces. */
  lemma PassesAreBase(c: char)
    ensures Pass(Pass(Pass(Pass(Pass(Pass(Pass(c, InSmallA, 'a'), InSmallE, 'e'), InSmallI, 'i'), InSmallO, 'o'), InSmallU, 'u'), InSmallY, 'y'), InSmallD, 'd')
         == Base(c)
  {
  }

  /** The seven passes act on each character alone, as `Base` does. */
  lemma TranslitByChar(s: string)
    ensures |Translit(s)| == |s|
    ensures forall k :: 0 <= k < |s| ==> Translit(s)[k] == Base(s[k])
  {
    forall k | 0 <= k < |s| ensures Translit(s)[k] == Base(s[k]) {
      PassesAreBase(s[k]);
    }
  }

  predicate InAnyClass(c: char) {
    InSmallA(c) || InSmallE(c) || InSmallI(c) || InSmallO(c) || InSmallU(c) || InSmallY(c) || InSmallD(c)
  }

  /** The accented letters lie in U+00E0-U+01B0 and U+1EA1-U+1EF9. */
  lemma ClassRange(c: char)
    requires InAnyClass(c)
    ensures '\U{E0}' <= c <= '\U{1B0}' || '\U{1EA1}' <= c <= '\U{1EF9}'
  {
  }

  /** Whitespace and ASCII characters are their own base letter; any other
      character is its own or becomes a small ASCII letter. */
  lemma BaseFixes(c: char)
    ensures IsSpace(c) || c as int < 128 ==> Base(c) == c
    ensures Base(c) == c || 'a' <= Base(c) <= 'y'
  {
    if InAnyClass(c) {
      ClassRange(c);
    }
  }

  /** Transliteration of a concatenation is the concatenation of the transliterations. */
  lemma ReplaceClassAppend(x: string, y: string, cls: char -> bool, b: char)
    ensures ReplaceClass(x + y, cls, b) == ReplaceClass(x, cls, b) + ReplaceClass(y, cls, b)
  {
    var r := ReplaceClass(x + y, cls, b);
    var u := ReplaceClass(x, cls, b) + ReplaceClass(y, cls, b);
    forall k | 0 <= k < |r| ensures r[k] == u[k] {
      if k < |x| {
        assert (x + y)[k] == x[k];
      } else {
        assert (x + y)[k] == y[k - |x|];
      }
    }
  }

  lemma TranslitAppend(x: string, y: string)
    ensures Translit(x + y) == Translit(x) + Translit(y)
  {
    var x1, y1 := ReplaceClass(x, InSmallA, 'a'), ReplaceClass(y, InSmallA, 'a');
    var x2, y2 := ReplaceClass(x1, InSmallE, 'e'), ReplaceClass(y1, InSmallE, 'e');
    var x3, y3 := ReplaceClass(x2, InSmallI, 'i'), ReplaceClass(y2, InSmallI, 'i');
    var x4, y4 := ReplaceClass(x3, InSmallO, 'o'), ReplaceClass(y3, InSmallO, 'o');
    var x5, y5 := ReplaceClass(x4, InSmallU, 'u'), ReplaceClass(y4, InSmallU, 'u');
    var x6, y6 := ReplaceClass(x5, InSmallY, 'y'), ReplaceClass(y5, InSmallY, 'y');
    ReplaceClassAppend(x, y, InSmallA, 'a');
    ReplaceClassAppend(x1, y1, InSmallE, 'e');
    ReplaceClassAppend(x2, y2, InSmallI, 'i');
    ReplaceClassAppend(x3, y3, InSmallO, 'o');
    ReplaceClassAppend(x4, y4, InSmallU, 'u');
    ReplaceClassAppend(x5, y5, InSmallY, 'y');
    ReplaceClassAppend(x6, y6, InSmallD, 'd');
  }

  // ---- Whitespace runs and the filter ----

  /** `re.sub(r'\s+', '_', s)`: each maximal whitespace run becomes one `_`. */
  function CollapseSpace(s: string): (r: string)
    ensures forall k :: 0 <= k < |r| ==> !IsSpace(r[k])
    ensures (forall k :: 0 <= k < |s| ==> !IsUpperAscii(s[k])) ==> forall k :: 0 <= k < |r| ==> !IsUpperAscii(r[k])
    decreases |s|
  {
    if |s| == 0 then ""
    else if IsSpace(s[0]) then "_" + CollapseSpace(s[SkipSpace(s, 0)..])
    else [s[0]] + CollapseSpace(s[1..])
  }

  /** The join over the characters that are in the valid set. */
  function KeepValid(s: string): (r: string)
    ensures |r| <= |s|
    ensures forall k :: 0 <= k < |r| ==> IsValidChar(r[k]) && r[k] in s
    decreases |s|
  {
    if |s| == 0 then "" else (if IsValidChar(s[0]) then [s[0]] else "") + KeepValid(s[1..])
  }

  // ---- The two sanitisers ----

  /** The lower-cased, transliterated title. */
  function Folded(name: string): string
  {
    Translit(Lower(name))
  }

  /** `sanitize_filename` of the web application. */
  function SanitizeFilename(name: string): (r: string)
    ensures AllSafe(r)
  {
    FoldedNoCapital(name);
    KeepValid(CollapseSpace(Folded(name)))
  }

  /** Lower-casing and transliterating leave no ASCII capital. */
  lemma FoldedNoCapital(name: string)
    ensures forall k :: 0 <= k < |Folded(name)| ==> !IsUpperAscii(Folded(name)[k])
  {
    var x := Lower(name);
    TranslitByChar(x);
    forall k | 0 <= k < |x| ensures !IsUpperAscii(Translit(x)[k]) {
      BaseFixes(x[k]);
    }
  }

  /** The inline sanitising of the command-line tool: no transliteration. */
  function InlineSanitize(name: string): (r: string)
    ensures AllSafe(r)
  {
    KeepValid(CollapseSpace(Lower(name)))
  }

  // ---- Properties ----

  /** Nothing in a sanitised name is whitespace, an upper-case letter or
      outside the valid set. */
  lemma SanitizedAlphabet(name: string)
    ensures forall k :: 0 <= k < |SanitizeFilename(name)| ==>
      var c := SanitizeFilename(name)[k];
      IsValidChar(c) && !IsSpace(c) && !IsUpperAscii(c)
    ensures forall k :: 0 <= k < |InlineSanitize(name)| ==>
      var c := InlineSanitize(name)[k];
      IsValidChar(c) && !IsSpace(c) && !IsUpperAscii(c)
  {
  }

  lemma {:induction false} LowerSafe(s: string)
    requires AllSafe(s)
    ensures Lower(s) == s
    decreases |s|
  {
    if |s| > 0 {
      LowerSafe(s[1..]);
    }
  }

  lemma {:induction false} CollapseQuiet(s: string)
    requires forall k :: 0 <= k < |s| ==> !IsSpace(s[k])
    ensures CollapseSpace(s) == s
    decreases |s|
  {
    if |s| > 0 {
      CollapseQuiet(s[1..]);
    }
  }

  lemma {:induction false} KeepAllValid(s: string)
    requires forall k :: 0 <= k < |s| ==> IsValidChar(s[k])
    ensures KeepValid(s) == s
    decreases |s|
  {
    if |s| > 0 {
      KeepAllValid(s[1..]);
    }
  }

  /** A name that is already safe comes through both sanitisers unchanged. */
  lemma SafeUnchanged(s: string)
    requires AllSafe(s)
    ensures SanitizeFilename(s) == s && InlineSanitize(s) == s
  {
    LowerSafe(s);
    TranslitByChar(s);
    forall k | 0 <= k < |s| ensures Translit(s)[k] == s[k] {
      BaseFixes(s[k]);
    }
    assert Translit(s) == s;
    CollapseQuiet(s);
    KeepAllValid(s);
  }

  /** Sanitising twice is sanitising once, for both sanitisers. */
  lemma SanitizeIdempotent(name: string)
    ensures SanitizeFilename(SanitizeFilename(name)) == SanitizeFilename(name)
    ensures InlineSanitize(InlineSanitize(name)) == InlineSanitize(name)
  {
    SafeUnchanged(SanitizeFilename(name));
    SafeUnchanged(InlineSanitize(name));
  }

  // ---- Working piece by piece ----

  /** Two texts whose meeting point is not inside a whitespace run. */
  predicate Joinable(x: string, y: string) {
    |x| == 0 || |y| == 0 || !IsSpace(x[|x| - 1]) || !IsSpace(y[0])
  }

  lemma {:induction false} LowerAppend(a: string, b: string)
    ensures Lower(a + b) == Lower(a) + Lower(b)
    decreases |a|
  {
    if |a| == 0 {
      assert a + b == b;
    } else {
      assert (a + b)[0] == a[0];
      assert (a + b)[1..] == a[1..] + b;
      LowerAppend(a[1..], b);
      assert Lower(a + b) == LowerChar(a[0]) + (Lower(a[1..]) + Lower(b));
    }
  }

  /** Lower-casing keeps whether the first and the last character are whitespace. */
  lemma LowerEdges(a: string)
    requires |a| > 0
    ensures |Lower(a)| > 0
    ensures IsSpace(Lower(a)[0]) <==> IsSpace(a[0])
    ensures IsSpace(Lower(a)[|Lower(a)| - 1]) <==> IsSpace(a[|a| - 1])
  {
    var n := |a|;
    assert a == a[..n - 1] + [a[n - 1]];
    LowerAppend(a[..n - 1], [a[n - 1]]);
    assert Lower([a[n - 1]]) == LowerChar(a[n - 1]) + "";
    var l := LowerChar(a[n - 1]);
    assert Lower(a)[|Lower(a)| - 1] == l[|l| - 1];
  }

  lemma FoldedAppend(a: string, b: string)
    ensures Folded(a + b) == Folded(a) + Folded(b)
  {
    LowerAppend(a, b);
    TranslitAppend(Lower(a), Lower(b));
  }

  /** Transliteration keeps whether the first and the last character are whitespace. */
  lemma TranslitEdges(x: string)
    requires |x| > 0
    ensures |Translit(x)| == |x|
    ensures IsSpace(Translit(x)[0]) <==> IsSpace(x[0])
    ensures IsSpace(Translit(x)[|x| - 1]) <==> IsSpace(x[|x| - 1])
  {
    TranslitByChar(x);
    BaseFixes(x[0]);
    BaseFixes(x[|x| - 1]);
  }

  lemma FoldedJoinable(a: string, b: string)
    requires Joinable(a, b)
    ensures Joinable(Lower(a), Lower(b)) && Joinable(Folded(a), Folded(b))
  {
    LowerJoinable(a, b);
    TranslitJoinable(Lower(a), Lower(b));
  }

  lemma LowerJoinable(a: string, b: string)
    requires Joinable(a, b)
    ensures Joinable(Lower(a), Lower(b))
  {
    if |a| > 0 && |b| > 0 {
      LowerEdges(a);
      LowerEdges(b);
    }
  }

  lemma TranslitJoinable(x: string, y: string)
    requires Joinable(x, y)
    ensures Joinable(Translit(x), Translit(y))
  {
    if |x| > 0 && |y| > 0 {
      TranslitEdges(x);
      TranslitEdges(y);
    }
  }

  /** Whitespace runs are replaced piece by piece when no run crosses the join. */
  lemma {:induction false} CollapseAppend(x: string, y: string)
    requires Joinable(x, y)
    ensures CollapseSpace(x + y) == CollapseSpace(x) + CollapseSpace(y)
    decreases |x|
  {
    if |x| == 0 {
      assert x + y == y;
    } else if IsSpace(x[0]) {
      CollapseSpaceHead(x, y);
    } else {
      assert (x + y)[0] == x[0];
      assert (x + y)[1..] == x[1..] + y;
      CollapseAppend(x[1..], y);
      assert CollapseSpace(x + y) == [x[0]] + (CollapseSpace(x[1..]) + CollapseSpace(y));
    }
  }

  /** The case of `CollapseAppend` where `x` starts with whitespace. */
  lemma {:induction false} CollapseSpaceHead(x: string, y: string)
    requires Joinable(x, y) && |x| > 0 && IsSpace(x[0])
    ensures CollapseSpace(x + y) == CollapseSpace(x) + CollapseSpace(y)
    decreases |x|, 1
  {
    if SkipSpace(x, 0) == |x| {
      CollapseAllSpace(x, y);
    } else {
      CollapseSpaceInside(x, y);
    }
  }

  /** The case where the leading whitespace run of `x` ends inside `x`. */
  lemma {:induction false} CollapseSpaceInside(x: string, y: string)
    requires Joinable(x, y) && |x| > 0 && IsSpace(x[0]) && SkipSpace(x, 0) < |x|
    ensures CollapseSpace(x + y) == CollapseSpace(x) + CollapseSpace(y)
    decreases |x|, 0
  {
    var j := SkipSpace(x, 0);
    var rest := x[j..];
    assert rest[|rest| - 1] == x[|x| - 1];
    assert Joinable(rest, y);
    CollapseSkip(x, y, j);
    CollapseAppend(rest, y);
    PrefixJoin(CollapseSpace(x + y), CollapseSpace(rest + y), CollapseSpace(x), CollapseSpace(rest), CollapseSpace(y));
  }

  lemma PrefixJoin(p: string, q: string, r: string, a: string, b: string)
    requires p == "_" + q && q == a + b && r == "_" + a
    ensures p == r + b
  {
  }

  /** A leading whitespace run inside `x` collapses to `_` whatever follows `x`. */
  lemma CollapseSkip(x: string, y: string, j: nat)
    requires |x| > 0 && IsSpace(x[0]) && j == SkipSpace(x, 0) && j < |x|
    ensures CollapseSpace(x + y) == "_" + CollapseSpace(x[j..] + y)
    ensures CollapseSpace(x) == "_" + CollapseSpace(x[j..])
  {
    var xy := x + y;
    assert xy[0] == x[0];
    assert forall k :: 0 <= k <= j ==> xy[k] == x[k];
    SkipSpaceIs(xy, 0, j);
    assert xy[j..] == x[j..] + y;
  }

  /** A whitespace run followed by text that does not start with whitespace. */
  lemma CollapseRunThen(x: string, y: string)
    requires |x| > 0 && AllSpace(x) && (|y| == 0 || !IsSpace(y[0]))
    ensures CollapseSpace(x + y) == "_" + CollapseSpace(y)
  {
    var xy := x + y;
    assert xy[0] == x[0];
    assert forall k :: 0 <= k < |x| ==> xy[k] == x[k];
    SkipSpaceIs(xy, 0, |x|);
    assert xy[|x|..] == y;
  }

  /** A text of whitespace only, followed by text that does not start with whitespace. */
  lemma CollapseAllSpace(x: string, y: string)
    requires |x| > 0 && AllSpace(x) && (|y| == 0 || !IsSpace(y[0]))
    ensures CollapseSpace(x + y) == CollapseSpace(x) + CollapseSpace(y)
  {
    CollapseRunThen(x, y);
    CollapseRun(x);
  }

  /** A whitespace run alone collapses to a single `_`. */
  lemma CollapseRun(x: string)
    requires |x| > 0 && AllSpace(x)
    ensures CollapseSpace(x) == "_"
  {
    SkipSpaceIs(x, 0, |x|);
    assert x[|x|..] == [];
  }

  lemma {:induction false} KeepValidAppend(x: string, y: string)
    ensures KeepValid(x + y) == KeepValid(x) + KeepValid(y)
    decreases |x|
  {
    if |x| == 0 {
      assert x + y == y;
    } else {
      assert (x + y)[0] == x[0];
      assert (x + y)[1..] == x[1..] + y;
      KeepValidAppend(x[1..], y);
      assert KeepValid(x + y) == (if IsValidChar(x[0]) then [x[0]] else "") + (KeepValid(x[1..]) + KeepValid(y));
    }
  }

  /** Replacing runs and filtering, piece by piece. */
  lemma Finish(x: string, y: string)
    requires Joinable(x, y)
    ensures KeepValid(CollapseSpace(x + y)) == KeepValid(CollapseSpace(x)) + KeepValid(CollapseSpace(y))
  {
    CollapseAppend(x, y);
    KeepValidAppend(CollapseSpace(x), CollapseSpace(y));
  }

  /** Both sanitisers work piece by piece: a title cut anywhere but inside a
      whitespace run sanitises to the two pieces' names put together. */
  lemma SanitizeAppend(a: string, b: string)
    requires Joinable(a, b)
    ensures SanitizeFilename(a + b) == SanitizeFilename(a) + SanitizeFilename(b)
    ensures InlineSanitize(a + b) == InlineSanitize(a) + InlineSanitize(b)
  {
    FoldedAppend(a, b);
    LowerAppend(a, b);
    FoldedJoinable(a, b);
    Finish(Folded(a), Folded(b));
    Finish(Lower(a), Lower(b));
  }

  lemma {:induction false} LowerSpaces(w: string)
    requires AllSpace(w)
    ensures Lower(w) == w
    decreases |w|
  {
    if |w| > 0 {
      LowerSpaces(w[1..]);
    }
  }

  /** A whitespace run alone sanitises to a single `_`. */
  lemma SpaceRun(w: string)
    requires |w| > 0 && AllSpace(w)
    ensures SanitizeFilename(w) == "_" && InlineSanitize(w) == "_"
  {
    LowerSpaces(w);
    TranslitByChar(w);
    forall k | 0 <= k < |w| ensures Translit(w)[k] == w[k] {
      BaseFixes(w[k]);
    }
    assert Folded(w) == w;
    SkipSpaceIs(w, 0, |w|);
    assert w[|w|..] == [];
    assert CollapseSpace(w) == "_";
    assert KeepValid("_") == "_";
  }

  /** Each whitespace run becomes exactly one `_`, and nothing around it changes. */
  lemma OneUnderscorePerRun(a: string, w: string, b: string)
    requires |a| == 0 || !IsSpace(a[|a| - 1])
    requires |w| > 0 && AllSpace(w)
    requires |b| == 0 || !IsSpace(b[0])
    ensures SanitizeFilename(a + w + b) == SanitizeFilename(a) + "_" + SanitizeFilename(b)
    ensures InlineSanitize(a + w + b) == InlineSanitize(a) + "_" + InlineSanitize(b)
  {
    RunPieces(a, w, b);
    SpaceRun(w);
  }

  /** The three pieces around a whitespace run sanitise apart. */
  lemma RunPieces(a: string, w: string, b: string)
    requires |a| == 0 || !IsSpace(a[|a| - 1])
    requires |w| > 0 && AllSpace(w)
    requires |b| == 0 || !IsSpace(b[0])
    ensures SanitizeFilename(a + w + b) == SanitizeFilename(a) + SanitizeFilename(w) + SanitizeFilename(b)
    ensures InlineSanitize(a + w + b) == InlineSanitize(a) + InlineSanitize(w) + InlineSanitize(b)
  {
    var ab := a + w;
    assert ab[|ab| - 1] == w[|w| - 1];
    SanitizeAppend(a, w);
    SanitizeAppend(ab, b);
  }

  /** A single character whose lower-case form is the single character `v`. */
  lemma FoldOne(c: char, v: char)
    requires LowerChar(c) == [v]
    ensures Lower([c]) == [v] && Folded([c]) == [Base(v)]
  {
    assert Lower([c]) == [v] + "";
    TranslitByChar([v]);
  }

  /** A single character that is not whitespace goes through the last two steps
      alone, kept when valid. */
  lemma FinishOne(v: char)
    requires !IsSpace(v)
    ensures KeepValid(CollapseSpace([v])) == if IsValidChar(v) then [v] else ""
  {
    assert CollapseSpace([v]) == [v] + "";
    assert KeepValid([v]) == (if IsValidChar(v) then [v] else "") + "";
  }

  /** An accented vowel or `đ`, in either case, becomes its plain letter in
      the web application's name and disappears from the command-line tool's. */
  lemma AccentedLetter(c: char, v: char)
    requires LowerChar(c) == [v] && InAnyClass(v)
    ensures 'a' <= Base(v) <= 'y' && SanitizeFilename([c]) == [Base(v)]
    ensures InlineSanitize([c]) == ""
  {
    FoldOne(c, v);
    AccentedBase(v);
  }

  /** The lower-case accented letter `v` is dropped by the last two steps, its
      base letter kept. */
  lemma AccentedBase(v: char)
    requires InAnyClass(v)
    ensures 'a' <= Base(v) <= 'y'
    ensures KeepValid(CollapseSpace([Base(v)])) == [Base(v)] && KeepValid(CollapseSpace([v])) == ""
  {
    BaseRange(v);
    AccentedDropped(v);
    LetterKept(Base(v));
  }

  /** A small ASCII letter on its own survives the last two steps. */
  lemma LetterKept(l: char)
    requires 'a' <= l <= 'z'
    ensures KeepValid(CollapseSpace([l])) == [l]
  {
    assert !IsSpace(l) && IsValidChar(l);
    FinishOne(l);
  }

  /** The base letter of an accented vowel or `đ` is a small ASCII letter. */
  lemma BaseRange(v: char)
    requires InAnyClass(v)
    ensures 'a' <= Base(v) <= 'y'
  {
    BaseFixes(v);
    ClassRange(v);
  }

  /** An accented vowel or `đ` on its own is not a valid filename character. */
  lemma AccentedDropped(v: char)
    requires InAnyClass(v)
    ensures KeepValid(CollapseSpace([v])) == ""
  {
    ClassRange(v);
    HighDropped(v);
  }

  /** A character in the accented ranges is neither whitespace nor valid, so it
      is dropped. */
  lemma HighDropped(v: char)
    requires '\U{E0}' <= v <= '\U{1B0}' || '\U{1EA1}' <= v <= '\U{1EF9}'
    ensures KeepValid(CollapseSpace([v])) == ""
  {
    assert !IsSpace(v) && !IsValidChar(v);
    FinishOne(v);
  }

  /** An ASCII capital becomes its small letter in both names. */
  lemma CapitalLetter(c: char)
    requires IsUpperAscii(c)
    ensures SanitizeFilename([c]) == [(c as int + 32) as char]
    ensures InlineSanitize([c]) == [(c as int + 32) as char]
  {
    var l := (c as int + 32) as char;
    assert Lower([c]) == [l] + "";
    TranslitByChar([l]);
    BaseFixes(l);
    assert Folded([c]) == [l];
    assert CollapseSpace([l]) == [l] + "";
  }

  /** On an ASCII title the two sanitisers agree: they differ only on accented letters. */
  lemma AsciiAgree(s: string)
    requires forall k :: 0 <= k < |s| ==> s[k] as int < 128
    ensures InlineSanitize(s) == SanitizeFilename(s)
  {
    AsciiLower(s);
    TranslitByChar(Lower(s));
    forall k | 0 <= k < |Lower(s)| ensures Translit(Lower(s))[k] == Lower(s)[k] {
      BaseFixes(Lower(s)[k]);
    }
    assert Folded(s) == Lower(s);
  }

  lemma {:induction false} AsciiLower(s: string)
    requires forall k :: 0 <= k < |s| ==> s[k] as int < 128
    ensures forall k :: 0 <= k < |Lower(s)| ==> Lower(s)[k] as int < 128
    decreases |s|
  {
    if |s| > 0 {
      AsciiLower(s[1..]);
    }
  }
}
