/**
 Character classes and string helpers shared by the parser and the filename
 sanitiser: Python's whitespace class, `str.strip()`, the greedy `\s*` and
 `\d+` runs of a regular expression, and the decimal reading done by `int()`.
 */
module Text {
  import opened Wrappers

  /** The characters for which Python's `str.isspace()` holds. The same set is
      matched by `\s` in a `str` pattern and removed by `str.strip()`. */
  predicate IsSpace(c: char) {
    || ('\t' <= c <= '\r')
    || ('\U{1C}' <= c <= ' ')
    || c == '\U{85}' || c == '\U{A0}' || c == '\U{1680}'
    || ('\U{2000}' <= c <= '\U{200A}')
    || c == '\U{2028}' || c == '\U{2029}' || c == '\U{202F}' || c == '\U{205F}' || c == '\U{3000}'
  }

  /** The ASCII digits; the model reads `\d` and `int()` over these only. */
  predicate IsDigit(c: char) {
    '0' <= c <= '9'
  }

  predicate AllSpace(s: string) {
    forall i :: 0 <= i < |s| ==> IsSpace(s[i])
  }

  predicate AllDigits(s: string) {
    forall i :: 0 <= i < |s| ==> IsDigit(s[i])
  }

  /** True when the string neither begins nor ends with whitespace. */
  predicate IsTrimmed(s: string) {
    |s| == 0 || (!IsSpace(s[0]) && !IsSpace(s[|s| - 1]))
  }

  predicate StartsWith(s: string, prefix: string) {
    |prefix| <= |s| && s[..|prefix|] == prefix
  }

  /** The two-asterisk token `\*\*` at position `i`. */
  predicate StarsAt(s: string, i: nat) {
    i + 2 <= |s| && s[i] == '*' && s[i + 1] == '*'
  }

  function Concat(ss: seq<string>): string
  {
    if |ss| == 0 then "" else ss[0] + Concat(ss[1..])
  }

  /** Where a greedy `\s*` that starts at `i` stops: the end of the longest
      whitespace run beginning there. */
  function SkipSpace(s: string, i: nat): (j: nat)
    requires i <= |s|
    ensures i <= j <= |s|
    ensures forall k :: i <= k < j ==> IsSpace(s[k])
    ensures j == |s| || !IsSpace(s[j])
    decreases |s| - i
  {
    if i < |s| && IsSpace(s[i]) then SkipSpace(s, i + 1) else i
  }

  /** Where a greedy `\d*` that starts at `i` stops. */
  function SkipDigits(s: string, i: nat): (j: nat)
    requires i <= |s|
    ensures i <= j <= |s|
    ensures forall k :: i <= k < j ==> IsDigit(s[k])
    ensures j == |s| || !IsDigit(s[j])
    decreases |s| - i
  {
    if i < |s| && IsDigit(s[i]) then SkipDigits(s, i + 1) else i
  }

  /** The start of the whitespace run that ends at `j`, looking no further back than `lo`. */
  function SkipSpaceBack(s: string, lo: nat, j: nat): (i: nat)
    requires lo <= j <= |s|
    ensures lo <= i <= j
    ensures forall k :: i <= k < j ==> IsSpace(s[k])
    ensures i == lo || !IsSpace(s[i - 1])
    decreases j
  {
    if lo < j && IsSpace(s[j - 1]) then SkipSpaceBack(s, lo, j - 1) else j
  }

  /** Python's `str.strip()`: the string with its leading and trailing
      whitespace removed and nothing else changed. */
  function Strip(s: string): (r: string)
    ensures IsTrimmed(r)
    ensures |r| <= |s|
  {
    s[SkipSpace(s, 0)..SkipSpaceBack(s, SkipSpace(s, 0), |s|)]
  }

  /** `Strip` removes only whitespace, and only at the two ends. */
  lemma StripSlice(s: string) returns (a: nat)
    ensures a + |Strip(s)| <= |s| && Strip(s) == s[a..a + |Strip(s)|]
    ensures AllSpace(s[..a]) && AllSpace(s[a + |Strip(s)|..])
  {
    a := SkipSpace(s, 0);
    var b := SkipSpaceBack(s, a, |s|);
    assert AllSpace(s[..a]) && AllSpace(s[b..]);
  }

  /** `Strip` adds no character that was not in the text. */
  lemma StripChars(s: string)
    ensures forall c :: c in Strip(s) ==> c in s
  {
    var a := StripSlice(s);
    forall c | c in Strip(s) ensures c in s {
      var k :| 0 <= k < |Strip(s)| && Strip(s)[k] == c;
      assert s[a + k] == c;
    }
  }

  /** `Strip` is determined by its two properties: whatever the padding, the
      trimmed core comes back. */
  lemma StripPadded(left: string, core: string, right: string)
    requires AllSpace(left) && AllSpace(right) && IsTrimmed(core)
    ensures Strip(left + core + right) == core
  {
    var s := left + core + right;
    var a := SkipSpace(s, 0);
    var b := SkipSpaceBack(s, a, |s|);
    if |core| == 0 {
      assert AllSpace(s) by {
        forall k | 0 <= k < |s| ensures IsSpace(s[k]) {
          if k < |left| { assert s[k] == left[k]; } else { assert s[k] == right[k - |left|]; }
        }
      }
      assert a == |s|;
    } else {
      assert s[|left|] == core[0];
      assert s[|left| + |core| - 1] == core[|core| - 1];
      assert forall k :: 0 <= k < |left| ==> s[k] == left[k];
      assert a == |left|;
      assert forall k :: |left| + |core| <= k < |s| ==> s[k] == right[k - |left| - |core|];
      assert b == |left| + |core|;
      assert s[a..b] == core;
    }
  }

  lemma StripTrimmed(s: string)
    requires IsTrimmed(s)
    ensures Strip(s) == s
  {
    StripPadded("", s, "");
    assert "" + s + "" == s;
  }

  /** Stripping ignores whitespace that has already been skipped. */
  lemma StripAfterSpace(s: string, k: nat)
    requires k <= |s|
    requires AllSpace(s[..k])
    ensures Strip(s[k..]) == Strip(s)
  {
    var r := Strip(s);
    var a := StripSlice(s);
    if k <= a {
      StripDropLeft(s, k, a, r);
    } else {
      StripAllSpaceTail(s, k, a, r);
    }
  }

  /** Stripping a suffix ignores the whitespace run in front of it. */
  lemma SkipAndStrip(b: string, x: nat, x': nat)
    requires x <= x' <= |b| && AllSpace(b[x..x'])
    ensures Strip(b[x'..]) == Strip(b[x..])
  {
    var r := b[x..];
    assert r[..x' - x] == b[x..x'];
    assert r[x' - x..] == b[x'..];
    StripAfterSpace(r, x' - x);
  }

  lemma StripDropLeft(s: string, k: nat, a: nat, r: string)
    requires k <= a && a + |r| <= |s| && r == s[a..a + |r|] && IsTrimmed(r)
    requires AllSpace(s[..a]) && AllSpace(s[a + |r|..])
    ensures Strip(s[k..]) == r
  {
    assert AllSpace(s[k..a]) by {
      forall i | 0 <= i < a - k ensures IsSpace(s[k..a][i]) {
        assert s[k..a][i] == s[..a][k + i];
      }
    }
    assert s[k..] == s[k..a] + r + s[a + |r|..];
    StripPadded(s[k..a], r, s[a + |r|..]);
  }

  lemma StripAllSpaceTail(s: string, k: nat, a: nat, r: string)
    requires a < k <= |s| && a + |r| <= |s| && r == s[a..a + |r|] && IsTrimmed(r)
    requires AllSpace(s[..k]) && AllSpace(s[a + |r|..])
    ensures Strip(s[k..]) == r
  {
    assert AllSpace(s[k..]) by {
      forall i | 0 <= i < |s| - k ensures IsSpace(s[k..][i]) {
        assert s[k..][i] == s[a + |r|..][k + i - a];
      }
    }
    assert s[k..] == s[k..] + "" + "";
    StripPadded(s[k..], "", "");
  }

  /** The value of a run of decimal digits, as `int()` reads it (leading zeros allowed). */
  function DigitsValue(ds: string): nat
    requires AllDigits(ds)
    decreases |ds|
  {
    if |ds| == 0 then 0
    else 10 * DigitsValue(ds[..|ds| - 1]) + (ds[|ds| - 1] as int - '0' as int)
  }

  /** The decimal numeral of `n`, without leading zeros. */
  function ShowNat(n: nat): (r: string)
    ensures |r| > 0 && AllDigits(r)
    decreases n
  {
    var last := [(('0' as int) + n % 10) as char];
    if n < 10 then last else ShowNat(n / 10) + last
  }

  /** Reading back a rendered numeral gives the number. */
  lemma {:induction false} ShowNatValue(n: nat)
    ensures DigitsValue(ShowNat(n)) == n
    decreases n
  {
    var r := ShowNat(n);
    if n >= 10 {
      ShowNatValue(n / 10);
      assert r[..|r| - 1] == ShowNat(n / 10);
    }
  }

  lemma AllSpaceSlice(s: string, i: nat, j: nat)
    requires i <= j <= |s|
    requires forall k :: i <= k < j ==> IsSpace(s[k])
    ensures AllSpace(s[i..j])
  {
    assert forall k :: 0 <= k < j - i ==> s[i..j][k] == s[i + k];
  }

  lemma AllDigitsSlice(s: string, i: nat, j: nat)
    requires i <= j <= |s|
    requires forall k :: i <= k < j ==> IsDigit(s[k])
    ensures AllDigits(s[i..j])
  {
    assert forall k :: 0 <= k < j - i ==> s[i..j][k] == s[i + k];
  }

  // ---- How the greedy runs behave under concatenation and slicing ----

  /** `SkipSpace` is fixed by its contract. */
  lemma SkipSpaceIs(s: string, i: nat, j: nat)
    requires i <= j <= |s|
    requires forall k :: i <= k < j ==> IsSpace(s[k])
    requires j == |s| || !IsSpace(s[j])
    ensures SkipSpace(s, i) == j
  {
  }

  lemma SkipDigitsIs(s: string, i: nat, j: nat)
    requires i <= j <= |s|
    requires forall k :: i <= k < j ==> IsDigit(s[k])
    requires j == |s| || !IsDigit(s[j])
    ensures SkipDigits(s, i) == j
  {
  }

  lemma SkipSpaceShift(u: string, v: string, i: nat)
    requires i <= |v|
    ensures SkipSpace(u + v, |u| + i) == |u| + SkipSpace(v, i)
  {
    var j := SkipSpace(v, i);
    var t := u + v;
    forall k | |u| + i <= k < |u| + j ensures IsSpace(t[k]) {
      assert t[k] == v[k - |u|];
    }
    if j < |v| { assert t[|u| + j] == v[j]; }
    SkipSpaceIs(t, |u| + i, |u| + j);
  }

  lemma SkipDigitsShift(u: string, v: string, i: nat)
    requires i <= |v|
    ensures SkipDigits(u + v, |u| + i) == |u| + SkipDigits(v, i)
  {
    var j := SkipDigits(v, i);
    var t := u + v;
    forall k | |u| + i <= k < |u| + j ensures IsDigit(t[k]) {
      assert t[k] == v[k - |u|];
    }
    if j < |v| { assert t[|u| + j] == v[j]; }
    SkipDigitsIs(t, |u| + i, |u| + j);
  }

  /** A run that stops inside `u` is not affected by what follows `u`. */
  lemma SkipSpacePrefix(u: string, v: string, i: nat)
    requires i <= |u|
    requires SkipSpace(u, i) < |u|
    ensures SkipSpace(u + v, i) == SkipSpace(u, i)
  {
    var j := SkipSpace(u, i);
    var t := u + v;
    forall k | i <= k < j ensures IsSpace(t[k]) {
      assert t[k] == u[k];
    }
    assert t[j] == u[j];
    SkipSpaceIs(t, i, j);
  }

  lemma SkipDigitsPrefix(u: string, v: string, i: nat)
    requires i <= |u|
    requires SkipDigits(u, i) < |u|
    ensures SkipDigits(u + v, i) == SkipDigits(u, i)
  {
    var j := SkipDigits(u, i);
    var t := u + v;
    forall k | i <= k < j ensures IsDigit(t[k]) {
      assert t[k] == u[k];
    }
    assert t[j] == u[j];
    SkipDigitsIs(t, i, j);
  }

  // ---- Locating known pieces inside a text ----

  /** The text `u` occurs in `s` at position `i`. */
  predicate OccursAt(s: string, i: nat, u: string) {
    i + |u| <= |s| && forall k :: 0 <= k < |u| ==> s[i + k] == u[k]
  }

  lemma OccursSplit(s: string, i: nat, u: string, v: string)
    requires OccursAt(s, i, u + v)
    ensures OccursAt(s, i, u) && OccursAt(s, i + |u|, v)
  {
    assert forall k :: 0 <= k < |u| ==> (u + v)[k] == u[k];
    assert forall k :: 0 <= k < |v| ==> (u + v)[|u| + k] == v[k];
  }

  /** Each of five pieces written in a row from `i1` occurs at `i1`, ..., `i5`,
      where the ones before it end. */
  lemma OccursFive(s: string, i1: nat, i2: nat, i3: nat, i4: nat, i5: nat,
                   u1: string, u2: string, u3: string, u4: string, u5: string)
    requires OccursAt(s, i1, u1 + u2 + u3 + u4 + u5)
    requires i2 == i1 + |u1| && i3 == i2 + |u2| && i4 == i3 + |u3| && i5 == i4 + |u4|
    ensures OccursAt(s, i1, u1) && OccursAt(s, i2, u2) && OccursAt(s, i3, u3)
    ensures OccursAt(s, i4, u4) && OccursAt(s, i5, u5)
  {
    OccursSplit(s, i1, u1 + u2 + u3 + u4, u5);
    OccursSplit(s, i1, u1 + u2 + u3, u4);
    OccursSplit(s, i1, u1 + u2, u3);
    OccursSplit(s, i1, u1, u2);
  }

  /** The two halves of a text occur at `i` and at `j`, where the first ends. */
  lemma OccursSplitAt(s: string, i: nat, j: nat, u: string, v: string)
    requires OccursAt(s, i, u + v) && j == i + |u|
    ensures OccursAt(s, i, u) && OccursAt(s, j, v)
  {
    OccursSplit(s, i, u, v);
  }

  lemma OccursChar(s: string, i: nat, u: string, k: nat)
    requires OccursAt(s, i, u) && k < |u|
    ensures s[i + k] == u[k]
  {
  }

  lemma OccursSlice(s: string, i: nat, u: string)
    requires OccursAt(s, i, u)
    ensures s[i..i + |u|] == u
  {
  }

  lemma OccursWhole(p: string, u: string, w: string)
    ensures OccursAt(p + u + w, |p|, u)
  {
    assert forall k :: 0 <= k < |u| ==> (p + u + w)[|p| + k] == u[k];
  }

  // ---- Leftmost and rightmost positions ----

  /** The first position from `from` on, below `n`, where `p` holds: how a
      lazy group settles and where a leftmost search finds its match. */
  function FirstWhere(p: nat -> bool, from: nat, n: nat): (r: Option<nat>)
    ensures r.Some? ==> from <= r.value < n && p(r.value)
    ensures r.Some? ==> forall k: nat :: from <= k < r.value ==> !p(k)
    ensures r.None? ==> forall k: nat :: from <= k < n ==> !p(k)
    decreases n - from
  {
    if from >= n then None
    else if p(from) then Some(from)
    else FirstWhere(p, from + 1, n)
  }

  /** Any position where `p` holds bounds the first one. */
  lemma {:induction false} FirstWhereFinds(p: nat -> bool, from: nat, n: nat, s: nat)
    requires from <= s < n && p(s)
    ensures FirstWhere(p, from, n).Some? && FirstWhere(p, from, n).value <= s
    decreases n - from
  {
    if !p(from) {
      FirstWhereFinds(p, from + 1, n, s);
    }
  }

  /** A position where `p` holds with none before it is the first one. */
  lemma FirstWhereIs(p: nat -> bool, from: nat, n: nat, s: nat)
    requires from <= s < n && p(s)
    requires forall k: nat :: from <= k < s ==> !p(k)
    ensures FirstWhere(p, from, n) == Some(s)
  {
    FirstWhereFinds(p, from, n, s);
  }

  /** The last position from `hi` down to `lo` where `p` holds: how a greedy
      group settles. */
  function LastWhere(p: nat -> bool, lo: nat, hi: nat): (r: Option<nat>)
    ensures r.Some? ==> lo <= r.value <= hi && p(r.value)
    ensures r.Some? ==> forall k: nat :: r.value < k <= hi ==> !p(k)
    decreases hi
  {
    if hi < lo then None
    else if p(hi) then Some(hi)
    else if hi == lo then None
    else LastWhere(p, lo, hi - 1)
  }

  /** Any position where `p` holds bounds the last one from below. */
  lemma {:induction false} LastWhereFinds(p: nat -> bool, lo: nat, hi: nat, t: nat)
    requires lo <= t <= hi && p(t)
    ensures LastWhere(p, lo, hi).Some? && t <= LastWhere(p, lo, hi).value
    decreases hi
  {
    if !p(hi) {
      LastWhereFinds(p, lo, hi - 1, t);
    }
  }
}
