/**
 The second pattern of the parser, `^(?P<key>[A-D])\.\s*(?P<value>.*)$` with
 MULTILINE only (so case-sensitive, and `.` stops at a line break), run with
 `finditer` over the options group, and the dict comprehension that maps each
 key to its stripped value. A key that occurs twice keeps its last value.
 */
module Options {
  import opened Wrappers
  import opened Text

  /** One match of the option pattern: the key letter and the stripped value. */
  datatype Entry = Entry(key: char, value: string)

  /** The keys the option pattern accepts: upper-case `A` to `D` only. */
  predicate IsOptionKey(c: char) {
    'A' <= c <= 'D'
  }

  predicate NoNewline(s: string) {
    forall k :: 0 <= k < |s| ==> s[k] != '\n'
  }

  /** Where `.*` without DOTALL stops: the next line break at or after `j`, or the end. */
  function LineEnd(s: string, j: nat): (r: nat)
    requires j <= |s|
    ensures j <= r <= |s|
    ensures forall k :: j <= k < r ==> s[k] != '\n'
    ensures r == |s| || s[r] == '\n'
    decreases |s| - j
  {
    if j == |s| || s[j] == '\n' then j else LineEnd(s, j + 1)
  }

  /** The option pattern tried at the start of `s` (which must be the start of
      a line for `^` to hold): the entry it yields and the length of the match.
      The `\s*` after the period is greedy and may run over line breaks. */
  function OptionHere(s: string): (r: Option<(Entry, nat)>)
    ensures r.Some? ==> 2 <= |s| && s[0] == r.value.0.key && s[1] == '.' && IsOptionKey(r.value.0.key)
    ensures r.Some? ==> 2 <= r.value.1 <= |s|
  {
    if 2 <= |s| && IsOptionKey(s[0]) && s[1] == '.' then
      var j := SkipSpace(s, 2);
      var m := LineEnd(s, j);
      Some((Entry(s[0], Strip(s[j..m])), m))
    else None
  }

  /** The value an option match yields is stripped and lies on one line. */
  lemma OptionHereValue(s: string)
    requires OptionHere(s).Some?
    ensures IsTrimmed(OptionHere(s).value.0.value) && NoNewline(OptionHere(s).value.0.value)
  {
    var j := SkipSpace(s, 2);
    StripChars(s[j..LineEnd(s, j)]);
  }

  /** `option_regex.finditer(s)`: every position is tried in turn, `^` holds
      where `lineStart` says so (at the start of the group or after a line
      break), and the next search starts where the previous match ended. */
  function Scan(s: string, lineStart: bool): (r: seq<Entry>)
    ensures forall k :: 0 <= k < |r| ==> IsOptionKey(r[k].key) && IsTrimmed(r[k].value) && NoNewline(r[k].value)
    decreases |s|
  {
    if |s| == 0 then []
    else if lineStart && OptionHere(s).Some? then
      var em := OptionHere(s).value;
      OptionHereValue(s);
      [em.0] + Scan(s[em.1..], s[em.1 - 1] == '\n')
    else Scan(s[1..], s[0] == '\n')
  }

  /** The dict comprehension: entries are inserted in order, so a later entry
      for the same key replaces an earlier one. */
  function BuildMap(es: seq<Entry>): (m: map<char, string>)
    ensures forall c :: c in m ==> exists k :: 0 <= k < |es| && es[k].key == c
    decreases |es|
  {
    if |es| == 0 then map[]
    else
      var last := es[|es| - 1];
      var m := BuildMap(es[..|es| - 1]);
      assert forall k :: 0 <= k < |es| - 1 ==> es[..|es| - 1][k] == es[k];
      m[last.key := last.value]
  }

  /** The options dict of an options group. */
  function OptionsDict(s: string): (m: map<char, string>)
    ensures forall c :: c in m ==> IsOptionKey(c) && IsTrimmed(m[c]) && NoNewline(m[c])
  {
    var es := Scan(s, true);
    BuildMapValues(es);
    BuildMap(es)
  }

  /** Every value in the dict comes from an entry with that key. */
  lemma {:induction false} BuildMapValues(es: seq<Entry>)
    ensures forall c :: c in BuildMap(es) ==> exists k :: 0 <= k < |es| && es[k].key == c && es[k].value == BuildMap(es)[c]
    decreases |es|
  {
    if |es| > 0 {
      var init := es[..|es| - 1];
      BuildMapValues(init);
      forall c | c in BuildMap(es)
        ensures exists k :: 0 <= k < |es| && es[k].key == c && es[k].value == BuildMap(es)[c]
      {
        if c != es[|es| - 1].key {
          var k :| 0 <= k < |init| && init[k].key == c && init[k].value == BuildMap(init)[c];
          assert es[k] == init[k];
        }
      }
    }
  }

  /** Every key of an entry is in the dict, and its value is the one of the last
      entry with that key. */
  lemma {:induction false} BuildMapLastWins(es: seq<Entry>, k: nat)
    requires k < |es|
    requires forall k' :: k < k' < |es| ==> es[k'].key != es[k].key
    ensures es[k].key in BuildMap(es) && BuildMap(es)[es[k].key] == es[k].value
    decreases |es|
  {
    if k < |es| - 1 {
      var init := es[..|es| - 1];
      assert init[k] == es[k];
      forall k' | k < k' < |init| ensures init[k'].key != init[k].key {
        assert init[k'] == es[k'];
      }
      BuildMapLastWins(init, k);
    }
  }


  // ---- Writing option lines and reading them back ----

  /** An entry that survives being written as a line: a key `A`-`D` and a
      non-empty, stripped, single-line value. */
  predicate WritableEntry(e: Entry) {
    IsOptionKey(e.key) && |e.value| > 0 && IsTrimmed(e.value) && NoNewline(e.value)
  }

  /** The option line `K. value` with its line break. */
  function OptionLine(e: Entry): string
  {
    [e.key] + ". " + e.value + "\n"
  }

  function OptionLines(es: seq<Entry>): string
    decreases |es|
  {
    if |es| == 0 then "" else OptionLine(es[0]) + OptionLines(es[1..])
  }

  /** The option pattern reads a written line back. */
  lemma OptionHereLine(e: Entry, rest: string)
    requires WritableEntry(e)
    ensures OptionHere(OptionLine(e) + rest) == Some((e, 3 + |e.value|))
  {
    var v := e.value;
    var s := OptionLine(e) + rest;
    assert s[0] == e.key && s[1] == '.' && s[2] == ' ';
    assert s[3..3 + |v|] == v;
    assert s[3 + |v|] == '\n';
    SkipSpaceIs(s, 2, 3);
    LineEndIs(s, 3, 3 + |v|);
    StripTrimmed(v);
  }

  /** Reading written option lines gives back the entries, in order. */
  lemma {:induction false} ScanOptionLines(es: seq<Entry>)
    requires forall k :: 0 <= k < |es| ==> WritableEntry(es[k])
    ensures Scan(OptionLines(es), true) == es
    decreases |es|
  {
    if |es| > 0 {
      var rest := OptionLines(es[1..]);
      assert OptionLines(es) == OptionLine(es[0]) + rest;
      ScanLine(es[0], rest);
      ScanOptionLines(es[1..]);
      assert es == [es[0]] + es[1..];
    }
  }

  /** Scanning a written line reads its entry and goes on at the next line. */
  lemma ScanLine(e: Entry, rest: string)
    requires WritableEntry(e)
    ensures Scan(OptionLine(e) + rest, true) == [e] + Scan(rest, true)
  {
    var v := e.value;
    var s := OptionLine(e) + rest;
    OptionHereLine(e, rest);
    assert s[3 + |v|..] == "\n" + rest;
    assert s[2 + |v|] == v[|v| - 1] != '\n';
    assert Scan(s, true) == [e] + Scan("\n" + rest, false);
    ScanBreak(rest);
  }

  /** A line break is skipped, and the next line starts after it. */
  lemma ScanBreak(rest: string)
    ensures Scan("\n" + rest, false) == Scan(rest, true)
  {
    assert ("\n" + rest)[1..] == rest;
  }

  /** Written option lines start with the first key and a period and end with a line break. */
  lemma {:induction false} OptionLinesShape(es: seq<Entry>)
    requires |es| > 0 && forall k :: 0 <= k < |es| ==> WritableEntry(es[k])
    ensures |OptionLines(es)| >= 4 && OptionLines(es)[0] == es[0].key && OptionLines(es)[1] == '.'
    ensures OptionLines(es)[|OptionLines(es)| - 1] == '\n'
    decreases |es|
  {
    var rest := OptionLines(es[1..]);
    assert OptionLines(es) == OptionLine(es[0]) + rest;
    if |es| > 1 {
      OptionLinesShape(es[1..]);
    }
  }

  lemma {:induction false} LineEndIs(s: string, j: nat, m: nat)
    requires j <= m <= |s|
    requires forall k :: j <= k < m ==> s[k] != '\n'
    requires m == |s| || s[m] == '\n'
    ensures LineEnd(s, j) == m
    decreases m - j
  {
    if j < m {
      LineEndIs(s, j + 1, m);
    }
  }
}
