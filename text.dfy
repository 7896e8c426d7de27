/** Character-sequence operations with the meaning of the Python string
    methods the icon builder relies on: `lower`, `split`, `join`,
    `replace` of one character, the substring test `in`, the decimal
    formatting of a non-negative integer, and the last occurrence of a
    character, where `os.path.split` and `rsplit(".", 1)` cut. */
module Text {

  /** `str.lower()` on one character, for the ASCII letters. */
  function LowerChar(c: char): char
  {
    if 'A' <= c <= 'Z' then (c as int + 32) as char else c
  }

  function Lower(s: string): string
  {
    seq(|s|, i requires 0 <= i < |s| => LowerChar(s[i]))
  }

  /** `s.replace(from, to)` for single characters. */
  function Replace(s: string, from: char, to: char): (r: string)
    ensures |r| == |s|
    ensures from != to ==> from !in r
  {
    seq(|s|, i requires 0 <= i < |s| => if s[i] == from then to else s[i])
  }

  lemma ReplaceAppend(a: string, b: string, from: char, to: char)
    ensures Replace(a + b, from, to) == Replace(a, from, to) + Replace(b, from, to)
  {
    assert forall i :: 0 <= i < |a| + |b| ==>
      Replace(a + b, from, to)[i] == (Replace(a, from, to) + Replace(b, from, to))[i];
  }

  /** `s.split(sep)`: the maximal runs between occurrences of `sep`; never empty. */
  function Split(s: string, sep: char): (parts: seq<string>)
    ensures |parts| >= 1
    decreases |s|
  {
    if s == [] then [""]
    else
      var init := Split(s[..|s| - 1], sep);
      if s[|s| - 1] == sep then init + [""]
      else init[..|init| - 1] + [init[|init| - 1] + [s[|s| - 1]]]
  }

  function Last<T>(xs: seq<T>): T
    requires xs != []
  {
    xs[|xs| - 1]
  }

  /** `sep.join(parts)`. */
  function Join(parts: seq<string>, sep: char): string
  {
    if |parts| == 0 then ""
    else if |parts| == 1 then parts[0]
    else Join(parts[..|parts| - 1], sep) + [sep] + parts[|parts| - 1]
  }

  /** The last index holding `c`, or -1: where `os.path.split` (for `/`)
      and `rsplit(".", 1)` (for `.`) cut. */
  function LastIndexOf(s: string, c: char): (k: int)
    ensures -1 <= k < |s|
    ensures k == -1 ==> c !in s
    ensures 0 <= k ==> s[k] == c
  {
    if s == [] then -1
    else if s[|s| - 1] == c then |s| - 1
    else LastIndexOf(s[..|s| - 1], c)
  }

  /** No `c` follows the index `LastIndexOf` returns. */
  lemma {:induction false} NoneAfterLastIndex(s: string, c: char)
    ensures forall i :: LastIndexOf(s, c) < i < |s| ==> s[i] != c
    decreases |s|
  {
    if s != [] && s[|s| - 1] != c {
      NoneAfterLastIndex(s[..|s| - 1], c);
    }
  }

  /** The text after the last `c` (all of `s` when there is none). */
  function AfterLast(s: string, c: char): string
  {
    s[LastIndexOf(s, c) + 1..]
  }

  /** `s.rsplit(c, 1)[0]`: the text before the last `c` (all of `s` when there is none). */
  function BeforeLast(s: string, c: char): string
  {
    var k := LastIndexOf(s, c);
    if k < 0 then s else s[..k]
  }

  lemma {:induction false} SplitWithoutSeparator(s: string, sep: char)
    requires sep !in s
    ensures Split(s, sep) == [s]
    decreases |s|
  {
    if s != [] {
      SplitWithoutSeparator(s[..|s| - 1], sep);
      assert s[..|s| - 1] + [s[|s| - 1]] == s;
    }
  }

  /** Splitting text that ends with `sep` followed by a separator-free tail. */
  lemma {:induction false} SplitAfterSeparator(s: string, sep: char, tail: string)
    requires sep !in tail
    ensures Split(s + [sep] + tail, sep) == Split(s, sep) + [tail]
    decreases |tail|
  {
    if tail == [] {
      assert s + [sep] + tail == s + [sep];
      assert (s + [sep])[..|s|] == s;
    } else {
      var u := s + [sep] + tail;
      var t0 := tail[..|tail| - 1];
      assert u[..|u| - 1] == s + [sep] + t0;
      SplitAfterSeparator(s, sep, t0);
      assert t0 + [tail[|tail| - 1]] == tail;
    }
  }

  /** The last part of `s.split(sep)` is what follows the last separator. */
  lemma LastPartIsAfterLast(s: string, sep: char)
    ensures Last(Split(s, sep)) == AfterLast(s, sep)
  {
    var k := LastIndexOf(s, sep);
    if k < 0 {
      SplitWithoutSeparator(s, sep);
      assert s[0..] == s;
    } else {
      var tail := s[k + 1..];
      NoneAfterLastIndex(s, sep);
      assert sep !in tail by {
        assert forall i :: 0 <= i < |tail| ==> tail[i] == s[k + 1 + i];
      }
      assert s == s[..k] + [sep] + tail;
      SplitAfterSeparator(s[..k], sep, tail);
    }
  }

  /** Joining the parts of a split with `d` replaces every separator by `d`;
      with `d == sep` this is the round trip `sep.join(s.split(sep)) == s`. */
  lemma {:induction false} JoinSplit(s: string, sep: char, d: char)
    ensures Join(Split(s, sep), d) == Replace(s, sep, d)
    decreases |s|
  {
    if s != [] {
      var init := s[..|s| - 1];
      var x := s[|s| - 1];
      var p := Split(init, sep);
      JoinSplit(init, sep, d);
      ReplaceAppend(init, [x], sep, d);
      assert init + [x] == s;
      if x == sep {
        assert Split(s, sep) == p + [""];
        assert Replace([x], sep, d) == [d];
        JoinEmptyLast(p, d);
      } else {
        assert Split(s, sep) == p[..|p| - 1] + [p[|p| - 1] + [x]];
        assert Replace([x], sep, d) == [x];
        JoinExtendLast(p, d, x);
      }
    }
  }

  lemma JoinEmptyLast(parts: seq<string>, d: char)
    requires parts != []
    ensures Join(parts + [""], d) == Join(parts, d) + [d]
  {
    assert (parts + [""])[..|parts|] == parts;
  }

  lemma JoinExtendLast(parts: seq<string>, d: char, x: char)
    requires parts != []
    ensures Join(parts[..|parts| - 1] + [parts[|parts| - 1] + [x]], d) == Join(parts, d) + [x]
  {
    var q := parts[..|parts| - 1] + [parts[|parts| - 1] + [x]];
    if |parts| > 1 {
      assert q[..|q| - 1] == parts[..|parts| - 1];
    }
  }

  /** Python's `pat in text`, scanning from the left. */
  function Contains(text: string, pat: string): bool
    decreases |text|
  {
    pat <= text || (text != [] && Contains(text[1..], pat))
  }

  ghost predicate OccursAt(text: string, pat: string, i: int)
  {
    0 <= i && i + |pat| <= |text| && text[i..i + |pat|] == pat
  }

  /** The scan finds `pat` exactly when it occurs at some position. */
  lemma ContainsIff(text: string, pat: string)
    ensures Contains(text, pat) <==> exists i :: OccursAt(text, pat, i)
  {
    if Contains(text, pat) {
      var i := FoundAt(text, pat);
      assert OccursAt(text, pat, i);
    }
    if i :| OccursAt(text, pat, i) {
      OccurrenceFound(text, pat, i);
    }
  }

  /** Where the scan finds `pat`. */
  lemma {:induction false} FoundAt(text: string, pat: string) returns (i: int)
    requires Contains(text, pat)
    ensures OccursAt(text, pat, i)
    decreases |text|
  {
    if pat <= text {
      i := 0;
    } else {
      var j := FoundAt(text[1..], pat);
      assert text[j + 1..j + 1 + |pat|] == text[1..][j..j + |pat|];
      i := j + 1;
    }
  }

  /** An occurrence at position `i` is found by the scan. */
  lemma {:induction false} OccurrenceFound(text: string, pat: string, i: int)
    requires OccursAt(text, pat, i)
    ensures Contains(text, pat)
    decreases i
  {
    if i > 0 {
      assert text[1..][i - 1..i - 1 + |pat|] == text[i..i + |pat|];
      OccurrenceFound(text[1..], pat, i - 1);
    } else {
      assert pat <= text;
    }
  }

  predicate IsDigit(c: char)
  {
    '0' <= c <= '9'
  }

  function Digit(d: nat): (c: char)
    requires d < 10
    ensures IsDigit(c) && c as int - '0' as int == d
  {
    ('0' as int + d) as char
  }

  /** `str(n)` for a non-negative integer: its decimal digits, no sign, no
      leading zero. */
  function NatToString(n: nat): (s: string)
    ensures |s| >= 1
    ensures forall i :: 0 <= i < |s| ==> IsDigit(s[i])
    ensures |s| > 1 ==> s[0] != '0'
  {
    if n < 10 then [Digit(n)] else NatToString(n / 10) + [Digit(n % 10)]
  }

  /** The number a string of decimal digits denotes. */
  function DigitsValue(s: string): nat
    requires forall i :: 0 <= i < |s| ==> IsDigit(s[i])
  {
    if s == [] then 0
    else
      assert IsDigit(s[|s| - 1]);
      DigitsValue(s[..|s| - 1]) * 10 + (s[|s| - 1] as int - '0' as int)
  }

  lemma {:induction false} NatToStringRoundTrip(n: nat)
    ensures DigitsValue(NatToString(n)) == n
  {
    if n >= 10 {
      NatToStringRoundTrip(n / 10);
      var s := NatToString(n);
      assert s[..|s| - 1] == NatToString(n / 10);
    }
  }

  lemma NatToStringInjective(m: nat, n: nat)
    requires NatToString(m) == NatToString(n)
    ensures m == n
  {
    NatToStringRoundTrip(m);
    NatToStringRoundTrip(n);
  }

  /** Each element followed by a newline, in order: the text a sequence of
      `write(line + "\n")` calls produces. */
  function Lines(ls: seq<string>): string
  {
    if ls == [] then "" else Lines(ls[..|ls| - 1]) + ls[|ls| - 1] + "\n"
  }

  /** Text built by `Lines` splits back into exactly the lines written, in
      order, when none of them holds a newline. */
  lemma {:induction false} SplitLines(ls: seq<string>, tail: string)
    requires forall i :: 0 <= i < |ls| ==> '\n' !in ls[i]
    requires '\n' !in tail
    ensures Split(Lines(ls) + tail, '\n') == ls + [tail]
    decreases |ls|
  {
    if ls == [] {
      assert Lines(ls) + tail == tail;
      SplitWithoutSeparator(tail, '\n');
    } else {
      var init := ls[..|ls| - 1];
      var l := ls[|ls| - 1];
      SplitLines(init, l);
      assert Lines(ls) + tail == (Lines(init) + l) + ['\n'] + tail;
      SplitAfterSeparator(Lines(init) + l, '\n', tail);
      assert init + [l] == ls;
    }
  }

  /** Two runs of lines without a newline inside make one. */
  lemma NoNewlineInside(a: seq<string>, b: seq<string>)
    requires forall i :: 0 <= i < |a| ==> '\n' !in a[i]
    requires forall i :: 0 <= i < |b| ==> '\n' !in b[i]
    ensures forall i :: 0 <= i < |a + b| ==> '\n' !in (a + b)[i]
  {
    forall i | 0 <= i < |a + b|
      ensures '\n' !in (a + b)[i]
    {
      if i < |a| {
        assert (a + b)[i] == a[i];
      } else {
        assert (a + b)[i] == b[i - |a|];
      }
    }
  }

  /** Writing one more line after the first `k` lines of `ls` (following
      any text `start`) gives the first `k + 1` lines. */
  lemma LinesOfPrefix(start: string, ls: seq<string>, k: nat)
    requires k < |ls|
    ensures start + Lines(ls[..k]) + ls[k] + "\n" == start + Lines(ls[..k + 1])
  {
    assert ls[..k + 1][..k] == ls[..k];
    assert Lines(ls[..k + 1]) == Lines(ls[..k]) + ls[k] + "\n";
  }

  lemma {:induction false} LinesAppend(a: seq<string>, b: seq<string>)
    ensures Lines(a + b) == Lines(a) + Lines(b)
    decreases |b|
  {
    if b == [] {
      assert a + b == a;
    } else {
      var b0 := b[..|b| - 1];
      var l := b[|b| - 1];
      LinesAppend(a, b0);
      assert (a + b)[..|a + b| - 1] == a + b0;
      assert (a + b)[|a + b| - 1] == l;
      calc {
        Lines(a + b);
        Lines(a + b0) + l + "\n";
        Lines(a) + Lines(b0) + l + "\n";
        Lines(a) + (Lines(b0) + l + "\n");
        Lines(a) + Lines(b);
      }
    }
  }

  /** Replacing never introduces a character other than `to`. */
  lemma ReplaceKeepsAbsent(s: string, from: char, to: char, c: char)
    requires c !in s && c != to
    ensures c !in Replace(s, from, to)
  {
  }

  lemma {:induction false} LastIndexOfAfterSeparator(s: string, c: char, tail: string)
    requires c !in tail
    ensures LastIndexOf(s + [c] + tail, c) == |s|
    decreases |tail|
  {
    var u := s + [c] + tail;
    if tail != [] {
      var t0 := tail[..|tail| - 1];
      assert u[..|u| - 1] == s + [c] + t0;
      LastIndexOfAfterSeparator(s, c, t0);
    }
  }

  /** The parts of a split hold only characters of the text split. */
  lemma {:induction false} SplitKeepsAbsent(s: string, sep: char, c: char)
    requires c !in s
    ensures forall k :: 0 <= k < |Split(s, sep)| ==> c !in Split(s, sep)[k]
    decreases |s|
  {
    if s != [] {
      var init := s[..|s| - 1];
      assert forall i :: 0 <= i < |init| ==> init[i] == s[i];
      SplitKeepsAbsent(init, sep, c);
    }
  }

  /** A join holds only characters of its parts and the separator. */
  lemma {:induction false} JoinKeepsAbsent(parts: seq<string>, sep: char, c: char)
    requires c != sep
    requires forall k :: 0 <= k < |parts| ==> c !in parts[k]
    ensures c !in Join(parts, sep)
    decreases |parts|
  {
    if |parts| > 1 {
      JoinKeepsAbsent(parts[..|parts| - 1], sep, c);
    }
  }
}
