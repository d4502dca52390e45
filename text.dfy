/** String operations the validators use, with the meaning Python gives them:
    prefix/suffix/substring tests, `str.split`, `str.strip`, `str.lower` (ASCII
    letters only), `str.join`, decimal rendering of naturals and the ordering
    `sorted` uses on strings. */
module Text {

  predicate StartsWith(s: string, p: string) {
    |p| <= |s| && s[..|p|] == p
  }

  predicate EndsWith(s: string, p: string) {
    |p| <= |s| && s[|s| - |p|..] == p
  }

  /** `p in s` for strings: some window of `s` equals `p`. */
  predicate Contains(s: string, p: string)
    decreases |s|
  {
    StartsWith(s, p) || (|s| > 0 && Contains(s[1..], p))
  }

  /** Occurrence of `p` at position `i` of `s`. */
  predicate OccursAt(s: string, p: string, i: int) {
    0 <= i && i + |p| <= |s| && s[i..i + |p|] == p
  }

  lemma {:induction false} OccursImpliesContains(s: string, p: string, i: int)
    requires OccursAt(s, p, i)
    ensures Contains(s, p)
    decreases i
  {
    if i == 0 {
      assert s[..|p|] == p;
    } else {
      assert s[1..][i - 1..i - 1 + |p|] == s[i..i + |p|];
      OccursImpliesContains(s[1..], p, i - 1);
    }
  }

  lemma {:induction false} ContainsImpliesOccurs(s: string, p: string)
    requires Contains(s, p)
    ensures exists i :: OccursAt(s, p, i)
    decreases |s|
  {
    if StartsWith(s, p) {
      assert OccursAt(s, p, 0);
    } else {
      ContainsImpliesOccurs(s[1..], p);
      var i :| OccursAt(s[1..], p, i);
      assert s[1..][i..i + |p|] == s[i + 1..i + 1 + |p|];
      assert OccursAt(s, p, i + 1);
    }
  }

  /** A string with a character that `s` lacks never occurs in `s`. */
  lemma AbsentCharNotContained(s: string, p: string, k: nat)
    requires k < |p| && p[k] !in s
    ensures !Contains(s, p)
  {
    forall i | 0 <= i && i + |p| <= |s| ensures !OccursAt(s, p, i) {
      assert s[i..i + |p|][k] == s[i + k];
    }
    if Contains(s, p) {
      ContainsImpliesOccurs(s, p);
    }
  }

  /** A string longer than `s` never occurs in it. */
  lemma {:induction false} NotContainsLonger(s: string, p: string)
    requires |s| < |p|
    ensures !Contains(s, p)
    decreases |s|
  {
    if |s| > 0 {
      NotContainsLonger(s[1..], p);
    }
  }

  /** Number of occurrences of the character `c` in `s`. */
  function CountChar(s: string, c: char): nat {
    if s == [] then 0 else (if s[0] == c then 1 else 0) + CountChar(s[1..], c)
  }

  /** First index at or after `from` holding `c`, or `|s|` when there is none. */
  function IndexOf(s: string, c: char, from: nat): (k: nat)
    requires from <= |s|
    ensures from <= k <= |s|
    ensures k < |s| ==> s[k] == c
    ensures forall j :: from <= j < k ==> s[j] != c
    decreases |s| - from
  {
    if from == |s| then |s| else if s[from] == c then from else IndexOf(s, c, from + 1)
  }

  /** `s.split(c)` for a one-character separator: every occurrence splits. */
  function Split(s: string, c: char): (parts: seq<string>)
    ensures |parts| == CountChar(s, c) + 1
    decreases |s|
  {
    var k := IndexOf(s, c, 0);
    if k == |s| then
      NoOccurrenceCountsZero(s, c);
      [s]
    else
      CountCharSplitAt(s, c, k);
      [s[..k]] + Split(s[k + 1..], c)
  }

  lemma NoOccurrenceCountsZero(s: string, c: char)
    requires forall j :: 0 <= j < |s| ==> s[j] != c
    ensures CountChar(s, c) == 0
  {
    if s != [] {
      NoOccurrenceCountsZero(s[1..], c);
    }
  }

  lemma {:induction false} CharCounted(s: string, c: char)
    requires c in s
    ensures CountChar(s, c) > 0
  {
    if s[0] != c {
      assert c in s[1..];
      CharCounted(s[1..], c);
    }
  }

  /** A character counted zero times occurs nowhere. */
  lemma {:induction false} UncountedAbsent(s: string, c: char)
    requires CountChar(s, c) == 0
    ensures forall j :: 0 <= j < |s| ==> s[j] != c
  {
    if s != [] {
      UncountedAbsent(s[1..], c);
      assert forall j :: 1 <= j < |s| ==> s[j] == s[1..][j - 1];
    }
  }

  lemma {:induction false} CountCharAppend(a: string, b: string, c: char)
    ensures CountChar(a + b, c) == CountChar(a, c) + CountChar(b, c)
  {
    if a == [] {
      assert a + b == b;
    } else {
      assert (a + b)[1..] == a[1..] + b;
      CountCharAppend(a[1..], b, c);
    }
  }

  lemma CountCharSplitAt(s: string, c: char, k: nat)
    requires k < |s| && s[k] == c
    requires forall j :: 0 <= j < k ==> s[j] != c
    ensures CountChar(s, c) == 1 + CountChar(s[k + 1..], c)
  {
    assert s == s[..k] + ([s[k]] + s[k + 1..]);
    CountCharAppend(s[..k], [s[k]] + s[k + 1..], c);
    CountCharAppend([s[k]], s[k + 1..], c);
    NoOccurrenceCountsZero(s[..k], c);
  }

  /** A string without the separator is one part. */
  lemma SplitWhole(s: string, c: char)
    requires c !in s
    ensures Split(s, c) == [s]
  {
    assert IndexOf(s, c, 0) == |s|;
  }

  /** The first separator ends the first part. */
  lemma SplitFirst(a: string, b: string, c: char)
    requires c !in a
    ensures Split(a + [c] + b, c) == [a] + Split(b, c)
  {
    var s := a + [c] + b;
    assert s[|a|] == c;
    assert forall j :: 0 <= j < |a| ==> s[j] == a[j];
    assert IndexOf(s, c, 0) == |a|;
    assert s[..|a|] == a && s[|a| + 1..] == b;
  }

  /** `s.split(c, 1)` when `c in s`: the text before and after the first `c`. */
  function SplitOnce(s: string, c: char): (r: (string, string))
    requires CountChar(s, c) > 0
    ensures r.0 + [c] + r.1 == s
    ensures CountChar(r.0, c) == 0
  {
    var k := IndexOf(s, c, 0);
    if k == |s| then
      NoOccurrenceCountsZero(s, c);
      assert false;
      ("", "")
    else
      NoOccurrenceCountsZero(s[..k], c);
      assert s[..k] + [c] + s[k + 1..] == s;
      (s[..k], s[k + 1..])
  }

  /** The characters Python's `str.isspace` accepts (and `str.strip` removes). */
  predicate IsSpace(c: char) {
    c == ' ' || ('\U{9}' <= c <= '\U{D}') || ('\U{1C}' <= c <= '\U{1F}')
    || c == '\U{85}' || c == '\U{A0}' || c == '\U{1680}'
    || ('\U{2000}' <= c <= '\U{200A}') || c == '\U{2028}' || c == '\U{2029}'
    || c == '\U{202F}' || c == '\U{205F}' || c == '\U{3000}'
  }

  /** The first position at or after `i` that does not hold white space. */
  function SpaceEnd(s: string, i: nat): (n: nat)
    requires i <= |s|
    ensures i <= n <= |s|
    ensures forall j :: i <= j < n ==> IsSpace(s[j])
    ensures n == |s| || !IsSpace(s[n])
    decreases |s| - i
  {
    if i < |s| && IsSpace(s[i]) then SpaceEnd(s, i + 1) else i
  }

  /** The position after the last character of `s[lo..hi]` that is not white space. */
  function SpaceStart(s: string, lo: nat, hi: nat): (n: nat)
    requires lo <= hi <= |s|
    ensures lo <= n <= hi
    ensures forall j :: n <= j < hi ==> IsSpace(s[j])
    ensures n == lo || !IsSpace(s[n - 1])
    decreases hi
  {
    if lo < hi && IsSpace(s[hi - 1]) then SpaceStart(s, lo, hi - 1) else hi
  }

  /** `s` is `r` preceded by the white space `s[..i]` and followed by white space. */
  predicate FramedBySpace(s: string, r: string, i: int) {
    && 0 <= i <= |s| - |r|
    && (forall k :: 0 <= k < |r| ==> s[i + k] == r[k])
    && (forall j :: 0 <= j < i ==> IsSpace(s[j]))
    && (forall j :: i + |r| <= j < |s| ==> IsSpace(s[j]))
  }

  /** `s.strip()`: `s` with its leading and trailing white space removed. */
  function Strip(s: string): (r: string)
    ensures r == [] || (!IsSpace(r[0]) && !IsSpace(r[|r| - 1]))
    ensures FramedBySpace(s, r, SpaceEnd(s, 0))
  {
    var a := SpaceEnd(s, 0);
    s[a..SpaceStart(s, a, |s|)]
  }

  function LowerChar(c: char): char {
    if 'A' <= c <= 'Z' then (c as int + 32) as char else c
  }

  /** `s.lower()` restricted to ASCII letters. */
  function Lower(s: string): (r: string)
    ensures |r| == |s|
    ensures forall j :: 0 <= j < |s| ==> r[j] == LowerChar(s[j])
  {
    if s == [] then [] else [LowerChar(s[0])] + Lower(s[1..])
  }

  /** `sep.join(parts)`. */
  function Join(sep: string, parts: seq<string>): string {
    if parts == [] then ""
    else if |parts| == 1 then parts[0]
    else parts[0] + sep + Join(sep, parts[1..])
  }

  function DigitChar(d: nat): char
    requires d < 10
  {
    ('0' as int + d) as char
  }

  predicate IsDigit(c: char) {
    '0' <= c <= '9'
  }

  /** `str(n)` for a natural number. */
  function NatToString(n: nat): (r: string)
    ensures |r| > 0
    ensures forall j :: 0 <= j < |r| ==> IsDigit(r[j])
  {
    if n < 10 then [DigitChar(n)] else NatToString(n / 10) + [DigitChar(n % 10)]
  }

  /** Python's ordering of strings: code point by code point, a proper prefix first. */
  predicate LexLe(a: string, b: string) {
    if a == [] then true
    else if b == [] then false
    else if a[0] != b[0] then a[0] < b[0]
    else LexLe(a[1..], b[1..])
  }

  lemma {:induction false} LexLeTotal(a: string, b: string)
    ensures LexLe(a, b) || LexLe(b, a)
  {
    if a != [] && b != [] && a[0] == b[0] {
      LexLeTotal(a[1..], b[1..]);
    }
  }

  lemma {:induction false} LexLeAntisymmetric(a: string, b: string)
    requires LexLe(a, b) && LexLe(b, a)
    ensures a == b
  {
    if a != [] && b != [] {
      LexLeAntisymmetric(a[1..], b[1..]);
      assert a == [a[0]] + a[1..] && b == [b[0]] + b[1..];
    }
  }

  lemma {:induction false} LexLeTransitive(a: string, b: string, c: string)
    requires LexLe(a, b) && LexLe(b, c)
    ensures LexLe(a, c)
  {
    if a != [] && b != [] && c != [] && a[0] == b[0] && b[0] == c[0] {
      LexLeTransitive(a[1..], b[1..], c[1..]);
    }
  }

  predicate IsLeast(m: string, s: set<string>) {
    m in s && forall y :: y in s ==> LexLe(m, y)
  }

  lemma {:induction false} LeastExists(s: set<string>)
    requires s != {}
    ensures exists m :: IsLeast(m, s)
    decreases |s|
  {
    var x :| x in s;
    if s - {x} == {} {
      assert s == {x};
      LexLeTotal(x, x);
      assert IsLeast(x, s);
    } else {
      LeastExists(s - {x});
      var m :| IsLeast(m, s - {x});
      LexLeTotal(x, m);
      if LexLe(x, m) {
        forall y | y in s ensures LexLe(x, y) {
          if y != x {
            LexLeTransitive(x, m, y);
          } else {
            LexLeTotal(x, x);
          }
        }
        assert IsLeast(x, s);
      } else {
        assert IsLeast(m, s);
      }
    }
  }

  /** The smallest string of a non-empty set. */
  function Least(s: set<string>): (m: string)
    requires s != {}
    ensures IsLeast(m, s)
  {
    LeastExists(s);
    var m :| IsLeast(m, s);
    forall m' | IsLeast(m', s) ensures m' == m {
      LexLeAntisymmetric(m, m');
    }
    m
  }

  /** `sorted(s)` for a set of strings; `SortedListSorted` states what it gives. */
  function SortedList(s: set<string>): (r: seq<string>)
    ensures |r| == |s|
    decreases |s|
  {
    if s == {} then []
    else
      var m := Least(s);
      var rest := SortedList(s - {m});
      [m] + rest
  }

  /** The members of the set, each once, in Python's order. */
  lemma {:induction false} SortedListSorted(s: set<string>)
    ensures forall x :: x in SortedList(s) <==> x in s
    ensures forall i, j :: 0 <= i < j < |SortedList(s)| ==> LexLe(SortedList(s)[i], SortedList(s)[j]) && SortedList(s)[i] != SortedList(s)[j]
    decreases |s|
  {
    if s != {} {
      var m := Least(s);
      var rest := SortedList(s - {m});
      SortedListSorted(s - {m});
      var r := SortedList(s);
      assert r == [m] + rest;
      forall i, j | 0 <= i < j < |r| ensures LexLe(r[i], r[j]) && r[i] != r[j] {
        if i == 0 {
          assert r[j] == rest[j - 1] && r[j] in s - {m};
        } else {
          assert r[i] == rest[i - 1] && r[j] == rest[j - 1];
        }
      }
    }
  }
}
