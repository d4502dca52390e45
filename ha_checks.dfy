/** What the wrapper around Home Assistant's own `check_config` computes
    without running anything: the version tuples of `_parse_version` and
    their order, where each line of the check's output goes, and which
    errors `reclassify_environment_errors` moves to the warnings. */
module HaChecks {
  import opened Text
  import opened Lists

  // ----- versions -----

  predicate IsAsciiLetter(c: char) {
    'a' <= c <= 'z' || 'A' <= c <= 'Z'
  }

  /** No line break in `s[j..]` other than a final one, so that `.*$` can
      match from `j` on. */
  predicate RunsToEnd(s: string, j: nat) {
    forall m :: j <= m < |s| - 1 ==> s[m] != '\n'
  }

  /** Where `[a-zA-Z].*$` first matches at or after `i`; `|s|` when nowhere. */
  function SuffixStart(s: string, i: nat): (k: nat)
    requires i <= |s|
    ensures i <= k <= |s|
    ensures k < |s| ==> IsAsciiLetter(s[k]) && RunsToEnd(s, k + 1)
    ensures forall j :: i <= j < k ==> !(IsAsciiLetter(s[j]) && RunsToEnd(s, j + 1))
    decreases |s| - i
  {
    if i == |s| then i
    else if IsAsciiLetter(s[i]) && RunsToEnd(s, i + 1) then i
    else SuffixStart(s, i + 1)
  }

  /** `re.sub(r"[a-zA-Z].*$", "", s)`: the match runs from the first letter
      to the end of the string, stopping short of a final line break. */
  function Unsuffixed(s: string): string {
    var k := SuffixStart(s, 0);
    if k == |s| then s
    else if s[|s| - 1] == '\n' && k < |s| - 1 then s[..k] + "\n"
    else s[..k]
  }

  /** `p.isdigit()` on ASCII text. */
  predicate AllDigits(p: string) {
    p != [] && forall j :: 0 <= j < |p| ==> IsDigit(p[j])
  }

  /** `int(p)` for a string of decimal digits, leading zeros allowed. */
  function DecimalValue(p: string): nat
    requires forall j :: 0 <= j < |p| ==> IsDigit(p[j])
    decreases |p|
  {
    if p == [] then 0
    else
      assert IsDigit(p[|p| - 1]);
      10 * DecimalValue(p[..|p| - 1]) + (p[|p| - 1] as int - '0' as int)
  }

  /** The all-digit parts as integers, in order; the others are dropped. */
  function DigitParts(parts: seq<string>): (r: seq<nat>)
    ensures |r| <= |parts|
  {
    if parts == [] then []
    else (if AllDigits(parts[0]) then [DecimalValue(parts[0])] else []) + DigitParts(parts[1..])
  }

  /** `_parse_version`. */
  function ParseVersion(s: string): seq<nat> {
    DigitParts(Split(Unsuffixed(s), '.'))
  }

  /** The numbers written in decimal. */
  function Numerals(ns: seq<nat>): (r: seq<string>)
    ensures |r| == |ns|
    ensures forall i :: 0 <= i < |ns| ==> r[i] == NatToString(ns[i])
  {
    if ns == [] then [] else [NatToString(ns[0])] + Numerals(ns[1..])
  }

  /** A version as it is written: its numbers joined by dots. */
  function Dotted(ns: seq<nat>): string {
    Join(".", Numerals(ns))
  }

  lemma {:induction false} NumeralValue(n: nat)
    ensures DecimalValue(NatToString(n)) == n
  {
    if n >= 10 {
      var r := NatToString(n);
      assert r[..|r| - 1] == NatToString(n / 10);
      NumeralValue(n / 10);
    }
  }

  lemma {:induction false} SplitDotted(ns: seq<nat>)
    requires ns != []
    ensures Split(Dotted(ns), '.') == Numerals(ns)
    decreases |ns|
  {
    var a := NatToString(ns[0]);
    assert '.' !in a;
    if |ns| == 1 {
      SplitWhole(a, '.');
    } else {
      assert Numerals(ns)[1..] == Numerals(ns[1..]);
      assert Dotted(ns) == a + "." + Dotted(ns[1..]);
      SplitFirst(a, Dotted(ns[1..]), '.');
      SplitDotted(ns[1..]);
    }
  }

  lemma {:induction false} DigitPartsOfNumerals(ns: seq<nat>)
    ensures DigitParts(Numerals(ns)) == ns
    decreases |ns|
  {
    if ns != [] {
      NumeralValue(ns[0]);
      assert Numerals(ns)[1..] == Numerals(ns[1..]);
      DigitPartsOfNumerals(ns[1..]);
    }
  }

  /** Text without letters is left alone by the suffix removal. */
  lemma NoLetterUnsuffixed(s: string)
    requires forall j :: 0 <= j < |s| ==> !IsAsciiLetter(s[j])
    ensures Unsuffixed(s) == s
  {
  }

  /** A version written as dotted numbers parses back to those numbers. */
  lemma ParseDotted(ns: seq<nat>)
    ensures ParseVersion(Dotted(ns)) == ns
  {
    var s := Dotted(ns);
    if ns == [] {
      SplitWhole("", '.');
      assert ParseVersion(s) == DigitParts([""]);
    } else {
      DottedHasNoLetter(ns);
      NoLetterUnsuffixed(s);
      SplitDotted(ns);
      DigitPartsOfNumerals(ns);
    }
  }

  lemma {:induction false} DottedHasNoLetter(ns: seq<nat>)
    ensures forall j :: 0 <= j < |Dotted(ns)| ==> !IsAsciiLetter(Dotted(ns)[j]) && Dotted(ns)[j] != '\n'
    decreases |ns|
  {
    if |ns| > 1 {
      DottedHasNoLetter(ns[1..]);
      assert Numerals(ns)[1..] == Numerals(ns[1..]);
      assert Dotted(ns) == NatToString(ns[0]) + "." + Dotted(ns[1..]);
    }
  }

  /** A suffix such as `b1` or `.dev0` that starts with a letter, on a single
      line, does not change the parsed version: `2024.12.0b1` parses as
      `(2024, 12, 0)`. */
  lemma ParseIgnoresSuffix(ns: seq<nat>, suffix: string)
    requires suffix != [] && IsAsciiLetter(suffix[0])
    requires '\n' !in suffix
    ensures ParseVersion(Dotted(ns) + suffix) == ns
  {
    var d := Dotted(ns);
    DottedHasNoLetter(ns);
    UnsuffixedAt(d, suffix);
    ParseDotted(ns);
  }

  /** Text without letters followed by a one-line suffix that starts with a
      letter loses exactly the suffix. */
  lemma UnsuffixedAt(d: string, suffix: string)
    requires forall j :: 0 <= j < |d| ==> !IsAsciiLetter(d[j])
    requires suffix != [] && IsAsciiLetter(suffix[0])
    requires '\n' !in suffix
    ensures Unsuffixed(d + suffix) == d
  {
    var s := d + suffix;
    assert RunsToEnd(s, |d| + 1) by {
      forall m | |d| + 1 <= m < |s| - 1 ensures s[m] != '\n' {
        assert s[m] == suffix[m - |d|];
      }
    }
    assert s[|d|] == suffix[0];
    assert forall j :: 0 <= j < |d| ==> !IsAsciiLetter(s[j]) by {
      assert forall j :: 0 <= j < |d| ==> s[j] == d[j];
    }
    var k := SuffixStart(s, 0);
    assert k == |d|;
    assert s[..k] == d;
    assert s[|s| - 1] == suffix[|suffix| - 1];
  }

  /** `2024.12.0b1`, a beta release, parses as `(2024, 12, 0)`. */
  lemma Example()
    ensures ParseVersion("2024.12.0b1") == [2024, 12, 0]
  {
    ExampleDotted();
    assert "2024.12.0b1" == Dotted([2024, 12, 0]) + "b1";
    ParseIgnoresSuffix([2024, 12, 0], "b1");
  }

  lemma ExampleDotted()
    ensures Dotted([2024, 12, 0]) == "2024.12.0"
  {
    assert NatToString(2024) == "2024" by {
      assert NatToString(202) == "202" by {
        assert NatToString(20) == "20";
      }
    }
    assert NatToString(12) == "12";
    assert NatToString(0) == "0";
    assert Numerals([2024, 12, 0]) == ["2024", "12", "0"];
    assert Join(".", ["0"]) == "0";
    assert Join(".", ["12", "0"]) == "12.0";
  }

  /** Python's `<` on tuples of integers: the first difference decides, and
      a proper prefix comes first. */
  predicate VersionLess(a: seq<int>, b: seq<int>)
    decreases |a|
  {
    b != [] && (a == [] || a[0] < b[0] || (a[0] == b[0] && VersionLess(a[1..], b[1..])))
  }

  /** The same order stated by the first position where the tuples part. */
  lemma VersionLessIff(a: seq<int>, b: seq<int>)
    ensures VersionLess(a, b) <==> exists k :: LessAt(a, b, k)
  {
    if VersionLess(a, b) {
      var k := LessWitness(a, b);
    }
    if exists k :: LessAt(a, b, k) {
      var k :| LessAt(a, b, k);
      LessAtIsLess(a, b, k);
    }
  }

  /** `a` and `b` agree on their first `k` elements and `a` ends there
      while `b` goes on, or `a`'s next element is smaller. */
  predicate LessAt(a: seq<int>, b: seq<int>, k: nat) {
    k <= |a| && k <= |b| && a[..k] == b[..k]
    && ((k == |a| && k < |b|) || (k < |a| && k < |b| && a[k] < b[k]))
  }

  lemma {:induction false} LessWitness(a: seq<int>, b: seq<int>) returns (k: nat)
    requires VersionLess(a, b)
    ensures LessAt(a, b, k)
    decreases |a|
  {
    if a == [] || a[0] < b[0] {
      k := 0;
      assert a[..0] == b[..0];
    } else {
      var k1 := LessWitness(a[1..], b[1..]);
      k := k1 + 1;
      assert a[..k] == [a[0]] + a[1..][..k1];
      assert b[..k] == [b[0]] + b[1..][..k1];
    }
  }

  lemma {:induction false} LessAtIsLess(a: seq<int>, b: seq<int>, k: nat)
    requires LessAt(a, b, k)
    ensures VersionLess(a, b)
    decreases |a|
  {
    if k > 0 && a != [] {
      assert a[0] == a[..k][0] == b[..k][0] == b[0];
      assert a[1..][..k - 1] == a[..k][1..] && b[1..][..k - 1] == b[..k][1..];
      LessAtIsLess(a[1..], b[1..], k - 1);
    }
  }

  lemma {:induction false} VersionLessIrreflexive(a: seq<int>)
    ensures !VersionLess(a, a)
    decreases |a|
  {
    if a != [] {
      VersionLessIrreflexive(a[1..]);
    }
  }

  lemma {:induction false} VersionLessTransitive(a: seq<int>, b: seq<int>, c: seq<int>)
    requires VersionLess(a, b) && VersionLess(b, c)
    ensures VersionLess(a, c)
    decreases |a|
  {
    if a != [] && a[0] == b[0] && b[0] == c[0] {
      VersionLessTransitive(a[1..], b[1..], c[1..]);
    }
  }

  /** Two different versions are ordered one way or the other. */
  lemma {:induction false} VersionLessTotal(a: seq<int>, b: seq<int>)
    requires a != b
    ensures VersionLess(a, b) || VersionLess(b, a)
    decreases |a|
  {
    if a != [] && b != [] && a[0] == b[0] {
      assert a == [a[0]] + a[1..] && b == [b[0]] + b[1..];
      VersionLessTotal(a[1..], b[1..]);
    }
  }

  // ----- check_config output on stdout -----

  /** Which list a stdout line goes to; `Skipped` lines go nowhere. */
  datatype Route = ToInfo | ToError | ToWarning | Skipped

  /** The first rule of `parse_check_config_output` that a stripped stdout
      line meets. */
  function RouteOf(line: string): Route {
    if line == "" then Skipped
    else if Contains(line, "Testing configuration at") || Contains(line, "Configuration check successful!") then ToInfo
    else if Contains(Lower(line), "errors") && Contains(Lower(line), "found") then
      (if Contains(Lower(line), "0 errors") then ToInfo else ToError)
    else if Contains(line, "ERROR") || Contains(line, "Error") then ToError
    else if Contains(line, "WARNING") || Contains(line, "Warning") then ToWarning
    else if StartsWith(line, "INFO:") then Skipped
    else ToInfo
  }

  /** `stdout.split("\n")` when `stdout` is not empty. */
  function OutputLines(out: string): seq<string> {
    if out == "" then [] else Split(out, '\n')
  }

  /** What a raw stdout line adds to the list for route `r`. */
  function RouteLine(r: Route, raw: string): seq<string> {
    var line := Strip(raw);
    if r != Skipped && RouteOf(line) == r then ["HA Check: " + line] else []
  }

  /** The entries the stdout lines `lines` add to the list for route `r`. */
  function Routed(r: Route, lines: seq<string>): seq<string> {
    Concat(r, lines, RouteLine)
  }

  /** The number of lines that are not skipped. */
  function Shown(lines: seq<string>): (n: nat)
    ensures n <= |lines|
  {
    if lines == [] then 0 else Shown(lines[..|lines| - 1]) + (if RouteOf(Strip(lines[|lines| - 1])) == Skipped then 0 else 1)
  }

  /** Every line that is not skipped lands in exactly one of the three lists. */
  lemma {:induction false} RoutesPartition(lines: seq<string>)
    ensures |Routed(ToInfo, lines)| + |Routed(ToError, lines)| + |Routed(ToWarning, lines)| == Shown(lines)
    decreases |lines|
  {
    if lines != [] {
      var n := |lines| - 1;
      RoutesPartition(lines[..n]);
      assert lines[..n + 1] == lines;
      ConcatStep(ToInfo, lines, n, RouteLine);
      ConcatStep(ToError, lines, n, RouteLine);
      ConcatStep(ToWarning, lines, n, RouteLine);
    }
  }

  lemma PrefixCancel(p: string, a: string, b: string)
    requires p + a == p + b
    ensures a == b
  {
    assert a == (p + a)[|p|..];
    assert b == (p + b)[|p|..];
  }

  /** A line is reported on a list exactly when some output line strips to
      it and its first matching rule names that list. */
  lemma RoutedIff(r: Route, lines: seq<string>, line: string)
    requires r != Skipped
    ensures "HA Check: " + line in Routed(r, lines) <==>
      exists i :: 0 <= i < |lines| && Strip(lines[i]) == line && RouteOf(line) == r
  {
    var g := "HA Check: " + line;
    ConcatMember(r, lines, RouteLine, g);
    forall i | 0 <= i < |lines|
      ensures g in RouteLine(r, lines[i]) <==> Strip(lines[i]) == line && RouteOf(line) == r
    {
      RouteLineHas(r, lines[i], line);
    }
  }

  lemma RouteLineHas(r: Route, raw: string, line: string)
    requires r != Skipped
    ensures "HA Check: " + line in RouteLine(r, raw) <==> Strip(raw) == line && RouteOf(line) == r
  {
    if "HA Check: " + line in RouteLine(r, raw) {
      PrefixCancel("HA Check: ", line, Strip(raw));
    }
  }

  /** A summary line counting a multiple of ten errors, such as `10 errors
      found`, contains `0 errors` and so is reported as information, not as
      an error. */
  lemma RoundErrorCountIsInfo(n: nat)
    ensures RouteOf(NatToString(10 * n) + " errors found") == ToInfo
  {
    var y := RoundCountText(n);
    ZeroErrorsLine(y);
  }

  lemma RoundCountText(n: nat) returns (y: string)
    ensures NatToString(10 * n) + " errors found" == y + "0 errors found"
    ensures forall j :: 0 <= j < |y| ==> IsDigit(y[j])
  {
    y := if n == 0 then "" else NatToString(n);
    assert NatToString(10 * n) == y + "0";
  }

  /** Digits followed by `0 errors found` read as information. */
  lemma ZeroErrorsLine(y: string)
    requires forall j :: 0 <= j < |y| ==> IsDigit(y[j])
    ensures RouteOf(y + "0 errors found") == ToInfo
  {
    var z := "0 errors found";
    var line := y + z;
    forall j | 0 <= j < |line| ensures !('A' <= line[j] <= 'Z') && line[j] != 'T' && line[j] != 'C' {
      if j >= |y| {
        assert line[j] == z[j - |y|];
      }
    }
    LowerKeeps(line);
    AbsentCharNotContained(line, "Testing configuration at", 0);
    AbsentCharNotContained(line, "Configuration check successful!", 0);
    ZeroErrorsMentioned(y);
  }

  lemma ZeroErrorsMentioned(y: string)
    ensures Contains(y + "0 errors found", "0 errors")
    ensures Contains(y + "0 errors found", "errors")
    ensures Contains(y + "0 errors found", "found")
  {
    var z := "0 errors found";
    assert z[..8] == "0 errors" && z[2..8] == "errors" && z[9..] == "found";
    OccursInPart(y, z, "0 errors", 0);
    OccursInPart(y, z, "errors", 2);
    OccursInPart(y, z, "found", 9);
    OccursImpliesContains(y + z, "0 errors", |y|);
    OccursImpliesContains(y + z, "errors", |y| + 2);
    OccursImpliesContains(y + z, "found", |y| + 9);
  }

  lemma OccursInPart(y: string, z: string, p: string, i: nat)
    requires i + |p| <= |z| && z[i..i + |p|] == p
    ensures OccursAt(y + z, p, |y| + i)
  {
    assert (y + z)[|y| + i..|y| + i + |p|] == z[i..i + |p|];
  }

  lemma LowerKeeps(s: string)
    requires forall j :: 0 <= j < |s| ==> !('A' <= s[j] <= 'Z')
    ensures Lower(s) == s
  {
  }

  /** The success line is never an error. */
  lemma SuccessIsInfo(line: string)
    requires Contains(line, "Configuration check successful!")
    ensures RouteOf(line) == ToInfo
  {
    assert line != "" by {
      if line == "" {
        NotContainsLonger(line, "Configuration check successful!");
      }
    }
  }

  // ----- check_config output on stderr, and environment errors -----

  /** Some pattern occurs in `s`, ignoring ASCII case. */
  predicate MentionsAny(s: string, pats: seq<string>) {
    exists j :: 0 <= j < |pats| && Contains(Lower(s), Lower(pats[j]))
  }

  /** What a raw stderr line adds to the errors. */
  function StderrLine(pats: seq<string>, raw: string): seq<string> {
    var line := Strip(raw);
    if line == "" || MentionsAny(line, pats) then [] else ["HA Error: " + line]
  }

  function StderrErrors(pats: seq<string>, lines: seq<string>): seq<string> {
    Concat(pats, lines, StderrLine)
  }

  /** A stderr line is an error exactly when it is not blank and mentions no
      ignore pattern. */
  lemma StderrErrorIff(pats: seq<string>, lines: seq<string>, line: string)
    ensures "HA Error: " + line in StderrErrors(pats, lines) <==>
      line != "" && !MentionsAny(line, pats) && exists i :: 0 <= i < |lines| && Strip(lines[i]) == line
  {
    var g := "HA Error: " + line;
    ConcatMember(pats, lines, StderrLine, g);
    if g in StderrErrors(pats, lines) {
      var i :| 0 <= i < |lines| && g in StderrLine(pats, lines[i]);
      PrefixCancel("HA Error: ", line, Strip(lines[i]));
    }
    if line != "" && !MentionsAny(line, pats) && exists i :: 0 <= i < |lines| && Strip(lines[i]) == line {
      var i :| 0 <= i < |lines| && Strip(lines[i]) == line;
      assert g in StderrLine(pats, lines[i]);
    }
  }

  /** An empty ignore pattern occurs in every line, so it silences stderr. */
  lemma {:induction false} EmptyPatternSilences(pats: seq<string>, lines: seq<string>)
    requires "" in pats
    ensures StderrErrors(pats, lines) == []
    decreases |lines|
  {
    if lines != [] {
      var n := |lines| - 1;
      var j :| 0 <= j < |pats| && pats[j] == "";
      assert Contains(Lower(Strip(lines[n])), Lower(pats[j]));
      EmptyPatternSilences(pats, lines[..n]);
    }
  }

  function KeepOne(pats: seq<string>, e: string): seq<string> {
    if MentionsAny(e, pats) then [] else [e]
  }

  function MoveOne(pats: seq<string>, e: string): seq<string> {
    if MentionsAny(e, pats) then [e] else []
  }

  function EnvWarning(pats: seq<string>, e: string): seq<string> {
    if MentionsAny(e, pats) then ["[Env] " + e] else []
  }

  /** The errors that mention no environment pattern, in order. */
  function Kept(pats: seq<string>, es: seq<string>): seq<string> {
    Concat(pats, es, KeepOne)
  }

  /** The errors that mention one, in order: `errors_to_remove`. */
  function Moved(pats: seq<string>, es: seq<string>): seq<string> {
    Concat(pats, es, MoveOne)
  }

  /** The warnings the moved errors become. */
  function EnvWarnings(pats: seq<string>, es: seq<string>): seq<string> {
    Concat(pats, es, EnvWarning)
  }

  /** `s.remove(x)`: `s` without its first `x`. */
  function RemoveFirst(s: seq<string>, x: string): (r: seq<string>)
    requires x in s
    ensures |r| == |s| - 1
    ensures multiset(r) == multiset(s) - multiset{x}
  {
    if s[0] == x then
      assert s == [s[0]] + s[1..];
      s[1..]
    else
      assert s == [s[0]] + s[1..];
      [s[0]] + RemoveFirst(s[1..], x)
  }

  /** `es` without its first `j` errors that mention a pattern. */
  function DropMoved(pats: seq<string>, es: seq<string>, j: nat): seq<string>
    decreases |es|
  {
    if j == 0 || es == [] then es
    else if MentionsAny(es[0], pats) then DropMoved(pats, es[1..], j - 1)
    else [es[0]] + DropMoved(pats, es[1..], j)
  }

  /** Removing the `j`-th moved error's value takes out exactly that error:
      every earlier error with the same value was moved, and removed, before. */
  lemma {:induction false} DropStep(pats: seq<string>, es: seq<string>, j: nat)
    requires j < |Moved(pats, es)|
    ensures Moved(pats, es)[j] in DropMoved(pats, es, j)
    ensures RemoveFirst(DropMoved(pats, es, j), Moved(pats, es)[j]) == DropMoved(pats, es, j + 1)
    decreases |es|, 2
  {
    ConcatFront(pats, es, MoveOne);
    if MentionsAny(es[0], pats) {
      DropStepMoved(pats, es, j);
    } else {
      DropStepKept(pats, es, j);
    }
  }

  /** `DropStep` when the first error is moved. */
  lemma {:induction false} DropStepMoved(pats: seq<string>, es: seq<string>, j: nat)
    requires es != [] && MentionsAny(es[0], pats)
    requires j < |Moved(pats, es)|
    ensures Moved(pats, es)[j] in DropMoved(pats, es, j)
    ensures RemoveFirst(DropMoved(pats, es, j), Moved(pats, es)[j]) == DropMoved(pats, es, j + 1)
    decreases |es|, 1
  {
    ConcatFront(pats, es, MoveOne);
    assert Moved(pats, es) == [es[0]] + Moved(pats, es[1..]);
    if j == 0 {
      DropFirstMoved(pats, es);
    } else {
      DropLaterMoved(pats, es, j);
    }
  }

  lemma DropFirstMoved(pats: seq<string>, es: seq<string>)
    requires es != [] && MentionsAny(es[0], pats)
    ensures es[0] in DropMoved(pats, es, 0)
    ensures RemoveFirst(DropMoved(pats, es, 0), es[0]) == DropMoved(pats, es, 1)
  {
    var rest := es[1..];
    assert DropMoved(pats, es, 0) == es;
    assert DropMoved(pats, es, 1) == DropMoved(pats, rest, 0) == rest;
  }

  lemma {:induction false} DropLaterMoved(pats: seq<string>, es: seq<string>, j: nat)
    requires es != [] && MentionsAny(es[0], pats)
    requires 0 < j < |Moved(pats, es)|
    requires Moved(pats, es) == [es[0]] + Moved(pats, es[1..])
    ensures Moved(pats, es)[j] in DropMoved(pats, es, j)
    ensures RemoveFirst(DropMoved(pats, es, j), Moved(pats, es)[j]) == DropMoved(pats, es, j + 1)
    decreases |es|, 0
  {
    var rest := es[1..];
    var v := Moved(pats, rest)[j - 1];
    var d := DropMoved(pats, rest, j - 1);
    assert Moved(pats, es)[j] == v;
    assert DropMoved(pats, es, j) == d;
    assert DropMoved(pats, es, j + 1) == DropMoved(pats, rest, j);
    DropStep(pats, rest, j - 1);
  }

  /** `DropStep` when the first error is kept. */
  lemma {:induction false} DropStepKept(pats: seq<string>, es: seq<string>, j: nat)
    requires es != [] && !MentionsAny(es[0], pats)
    requires j < |Moved(pats, es)|
    ensures Moved(pats, es)[j] in DropMoved(pats, es, j)
    ensures RemoveFirst(DropMoved(pats, es, j), Moved(pats, es)[j]) == DropMoved(pats, es, j + 1)
    decreases |es|, 1
  {
    ConcatFront(pats, es, MoveOne);
    var v := Moved(pats, es)[j];
    var rest := es[1..];
    assert Moved(pats, es) == Moved(pats, rest);
    DropStep(pats, rest, j);
    MovedMentions(pats, rest, j);
    assert es[0] != v;
    var d := DropMoved(pats, rest, j);
    assert DropMoved(pats, es, j + 1) == [es[0]] + DropMoved(pats, rest, j + 1);
    if j == 0 {
      assert DropMoved(pats, es, 0) == es == [es[0]] + d;
    } else {
      assert DropMoved(pats, es, j) == [es[0]] + d;
    }
    RemoveFirstCons(es[0], d, v);
  }

  lemma RemoveFirstCons(x: string, d: seq<string>, v: string)
    requires x != v && v in d
    ensures RemoveFirst([x] + d, v) == [x] + RemoveFirst(d, v)
  {
    assert ([x] + d)[0] == x && ([x] + d)[1..] == d;
  }

  lemma MovedMentions(pats: seq<string>, es: seq<string>, j: nat)
    requires j < |Moved(pats, es)|
    ensures MentionsAny(Moved(pats, es)[j], pats)
  {
    var v := Moved(pats, es)[j];
    assert v in Moved(pats, es);
    ConcatMember(pats, es, MoveOne, v);
  }

  /** Once every moved error is removed, what is left are the kept ones. */
  lemma {:induction false} DropAll(pats: seq<string>, es: seq<string>)
    ensures DropMoved(pats, es, |Moved(pats, es)|) == Kept(pats, es)
    decreases |es|
  {
    if es != [] {
      ConcatFront(pats, es, MoveOne);
      ConcatFront(pats, es, KeepOne);
      DropAll(pats, es[1..]);
      if !MentionsAny(es[0], pats) && |Moved(pats, es)| == 0 {
        assert Kept(pats, es[1..]) == DropMoved(pats, es[1..], 0) == es[1..];
        assert es == [es[0]] + es[1..];
      }
    }
  }

  /** Reclassification splits the errors: every error is kept or moved, as
      often as it occurs. */
  lemma ReclassifySplits(pats: seq<string>, es: seq<string>)
    ensures multiset(Kept(pats, es)) + multiset(Moved(pats, es)) == multiset(es)
  {
    forall i | 0 <= i < |es|
      ensures multiset(KeepOne(pats, es[i])) + multiset(MoveOne(pats, es[i])) == multiset{es[i]}
    {
    }
    ConcatPartition(pats, es, KeepOne, MoveOne);
  }

  /** Kept errors mention no pattern and moved ones do. */
  lemma ReclassifySeparates(pats: seq<string>, es: seq<string>, e: string)
    ensures e in Kept(pats, es) <==> e in es && !MentionsAny(e, pats)
    ensures e in Moved(pats, es) <==> e in es && MentionsAny(e, pats)
  {
    ConcatMember(pats, es, KeepOne, e);
    ConcatMember(pats, es, MoveOne, e);
  }

  /** Each moved error gives one `[Env] ` warning, in the same order. */
  lemma {:induction false} EnvWarningsFollowMoved(pats: seq<string>, es: seq<string>)
    ensures |EnvWarnings(pats, es)| == |Moved(pats, es)|
    ensures forall i :: 0 <= i < |Moved(pats, es)| ==> EnvWarnings(pats, es)[i] == "[Env] " + Moved(pats, es)[i]
    decreases |es|
  {
    if es != [] {
      var n := |es| - 1;
      EnvWarningsFollowMoved(pats, es[..n]);
      ConcatStep(pats, es, n, MoveOne);
      ConcatStep(pats, es, n, EnvWarning);
      assert es[..n + 1] == es;
    }
  }

  /** With no patterns nothing moves. */
  lemma NoPatternsKeepAll(es: seq<string>)
    ensures Kept([], es) == es && Moved([], es) == [] && EnvWarnings([], es) == []
  {
    forall i | 0 <= i < |es|
      ensures KeepOne([], es[i]) == [es[i]] && MoveOne([], es[i]) == [] && EnvWarning([], es[i]) == []
    {
      assert !MentionsAny(es[i], []);
    }
    ConcatIdentity([], es, KeepOne);
    ConcatNone([], es, MoveOne);
    ConcatNone([], es, EnvWarning);
  }

  /** Reclassifying again changes nothing. */
  lemma {:induction false} KeptIdempotent(pats: seq<string>, es: seq<string>)
    ensures Kept(pats, Kept(pats, es)) == Kept(pats, es)
    ensures Moved(pats, Kept(pats, es)) == []
    decreases |es|
  {
    if es != [] {
      var n := |es| - 1;
      KeptIdempotent(pats, es[..n]);
      ConcatStep(pats, es, n, KeepOne);
      assert es[..n + 1] == es;
      var k := Kept(pats, es[..n]);
      ConcatAppend(pats, k, KeepOne(pats, es[n]), KeepOne);
      ConcatAppend(pats, k, KeepOne(pats, es[n]), MoveOne);
      if !MentionsAny(es[n], pats) {
        ConcatSingle(pats, es[n], KeepOne);
        ConcatSingle(pats, es[n], MoveOne);
      }
    }
  }
}
