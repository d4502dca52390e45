/** Entity ids named inside Jinja2 templates: seven textual call forms, each
    scanned the way `re.findall` scans (leftmost match first, the next search
    starting where the previous match ended), keeping the captured tokens that
    contain exactly one `.`. */
module TemplateScanner {
  import opened Wrappers
  import opened Text

  /** `name(` followed by a quoted token: `states('x')` and `states("x")` need the
      closing parenthesis, `is_state('x'` and `state_attr('x'` do not. The dotted
      form is `states.domain.object`. */
  datatype Form = Quoted(name: string, quote: char, closeParen: bool) | Dotted

  const Forms: seq<Form> := [
    Quoted("states(", '\'', true),
    Quoted("states(", '"', true),
    Dotted,
    Quoted("is_state(", '\'', false),
    Quoted("is_state(", '"', false),
    Quoted("state_attr(", '\'', false),
    Quoted("state_attr(", '"', false)
  ]

  /** The captured group and the position just after the whole match. */
  datatype Match = Match(capture: string, end: nat)

  function Opener(f: Form): string
    requires f.Quoted?
  {
    f.name + [f.quote]
  }

  function Closer(f: Form): string
    requires f.Quoted?
  {
    [f.quote] + (if f.closeParen then ")" else "")
  }

  /** `[a-zA-Z_]`. */
  predicate IsIdentStart(c: char) {
    ('a' <= c <= 'z') || ('A' <= c <= 'Z') || c == '_'
  }

  /** `[a-zA-Z0-9_]`. */
  predicate IsWordChar(c: char) {
    IsIdentStart(c) || ('0' <= c <= '9')
  }

  /** `[a-zA-Z_][a-zA-Z0-9_]*`. */
  predicate IsIdent(x: string) {
    |x| > 0 && IsIdentStart(x[0]) && forall k :: 0 <= k < |x| ==> IsWordChar(x[k])
  }

  /** End of the run of word characters starting at `k` (greedy `*`). */
  function WordRunEnd(s: string, k: nat): (e: nat)
    requires k <= |s|
    ensures k <= e <= |s|
    ensures forall m :: k <= m < e ==> IsWordChar(s[m])
    ensures e < |s| ==> !IsWordChar(s[e])
    decreases |s| - k
  {
    if k == |s| || !IsWordChar(s[k]) then k else WordRunEnd(s, k + 1)
  }

  /** The match of form `f` starting exactly at position `p`, if any. */
  function MatchAt(f: Form, s: string, p: nat): (r: Option<Match>)
    requires p <= |s|
    ensures r.Some? ==> p < r.value.end <= |s|
  {
    match f
    case Quoted(name, quote, closeParen) =>
      var o := name + [quote];
      if !OccursAt(s, o, p) then None
      else
        var a := p + |o|;
        var q := IndexOf(s, quote, a);
        if q == a || q == |s| then None
        else if closeParen && !(q + 1 < |s| && s[q + 1] == ')') then None
        else Some(Match(s[a..q], if closeParen then q + 2 else q + 1))
    case Dotted =>
      var a := p + 7;
      if !OccursAt(s, "states.", p) || a >= |s| || !IsIdentStart(s[a]) then None
      else
        var e1 := WordRunEnd(s, a + 1);
        if e1 + 1 >= |s| || s[e1] != '.' || !IsIdentStart(s[e1 + 1]) then None
        else
          var e2 := WordRunEnd(s, e1 + 2);
          Some(Match(s[a..e2], e2))
  }

  /** `re.findall(pattern, s[p:])` for the form's one group. */
  function FindAll(f: Form, s: string, p: nat): seq<string>
    requires p <= |s|
    decreases |s| - p
  {
    if p == |s| then []
    else match MatchAt(f, s, p)
      case Some(m) => [m.capture] + FindAll(f, s, m.end)
      case None => FindAll(f, s, p + 1)
  }

  /** The filter applied to each captured token: it contains a `.` and
      `split(".")` gives two parts. */
  predicate EntityShaped(c: string) {
    '.' in c && |Split(c, '.')| == 2
  }

  /** `extract_entities_from_template`. */
  function Extract(t: string): set<string> {
    set f, c | f in Forms && c in FindAll(f, t, 0) && EntityShaped(c) :: c
  }

  // ----- what a single match is -----

  /** The regular expression `name\(Q([^Q]+)Q` (with `\)` when required) matches
      at `p` with group `c`. */
  predicate QuotedMatch(f: Form, s: string, p: nat, c: string)
    requires f.Quoted?
  {
    OccursAt(s, Opener(f) + c + Closer(f), p) && c != [] && f.quote !in c
  }

  /** The dotted form matches at `p` with group `x.y`: both words taken greedily. */
  predicate DottedMatch(s: string, p: nat, x: string, y: string) {
    && OccursAt(s, "states." + x + "." + y, p)
    && IsIdent(x) && IsIdent(y)
    && var e := p + 8 + |x| + |y|; e == |s| || !IsWordChar(s[e])
  }

  lemma CharInSlice(s: string, a: int, b: int, c: char)
    requires 0 <= a <= b <= |s|
    ensures c in s[a..b] <==> exists m :: a <= m < b && s[m] == c
  {
    if c in s[a..b] {
      var k :| 0 <= k < b - a && s[a..b][k] == c;
      assert s[a + k] == c;
    }
    forall m | a <= m < b && s[m] == c ensures c in s[a..b] {
      assert s[a..b][m - a] == c;
    }
  }

  /** A quoted form matches at `p` exactly when the declarative description
      holds, and its group is the one the description names. */
  lemma QuotedMatchIff(f: Form, s: string, p: nat, c: string)
    requires f.Quoted? && p <= |s|
    ensures MatchAt(f, s, p) == Some(Match(c, p + |Opener(f)| + |c| + |Closer(f)|))
            <==> QuotedMatch(f, s, p, c)
  {
    if MatchAt(f, s, p) == Some(Match(c, p + |Opener(f)| + |c| + |Closer(f)|)) {
      QuotedMatchShaped(f, s, p, c);
    }
    if QuotedMatch(f, s, p, c) {
      QuotedMatchFound(f, s, p, c);
    }
  }

  /** A match of a quoted form at `p` is the call text itself. */
  lemma QuotedMatchShaped(f: Form, s: string, p: nat, c: string)
    requires f.Quoted? && p <= |s|
    requires MatchAt(f, s, p) == Some(Match(c, p + |Opener(f)| + |c| + |Closer(f)|))
    ensures QuotedMatch(f, s, p, c)
  {
    var o := Opener(f);
    var w := o + c + Closer(f);
    var a := p + |o|;
    var q := IndexOf(s, f.quote, a);
    assert c == s[a..q];
    CharInSlice(s, a, q, f.quote);
    assert s[p..p + |o|] == o;
    assert s[p..p + |w|] == w by {
      forall k | 0 <= k < |w| ensures s[p + k] == w[k] {
        if k < |o| {
          assert s[p..p + |o|][k] == o[k];
        } else if k < |o| + |c| {
          assert w[k] == c[k - |o|];
        } else if k == |o| + |c| {
          assert w[k] == f.quote;
        } else {
          assert w[k] == ')';
        }
      }
    }
  }

  /** The call text of a quoted form at `p` is matched there. */
  lemma QuotedMatchFound(f: Form, s: string, p: nat, c: string)
    requires f.Quoted? && p <= |s|
    requires QuotedMatch(f, s, p, c)
    ensures MatchAt(f, s, p) == Some(Match(c, p + |Opener(f)| + |c| + |Closer(f)|))
  {
    var o := Opener(f);
    var w := o + c + Closer(f);
    var a := p + |o|;
    assert s[p..p + |w|] == w;
    assert OccursAt(s, o, p) by {
      assert s[p..p + |o|] == w[..|o|];
    }
    forall m | a <= m < a + |c| ensures s[m] != f.quote {
      assert s[m] == w[m - p];
      assert w[m - p] == c[m - a];
    }
    assert s[a + |c|] == w[|o| + |c|];
    var q := IndexOf(s, f.quote, a);
    assert q == a + |c|;
    assert s[a..q] == c by {
      forall k | 0 <= k < |c| ensures s[a + k] == c[k] {
        assert s[a + k] == w[|o| + k];
      }
    }
    if f.closeParen {
      assert s[q + 1] == w[|o| + |c| + 1];
    }
  }

  /** `x.y` splits only one way around the single dot. */
  lemma UniqueDot(x: string, y: string, x': string, y': string)
    requires '.' !in x' && '.' !in y' && x + "." + y == x' + "." + y'
    ensures x == x' && y == y'
  {
    var z := x' + "." + y';
    forall k | 0 <= k < |z| && k != |x'| ensures z[k] != '.' {
      if k < |x'| {
        assert z[k] == x'[k];
      } else {
        assert z[k] == y'[k - |x'| - 1];
      }
    }
    assert z[|x|] == (x + "." + y)[|x|] == '.';
    assert |x| == |x'|;
    assert x == z[..|x|] && x' == z[..|x'|];
    assert y == z[|x| + 1..] && y' == z[|x'| + 1..];
  }

  /** A dotted match at `p` consists of `states.`, an identifier ending at the
      dot `d` and an identifier ending at `e`, where the match ends. */
  lemma DottedMatchParts(s: string, p: nat) returns (d: nat, e: nat)
    requires p <= |s| && MatchAt(Dotted, s, p).Some?
    ensures p + 7 < d < e <= |s| && OccursAt(s, "states.", p) && s[d] == '.'
    ensures IsIdent(s[p + 7..d]) && IsIdent(s[d + 1..e]) && (e == |s| || !IsWordChar(s[e]))
    ensures MatchAt(Dotted, s, p).value == Match(s[p + 7..e], e)
  {
    var a := p + 7;
    assert OccursAt(s, "states.", p) && a < |s| && IsIdentStart(s[a]);
    d := WordRunEnd(s, a + 1);
    assert d + 1 < |s| && s[d] == '.' && IsIdentStart(s[d + 1]);
    e := WordRunEnd(s, d + 2);
    assert MatchAt(Dotted, s, p).value == Match(s[a..e], e);
    var x, y := s[a..d], s[d + 1..e];
    assert IsIdent(x) by {
      forall k | 0 <= k < |x| ensures IsWordChar(x[k]) {
        assert x[k] == s[a + k];
      }
    }
    assert IsIdent(y) by {
      forall k | 0 <= k < |y| ensures IsWordChar(y[k]) {
        assert y[k] == s[d + 1 + k];
      }
    }
  }

  lemma SliceAround(s: string, a: nat, m: nat, e: nat)
    requires a <= m < e <= |s|
    ensures s[a..e] == s[a..m] + [s[m]] + s[m + 1..e]
  {
  }

  lemma SliceSplit(s: string, i: nat, m: nat, e: nat)
    requires i <= m <= e <= |s|
    ensures s[i..e] == s[i..m] + s[m..e]
  {
  }

  lemma IdentHasNoDot(x: string)
    requires IsIdent(x)
    ensures '.' !in x
  {
  }

  lemma DottedMatchSound(s: string, p: nat, x: string, y: string)
    requires p <= |s|
    requires MatchAt(Dotted, s, p) == Some(Match(x + "." + y, p + 8 + |x| + |y|))
    ensures DottedMatch(s, p, x, y)
  {
    var d, e := DottedMatchParts(s, p);
    var a := p + 7;
    var x', y' := s[a..d], s[d + 1..e];
    IdentHasNoDot(x');
    IdentHasNoDot(y');
    SliceAround(s, a, d, e);
    assert [s[d]] == ".";
    assert s[a..e] == x' + "." + y';
    UniqueDot(x, y, x', y');
    SliceSplit(s, p, a, e);
    StatesPrefix(x, y);
  }

  lemma StatesPrefix(x: string, y: string)
    ensures "states." + x + "." + y == "states." + (x + "." + y)
  {
  }

  lemma DottedMatchComplete(s: string, p: nat, x: string, y: string)
    requires p <= |s| && DottedMatch(s, p, x, y)
    ensures MatchAt(Dotted, s, p) == Some(Match(x + "." + y, p + 8 + |x| + |y|))
  {
    var w := "states." + x + "." + y;
    var a := p + 7;
    var d := a + |x|;
    var e := d + 1 + |y|;
    assert s[p..p + |w|] == w;
    assert OccursAt(s, "states.", p) by {
      assert s[p..p + 7] == w[..7];
    }
    forall m | a <= m < d ensures s[m] == x[m - a] {
      assert s[m] == w[m - p];
    }
    forall m | d + 1 <= m < e ensures s[m] == y[m - d - 1] {
      assert s[m] == w[m - p];
    }
    assert s[d] == w[7 + |x|] == '.';
    RunEndAt(s, a + 1, d);
    RunEndAt(s, d + 2, e);
    assert s[a..e] == x + "." + y by {
      assert s[a..e] == s[p..p + |w|][7..];
      assert w[7..] == x + "." + y;
    }
    DottedAt(s, p, d, e);
  }

  /** The end of a word run is the first position past `k` without a word
      character. */
  lemma RunEndAt(s: string, k: nat, e: nat)
    requires k <= e <= |s|
    requires forall m :: k <= m < e ==> IsWordChar(s[m])
    requires e == |s| || !IsWordChar(s[e])
    ensures WordRunEnd(s, k) == e
  {
  }

  /** The dotted form matches at `p` when its three parts are in place: the
      first word run ends at the dot `d`, the second at `e`. */
  lemma DottedAt(s: string, p: nat, d: nat, e: nat)
    requires p + 7 < |s| && OccursAt(s, "states.", p) && IsIdentStart(s[p + 7])
    requires WordRunEnd(s, p + 8) == d && d + 1 < |s| && s[d] == '.' && IsIdentStart(s[d + 1])
    requires WordRunEnd(s, d + 2) == e
    ensures MatchAt(Dotted, s, p) == Some(Match(s[p + 7..e], e))
  {
  }

  /** The dotted form matches at `p` exactly when the declarative description holds. */
  lemma DottedMatchIff(s: string, p: nat, x: string, y: string)
    requires p <= |s|
    ensures MatchAt(Dotted, s, p) == Some(Match(x + "." + y, p + 8 + |x| + |y|))
            <==> DottedMatch(s, p, x, y)
  {
    if MatchAt(Dotted, s, p) == Some(Match(x + "." + y, p + 8 + |x| + |y|)) {
      DottedMatchSound(s, p, x, y);
    }
    if DottedMatch(s, p, x, y) {
      DottedMatchComplete(s, p, x, y);
    }
  }

  /** Every capture of the dotted form is shaped like an entity id. */
  lemma DottedCaptureShaped(s: string, p: nat)
    requires p <= |s| && MatchAt(Dotted, s, p).Some?
    ensures CountChar(MatchAt(Dotted, s, p).value.capture, '.') == 1
  {
    var d, e := DottedMatchParts(s, p);
    var a := p + 7;
    var x, y := s[a..d], s[d + 1..e];
    SliceAround(s, a, d, e);
    assert [s[d]] == ".";
    IdentHasNoDot(x);
    IdentHasNoDot(y);
    OneDot(x, y);
  }

  /** Two dot-free words around a dot hold exactly one dot. */
  lemma OneDot(x: string, y: string)
    requires '.' !in x && '.' !in y
    ensures CountChar(x + "." + y, '.') == 1
  {
    NoOccurrenceCountsZero(x, '.');
    NoOccurrenceCountsZero(y, '.');
    CountCharAppend(x, ".", '.');
    CountCharAppend(x + ".", y, '.');
  }

  // ----- findall -----

  /** Every token `findall` returns is the group of a match at or after `p`. */
  lemma {:induction false} FindAllSound(f: Form, s: string, p: nat, c: string)
    requires p <= |s| && c in FindAll(f, s, p)
    ensures exists q :: p <= q <= |s| && MatchAt(f, s, q).Some? && MatchAt(f, s, q).value.capture == c
    decreases |s| - p
  {
    match MatchAt(f, s, p)
    case Some(m) =>
      if c != m.capture {
        FindAllSound(f, s, m.end, c);
      }
    case None =>
      FindAllSound(f, s, p + 1, c);
  }

  /** Positions where nothing matches are stepped over one by one. */
  lemma {:induction false} FindAllSkips(f: Form, s: string, p: nat, r: nat)
    requires p <= r <= |s|
    requires forall q :: p <= q < r ==> MatchAt(f, s, q).None?
    ensures FindAll(f, s, p) == FindAll(f, s, r)
    decreases r - p
  {
    if p < r {
      FindAllSkips(f, s, p + 1, r);
    }
  }

  /** The leftmost match is reported first. */
  lemma FindAllLeftmost(f: Form, s: string, p: nat, r: nat)
    requires p <= r <= |s|
    requires forall q :: p <= q < r ==> MatchAt(f, s, q).None?
    requires MatchAt(f, s, r).Some?
    ensures FindAll(f, s, p) == [MatchAt(f, s, r).value.capture] + FindAll(f, s, MatchAt(f, s, r).value.end)
  {
    FindAllSkips(f, s, p, r);
  }

  // ----- the filter -----

  /** The code's two-part test is "exactly one dot". */
  lemma EntityShapedIff(c: string)
    ensures EntityShaped(c) <==> CountChar(c, '.') == 1
  {
    if CountChar(c, '.') == 1 && '.' !in c {
      NoOccurrenceCountsZero(c, '.');
    }
  }

  /** `extract_entities_from_template` returns exactly the tokens some form
      captures that contain exactly one dot. */
  lemma ExtractIff(t: string, c: string)
    ensures c in Extract(t) <==>
      CountChar(c, '.') == 1 && exists f :: f in Forms && c in FindAll(f, t, 0)
  {
    EntityShapedIff(c);
  }

  // ----- finding a token after text free of earlier matches -----

  lemma QuotedNoEarlierMatch(f: Form, pre: string, rest: string, q: nat)
    requires f.Quoted? && f.quote !in f.name && f.quote !in pre
    requires StartsWith(rest, Opener(f)) && q < |pre|
    ensures MatchAt(f, pre + rest, q).None?
  {
    var s := pre + rest;
    var o := Opener(f);
    var k := q + |o| - 1;
    assert s[k] != f.quote by {
      if k < |pre| {
        assert s[k] == pre[k];
      } else {
        assert s[k] == rest[k - |pre|];
        assert rest[..|o|][k - |pre|] == o[k - |pre|];
        assert o[k - |pre|] == f.name[k - |pre|];
      }
    }
    assert s[q..q + |o|][|o| - 1] == s[k];
    assert o[|o| - 1] == f.quote;
  }

  /** No quoted form's name holds its own quote character. */
  lemma QuoteNotInName(f: Form)
    requires f in Forms && f.Quoted?
    ensures f.quote !in f.name
  {
    var i :| 0 <= i < |Forms| && Forms[i] == f;
    assert f.name == "states(" || f.name == "is_state(" || f.name == "state_attr(";
    assert f.quote == '\'' || f.quote == '"';
    assert '\'' !in f.name && '"' !in f.name by {
      if f.name == "states(" {
        NoQuoteIn("states(");
      } else if f.name == "is_state(" {
        NoQuoteIn("is_state(");
      } else {
        NoQuoteIn("state_attr(");
      }
    }
  }

  lemma NoQuoteIn(n: string)
    requires forall k :: 0 <= k < |n| ==> IsIdentStart(n[k]) || n[k] == '('
    ensures '\'' !in n && '"' !in n
  {
  }

  /** A quoted call preceded by text without its quote character is found. */
  lemma QuotedFound(f: Form, pre: string, c: string, post: string)
    requires f in Forms && f.Quoted?
    requires f.quote !in pre && c != [] && f.quote !in c
    ensures c in FindAll(f, pre + Opener(f) + c + Closer(f) + post, 0)
  {
    var rest := Opener(f) + c + Closer(f) + post;
    var s := pre + rest;
    assert s == pre + Opener(f) + c + Closer(f) + post;
    assert StartsWith(rest, Opener(f)) by {
      assert rest[..|Opener(f)|] == Opener(f);
    }
    QuoteNotInName(f);
    forall q | 0 <= q < |pre| ensures MatchAt(f, s, q).None? {
      QuotedNoEarlierMatch(f, pre, rest, q);
    }
    var w := Opener(f) + c + Closer(f);
    assert s[|pre|..|pre| + |w|] == w by {
      assert rest[..|w|] == w;
    }
    QuotedMatchIff(f, s, |pre|, c);
    FindAllLeftmost(f, s, 0, |pre|);
  }

  lemma DottedNoEarlierMatch(pre: string, rest: string, q: nat)
    requires '.' !in pre && StartsWith(rest, "states.") && q < |pre|
    ensures MatchAt(Dotted, pre + rest, q).None?
  {
    var s := pre + rest;
    assert s[q + 6] != '.' by {
      if q + 6 < |pre| {
        assert s[q + 6] == pre[q + 6];
      } else {
        var k := q + 6 - |pre|;
        assert s[q + 6] == rest[k];
        assert rest[..7][k] == "states."[k];
      }
    }
    assert s[q..q + 7][6] == s[q + 6];
  }

  /** `states.x.y` preceded by text without a dot is found, when `y` is not
      followed by another word character. */
  lemma DottedFound(pre: string, x: string, y: string, post: string)
    requires '.' !in pre && IsIdent(x) && IsIdent(y)
    requires post == [] || !IsWordChar(post[0])
    ensures x + "." + y in FindAll(Dotted, pre + "states." + x + "." + y + post, 0)
  {
    var w := "states." + x + "." + y;
    var rest := w + post;
    var s := pre + rest;
    assert s == pre + "states." + x + "." + y + post;
    assert StartsWith(rest, "states.") by {
      assert rest[..7] == "states.";
    }
    forall q | 0 <= q < |pre| ensures MatchAt(Dotted, s, q).None? {
      DottedNoEarlierMatch(pre, rest, q);
    }
    assert s[|pre|..|pre| + |w|] == w;
    if post != [] {
      assert s[|pre| + |w|] == post[0];
    }
    DottedMatchIff(s, |pre|, x, y);
    FindAllLeftmost(Dotted, s, 0, |pre|);
  }

  // ----- a scan that passes through a position -----

  /** The scan of `findall` from `p` reaches position `r`: it resumes there
      after stepping over positions without a match and over whole matches. */
  ghost predicate Lands(f: Form, s: string, p: nat, r: nat)
    requires p <= |s|
    decreases |s| - p
  {
    p == r || (p < r && p < |s| && match MatchAt(f, s, p)
      case Some(m) => Lands(f, s, m.end, r)
      case None => Lands(f, s, p + 1, r))
  }

  /** What the scan finds after a position it reaches is part of what it
      finds from its start. */
  lemma {:induction false} LandsKeepsLater(f: Form, s: string, p: nat, r: nat)
    requires p <= |s| && Lands(f, s, p, r)
    ensures r <= |s|
    ensures forall c :: c in FindAll(f, s, r) ==> c in FindAll(f, s, p)
    decreases |s| - p
  {
    if p != r {
      match MatchAt(f, s, p)
      case Some(m) => LandsKeepsLater(f, s, m.end, r);
      case None => LandsKeepsLater(f, s, p + 1, r);
    }
  }

  lemma {:induction false} LandsTrans(f: Form, s: string, p: nat, r: nat, t: nat)
    requires p <= r <= |s| && Lands(f, s, p, r) && Lands(f, s, r, t)
    ensures Lands(f, s, p, t)
    decreases |s| - p
  {
    if p != r {
      match MatchAt(f, s, p)
      case Some(m) => LandsTrans(f, s, m.end, r, t);
      case None => LandsTrans(f, s, p + 1, r, t);
    }
  }

  /** Positions without a match are stepped over. */
  lemma {:induction false} LandsOverGap(f: Form, s: string, p: nat, r: nat)
    requires p <= r <= |s|
    requires forall q :: p <= q < r ==> MatchAt(f, s, q).None?
    ensures Lands(f, s, p, r)
    decreases r - p
  {
    if p < r {
      LandsOverGap(f, s, p + 1, r);
    }
  }

  // ----- a run of quoted calls -----

  /** Text between calls followed by a call's token: `gap` then
      `Opener(f) + token + Closer(f)`. */
  function Call(f: Form, item: (string, string)): string
    requires f.Quoted?
  {
    item.0 + Opener(f) + item.1 + Closer(f)
  }

  /** The calls of `items` one after another. */
  function Chain(f: Form, items: seq<(string, string)>): string
    requires f.Quoted?
    decreases |items|
  {
    if items == [] then [] else Call(f, items[0]) + Chain(f, items[1..])
  }

  /** The calls of `items` stand one after another in `s` from `p`. */
  ghost predicate CallsFrom(f: Form, s: string, p: nat, items: seq<(string, string)>)
    requires f.Quoted?
    decreases |items|
  {
    items == [] || (OccursAt(s, Call(f, items[0]), p) && CallsFrom(f, s, p + |Call(f, items[0])|, items[1..]))
  }

  /** Neither the text between calls nor a token holds the form's quote, and
      every token is non-empty. */
  predicate PlainCalls(f: Form, items: seq<(string, string)>)
    requires f.Quoted?
  {
    forall k :: 0 <= k < |items| ==> f.quote !in items[k].0 && f.quote !in items[k].1 && items[k].1 != []
  }

  /** No quoted match starts in quote-free text that an opener follows. */
  lemma QuotedNoMatchBefore(f: Form, s: string, i: nat, j: nat, q: nat)
    requires f.Quoted? && f.quote !in f.name && i <= q < j
    requires OccursAt(s, Opener(f), j)
    requires forall k :: i <= k < j ==> s[k] != f.quote
    ensures MatchAt(f, s, q).None?
  {
    var o := Opener(f);
    var k := q + |o| - 1;
    assert o[|o| - 1] == f.quote;
    if k < |s| {
      assert s[k] != f.quote by {
        if k >= j {
          assert s[k] == s[j..j + |o|][k - j];
          assert o[k - j] == f.name[k - j];
        }
      }
      assert q + |o| <= |s| ==> s[q..q + |o|][|o| - 1] == s[k];
    }
  }

  /** Over one call at `i`: the scan reaches its opener at `j` and matches
      there with its token as the group. */
  lemma CallLands(f: Form, s: string, i: nat, item: (string, string)) returns (j: nat)
    requires f.Quoted? && f.quote !in f.name
    requires f.quote !in item.0 && f.quote !in item.1 && item.1 != []
    requires OccursAt(s, Call(f, item), i)
    ensures j == i + |item.0| && i <= j < |s|
    ensures Lands(f, s, i, j) && MatchAt(f, s, j) == Some(Match(item.1, i + |Call(f, item)|))
  {
    var gap, c := item.0, item.1;
    var w := Opener(f) + c + Closer(f);
    var whole := Call(f, item);
    assert whole == gap + w;
    j := i + |gap|;
    assert s[j..j + |w|] == w by {
      assert s[j..j + |w|] == s[i..i + |whole|][|gap|..];
    }
    assert OccursAt(s, Opener(f), j) by {
      assert s[j..j + |Opener(f)|] == s[j..j + |w|][..|Opener(f)|];
    }
    forall k | i <= k < j ensures s[k] != f.quote {
      assert s[k] == s[i..i + |whole|][k - i] == gap[k - i];
    }
    forall q | i <= q < j ensures MatchAt(f, s, q).None? {
      QuotedNoMatchBefore(f, s, i, j, q);
    }
    LandsOverGap(f, s, i, j);
    QuotedMatchIff(f, s, j, c);
  }

  /** The run of calls as text at `p` is the calls standing one after
      another from `p`. */
  lemma {:induction false} ChainCalls(f: Form, items: seq<(string, string)>, s: string, p: nat)
    requires f.Quoted? && OccursAt(s, Chain(f, items), p)
    ensures CallsFrom(f, s, p, items)
    decreases |items|
  {
    if items != [] {
      var c, rest := Call(f, items[0]), Chain(f, items[1..]);
      assert s[p..p + |c|] == s[p..p + |c| + |rest|][..|c|];
      assert s[p + |c|..p + |c| + |rest|] == s[p..p + |c| + |rest|][|c|..];
      ChainCalls(f, items[1..], s, p + |c|);
    }
  }

  /** The scan from the start of a run of plain calls finds every token of
      it. */
  lemma {:induction false} ChainFound(f: Form, items: seq<(string, string)>, s: string, p: nat)
    requires f.Quoted? && f.quote !in f.name && PlainCalls(f, items) && p <= |s|
    requires CallsFrom(f, s, p, items)
    ensures forall k :: 0 <= k < |items| ==> items[k].1 in FindAll(f, s, p)
    decreases |items|
  {
    if items != [] {
      var first := items[0];
      assert f.quote !in first.0 && f.quote !in first.1 && first.1 != [];
      var e := p + |Call(f, first)|;
      var j := OverCall(f, s, p, first);
      LandsTrans(f, s, p, j, e);
      LandsKeepsLater(f, s, p, j);
      LandsKeepsLater(f, s, p, e);
      assert PlainCalls(f, items[1..]) by {
        assert forall k :: 0 <= k < |items| - 1 ==> items[1..][k] == items[k + 1];
      }
      ChainFound(f, items[1..], s, e);
      forall k | 0 <= k < |items| ensures items[k].1 in FindAll(f, s, p) {
        if k > 0 {
          assert items[k] == items[1..][k - 1];
        }
      }
    }
  }

  /** The scan at a match goes over it and finds its group. */
  lemma MatchLands(f: Form, s: string, j: nat)
    requires j < |s| && MatchAt(f, s, j).Some?
    ensures Lands(f, s, j, MatchAt(f, s, j).value.end)
    ensures MatchAt(f, s, j).value.capture in FindAll(f, s, j)
  {
  }

  /** Over one plain call from `i`: the scan reaches the end of the call and
      finds its token on the way, at `j`. */
  lemma OverCall(f: Form, s: string, i: nat, item: (string, string)) returns (j: nat)
    requires f.Quoted? && f.quote !in f.name && i <= |s|
    requires f.quote !in item.0 && f.quote !in item.1 && item.1 != []
    requires OccursAt(s, Call(f, item), i)
    ensures i <= j <= i + |Call(f, item)| <= |s|
    ensures Lands(f, s, i, j) && Lands(f, s, j, i + |Call(f, item)|) && item.1 in FindAll(f, s, j)
  {
    j := CallLands(f, s, i, item);
    MatchLands(f, s, j);
  }

  // ----- consequences -----

  /** Segments are not checked: `states('.')` yields the token ".". */
  lemma EmptySegmentsAccepted(pre: string, post: string)
    requires '\'' !in pre
    ensures "." in Extract(pre + "states('" + "." + "')" + post)
  {
    var f := Forms[0];
    assert Opener(f) == "states('" && Closer(f) == "')";
    QuotedFound(f, pre, ".", post);
    assert CountChar(".", '.') == 1;
    ExtractIff(pre + "states('" + "." + "')" + post, ".");
  }

  /** A quoted call names its token when nothing before it uses the same quote
      character and the token has one dot: `states('sensor.temperature')`,
      `is_state('binary_sensor.motion', 'on')`, `state_attr("climate.thermostat", ...)`. */
  lemma QuotedCallNamesEntity(f: Form, pre: string, c: string, post: string)
    requires f in Forms && f.Quoted?
    requires f.quote !in pre && f.quote !in c && CountChar(c, '.') == 1
    ensures c in Extract(pre + Opener(f) + c + Closer(f) + post)
  {
    var t := pre + Opener(f) + c + Closer(f) + post;
    assert c != [];
    QuotedFound(f, pre, c, post);
    ExtractIff(t, c);
  }

  /** `states.domain.object` names `domain.object` when nothing before it has a
      dot: `{{ states.sensor.temperature.state }}` names `sensor.temperature`. */
  lemma DottedNamesEntity(pre: string, x: string, y: string, post: string)
    requires '.' !in pre && IsIdent(x) && IsIdent(y)
    requires post == [] || !IsWordChar(post[0])
    ensures x + "." + y in Extract(pre + "states." + x + "." + y + post)
  {
    var t := pre + "states." + x + "." + y + post;
    DottedFound(pre, x, y, post);
    var s := t;
    var p :| 0 <= p <= |s| && MatchAt(Dotted, s, p).Some? && MatchAt(Dotted, s, p).value.capture == x + "." + y
      by { FindAllSound(Dotted, s, 0, x + "." + y); }
    DottedCaptureShaped(s, p);
    ExtractIff(t, x + "." + y);
  }

  /** Every one-dot token of a run of plain calls of one form is extracted,
      whatever follows the run: `{{ states('sensor.a') + states('sensor.b') }}`
      names both `sensor.a` and `sensor.b`. */
  lemma CallsNameEntities(f: Form, items: seq<(string, string)>, post: string)
    requires f in Forms && f.Quoted? && PlainCalls(f, items)
    ensures forall k :: 0 <= k < |items| && CountChar(items[k].1, '.') == 1 ==>
      items[k].1 in Extract(Chain(f, items) + post)
  {
    var t := Chain(f, items) + post;
    assert t[0..|Chain(f, items)|] == Chain(f, items);
    QuoteNotInName(f);
    ChainCalls(f, items, t, 0);
    ChainFound(f, items, t, 0);
    forall k | 0 <= k < |items| && CountChar(items[k].1, '.') == 1 ensures items[k].1 in Extract(t) {
      ExtractIff(t, items[k].1);
    }
  }

  /** The common case, two calls of one form in a template such as
      `{{ states('sensor.a') + states('sensor.b') }}`: both one-dot tokens are
      extracted. */
  lemma TwoCallsNamed(f: Form, pre: string, a: string, mid: string, b: string, post: string)
    requires f in Forms && f.Quoted?
    requires f.quote !in pre && f.quote !in a && f.quote !in mid && f.quote !in b
    requires CountChar(a, '.') == 1 && CountChar(b, '.') == 1
    ensures a in Extract(pre + Opener(f) + a + Closer(f) + mid + Opener(f) + b + Closer(f) + post)
    ensures b in Extract(pre + Opener(f) + a + Closer(f) + mid + Opener(f) + b + Closer(f) + post)
  {
    var items := [(pre, a), (mid, b)];
    assert a != [] && b != [];
    TwoChain(f, pre, a, mid, b);
    assert Chain(f, items) + post == pre + Opener(f) + a + Closer(f) + mid + Opener(f) + b + Closer(f) + post;
    CallsNameEntities(f, items, post);
    assert items[0].1 == a && items[1].1 == b;
  }

  lemma TwoChain(f: Form, pre: string, a: string, mid: string, b: string)
    requires f.Quoted?
    ensures Chain(f, [(pre, a), (mid, b)]) == pre + Opener(f) + a + Closer(f) + mid + Opener(f) + b + Closer(f)
  {
    var items := [(pre, a), (mid, b)];
    assert items[1..][1..] == [];
    assert Chain(f, items[1..]) == mid + Opener(f) + b + Closer(f);
  }
}
