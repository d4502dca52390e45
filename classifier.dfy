/** The string predicates that decide whether a value found under an entity key
    is a candidate entity id at all. */
module Classifier {
  import opened Text

  predicate IsLowerHex(c: char) {
    ('0' <= c <= '9') || ('a' <= c <= 'f')
  }

  predicate AllLowerHex(s: string) {
    forall k :: 0 <= k < |s| ==> IsLowerHex(s[k])
  }

  /** `re.match(r"^[a-f0-9]{32}$", value)`: 32 lower-case hex digits; since `$`
      also matches just before a final newline, a trailing "\n" is accepted. */
  predicate IsUuidFormat(s: string) {
    (|s| == 32 && AllLowerHex(s))
    || (|s| == 33 && AllLowerHex(s[..32]) && s[32] == '\n')
  }

  /** A `{{` at `i` closed by a `}}` at `j` on the same line. */
  predicate TemplateAt(s: string, i: int, j: int) {
    && 0 <= i && i + 2 <= j && j + 2 <= |s|
    && s[i] == '{' && s[i + 1] == '{' && s[j] == '}' && s[j + 1] == '}'
    && forall m :: i + 2 <= m < j ==> s[m] != '\n'
  }

  /** What `re.search(r"\{\{.*?\}\}", value)` finds: some opening `{{` with a
      later `}}` and no line break between them. */
  ghost predicate HasTemplate(s: string) {
    exists i, j :: TemplateAt(s, i, j)
  }

  /** The lazy `.*?\}\}` part: a `}}` at or after `m` before the next newline. */
  predicate ClosesOnLine(s: string, m: nat)
    decreases |s| - m
  {
    if m + 1 >= |s| then false
    else if s[m] == '}' && s[m + 1] == '}' then true
    else if s[m] == '\n' then false
    else ClosesOnLine(s, m + 1)
  }

  /** Search from position `k`: try each start, as the regular-expression engine does. */
  predicate TemplateFrom(s: string, k: nat)
    decreases |s| - k
  {
    if k + 1 >= |s| then false
    else if s[k] == '{' && s[k + 1] == '{' && ClosesOnLine(s, k + 2) then true
    else TemplateFrom(s, k + 1)
  }

  /** `is_template`. */
  predicate IsTemplate(s: string) {
    TemplateFrom(s, 0)
  }

  lemma {:induction false} ClosesOnLineIff(s: string, i: nat, m: nat)
    requires i + 2 <= m <= |s|
    requires && s[i] == '{' && s[i + 1] == '{'
    requires forall q :: i + 2 <= q < m ==> s[q] != '\n'
    ensures ClosesOnLine(s, m) <==> exists j :: j >= m && TemplateAt(s, i, j)
    decreases |s| - m
  {
    if m + 1 >= |s| {
      assert forall j :: j >= m ==> !TemplateAt(s, i, j);
    } else if s[m] == '}' && s[m + 1] == '}' {
      assert TemplateAt(s, i, m);
    } else if s[m] == '\n' {
      assert forall j :: j >= m ==> !TemplateAt(s, i, j);
    } else {
      ClosesOnLineIff(s, i, m + 1);
      forall j | j >= m && TemplateAt(s, i, j) ensures j >= m + 1 {
      }
    }
  }

  lemma {:induction false} TemplateFromIff(s: string, k: nat)
    ensures TemplateFrom(s, k) <==> exists i, j :: i >= k && TemplateAt(s, i, j)
    decreases |s| - k
  {
    if k + 1 >= |s| {
      assert forall i, j :: i >= k ==> !TemplateAt(s, i, j);
    } else {
      TemplateFromIff(s, k + 1);
      if s[k] == '{' && s[k + 1] == '{' {
        ClosesOnLineIff(s, k, k + 2);
      } else {
        forall i, j | i >= k && TemplateAt(s, i, j) ensures i >= k + 1 {
        }
      }
      forall i, j | i >= k && TemplateAt(s, i, j) && i == k ensures ClosesOnLine(s, k + 2) {
        ClosesOnLineIff(s, k, k + 2);
      }
    }
  }

  /** The hand-written search finds exactly what the regular expression finds. */
  lemma IsTemplateIff(s: string)
    ensures IsTemplate(s) <==> HasTemplate(s)
  {
    TemplateFromIff(s, 0);
  }

  /** `SPECIAL_KEYWORDS`. */
  predicate IsSpecialKeyword(s: string) {
    s == "all" || s == "none"
  }

  /** `should_skip_entity_validation`: tags such as `!input`, UUID-form values,
      templates and the keywords `all` and `none` are not entity ids. */
  predicate ShouldSkip(s: string) {
    StartsWith(s, "!") || IsUuidFormat(s) || IsTemplate(s) || IsSpecialKeyword(s)
  }

  /** The skip rule in full, with the template test stated as the regular
      expression's meaning. */
  lemma ShouldSkipIff(s: string)
    ensures ShouldSkip(s) <==>
      (|s| > 0 && s[0] == '!')
      || (|s| == 32 && AllLowerHex(s))
      || (|s| == 33 && AllLowerHex(s[..32]) && s[32] == '\n')
      || HasTemplate(s)
      || s == "all" || s == "none"
  {
    IsTemplateIff(s);
    if |s| > 0 && s[0] == '!' {
      assert s[..1] == "!";
    }
  }

  /** A string with no line break closes a template wherever a `}}` follows `{{`. */
  lemma OneLineTemplate(pre: string, body: string, post: string)
    requires '\n' !in body
    ensures IsTemplate(pre + "{{" + body + "}}" + post)
  {
    var s := pre + "{{" + body + "}}" + post;
    var i := |pre|;
    var j := |pre| + 2 + |body|;
    assert s[i] == '{' && s[i + 1] == '{' && s[j] == '}' && s[j + 1] == '}';
    forall m | i + 2 <= m < j ensures s[m] != '\n' {
      assert s[m] == body[m - i - 2];
    }
    assert TemplateAt(s, i, j);
    IsTemplateIff(s);
  }

  /** A string without two consecutive opening braces is never a template; so
      neither `{% ... %}` nor `{ x }` counts. */
  lemma NoDoubleBraceNoTemplate(s: string)
    requires forall k :: 0 <= k < |s| - 1 ==> !(s[k] == '{' && s[k + 1] == '{')
    ensures !IsTemplate(s)
  {
    IsTemplateIff(s);
  }
}
