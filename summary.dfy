/** `get_entity_summary`: the entities of the registry grouped by domain, with
    their numbers of enabled and disabled entities and up to three examples. */
module EntitySummary {
  import opened Text
  import opened PyDict
  import opened Registry

  datatype DomainSummary = DomainSummary(count: nat, enabled: nat, disabled: nat, examples: seq<string>)

  /** `entity_id.split(".")[0]`. */
  function Domain(entityId: string): string {
    entityId[..IndexOf(entityId, '.', 0)]
  }

  /** The summary after one more entity. */
  function Count(s: DomainSummary, entityId: string, r: EntityRecord): DomainSummary {
    DomainSummary(
      s.count + 1,
      s.enabled + (if r.disabledBy.None? then 1 else 0),
      s.disabled + (if r.disabledBy.Some? then 1 else 0),
      if |s.examples| < 3 then s.examples + [entityId] else s.examples)
  }

  const NoEntities := DomainSummary(0, 0, 0, [])

  /** The summary of the first `|d|` registry entries, in registry order. */
  function SummaryOf(d: Dict<EntityRecord>): Dict<DomainSummary>
    decreases |d|
  {
    if d == [] then []
    else
      var prev := SummaryOf(d[..|d| - 1]);
      var e := d[|d| - 1];
      var dom := Domain(e.0);
      var s := if HasKey(prev, dom) then PyDict.Get(prev, dom) else NoEntities;
      Insert(prev, dom, Count(s, e.0, e.1))
  }

  // ----- an independent description -----

  /** The entity ids of domain `dom`, in registry order. */
  function IdsIn(d: Dict<EntityRecord>, dom: string): (ids: seq<string>)
    ensures forall x :: x in ids ==> Domain(x) == dom
    decreases |d|
  {
    if d == [] then []
    else
      var e := d[|d| - 1];
      IdsIn(d[..|d| - 1], dom) + (if Domain(e.0) == dom then [e.0] else [])
  }

  /** How many entities of domain `dom` have (`disabled`) or lack a `disabled_by`. */
  function CountIn(d: Dict<EntityRecord>, dom: string, disabled: bool): nat
    decreases |d|
  {
    if d == [] then 0
    else
      var e := d[|d| - 1];
      CountIn(d[..|d| - 1], dom, disabled) + (if Domain(e.0) == dom && e.1.disabledBy.Some? == disabled then 1 else 0)
  }

  function Take3(xs: seq<string>): seq<string> {
    if |xs| <= 3 then xs else xs[..3]
  }

  /** What the summary says of domain `dom`. */
  function Expected(d: Dict<EntityRecord>, dom: string): DomainSummary {
    DomainSummary(|IdsIn(d, dom)|, CountIn(d, dom, false), CountIn(d, dom, true), Take3(IdsIn(d, dom)))
  }

  lemma CountsAddUp(d: Dict<EntityRecord>, dom: string)
    ensures CountIn(d, dom, false) + CountIn(d, dom, true) == |IdsIn(d, dom)|
    decreases |d|
  {
    if d != [] {
      CountsAddUp(d[..|d| - 1], dom);
    }
  }

  /** One more entity of domain `dom` updates the expected summary as `Count` does. */
  lemma ExpectedStep(d: Dict<EntityRecord>, dom: string)
    requires d != [] && Domain(d[|d| - 1].0) == dom
    ensures Expected(d, dom) == Count(Expected(d[..|d| - 1], dom), d[|d| - 1].0, d[|d| - 1].1)
  {
    var ids := IdsIn(d[..|d| - 1], dom);
    var x := d[|d| - 1].0;
    assert IdsIn(d, dom) == ids + [x];
    if |ids| >= 3 {
      assert (ids + [x])[..3] == ids[..3];
    }
  }

  /** An entity of another domain leaves the expected summary of `dom` alone. */
  lemma ExpectedOther(d: Dict<EntityRecord>, dom: string)
    requires d != [] && Domain(d[|d| - 1].0) != dom
    ensures Expected(d, dom) == Expected(d[..|d| - 1], dom)
    ensures IdsIn(d, dom) == IdsIn(d[..|d| - 1], dom)
  {
  }

  predicate Describes(d: Dict<EntityRecord>, dom: string) {
    && (HasKey(SummaryOf(d), dom) <==> IdsIn(d, dom) != [])
    && (HasKey(SummaryOf(d), dom) ==> PyDict.Get(SummaryOf(d), dom) == Expected(d, dom))
  }

  lemma SameDomainStep(d: Dict<EntityRecord>, dom: string)
    requires d != [] && Domain(d[|d| - 1].0) == dom
    requires Describes(d[..|d| - 1], dom)
    ensures Describes(d, dom)
  {
    var init := d[..|d| - 1];
    var e := d[|d| - 1];
    var prev := SummaryOf(init);
    var s := if HasKey(prev, dom) then PyDict.Get(prev, dom) else NoEntities;
    assert SummaryOf(d) == Insert(prev, dom, Count(s, e.0, e.1));
    ExpectedStep(d, dom);
    CountsAddUp(init, dom);
    assert s == Expected(init, dom);
    assert IdsIn(d, dom) == IdsIn(init, dom) + [e.0];
  }

  lemma OtherDomainStep(d: Dict<EntityRecord>, dom: string)
    requires d != [] && Domain(d[|d| - 1].0) != dom
    requires Describes(d[..|d| - 1], dom)
    ensures Describes(d, dom)
  {
    var init := d[..|d| - 1];
    var e := d[|d| - 1];
    var prev := SummaryOf(init);
    var s := if HasKey(prev, Domain(e.0)) then PyDict.Get(prev, Domain(e.0)) else NoEntities;
    assert SummaryOf(d) == Insert(prev, Domain(e.0), Count(s, e.0, e.1));
    ExpectedOther(d, dom);
    if HasKey(prev, dom) {
      SummaryValid(init);
      InsertOther(prev, Domain(e.0), Count(s, e.0, e.1), dom);
    }
  }

  /** The summary has an entry exactly for the domains that have entities, and
      each entry counts that domain's entities, enabled and disabled, and lists
      its first three entity ids. */
  lemma {:induction false} SummaryCorrect(d: Dict<EntityRecord>, dom: string)
    ensures HasKey(SummaryOf(d), dom) <==> IdsIn(d, dom) != []
    ensures HasKey(SummaryOf(d), dom) ==> PyDict.Get(SummaryOf(d), dom) == Expected(d, dom)
    decreases |d|
  {
    if d != [] {
      SummaryCorrect(d[..|d| - 1], dom);
      if Domain(d[|d| - 1].0) == dom {
        SameDomainStep(d, dom);
      } else {
        OtherDomainStep(d, dom);
      }
    }
  }

  lemma {:induction false} SummaryValid(d: Dict<EntityRecord>)
    ensures Valid(SummaryOf(d))
    decreases |d|
  {
    if d != [] {
      SummaryValid(d[..|d| - 1]);
    }
  }

  lemma SummaryStep(d: Dict<EntityRecord>, i: nat)
    requires i < |d|
    ensures
      var prev := SummaryOf(d[..i]);
      var dom := Domain(d[i].0);
      SummaryOf(d[..i + 1])
        == Insert(prev, dom, Count(if HasKey(prev, dom) then PyDict.Get(prev, dom) else NoEntities, d[i].0, d[i].1))
  {
    assert d[..i + 1][..i] == d[..i];
    assert d[..i + 1][i] == d[i];
  }

  method Tally(s0: DomainSummary, entityId: string, record: EntityRecord) returns (s: DomainSummary)
    ensures s == Count(s0, entityId, record)
  {
    s := s0.(count := s0.count + 1);
    if record.disabledBy.None? {
      s := s.(enabled := s.enabled + 1);
    } else {
      s := s.(disabled := s.disabled + 1);
    }
    if |s.examples| < 3 {
      s := s.(examples := s.examples + [entityId]);
    }
  }

  /** The loop of `get_entity_summary` over the registry entries. */
  method Summarize(d: Dict<EntityRecord>) returns (summary: Dict<DomainSummary>)
    ensures summary == SummaryOf(d)
  {
    summary := [];
    for i := 0 to |d|
      invariant summary == SummaryOf(d[..i])
    {
      var entityId := d[i].0;
      var record := d[i].1;
      var dom := Domain(entityId);
      var s0 := if HasKey(summary, dom) then PyDict.Get(summary, dom) else NoEntities;
      var s := Tally(s0, entityId, record);
      SummaryStep(d, i);
      summary := Insert(summary, dom, s);
    }
    assert d[..|d|] == d;
  }
}
