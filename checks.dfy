/** What `validate_file_references` reports about one file, as values: the
    check each reference goes through, the findings of a loop over a set of
    references, and the errors, warnings and result of a whole file. */
module Checks {
  import opened Wrappers
  import opened Text
  import opened ConfigTree
  import opened PyDict
  import opened Files
  import opened Findings
  import opened Registry
  import opened Classifier
  import opened Extractor
  import opened Blueprints
  import Settings

  // ----- one reference -----

  /** The test one loop applies to each reference. */
  datatype Check =
    | EntityCheck(file: string, entities: Dict<EntityRecord>)
    | DisabledEntityCheck(file: string, entities: Dict<EntityRecord>)
    | RegistryIdCheck(file: string, mapping: Dict<string>)
    | DisabledRegistryIdCheck(file: string, mapping: Dict<string>, entities: Dict<EntityRecord>)
    | DeviceCheck(file: string, devices: Dict<IdRecord>)
    | AreaCheck(file: string, areas: Dict<IdRecord>)
    | ServiceCheck(file: string, builtin: set<string>, scripts: set<string>, scenes: set<string>)

  /** `e.split(".")[1]`, for an entity id that has a dot. */
  function SecondSegment(e: string): string {
    var parts := Split(e, '.');
    if |parts| >= 2 then parts[1] else ""
  }

  /** The object ids of the `script.` entities of the registry. */
  function Scripts(entities: Dict<EntityRecord>): set<string> {
    set e | e in Keys(entities) && StartsWith(e, "script.") :: SecondSegment(e)
  }

  /** The object ids of the `scene.` entities of the registry. */
  function Scenes(entities: Dict<EntityRecord>): set<string> {
    set e | e in Keys(entities) && StartsWith(e, "scene.") :: SecondSegment(e)
  }

  /** The warning `validate_service_calls` gives one service, if any. */
  function ServiceFinding(file: string, builtin: set<string>, scripts: set<string>, scenes: set<string>, x: string): seq<Finding> {
    if '.' !in x then [InvalidServiceFormat(file, x)]
    else
      CharCounted(x, '.');
      var (domain, action) := SplitOnce(x, '.');
      if domain in builtin then []
      else if domain == "script" then
        (if action !in scripts && action != "reload" then [UnknownScript(file, x, action)] else [])
      else if domain == "scene" then
        (if action !in scenes && action != "reload" && action != "apply" && action != "create"
         then [UnknownScene(file, x, action)] else [])
      else [CustomDomain(file, x, domain)]
  }

  /** An entity id that is neither UUID-shaped nor registered is unknown,
      unless it is among the disabled entities. */
  function EntityFinding(file: string, ents: Dict<EntityRecord>, x: string): seq<Finding> {
    if IsUuidFormat(x) || HasKey(ents, x) || HasKey(DisabledIndex(ents), x) then [] else [UnknownEntity(file, x)]
  }

  function DisabledEntityFinding(file: string, ents: Dict<EntityRecord>, x: string): seq<Finding> {
    if !IsUuidFormat(x) && !HasKey(ents, x) && HasKey(DisabledIndex(ents), x) then [DisabledEntity(file, x)] else []
  }

  function RegistryIdFinding(file: string, m: Dict<string>, x: string): seq<Finding> {
    if HasKey(m, x) then [] else [UnknownRegistryId(file, x)]
  }

  function DisabledRegistryIdFinding(file: string, m: Dict<string>, ents: Dict<EntityRecord>, x: string): seq<Finding> {
    if HasKey(m, x) && HasKey(ents, PyDict.Get(m, x)) && PyDict.Get(ents, PyDict.Get(m, x)).disabledBy.Some?
    then [DisabledRegistryEntity(file, x, PyDict.Get(m, x))] else []
  }

  function DeviceFinding(file: string, devs: Dict<IdRecord>, x: string): seq<Finding> {
    if HasKey(devs, x) then [] else [UnknownDevice(file, x)]
  }

  function AreaFinding(file: string, areas: Dict<IdRecord>, x: string): seq<Finding> {
    if HasKey(areas, x) then [] else [UnknownArea(file, x)]
  }

  /** What one reference adds to the list the loop appends to. */
  function Apply(c: Check, x: string): seq<Finding> {
    match c
    case EntityCheck(file, ents) => EntityFinding(file, ents, x)
    case DisabledEntityCheck(file, ents) => DisabledEntityFinding(file, ents, x)
    case RegistryIdCheck(file, m) => RegistryIdFinding(file, m, x)
    case DisabledRegistryIdCheck(file, m, ents) => DisabledRegistryIdFinding(file, m, ents, x)
    case DeviceCheck(file, devs) => DeviceFinding(file, devs, x)
    case AreaCheck(file, areas) => AreaFinding(file, areas, x)
    case ServiceCheck(file, builtin, scripts, scenes) => ServiceFinding(file, builtin, scripts, scenes, x)
  }

  /** The reference a finding is about. */
  function Subject(g: Finding): string {
    match g
    case UnknownEntity(_, x) => x
    case DisabledEntity(_, x) => x
    case UnknownRegistryId(_, x) => x
    case DisabledRegistryEntity(_, x, _) => x
    case UnknownDevice(_, x) => x
    case UnknownArea(_, x) => x
    case InvalidServiceFormat(_, x) => x
    case UnknownScript(_, x, _) => x
    case UnknownScene(_, x, _) => x
    case CustomDomain(_, x, _) => x
    case _ => ""
  }

  /** Every check yields at most one finding, about the reference checked. */
  lemma ApplyShape(c: Check, x: string)
    ensures |Apply(c, x)| <= 1
    ensures forall g :: g in Apply(c, x) ==> Subject(g) == x
  {
    ApplySubject(c, x);
  }

  lemma ApplySubject(c: Check, x: string)
    ensures |Apply(c, x)| <= 1 && (Apply(c, x) != [] ==> Subject(Apply(c, x)[0]) == x)
  {
    match c
    case EntityCheck(file, ents) =>
    case DisabledEntityCheck(file, ents) =>
    case RegistryIdCheck(file, m) =>
    case DisabledRegistryIdCheck(file, m, ents) =>
    case DeviceCheck(file, devs) =>
    case AreaCheck(file, areas) =>
    case ServiceCheck(file, builtin, scripts, scenes) => ServiceSubject(file, builtin, scripts, scenes, x);
  }

  lemma ServiceSubject(file: string, builtin: set<string>, scripts: set<string>, scenes: set<string>, x: string)
    ensures var r := ServiceFinding(file, builtin, scripts, scenes, x); |r| <= 1 && (r != [] ==> Subject(r[0]) == x)
  {
  }

  // ----- a loop over a set of references -----

  /** The findings of a loop that handles the references `xs` in turn. */
  function Collect(xs: seq<string>, c: Check): (r: seq<Finding>)
    ensures xs == [] ==> r == []
    decreases |xs|
  {
    if xs == [] then [] else Collect(xs[..|xs| - 1], c) + Apply(c, xs[|xs| - 1])
  }

  /** Handling one more reference appends its findings. */
  lemma CollectStep(xs: seq<string>, i: nat, c: Check)
    requires i < |xs|
    ensures Collect(xs[..i + 1], c) == Collect(xs[..i], c) + Apply(c, xs[i])
  {
    assert xs[..i + 1][..i] == xs[..i];
  }

  /** The same, after the findings already in a list. */
  lemma CollectAfter(prefix: seq<Finding>, xs: seq<string>, i: nat, c: Check)
    requires i < |xs|
    ensures prefix + Collect(xs[..i + 1], c) == prefix + Collect(xs[..i], c) + Apply(c, xs[i])
  {
    CollectStep(xs, i, c);
  }

  /** A finding is collected exactly when some reference yields it. */
  lemma {:induction false} CollectMember(xs: seq<string>, c: Check, g: Finding)
    ensures g in Collect(xs, c) <==> exists x :: x in xs && g in Apply(c, x)
    decreases |xs|
  {
    if xs != [] {
      var init := xs[..|xs| - 1];
      CollectMember(init, c, g);
      assert forall x :: x in xs <==> x in init || x == xs[|xs| - 1];
    }
  }

  /** A loop adds nothing exactly when every reference passes. */
  lemma CollectEmpty(xs: seq<string>, c: Check)
    ensures Collect(xs, c) == [] <==> forall x :: x in xs ==> Apply(c, x) == []
  {
    if Collect(xs, c) == [] {
      forall x | x in xs ensures Apply(c, x) == [] {
        if Apply(c, x) != [] {
          CollectMember(xs, c, Apply(c, x)[0]);
        }
      }
    } else {
      CollectMember(xs, c, Collect(xs, c)[0]);
    }
  }

  /** Over distinct references, each finding is collected as often as its own
      reference yields it: once or not at all. */
  lemma {:induction false} CollectCount(xs: seq<string>, c: Check, g: Finding)
    requires Distinct(xs)
    ensures multiset(Collect(xs, c))[g] == (if Subject(g) in xs then multiset(Apply(c, Subject(g)))[g] else 0)
    decreases |xs|
  {
    if xs != [] {
      var init := xs[..|xs| - 1];
      var last := xs[|xs| - 1];
      assert forall y :: y in xs <==> y in init || y == last;
      assert Distinct(init);
      CollectCount(init, c, g);
      ApplyShape(c, last);
      if last == Subject(g) {
        assert Subject(g) !in init by {
          forall i | 0 <= i < |init| ensures init[i] != last {
            assert init[i] == xs[i];
          }
        }
      }
    }
  }

  // ----- the loops of validate_file_references -----

  /** Each entity reference that is missing from the registry is reported once
      as unknown, and nothing else is reported: a registered entity, disabled or
      not, gives no finding. */
  lemma EachUnknownEntityOnce(file: string, order: seq<string>, ents: Dict<EntityRecord>, e: string)
    requires Distinct(order) && KeyedByEntityId(ents)
    ensures multiset(Collect(order, EntityCheck(file, ents)))[UnknownEntity(file, e)]
         == (if e in order && !IsUuidFormat(e) && !HasKey(ents, e) then 1 else 0)
    ensures forall g :: g in Collect(order, EntityCheck(file, ents)) ==>
      g.UnknownEntity? && g == UnknownEntity(file, g.entityId) && g.entityId in order && !HasKey(ents, g.entityId)
  {
    CollectCount(order, EntityCheck(file, ents), UnknownEntity(file, e));
    DisabledIsSubIndex(ents, e);
    forall g | g in Collect(order, EntityCheck(file, ents))
      ensures g.UnknownEntity? && g == UnknownEntity(file, g.entityId) && g.entityId in order && !HasKey(ents, g.entityId)
    {
      CollectMember(order, EntityCheck(file, ents), g);
    }
  }

  /** The "references disabled entity" warning is never given. */
  lemma NoDisabledEntityWarning(file: string, order: seq<string>, ents: Dict<EntityRecord>)
    requires KeyedByEntityId(ents)
    ensures Collect(order, DisabledEntityCheck(file, ents)) == []
  {
    forall x | x in order ensures Apply(DisabledEntityCheck(file, ents), x) == [] {
      DisabledIsSubIndex(ents, x);
    }
    CollectEmpty(order, DisabledEntityCheck(file, ents));
  }

  /** Each registry id missing from the id mapping is reported once. */
  lemma EachUnknownRegistryIdOnce(file: string, order: seq<string>, m: Dict<string>, x: string)
    requires Distinct(order)
    ensures multiset(Collect(order, RegistryIdCheck(file, m)))[UnknownRegistryId(file, x)]
         == (if x in order && !HasKey(m, x) then 1 else 0)
  {
    CollectCount(order, RegistryIdCheck(file, m), UnknownRegistryId(file, x));
  }

  /** A known registry id gives a warning exactly when its entity is disabled;
      the entity is always in the registry the mapping was built from. */
  lemma DisabledRegistryIdWarnings(file: string, order: seq<string>, ents: Dict<EntityRecord>, g: Finding)
    requires KeyedByEntityId(ents)
    ensures forall x :: HasKey(IdMapping(ents), x) ==> HasKey(ents, PyDict.Get(IdMapping(ents), x))
    ensures g in Collect(order, DisabledRegistryIdCheck(file, IdMapping(ents), ents)) <==>
      exists x :: x in order && HasKey(IdMapping(ents), x)
        && HasKey(ents, PyDict.Get(IdMapping(ents), x))
        && PyDict.Get(ents, PyDict.Get(IdMapping(ents), x)).disabledBy.Some?
        && g == DisabledRegistryEntity(file, x, PyDict.Get(IdMapping(ents), x))
  {
    CollectMember(order, DisabledRegistryIdCheck(file, IdMapping(ents), ents), g);
    forall x | HasKey(IdMapping(ents), x) ensures HasKey(ents, PyDict.Get(IdMapping(ents), x)) {
      MappedEntityPresent(ents, x);
    }
  }

  /** Each device reference missing from the device registry is reported once. */
  lemma EachUnknownDeviceOnce(file: string, order: seq<string>, devs: Dict<IdRecord>, x: string)
    requires Distinct(order)
    ensures multiset(Collect(order, DeviceCheck(file, devs)))[UnknownDevice(file, x)]
         == (if x in order && !HasKey(devs, x) then 1 else 0)
  {
    CollectCount(order, DeviceCheck(file, devs), UnknownDevice(file, x));
  }

  /** Each area reference missing from the area registry is reported once. */
  lemma EachUnknownAreaOnce(file: string, order: seq<string>, areas: Dict<IdRecord>, x: string)
    requires Distinct(order)
    ensures multiset(Collect(order, AreaCheck(file, areas)))[UnknownArea(file, x)]
         == (if x in order && !HasKey(areas, x) then 1 else 0)
  {
    CollectCount(order, AreaCheck(file, areas), UnknownArea(file, x));
  }

  // ----- services -----

  /** A service without a dot gets the format warning; one whose domain is
      builtin gets nothing; `script.` and `scene.` services are checked against
      the registry's scripts and scenes and their management services; any
      other domain gets the custom-integration warning. */
  lemma ServiceFindingCases(file: string, builtin: set<string>, scripts: set<string>, scenes: set<string>,
                            domain: string, action: string)
    requires '.' !in domain
    ensures
      var x := domain + "." + action;
      var r := ServiceFinding(file, builtin, scripts, scenes, x);
      && (domain in builtin ==> r == [])
      && (domain !in builtin && domain == "script" ==>
            (r != [] <==> action !in scripts && action != "reload"))
      && (domain !in builtin && domain == "scene" ==>
            (r != [] <==> action !in scenes && action !in {"reload", "apply", "create"}))
      && (domain !in builtin && domain != "script" && domain != "scene" ==> r == [CustomDomain(file, x, domain)])
  {
    var x := domain + "." + action;
    assert x[|domain|] == '.';
    CharCounted(x, '.');
    var p := SplitOnce(x, '.');
    UniqueSplit(domain, action, p.0, p.1);
  }

  /** Splitting at the first dot is unambiguous when the first part has no dot. */
  lemma UniqueSplit(a: string, b: string, a': string, b': string)
    requires '.' !in a
    requires a' + "." + b' == a + "." + b
    requires CountChar(a', '.') == 0
    ensures a' == a && b' == b
  {
    var s := a + "." + b;
    UncountedAbsent(a', '.');
    assert forall j :: 0 <= j < |a| ==> s[j] == a[j];
    assert forall j :: 0 <= j < |a'| ==> s[j] == a'[j];
    assert s[|a|] == '.' && s[|a'|] == '.';
    assert |a'| == |a|;
    assert a' == s[..|a'|] && a == s[..|a|];
    assert b' == s[|a'| + 1..] && b == s[|a| + 1..];
  }

  /** A service without a dot gets exactly the format warning. */
  lemma UndottedServiceWarned(file: string, builtin: set<string>, scripts: set<string>, scenes: set<string>, x: string)
    requires '.' !in x
    ensures ServiceFinding(file, builtin, scripts, scenes, x) == [InvalidServiceFormat(file, x)]
  {
  }

  /** With the default table, `script` and `scene` are builtin, so no service of
      either domain is ever checked against the registry. */
  lemma DefaultsSilenceScripts(file: string, scripts: set<string>, scenes: set<string>, action: string)
    ensures ServiceFinding(file, Settings.BuiltinServiceDomains(Settings.Defaults()), scripts, scenes, "script" + "." + action) == []
  {
    Settings.DefaultBuiltinValues();
    var b := Settings.BuiltinServiceDomains(Settings.Defaults());
    ServiceFindingCases(file, b, scripts, scenes, "script", action);
  }

  /** The same for scene services. */
  lemma DefaultsSilenceScenes(file: string, scripts: set<string>, scenes: set<string>, action: string)
    ensures ServiceFinding(file, Settings.BuiltinServiceDomains(Settings.Defaults()), scripts, scenes, "scene" + "." + action) == []
  {
    Settings.DefaultBuiltinValues();
    var b := Settings.BuiltinServiceDomains(Settings.Defaults());
    ServiceFindingCases(file, b, scripts, scenes, "scene", action);
  }

  // ----- registry loads -----

  predicate IsLoadFailure(g: Finding) {
    g.RegistryNotFound? || g.RegistryInvalidJson? || g.RegistryPermissionDenied? || g.RegistryLoadFailed?
  }

  /** What a `load_*_registry` call appends when the registry is not cached:
      one finding for each way reading it can fail, nothing when it loads. */
  function LoadFailure<R>(kind: RegistryKind, registryFile: string, src: Source<R>): (r: seq<Finding>)
    ensures |r| <= 1 && (r == [] <==> src.Present?)
    ensures forall g :: g in r ==> IsLoadFailure(g) && g.kind == kind
  {
    match src
    case Missing => [RegistryNotFound(kind, registryFile)]
    case InvalidJson(e) => [RegistryInvalidJson(kind, e)]
    case PermissionDenied => [RegistryPermissionDenied(kind)]
    case Failed(e) => [RegistryLoadFailed(kind, e)]
    case Present(_) => []
  }

  /** The dictionary a load returns: the index of the records, `{}` on failure. */
  function Loaded<R>(src: Source<R>, key: R -> string): (d: Dict<R>)
    ensures Valid(d)
    ensures !src.Present? ==> d == []
  {
    if src.Present? then Index(src.records, key) else []
  }

  // ----- one file -----

  /** What `validate_file_references` sees of the validator's state: the
      registries and the blueprint index as loaded (or empty when loading
      fails), the findings each load appends, and the builtin domains. */
  datatype Env = Env(
    entities: Dict<EntityRecord>, devices: Dict<IdRecord>, areas: Dict<IdRecord>, blueprints: Dict<Tree>,
    entityLoad: seq<Finding>, deviceLoad: seq<Finding>, areaLoad: seq<Finding>, builtin: set<string>)

  /** The order in which one run iterated each set of references. */
  datatype Trace = Trace(entityOrder: seq<string>, idOrder: seq<string>, deviceOrder: seq<string>,
                         areaOrder: seq<string>, serviceOrder: seq<string>)

  ghost predicate Fits(t: Trace, doc: Tree) {
    && Enumerates(t.entityOrder, EntityRefs(doc))
    && Enumerates(t.idOrder, RegistryIds(doc))
    && Enumerates(t.deviceOrder, DeviceRefs(doc))
    && Enumerates(t.areaOrder, AreaRefs(doc))
    && (ServiceCalls(doc) != {} ==> Enumerates(t.serviceOrder, ServiceCalls(doc)))
  }

  /** Whether a file, checked, is examined at all. */
  predicate Examined(f: YamlFile) {
    f.name != "secrets.yaml" && f.content.Parsed? && f.content.doc != Null
  }

  predicate IsAutomationsFile(name: string) {
    name == "automations.yaml" || name == "automations"
  }

  /** What the blueprint checks of a file give: whether one raised, and the
      findings appended up to that point. */
  datatype Run = Run(raised: bool, errors: seq<Finding>, warnings: seq<Finding>)

  /** What checking one list item gives: items that are not mappings are
      skipped. */
  function ItemOutcome(item: Tree, index: Dict<Tree>, file: string): Outcome<Verdict> {
    if item.Map? then CheckBlueprint(item.entries, index, file) else Returned(Pass)
  }

  /** A run that has not raised, followed by one more item. */
  function Extend(prev: Run, o: Outcome<Verdict>): Run {
    match o
    case Raised => Run(true, prev.errors, prev.warnings)
    case Returned(v) => Run(false, prev.errors + v.errors, prev.warnings + v.warnings)
  }

  /** `_validate_automations_blueprints` over the first `|items|` automations:
      mapping items are checked in order until one raises. */
  function ItemsRun(items: seq<Tree>, index: Dict<Tree>, file: string): (r: Run)
    decreases |items|
  {
    if items == [] then Run(false, [], [])
    else
      var prev := ItemsRun(items[..|items| - 1], index, file);
      if prev.raised then prev else Extend(prev, ItemOutcome(items[|items| - 1], index, file))
  }

  function AutomationsRun(doc: Tree, index: Dict<Tree>, file: string): Run {
    if doc.Seq? then ItemsRun(doc.items, index, file) else Run(false, [], [])
  }

  /** The blueprint checks a file goes through. */
  function BlueprintRun(f: YamlFile, env: Env): Run
    requires Examined(f)
  {
    if IsAutomationsFile(f.name) then AutomationsRun(f.content.doc, env.blueprints, f.path) else Run(false, [], [])
  }

  /** What the four registry lookups at the start of a file check append to
      the errors: the entity load, the device load and the entity load behind
      the registry-id mapping. */
  function LoadErrors(env: Env): seq<Finding> {
    env.entityLoad + env.deviceLoad + env.entityLoad
  }

  /** The errors of the entity, registry-id and device loops. */
  function RefErrors(file: string, t: Trace, ents: Dict<EntityRecord>, devs: Dict<IdRecord>): seq<Finding> {
    Collect(t.entityOrder, EntityCheck(file, ents))
    + Collect(t.idOrder, RegistryIdCheck(file, IdMapping(ents)))
    + Collect(t.deviceOrder, DeviceCheck(file, devs))
  }

  /** The warnings of the entity, registry-id and area loops. */
  function RefWarnings(file: string, t: Trace, ents: Dict<EntityRecord>, areas: Dict<IdRecord>): seq<Finding> {
    Collect(t.entityOrder, DisabledEntityCheck(file, ents))
    + Collect(t.idOrder, DisabledRegistryIdCheck(file, IdMapping(ents), ents))
    + Collect(t.areaOrder, AreaCheck(file, areas))
  }

  /** The service check runs only when the file calls a service; its own
      entity load is the only error it can append. */
  function ServiceErrors(doc: Tree, env: Env): seq<Finding> {
    if ServiceCalls(doc) != {} then env.entityLoad else []
  }

  function ServiceWarnings(doc: Tree, file: string, t: Trace, env: Env): seq<Finding> {
    if ServiceCalls(doc) != {} then
      Collect(t.serviceOrder, ServiceCheck(file, env.builtin, Scripts(env.entities), Scenes(env.entities)))
    else []
  }

  /** The errors a parsed document gets before its blueprint checks: the
      registry loads, the reference loops and the service check. */
  function DocumentErrors(file: string, doc: Tree, t: Trace, env: Env): seq<Finding> {
    LoadErrors(env) + RefErrors(file, t, env.entities, env.devices) + ServiceErrors(doc, env)
  }

  /** The warnings a parsed document gets before its blueprint checks. */
  function DocumentWarnings(file: string, doc: Tree, t: Trace, env: Env): seq<Finding> {
    env.areaLoad + RefWarnings(file, t, env.entities, env.areas) + ServiceWarnings(doc, file, t, env)
  }

  /** The errors checking the file appends. */
  function FileErrors(f: YamlFile, t: Trace, env: Env): seq<Finding> {
    if f.name == "secrets.yaml" then []
    else if !f.content.Parsed? then [YamlLoadFailed(f.path, f.content.detail)]
    else if f.content.doc == Null then []
    else DocumentErrors(f.path, f.content.doc, t, env) + BlueprintRun(f, env).errors
  }

  /** The warnings checking the file appends. */
  function FileWarnings(f: YamlFile, t: Trace, env: Env): seq<Finding> {
    if !Examined(f) then []
    else DocumentWarnings(f.path, f.content.doc, t, env) + BlueprintRun(f, env).warnings
  }

  /** Every entity reference is registered, every registry id is mapped, and
      every device reference is registered. */
  ghost predicate RefsOk(doc: Tree, ents: Dict<EntityRecord>, devs: Dict<IdRecord>) {
    && (forall e :: e in EntityRefs(doc) ==> HasKey(ents, e))
    && (forall x :: x in RegistryIds(doc) ==> HasKey(IdMapping(ents), x))
    && (forall d :: d in DeviceRefs(doc) ==> HasKey(devs, d))
  }

  /** What `validate_file_references` returns when it does not raise. It depends
      on the entity and device registries only: area, service and blueprint
      findings never make a file invalid. */
  ghost predicate FileVerdict(f: YamlFile, ents: Dict<EntityRecord>, devs: Dict<IdRecord>) {
    if f.name == "secrets.yaml" then true
    else if !f.content.Parsed? then false
    else if f.content.doc == Null then true
    else RefsOk(f.content.doc, ents, devs)
  }

  /** `validate_file_references` raises exactly when a blueprint check does. */
  predicate FileRaises(f: YamlFile, env: Env) {
    Examined(f) && BlueprintRun(f, env).raised
  }

  /** The three loops that can make a file invalid add no error exactly when
      every reference they check resolves. */
  lemma RefsOkIff(doc: Tree, t: Trace, file: string, ents: Dict<EntityRecord>, devs: Dict<IdRecord>)
    requires Enumerates(t.entityOrder, EntityRefs(doc)) && Enumerates(t.idOrder, RegistryIds(doc))
    requires Enumerates(t.deviceOrder, DeviceRefs(doc)) && KeyedByEntityId(ents)
    ensures RefsOk(doc, ents, devs) <==>
      && Collect(t.entityOrder, EntityCheck(file, ents)) == []
      && Collect(t.idOrder, RegistryIdCheck(file, IdMapping(ents))) == []
      && Collect(t.deviceOrder, DeviceCheck(file, devs)) == []
  {
    EntitiesOkIff(doc, t.entityOrder, file, ents);
    CollectEmpty(t.idOrder, RegistryIdCheck(file, IdMapping(ents)));
    CollectEmpty(t.deviceOrder, DeviceCheck(file, devs));
  }

  /** The entity loop adds no error exactly when every entity id resolves. */
  lemma EntitiesOkIff(doc: Tree, order: seq<string>, file: string, ents: Dict<EntityRecord>)
    requires Enumerates(order, EntityRefs(doc)) && KeyedByEntityId(ents)
    ensures (forall e :: e in EntityRefs(doc) ==> HasKey(ents, e)) <==> Collect(order, EntityCheck(file, ents)) == []
  {
    CollectEmpty(order, EntityCheck(file, ents));
    forall e | e in EntityRefs(doc) ensures Apply(EntityCheck(file, ents), e) == [] <==> HasKey(ents, e) {
      EntityRefsNotUuid(doc, e);
      DisabledIsSubIndex(ents, e);
    }
  }

  /** One more automation: how the run over `items[..i + 1]` extends the run
      over `items[..i]` when that one has not raised. */
  lemma ItemsRunStep(items: seq<Tree>, index: Dict<Tree>, file: string, i: nat)
    requires i < |items| && !ItemsRun(items[..i], index, file).raised
    ensures ItemsRun(items[..i + 1], index, file) == Extend(ItemsRun(items[..i], index, file), ItemOutcome(items[i], index, file))
  {
    assert items[..i + 1][..i] == items[..i];
  }

  /** The same, after the findings already in the lists. */
  lemma ItemsRunAfter(errors0: seq<Finding>, warnings0: seq<Finding>, items: seq<Tree>, index: Dict<Tree>, file: string, i: nat)
    requires i < |items| && !ItemsRun(items[..i], index, file).raised
    ensures
      var prev := ItemsRun(items[..i], index, file);
      var next := ItemsRun(items[..i + 1], index, file);
      match ItemOutcome(items[i], index, file)
      case Raised => next.raised && next.errors == prev.errors && next.warnings == prev.warnings
      case Returned(v) =>
        && !next.raised
        && errors0 + next.errors == errors0 + prev.errors + v.errors
        && warnings0 + next.warnings == warnings0 + prev.warnings + v.warnings
  {
    ItemsRunStep(items, index, file, i);
  }

  /** Once one automation raises, no later automation is checked. */
  lemma {:induction false} RaisedSticks(items: seq<Tree>, index: Dict<Tree>, file: string, i: nat)
    requires i <= |items| && ItemsRun(items[..i], index, file).raised
    ensures ItemsRun(items, index, file) == ItemsRun(items[..i], index, file)
    decreases |items| - i
  {
    if i < |items| {
      assert items[..i + 1][..i] == items[..i];
      RaisedSticks(items, index, file, i + 1);
    } else {
      assert items[..i] == items;
    }
  }

  /** Blueprint checks append only missing-input errors, and only missing-path
      and unknown-input warnings. */
  lemma {:induction false} ItemsRunFindings(items: seq<Tree>, index: Dict<Tree>, file: string)
    ensures forall g :: g in ItemsRun(items, index, file).errors ==> g.MissingBlueprintInputs?
    ensures forall g :: g in ItemsRun(items, index, file).warnings ==>
      g == BlueprintMissingPath(file) || g.UnknownBlueprintInputs?
    decreases |items|
  {
    if items != [] {
      var init := items[..|items| - 1];
      var item := items[|items| - 1];
      ItemsRunFindings(init, index, file);
      if !ItemsRun(init, index, file).raised && item.Map? && ItemOutcome(item, index, file).Returned? {
        CheckBlueprintShape(item.entries, index, file);
      }
    }
  }

  predicate IsReferenceError(g: Finding) {
    g.UnknownEntity? || g.UnknownRegistryId? || g.UnknownDevice?
  }

  /** The loads appended nothing but load failures, and the entity index is
      keyed by entity id. */
  predicate WellFormed(env: Env) {
    && KeyedByEntityId(env.entities)
    && (forall g :: g in env.entityLoad ==> IsLoadFailure(g))
    && (forall g :: g in env.deviceLoad ==> IsLoadFailure(g))
  }

  /** A file is valid exactly when none of the errors checking it appends is an
      unknown entity, registry id or device: load failures, blueprint errors and
      every warning leave the result alone. */
  lemma VerdictIffNoReferenceError(f: YamlFile, t: Trace, env: Env)
    requires Examined(f) && Fits(t, f.content.doc) && WellFormed(env)
    ensures FileVerdict(f, env.entities, env.devices) <==>
      forall g :: g in FileErrors(f, t, env) ==> !IsReferenceError(g)
  {
    var doc := f.content.doc;
    var ents := env.entities;
    var c1 := Collect(t.entityOrder, EntityCheck(f.path, ents));
    var c2 := Collect(t.idOrder, RegistryIdCheck(f.path, IdMapping(ents)));
    var c3 := Collect(t.deviceOrder, DeviceCheck(f.path, env.devices));
    var bp := BlueprintRun(f, env).errors;
    RefsOkIff(doc, t, f.path, ents, env.devices);
    if IsAutomationsFile(f.name) && doc.Seq? {
      ItemsRunFindings(doc.items, env.blueprints, f.path);
    }
    ReferenceChecksOnly(t.entityOrder, EntityCheck(f.path, ents));
    ReferenceChecksOnly(t.idOrder, RegistryIdCheck(f.path, IdMapping(ents)));
    ReferenceChecksOnly(t.deviceOrder, DeviceCheck(f.path, env.devices));
    NoReferenceErrorIn(LoadErrors(env), c1, c2, c3, ServiceErrors(doc, env), bp);
  }

  /** The entity, registry-id and device loops append reference errors only. */
  lemma {:induction false} ReferenceChecksOnly(xs: seq<string>, c: Check)
    requires c.EntityCheck? || c.RegistryIdCheck? || c.DeviceCheck?
    ensures forall g :: g in Collect(xs, c) ==> IsReferenceError(g)
    decreases |xs|
  {
    if xs != [] {
      ReferenceChecksOnly(xs[..|xs| - 1], c);
    }
  }

  lemma NoReferenceErrorIn(loads: seq<Finding>, c1: seq<Finding>, c2: seq<Finding>, c3: seq<Finding>,
                           svc: seq<Finding>, bp: seq<Finding>)
    requires forall g :: g in loads || g in svc || g in bp ==> !IsReferenceError(g)
    requires forall g :: g in c1 || g in c2 || g in c3 ==> IsReferenceError(g)
    ensures (forall g :: g in loads + (c1 + c2 + c3) + svc + bp ==> !IsReferenceError(g))
        <==> c1 == [] && c2 == [] && c3 == []
  {
    var all := loads + (c1 + c2 + c3) + svc + bp;
    assert forall g :: g in all <==> g in loads || g in c1 || g in c2 || g in c3 || g in svc || g in bp;
    if c1 != [] { assert c1[0] in all; }
    if c2 != [] { assert c2[0] in all; }
    if c3 != [] { assert c3[0] in all; }
  }

  // ----- every file -----

  /** The errors checking the first `|ts|` files appends, the i-th in order `ts[i]`. */
  function AllErrors(files: seq<YamlFile>, ts: seq<Trace>, env: Env): seq<Finding>
    requires |ts| <= |files|
    decreases |ts|
  {
    if ts == [] then [] else AllErrors(files, ts[..|ts| - 1], env) + FileErrors(files[|ts| - 1], ts[|ts| - 1], env)
  }

  function AllWarnings(files: seq<YamlFile>, ts: seq<Trace>, env: Env): seq<Finding>
    requires |ts| <= |files|
    decreases |ts|
  {
    if ts == [] then [] else AllWarnings(files, ts[..|ts| - 1], env) + FileWarnings(files[|ts| - 1], ts[|ts| - 1], env)
  }

  /** One more file, after the findings already in a list. */
  lemma AllAfter(errors0: seq<Finding>, warnings0: seq<Finding>, files: seq<YamlFile>, ts: seq<Trace>, t: Trace, env: Env)
    requires |ts| < |files|
    ensures errors0 + AllErrors(files, ts + [t], env) == errors0 + AllErrors(files, ts, env) + FileErrors(files[|ts|], t, env)
    ensures warnings0 + AllWarnings(files, ts + [t], env)
         == warnings0 + AllWarnings(files, ts, env) + FileWarnings(files[|ts|], t, env)
  {
    assert (ts + [t])[..|ts|] == ts;
  }
}
