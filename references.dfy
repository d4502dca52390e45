/** The `ReferenceValidator` object: its `errors` and `warnings` lists, the
    lazily filled registry and blueprint caches, and the methods that load,
    check one file and check a whole configuration directory. What a run reads
    from disk is fixed when the object is built: the three registry files, the
    blueprint files and the validation configuration. */
module References {
  import opened Wrappers
  import opened Text
  import opened ConfigTree
  import opened PyDict
  import opened Files
  import opened Findings
  import opened Registry
  import opened Classifier
  import opened Extractor
  import opened Blueprints
  import opened EntitySummary
  import opened Checks
  import Settings

  /** The cache a load leaves behind: set after a successful read, unset after
      a failed one. */
  function CacheAfterLoad<R>(src: Source<R>, key: R -> string): Option<Dict<R>> {
    if src.Present? then Some(Index(src.records, key)) else None
  }

  /** The blueprint index `load_blueprints` builds: empty without a
      `blueprints` directory. */
  function BlueprintsOf(dirExists: bool, files: seq<BlueprintFile>): Dict<Tree> {
    if dirExists then BlueprintIndex(files) else []
  }

  /** Some file's check raises: `validate_all` then ends with that exception. */
  predicate AnyRaises(files: seq<YamlFile>, env: Env) {
    exists i :: 0 <= i < |files| && FileRaises(files[i], env)
  }

  /** No file of the list raises, stated one file at a time. */
  ghost predicate NoneRaise(files: seq<YamlFile>, env: Env)
    decreases |files|
  {
    files == [] || (NoneRaise(files[..|files| - 1], env) && !FileRaises(files[|files| - 1], env))
  }

  lemma {:induction false} NoneRaiseIff(files: seq<YamlFile>, env: Env)
    ensures NoneRaise(files, env) <==> !AnyRaises(files, env)
    decreases |files|
  {
    if files != [] {
      var init := files[..|files| - 1];
      NoneRaiseIff(init, env);
      AnyRaisesStep(files, env);
    }
  }

  /** No file before position `i` raises. */
  lemma NoneRaiseBefore(files: seq<YamlFile>, i: nat, env: Env)
    requires i <= |files| && NoneRaise(files[..i], env)
    ensures forall j :: 0 <= j < i ==> !FileRaises(files[j], env)
  {
    NoneRaiseIff(files[..i], env);
    assert forall j :: 0 <= j < i ==> files[..i][j] == files[j];
  }

  lemma AnyRaisesStep(files: seq<YamlFile>, env: Env)
    requires files != []
    ensures AnyRaises(files, env) <==> AnyRaises(files[..|files| - 1], env) || FileRaises(files[|files| - 1], env)
  {
    var init := files[..|files| - 1];
    assert forall i :: 0 <= i < |init| ==> init[i] == files[i];
  }

  /** The file at `i` extends both stepwise predicates by one file. */
  lemma PrefixStep(files: seq<YamlFile>, i: nat, env: Env)
    requires i < |files|
    ensures NoneRaise(files[..i + 1], env) <==> NoneRaise(files[..i], env) && !FileRaises(files[i], env)
    ensures AllPass(files[..i + 1], env) <==> AllPass(files[..i], env) && FileVerdict(files[i], env.entities, env.devices)
    ensures FileRaises(files[i], env) ==> AnyRaises(files, env)
  {
    assert files[..i + 1][..i] == files[..i];
  }

  /** Every file of the list passes, stated one file at a time. */
  ghost predicate AllPass(files: seq<YamlFile>, env: Env)
    decreases |files|
  {
    files == [] || (AllPass(files[..|files| - 1], env) && FileVerdict(files[|files| - 1], env.entities, env.devices))
  }

  lemma {:induction false} AllPassIff(files: seq<YamlFile>, env: Env)
    ensures AllPass(files, env) <==> forall i :: 0 <= i < |files| ==> FileVerdict(files[i], env.entities, env.devices)
    decreases |files|
  {
    if files != [] {
      var init := files[..|files| - 1];
      AllPassIff(init, env);
      assert forall i :: 0 <= i < |init| ==> init[i] == files[i];
    }
  }

  class ReferenceValidator {
    const configDir: string
    const settings: Settings.Config
    const entitySource: Source<EntityRecord>
    const deviceSource: Source<IdRecord>
    const areaSource: Source<IdRecord>
    const blueprintsDirExists: bool
    const blueprintFiles: seq<BlueprintFile>

    var errors: seq<Finding>
    var warnings: seq<Finding>
    var entities: Option<Dict<EntityRecord>>
    var devices: Option<Dict<IdRecord>>
    var areas: Option<Dict<IdRecord>>
    var blueprints: Option<Dict<Tree>>

    /** Where a registry lives: `<config_dir>/.storage/<name>`. */
    function RegistryFile(name: string): string {
      configDir + "/.storage/" + name
    }

    /** Every cache that is set holds what loading its source gives. */
    ghost predicate Valid()
      reads this`entities, this`devices, this`areas, this`blueprints
    {
      EntitiesValid() && DevicesValid() && AreasValid() && BlueprintsValid()
    }

    ghost predicate EntitiesValid()
      reads this`entities
    {
      entities.Some? ==> entities == CacheAfterLoad(entitySource, EntityKey)
    }

    ghost predicate DevicesValid()
      reads this`devices
    {
      devices.Some? ==> devices == CacheAfterLoad(deviceSource, IdKey)
    }

    ghost predicate AreasValid()
      reads this`areas
    {
      areas.Some? ==> areas == CacheAfterLoad(areaSource, IdKey)
    }

    ghost predicate BlueprintsValid()
      reads this`blueprints
    {
      blueprints.Some? ==> blueprints.value == KnownBlueprints()
    }

    /** What `validate_file_references` works with. Each load returns the
        same dictionary and appends the same findings whether or not it was
        cached before, so this does not depend on the caches. */
    function Env(): Env {
      Checks.Env(KnownEntities(), KnownDevices(), KnownAreas(), KnownBlueprints(),
                 EntityLoad(), DeviceLoad(), AreaLoad(), Settings.BuiltinServiceDomains(settings))
    }

    /** The dictionary each registry load returns. */
    function KnownEntities(): Dict<EntityRecord> { Loaded(entitySource, EntityKey) }
    function KnownDevices(): Dict<IdRecord> { Loaded(deviceSource, IdKey) }
    function KnownAreas(): Dict<IdRecord> { Loaded(areaSource, IdKey) }

    /** What each registry load appends when its registry is not cached. */
    function EntityLoad(): seq<Finding> {
      LoadFailure(EntityRegistry, RegistryFile("core.entity_registry"), entitySource)
    }
    function DeviceLoad(): seq<Finding> {
      LoadFailure(DeviceRegistry, RegistryFile("core.device_registry"), deviceSource)
    }
    function AreaLoad(): seq<Finding> {
      LoadFailure(AreaRegistry, RegistryFile("core.area_registry"), areaSource)
    }

    /** The blueprint index every blueprint check consults. */
    function KnownBlueprints(): Dict<Tree> {
      BlueprintsOf(blueprintsDirExists, blueprintFiles)
    }

    /** The environment always satisfies what the per-file lemmas need. */
    lemma EnvWellFormed()
      ensures WellFormed(Env())
    {
      if entitySource.Present? {
        EntityIndexKeyed(entitySource.records);
      }
    }

    constructor (configDir: string, settings: Settings.Config,
                 entitySource: Source<EntityRecord>, deviceSource: Source<IdRecord>, areaSource: Source<IdRecord>,
                 blueprintsDirExists: bool, blueprintFiles: seq<BlueprintFile>)
      ensures this.configDir == configDir && this.settings == settings
      ensures this.entitySource == entitySource && this.deviceSource == deviceSource && this.areaSource == areaSource
      ensures this.blueprintsDirExists == blueprintsDirExists && this.blueprintFiles == blueprintFiles
      ensures errors == [] && warnings == []
      ensures entities.None? && devices.None? && areas.None? && blueprints.None?
      ensures Valid()
    {
      this.configDir := configDir;
      this.settings := settings;
      this.entitySource := entitySource;
      this.deviceSource := deviceSource;
      this.areaSource := areaSource;
      this.blueprintsDirExists := blueprintsDirExists;
      this.blueprintFiles := blueprintFiles;
      errors := [];
      warnings := [];
      entities := None;
      devices := None;
      areas := None;
      blueprints := None;
    }

    // ----- registries -----

    /** `load_entity_registry`: a cached registry is returned as is; otherwise
        a failed read appends one error and returns `{}` without caching, so
        the next call reads and reports again. */
    method LoadEntityRegistry() returns (r: Dict<EntityRecord>)
      requires EntitiesValid()
      modifies this`entities, this`errors
      ensures EntitiesValid()
      ensures r == KnownEntities()
      ensures errors == old(errors) + (if old(entities).Some? then [] else EntityLoad())
      ensures entities == CacheAfterLoad(entitySource, EntityKey)
    {
      if entities.None? {
        var registryFile := RegistryFile("core.entity_registry");
        match entitySource
        case Missing =>
          errors := errors + [RegistryNotFound(EntityRegistry, registryFile)];
        case InvalidJson(e) =>
          errors := errors + [RegistryInvalidJson(EntityRegistry, e)];
        case PermissionDenied =>
          errors := errors + [RegistryPermissionDenied(EntityRegistry)];
        case Failed(e) =>
          errors := errors + [RegistryLoadFailed(EntityRegistry, e)];
        case Present(records) =>
          entities := Some(Index(records, EntityKey));
      }
      r := if entities.Some? then entities.value else [];
    }

    /** `load_device_registry`: as for entities, failures are errors. */
    method LoadDeviceRegistry() returns (r: Dict<IdRecord>)
      requires DevicesValid()
      modifies this`devices, this`errors
      ensures DevicesValid()
      ensures r == KnownDevices()
      ensures errors == old(errors) + (if old(devices).Some? then [] else DeviceLoad())
      ensures devices == CacheAfterLoad(deviceSource, IdKey)
    {
      if devices.None? {
        var registryFile := RegistryFile("core.device_registry");
        match deviceSource
        case Missing =>
          errors := errors + [RegistryNotFound(DeviceRegistry, registryFile)];
        case InvalidJson(e) =>
          errors := errors + [RegistryInvalidJson(DeviceRegistry, e)];
        case PermissionDenied =>
          errors := errors + [RegistryPermissionDenied(DeviceRegistry)];
        case Failed(e) =>
          errors := errors + [RegistryLoadFailed(DeviceRegistry, e)];
        case Present(records) =>
          devices := Some(Index(records, IdKey));
      }
      r := if devices.Some? then devices.value else [];
    }

    /** `load_area_registry`: failures are warnings, not errors. */
    method LoadAreaRegistry() returns (r: Dict<IdRecord>)
      requires AreasValid()
      modifies this`areas, this`warnings
      ensures AreasValid()
      ensures r == KnownAreas()
      ensures warnings == old(warnings) + (if old(areas).Some? then [] else AreaLoad())
      ensures areas == CacheAfterLoad(areaSource, IdKey)
    {
      if areas.None? {
        var registryFile := RegistryFile("core.area_registry");
        match areaSource
        case Missing =>
          warnings := warnings + [RegistryNotFound(AreaRegistry, registryFile)];
        case InvalidJson(e) =>
          warnings := warnings + [RegistryInvalidJson(AreaRegistry, e)];
        case PermissionDenied =>
          warnings := warnings + [RegistryPermissionDenied(AreaRegistry)];
        case Failed(e) =>
          warnings := warnings + [RegistryLoadFailed(AreaRegistry, e)];
        case Present(records) =>
          areas := Some(Index(records, IdKey));
      }
      r := if areas.Some? then areas.value else [];
    }

    /** `get_entity_registry_id_mapping`. */
    method GetEntityRegistryIdMapping() returns (m: Dict<string>)
      requires EntitiesValid()
      modifies this`entities, this`errors
      ensures EntitiesValid()
      ensures m == IdMapping(KnownEntities())
      ensures errors == old(errors) + (if old(entities).Some? then [] else EntityLoad())
      ensures entities == CacheAfterLoad(entitySource, EntityKey)
    {
      var ents := LoadEntityRegistry();
      m := IdMapping(ents);
    }

    /** Loading twice in a row: a failure is reported on both calls, a success
        on neither, and the second call returns what the first did. */
    method LoadEntityRegistryTwice() returns (r1: Dict<EntityRecord>, r2: Dict<EntityRecord>)
      requires EntitiesValid() && entities.None?
      modifies this`entities, this`errors
      ensures EntitiesValid()
      ensures r1 == r2 == KnownEntities()
      ensures errors == old(errors) + EntityLoad() + EntityLoad()
      ensures entitySource.Present? <==> errors == old(errors)
    {
      r1 := LoadEntityRegistry();
      r2 := LoadEntityRegistry();
    }

    // ----- the loops over reference sets -----

    /** `for x in s`: the elements of a set, each once, in some order. */
    static method Enumerate(s: set<string>) returns (xs: seq<string>)
      ensures Enumerates(xs, s)
    {
      xs := [];
      var rest := s;
      while rest != {}
        invariant rest <= s
        invariant Distinct(xs)
        invariant forall x :: x in xs <==> x in s && x !in rest
        decreases |rest|
      {
        var x :| x in rest;
        assert x !in xs;
        xs := xs + [x];
        rest := rest - {x};
      }
    }

    /** The entity loop: an unknown entity is an error (or, if it were among
        the disabled ones, a warning); `ok` is false exactly when an error was
        appended. */
    method CheckEntities(refs: set<string>, file: string, ents: Dict<EntityRecord>)
      returns (ok: bool, ghost order: seq<string>)
      modifies this`errors, this`warnings
      ensures Enumerates(order, refs)
      ensures errors == old(errors) + Collect(order, EntityCheck(file, ents))
      ensures warnings == old(warnings) + Collect(order, DisabledEntityCheck(file, ents))
      ensures ok <==> Collect(order, EntityCheck(file, ents)) == []
    {
      ghost var errors0, warnings0 := errors, warnings;
      var xs := Enumerate(refs);
      order := xs;
      ok := true;
      var unknown, disabled := EntityCheck(file, ents), DisabledEntityCheck(file, ents);
      for i := 0 to |xs|
        invariant errors == errors0 + Collect(xs[..i], unknown)
        invariant warnings == warnings0 + Collect(xs[..i], disabled)
        invariant ok <==> Collect(xs[..i], unknown) == []
      {
        CollectStep(xs, i, unknown);
        CollectAfter(errors0, xs, i, unknown);
        CollectAfter(warnings0, xs, i, disabled);
        var valid := CheckEntity(xs[i], file, ents);
        if !valid {
          ok := false;
        }
      }
      assert xs[..|xs|] == xs;
    }

    /** The body of the entity loop, for one entity id. */
    method CheckEntity(entityId: string, file: string, ents: Dict<EntityRecord>) returns (ok: bool)
      modifies this`errors, this`warnings
      ensures errors == old(errors) + Apply(EntityCheck(file, ents), entityId)
      ensures warnings == old(warnings) + Apply(DisabledEntityCheck(file, ents), entityId)
      ensures ok <==> Apply(EntityCheck(file, ents), entityId) == []
    {
      ok := true;
      if IsUuidFormat(entityId) {
        // handled by the registry-id loop
        return;
      }
      if !HasKey(ents, entityId) {
        var disabled := DisabledIndex(ents);
        if HasKey(disabled, entityId) {
          warnings := warnings + [DisabledEntity(file, entityId)];
        } else {
          errors := errors + [UnknownEntity(file, entityId)];
          ok := false;
        }
      }
    }

    /** The registry-id loop: an unmapped id is an error; a mapped one whose
        entity is disabled is a warning. */
    method CheckRegistryIds(ids: set<string>, file: string, mapping: Dict<string>, ents: Dict<EntityRecord>)
      returns (ok: bool, ghost order: seq<string>)
      modifies this`errors, this`warnings
      ensures Enumerates(order, ids)
      ensures errors == old(errors) + Collect(order, RegistryIdCheck(file, mapping))
      ensures warnings == old(warnings) + Collect(order, DisabledRegistryIdCheck(file, mapping, ents))
      ensures ok <==> Collect(order, RegistryIdCheck(file, mapping)) == []
    {
      ghost var errors0, warnings0 := errors, warnings;
      var xs := Enumerate(ids);
      order := xs;
      ok := true;
      var unknown, disabled := RegistryIdCheck(file, mapping), DisabledRegistryIdCheck(file, mapping, ents);
      for i := 0 to |xs|
        invariant errors == errors0 + Collect(xs[..i], unknown)
        invariant warnings == warnings0 + Collect(xs[..i], disabled)
        invariant ok <==> Collect(xs[..i], unknown) == []
      {
        CollectStep(xs, i, unknown);
        CollectAfter(errors0, xs, i, unknown);
        CollectAfter(warnings0, xs, i, disabled);
        var valid := CheckRegistryId(xs[i], file, mapping, ents);
        if !valid {
          ok := false;
        }
      }
      assert xs[..|xs|] == xs;
    }

    /** The body of the registry-id loop, for one id. */
    method CheckRegistryId(registryId: string, file: string, mapping: Dict<string>, ents: Dict<EntityRecord>)
      returns (ok: bool)
      modifies this`errors, this`warnings
      ensures errors == old(errors) + Apply(RegistryIdCheck(file, mapping), registryId)
      ensures warnings == old(warnings) + Apply(DisabledRegistryIdCheck(file, mapping, ents), registryId)
      ensures ok <==> Apply(RegistryIdCheck(file, mapping), registryId) == []
    {
      ok := true;
      if !HasKey(mapping, registryId) {
        errors := errors + [UnknownRegistryId(file, registryId)];
        ok := false;
      } else {
        var actual := PyDict.Get(mapping, registryId);
        if HasKey(ents, actual) {
          var data := PyDict.Get(ents, actual);
          if data.disabledBy.Some? {
            warnings := warnings + [DisabledRegistryEntity(file, registryId, actual)];
          }
        }
      }
    }

    /** The device loop: an unknown device is an error. */
    method CheckDevices(refs: set<string>, file: string, devs: Dict<IdRecord>)
      returns (ok: bool, ghost order: seq<string>)
      modifies this`errors
      ensures Enumerates(order, refs)
      ensures errors == old(errors) + Collect(order, DeviceCheck(file, devs))
      ensures ok <==> Collect(order, DeviceCheck(file, devs)) == []
    {
      ghost var errors0 := errors;
      var xs := Enumerate(refs);
      order := xs;
      ok := true;
      for i := 0 to |xs|
        invariant errors == errors0 + Collect(xs[..i], DeviceCheck(file, devs))
        invariant ok <==> Collect(xs[..i], DeviceCheck(file, devs)) == []
      {
        CollectStep(xs, i, DeviceCheck(file, devs));
        CollectAfter(errors0, xs, i, DeviceCheck(file, devs));
        assert Apply(DeviceCheck(file, devs), xs[i]) == DeviceFinding(file, devs, xs[i]);
        if !HasKey(devs, xs[i]) {
          errors := errors + [UnknownDevice(file, xs[i])];
          ok := false;
        }
      }
      assert xs[..|xs|] == xs;
    }

    /** The area loop: an unknown area is only a warning. */
    method CheckAreas(refs: set<string>, file: string, areaIndex: Dict<IdRecord>)
      returns (ghost order: seq<string>)
      modifies this`warnings
      ensures Enumerates(order, refs)
      ensures warnings == old(warnings) + Collect(order, AreaCheck(file, areaIndex))
    {
      ghost var warnings0 := warnings;
      var xs := Enumerate(refs);
      order := xs;
      for i := 0 to |xs|
        invariant warnings == warnings0 + Collect(xs[..i], AreaCheck(file, areaIndex))
      {
        CollectAfter(warnings0, xs, i, AreaCheck(file, areaIndex));
        assert Apply(AreaCheck(file, areaIndex), xs[i]) == AreaFinding(file, areaIndex, xs[i]);
        if !HasKey(areaIndex, xs[i]) {
          warnings := warnings + [UnknownArea(file, xs[i])];
        }
      }
      assert xs[..|xs|] == xs;
    }

    /** `validate_service_calls`: it loads the entity registry (whose failure
        is an error), only ever appends warnings, and always returns true. */
    method ValidateServiceCalls(services: set<string>, file: string) returns (r: bool, ghost order: seq<string>)
      requires EntitiesValid()
      modifies this`entities, this`errors, this`warnings
      ensures EntitiesValid()
      ensures r
      ensures Enumerates(order, services)
      ensures entities == CacheAfterLoad(entitySource, EntityKey)
      ensures errors == old(errors) + (if old(entities).Some? then [] else EntityLoad())
      ensures warnings == old(warnings)
        + Collect(order, ServiceCheck(file, Settings.BuiltinServiceDomains(settings), Scripts(KnownEntities()), Scenes(KnownEntities())))
    {
      r := true;
      var builtin := Settings.BuiltinServiceDomains(settings);
      var ents := LoadEntityRegistry();
      order := CheckServices(services, file, builtin, Scripts(ents), Scenes(ents));
    }

    /** The loop of `validate_service_calls`, over the services in some order. */
    method CheckServices(services: set<string>, file: string, builtin: set<string>, scripts: set<string>, scenes: set<string>)
      returns (ghost order: seq<string>)
      modifies this`warnings
      ensures Enumerates(order, services)
      ensures warnings == old(warnings) + Collect(order, ServiceCheck(file, builtin, scripts, scenes))
    {
      var check := ServiceCheck(file, builtin, scripts, scenes);
      ghost var warnings0 := warnings;
      var xs := Enumerate(services);
      order := xs;
      for i := 0 to |xs|
        invariant warnings == warnings0 + Collect(xs[..i], check)
      {
        CollectAfter(warnings0, xs, i, check);
        assert Apply(check, xs[i]) == ServiceFinding(file, builtin, scripts, scenes, xs[i]);
        CheckService(xs[i], file, builtin, scripts, scenes);
      }
      assert xs[..|xs|] == xs;
    }

    /** The body of the service loop, for one service. */
    method CheckService(service: string, file: string, builtin: set<string>, scripts: set<string>, scenes: set<string>)
      modifies this`warnings
      ensures warnings == old(warnings) + ServiceFinding(file, builtin, scripts, scenes, service)
    {
      if '.' !in service {
        warnings := warnings + [InvalidServiceFormat(file, service)];
      } else {
        CharCounted(service, '.');
        var (domain, action) := SplitOnce(service, '.');
        if domain in builtin {
        } else if domain == "script" {
          if action !in scripts && action != "reload" {
            warnings := warnings + [UnknownScript(file, service, action)];
          }
        } else if domain == "scene" {
          if action !in scenes && action != "reload" && action != "apply" && action != "create" {
            warnings := warnings + [UnknownScene(file, service, action)];
          }
        } else {
          warnings := warnings + [CustomDomain(file, service, domain)];
        }
      }
    }

    // ----- blueprints -----

    /** `load_blueprints`: the index is cached on the first call, even when
        there is no `blueprints` directory, and nothing is ever reported. */
    method LoadBlueprints() returns (r: Dict<Tree>)
      requires BlueprintsValid()
      modifies this`blueprints
      ensures BlueprintsValid()
      ensures r == KnownBlueprints() && blueprints == Some(r)
    {
      if blueprints.Some? {
        return blueprints.value;
      }
      var index: Dict<Tree> := [];
      if blueprintsDirExists {
        for i := 0 to |blueprintFiles|
          invariant index == BlueprintIndex(blueprintFiles[..i])
        {
          var f := blueprintFiles[i];
          assert blueprintFiles[..i + 1][..i] == blueprintFiles[..i];
          if f.content.Parsed? && f.content.doc.Map? && Has(f.content.doc.entries, "blueprint") {
            index := Insert(index, f.relPath, ConfigTree.Get(f.content.doc.entries, "blueprint"));
          }
        }
        assert blueprintFiles[..|blueprintFiles|] == blueprintFiles;
      }
      blueprints := Some(index);
      r := index;
    }

    /** `get_blueprint_inputs`. */
    method GetBlueprintInputs(path: string) returns (r: Outcome<(set<string>, set<string>)>)
      requires BlueprintsValid()
      modifies this`blueprints
      ensures BlueprintsValid() && blueprints == Some(KnownBlueprints())
      ensures r == BlueprintInputs(KnownBlueprints(), path)
    {
      var index := LoadBlueprints();
      if !HasKey(index, path) {
        return Returned(({}, {}));
      }
      var blueprint := PyDict.Get(index, path);
      if !blueprint.Map? {
        return Raised;
      }
      var inputs := GetOr(blueprint.entries, "input", Map([]));
      if !inputs.Map? {
        return Raised;
      }
      var required, optional := SplitInputs(inputs.entries);
      r := Returned((required, optional));
    }

    /** The loop of `get_blueprint_inputs`: an input is optional exactly when
        its configuration is a mapping with a `default` key. */
    static method SplitInputs(es: seq<(string, Tree)>) returns (required: set<string>, optional: set<string>)
      ensures (required, optional) == InputSets(es)
    {
      required := {};
      optional := {};
      for i := 0 to |es|
        invariant forall n :: n in required <==> exists c :: (n, c) in es[..i] && IsRequired(c)
        invariant forall n :: n in optional <==> exists c :: (n, c) in es[..i] && !IsRequired(c)
      {
        assert forall e :: e in es[..i + 1] <==> e in es[..i] || e == es[i];
        var (name, config) := es[i];
        if config.Map? {
          if Has(config.entries, "default") {
            optional := optional + {name};
          } else {
            required := required + {name};
          }
        } else {
          required := required + {name};
        }
      }
      assert es[..|es|] == es;
      assert required == InputSets(es).0 && optional == InputSets(es).1;
    }

    /** The input check once a blueprint has matched. */
    method CheckMatchedInputs(matched: string, useBlueprint: seq<(string, Tree)>, file: string)
      returns (r: Outcome<bool>)
      requires BlueprintsValid()
      modifies this`errors, this`warnings, this`blueprints
      ensures BlueprintsValid() && blueprints == Some(KnownBlueprints())
      ensures match CheckInputs(KnownBlueprints(), matched, useBlueprint, file)
        case Raised => r.Raised? && errors == old(errors) && warnings == old(warnings)
        case Returned(v) => r == Returned(v.result) && errors == old(errors) + v.errors && warnings == old(warnings) + v.warnings
    {
      var sets := GetBlueprintInputs(matched);
      r := ReportInputs(sets, ProvidedInputs(useBlueprint), file);
    }

    /** Comparing the blueprint's inputs with the provided ones, and reporting. */
    method ReportInputs(sets: Outcome<(set<string>, set<string>)>, given: Option<set<string>>, file: string)
      returns (r: Outcome<bool>)
      modifies this`errors, this`warnings
      ensures match InputsVerdict(sets, given, file)
        case Raised => r.Raised? && errors == old(errors) && warnings == old(warnings)
        case Returned(v) => r == Returned(v.result) && errors == old(errors) + v.errors && warnings == old(warnings) + v.warnings
    {
      if sets.Raised? || given.None? {
        r := Raised;
      } else {
        var (required, optional) := sets.value;
        var missing := required - given.value;
        if missing != {} {
          errors := errors + [MissingBlueprintInputs(file, SortedList(missing))];
          r := Returned(false);
        } else {
          var unknown := given.value - (required + optional);
          if unknown != {} {
            warnings := warnings + [UnknownBlueprintInputs(file, SortedList(unknown))];
          }
          r := Returned(true);
        }
      }
    }

    /** `validate_blueprint_automation`: what it returns and appends is what
        `CheckBlueprint` gives; when it raises it has appended nothing. */
    method ValidateBlueprintAutomation(automation: seq<(string, Tree)>, file: string) returns (r: Outcome<bool>)
      requires BlueprintsValid()
      modifies this`errors, this`warnings, this`blueprints
      ensures BlueprintsValid()
      ensures match CheckBlueprint(automation, KnownBlueprints(), file)
        case Raised => r.Raised? && errors == old(errors) && warnings == old(warnings)
        case Returned(v) => r == Returned(v.result) && errors == old(errors) + v.errors && warnings == old(warnings) + v.warnings
    {
      if !Has(automation, "use_blueprint") {
        return Returned(true);
      }
      var useBlueprint := ConfigTree.Get(automation, "use_blueprint");
      if !useBlueprint.Map? {
        return Returned(true);
      }
      var path := GetOr(useBlueprint.entries, "path", Str(""));
      if !Truthy(path) {
        warnings := warnings + [BlueprintMissingPath(file)];
        return Returned(false);
      }
      var index := LoadBlueprints();
      if !path.Str? {
        // `bp_path.endswith(...)` with a non-string argument raises on the first key.
        if index != [] {
          return Raised;
        }
        return Returned(true);
      }
      var found := FindBlueprint(Keys(index), path.s);
      if found.None? {
        return Returned(true);
      }
      r := CheckMatchedInputs(found.value, useBlueprint.entries, file);
    }

    /** One item of the automation list: a mapping is checked as a blueprint
        automation, anything else is skipped. */
    method ValidateItem(item: Tree, file: string) returns (raised: bool)
      requires BlueprintsValid()
      modifies this`errors, this`warnings, this`blueprints
      ensures BlueprintsValid()
      ensures match ItemOutcome(item, KnownBlueprints(), file)
        case Raised => raised && errors == old(errors) && warnings == old(warnings)
        case Returned(v) => !raised && errors == old(errors) + v.errors && warnings == old(warnings) + v.warnings
    {
      raised := false;
      if item.Map? {
        var result := ValidateBlueprintAutomation(item.entries, file);
        raised := result.Raised?;
      }
    }

    /** `_validate_automations_blueprints`: each mapping item of a list is
        checked in turn; an exception stops the loop and propagates. */
    method ValidateAutomationsBlueprints(doc: Tree, file: string) returns (raised: bool)
      requires BlueprintsValid()
      modifies this`errors, this`warnings, this`blueprints
      ensures BlueprintsValid()
      ensures raised == AutomationsRun(doc, KnownBlueprints(), file).raised
      ensures errors == old(errors) + AutomationsRun(doc, KnownBlueprints(), file).errors
      ensures warnings == old(warnings) + AutomationsRun(doc, KnownBlueprints(), file).warnings
    {
      raised := false;
      if doc.Seq? {
        var items := doc.items;
        ghost var index := KnownBlueprints();
        ghost var errors0, warnings0 := errors, warnings;
        var i := 0;
        while i < |items| && !raised
          invariant 0 <= i <= |items|
          invariant BlueprintsValid()
          invariant raised == ItemsRun(items[..i], index, file).raised
          invariant raised ==> 0 < i
          invariant errors == errors0 + ItemsRun(items[..i], index, file).errors
          invariant warnings == warnings0 + ItemsRun(items[..i], index, file).warnings
          decreases |items| - i
        {
          ItemsRunAfter(errors0, warnings0, items, index, file, i);
          raised := ValidateItem(items[i], file);
          i := i + 1;
        }
        if raised {
          RaisedSticks(items, index, file, i);
        } else {
          assert items[..i] == items;
        }
      }
    }

    // ----- one file, every file -----

    /** A cached registry is one that loaded, so loading it again appends
        nothing. */
    lemma CachedLoadsClean()
      requires EntitiesValid() && DevicesValid() && AreasValid()
      ensures entities.Some? ==> EntityLoad() == []
      ensures devices.Some? ==> DeviceLoad() == []
      ensures areas.Some? ==> AreaLoad() == []
    {
    }

    /** `validate_file_references`: the errors and warnings it appends, in order
        (the order of each loop over a set is the one recorded in `t`), and its
        result, which depends only on the entity and device registries. */
    method ValidateFileReferences(f: YamlFile) returns (r: Outcome<bool>, ghost t: Trace)
      requires Valid()
      modifies this`errors, this`warnings, this`entities, this`devices, this`areas, this`blueprints
      ensures Valid()
      ensures Examined(f) ==> Fits(t, f.content.doc)
      ensures r.Raised? <==> FileRaises(f, Env())
      ensures r.Returned? ==> (r.value <==> FileVerdict(f, Env().entities, Env().devices))
      ensures errors == old(errors) + FileErrors(f, t, Env())
      ensures warnings == old(warnings) + FileWarnings(f, t, Env())
    {
      t := Trace([], [], [], [], []);
      if f.name == "secrets.yaml" {
        r := Returned(true);
      } else if !f.content.Parsed? {
        errors := errors + [YamlLoadFailed(f.path, f.content.detail)];
        r := Returned(false);
      } else if f.content.doc == Null {
        r := Returned(true);
      } else {
        r, t := ValidateDocument(f);
      }
    }

    /** A file that parsed to a document: the registry loads, the reference
        loops, the service check and, for the automations file, the blueprint
        checks, in that order. */
    method ValidateDocument(f: YamlFile) returns (r: Outcome<bool>, ghost t: Trace)
      requires Valid() && Examined(f)
      modifies this`errors, this`warnings, this`entities, this`devices, this`areas, this`blueprints
      ensures Valid()
      ensures Fits(t, f.content.doc)
      ensures r.Raised? <==> FileRaises(f, Env())
      ensures r.Returned? ==> (r.value <==> FileVerdict(f, Env().entities, Env().devices))
      ensures errors == old(errors) + FileErrors(f, t, Env())
      ensures warnings == old(warnings) + FileWarnings(f, t, Env())
    {
      ghost var e0, w0 := errors, warnings;
      var allValid;
      allValid, t := CheckDocument(f.path, f.content.doc);
      var raised := false;
      if f.name == "automations.yaml" || f.name == "automations" {
        raised := ValidateAutomationsBlueprints(f.content.doc, f.path);
      }
      r := if raised then Raised else Returned(allValid);
      ghost var bp := BlueprintRun(f, Env());
      AppendTwo(e0, DocumentErrors(f.path, f.content.doc, t, Env()), bp.errors);
      AppendTwo(w0, DocumentWarnings(f.path, f.content.doc, t, Env()), bp.warnings);
    }

    /** The checks of a parsed document before its blueprint checks: the
        registry loads, the reference loops and the service check, in that
        order. */
    method CheckDocument(file: string, doc: Tree) returns (ok: bool, ghost t: Trace)
      requires EntitiesValid() && DevicesValid() && AreasValid()
      modifies this`errors, this`warnings, this`entities, this`devices, this`areas
      ensures EntitiesValid() && DevicesValid() && AreasValid()
      ensures Fits(t, doc)
      ensures ok <==> RefsOk(doc, Env().entities, Env().devices)
      ensures errors == old(errors) + DocumentErrors(file, doc, t, Env())
      ensures warnings == old(warnings) + DocumentWarnings(file, doc, t, Env())
    {
      ghost var e0, w0 := errors, warnings;
      var ents, devs, areaIndex, mapping := LoadRegistries();
      ghost var refsTrace: Trace;
      ok, refsTrace := CheckReferences(doc, file, ents, devs, areaIndex, mapping);
      ghost var serviceOrder := ValidateServices(doc, file);
      t := refsTrace.(serviceOrder := serviceOrder);
      ghost var env := Env();
      assert RefErrors(file, t, ents, devs) == RefErrors(file, refsTrace, ents, devs);
      assert RefWarnings(file, t, ents, areaIndex) == RefWarnings(file, refsTrace, ents, areaIndex);
      AppendThree(e0, LoadErrors(env), RefErrors(file, t, env.entities, env.devices), ServiceErrors(doc, env));
      AppendThree(w0, env.areaLoad, RefWarnings(file, t, env.entities, env.areas), ServiceWarnings(doc, file, t, env));
    }

    lemma CachedEntitiesClean()
      requires EntitiesValid()
      ensures entities.Some? ==> EntityLoad() == []
    {
    }

    /** The four registry lookups at the start of a file check: entities,
        devices, areas and the registry-id mapping. */
    method LoadRegistries() returns (ents: Dict<EntityRecord>, devs: Dict<IdRecord>, areaIndex: Dict<IdRecord>,
                                     mapping: Dict<string>)
      requires EntitiesValid() && DevicesValid() && AreasValid()
      modifies this`errors, this`warnings, this`entities, this`devices, this`areas
      ensures EntitiesValid() && DevicesValid() && AreasValid()
      ensures ents == KnownEntities() && devs == KnownDevices() && areaIndex == KnownAreas()
      ensures mapping == IdMapping(KnownEntities()) && KeyedByEntityId(ents)
      ensures errors == old(errors) + LoadErrors(Env())
      ensures warnings == old(warnings) + AreaLoad()
    {
      ghost var e0 := errors;
      CachedLoadsClean();
      ents := LoadEntityRegistry();
      devs := LoadDeviceRegistry();
      areaIndex := LoadAreaRegistry();
      CachedEntitiesClean();
      mapping := GetEntityRegistryIdMapping();
      EnvWellFormed();
      AppendThree(e0, EntityLoad(), DeviceLoad(), EntityLoad());
    }

    /** The entity, registry-id, device and area loops of one file. */
    method CheckReferences(doc: Tree, file: string, ents: Dict<EntityRecord>, devs: Dict<IdRecord>,
                           areaIndex: Dict<IdRecord>, mapping: Dict<string>)
      returns (ok: bool, ghost t: Trace)
      requires mapping == IdMapping(ents) && KeyedByEntityId(ents)
      modifies this`errors, this`warnings
      ensures Enumerates(t.entityOrder, EntityRefs(doc)) && Enumerates(t.idOrder, RegistryIds(doc))
      ensures Enumerates(t.deviceOrder, DeviceRefs(doc)) && Enumerates(t.areaOrder, AreaRefs(doc))
      ensures errors == old(errors) + RefErrors(file, t, ents, devs)
      ensures warnings == old(warnings) + RefWarnings(file, t, ents, areaIndex)
      ensures ok <==> RefsOk(doc, ents, devs)
    {
      ghost var e0, w0 := errors, warnings;
      var ok1, o1 := CheckEntities(EntityRefs(doc), file, ents);
      var ok2, o2 := CheckRegistryIds(RegistryIds(doc), file, mapping, ents);
      var ok3, o3 := CheckDevices(DeviceRefs(doc), file, devs);
      var o4 := CheckAreas(AreaRefs(doc), file, areaIndex);
      t := Trace(o1, o2, o3, o4, []);
      ok := ok1 && ok2 && ok3;
      RefsOkIff(doc, t, file, ents, devs);
      AppendThree(e0, Collect(o1, EntityCheck(file, ents)), Collect(o2, RegistryIdCheck(file, mapping)),
                  Collect(o3, DeviceCheck(file, devs)));
      AppendThree(w0, Collect(o1, DisabledEntityCheck(file, ents)),
                  Collect(o2, DisabledRegistryIdCheck(file, mapping, ents)), Collect(o4, AreaCheck(file, areaIndex)));
    }

    /** The service check of one file, run only when the file calls a service. */
    method ValidateServices(doc: Tree, file: string) returns (ghost order: seq<string>)
      requires EntitiesValid()
      modifies this`errors, this`warnings, this`entities
      ensures EntitiesValid()
      ensures ServiceCalls(doc) != {} ==> Enumerates(order, ServiceCalls(doc))
      ensures errors == old(errors) + ServiceErrors(doc, Env())
      ensures warnings == old(warnings) + ServiceWarnings(doc, file, Trace([], [], [], [], order), Env())
    {
      order := [];
      var services := ServiceCalls(doc);
      if services != {} {
        CachedEntitiesClean();
        var _, o := ValidateServiceCalls(services, file);
        order := o;
      }
    }

    /** `validate_all`: a missing directory is an error and false; an empty one
        a warning and true; otherwise every file is checked in turn, and the
        result is true exactly when every file is valid. An exception from a
        file's blueprint checks ends the run. */
    method ValidateAll(dirExists: bool, files: seq<YamlFile>) returns (r: Outcome<bool>, ghost ts: seq<Trace>)
      requires Valid()
      modifies this`errors, this`warnings, this`entities, this`devices, this`areas, this`blueprints
      ensures Valid()
      ensures !dirExists ==>
        r == Returned(false) && errors == old(errors) + [ConfigDirMissing(configDir)] && warnings == old(warnings)
      ensures dirExists && files == [] ==>
        r == Returned(true) && errors == old(errors) && warnings == old(warnings) + [NoYamlFiles]
      ensures dirExists && files != [] ==>
        && (r.Raised? <==> AnyRaises(files, Env()))
        && (r.Returned? ==> (r.value <==> forall i :: 0 <= i < |files| ==> FileVerdict(files[i], Env().entities, Env().devices)))
        && |ts| <= |files|
        && (r.Returned? ==> |ts| == |files|)
        && (r.Raised? ==> 0 < |ts| && FileRaises(files[|ts| - 1], Env()))
        && (r.Raised? ==> forall j :: 0 <= j < |ts| - 1 ==> !FileRaises(files[j], Env()))
        && errors == old(errors) + AllErrors(files, ts, Env())
        && warnings == old(warnings) + AllWarnings(files, ts, Env())
    {
      ts := [];
      if !dirExists {
        errors := errors + [ConfigDirMissing(configDir)];
        r := Returned(false);
      } else if files == [] {
        warnings := warnings + [NoYamlFiles];
        r := Returned(true);
      } else {
        r, ts := ValidateFiles(files);
      }
    }

    /** The loop of `validate_all` over the files, which stops at the first
        file whose check raises. */
    method ValidateFiles(files: seq<YamlFile>) returns (r: Outcome<bool>, ghost ts: seq<Trace>)
      requires Valid()
      modifies this`errors, this`warnings, this`entities, this`devices, this`areas, this`blueprints
      ensures Valid()
      ensures r.Raised? <==> AnyRaises(files, Env())
      ensures r.Returned? ==> (r.value <==> forall i :: 0 <= i < |files| ==> FileVerdict(files[i], Env().entities, Env().devices))
      ensures |ts| <= |files|
      ensures r.Returned? ==> |ts| == |files|
      ensures r.Raised? ==> 0 < |ts| && FileRaises(files[|ts| - 1], Env())
      ensures r.Raised? ==> forall j :: 0 <= j < |ts| - 1 ==> !FileRaises(files[j], Env())
      ensures errors == old(errors) + AllErrors(files, ts, Env())
      ensures warnings == old(warnings) + AllWarnings(files, ts, Env())
    {
      ghost var errors0, warnings0 := errors, warnings;
      ghost var env := Env();
      ts := [];
      var allValid := true;
      for i := 0 to |files|
        invariant |ts| == i
        invariant Valid()
        invariant NoneRaise(files[..i], env)
        invariant allValid == AllPass(files[..i], env)
        invariant errors == errors0 + AllErrors(files, ts, env)
        invariant warnings == warnings0 + AllWarnings(files, ts, env)
      {
        var valid;
        valid, ts := ValidateNext(files, i, ts, errors0, warnings0, env);
        if valid.Raised? {
          NoneRaiseBefore(files, i, env);
          r := Raised;
          return;
        }
        if !valid.value {
          allValid := false;
        }
      }
      assert files[..|files|] == files;
      NoneRaiseIff(files, env);
      AllPassIff(files, env);
      r := Returned(allValid);
    }

    /** One round of the loop of `validate_all`: the next file's check, stated
        over the files checked so far. */
    method ValidateNext(files: seq<YamlFile>, i: nat, ghost ts: seq<Trace>, ghost errors0: seq<Finding>,
                        ghost warnings0: seq<Finding>, ghost env: Env)
      returns (valid: Outcome<bool>, ghost ts': seq<Trace>)
      requires Valid() && i == |ts| < |files| && env == Env()
      requires errors == errors0 + AllErrors(files, ts, env)
      requires warnings == warnings0 + AllWarnings(files, ts, env)
      modifies this`errors, this`warnings, this`entities, this`devices, this`areas, this`blueprints
      ensures Valid() && |ts'| == |ts| + 1 && ts'[..|ts|] == ts
      ensures valid.Raised? ==> AnyRaises(files, env) && FileRaises(files[|ts|], env)
      ensures valid.Returned? ==> (NoneRaise(files[..|ts| + 1], env) <==> NoneRaise(files[..|ts|], env))
      ensures valid.Returned? ==>
        (AllPass(files[..|ts| + 1], env) <==> AllPass(files[..|ts|], env) && valid.value)
      ensures errors == errors0 + AllErrors(files, ts', env)
      ensures warnings == warnings0 + AllWarnings(files, ts', env)
    {
      ghost var t: Trace;
      valid, t := ValidateFileReferences(files[i]);
      AllAfter(errors0, warnings0, files, ts, t, env);
      ts' := ts + [t];
      PrefixStep(files, i, env);
    }

    /** `get_entity_summary`. */
    method GetEntitySummary() returns (summary: Dict<DomainSummary>)
      requires EntitiesValid()
      modifies this`entities, this`errors
      ensures EntitiesValid()
      ensures summary == SummaryOf(KnownEntities())
      ensures errors == old(errors) + (if old(entities).Some? then [] else EntityLoad())
    {
      var ents := LoadEntityRegistry();
      summary := Summarize(ents);
    }
  }
}
