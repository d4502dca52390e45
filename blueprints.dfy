/** Blueprint automations: the index of local blueprint definitions, the
    required/optional classification of a blueprint's inputs, and the check of
    one automation's `use_blueprint` section against that index. */
module Blueprints {
  import opened Wrappers
  import opened Text
  import opened ConfigTree
  import opened PyDict
  import opened Files
  import opened Findings

  /** A `*.yaml` file anywhere under `blueprints/`, by its path relative to that
      directory. */
  datatype BlueprintFile = BlueprintFile(relPath: string, content: Content)

  /** `load_blueprints` keeps a file that parses to a mapping with a `blueprint`
      key; every other file, including one that fails to load, is skipped. */
  predicate Defines(c: Content) {
    c.Parsed? && c.doc.Map? && Has(c.doc.entries, "blueprint")
  }

  /** The blueprint index: relative path to the file's `blueprint` section. */
  function BlueprintIndex(files: seq<BlueprintFile>): (d: Dict<Tree>)
    ensures Valid(d)
    ensures forall p :: p in d ==> exists f :: f in files && f.relPath == p.0 && Defines(f.content)
    decreases |files|
  {
    if files == [] then []
    else
      var init := files[..|files| - 1];
      var f := files[|files| - 1];
      var d := BlueprintIndex(init);
      assert forall g :: g in init ==> g in files;
      if Defines(f.content) then Insert(d, f.relPath, ConfigTree.Get(f.content.doc.entries, "blueprint")) else d
  }

  /** Every file that defines a blueprint is in the index. */
  lemma {:induction false} BlueprintIndexComplete(files: seq<BlueprintFile>, f: BlueprintFile)
    requires f in files && Defines(f.content)
    ensures HasKey(BlueprintIndex(files), f.relPath)
    decreases |files|
  {
    var init := files[..|files| - 1];
    if f != files[|files| - 1] {
      assert f in init by {
        var i :| 0 <= i < |files| && files[i] == f;
        assert init[i] == f;
      }
      BlueprintIndexComplete(init, f);
    }
  }

  // ----- inputs -----

  /** An input is optional exactly when its configuration is a mapping with a
      `default`. */
  predicate IsRequired(config: Tree) {
    !(config.Map? && Has(config.entries, "default"))
  }

  /** The required and the optional input names of an `input` section. */
  function InputSets(inputs: seq<(string, Tree)>): (r: (set<string>, set<string>))
    ensures forall n :: n in r.0 <==> exists c :: (n, c) in inputs && IsRequired(c)
    ensures forall n :: n in r.1 <==> exists c :: (n, c) in inputs && !IsRequired(c)
    ensures inputs == [] ==> r == ({}, {})
  {
    if inputs == [] then ({}, {})
    else (set e | e in inputs && IsRequired(e.1) :: e.0, set e | e in inputs && !IsRequired(e.1) :: e.0)
  }

  /** Every declared input is required or optional, and when names are distinct
      (as in a parsed mapping) none is both. */
  lemma InputSetsPartition(inputs: seq<(string, Tree)>)
    ensures InputSets(inputs).0 + InputSets(inputs).1 == set e | e in inputs :: e.0
    ensures Valid(inputs) ==> InputSets(inputs).0 * InputSets(inputs).1 == {}
  {
    var r := InputSets(inputs);
    if Valid(inputs) {
      forall n | n in r.0 ensures n !in r.1 {
        var c1 :| (n, c1) in inputs && IsRequired(c1);
        var i :| 0 <= i < |inputs| && inputs[i] == (n, c1);
        forall c | (n, c) in inputs ensures IsRequired(c) {
          var j :| 0 <= j < |inputs| && inputs[j] == (n, c);
          assert j == i;
        }
      }
    }
  }

  /** `get_blueprint_inputs`: no inputs for a path missing from the index; an
      exception when the blueprint section or its `input` section is not a
      mapping (a missing `input` counts as an empty one). */
  function BlueprintInputs(index: Dict<Tree>, path: string): (r: Outcome<(set<string>, set<string>)>)
    ensures !HasKey(index, path) ==> r == Returned(({}, {}))
    ensures HasKey(index, path) && !PyDict.Get(index, path).Map? ==> r.Raised?
    ensures (HasKey(index, path) && PyDict.Get(index, path).Map? && !Has(PyDict.Get(index, path).entries, "input"))
      ==> r == Returned(({}, {}))
    ensures (HasKey(index, path) && PyDict.Get(index, path).Map? && Has(PyDict.Get(index, path).entries, "input"))
      ==> var inputs := ConfigTree.Get(PyDict.Get(index, path).entries, "input");
          (inputs.Map? ==> r == Returned(InputSets(inputs.entries))) && (!inputs.Map? ==> r.Raised?)
  {
    if !HasKey(index, path) then Returned(({}, {}))
    else
      var bp := PyDict.Get(index, path);
      if !bp.Map? then Raised
      else
        var inputs := GetOr(bp.entries, "input", Map([]));
        if !inputs.Map? then Raised else Returned(InputSets(inputs.entries))
  }

  // ----- finding the blueprint -----

  /** `bp_path == blueprint_path or bp_path.endswith(blueprint_path)`. */
  predicate PathMatches(key: string, path: string) {
    key == path || EndsWith(key, path)
  }

  /** Position of the first key matching `path`, `|keys|` when none does. */
  function FirstMatch(keys: seq<string>, path: string): (i: nat)
    ensures i <= |keys|
    ensures i < |keys| ==> PathMatches(keys[i], path)
    ensures forall j :: 0 <= j < i ==> !PathMatches(keys[j], path)
  {
    if keys == [] then 0
    else if PathMatches(keys[0], path) then 0
    else 1 + FirstMatch(keys[1..], path)
  }

  /** The search loop of `validate_blueprint_automation`, over the index keys. */
  method FindBlueprint(keys: seq<string>, path: string) returns (found: Option<string>)
    ensures found.None? ==> forall k :: k in keys ==> !PathMatches(k, path)
    ensures found.Some? ==>
      exists i :: (0 <= i < |keys| && keys[i] == found.value && PathMatches(found.value, path)
                   && forall j :: 0 <= j < i ==> !PathMatches(keys[j], path))
    ensures found.Some? <==> FirstMatch(keys, path) < |keys|
    ensures found.Some? ==> found.value == keys[FirstMatch(keys, path)]
  {
    found := None;
    var i := 0;
    while i < |keys|
      invariant 0 <= i <= |keys|
      invariant forall j :: 0 <= j < i ==> !PathMatches(keys[j], path)
    {
      if keys[i] == path || EndsWith(keys[i], path) {
        found := Some(keys[i]);
        return;
      }
      i := i + 1;
    }
  }

  // ----- checking one automation -----

  /** What checking one automation gives: the value returned and the errors and
      warnings appended, in order. */
  datatype Verdict = Verdict(result: bool, errors: seq<Finding>, warnings: seq<Finding>)

  const Pass := Verdict(true, [], [])

  /** `set(use_blueprint.get("input", {}).keys())`; `None` where that raises. */
  function ProvidedInputs(useBlueprint: seq<(string, Tree)>): Option<set<string>> {
    var v := GetOr(useBlueprint, "input", Map([]));
    if v.Map? then Some(set k | k in KeysOf(v.entries)) else None
  }

  /** The input check, given the blueprint's (required, optional) input names
      and the names the automation provides: a missing required input is an
      error, an undeclared provided one a warning. */
  function InputsVerdict(sets: Outcome<(set<string>, set<string>)>, given: Option<set<string>>, file: string): Outcome<Verdict> {
    match sets
    case Raised => Raised
    case Returned(s) =>
      match given
      case None => Raised
      case Some(provided) =>
        var required := s.0;
        var optional := s.1;
        var missing := required - provided;
        if missing != {} then
          Returned(Verdict(false, [MissingBlueprintInputs(file, SortedList(missing))], []))
        else
          var unknown := provided - (required + optional);
          Returned(Verdict(true, [], if unknown != {} then [UnknownBlueprintInputs(file, SortedList(unknown))] else []))
  }

  /** The input check against the blueprint found at `matched`. */
  function CheckInputs(index: Dict<Tree>, matched: string, useBlueprint: seq<(string, Tree)>, file: string): Outcome<Verdict> {
    InputsVerdict(BlueprintInputs(index, matched), ProvidedInputs(useBlueprint), file)
  }

  /** `validate_blueprint_automation` as a value: what it returns and appends. */
  function CheckBlueprint(automation: seq<(string, Tree)>, index: Dict<Tree>, file: string): Outcome<Verdict> {
    if !Has(automation, "use_blueprint") then Returned(Pass)
    else
      var ub := ConfigTree.Get(automation, "use_blueprint");
      if !ub.Map? then Returned(Pass)
      else
        var path := GetOr(ub.entries, "path", Str(""));
        if !Truthy(path) then Returned(Verdict(false, [], [BlueprintMissingPath(file)]))
        else if !path.Str? then (if index == [] then Returned(Pass) else Raised)
        else
          var i := FirstMatch(Keys(index), path.s);
          if i == |index| then Returned(Pass) else CheckInputs(index, Keys(index)[i], ub.entries, file)
  }

  /** Which branch an automation takes: no blueprint, a falsy path, a path no
      local blueprint matches (including community blueprints) and a matched
      one, which is checked against the first matching index key. */
  lemma CheckBlueprintRoutes(automation: seq<(string, Tree)>, index: Dict<Tree>, file: string)
    ensures !Has(automation, "use_blueprint") ==> CheckBlueprint(automation, index, file) == Returned(Pass)
    ensures Has(automation, "use_blueprint") ==>
      var ub := ConfigTree.Get(automation, "use_blueprint");
      var path := if ub.Map? then GetOr(ub.entries, "path", Str("")) else Null;
      && (!ub.Map? ==> CheckBlueprint(automation, index, file) == Returned(Pass))
      && (ub.Map? && !Truthy(path) ==>
            CheckBlueprint(automation, index, file) == Returned(Verdict(false, [], [BlueprintMissingPath(file)])))
      && (ub.Map? && path.Str? && path.s != "" && (forall k :: k in Keys(index) ==> !PathMatches(k, path.s)) ==>
            CheckBlueprint(automation, index, file) == Returned(Pass))
      && (ub.Map? && path.Str? && path.s != "" && FirstMatch(Keys(index), path.s) < |index| ==>
            CheckBlueprint(automation, index, file)
              == CheckInputs(index, Keys(index)[FirstMatch(Keys(index), path.s)], ub.entries, file))
  {
    if Has(automation, "use_blueprint") {
      var ub := ConfigTree.Get(automation, "use_blueprint");
      if ub.Map? {
        var path := GetOr(ub.entries, "path", Str(""));
        assert forall j :: 0 <= j < |index| ==> Keys(index)[j] in Keys(index);
      }
    }
  }

  /** Required inputs the automation does not provide: one error naming
      exactly those inputs, sorted, and nothing else; the unknown-input check
      is not reached. */
  lemma MissingRequiredInputs(required: set<string>, optional: set<string>, provided: set<string>, file: string)
    requires !(required <= provided)
    ensures InputsVerdict(Returned((required, optional)), Some(provided), file).Returned?
    ensures
      var v := InputsVerdict(Returned((required, optional)), Some(provided), file).value;
      && !v.result && v.warnings == [] && |v.errors| == 1
      && v.errors[0] == MissingBlueprintInputs(file, v.errors[0].names)
      && (forall n :: n in v.errors[0].names <==> n in required && n !in provided)
      && (forall i, j :: 0 <= i < j < |v.errors[0].names| ==> LexLe(v.errors[0].names[i], v.errors[0].names[j]))
  {
    var missing := required - provided;
    var n :| n in required && n !in provided;
    assert n in missing;
    SortedListSorted(missing);
  }

  /** Every required input provided: the check passes, with one warning naming
      the provided inputs the blueprint does not declare, sorted, when there
      are any. */
  lemma UnknownProvidedInputs(required: set<string>, optional: set<string>, provided: set<string>, file: string)
    requires required <= provided
    ensures InputsVerdict(Returned((required, optional)), Some(provided), file).Returned?
    ensures
      var v := InputsVerdict(Returned((required, optional)), Some(provided), file).value;
      && v.result && v.errors == [] && |v.warnings| <= 1
      && (v.warnings != [] <==> exists n :: n in provided && n !in required && n !in optional)
      && (v.warnings != [] ==>
            && v.warnings[0] == UnknownBlueprintInputs(file, v.warnings[0].names)
            && (forall n :: n in v.warnings[0].names <==> n in provided && n !in required && n !in optional)
            && (forall i, j :: 0 <= i < j < |v.warnings[0].names| ==> LexLe(v.warnings[0].names[i], v.warnings[0].names[j])))
  {
    assert required - provided == {};
    var unknown := provided - (required + optional);
    SortedListSorted(unknown);
    if exists n :: n in provided && n !in required && n !in optional {
      var n :| n in provided && n !in required && n !in optional;
      assert n in unknown;
    }
  }

  /** Whatever the branch, a check appends at most one error and at most one
      warning, never both, and returns false exactly when it appends an error
      or the missing-path warning. */
  lemma CheckBlueprintShape(automation: seq<(string, Tree)>, index: Dict<Tree>, file: string)
    requires CheckBlueprint(automation, index, file).Returned?
    ensures
      var v := CheckBlueprint(automation, index, file).value;
      && |v.errors| <= 1 && |v.warnings| <= 1 && (v.errors == [] || v.warnings == [])
      && (!v.result <==> v.errors != [] || v.warnings == [BlueprintMissingPath(file)])
      && (forall g :: g in v.errors ==> g.MissingBlueprintInputs?)
      && (forall g :: g in v.warnings ==> g == BlueprintMissingPath(file) || g.UnknownBlueprintInputs?)
  {
    if Has(automation, "use_blueprint") {
      var ub := ConfigTree.Get(automation, "use_blueprint");
      if ub.Map? {
        var path := GetOr(ub.entries, "path", Str(""));
        if Truthy(path) && path.Str? && FirstMatch(Keys(index), path.s) < |index| {
          CheckInputsShape(BlueprintInputs(index, Keys(index)[FirstMatch(Keys(index), path.s)]), ProvidedInputs(ub.entries), file);
        }
      }
    }
  }

  /** The input check appends one missing-input error or at most one
      unknown-input warning, and fails exactly when it appends the error. */
  lemma CheckInputsShape(sets: Outcome<(set<string>, set<string>)>, given: Option<set<string>>, file: string)
    requires InputsVerdict(sets, given, file).Returned?
    ensures
      var v := InputsVerdict(sets, given, file).value;
      && |v.errors| <= 1 && |v.warnings| <= 1 && (v.errors == [] || v.warnings == [])
      && (!v.result <==> v.errors != [])
      && (forall g :: g in v.errors ==> g.MissingBlueprintInputs?)
      && (forall g :: g in v.warnings ==> g.UnknownBlueprintInputs?)
  {
  }

}
