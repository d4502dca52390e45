/** The `YAMLValidator` object: its `errors` and `warnings` lists, the checks
    of one file that append to them, the recursive walks over a parsed
    document, and `validate_all` over a configuration directory. What the
    files hold and which files the directory has are given; the validation
    configuration is the one shared instance, fixed when the object is built. */
module YamlValidation {
  import opened Wrappers
  import opened Text
  import opened ConfigTree
  import opened Files
  import opened Settings
  import opened Lists
  import opened YamlChecks

  class YamlValidator {
    const configDir: string
    const settings: Config
    var errors: seq<YamlFinding>
    var warnings: seq<YamlFinding>

    constructor (configDir: string, settings: Config)
      ensures this.configDir == configDir && this.settings == settings
      ensures errors == [] && warnings == []
    {
      this.configDir := configDir;
      this.settings := settings;
      errors := [];
      warnings := [];
    }

    /** `validate_yaml_syntax`: true exactly when the file parses, otherwise
        one error naming the failure. */
    method ValidateYamlSyntax(f: YamlFile) returns (ok: bool)
      modifies this`errors
      ensures ok <==> f.content.Parsed?
      ensures errors == old(errors) + SyntaxFindings(f)
    {
      match f.content
      case Parsed(_) =>
        ok := true;
      case BadYaml(e) =>
        errors := errors + [YamlSyntaxError(f.path, e)];
        ok := false;
      case NotUtf8(e) =>
        errors := errors + [EncodingError(f.path, e)];
        ok := false;
      case NotFound(_) =>
        errors := errors + [FileMissing(f.path)];
        ok := false;
      case PermissionDenied(_) =>
        errors := errors + [ReadDenied(f.path)];
        ok := false;
      case ReadError(e) =>
        errors := errors + [UnexpectedError(f.path, e)];
        ok := false;
      case LoadError(e) =>
        errors := errors + [UnexpectedError(f.path, e)];
        ok := false;
    }

    /** `validate_file_encoding`: false with one error for a file that is not
        UTF-8; any other read failure escapes as an exception. */
    method ValidateFileEncoding(f: YamlFile) returns (r: Outcome<bool>)
      modifies this`errors
      ensures r.Raised? <==> ReadFails(f.content)
      ensures r == Returned(false) <==> f.content.NotUtf8?
      ensures errors == old(errors) + (if f.content.NotUtf8? then [MustBeUtf8(f.path)] else [])
    {
      if ReadFails(f.content) {
        r := Raised;
      } else if f.content.NotUtf8? {
        errors := errors + [MustBeUtf8(f.path)];
        r := Returned(false);
      } else {
        r := Returned(true);
      }
    }

    /** `validate_configuration_structure`. */
    method ValidateConfigurationStructure(f: YamlFile) returns (ok: bool)
      modifies this`errors, this`warnings
      ensures ok == ConfigReport(f).ok
      ensures errors == old(errors) + ConfigReport(f).errors
      ensures warnings == old(warnings) + ConfigReport(f).warnings
    {
      if f.name != "configuration.yaml" {
        assert ConfigReport(f) == Accepted;
        return true;
      }
      if !f.content.Parsed? {
        errors := errors + [StructureFailed(f.path, f.content.detail)];
        return false;
      }
      if !f.content.doc.Map? {
        errors := errors + [ConfigNotDict(f.path)];
        return false;
      }
      var es := f.content.doc.entries;
      assert ConfigReport(f) == Report(true, [], ConfigWarnings(f.path, es));
      if !Has(es, "homeassistant") {
        warnings := warnings + [MissingHomeassistant(f.path)];
      }
      ghost var w1 := warnings;
      for i := 0 to |DeprecatedKeys|
        invariant errors == old(errors)
        invariant warnings == w1 + DeprecatedKeyWarnings(f.path, es, DeprecatedKeys[..i])
      {
        var key := DeprecatedKeys[i];
        if Has(es, key) {
          warnings := warnings + [DeprecatedKey(f.path, key)];
        }
        ConcatStepAfter(w1, (f.path, es), DeprecatedKeys, i, KeyWarning);
      }
      assert DeprecatedKeys[..|DeprecatedKeys|] == DeprecatedKeys;
      ok := true;
    }

    /** `validate_automations_structure`. */
    method ValidateAutomationsStructure(f: YamlFile) returns (ok: bool)
      modifies this`errors, this`warnings
      ensures ok == AutomationsReport(f).ok
      ensures errors == old(errors) + AutomationsReport(f).errors
      ensures warnings == old(warnings) + AutomationsReport(f).warnings
    {
      if f.name != "automations.yaml" {
        return true;
      }
      if !f.content.Parsed? {
        errors := errors + [AutomationsFailed(f.path, f.content.detail)];
        return false;
      }
      if f.content.doc.Null? {
        return true;
      }
      if !f.content.doc.Seq? {
        errors := errors + [AutomationsNotList(f.path)];
        return false;
      }
      var ts := f.content.doc.items;
      ghost var e0, w0 := errors, warnings;
      var allValid := true;
      for i := 0 to |ts|
        invariant errors == e0 + Flat(f.path, ts[..i], AutomationErrors)
        invariant warnings == w0 + Flat(f.path, ts[..i], AutomationWarnings)
        invariant allValid <==> Flat(f.path, ts[..i], AutomationErrors) == []
      {
        var valid := CheckAutomation(f.path, i, ts[i]);
        if !valid {
          allValid := false;
        }
        FlatStepAfter(e0, f.path, ts, i, AutomationErrors);
        FlatStepAfter(w0, f.path, ts, i, AutomationWarnings);
        FlatStep(f.path, ts, i, AutomationErrors);
      }
      assert ts[..|ts|] == ts;
      ok := allValid;
    }

    /** The body of the loop of `validate_automations_structure`: the checks
        of the automation at index `i`. */
    method CheckAutomation(file: string, i: nat, automation: Tree) returns (valid: bool)
      modifies this`errors, this`warnings
      ensures valid <==> AutomationErrors(file, i, automation) == []
      ensures errors == old(errors) + AutomationErrors(file, i, automation)
      ensures warnings == old(warnings) + AutomationWarnings(file, i, automation)
    {
      valid := true;
      if !automation.Map? {
        errors := errors + [AutomationNotDict(file, i)];
        return false;
      }
      var es := automation.entries;
      ghost var e0 := errors;
      if !Has(es, "use_blueprint") {
        if !Has(es, "trigger") && !Has(es, "triggers") {
          errors := errors + [MissingTrigger(file, i)];
          valid := false;
        }
        if !Has(es, "action") && !Has(es, "actions") {
          errors := errors + [MissingAction(file, i)];
          valid := false;
        }
      }
      assert errors == e0 + AutomationErrors(file, i, automation);
      if !Has(es, "alias") {
        warnings := warnings + [MissingAlias(file, i)];
      }
      CheckAutomationBestPractices(es, file, i);
    }

    /** `_check_automation_best_practices`. */
    method CheckAutomationBestPractices(es: seq<(string, Tree)>, file: string, index: nat)
      modifies this`warnings
      ensures warnings == old(warnings) + ModeHint(file, index, es)
    {
      if !Has(es, "mode") && !Has(es, "use_blueprint") {
        var alias := GetOr(es, "alias", Str("Automation " + NatToString(index)));
        warnings := warnings + [ConsiderMode(file, alias)];
      }
    }

    /** `validate_scripts_structure`. */
    method ValidateScriptsStructure(f: YamlFile) returns (ok: bool)
      modifies this`errors
      ensures ok == ScriptsReport(f).ok
      ensures errors == old(errors) + ScriptsReport(f).errors
      ensures ScriptsReport(f).warnings == []
    {
      if f.name != "scripts.yaml" {
        return true;
      }
      if !f.content.Parsed? {
        errors := errors + [ScriptsFailed(f.path, f.content.detail)];
        return false;
      }
      if f.content.doc.Null? {
        return true;
      }
      if !f.content.doc.Map? {
        errors := errors + [ScriptsNotDict(f.path)];
        return false;
      }
      var es := f.content.doc.entries;
      ghost var e0 := errors;
      var allValid := true;
      for i := 0 to |es|
        invariant errors == e0 + Concat(f.path, es[..i], ScriptErrors)
        invariant allValid <==> Concat(f.path, es[..i], ScriptErrors) == []
      {
        var (name, config) := es[i];
        if !config.Map? {
          errors := errors + [ScriptNotDict(f.path, name)];
          allValid := false;
        } else if !Has(config.entries, "use_blueprint") && !Has(config.entries, "sequence") {
          errors := errors + [ScriptMissingSequence(f.path, name)];
          allValid := false;
        }
        ConcatStepAfter(e0, f.path, es, i, ScriptErrors);
        ConcatStep(f.path, es, i, ScriptErrors);
      }
      assert es[..|es|] == es;
      ok := allValid;
    }

    /** `check_deprecated_patterns`: the warnings are those of the deprecation
        walk over every node below `data`. */
    method CheckDeprecatedPatterns(data: Tree, file: string, path: string)
      modifies this`warnings
      ensures warnings == old(warnings) + Hits(file, Deprecated, Visits(data, path, false))
      decreases data
    {
      ghost var w0 := warnings;
      WalkStart(w0, file, Deprecated, data, path, false);
      match data
      case Map(es) =>
        for i := 0 to |es|
          invariant warnings == w0 + Hits(file, Deprecated, EntryVisits(es[..i], path, false))
        {
          var (key, value) := es[i];
          var current := Child(path, key);
          CheckDeprecatedKey(file, current, key, value);
          assert es[i] in es;
          CheckDeprecatedPatterns(value, file, current);
          DeprecatedEntryStep(w0, file, es, i, path);
        }
        assert es[..|es|] == es;
      case Seq(ts) =>
        for i := 0 to |ts|
          invariant warnings == w0 + Hits(file, Deprecated, ItemVisits(ts[..i], path, false))
        {
          assert ts[i] in ts;
          CheckDeprecatedPatterns(ts[i], file, Item(path, i));
          ItemStep(w0, file, Deprecated, ts, i, path, false);
        }
        assert ts[..|ts|] == ts;
      case _ =>
    }

    /** The two deprecated patterns `check_deprecated_patterns` looks for on
        one key: `enabled: false` and a device id. */
    method CheckDeprecatedKey(file: string, current: string, key: string, value: Tree)
      modifies this`warnings
      ensures warnings == old(warnings) + VisitFindings(file, Deprecated, Visit(current, Some(key), value))
    {
      if key == "enabled" && value == Bool(false) {
        warnings := warnings + [EnabledFalse(file, current)];
      }
      if key == "device_id" || key == "device_ids" {
        warnings := warnings + [DeviceIdFragile(file, current)];
      }
    }

    /** The loop over the configured patterns for one string. */
    method ScanString(file: string, path: string, s: string, scan: Scan, rules: seq<PatternRule>)
      modifies this`warnings
      ensures warnings == old(warnings) + RuleHits(file, path, s, scan, rules)
    {
      ghost var w0 := warnings;
      for j := 0 to |rules|
        invariant warnings == w0 + RuleHits(file, path, s, scan, rules[..j])
      {
        var rule := rules[j];
        var pattern := PatternOf(rule);
        var hit := if scan.MqttTopics? then Contains(Lower(s), Lower(pattern)) else Contains(s, pattern);
        if pattern != "" && hit {
          warnings := warnings + [PatternHit(file, path, RuleMessage(scan, rule))];
        }
        ConcatStepAfter(w0, (file, path, s, scan), rules, j, RuleHit);
      }
      assert rules[..|rules|] == rules;
    }

    /** `check_hardcoded_urls`: one warning per string below `data` and
        configured pattern occurring in it. */
    method CheckHardcodedUrls(data: Tree, file: string, path: string)
      modifies this`warnings
      ensures warnings == old(warnings) + Hits(file, HardcodedUrls(HardcodedUrlPatterns(settings)), Visits(data, path, false))
      decreases data
    {
      var scan := HardcodedUrls(HardcodedUrlPatterns(settings));
      ghost var w0 := warnings;
      WalkStart(w0, file, scan, data, path, false);
      match data
      case Str(s) =>
        ScanString(file, path, s, scan, scan.rules);
      case Map(es) =>
        for i := 0 to |es|
          invariant warnings == w0 + Hits(file, scan, EntryVisits(es[..i], path, false))
        {
          var (key, value) := es[i];
          assert es[i] in es;
          CheckHardcodedUrls(value, file, Child(path, key));
          PatternEntryStep(w0, file, scan, es, i, path, false);
        }
        assert es[..|es|] == es;
      case Seq(ts) =>
        for i := 0 to |ts|
          invariant warnings == w0 + Hits(file, scan, ItemVisits(ts[..i], path, false))
        {
          assert ts[i] in ts;
          CheckHardcodedUrls(ts[i], file, Item(path, i));
          ItemStep(w0, file, scan, ts, i, path, false);
        }
        assert ts[..|ts|] == ts;
      case _ =>
    }

    /** `check_mqtt_topics`: the MQTT walk, which enters only topic keys and
        containers. */
    method CheckMqttTopics(data: Tree, file: string, path: string)
      modifies this`warnings
      ensures warnings == old(warnings) + Hits(file, MqttTopics(MqttWarningPatterns(settings)), Visits(data, path, true))
      decreases data
    {
      var scan := MqttTopics(MqttWarningPatterns(settings));
      ghost var w0 := warnings;
      WalkStart(w0, file, scan, data, path, true);
      match data
      case Str(s) =>
        ScanString(file, path, s, scan, scan.rules);
      case Map(es) =>
        for i := 0 to |es|
          invariant warnings == w0 + Hits(file, scan, EntryVisits(es[..i], path, true))
        {
          var (key, value) := es[i];
          assert es[i] in es;
          if key in MqttKeys {
            CheckMqttTopics(value, file, Child(path, key));
          } else if value.Map? || value.Seq? {
            CheckMqttTopics(value, file, Child(path, key));
          }
          PatternEntryStep(w0, file, scan, es, i, path, true);
        }
        assert es[..|es|] == es;
      case Seq(ts) =>
        for i := 0 to |ts|
          invariant warnings == w0 + Hits(file, scan, ItemVisits(ts[..i], path, true))
        {
          assert ts[i] in ts;
          CheckMqttTopics(ts[i], file, Item(path, i));
          ItemStep(w0, file, scan, ts, i, path, true);
        }
        assert ts[..|ts|] == ts;
      case _ =>
    }

    /** `validate_deprecated_patterns_in_file`. */
    method ValidateDeprecatedPatternsInFile(f: YamlFile)
      modifies this`warnings
      ensures warnings == old(warnings) + PatternWarnings(f, settings)
    {
      if !f.content.Parsed? || f.content.doc == Null {
        assert warnings + [] == warnings;
        return;
      }
      var doc := f.content.doc;
      ghost var w0 := warnings;
      ghost var d := Hits(f.path, Deprecated, Visits(doc, "", false));
      ghost var u := Hits(f.path, HardcodedUrls(HardcodedUrlPatterns(settings)), Visits(doc, "", false));
      CheckDeprecatedPatterns(doc, f.path, "");
      CheckHardcodedUrls(doc, f.path, "");
      Associative(w0, d, u);
      if Contains(Lower(f.name), "mqtt") {
        ghost var m := Hits(f.path, MqttTopics(MqttWarningPatterns(settings)), Visits(doc, "", true));
        CheckMqttTopics(doc, f.path, "");
        Associative(w0, d + u, m);
        assert PatternWarnings(f, settings) == d + u + m;
      } else {
        assert PatternWarnings(f, settings) == d + u + [];
      }
    }

    /** The checks `validate_all` runs on a file that loaded; their results
        are discarded. */
    method CheckLoaded(f: YamlFile)
      requires Examined(f) && f.content.Parsed?
      modifies this`errors, this`warnings
      ensures errors == old(errors) + FileErrors(f)
      ensures warnings == old(warnings) + FileWarnings(f, settings)
    {
      ghost var w0 := warnings;
      CheckStructure(f);
      ghost var w1 := warnings;
      ValidateDeprecatedPatternsInFile(f);
      Associative(w0, StructureWarnings(f), PatternWarnings(f, settings));
    }

    /** The three structure checks, in order. */
    method CheckStructure(f: YamlFile)
      modifies this`errors, this`warnings
      ensures errors == old(errors) + StructureErrors(f)
      ensures warnings == old(warnings) + StructureWarnings(f)
    {
      ghost var e0, w0 := errors, warnings;
      ghost var c, a, s := ConfigReport(f), AutomationsReport(f), ScriptsReport(f);
      var _ := ValidateConfigurationStructure(f);
      var _ := ValidateAutomationsStructure(f);
      Associative(e0, c.errors, a.errors);
      Associative(w0, c.warnings, a.warnings);
      var _ := ValidateScriptsStructure(f);
      Associative(e0, c.errors + a.errors, s.errors);
      Associative(w0, c.warnings + a.warnings, s.warnings);
    }

    /** The encoding check, then the syntax check when it passes: whether
        the file loaded. */
    method ValidateLoading(f: YamlFile) returns (r: Outcome<bool>)
      modifies this`errors
      ensures r.Raised? <==> ReadFails(f.content)
      ensures r.Returned? ==> (r.value <==> f.content.Parsed?)
      ensures errors == old(errors) + LoadErrors(f)
      ensures f.content.Parsed? || ReadFails(f.content) ==> errors == old(errors)
    {
      r := ValidateFileEncoding(f);
      if r.Raised? || !r.value {
        return;
      }
      var syntax := ValidateYamlSyntax(f);
      r := Returned(syntax);
    }

    /** One round of the loop of `validate_all`. */
    method ValidateFile(f: YamlFile) returns (r: Outcome<bool>)
      modifies this`errors, this`warnings
      ensures r.Raised? <==> FileRaises(f)
      ensures r.Returned? ==> (r.value <==> FilePasses(f))
      ensures errors == old(errors) + FileErrors(f)
      ensures warnings == old(warnings) + FileWarnings(f, settings)
      ensures r.Raised? ==> errors == old(errors) && warnings == old(warnings)
    {
      if f.name == "secrets.yaml" {
        SkippedFileFindings(f, settings);
        return Returned(true);
      }
      r := ValidateLoading(f);
      if r.Returned? && r.value {
        CheckLoaded(f);
      } else {
        UnloadedFileFindings(f, settings);
      }
    }

    /** `validate_all` on a directory whose existence and `*.yaml`/`*.yml`
        files are given: false exactly when some file other than
        `secrets.yaml` is not UTF-8 or not valid YAML; the structure checks'
        results are discarded. A file whose read fails otherwise ends the run
        with its exception. */
    method ValidateAll(dirExists: bool, files: seq<YamlFile>) returns (r: Outcome<bool>)
      modifies this`errors, this`warnings
      ensures !dirExists ==>
        r == Returned(false) && errors == old(errors) + [DirMissing(configDir)] && warnings == old(warnings)
      ensures dirExists && files == [] ==>
        r == Returned(true) && errors == old(errors) && warnings == old(warnings) + [NoYamlFiles]
      ensures dirExists && files != [] ==>
        && (r.Raised? <==> exists i :: 0 <= i < |files| && FileRaises(files[i]))
        && (r.Returned? ==> (r.value <==> forall i :: 0 <= i < |files| ==> FilePasses(files[i])))
        && errors == old(errors) + AllErrors(files[..FirstRaise(files)])
        && warnings == old(warnings) + AllWarnings(files[..FirstRaise(files)], settings)
    {
      if !dirExists {
        errors := errors + [DirMissing(configDir)];
        return Returned(false);
      }
      if files == [] {
        warnings := warnings + [NoYamlFiles];
        return Returned(true);
      }
      r := ValidateFiles(files);
    }

    /** The loop of `validate_all` over the files found. */
    method ValidateFiles(files: seq<YamlFile>) returns (r: Outcome<bool>)
      modifies this`errors, this`warnings
      ensures r.Raised? <==> exists i :: 0 <= i < |files| && FileRaises(files[i])
      ensures r.Returned? ==> (r.value <==> forall i :: 0 <= i < |files| ==> FilePasses(files[i]))
      ensures errors == old(errors) + AllErrors(files[..FirstRaise(files)])
      ensures warnings == old(warnings) + AllWarnings(files[..FirstRaise(files)], settings)
    {
      ghost var e0, w0 := errors, warnings;
      var allValid := true;
      for i := 0 to |files|
        invariant i <= FirstRaise(files)
        invariant allValid == AllPass(files[..i])
        invariant errors == e0 + AllErrors(files[..i])
        invariant warnings == w0 + AllWarnings(files[..i], settings)
      {
        var valid := ValidateFile(files[i]);
        AllStep(e0, w0, files, i, settings);
        if valid.Raised? {
          assert FirstRaise(files) == i;
          assert errors == e0 + AllErrors(files[..FirstRaise(files)]);
          assert warnings == w0 + AllWarnings(files[..FirstRaise(files)], settings);
          return Raised;
        }
        assert !FileRaises(files[i]);
        assert i != FirstRaise(files);
        if !valid.value {
          allValid := false;
        }
      }
      assert files[..|files|] == files;
      AllPassIff(files);
      r := Returned(allValid);
    }
  }
}
