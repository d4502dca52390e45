/** The validation configuration shared by the three validators: its sections,
    the table used when no usable file exists, the typed accessors with their
    fall-backs, and the process-wide holder of the one shared instance. */
module Settings {
  import opened Wrappers
  import opened ConfigTree
  import opened PyDict

  /** An entry of `hardcoded_url_patterns` or `mqtt_warning_patterns`: the values
      of its `pattern` and `message` keys, `None` when a key is absent. */
  datatype PatternRule = PatternRule(pattern: Option<string>, message: Option<string>)

  /** The top-level sections of the configuration document, `None` when the key
      is absent. An entry of `environment_patterns` is represented by the value
      of its `pattern` key. */
  datatype Config = Config(
    minHaVersion: Option<string>,
    environmentPatterns: Option<seq<Option<string>>>,
    deprecatedPatterns: Option<seq<Tree>>,
    recommendedFields: Option<seq<(string, Tree)>>,
    stderrIgnorePatterns: Option<seq<string>>,
    timeouts: Option<Dict<int>>,
    builtinServiceDomains: Option<seq<string>>,
    hardcodedUrlPatterns: Option<seq<PatternRule>>,
    mqttWarningPatterns: Option<seq<PatternRule>>)

  /** `{}`: a document with none of the sections (also what an empty file gives). */
  const EmptyConfig := Config(None, None, None, None, None, None, None, None, None)

  const DefaultBuiltinDomains: seq<string> := [
    "homeassistant", "automation", "script", "scene", "input_boolean",
    "input_number", "input_select", "input_text", "light", "switch", "cover",
    "fan", "climate", "media_player", "camera", "lock", "vacuum", "notify",
    "persistent_notification"
  ]

  /** `_use_defaults`. */
  function Defaults(): Config {
    Config(
      minHaVersion := Some("2024.1.0"),
      environmentPatterns := Some([
        Some("Integration 'mobile_app' could not be loaded"),
        Some("Unable to install package"),
        Some("RuntimeError:")]),
      deprecatedPatterns := Some([]),
      recommendedFields := Some([]),
      stderrIgnorePatterns := Some(["debug", "info:", "starting", "voluptuous"]),
      timeouts := Some([("ha_check_config", 120), ("yaml_validation", 30), ("reference_validation", 60)]),
      builtinServiceDomains := Some(DefaultBuiltinDomains),
      hardcodedUrlPatterns := Some([]),
      mqttWarningPatterns := Some([]))
  }

  /** What reading the configuration file gave. */
  datatype ConfigFile =
    | Missing
    | InvalidYaml(detail: string)
    | PermissionDenied(detail: string)
    | Unreadable(detail: string)
    | Loaded(doc: Config)

  // ----- accessors -----

  function MinHaVersion(c: Config): (v: string)
    ensures c.minHaVersion.None? ==> v == "2024.1.0"
    ensures c.minHaVersion.Some? ==> v == c.minHaVersion.value
  {
    match c.minHaVersion
    case Some(v) => v
    case None => "2024.1.0"
  }

  /** The non-empty `pattern` values of the entries, in order. */
  function NonEmptyPatterns(entries: seq<Option<string>>): (r: seq<string>)
    ensures |r| <= |entries|
    ensures forall x :: x in r <==> x != "" && Some(x) in entries
  {
    if entries == [] then []
    else
      var rest := NonEmptyPatterns(entries[1..]);
      assert forall e :: e in entries <==> e == entries[0] || e in entries[1..];
      match entries[0]
      case Some(p) => if p != "" then [p] + rest else rest
      case None => rest
  }

  lemma {:induction false} NonEmptyPatternsAppend(entries: seq<Option<string>>, e: Option<string>)
    ensures NonEmptyPatterns(entries + [e])
         == NonEmptyPatterns(entries) + (if e.Some? && e.value != "" then [e.value] else [])
  {
    if entries == [] {
      assert [] + [e] == [e];
    } else {
      assert (entries + [e])[1..] == entries[1..] + [e];
      NonEmptyPatternsAppend(entries[1..], e);
    }
  }

  function EnvironmentPatterns(c: Config): (r: seq<string>)
    ensures forall x :: x in r <==>
      x != "" && c.environmentPatterns.Some? && Some(x) in c.environmentPatterns.value
  {
    match c.environmentPatterns
    case Some(entries) => NonEmptyPatterns(entries)
    case None => []
  }

  function DeprecatedPatterns(c: Config): (r: seq<Tree>)
    ensures c.deprecatedPatterns.None? ==> r == []
    ensures c.deprecatedPatterns.Some? ==> r == c.deprecatedPatterns.value
  {
    match c.deprecatedPatterns
    case Some(ps) => ps
    case None => []
  }

  function RecommendedFields(c: Config): (r: seq<(string, Tree)>)
    ensures c.recommendedFields.None? ==> r == []
    ensures c.recommendedFields.Some? ==> r == c.recommendedFields.value
  {
    match c.recommendedFields
    case Some(fs) => fs
    case None => []
  }

  function StderrIgnorePatterns(c: Config): (r: seq<string>)
    ensures c.stderrIgnorePatterns.None? ==> r == []
    ensures c.stderrIgnorePatterns.Some? ==> r == c.stderrIgnorePatterns.value
  {
    match c.stderrIgnorePatterns
    case Some(ps) => ps
    case None => []
  }

  function BuiltinServiceDomains(c: Config): (r: set<string>)
    ensures forall d :: d in r <==> c.builtinServiceDomains.Some? && d in c.builtinServiceDomains.value
  {
    match c.builtinServiceDomains
    case Some(ds) => set d | d in ds
    case None => {}
  }

  function HardcodedUrlPatterns(c: Config): (r: seq<PatternRule>)
    ensures c.hardcodedUrlPatterns.None? ==> r == []
    ensures c.hardcodedUrlPatterns.Some? ==> r == c.hardcodedUrlPatterns.value
  {
    match c.hardcodedUrlPatterns
    case Some(ps) => ps
    case None => []
  }

  function MqttWarningPatterns(c: Config): (r: seq<PatternRule>)
    ensures c.mqttWarningPatterns.None? ==> r == []
    ensures c.mqttWarningPatterns.Some? ==> r == c.mqttWarningPatterns.value
  {
    match c.mqttWarningPatterns
    case Some(ps) => ps
    case None => []
  }

  /** `get_timeout`: the configured number of seconds, 120 when either the
      section or the key is absent. */
  function GetTimeout(c: Config, key: string): (t: int)
    ensures (c.timeouts.None? || !HasKey(c.timeouts.value, key)) ==> t == 120
    ensures c.timeouts.Some? && HasKey(c.timeouts.value, key) ==> t == PyDict.Get(c.timeouts.value, key)
  {
    match c.timeouts
    case Some(d) => if HasKey(d, key) then PyDict.Get(d, key) else 120
    case None => 120
  }

  // ----- the default table and the empty document -----

  /** The default table's version floor and pattern lists. */
  lemma DefaultPatternValues()
    ensures MinHaVersion(Defaults()) == "2024.1.0"
    ensures EnvironmentPatterns(Defaults()) == [
      "Integration 'mobile_app' could not be loaded", "Unable to install package", "RuntimeError:"]
    ensures StderrIgnorePatterns(Defaults()) == ["debug", "info:", "starting", "voluptuous"]
    ensures HardcodedUrlPatterns(Defaults()) == [] && MqttWarningPatterns(Defaults()) == []
  {
    var es := [Some("Integration 'mobile_app' could not be loaded"), Some("Unable to install package"), Some("RuntimeError:")];
    assert es[1..][1..][1..] == [];
    assert NonEmptyPatterns(es[1..][1..]) == ["RuntimeError:"];
    assert NonEmptyPatterns(es[1..]) == ["Unable to install package", "RuntimeError:"];
  }

  /** The default table's timeouts. */
  lemma DefaultTimeoutValues()
    ensures GetTimeout(Defaults(), "ha_check_config") == 120
    ensures GetTimeout(Defaults(), "yaml_validation") == 30
    ensures GetTimeout(Defaults(), "reference_validation") == 60
  {
    var d: Dict<int> := [("ha_check_config", 120), ("yaml_validation", 30), ("reference_validation", 60)];
    assert d[0].0 == "ha_check_config" && d[1].0 == "yaml_validation" && d[2].0 == "reference_validation";
    assert Position(d, "ha_check_config") == 0;
    assert Position(d, "yaml_validation") == 1;
    assert Position(d, "reference_validation") == 2;
  }

  /** The default table's builtin domains include `script` and `scene`, whose
      `reload` and similar services therefore never reach the script and scene
      checks, and do not include `mqtt`. */
  lemma DefaultBuiltinValues()
    ensures "script" in BuiltinServiceDomains(Defaults()) && "scene" in BuiltinServiceDomains(Defaults())
    ensures "light" in BuiltinServiceDomains(Defaults()) && "mqtt" !in BuiltinServiceDomains(Defaults())
  {
    assert DefaultBuiltinDomains[2] == "script" && DefaultBuiltinDomains[3] == "scene";
    assert DefaultBuiltinDomains[8] == "light";
  }

  /** A loaded file is not merged with the default table: every section it
      lacks falls back to the accessor's own default, so a file without
      `builtin_service_domains` makes every domain non-builtin, and one without
      `timeouts` gives 120 seconds for every key. */
  lemma EmptyDocumentValues(key: string)
    ensures MinHaVersion(EmptyConfig) == "2024.1.0"
    ensures EnvironmentPatterns(EmptyConfig) == []
    ensures StderrIgnorePatterns(EmptyConfig) == []
    ensures BuiltinServiceDomains(EmptyConfig) == {}
    ensures GetTimeout(EmptyConfig, key) == 120
  {
  }

  /** `_load_config`: a missing or unusable file gives the default table, a
      loaded one exactly its own sections. */
  function LoadConfig(f: ConfigFile): (c: Config)
    ensures !f.Loaded? ==> c == Defaults()
    ensures f.Loaded? ==> c == f.doc
  {
    match f
    case Loaded(doc) => doc
    case _ => Defaults()
  }

  /** A `ValidationConfig` object: the configuration it holds. */
  class ValidationConfig {
    var config: Config

    /** `__init__`: start from `{}` and load the file. */
    constructor (source: ConfigFile)
      ensures config == LoadConfig(source)
    {
      config := EmptyConfig;
      new;
      if source.Loaded? {
        config := source.doc;
      } else {
        UseDefaults();
      }
    }

    /** `_use_defaults`. */
    method UseDefaults()
      modifies this
      ensures config == Defaults()
    {
      config := Defaults();
    }

    /** `get_raw_config`: the configuration held. The source copies only the
        top-level mapping, so nested sections stay shared with it; a value
        cannot express that sharing. */
    method GetRawConfig() returns (r: Config)
      ensures r == config
    {
      r := config;
    }
  }

  /** The class attribute `_instance` of `ValidationConfig`. */
  class ConfigHolder {
    var instance: ValidationConfig?

    constructor ()
      ensures instance == null
    {
      instance := null;
    }

    /** `get_instance`: the first call builds the instance from `source`; later
        calls return that same object and ignore their argument. */
    method GetInstance(source: ConfigFile) returns (v: ValidationConfig)
      modifies this
      ensures old(instance) != null ==> v == old(instance)
      ensures old(instance) == null ==> fresh(v) && v.config == LoadConfig(source)
      ensures instance == v
    {
      if instance == null {
        instance := new ValidationConfig(source);
      }
      v := instance;
    }

    /** `reset_instance`. */
    method ResetInstance()
      modifies this
      ensures instance == null
    {
      instance := null;
    }

    /** Two calls in a row give one object, built from the first call's source. */
    method GetInstanceTwice(first: ConfigFile, second: ConfigFile) returns (v1: ValidationConfig, v2: ValidationConfig)
      requires instance == null
      modifies this
      ensures v1 == v2 && v2.config == LoadConfig(first)
    {
      v1 := GetInstance(first);
      v2 := GetInstance(second);
    }
  }
}
