/** What the YAML validator reports and the specification of each of its
    checks: the findings as structured values with their wording, the walks
    over a parsed document, the structure checks of `configuration.yaml`,
    `automations.yaml` and `scripts.yaml`, and what checking one file of a
    directory appends. */
module YamlChecks {
  import opened Wrappers
  import opened Text
  import opened ConfigTree
  import opened Files
  import opened Settings
  import opened Lists

  datatype YamlFinding =
    | YamlSyntaxError(file: string, detail: string)
    | EncodingError(file: string, detail: string)
    | FileMissing(file: string)
    | ReadDenied(file: string)
    | UnexpectedError(file: string, detail: string)
    | MustBeUtf8(file: string)
    | ConfigNotDict(file: string)
    | MissingHomeassistant(file: string)
    | DeprecatedKey(file: string, key: string)
    | StructureFailed(file: string, detail: string)
    | AutomationsNotList(file: string)
    | AutomationNotDict(file: string, index: nat)
    | MissingTrigger(file: string, index: nat)
    | MissingAction(file: string, index: nat)
    | MissingAlias(file: string, index: nat)
    | ConsiderMode(file: string, alias: Tree)
    | AutomationsFailed(file: string, detail: string)
    | ScriptsNotDict(file: string)
    | ScriptNotDict(file: string, name: string)
    | ScriptMissingSequence(file: string, name: string)
    | ScriptsFailed(file: string, detail: string)
    | EnabledFalse(file: string, path: string)
    | DeviceIdFragile(file: string, path: string)
    | PatternHit(file: string, path: string, message: string)
    | DirMissing(dir: string)
    | NoYamlFiles

  /** `str(n)` for an integer. */
  function IntToString(n: int): string {
    if n < 0 then "-" + NatToString(-n) else NatToString(n)
  }

  /** How an `alias` value appears inside an f-string; a mapping or list is
      shown by its brackets only. */
  function Show(t: Tree): string {
    match t
    case Str(s) => s
    case Bool(b) => if b then "True" else "False"
    case Num(n) => IntToString(n)
    case Null => "None"
    case Map(_) => "{...}"
    case Seq(_) => "[...]"
  }

  /** The text the validator stores for a finding. */
  function Message(g: YamlFinding): string {
    match g
    case YamlSyntaxError(p, e) => p + ": YAML syntax error - " + e
    case EncodingError(p, e) => p + ": Encoding error - " + e
    case FileMissing(p) => p + ": File not found"
    case ReadDenied(p) => p + ": Permission denied"
    case UnexpectedError(p, e) => p + ": Unexpected error - " + e
    case MustBeUtf8(p) => p + ": File must be UTF-8 encoded"
    case ConfigNotDict(p) => p + ": Configuration must be a dictionary"
    case MissingHomeassistant(p) => p + ": Missing 'homeassistant' section"
    case DeprecatedKey(p, k) => p + ": '" + k + "' is deprecated"
    case StructureFailed(p, e) => p + ": Failed to validate structure - " + e
    case AutomationsNotList(p) => p + ": Automations must be a list"
    case AutomationNotDict(p, i) => p + ": Automation " + NatToString(i) + " must be a dictionary"
    case MissingTrigger(p, i) => p + ": Automation " + NatToString(i) + " missing 'trigger' or 'triggers'"
    case MissingAction(p, i) => p + ": Automation " + NatToString(i) + " missing 'action' or 'actions'"
    case MissingAlias(p, i) => p + ": Automation " + NatToString(i) + " missing 'alias' (recommended)"
    case ConsiderMode(p, a) =>
      p + ": '" + Show(a) + "' - Consider specifying 'mode' explicitly (single, restart, queued, parallel)"
    case AutomationsFailed(p, e) => p + ": Failed to validate automations structure - " + e
    case ScriptsNotDict(p) => p + ": Scripts must be a dictionary"
    case ScriptNotDict(p, n) => p + ": Script '" + n + "' must be a dictionary"
    case ScriptMissingSequence(p, n) => p + ": Script '" + n + "' missing required 'sequence' or 'use_blueprint'"
    case ScriptsFailed(p, e) => p + ": Failed to validate scripts structure - " + e
    case EnabledFalse(p, c) =>
      p + ": '" + c + "' - Consider disabling automations via the UI instead of 'enabled: false'"
    case DeviceIdFragile(p, c) =>
      p + ": '" + c + "' - device_id references are fragile; consider using entity_id instead"
    case PatternHit(p, c, m) => p + ": " + c + " - " + m
    case DirMissing(d) => "Config directory " + d + " does not exist"
    case NoYamlFiles => "No YAML files found in config directory"
  }

  /** The return value of a structure check and what it appends. */
  datatype Report = Report(ok: bool, errors: seq<YamlFinding>, warnings: seq<YamlFinding>)

  const Accepted := Report(true, [], [])

  // ----- syntax and encoding -----

  /** Reading the file (before any parsing) fails with something other than a
      decoding error; `validate_file_encoding` lets that exception escape. */
  predicate ReadFails(c: Content) {
    c.NotFound? || c.PermissionDenied? || c.ReadError?
  }

  /** What `validate_yaml_syntax` appends: nothing for a parsed file, one
      error naming the failure otherwise. */
  function SyntaxFindings(f: YamlFile): (r: seq<YamlFinding>)
    ensures |r| <= 1
    ensures r == [] <==> f.content.Parsed?
  {
    match f.content
    case Parsed(_) => []
    case BadYaml(e) => [YamlSyntaxError(f.path, e)]
    case NotUtf8(e) => [EncodingError(f.path, e)]
    case NotFound(_) => [FileMissing(f.path)]
    case PermissionDenied(_) => [ReadDenied(f.path)]
    case ReadError(e) => [UnexpectedError(f.path, e)]
    case LoadError(e) => [UnexpectedError(f.path, e)]
  }

  // ----- configuration.yaml -----

  const DeprecatedKeys: seq<string> := ["discovery", "introduction"]

  /** The warning for the deprecated key `k` in the mapping `c.1` of file `c.0`. */
  function KeyWarning(c: (string, seq<(string, Tree)>), k: string): seq<YamlFinding> {
    if Has(c.1, k) then [DeprecatedKey(c.0, k)] else []
  }

  /** One warning per key of `ks` the mapping has, in the order of `ks`. */
  function DeprecatedKeyWarnings(p: string, es: seq<(string, Tree)>, ks: seq<string>): seq<YamlFinding> {
    Concat((p, es), ks, KeyWarning)
  }

  function ConfigWarnings(p: string, es: seq<(string, Tree)>): seq<YamlFinding> {
    (if !Has(es, "homeassistant") then [MissingHomeassistant(p)] else [])
    + DeprecatedKeyWarnings(p, es, DeprecatedKeys)
  }

  /** `validate_configuration_structure`. */
  function ConfigReport(f: YamlFile): Report {
    if f.name != "configuration.yaml" then Accepted
    else if !f.content.Parsed? then Report(false, [StructureFailed(f.path, f.content.detail)], [])
    else if !f.content.doc.Map? then Report(false, [ConfigNotDict(f.path)], [])
    else Report(true, [], ConfigWarnings(f.path, f.content.doc.entries))
  }

  function Indicator(b: bool): nat {
    if b then 1 else 0
  }

  /** A `configuration.yaml` is accepted exactly when it parses to a mapping;
      a rejected one gets exactly one error, an accepted one none, and one
      warning for a missing `homeassistant` section plus one for each of the
      deprecated keys `discovery` and `introduction` it has. Other files are
      accepted untouched. */
  lemma ConfigReportSpec(f: YamlFile)
    ensures var r := ConfigReport(f);
      && (r.ok <==> f.name != "configuration.yaml" || (f.content.Parsed? && f.content.doc.Map?))
      && |r.errors| == (if r.ok then 0 else 1)
      && (!r.ok || f.name != "configuration.yaml" ==> r.warnings == [])
      && (r.ok && f.name == "configuration.yaml" ==>
            var es := f.content.doc.entries;
            |r.warnings| == Indicator(!Has(es, "homeassistant")) + Indicator(Has(es, "discovery"))
                            + Indicator(Has(es, "introduction"))
            && (MissingHomeassistant(f.path) in r.warnings <==> !Has(es, "homeassistant"))
            && (DeprecatedKey(f.path, "discovery") in r.warnings <==> Has(es, "discovery"))
            && (DeprecatedKey(f.path, "introduction") in r.warnings <==> Has(es, "introduction")))
  {
    if f.name == "configuration.yaml" && f.content.Parsed? && f.content.doc.Map? {
      var es := f.content.doc.entries;
      ConcatStep((f.path, es), DeprecatedKeys, 0, KeyWarning);
      ConcatStep((f.path, es), DeprecatedKeys, 1, KeyWarning);
      assert DeprecatedKeys[..0] == [] && DeprecatedKeys[..2] == DeprecatedKeys;
    }
  }

  // ----- automations.yaml -----

  /** Either key of a singular/plural pair is present. */
  predicate HasEither(es: seq<(string, Tree)>, a: string, b: string) {
    Has(es, a) || Has(es, b)
  }

  /** An automation the structure check accepts: a mapping that either uses a
      blueprint or has both a trigger and an action key. */
  predicate GoodAutomation(t: Tree) {
    t.Map? && (Has(t.entries, "use_blueprint")
               || (HasEither(t.entries, "trigger", "triggers") && HasEither(t.entries, "action", "actions")))
  }

  /** The errors for the automation at index `i`. */
  function AutomationErrors(p: string, i: nat, t: Tree): seq<YamlFinding> {
    if !t.Map? then [AutomationNotDict(p, i)]
    else if Has(t.entries, "use_blueprint") then []
    else
      (if !HasEither(t.entries, "trigger", "triggers") then [MissingTrigger(p, i)] else [])
      + (if !HasEither(t.entries, "action", "actions") then [MissingAction(p, i)] else [])
  }

  /** `_check_automation_best_practices`: a hint when neither `mode` nor
      `use_blueprint` is present, naming the alias or `Automation <i>`. */
  function ModeHint(p: string, i: nat, es: seq<(string, Tree)>): seq<YamlFinding> {
    if !Has(es, "mode") && !Has(es, "use_blueprint")
    then [ConsiderMode(p, GetOr(es, "alias", Str("Automation " + NatToString(i))))]
    else []
  }

  /** The warnings for the automation at index `i`. */
  function AutomationWarnings(p: string, i: nat, t: Tree): seq<YamlFinding> {
    if !t.Map? then []
    else (if !Has(t.entries, "alias") then [MissingAlias(p, i)] else []) + ModeHint(p, i, t.entries)
  }

  /** The errors for the automations `ts`, in order. */
  function AllAutomationErrors(p: string, ts: seq<Tree>): seq<YamlFinding> {
    Flat(p, ts, AutomationErrors)
  }

  function AllAutomationWarnings(p: string, ts: seq<Tree>): seq<YamlFinding> {
    Flat(p, ts, AutomationWarnings)
  }

  /** `validate_automations_structure`. */
  function AutomationsReport(f: YamlFile): Report {
    if f.name != "automations.yaml" then Accepted
    else if !f.content.Parsed? then Report(false, [AutomationsFailed(f.path, f.content.detail)], [])
    else match f.content.doc
      case Null => Accepted
      case Seq(ts) =>
        var errs := AllAutomationErrors(f.path, ts);
        Report(errs == [], errs, AllAutomationWarnings(f.path, ts))
      case _ => Report(false, [AutomationsNotList(f.path)], [])
  }

  /** The automation errors are empty exactly when every automation is
      accepted. */
  lemma AutomationErrorsFree(p: string, ts: seq<Tree>)
    ensures AllAutomationErrors(p, ts) == [] <==> forall i :: 0 <= i < |ts| ==> GoodAutomation(ts[i])
  {
    FlatEmpty(p, ts, AutomationErrors);
    assert forall i :: 0 <= i < |ts| ==> (AutomationErrors(p, i, ts[i]) == [] <==> GoodAutomation(ts[i]));
  }

  /** Automation `i` is reported as missing a trigger exactly when it is a
      mapping without `use_blueprint`, `trigger` and `triggers`; likewise for
      the action. */
  lemma MissingTriggerIff(p: string, ts: seq<Tree>, i: nat)
    ensures MissingTrigger(p, i) in AllAutomationErrors(p, ts) <==>
      i < |ts| && ts[i].Map? && !Has(ts[i].entries, "use_blueprint") && !HasEither(ts[i].entries, "trigger", "triggers")
    ensures MissingAction(p, i) in AllAutomationErrors(p, ts) <==>
      i < |ts| && ts[i].Map? && !Has(ts[i].entries, "use_blueprint") && !HasEither(ts[i].entries, "action", "actions")
    ensures AutomationNotDict(p, i) in AllAutomationErrors(p, ts) <==> i < |ts| && !ts[i].Map?
  {
    FlatMember(p, ts, AutomationErrors, MissingTrigger(p, i));
    FlatMember(p, ts, AutomationErrors, MissingAction(p, i));
    FlatMember(p, ts, AutomationErrors, AutomationNotDict(p, i));
    if i < |ts| {
      assert MissingTrigger(p, i) in AutomationErrors(p, i, ts[i]) <==>
        ts[i].Map? && !Has(ts[i].entries, "use_blueprint") && !HasEither(ts[i].entries, "trigger", "triggers");
      assert MissingAction(p, i) in AutomationErrors(p, i, ts[i]) <==>
        ts[i].Map? && !Has(ts[i].entries, "use_blueprint") && !HasEither(ts[i].entries, "action", "actions");
    }
  }

  /** Automation `i` gets the "missing 'alias'" warning exactly when it is a
      mapping without `alias`. */
  lemma MissingAliasIff(p: string, ts: seq<Tree>, i: nat)
    ensures MissingAlias(p, i) in AllAutomationWarnings(p, ts) <==>
      i < |ts| && ts[i].Map? && !Has(ts[i].entries, "alias")
  {
    FlatMember(p, ts, AutomationWarnings, MissingAlias(p, i));
  }

  /** The number of "Consider specifying 'mode'" hints in a list. */
  function ModeHints(ws: seq<YamlFinding>): nat
    decreases |ws|
  {
    if ws == [] then 0 else ModeHints(ws[..|ws| - 1]) + Indicator(ws[|ws| - 1].ConsiderMode?)
  }

  lemma {:induction false} ModeHintsAppend(a: seq<YamlFinding>, b: seq<YamlFinding>)
    ensures ModeHints(a + b) == ModeHints(a) + ModeHints(b)
    decreases |b|
  {
    if b == [] {
      assert a + b == a;
    } else {
      assert (a + b)[..|a + b| - 1] == a + b[..|b| - 1];
      assert (a + b)[|a + b| - 1] == b[|b| - 1];
      ModeHintsAppend(a, b[..|b| - 1]);
    }
  }

  /** The number of automations that are mappings with neither `mode` nor
      `use_blueprint`. */
  function Modeless(ts: seq<Tree>): nat
    decreases |ts|
  {
    if ts == [] then 0
    else
      var t := ts[|ts| - 1];
      Modeless(ts[..|ts| - 1]) + Indicator(t.Map? && !Has(t.entries, "mode") && !Has(t.entries, "use_blueprint"))
  }

  /** Each such automation gets exactly one mode hint. */
  lemma {:induction false} ModeHintPerModeless(p: string, ts: seq<Tree>)
    ensures ModeHints(AllAutomationWarnings(p, ts)) == Modeless(ts)
    decreases |ts|
  {
    if ts != [] {
      var n := |ts| - 1;
      ModeHintPerModeless(p, ts[..n]);
      ModeHintsAppend(AllAutomationWarnings(p, ts[..n]), AutomationWarnings(p, n, ts[n]));
      if ts[n].Map? {
        var es := ts[n].entries;
        var alias: seq<YamlFinding> := if !Has(es, "alias") then [MissingAlias(p, n)] else [];
        ModeHintsAppend(alias, ModeHint(p, n, es));
        assert ModeHints(alias) == 0;
      }
    }
  }

  /** The structure check of `automations.yaml`: true exactly when it adds no
      error, which for a list happens exactly when every automation is
      accepted; an empty file is accepted and anything but a list gets one
      error. */
  lemma AutomationsReportSpec(f: YamlFile)
    ensures var r := AutomationsReport(f);
      && (r.ok <==> r.errors == [])
      && (f.name == "automations.yaml" && f.content.Parsed? ==>
            match f.content.doc
            case Null => r == Accepted
            case Seq(ts) => r.ok <==> forall i :: 0 <= i < |ts| ==> GoodAutomation(ts[i])
            case _ => r == Report(false, [AutomationsNotList(f.path)], []))
  {
    if f.name == "automations.yaml" && f.content.Parsed? && f.content.doc.Seq? {
      AutomationErrorsFree(f.path, f.content.doc.items);
    }
  }

  // ----- scripts.yaml -----

  /** A script the structure check accepts. */
  predicate GoodScript(t: Tree) {
    t.Map? && (Has(t.entries, "use_blueprint") || Has(t.entries, "sequence"))
  }

  /** The error for the script `e.1` named `e.0`. */
  function ScriptErrors(p: string, e: (string, Tree)): seq<YamlFinding> {
    if !e.1.Map? then [ScriptNotDict(p, e.0)]
    else if !Has(e.1.entries, "use_blueprint") && !Has(e.1.entries, "sequence") then [ScriptMissingSequence(p, e.0)]
    else []
  }

  /** The errors for the scripts `es`, in order. */
  function AllScriptErrors(p: string, es: seq<(string, Tree)>): seq<YamlFinding> {
    Concat(p, es, ScriptErrors)
  }

  /** `validate_scripts_structure`. */
  function ScriptsReport(f: YamlFile): Report {
    if f.name != "scripts.yaml" then Accepted
    else if !f.content.Parsed? then Report(false, [ScriptsFailed(f.path, f.content.detail)], [])
    else match f.content.doc
      case Null => Accepted
      case Map(es) =>
        var errs := AllScriptErrors(f.path, es);
        Report(errs == [], errs, [])
      case _ => Report(false, [ScriptsNotDict(f.path)], [])
  }

  /** Each rejected script adds exactly one error, so the errors are empty
      exactly when every script is accepted, and there are as many as there
      are rejected scripts. */
  lemma {:induction false} ScriptErrorsCount(p: string, es: seq<(string, Tree)>)
    ensures |AllScriptErrors(p, es)| == |es| - GoodScripts(es)
    ensures AllScriptErrors(p, es) == [] <==> forall i :: 0 <= i < |es| ==> GoodScript(es[i].1)
    decreases |es|
  {
    if es != [] {
      ScriptErrorsCount(p, es[..|es| - 1]);
    }
    GoodScriptsBound(es);
  }

  /** A script is reported exactly when it is rejected: as not a mapping, or
      as missing both `sequence` and `use_blueprint`. */
  lemma ScriptErrorIff(p: string, es: seq<(string, Tree)>, name: string)
    ensures ScriptNotDict(p, name) in AllScriptErrors(p, es) <==>
      exists i :: 0 <= i < |es| && es[i].0 == name && !es[i].1.Map?
    ensures ScriptMissingSequence(p, name) in AllScriptErrors(p, es) <==>
      exists i :: 0 <= i < |es| && es[i].0 == name && es[i].1.Map?
                && !Has(es[i].1.entries, "use_blueprint") && !Has(es[i].1.entries, "sequence")
  {
    ConcatMember(p, es, ScriptErrors, ScriptNotDict(p, name));
    ConcatMember(p, es, ScriptErrors, ScriptMissingSequence(p, name));
  }

  /** The number of accepted scripts. */
  function GoodScripts(es: seq<(string, Tree)>): nat
    decreases |es|
  {
    if es == [] then 0 else GoodScripts(es[..|es| - 1]) + Indicator(GoodScript(es[|es| - 1].1))
  }

  lemma {:induction false} GoodScriptsBound(es: seq<(string, Tree)>)
    ensures GoodScripts(es) <= |es|
    ensures GoodScripts(es) == |es| <==> forall i :: 0 <= i < |es| ==> GoodScript(es[i].1)
    decreases |es|
  {
    if es != [] {
      var init := es[..|es| - 1];
      GoodScriptsBound(init);
      assert forall i :: 0 <= i < |init| ==> init[i] == es[i];
    }
  }

  /** The structure check of `scripts.yaml`: true exactly when it adds no
      error, which for a mapping happens exactly when every script is a
      mapping with `sequence` or `use_blueprint`; an empty file is accepted
      and anything but a mapping gets one error. It never warns. */
  lemma ScriptsReportSpec(f: YamlFile)
    ensures var r := ScriptsReport(f);
      && (r.ok <==> r.errors == []) && r.warnings == []
      && (f.name == "scripts.yaml" && f.content.Parsed? ==>
            match f.content.doc
            case Null => r == Accepted
            case Map(es) => r.ok <==> forall i :: 0 <= i < |es| ==> GoodScript(es[i].1)
            case _ => r == Report(false, [ScriptsNotDict(f.path)], []))
  {
    if f.name == "scripts.yaml" && f.content.Parsed? && f.content.doc.Map? {
      ScriptErrorsCount(f.path, f.content.doc.entries);
    }
  }

  // ----- walks over a document -----

  /** A node a walk reaches: its `current_path`, the key it sits under when
      it is a mapping value, and the node itself. */
  datatype Visit = Visit(path: string, key: Option<string>, value: Tree)

  /** `f"{path}.{key}" if path else key`. */
  function Child(path: string, k: string): string {
    if path != "" then path + "." + k else k
  }

  /** `f"{path}[{i}]"`. */
  function Item(path: string, i: nat): string {
    path + "[" + NatToString(i) + "]"
  }

  const MqttKeys: seq<string> := ["topic", "state_topic", "command_topic", "availability_topic"]

  /** Whether a walk enters the value under key `k`: always, except that the
      MQTT walk (`pruned`) enters only topic keys and containers. */
  predicate Descends(pruned: bool, k: string, v: Tree) {
    !pruned || k in MqttKeys || v.Map? || v.Seq?
  }

  /** The nodes a walk started at `t` reaches, in the order it reaches them:
      `t` itself, then everything inside it. */
  function Below(t: Tree, path: string, key: Option<string>, pruned: bool): seq<Visit>
    decreases t, 2
  {
    [Visit(path, key, t)] + Inner(t, path, pruned)
  }

  /** A walk from the top of a document. */
  function Visits(t: Tree, path: string, pruned: bool): seq<Visit> {
    Below(t, path, None, pruned)
  }

  function Inner(t: Tree, path: string, pruned: bool): seq<Visit>
    decreases t, 1
  {
    match t
    case Map(es) => EntryVisits(es, path, pruned)
    case Seq(ts) => ItemVisits(ts, path, pruned)
    case _ => []
  }

  /** The nodes reached from the first `|es|` pairs of a mapping. */
  function EntryVisits(es: seq<(string, Tree)>, path: string, pruned: bool): seq<Visit>
    decreases es, 0
  {
    if es == [] then []
    else
      var e := es[|es| - 1];
      assert e.1 < e;
      EntryVisits(es[..|es| - 1], path, pruned)
      + (if Descends(pruned, e.0, e.1) then Below(e.1, Child(path, e.0), Some(e.0), pruned) else [])
  }

  /** The nodes reached from the first `|ts|` items of a list. */
  function ItemVisits(ts: seq<Tree>, path: string, pruned: bool): seq<Visit>
    decreases ts, 0
  {
    if ts == [] then []
    else ItemVisits(ts[..|ts| - 1], path, pruned) + Below(ts[|ts| - 1], Item(path, |ts| - 1), None, pruned)
  }

  /** What a walk reports. */
  datatype Scan =
    | Deprecated
    | HardcodedUrls(rules: seq<PatternRule>)
    | MqttTopics(rules: seq<PatternRule>)

  /** `pattern_config.get("pattern", "")`. */
  function PatternOf(r: PatternRule): string {
    match r.pattern
    case Some(p) => p
    case None => ""
  }

  /** A rule fires on a string when its pattern is non-empty and occurs in it,
      ignoring ASCII case for MQTT topics. */
  predicate Fires(scan: Scan, r: PatternRule, s: string) {
    var p := PatternOf(r);
    p != "" && (if scan.MqttTopics? then Contains(Lower(s), Lower(p)) else Contains(s, p))
  }

  /** `pattern_config.get("message", <default>)`. */
  function RuleMessage(scan: Scan, r: PatternRule): string {
    match r.message
    case Some(m) => m
    case None =>
      if scan.MqttTopics? then "MQTT topic may be invalid"
      else "Hardcoded URL containing '" + PatternOf(r) + "'"
  }

  /** The warning rule `r` gives for the string `c.2` at path `c.1` of file `c.0`. */
  function RuleHit(c: (string, string, string, Scan), r: PatternRule): seq<YamlFinding> {
    if Fires(c.3, r, c.2) then [PatternHit(c.0, c.1, RuleMessage(c.3, r))] else []
  }

  /** The warnings the rules `rs` give for the string `s` at `path`, in order. */
  function RuleHits(file: string, path: string, s: string, scan: Scan, rs: seq<PatternRule>): seq<YamlFinding> {
    Concat((file, path, s, scan), rs, RuleHit)
  }

  /** What one reached node contributes. The deprecation walk looks at the
      key and value of mapping pairs; the pattern walks look only at strings. */
  function VisitFindings(file: string, scan: Scan, v: Visit): seq<YamlFinding> {
    match scan
    case Deprecated =>
      (if v.key == Some("enabled") && v.value == Bool(false) then [EnabledFalse(file, v.path)] else [])
      + (if v.key == Some("device_id") || v.key == Some("device_ids") then [DeviceIdFragile(file, v.path)] else [])
    case HardcodedUrls(rs) => if v.value.Str? then RuleHits(file, v.path, v.value.s, scan, rs) else []
    case MqttTopics(rs) => if v.value.Str? then RuleHits(file, v.path, v.value.s, scan, rs) else []
  }

  function Found(c: (string, Scan), v: Visit): seq<YamlFinding> {
    VisitFindings(c.0, c.1, v)
  }

  /** What a walk over the nodes `vs` appends, in order. */
  function Hits(file: string, scan: Scan, vs: seq<Visit>): seq<YamlFinding> {
    Concat((file, scan), vs, Found)
  }

  lemma HitsAppend(file: string, scan: Scan, a: seq<Visit>, b: seq<Visit>)
    ensures Hits(file, scan, a + b) == Hits(file, scan, a) + Hits(file, scan, b)
  {
    ConcatAppend((file, scan), a, b, Found);
  }

  /** A walk's findings at a node: the node's own, then those inside it. */
  lemma HitsBelow(file: string, scan: Scan, t: Tree, path: string, key: Option<string>, pruned: bool)
    ensures Hits(file, scan, Below(t, path, key, pruned))
         == VisitFindings(file, scan, Visit(path, key, t)) + Hits(file, scan, Inner(t, path, pruned))
  {
    HitsAppend(file, scan, [Visit(path, key, t)], Inner(t, path, pruned));
    ConcatSingle((file, scan), Visit(path, key, t), Found);
  }

  /** One more pair of a mapping. */
  lemma EntryVisitsStep(file: string, scan: Scan, es: seq<(string, Tree)>, i: nat, path: string, pruned: bool)
    requires i < |es|
    ensures Hits(file, scan, EntryVisits(es[..i + 1], path, pruned))
         == Hits(file, scan, EntryVisits(es[..i], path, pruned))
            + (if Descends(pruned, es[i].0, es[i].1)
               then Hits(file, scan, Below(es[i].1, Child(path, es[i].0), Some(es[i].0), pruned)) else [])
  {
    assert es[..i + 1][..i] == es[..i];
    var below := if Descends(pruned, es[i].0, es[i].1) then Below(es[i].1, Child(path, es[i].0), Some(es[i].0), pruned) else [];
    assert EntryVisits(es[..i + 1], path, pruned) == EntryVisits(es[..i], path, pruned) + below;
    HitsAppend(file, scan, EntryVisits(es[..i], path, pruned), below);
  }

  /** One more item of a list. */
  lemma ItemVisitsStep(file: string, scan: Scan, ts: seq<Tree>, i: nat, path: string, pruned: bool)
    requires i < |ts|
    ensures Hits(file, scan, ItemVisits(ts[..i + 1], path, pruned))
         == Hits(file, scan, ItemVisits(ts[..i], path, pruned)) + Hits(file, scan, Visits(ts[i], Item(path, i), pruned))
  {
    assert ts[..i + 1][..i] == ts[..i];
    HitsAppend(file, scan, ItemVisits(ts[..i], path, pruned), Visits(ts[i], Item(path, i), pruned));
  }

  /** The pattern walks ignore the key a node sits under. */
  lemma PatternScanIgnoresKey(file: string, scan: Scan, t: Tree, path: string, k: string, pruned: bool)
    requires !scan.Deprecated?
    ensures Hits(file, scan, Below(t, path, Some(k), pruned)) == Hits(file, scan, Visits(t, path, pruned))
  {
    HitsBelow(file, scan, t, path, Some(k), pruned);
    HitsBelow(file, scan, t, path, None, pruned);
  }

  /** A walk's findings, appended to `w`: those at its start, then those
      inside it. */
  lemma WalkStart(w: seq<YamlFinding>, file: string, scan: Scan, t: Tree, path: string, pruned: bool)
    ensures w + Hits(file, scan, Visits(t, path, pruned))
         == w + VisitFindings(file, scan, Visit(path, None, t)) + Hits(file, scan, Inner(t, path, pruned))
  {
    HitsBelow(file, scan, t, path, None, pruned);
  }

  /** One more pair in the deprecation walk: the pair's own warnings, then the
      walk below its value. */
  lemma DeprecatedEntryStep(w: seq<YamlFinding>, file: string, es: seq<(string, Tree)>, i: nat, path: string)
    requires i < |es|
    ensures w + Hits(file, Deprecated, EntryVisits(es[..i + 1], path, false))
         == w + Hits(file, Deprecated, EntryVisits(es[..i], path, false))
            + VisitFindings(file, Deprecated, Visit(Child(path, es[i].0), Some(es[i].0), es[i].1))
            + Hits(file, Deprecated, Visits(es[i].1, Child(path, es[i].0), false))
  {
    var cur := Child(path, es[i].0);
    EntryVisitsStep(file, Deprecated, es, i, path, false);
    HitsBelow(file, Deprecated, es[i].1, cur, Some(es[i].0), false);
    HitsBelow(file, Deprecated, es[i].1, cur, None, false);
    assert VisitFindings(file, Deprecated, Visit(cur, None, es[i].1)) == [];
  }

  /** One more pair in a pattern walk: the walk below its value, when the walk
      enters it. */
  lemma PatternEntryStep(w: seq<YamlFinding>, file: string, scan: Scan, es: seq<(string, Tree)>, i: nat, path: string, pruned: bool)
    requires i < |es|
    requires !scan.Deprecated?
    ensures w + Hits(file, scan, EntryVisits(es[..i + 1], path, pruned))
         == w + Hits(file, scan, EntryVisits(es[..i], path, pruned))
            + (if Descends(pruned, es[i].0, es[i].1) then Hits(file, scan, Visits(es[i].1, Child(path, es[i].0), pruned)) else [])
  {
    EntryVisitsStep(file, scan, es, i, path, pruned);
    PatternScanIgnoresKey(file, scan, es[i].1, Child(path, es[i].0), es[i].0, pruned);
  }

  /** One more item of a list, in any walk. */
  lemma ItemStep(w: seq<YamlFinding>, file: string, scan: Scan, ts: seq<Tree>, i: nat, path: string, pruned: bool)
    requires i < |ts|
    ensures w + Hits(file, scan, ItemVisits(ts[..i + 1], path, pruned))
         == w + Hits(file, scan, ItemVisits(ts[..i], path, pruned)) + Hits(file, scan, Visits(ts[i], Item(path, i), pruned))
  {
    ItemVisitsStep(file, scan, ts, i, path, pruned);
  }

  // ----- what the walks report -----

  /** A finding of a walk comes from some reached node. */
  lemma HitsMember(file: string, scan: Scan, vs: seq<Visit>, g: YamlFinding)
    ensures g in Hits(file, scan, vs) <==> exists i :: 0 <= i < |vs| && g in VisitFindings(file, scan, vs[i])
  {
    ConcatMember((file, scan), vs, Found, g);
  }

  /** A rule warning on a string comes from some firing rule. */
  lemma RuleHitsMember(file: string, path: string, s: string, scan: Scan, rs: seq<PatternRule>, g: YamlFinding)
    ensures g in RuleHits(file, path, s, scan, rs) <==>
      exists j :: 0 <= j < |rs| && Fires(scan, rs[j], s) && g == PatternHit(file, path, RuleMessage(scan, rs[j]))
  {
    ConcatMember((file, path, s, scan), rs, RuleHit, g);
  }

  /** The deprecation walk warns about `enabled: false` at a path exactly
      when it reaches a pair `enabled: false` there, and about a device key at
      a path exactly when it reaches `device_id` or `device_ids` there,
      whatever its value. */
  lemma DeprecationsIff(file: string, vs: seq<Visit>, p: string)
    ensures EnabledFalse(file, p) in Hits(file, Deprecated, vs) <==>
      exists i :: 0 <= i < |vs| && vs[i] == Visit(p, Some("enabled"), Bool(false))
    ensures DeviceIdFragile(file, p) in Hits(file, Deprecated, vs) <==>
      exists i :: 0 <= i < |vs| && vs[i].path == p && (vs[i].key == Some("device_id") || vs[i].key == Some("device_ids"))
  {
    HitsMember(file, Deprecated, vs, EnabledFalse(file, p));
    HitsMember(file, Deprecated, vs, DeviceIdFragile(file, p));
  }

  /** A pattern walk warns with a message at a path exactly when it reaches a
      string there on which a rule with that message fires. Only strings are
      inspected: mapping keys contribute nothing but the path. */
  lemma PatternHitIff(file: string, scan: Scan, vs: seq<Visit>, p: string, m: string)
    requires !scan.Deprecated?
    ensures PatternHit(file, p, m) in Hits(file, scan, vs) <==>
      exists i, j :: 0 <= i < |vs| && 0 <= j < |scan.rules| && vs[i].path == p && vs[i].value.Str?
                  && Fires(scan, scan.rules[j], vs[i].value.s) && RuleMessage(scan, scan.rules[j]) == m
  {
    var g := PatternHit(file, p, m);
    HitsMember(file, scan, vs, g);
    if g in Hits(file, scan, vs) {
      var i :| 0 <= i < |vs| && g in VisitFindings(file, scan, vs[i]);
      RuleHitsMember(file, vs[i].path, vs[i].value.s, scan, scan.rules, g);
    }
    if exists i, j :: 0 <= i < |vs| && 0 <= j < |scan.rules| && vs[i].path == p && vs[i].value.Str?
                   && Fires(scan, scan.rules[j], vs[i].value.s) && RuleMessage(scan, scan.rules[j]) == m {
      var i, j :| 0 <= i < |vs| && 0 <= j < |scan.rules| && vs[i].path == p && vs[i].value.Str?
               && Fires(scan, scan.rules[j], vs[i].value.s) && RuleMessage(scan, scan.rules[j]) == m;
      RuleHitsMember(file, p, vs[i].value.s, scan, scan.rules, g);
      assert g in VisitFindings(file, scan, vs[i]);
    }
  }

  // ----- what the walks reach -----

  /** A node reached from a pair of a mapping is that pair's value or inside it. */
  lemma {:induction false} EntryVisitsMember(es: seq<(string, Tree)>, path: string, pruned: bool, w: Visit)
    requires w in EntryVisits(es, path, pruned)
    ensures exists j :: 0 <= j < |es| && Descends(pruned, es[j].0, es[j].1)
                     && w in Below(es[j].1, Child(path, es[j].0), Some(es[j].0), pruned)
    decreases |es|
  {
    var n := |es| - 1;
    var init := es[..n];
    if w in EntryVisits(init, path, pruned) {
      EntryVisitsMember(init, path, pruned, w);
      var j :| 0 <= j < |init| && Descends(pruned, init[j].0, init[j].1)
             && w in Below(init[j].1, Child(path, init[j].0), Some(init[j].0), pruned);
      assert es[j] == init[j];
    } else {
      assert w in Below(es[n].1, Child(path, es[n].0), Some(es[n].0), pruned);
    }
  }

  /** Everything reached from a kept pair is reached from the mapping. */
  lemma {:induction false} EntryVisitsContain(es: seq<(string, Tree)>, path: string, pruned: bool, j: nat)
    requires j < |es| && Descends(pruned, es[j].0, es[j].1)
    ensures forall w :: w in Below(es[j].1, Child(path, es[j].0), Some(es[j].0), pruned) ==> w in EntryVisits(es, path, pruned)
    decreases |es|
  {
    var n := |es| - 1;
    var last := if Descends(pruned, es[n].0, es[n].1) then Below(es[n].1, Child(path, es[n].0), Some(es[n].0), pruned) else [];
    assert EntryVisits(es, path, pruned) == EntryVisits(es[..n], path, pruned) + last;
    if j < n {
      EntryVisitsContain(es[..n], path, pruned, j);
      assert es[..n][j] == es[j];
    }
  }

  lemma {:induction false} ItemVisitsMember(ts: seq<Tree>, path: string, pruned: bool, w: Visit)
    requires w in ItemVisits(ts, path, pruned)
    ensures exists j :: 0 <= j < |ts| && w in Visits(ts[j], Item(path, j), pruned)
    decreases |ts|
  {
    var n := |ts| - 1;
    var init := ts[..n];
    if w in ItemVisits(init, path, pruned) {
      ItemVisitsMember(init, path, pruned, w);
      var j :| 0 <= j < |init| && w in Visits(init[j], Item(path, j), pruned);
      assert ts[j] == init[j];
    } else {
      assert w in Visits(ts[n], Item(path, n), pruned);
    }
  }

  lemma {:induction false} ItemVisitsContain(ts: seq<Tree>, path: string, pruned: bool, j: nat)
    requires j < |ts|
    ensures forall w :: w in Visits(ts[j], Item(path, j), pruned) ==> w in ItemVisits(ts, path, pruned)
    decreases |ts|
  {
    var n := |ts| - 1;
    assert ItemVisits(ts, path, pruned) == ItemVisits(ts[..n], path, pruned) + Visits(ts[n], Item(path, n), pruned);
    if j < n {
      ItemVisitsContain(ts[..n], path, pruned, j);
      assert ts[..n][j] == ts[j];
    }
  }

  /** The walks reach every pair of every mapping they reach (the MQTT walk:
      every kept pair) and every item of every list they reach, so the
      deprecation and URL walks visit every node of the document. */
  lemma {:induction false} WalkIsClosed(t: Tree, path: string, key: Option<string>, pruned: bool, w: Visit, j: nat)
    requires w in Below(t, path, key, pruned)
    ensures w.value.Map? && j < |w.value.entries| && Descends(pruned, w.value.entries[j].0, w.value.entries[j].1) ==>
      var e := w.value.entries[j];
      Visit(Child(w.path, e.0), Some(e.0), e.1) in Below(t, path, key, pruned)
    ensures w.value.Seq? && j < |w.value.items| ==>
      Visit(Item(w.path, j), None, w.value.items[j]) in Below(t, path, key, pruned)
    decreases t
  {
    assert Below(t, path, key, pruned) == [Visit(path, key, t)] + Inner(t, path, pruned);
    if w == Visit(path, key, t) {
      if t.Map? && j < |t.entries| && Descends(pruned, t.entries[j].0, t.entries[j].1) {
        var e := t.entries[j];
        var v := Visit(Child(path, e.0), Some(e.0), e.1);
        EntryVisitsContain(t.entries, path, pruned, j);
        assert Below(e.1, Child(path, e.0), Some(e.0), pruned)[0] == v;
        assert v in EntryVisits(t.entries, path, pruned);
        assert Inner(t, path, pruned) == EntryVisits(t.entries, path, pruned);
      }
      if t.Seq? && j < |t.items| {
        var v := Visit(Item(path, j), None, t.items[j]);
        ItemVisitsContain(t.items, path, pruned, j);
        assert Visits(t.items[j], Item(path, j), pruned)[0] == v;
        assert v in ItemVisits(t.items, path, pruned);
        assert Inner(t, path, pruned) == ItemVisits(t.items, path, pruned);
      }
    } else if t.Map? {
      EntryVisitsMember(t.entries, path, pruned, w);
      var i :| 0 <= i < |t.entries| && Descends(pruned, t.entries[i].0, t.entries[i].1)
             && w in Below(t.entries[i].1, Child(path, t.entries[i].0), Some(t.entries[i].0), pruned);
      var e := t.entries[i];
      assert e in t.entries;
      WalkIsClosed(e.1, Child(path, e.0), Some(e.0), pruned, w, j);
      EntryVisitsContain(t.entries, path, pruned, i);
    } else {
      assert t.Seq?;
      ItemVisitsMember(t.items, path, pruned, w);
      var i :| 0 <= i < |t.items| && w in Visits(t.items[i], Item(path, i), pruned);
      assert t.items[i] in t.items;
      WalkIsClosed(t.items[i], Item(path, i), None, pruned, w, j);
      ItemVisitsContain(t.items, path, pruned, i);
    }
  }

  /** Every pair the MQTT walk reaches below its start sits under a topic key
      or holds a container. */
  lemma {:induction false} PrunedWalkKeys(t: Tree, path: string, w: Visit)
    requires w in Inner(t, path, true)
    ensures w.key.Some? ==> w.key.value in MqttKeys || w.value.Map? || w.value.Seq?
    decreases t
  {
    if t.Map? {
      EntryVisitsMember(t.entries, path, true, w);
      var i :| 0 <= i < |t.entries| && Descends(true, t.entries[i].0, t.entries[i].1)
             && w in Below(t.entries[i].1, Child(path, t.entries[i].0), Some(t.entries[i].0), true);
      var e := t.entries[i];
      assert e in t.entries;
      if w != Visit(Child(path, e.0), Some(e.0), e.1) {
        PrunedWalkKeys(e.1, Child(path, e.0), w);
      }
    } else if t.Seq? {
      ItemVisitsMember(t.items, path, true, w);
      var i :| 0 <= i < |t.items| && w in Visits(t.items[i], Item(path, i), true);
      assert t.items[i] in t.items;
      if w != Visit(Item(path, i), None, t.items[i]) {
        PrunedWalkKeys(t.items[i], Item(path, i), w);
      }
    }
  }

  /** The MQTT walk warns only about the document itself, list items and
      values under `topic`, `state_topic`, `command_topic` and
      `availability_topic`: a string under any other key never warns. */
  lemma MqttWarnsOnTopicsOnly(file: string, rules: seq<PatternRule>, t: Tree, p: string, m: string)
    requires PatternHit(file, p, m) in Hits(file, MqttTopics(rules), Visits(t, "", true))
    ensures exists w :: w in Visits(t, "", true) && w.path == p && w.value.Str?
                     && (w.key.None? || w.key.value in MqttKeys)
  {
    var vs := Visits(t, "", true);
    PatternHitIff(file, MqttTopics(rules), vs, p, m);
    var i, j :| 0 <= i < |vs| && 0 <= j < |rules| && vs[i].path == p && vs[i].value.Str?
             && Fires(MqttTopics(rules), rules[j], vs[i].value.s) && RuleMessage(MqttTopics(rules), rules[j]) == m;
    if i > 0 {
      assert vs[i] in Inner(t, "", true) by {
        assert vs[i] == Inner(t, "", true)[i - 1];
      }
      PrunedWalkKeys(t, "", vs[i]);
    }
    assert vs[i] in vs;
  }

  // ----- one file of validate_all -----

  /** `validate_all` skips `secrets.yaml`. */
  predicate Examined(f: YamlFile) {
    f.name != "secrets.yaml"
  }

  /** The encoding check lets the file's read error escape. */
  predicate FileRaises(f: YamlFile) {
    Examined(f) && ReadFails(f.content)
  }

  /** A file that does not make `validate_all` return false. */
  predicate FilePasses(f: YamlFile) {
    !Examined(f) || f.content.Parsed?
  }

  /** `validate_deprecated_patterns_in_file`: the three walks over a
      non-empty parsed document, the MQTT one only when the file name
      contains `mqtt` in any case; nothing when loading fails. */
  function PatternWarnings(f: YamlFile, cfg: Config): seq<YamlFinding> {
    if f.content.Parsed? && f.content.doc != Null then
      var doc := f.content.doc;
      Hits(f.path, Deprecated, Visits(doc, "", false))
      + Hits(f.path, HardcodedUrls(HardcodedUrlPatterns(cfg)), Visits(doc, "", false))
      + (if Contains(Lower(f.name), "mqtt") then Hits(f.path, MqttTopics(MqttWarningPatterns(cfg)), Visits(doc, "", true)) else [])
    else []
  }

  /** What the encoding and syntax checks append. */
  function LoadErrors(f: YamlFile): seq<YamlFinding> {
    match f.content
    case NotUtf8(_) => [MustBeUtf8(f.path)]
    case BadYaml(e) => [YamlSyntaxError(f.path, e)]
    case LoadError(e) => [UnexpectedError(f.path, e)]
    case _ => []
  }

  /** What the three structure checks append to `errors`, in order. */
  function StructureErrors(f: YamlFile): seq<YamlFinding> {
    ConfigReport(f).errors + AutomationsReport(f).errors + ScriptsReport(f).errors
  }

  /** What the three structure checks append to `warnings`, in order. */
  function StructureWarnings(f: YamlFile): seq<YamlFinding> {
    ConfigReport(f).warnings + AutomationsReport(f).warnings + ScriptsReport(f).warnings
  }

  /** What checking one file appends to `errors`. */
  function FileErrors(f: YamlFile): seq<YamlFinding> {
    if !Examined(f) then []
    else if f.content.Parsed? then StructureErrors(f)
    else LoadErrors(f)
  }

  /** What checking one file appends to `warnings`. */
  function FileWarnings(f: YamlFile, cfg: Config): seq<YamlFinding> {
    if !Examined(f) || !f.content.Parsed? then []
    else StructureWarnings(f) + PatternWarnings(f, cfg)
  }

  /** `secrets.yaml` adds nothing. */
  lemma SkippedFileFindings(f: YamlFile, cfg: Config)
    requires !Examined(f)
    ensures [] + FileErrors(f) == [] && [] + FileWarnings(f, cfg) == []
    ensures forall e: seq<YamlFinding> :: e + FileErrors(f) == e
    ensures forall w: seq<YamlFinding> :: w + FileWarnings(f, cfg) == w
  {
  }

  /** A file that does not load adds only its load error, and one whose read
      fails adds nothing; a file that is read but not loaded adds exactly one
      error, the encoding check's or the syntax check's. */
  lemma UnloadedFileFindings(f: YamlFile, cfg: Config)
    requires Examined(f) && !f.content.Parsed?
    ensures FileErrors(f) == LoadErrors(f)
    ensures forall w: seq<YamlFinding> :: w + FileWarnings(f, cfg) == w
    ensures ReadFails(f.content) ==> forall e: seq<YamlFinding> :: e + LoadErrors(f) == e
    ensures !ReadFails(f.content) ==>
      LoadErrors(f) == (if f.content.NotUtf8? then [MustBeUtf8(f.path)] else SyntaxFindings(f))
  {
  }

  /** The errors checking the first `|fs|` files appends, in order. */
  function AllErrors(fs: seq<YamlFile>): seq<YamlFinding>
    decreases |fs|
  {
    if fs == [] then [] else AllErrors(fs[..|fs| - 1]) + FileErrors(fs[|fs| - 1])
  }

  function AllWarnings(fs: seq<YamlFile>, cfg: Config): seq<YamlFinding>
    decreases |fs|
  {
    if fs == [] then [] else AllWarnings(fs[..|fs| - 1], cfg) + FileWarnings(fs[|fs| - 1], cfg)
  }

  /** Every file of the list passes, stated one file at a time. */
  predicate AllPass(fs: seq<YamlFile>)
    decreases |fs|
  {
    fs == [] || (AllPass(fs[..|fs| - 1]) && FilePasses(fs[|fs| - 1]))
  }

  lemma {:induction false} AllPassIff(fs: seq<YamlFile>)
    ensures AllPass(fs) <==> forall i :: 0 <= i < |fs| ==> FilePasses(fs[i])
    decreases |fs|
  {
    if fs != [] {
      var init := fs[..|fs| - 1];
      AllPassIff(init);
      assert forall i :: 0 <= i < |init| ==> init[i] == fs[i];
    }
  }

  /** One more file of the loop of `validate_all`, after the findings `e`
      and `w` it started with. */
  lemma AllStep(e: seq<YamlFinding>, w: seq<YamlFinding>, fs: seq<YamlFile>, i: nat, cfg: Config)
    requires i < |fs|
    ensures e + AllErrors(fs[..i + 1]) == e + AllErrors(fs[..i]) + FileErrors(fs[i])
    ensures w + AllWarnings(fs[..i + 1], cfg) == w + AllWarnings(fs[..i], cfg) + FileWarnings(fs[i], cfg)
    ensures AllPass(fs[..i + 1]) <==> AllPass(fs[..i]) && FilePasses(fs[i])
  {
    assert fs[..i + 1][..i] == fs[..i];
  }

  /** The index of the first file whose check raises, `|fs|` when none does. */
  function FirstRaise(fs: seq<YamlFile>): (n: nat)
    ensures n <= |fs|
    ensures forall j :: 0 <= j < n ==> !FileRaises(fs[j])
    ensures n < |fs| ==> FileRaises(fs[n])
  {
    if fs == [] then 0
    else if FileRaises(fs[0]) then 0
    else
      var n := 1 + FirstRaise(fs[1..]);
      assert forall j :: 1 <= j < n ==> fs[j] == fs[1..][j - 1];
      n
  }

  /** Only files that are examined and read can add findings, and a file
      fails exactly when it adds an encoding or syntax error. */
  lemma FileFindingsSpec(f: YamlFile, cfg: Config)
    ensures !Examined(f) || ReadFails(f.content) ==> FileErrors(f) == [] && FileWarnings(f, cfg) == []
    ensures !FilePasses(f) && !ReadFails(f.content) ==> |FileErrors(f)| == 1 && FileWarnings(f, cfg) == []
    ensures !FilePasses(f) && !ReadFails(f.content) ==>
      FileErrors(f)[0].MustBeUtf8? || FileErrors(f)[0].YamlSyntaxError? || FileErrors(f)[0].UnexpectedError?
    ensures Examined(f) && f.content.LoadError? ==>
      FileErrors(f) == [UnexpectedError(f.path, f.content.detail)] && !FilePasses(f) && !FileRaises(f)
  {
  }
}
