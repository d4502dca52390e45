/** The `HAOfficialValidator` object: its `errors`, `warnings` and `info`
    lists and its cached Home Assistant version, the version check, the
    parsing of `check_config`'s output, the move of environment errors to
    the warnings, and `validate_all`. The installed version, whether the
    directories exist and what running the check gives are inputs; the
    validation configuration is the shared instance, fixed when the object
    is built. */
module HaValidation {
  import opened Wrappers
  import opened Text
  import opened Lists
  import opened Settings
  import opened HaChecks

  /** What running Home Assistant's `check_config` script gave: its output
      and exit code, or the exception `subprocess.run` raised (a timeout,
      `FileNotFoundError`, anything else). */
  datatype RunOutcome =
    | Completed(stdout: string, stderr: string, returnCode: int)
    | TimedOut
    | NotInstalled
    | Failed(detail: string)

  /** What one step appends to each of the three lists. */
  datatype Report = Report(errors: seq<string>, warnings: seq<string>, info: seq<string>)

  const VersionUnknown := "Could not determine Home Assistant version - skipping version check"
  const TimeoutMessage := "Home Assistant configuration check timed out"
  const NotFoundMessage := "Home Assistant not found. Please install with: pip install homeassistant"

  function BelowMinimum(v: string, m: string): string {
    "Home Assistant version " + v + " is below minimum supported version " + m
  }

  function VersionInfo(v: string): string {
    "Home Assistant version: " + v
  }

  /** The command `run_ha_check_config` starts, in the configuration
      directory. */
  function CheckCommand(python: string, dir: string): seq<string> {
    [python, "-m", "homeassistant", "--config", dir, "--script", "check_config"]
  }

  /** The result of `check_version_compatibility`: only a version below a
      non-empty minimum fails. */
  predicate VersionVerdict(v: Option<string>, min: string) {
    v.None? || min == "" || !VersionLess(ParseVersion(v.value), ParseVersion(min))
  }

  /** What `check_version_compatibility` appends. */
  function VersionReport(v: Option<string>, min: string): Report {
    if v.None? then Report([], [VersionUnknown], [])
    else if min == "" then Report([], [], [])
    else if VersionLess(ParseVersion(v.value), ParseVersion(min)) then Report([], [BelowMinimum(v.value, min)], [])
    else Report([], [], [VersionInfo(v.value)])
  }

  /** With a known version and a minimum, both written as dotted numbers
      (the installed one possibly with a suffix such as `b1`), the check
      passes exactly when the installed numbers are not smaller, and it
      reports one line: the version as information, or a warning. */
  lemma DottedVersionCheck(a: seq<nat>, suffix: string, b: seq<nat>)
    requires suffix == [] || (IsAsciiLetter(suffix[0]) && '\n' !in suffix)
    requires Dotted(b) != ""
    ensures VersionVerdict(Some(Dotted(a) + suffix), Dotted(b)) <==> !VersionLess(a, b)
    ensures var r := VersionReport(Some(Dotted(a) + suffix), Dotted(b));
      r.errors == [] && |r.warnings| + |r.info| == 1
      && (VersionLess(a, b) <==> r.warnings == [BelowMinimum(Dotted(a) + suffix, Dotted(b))])
  {
    if suffix == [] {
      assert Dotted(a) + suffix == Dotted(a);
      ParseDotted(a);
    } else {
      ParseIgnoresSuffix(a, suffix);
    }
    ParseDotted(b);
  }

  /** What the output of a completed run appends. */
  function OutputReport(stdout: string, stderr: string, ignore: seq<string>): Report {
    var out := OutputLines(stdout);
    Report(Routed(ToError, out) + StderrErrors(ignore, OutputLines(stderr)), Routed(ToWarning, out), Routed(ToInfo, out))
  }

  /** What `run_ha_check_config` appends. */
  function RunReport(r: RunOutcome, ignore: seq<string>): Report {
    match r
    case Completed(o, e, _) => OutputReport(o, e, ignore)
    case TimedOut => Report([TimeoutMessage], [], [])
    case NotInstalled => Report([NotFoundMessage], [], [])
    case Failed(d) => Report(["Failed to run Home Assistant config check: " + d], [], [])
  }

  /** Each stripped stdout line that is not skipped is reported exactly once,
      on one of the three lists, and failures to run give exactly one error. */
  lemma RunReportSpec(r: RunOutcome, ignore: seq<string>)
    ensures r.Completed? ==>
      |RunReport(r, ignore).errors| - |StderrErrors(ignore, OutputLines(r.stderr))|
      + |RunReport(r, ignore).warnings| + |RunReport(r, ignore).info| == Shown(OutputLines(r.stdout))
    ensures !r.Completed? ==>
      |RunReport(r, ignore).errors| == 1 && RunReport(r, ignore).warnings == [] && RunReport(r, ignore).info == []
  {
    if r.Completed? {
      RoutesPartition(OutputLines(r.stdout));
    }
  }

  class HaOfficialValidator {
    const configDir: string
    const settings: Config
    var errors: seq<string>
    var warnings: seq<string>
    var info: seq<string>
    var haVersion: Option<string>

    constructor (configDir: string, settings: Config)
      ensures this.configDir == configDir && this.settings == settings
      ensures errors == [] && warnings == [] && info == [] && haVersion == None
    {
      this.configDir := configDir;
      this.settings := settings;
      errors := [];
      warnings := [];
      info := [];
      haVersion := None;
    }

    /** `get_ha_version`: the cached version, or else the installed one
        (`None` when the package cannot be imported), which is then cached. */
    method GetHaVersion(installed: Option<string>) returns (v: Option<string>)
      modifies this`haVersion
      ensures haVersion == (if old(haVersion).Some? then old(haVersion) else installed)
      ensures v == haVersion
    {
      if haVersion.Some? {
        return haVersion;
      }
      match installed
      case Some(x) =>
        haVersion := Some(x);
        return haVersion;
      case None =>
        return None;
    }

    /** `check_version_compatibility`. */
    method CheckVersionCompatibility(installed: Option<string>) returns (ok: bool)
      modifies this`haVersion, this`warnings, this`info
      ensures haVersion == (if old(haVersion).Some? then old(haVersion) else installed)
      ensures ok == VersionVerdict(haVersion, MinHaVersion(settings))
      ensures warnings == old(warnings) + VersionReport(haVersion, MinHaVersion(settings)).warnings
      ensures info == old(info) + VersionReport(haVersion, MinHaVersion(settings)).info
    {
      var version := GetHaVersion(installed);
      if version.None? {
        warnings := warnings + [VersionUnknown];
        return true;
      }
      var minVersion := MinHaVersion(settings);
      if minVersion == "" {
        return true;
      }
      var currentParts := ParseVersion(version.value);
      var minParts := ParseVersion(minVersion);
      if VersionLess(currentParts, minParts) {
        warnings := warnings + [BelowMinimum(version.value, minVersion)];
        return false;
      }
      info := info + [VersionInfo(version.value)];
      ok := true;
    }

    /** `run_ha_check_config`, with `run` standing for `subprocess.run`: it is
        given the command and the configured `ha_check_config` timeout. The
        result is whether the check exited with code 0. */
    method RunHaCheckConfig(python: string, run: (seq<string>, int) -> RunOutcome) returns (ok: bool)
      modifies this`errors, this`warnings, this`info
      ensures var r := run(CheckCommand(python, configDir), GetTimeout(settings, "ha_check_config"));
        && (ok <==> r.Completed? && r.returnCode == 0)
        && errors == old(errors) + RunReport(r, StderrIgnorePatterns(settings)).errors
        && warnings == old(warnings) + RunReport(r, StderrIgnorePatterns(settings)).warnings
        && info == old(info) + RunReport(r, StderrIgnorePatterns(settings)).info
    {
      var timeout := GetTimeout(settings, "ha_check_config");
      var result := run(CheckCommand(python, configDir), timeout);
      match result
      case Completed(stdout, stderr, code) =>
        ParseCheckConfigOutput(stdout, stderr);
        return code == 0;
      case TimedOut =>
        errors := errors + [TimeoutMessage];
        return false;
      case NotInstalled =>
        errors := errors + [NotFoundMessage];
        return false;
      case Failed(e) =>
        errors := errors + ["Failed to run Home Assistant config check: " + e];
        return false;
    }

    /** `parse_check_config_output`. */
    method ParseCheckConfigOutput(stdout: string, stderr: string)
      modifies this`errors, this`warnings, this`info
      ensures errors == old(errors) + OutputReport(stdout, stderr, StderrIgnorePatterns(settings)).errors
      ensures warnings == old(warnings) + OutputReport(stdout, stderr, StderrIgnorePatterns(settings)).warnings
      ensures info == old(info) + OutputReport(stdout, stderr, StderrIgnorePatterns(settings)).info
    {
      ghost var e0 := errors;
      ParseStdout(stdout);
      ghost var e1 := errors;
      ParseStderr(stderr);
      Associative(e0, Routed(ToError, OutputLines(stdout)), StderrErrors(StderrIgnorePatterns(settings), OutputLines(stderr)));
    }

    /** The stdout half of `parse_check_config_output`. */
    method ParseStdout(stdout: string)
      modifies this`errors, this`warnings, this`info
      ensures errors == old(errors) + Routed(ToError, OutputLines(stdout))
      ensures warnings == old(warnings) + Routed(ToWarning, OutputLines(stdout))
      ensures info == old(info) + Routed(ToInfo, OutputLines(stdout))
    {
      if stdout == "" {
        return;
      }
      var lines := Split(stdout, '\n');
      ghost var e0, w0, i0 := errors, warnings, info;
      for i := 0 to |lines|
        invariant errors == e0 + Routed(ToError, lines[..i])
        invariant warnings == w0 + Routed(ToWarning, lines[..i])
        invariant info == i0 + Routed(ToInfo, lines[..i])
      {
        RouteStdoutLine(lines[i]);
        ConcatStepAfter(e0, ToError, lines, i, RouteLine);
        ConcatStepAfter(w0, ToWarning, lines, i, RouteLine);
        ConcatStepAfter(i0, ToInfo, lines, i, RouteLine);
      }
      assert lines[..|lines|] == lines;
    }

    /** One line of stdout, stripped, appended to the list its content
        selects, or to none. */
    method RouteStdoutLine(raw: string)
      modifies this`errors, this`warnings, this`info
      ensures errors == old(errors) + RouteLine(ToError, raw)
      ensures warnings == old(warnings) + RouteLine(ToWarning, raw)
      ensures info == old(info) + RouteLine(ToInfo, raw)
    {
      var line := Strip(raw);
      if line != "" {
        if Contains(line, "Testing configuration at") {
          info := info + ["HA Check: " + line];
        } else if Contains(line, "Configuration check successful!") {
          info := info + ["HA Check: " + line];
        } else if Contains(Lower(line), "errors") && Contains(Lower(line), "found") {
          if Contains(Lower(line), "0 errors") {
            info := info + ["HA Check: " + line];
          } else {
            errors := errors + ["HA Check: " + line];
          }
        } else if Contains(line, "ERROR") || Contains(line, "Error") {
          errors := errors + ["HA Check: " + line];
        } else if Contains(line, "WARNING") || Contains(line, "Warning") {
          warnings := warnings + ["HA Check: " + line];
        } else if !StartsWith(line, "INFO:") {
          info := info + ["HA Check: " + line];
        }
      }
    }

    /** The stderr half of `parse_check_config_output`. */
    method ParseStderr(stderr: string)
      modifies this`errors
      ensures errors == old(errors) + StderrErrors(StderrIgnorePatterns(settings), OutputLines(stderr))
    {
      if stderr == "" {
        return;
      }
      var lines := Split(stderr, '\n');
      var ignorePatterns := StderrIgnorePatterns(settings);
      ghost var e0 := errors;
      for i := 0 to |lines|
        invariant errors == e0 + StderrErrors(ignorePatterns, lines[..i])
      {
        var line := Strip(lines[i]);
        if line != "" && !MentionsAny(line, ignorePatterns) {
          errors := errors + ["HA Error: " + line];
        }
        ConcatStepAfter(e0, ignorePatterns, lines, i, StderrLine);
      }
      assert lines[..|lines|] == lines;
    }

    /** `reclassify_environment_errors`: the errors mentioning an environment
        pattern move, in order, to the warnings with an `[Env] ` prefix. */
    method ReclassifyEnvironmentErrors()
      modifies this`errors, this`warnings
      ensures errors == Kept(EnvironmentPatterns(settings), old(errors))
      ensures warnings == old(warnings) + EnvWarnings(EnvironmentPatterns(settings), old(errors))
    {
      var envPatterns := EnvironmentPatterns(settings);
      if envPatterns == [] {
        NoPatternsKeepAll(errors);
        assert warnings + [] == warnings;
        return;
      }
      var toRemove := CollectEnvironmentErrors(envPatterns);
      ghost var e0, w1 := errors, warnings;
      for j := 0 to |toRemove|
        invariant errors == DropMoved(envPatterns, e0, j)
        invariant warnings == w1
      {
        DropStep(envPatterns, e0, j);
        errors := RemoveFirst(errors, toRemove[j]);
      }
      DropAll(envPatterns, e0);
    }

    /** The first loop of `reclassify_environment_errors`: the errors to
        remove, each also appended as a warning. */
    method CollectEnvironmentErrors(envPatterns: seq<string>) returns (toRemove: seq<string>)
      modifies this`warnings
      ensures toRemove == Moved(envPatterns, errors)
      ensures warnings == old(warnings) + EnvWarnings(envPatterns, errors)
    {
      toRemove := [];
      ghost var w0 := warnings;
      for i := 0 to |errors|
        invariant toRemove == Moved(envPatterns, errors[..i])
        invariant warnings == w0 + EnvWarnings(envPatterns, errors[..i])
      {
        var error := errors[i];
        var found := FirstMention(error, envPatterns);
        if found {
          toRemove := toRemove + [error];
          warnings := warnings + ["[Env] " + error];
        }
        ConcatStep(envPatterns, errors, i, MoveOne);
        ConcatStepAfter(w0, envPatterns, errors, i, EnvWarning);
      }
      assert errors[..|errors|] == errors;
    }

    /** The inner loop over the patterns, which stops at the first one that
        occurs in the error. */
    static method FirstMention(error: string, envPatterns: seq<string>) returns (found: bool)
      ensures found <==> MentionsAny(error, envPatterns)
    {
      var j := 0;
      while j < |envPatterns|
        invariant 0 <= j <= |envPatterns|
        invariant forall k :: 0 <= k < j ==> !Contains(Lower(error), Lower(envPatterns[k]))
      {
        if Contains(Lower(error), Lower(envPatterns[j])) {
          return true;
        }
        j := j + 1;
      }
      return false;
    }

    /** `validate_all`: false with one error when the directory or its
        `configuration.yaml` is missing; otherwise the version check, the
        run and the reclassification, and true exactly when no error is left,
        whatever the check's exit code. */
    method ValidateAll(dirExists: bool, configExists: bool, installed: Option<string>,
                       python: string, run: (seq<string>, int) -> RunOutcome) returns (ok: bool)
      modifies this`errors, this`warnings, this`info, this`haVersion
      ensures !dirExists ==>
        !ok && errors == old(errors) + ["Config directory " + configDir + " does not exist"]
        && warnings == old(warnings) && info == old(info)
      ensures dirExists && !configExists ==>
        !ok && errors == old(errors) + ["configuration.yaml not found"]
        && warnings == old(warnings) && info == old(info)
      ensures dirExists && configExists ==>
        var v := if old(haVersion).Some? then old(haVersion) else installed;
        var vr := VersionReport(v, MinHaVersion(settings));
        var rr := RunReport(run(CheckCommand(python, configDir), GetTimeout(settings, "ha_check_config")), StderrIgnorePatterns(settings));
        var pats := EnvironmentPatterns(settings);
        && haVersion == v
        && errors == Kept(pats, old(errors) + rr.errors)
        && warnings == old(warnings) + vr.warnings + rr.warnings + EnvWarnings(pats, old(errors) + rr.errors)
        && info == old(info) + vr.info + rr.info
        && (ok <==> errors == [])
    {
      if !dirExists {
        errors := errors + ["Config directory " + configDir + " does not exist"];
        return false;
      }
      if !configExists {
        errors := errors + ["configuration.yaml not found"];
        return false;
      }
      var _ := CheckVersionCompatibility(installed);
      var _ := RunHaCheckConfig(python, run);
      ReclassifyEnvironmentErrors();
      ok := |errors| == 0;
    }
  }

  /** After `validate_all` has run the check, no remaining error mentions an
      environment pattern, and every error of the run is either still an
      error or is now an `[Env] ` warning. */
  lemma ValidateAllOutcome(pats: seq<string>, es: seq<string>, e: string)
    ensures e in Kept(pats, es) ==> !MentionsAny(e, pats)
    ensures e in es ==> e in Kept(pats, es) || "[Env] " + e in EnvWarnings(pats, es)
  {
    ReclassifySeparates(pats, es, e);
    if e in es && !(e in Kept(pats, es)) {
      assert e in Moved(pats, es);
      EnvWarningsFollowMoved(pats, es);
      var i :| 0 <= i < |Moved(pats, es)| && Moved(pats, es)[i] == e;
      assert EnvWarnings(pats, es)[i] == "[Env] " + e;
    }
  }
}
