/** The messages the reference validator appends to its `errors` and `warnings`
    lists, kept as structured values; `Message` gives the exact wording of each. */
module Findings {
  import opened Text

  datatype RegistryKind = EntityRegistry | DeviceRegistry | AreaRegistry

  datatype Finding =
    | RegistryNotFound(kind: RegistryKind, registryFile: string)
    | RegistryInvalidJson(kind: RegistryKind, detail: string)
    | RegistryPermissionDenied(kind: RegistryKind)
    | RegistryLoadFailed(kind: RegistryKind, detail: string)
    | YamlLoadFailed(file: string, detail: string)
    | UnknownEntity(file: string, entityId: string)
    | DisabledEntity(file: string, entityId: string)
    | UnknownRegistryId(file: string, registryId: string)
    | DisabledRegistryEntity(file: string, registryId: string, entityId: string)
    | UnknownDevice(file: string, deviceId: string)
    | UnknownArea(file: string, areaId: string)
    | InvalidServiceFormat(file: string, service: string)
    | UnknownScript(file: string, service: string, action: string)
    | UnknownScene(file: string, service: string, action: string)
    | CustomDomain(file: string, service: string, domain: string)
    | BlueprintMissingPath(file: string)
    | MissingBlueprintInputs(file: string, names: seq<string>)
    | UnknownBlueprintInputs(file: string, names: seq<string>)
    | ConfigDirMissing(dir: string)
    | NoYamlFiles

  function KindName(k: RegistryKind): string {
    match k
    case EntityRegistry => "entity"
    case DeviceRegistry => "device"
    case AreaRegistry => "area"
  }

  function Capitalized(k: RegistryKind): string {
    match k
    case EntityRegistry => "Entity"
    case DeviceRegistry => "Device"
    case AreaRegistry => "Area"
  }

  /** The text the validator stores for a finding. */
  function Message(f: Finding): string {
    match f
    case RegistryNotFound(k, p) => Capitalized(k) + " registry not found: " + p
    case RegistryInvalidJson(k, e) => "Invalid JSON in " + KindName(k) + " registry: " + e
    case RegistryPermissionDenied(k) => "Permission denied reading " + KindName(k) + " registry"
    case RegistryLoadFailed(k, e) => "Failed to load " + KindName(k) + " registry: " + e
    case YamlLoadFailed(p, e) => p + ": Failed to load YAML - " + e
    case UnknownEntity(p, x) => p + ": Unknown entity '" + x + "'"
    case DisabledEntity(p, x) => p + ": References disabled entity '" + x + "'"
    case UnknownRegistryId(p, x) => p + ": Unknown entity registry ID '" + x + "'"
    case DisabledRegistryEntity(p, x, y) =>
      p + ": Entity registry ID '" + x + "' references disabled entity '" + y + "'"
    case UnknownDevice(p, x) => p + ": Unknown device '" + x + "'"
    case UnknownArea(p, x) => p + ": Unknown area '" + x + "'"
    case InvalidServiceFormat(p, s) =>
      p + ": Invalid service format '" + s + "' (expected 'domain.action')"
    case UnknownScript(p, s, a) =>
      p + ": Service '" + s + "' references unknown script (no script." + a + " entity found)"
    case UnknownScene(p, s, a) =>
      p + ": Service '" + s + "' references unknown scene (no scene." + a + " entity found)"
    case CustomDomain(p, s, d) =>
      p + ": Service '" + s + "' uses domain '" + d + "' (not a builtin domain - may be custom integration)"
    case BlueprintMissingPath(p) => p + ": Blueprint automation missing 'path'"
    case MissingBlueprintInputs(p, ns) =>
      p + ": Blueprint automation missing required inputs: " + Join(", ", ns)
    case UnknownBlueprintInputs(p, ns) =>
      p + ": Blueprint automation has unknown inputs: " + Join(", ", ns)
    case ConfigDirMissing(d) => "Config directory " + d + " does not exist"
    case NoYamlFiles => "No YAML files found in config directory"
  }

  // ----- findings collected over an enumeration -----

  /** Appending two lists one after the other appends their concatenation. */
  lemma AppendTwo<X>(p: seq<X>, a: seq<X>, b: seq<X>)
    ensures p + a + b == p + (a + b)
  {
  }

  /** Appending three lists one after the other appends their concatenation. */
  lemma AppendThree<X>(p: seq<X>, a: seq<X>, b: seq<X>, c: seq<X>)
    ensures p + a + b + c == p + (a + b + c)
  {
  }

  /** Appending four lists one after the other appends their concatenation. */
  lemma AppendFour<X>(p: seq<X>, a: seq<X>, b: seq<X>, c: seq<X>, d: seq<X>)
    ensures p + a + b + c + d == p + (a + b + c + d)
  {
  }

  /** No element occurs twice. */
  predicate Distinct<X(==)>(xs: seq<X>) {
    forall i, j :: 0 <= i < j < |xs| ==> xs[i] != xs[j]
  }

  /** `xs` lists the elements of `s`, each exactly once: one possible order in
      which Python iterates a set. */
  ghost predicate Enumerates(xs: seq<string>, s: set<string>) {
    Distinct(xs) && forall x :: x in xs <==> x in s
  }
}
