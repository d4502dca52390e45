# Home Assistant configuration validators

A Dafny model of the three validators of the claude-homeassistant toolkit and
of the configuration they share:

- the **reference validator** (`ReferenceValidator`). It reads a configuration
  directory's YAML files and the entity, device and area registries under
  `.storage/`. It reports entity ids, entity-registry UUIDs, devices and areas
  the registries do not know, service calls to unknown scripts, scenes and
  domains, and automations whose `use_blueprint` section is missing required
  inputs or passes unknown ones. It also summarises the entity registry by
  domain;
- the **YAML validator** (`YAMLValidator`). It checks each YAML file for UTF-8
  encoding and syntax, and checks the structure of `configuration.yaml`,
  `automations.yaml` and `scripts.yaml`. It walks every parsed document for
  deprecated settings (`enabled: false`, `device_id`), configured hard-coded
  URLs and, in MQTT files, placeholder topics;
- the **official validator** (`HAOfficialValidator`). It compares the
  installed Home Assistant version with the configured minimum and runs Home
  Assistant's own `check_config` script. It sorts the script's stdout lines
  into errors, warnings and information, and lets stderr lines through unless
  they match an ignore pattern. Finally it moves errors that mention an
  environment pattern to the warnings;
- the **validation configuration** (`ValidationConfig`). It is loaded from
  `validation_config.yaml` or falls back to a built-in table. Its typed
  accessors each have their own default, and one shared instance is kept.

Each validator object is a `class` whose `errors` and `warnings` lists (and
`info` for the official validator) are `seq` fields. The methods append to
them. Each method is proved against a function of its inputs and of the old
state, and the lemmas beside those functions state what the validators
promise.

The file system and the parsers are inputs to the model:

- A file is a `YamlFile`: its name, path and `Content`. The content is the
  parsed document or the way reading or parsing it failed.
- A registry is a `Source`: its records, or the way loading it failed.
- The blueprints are a list of `BlueprintFile`s.
- The installed version is an `Option<string>`.
- Running `check_config` is a function `run` from the command and the timeout
  to a `RunOutcome`.

A Python exception that escapes a method is modelled as the `Raised` outcome.
The order in which Python iterates a `set` is returned as a ghost sequence
(`order`, or a `Trace` of five of them: entities, registry ids, devices, areas and service calls), and the findings are stated as
functions of that order.

Modules, one per file:

- `Wrappers`: `Option` and `Outcome`.
- `Text`: the string operations the source relies on.
- `PyDict`: an insertion-ordered dictionary.
- `ConfigTree`: YAML and JSON values.
- `Lists`: the shape "append what each element contributes".
- `Settings`: `validation_config_loader.py`.
- Reference validator:
  - `Classifier`: the skip rule.
  - `TemplateScanner`: the regular expressions over templates.
  - `Extractor`: the five reference walks.
  - `Registry`: registry indexes and the id mapping.
  - `Blueprints`: the blueprint index and the input checks.
  - `Findings`: the finding datatype.
  - `Checks`: what each loop appends.
  - `EntitySummary`: the entity summary.
  - `References`: the `ReferenceValidator` class.
- YAML validator:
  - `YamlChecks`: the specification functions.
  - `YamlValidation`: the `YAMLValidator` class.
- Official validator:
  - `HaChecks`: version parsing and output routing.
  - `HaValidation`: the `HAOfficialValidator` class.

## Model

| member | source | states |
|---|---|---|
| Settings.MinHaVersion | tools/validation_config_loader.py:137-140 | the configured `min_ha_version`, or `2024.1.0` when the key is absent |
| Settings.NonEmptyPatterns | tools/validation_config_loader.py:149-150 | a string is kept exactly when it is a non-empty `pattern` value of some entry; no more entries come out than went in |
| Settings.NonEmptyPatternsAppend | tools/validation_config_loader.py:150 | the filter keeps the entries' order: one more entry adds its pattern at the end exactly when the pattern is present and non-empty |
| Settings.EnvironmentPatterns | tools/validation_config_loader.py:142-150 | the environment patterns are exactly the non-empty `pattern` values of the section's entries; none when the section is absent |
| Settings.DeprecatedPatterns | tools/validation_config_loader.py:152-159 | the configured list of deprecated patterns as it is, or the empty list when the section is absent |
| Settings.RecommendedFields | tools/validation_config_loader.py:161-168 | the configured table of recommended fields as it is, or the empty table when the section is absent |
| Settings.StderrIgnorePatterns | tools/validation_config_loader.py:170-177 | the configured stderr ignore patterns as they are, in order, or the empty list when the section is absent |
| Settings.BuiltinServiceDomains | tools/validation_config_loader.py:179-187 | a domain is builtin exactly when it is listed in the section |
| Settings.HardcodedUrlPatterns | tools/validation_config_loader.py:189-196 | the configured URL rules as they are, in order, or the empty list when the section is absent |
| Settings.MqttWarningPatterns | tools/validation_config_loader.py:198-205 | the configured MQTT rules as they are, in order, or the empty list when the section is absent |
| Settings.GetTimeout | tools/validation_config_loader.py:207-217 | the configured number of seconds for the key, 120 when the section or the key is absent |
| Settings.Defaults | tools/validation_config_loader.py:86-131 | the built-in table of `_use_defaults`; its values as the accessors read them are stated by `DefaultPatternValues`, `DefaultTimeoutValues` and `DefaultBuiltinValues` |
| Settings.DefaultPatternValues | tools/validation_config_loader.py:86-131 | the built-in table's version floor is `2024.1.0`; it has the three environment patterns and the four stderr ignore patterns, and no URL or MQTT rules |
| Settings.DefaultTimeoutValues | tools/validation_config_loader.py:103-107 | the built-in table gives 120, 30 and 60 seconds to the check-config, YAML and reference timeouts |
| Settings.DefaultBuiltinValues | tools/validation_config_loader.py:108-128 | the built-in domains include `script`, `scene` and `light` but not `mqtt` |
| Settings.EmptyDocumentValues | tools/validation_config_loader.py:137-217 | a loaded file is not merged with the built-in table: for a file with no sections every accessor gives its own fall-back, so no domain is builtin and every timeout is 120 |
| Settings.LoadConfig | tools/validation_config_loader.py:63-84 | a missing, invalid, unreadable or otherwise failing file gives the built-in table; a loaded one gives exactly its own sections |
| Settings.ValidationConfig.constructor | tools/validation_config_loader.py:30-42 | the new object holds what loading its file gives |
| Settings.ValidationConfig.UseDefaults | tools/validation_config_loader.py:86-131 | the object now holds the built-in table |
| Settings.ValidationConfig.GetRawConfig | tools/validation_config_loader.py:219-225 | the caller gets the configuration held; the source copies only the top-level mapping, so its nested sections stay shared (see "## Left out") |
| Settings.ConfigHolder.constructor | tools/validation_config_loader.py:28 | no shared instance exists yet |
| Settings.ConfigHolder.GetInstance | tools/validation_config_loader.py:44-56 | the first call builds a fresh instance from its argument; every later call returns that same object and ignores its argument |
| Settings.ConfigHolder.ResetInstance | tools/validation_config_loader.py:58-61 | afterwards no shared instance exists |
| Settings.ConfigHolder.GetInstanceTwice | tools/validation_config_loader.py:44-56 | two calls in a row give the same object, configured from the first call's file |
| Classifier.IsUuidFormat | tools/reference_validator.py:165-169 | `re.match` of 32 lower-case hex digits anchored by `$`; its meaning is part of `ShouldSkipIff`, and `Extractor.UuidHasNoDot` shows such a value has no dot |
| Classifier.IsTemplate | tools/reference_validator.py:171-174 | `is_template` as a hand-written scan; `IsTemplateIff` proves it is the search for `{{.*?}}` |
| Classifier.ShouldSkip | tools/reference_validator.py:176-184 | `should_skip_entity_validation`; `ShouldSkipIff` states its four cases |
| Classifier.ClosesOnLineIff | tools/reference_validator.py:171-174 | after a `{{` at `i`, the hand-written scan from `m` finds a `}}` with no line break before it exactly when `{{.*?}}` matches at `i` |
| Classifier.TemplateFromIff | tools/reference_validator.py:171-174 | the scan from position `k` succeeds exactly when `{{.*?}}` matches somewhere at or after `k` |
| Classifier.IsTemplateIff | tools/reference_validator.py:171-174 | `is_template` holds exactly when the text has a `{{` followed, on the same line, by `}}` |
| Classifier.ShouldSkipIff | tools/reference_validator.py:165-184 | a value is not an entity id exactly when it starts with `!`, is 32 lower-case hex digits (with an optional trailing line break that `$` allows), holds a one-line `{{ … }}`, or is `all` or `none` |
| Classifier.OneLineTemplate | tools/reference_validator.py:171-174 | any text containing `{{`, a body without line breaks, and `}}` is a template |
| Classifier.NoDoubleBraceNoTemplate | tools/reference_validator.py:171-174 | text without `{{` is never a template |
| TemplateScanner.WordRunEnd | tools/reference_validator.py:246 | the greedy `[a-zA-Z0-9_]*` run: every character before the end is a word character, and the one at the end is not |
| TemplateScanner.MatchAt | tools/reference_validator.py:242-251 | a match of one of the seven patterns at a position ends after it and within the text |
| TemplateScanner.QuotedMatchIff | tools/reference_validator.py:243-250 | a quoted pattern matches at `p` capturing `c` exactly when the text there is the call name and the quote, then `c` (non-empty, without that quote), then the quote and, for `states(`, the `)` |
| TemplateScanner.QuotedMatchShaped | tools/reference_validator.py:243-250 | a quoted match has exactly that shape |
| TemplateScanner.QuotedMatchFound | tools/reference_validator.py:243-250 | text of that shape is matched, with that capture |
| TemplateScanner.DottedMatchParts | tools/reference_validator.py:246 | a `states.` match consists of `states.`, an identifier, a dot and a maximal identifier, and the capture is the two identifiers with the dot |
| TemplateScanner.DottedMatchSound | tools/reference_validator.py:246 | a `states.` match capturing `x.y` means the text reads `states.x.y` there with `x` and `y` identifiers and no word character after them |
| TemplateScanner.DottedMatchComplete | tools/reference_validator.py:246 | such text is matched with capture `x.y` |
| TemplateScanner.RunEndAt | tools/reference_validator.py:246 | the greedy run ends exactly at the first non-word character |
| TemplateScanner.DottedAt | tools/reference_validator.py:246 | `states.` followed by two identifier runs around a dot is matched up to the end of the second run |
| TemplateScanner.DottedMatchIff | tools/reference_validator.py:246 | the `states.` pattern captures `x.y` at `p` exactly when the text reads `states.x.y` there, with `x` and `y` identifiers, and no word character follows |
| TemplateScanner.DottedCaptureShaped | tools/reference_validator.py:246 | every `states.` capture has exactly one dot |
| TemplateScanner.FindAllSound | tools/reference_validator.py:253-255 | every token `re.findall` returns is the capture of a match at some position |
| TemplateScanner.FindAllSkips | tools/reference_validator.py:253-255 | positions where nothing matches are stepped over one at a time |
| TemplateScanner.FindAllLeftmost | tools/reference_validator.py:253-255 | the leftmost match comes first, and the search resumes where it ended |
| TemplateScanner.EntityShapedIff | tools/reference_validator.py:257 | the filter `'.' in m and len(m.split('.')) == 2` keeps exactly the tokens with one dot |
| TemplateScanner.Extract | tools/reference_validator.py:237-260 | `extract_entities_from_template`: the seven `findall` scans and the one-dot filter; `ExtractIff`, `QuotedCallNamesEntity`, `DottedNamesEntity` and `CallsNameEntities` state what it returns |
| TemplateScanner.ExtractIff | tools/reference_validator.py:237-260 | a string is extracted from a template exactly when it has one dot and one of the seven patterns captures it |
| TemplateScanner.QuotedNoEarlierMatch | tools/reference_validator.py:243-250 | no quoted pattern matches inside free text that lacks its quote character |
| TemplateScanner.QuoteNotInName | tools/reference_validator.py:242-251 | no call name contains its own quote character |
| TemplateScanner.QuotedFound | tools/reference_validator.py:243-255 | a call `name('c')` that follows text without that quote is found by `re.findall` |
| TemplateScanner.DottedNoEarlierMatch | tools/reference_validator.py:246 | the `states.` pattern does not match inside free text that has no dot |
| TemplateScanner.DottedFound | tools/reference_validator.py:246-255 | `states.x.y` after text without dots is found by `re.findall` |
| TemplateScanner.EmptySegmentsAccepted | tools/reference_validator.py:243-258 | the filter accepts a token with empty segments: `states('.')` yields the entity `.` |
| TemplateScanner.QuotedCallNamesEntity | tools/reference_validator.py:237-260 | a quoted call on a one-dot token after text without the quote contributes that token |
| TemplateScanner.DottedNamesEntity | tools/reference_validator.py:237-260 | `states.x.y` after text without dots contributes `x.y` |
| TemplateScanner.LandsKeepsLater | tools/reference_validator.py:237-260 | every token the `findall` scan finds after a position it reaches is among the tokens it finds from the start |
| TemplateScanner.LandsTrans | tools/reference_validator.py:237-260 | a scan that reaches `r`, and from there reaches `t`, reaches `t` |
| TemplateScanner.LandsOverGap | tools/reference_validator.py:237-260 | the scan steps over positions where no match starts |
| TemplateScanner.QuotedNoMatchBefore | tools/reference_validator.py:237-260 | no quoted match starts in text without the quote character that is followed by the call's opener |
| TemplateScanner.CallLands | tools/reference_validator.py:237-260 | over a quoted call preceded by quote-free text, the scan reaches the call and matches it with its token as the group, resuming after it |
| TemplateScanner.ChainCalls | tools/reference_validator.py:237-260 | a run of quoted calls written out as one text is the calls standing one after another, each starting where the previous ends |
| TemplateScanner.ChainFound | tools/reference_validator.py:237-260 | a scan from the start of a run of quoted calls of one form, with quote-free text between them, finds every token in the run |
| TemplateScanner.OneDot | tools/reference_validator.py:256-258 | two dot-free words joined by a dot have exactly one dot |
| TemplateScanner.CallsNameEntities | tools/reference_validator.py:237-260 | every one-dot token of such a run of calls is extracted, whatever text follows the run |
| TemplateScanner.TwoCallsNamed | tools/reference_validator.py:237-260 | two calls in one template, such as `states('sensor.a') + states('sensor.b')`, name both their one-dot tokens |
| Extractor.EntityRefs | tools/reference_validator.py:186-235 | `extract_entity_references`; `EntityRefsNotUuid`, `EntityKeyValueIsShallow`, `PlainStringContributesNothing`, `BareDottedStringIgnored` and `EntityRefsIgnoreDeviceAndAreaValues` state what it collects |
| Extractor.DeviceRefs | tools/reference_validator.py:262-284 | `extract_device_references`; `TaggedFreeIff` and `DeviceRefsUntagged` state what it collects |
| Extractor.AreaRefs | tools/reference_validator.py:286-308 | `extract_area_references`; `TaggedFreeIff` and `AreaRefsUntagged` state what it collects |
| Extractor.ServiceCalls | tools/reference_validator.py:314-350 | `extract_service_calls`; `ServiceEntryIff` and `ServiceCallsShape` state what it collects |
| Extractor.RegistryIds | tools/reference_validator.py:581-597 | `extract_entity_registry_ids`; `RegistryIdsAreUuid` and `EntityRefsAndRegistryIdsDisjoint` state what it collects |
| Extractor.UuidHasNoDot | tools/reference_validator.py:165-169 | a UUID-form value has no dot |
| Extractor.TemplateTokenNotUuid | tools/reference_validator.py:237-260 | no entity extracted from a template is UUID-form |
| Extractor.EntityRefsNotUuid | tools/reference_validator.py:186-235 | no entity reference from a document is UUID-form, so such values are never checked against the entity registry |
| Extractor.EntityRefsItemsNotUuid | tools/reference_validator.py:230-233 | the same for the items of a list |
| Extractor.EntityRefsEntriesNotUuid | tools/reference_validator.py:190-228 | the same for the pairs of a mapping |
| Extractor.EntityRefsEntryNotUuid | tools/reference_validator.py:191-228 | the same for one pair |
| Extractor.EntityKeyValueIsShallow | tools/reference_validator.py:195-204 | under `entity_id`, `entity_ids` or `entities`, a value is a reference exactly when it is not skipped and is the string itself or a string item of the list; nothing deeper counts |
| Extractor.PlainStringContributesNothing | tools/reference_validator.py:221-228 | a string under any other key that names no state call contributes nothing |
| Extractor.BareDottedStringIgnored | tools/reference_validator.py:221-224 | a bare `states.x.y` value is never scanned, because it contains no `states(`, although the template scan would find `x.y` in it |
| Extractor.DottedAloneNamesEntity | tools/reference_validator.py:246-258 | the template scan finds `x.y` in the text `states.x.y` |
| Extractor.EntityRefsIgnoreDeviceAndAreaValues | tools/reference_validator.py:207-214 | the values under device and area keys never affect the entity references |
| Extractor.TaggedFreeIff | tools/reference_validator.py:268-276 | a device or area id is taken from a value exactly when the id does not start with `!` and is the string or a string item of the list |
| Extractor.DeviceRefsUntagged | tools/reference_validator.py:262-284 | no device reference starts with `!` |
| Extractor.DeviceRefsItemsUntagged | tools/reference_validator.py:280-282 | the same for the items of a list |
| Extractor.DeviceRefsEntriesUntagged | tools/reference_validator.py:266-278 | the same for the pairs of a mapping |
| Extractor.AreaRefsUntagged | tools/reference_validator.py:286-308 | no area reference starts with `!` |
| Extractor.AreaRefsItemsUntagged | tools/reference_validator.py:304-306 | the same for the items of a list |
| Extractor.AreaRefsEntriesUntagged | tools/reference_validator.py:290-302 | the same for the pairs of a mapping |
| Extractor.ServiceEntryIff | tools/reference_validator.py:331-339 | a string under `service` is a call unless tagged or a template; one under `action` is a call when it has a dot and is not tagged |
| Extractor.ServiceCallsShape | tools/reference_validator.py:314-350 | no extracted service call starts with `!`, and each has a dot or is not a template |
| Extractor.ServiceCallsItemsShape | tools/reference_validator.py:345-348 | the same for the items of a list |
| Extractor.ServiceCallsEntriesShape | tools/reference_validator.py:326-343 | the same for the pairs of a mapping |
| Extractor.RegistryIdsAreUuid | tools/reference_validator.py:581-597 | every extracted entity-registry id is UUID-form |
| Extractor.RegistryIdsItemsAreUuid | tools/reference_validator.py:591-593 | the same for the items of a list |
| Extractor.RegistryIdsEntriesAreUuid | tools/reference_validator.py:585-590 | the same for the pairs of a mapping |
| Extractor.EntityRefsAndRegistryIdsDisjoint | tools/reference_validator.py:581-597 | no value is both an entity reference and a registry id, so each is checked by exactly one of the two loops |
| Registry.Index | tools/reference_validator.py:66-70 | the registry dictionary has distinct keys, and each entry is stored under its own key and comes from the loaded records |
| Registry.IndexKeys | tools/reference_validator.py:66-70 | a key is present exactly when some record has it |
| Registry.IndexLastWins | tools/reference_validator.py:66-70 | for duplicate keys the dictionary comprehension keeps the last record |
| Registry.EntityIndexKeyed | tools/reference_validator.py:66-70 | every entity entry is stored under its own `entity_id` |
| Registry.DisabledIndexKeys | tools/reference_validator.py:646-650 | the disabled-entity table holds exactly the `entity_id`s of the disabled records |
| Registry.DisabledIsSubIndex | tools/reference_validator.py:643-652 | every disabled entity is in the registry, so an id missing from the registry is never disabled: the disabled-entity warning cannot be reached |
| Registry.IdMapping | tools/reference_validator.py:599-606 | `get_entity_registry_id_mapping` over a loaded registry; `IdMappingSpec` and `MappedEntityPresent` state its keys and values |
| Registry.IdMappingSpec | tools/reference_validator.py:599-606 | the id mapping has a key exactly when some record has that `id`, and maps it to that record's `entity_id` |
| Registry.MappedEntityPresent | tools/reference_validator.py:668-670 | a mapped entity is always in the registry, so the test `actual_entity_id in entities` always holds |
| Blueprints.BlueprintIndex | tools/reference_validator.py:429-461 | every index entry is the relative path of a scanned file whose document is a mapping with a `blueprint` key |
| Blueprints.BlueprintIndexComplete | tools/reference_validator.py:446-454 | every such file is in the index |
| Blueprints.InputSets | tools/reference_validator.py:485-496 | an input is required exactly when its configuration is not a mapping with `default`, and optional exactly when it is |
| Blueprints.InputSetsPartition | tools/reference_validator.py:485-496 | each input is required or optional, and with distinct names never both |
| Blueprints.BlueprintInputs | tools/reference_validator.py:463-496 | an unknown path gives no inputs; a blueprint section that is not a mapping raises; no `input` key gives no inputs; a mapping `input` gives the required and optional sets of `InputSets`; any other `input` value raises |
| Blueprints.FirstMatch | tools/reference_validator.py:535-539 | the position of the first index key that equals the path or ends with it; no key before it matches |
| Blueprints.FindBlueprint | tools/reference_validator.py:532-539 | the loop finds a key exactly when one matches, and it is the first matching key |
| Blueprints.CheckBlueprint | tools/reference_validator.py:498-579 | `validate_blueprint_automation` as a value; `CheckBlueprintRoutes`, `MissingRequiredInputs`, `UnknownProvidedInputs` and `CheckBlueprintShape` state its outcomes |
| Blueprints.CheckBlueprintRoutes | tools/reference_validator.py:498-579 | no `use_blueprint`, a non-mapping one or an unmatched path passes; a falsy path fails with the missing-path warning; a matched path is checked against the first matching key |
| Blueprints.MissingRequiredInputs | tools/reference_validator.py:545-555 | when required inputs are missing, the check fails with one error listing exactly the missing inputs, sorted, and no warning |
| Blueprints.UnknownProvidedInputs | tools/reference_validator.py:557-579 | when all required inputs are given, the check passes, with one warning exactly when unknown inputs are given; the warning lists exactly those inputs, sorted |
| Blueprints.CheckBlueprintShape | tools/reference_validator.py:498-579 | one automation gives at most one error or one warning, never both; it fails exactly on an error or the missing-path warning |
| Blueprints.CheckInputsShape | tools/reference_validator.py:541-579 | the input check gives at most one finding, and fails exactly when it gives an error |
| Checks.ApplyShape | tools/reference_validator.py:639-687 | checking one reference yields at most one finding, about that reference |
| Checks.ApplySubject | tools/reference_validator.py:639-687 | the same, stated on the finding itself |
| Checks.ServiceSubject | tools/reference_validator.py:376-421 | one service call yields at most one warning, about that call |
| Checks.Collect | tools/reference_validator.py:639-687 | a loop over no references appends nothing |
| Checks.CollectStep | tools/reference_validator.py:639-687 | one more reference appends its own findings at the end |
| Checks.CollectAfter | tools/reference_validator.py:639-687 | the same step, after earlier findings |
| Checks.CollectMember | tools/reference_validator.py:639-687 | a finding is appended exactly when checking some reference yields it |
| Checks.CollectEmpty | tools/reference_validator.py:639-687 | a loop appends nothing exactly when no reference yields a finding |
| Checks.CollectCount | tools/reference_validator.py:639-687 | over a set's distinct elements, each finding is appended once for its own reference and never for another |
| Checks.EachUnknownEntityOnce | tools/reference_validator.py:639-658 | each non-UUID entity reference missing from the registry gets exactly one unknown-entity error, and no other entity reference gets one |
| Checks.NoDisabledEntityWarning | tools/reference_validator.py:643-654 | the entity loop never warns about a disabled entity |
| Checks.EachUnknownRegistryIdOnce | tools/reference_validator.py:661-666 | each registry id missing from the mapping gets exactly one unknown-registry-id error |
| Checks.DisabledRegistryIdWarnings | tools/reference_validator.py:667-676 | the loop warns about a registry id exactly when it maps to a disabled entity, naming that entity |
| Checks.EachUnknownDeviceOnce | tools/reference_validator.py:679-682 | each device reference missing from the device registry gets exactly one error |
| Checks.EachUnknownAreaOnce | tools/reference_validator.py:685-687 | each area reference missing from the area registry gets exactly one warning |
| Checks.ServiceFinding | tools/reference_validator.py:375-419 | the warning one service call gets; `ServiceFindingCases` and `UndottedServiceWarned` state its cases |
| Checks.ServiceFindingCases | tools/reference_validator.py:384-419 | a call `domain.action`: a builtin domain passes; `script` warns exactly when the action is neither a script nor `reload`; `scene` warns exactly when it is neither a scene nor `reload`, `apply` or `create`; any other domain gets the custom-integration warning |
| Checks.UniqueSplit | tools/reference_validator.py:384 | `split('.', 1)` of `domain.action` gives back that domain and action |
| Checks.UndottedServiceWarned | tools/reference_validator.py:377-382 | a call without a dot gets exactly the invalid-format warning |
| Checks.DefaultsSilenceScripts | tools/reference_validator.py:387-398 | with the built-in domains, no `script.` call is ever warned about, since `script` is builtin |
| Checks.DefaultsSilenceScenes | tools/reference_validator.py:387-410 | with the built-in domains, no `scene.` call is ever warned about |
| Checks.LoadFailure | tools/reference_validator.py:54-89 | loading an uncached registry appends at most one finding, none exactly when the file reads, and that finding is a load failure of the right registry |
| Checks.Loaded | tools/reference_validator.py:54-89 | the cached registry is a well-formed dictionary, and empty after a failure |
| Checks.RefsOkIff | tools/reference_validator.py:637-697 | a file's references are valid exactly when the entity, registry-id and device loops append no error |
| Checks.EntitiesOkIff | tools/reference_validator.py:639-658 | every entity reference is in the registry exactly when the entity loop appends no error |
| Checks.ItemsRunStep | tools/reference_validator.py:710-713 | checking one more automation extends the run by that automation's outcome |
| Checks.ItemsRunAfter | tools/reference_validator.py:710-713 | an automation that raises stops the run with nothing appended; one that returns appends its errors and warnings |
| Checks.RaisedSticks | tools/reference_validator.py:710-713 | once an automation raises, no later automation is checked |
| Checks.ItemsRunFindings | tools/reference_validator.py:699-713 | the blueprint checks append only missing-input errors and missing-path or unknown-input warnings |
| Checks.FileErrors | tools/reference_validator.py:608-697 | the errors `validate_file_references` appends for one file; `VerdictIffNoReferenceError` and `ReferenceChecksOnly` state what they can be |
| Checks.FileVerdict | tools/reference_validator.py:608-697 | the result of `validate_file_references`; `VerdictIffNoReferenceError` ties it to the errors appended |
| Checks.VerdictIffNoReferenceError | tools/reference_validator.py:608-697 | a file is valid exactly when no error appended while checking it is an unknown entity, registry id or device; load failures, blueprint errors and warnings leave the result alone |
| Checks.ReferenceChecksOnly | tools/reference_validator.py:639-682 | the three reference loops append only reference errors |
| Checks.NoReferenceErrorIn | tools/reference_validator.py:608-697 | the appended errors hold no reference error exactly when the three reference loops appended nothing |
| Checks.AllAfter | tools/reference_validator.py:737-739 | checking one more file appends that file's errors and warnings at the end |
| EntitySummary.SummaryOf | tools/reference_validator.py:743-768 | the summary built in registry order; `SummaryCorrect` proves it equal to an independent description by domain |
| EntitySummary.IdsIn | tools/reference_validator.py:743-768 | the ids counted for a domain all belong to it |
| EntitySummary.CountsAddUp | tools/reference_validator.py:757-761 | each domain's enabled and disabled counts add up to its count |
| EntitySummary.ExpectedStep | tools/reference_validator.py:756-765 | an entity of the domain adds one to the count and to the enabled or disabled count, and joins the examples if fewer than three |
| EntitySummary.ExpectedOther | tools/reference_validator.py:748-765 | an entity of another domain changes nothing for this domain |
| EntitySummary.SameDomainStep | tools/reference_validator.py:748-765 | the summary stays correct for a domain after one more of its entities |
| EntitySummary.OtherDomainStep | tools/reference_validator.py:748-765 | the summary stays correct for a domain after an entity of another domain |
| EntitySummary.SummaryCorrect | tools/reference_validator.py:743-768 | a domain has an entry exactly when the registry has an entity of it; the entry holds how many it has, how many are enabled and disabled, and its first three ids in registry order |
| EntitySummary.SummaryValid | tools/reference_validator.py:743-768 | the summary has one entry per domain |
| EntitySummary.SummaryStep | tools/reference_validator.py:748-765 | one more entity updates its domain's entry, which is made empty first if absent |
| EntitySummary.Tally | tools/reference_validator.py:756-765 | the body of the loop applies that update to one entry |
| EntitySummary.Summarize | tools/reference_validator.py:746-768 | the loop over the registry builds exactly the summary |
| References.NoneRaiseIff | tools/reference_validator.py:737-739 | the loop over the files completes exactly when no file's check raises |
| References.AnyRaisesStep | tools/reference_validator.py:737-739 | some file in a longer list raises exactly when one earlier did or the new one does |
| References.AllPassIff | tools/reference_validator.py:735-741 | `validate_all` is true exactly when every file is valid |
| References.ReferenceValidator.EnvWellFormed | tools/reference_validator.py:54-126 | the registries the loads produce are keyed by their own ids, and the loads append only load failures |
| References.ReferenceValidator.CachedLoadsClean | tools/reference_validator.py:60-163 | once a registry is cached, loading it again appends nothing |
| References.ReferenceValidator.constructor | tools/reference_validator.py:40-52 | both lists are empty and nothing is cached |
| References.ReferenceValidator.LoadEntityRegistry | tools/reference_validator.py:54-89 | gives the entity registry (empty after a failure); appends a load error only when nothing was cached, and caches a successful load only |
| References.ReferenceValidator.LoadDeviceRegistry | tools/reference_validator.py:91-126 | the same for the device registry |
| References.ReferenceValidator.LoadAreaRegistry | tools/reference_validator.py:128-163 | the same for the area registry, whose failures are warnings |
| References.ReferenceValidator.GetEntityRegistryIdMapping | tools/reference_validator.py:599-606 | gives the id mapping of the entity registry, loading it as above |
| References.ReferenceValidator.LoadEntityRegistryTwice | tools/reference_validator.py:54-89 | two loads give the same registry; a failure is reported twice and a success never |
| References.ReferenceValidator.Enumerate | tools/reference_validator.py:639 | a `for` over a set visits each element exactly once |
| References.ReferenceValidator.CheckEntities | tools/reference_validator.py:639-658 | appends the entity loop's errors and warnings, in iteration order, and is true exactly when it appended no error |
| References.ReferenceValidator.CheckEntity | tools/reference_validator.py:640-658 | appends one entity reference's findings |
| References.ReferenceValidator.CheckRegistryIds | tools/reference_validator.py:661-676 | appends the registry-id loop's errors and warnings, and is true exactly when it appended no error |
| References.ReferenceValidator.CheckRegistryId | tools/reference_validator.py:662-676 | appends one registry id's findings |
| References.ReferenceValidator.CheckDevices | tools/reference_validator.py:679-682 | appends the device loop's errors, and is true exactly when there are none |
| References.ReferenceValidator.CheckAreas | tools/reference_validator.py:685-687 | appends the area loop's warnings |
| References.ReferenceValidator.ValidateServiceCalls | tools/reference_validator.py:352-423 | always true; appends one warning per call as `ServiceFindingCases` says, with scripts and scenes taken from the entity registry; errors grow only by its own registry load |
| References.ReferenceValidator.CheckServices | tools/reference_validator.py:376-421 | appends each call's warning, in iteration order |
| References.ReferenceValidator.CheckService | tools/reference_validator.py:377-419 | appends one call's warning |
| References.ReferenceValidator.LoadBlueprints | tools/reference_validator.py:429-461 | gives the blueprint index and caches it; later calls give the cached index |
| References.ReferenceValidator.GetBlueprintInputs | tools/reference_validator.py:463-496 | gives the required and optional inputs of the blueprint, or raises as `BlueprintInputs` says |
| References.ReferenceValidator.SplitInputs | tools/reference_validator.py:485-494 | the loop sorts the inputs into exactly the required and the optional sets |
| References.ReferenceValidator.CheckMatchedInputs | tools/reference_validator.py:541-579 | appends what the input check of a matched blueprint gives, and returns its result or raises |
| References.ReferenceValidator.ReportInputs | tools/reference_validator.py:545-579 | appends the missing-input error or the unknown-input warning and returns the result |
| References.ReferenceValidator.ValidateBlueprintAutomation | tools/reference_validator.py:498-579 | returns and appends what `CheckBlueprint` gives for the automation, or raises with nothing appended |
| References.ReferenceValidator.ValidateItem | tools/reference_validator.py:711-713 | checks one list item: a mapping as above, anything else adds nothing |
| References.ReferenceValidator.ValidateAutomationsBlueprints | tools/reference_validator.py:699-713 | a document that is not a list adds nothing; otherwise the automations are checked in order until one raises |
| References.ReferenceValidator.ValidateFileReferences | tools/reference_validator.py:608-697 | raises exactly when a blueprint check of the file raises; otherwise true exactly when the file is valid (`secrets.yaml`, an empty document, or every entity, registry id and device known); appends exactly the file's findings |
| References.ReferenceValidator.ValidateDocument | tools/reference_validator.py:621-697 | the same for a parsed, non-empty document |
| References.ReferenceValidator.CheckDocument | tools/reference_validator.py:623-691 | extracts the references, loads the registries and runs the reference and service loops; true exactly when every reference resolves |
| References.ReferenceValidator.CachedEntitiesClean | tools/reference_validator.py:60-89 | a cached entity registry loads without appending |
| References.ReferenceValidator.LoadRegistries | tools/reference_validator.py:631-634 | gives the three registries and the id mapping, appending the load failures |
| References.ReferenceValidator.CheckReferences | tools/reference_validator.py:637-687 | the four loops over the references: appends their findings, and is true exactly when every reference resolves |
| References.ReferenceValidator.ValidateServices | tools/reference_validator.py:689-691 | a document with service calls gets them checked; one without adds nothing |
| References.ReferenceValidator.ValidateAll | tools/reference_validator.py:724-741 | a missing directory fails with one error; no files passes with one warning; otherwise raises exactly when some file's check raises, and then the last file checked is the first that raises and no earlier file raised; otherwise true exactly when every file is valid |
| References.ReferenceValidator.ValidateFiles | tools/reference_validator.py:735-741 | the loop over the files, with the same outcome and findings; on a raise, every file before the last one checked returned |
| References.ReferenceValidator.ValidateNext | tools/reference_validator.py:737-739 | one iteration of that loop: the file's findings are appended and the verdict so far is updated |
| References.ReferenceValidator.GetEntitySummary | tools/reference_validator.py:743-768 | gives the summary of the entity registry, loading it as above |
| YamlChecks.SyntaxFindings | tools/yaml_validator.py:30-64 | the syntax check appends nothing for a parsed file and one error otherwise: a syntax error, an encoding error, a missing file, a denied read, or "Unexpected error" for any other exception from reading or loading |
| YamlChecks.ConfigReport | tools/yaml_validator.py:76-102 | what `validate_configuration_structure` returns and appends; `ConfigReportSpec` states it |
| YamlChecks.ConfigReportSpec | tools/yaml_validator.py:76-102 | `configuration.yaml` fails exactly when it does not parse to a mapping, with one error; otherwise it gets one warning each for a missing `homeassistant` and present `discovery` and `introduction`; other files pass silently |
| YamlChecks.AutomationErrorsFree | tools/yaml_validator.py:121-152 | the automations give no error exactly when each is a mapping that uses a blueprint or has a trigger and an action |
| YamlChecks.MissingTriggerIff | tools/yaml_validator.py:121-144 | automation `i` gets the missing-trigger (or missing-action) error exactly when it is a mapping without `use_blueprint` and without `trigger`/`triggers` (or `action`/`actions`), and the not-a-mapping error exactly when it is not a mapping |
| YamlChecks.MissingAliasIff | tools/yaml_validator.py:145-150 | automation `i` gets the missing-alias warning exactly when it is a mapping without `alias` |
| YamlChecks.ModeHintsAppend | tools/yaml_validator.py:161-171 | the mode hints of two lists of warnings are those of each, in order |
| YamlChecks.ModeHintPerModeless | tools/yaml_validator.py:161-171 | one mode hint is given for each automation that is a mapping with neither `mode` nor `use_blueprint` |
| YamlChecks.AutomationsReport | tools/yaml_validator.py:104-159 | what `validate_automations_structure` returns and appends; `AutomationsReportSpec`, `MissingTriggerIff` and `ModeHintPerModeless` state it |
| YamlChecks.AutomationsReportSpec | tools/yaml_validator.py:104-159 | the automations check fails exactly when it appends an error; an empty file passes, a list passes exactly when every automation is good, and anything else fails with one error |
| YamlChecks.ScriptErrorsCount | tools/yaml_validator.py:190-208 | one error per bad script, none exactly when every script is good |
| YamlChecks.ScriptErrorIff | tools/yaml_validator.py:190-208 | a script gets the not-a-mapping error exactly when it is not a mapping, and the missing-sequence error exactly when it is a mapping with neither `use_blueprint` nor `sequence` |
| YamlChecks.GoodScriptsBound | tools/yaml_validator.py:190-208 | the good scripts number at most all of them, and all of them exactly when each is good |
| YamlChecks.ScriptsReport | tools/yaml_validator.py:173-215 | what `validate_scripts_structure` returns and appends; `ScriptsReportSpec` and `ScriptErrorIff` state it |
| YamlChecks.ScriptsReportSpec | tools/yaml_validator.py:173-215 | the scripts check fails exactly when it appends an error and never warns; an empty file passes, a mapping passes exactly when every script is good, and anything else fails with one error |
| YamlChecks.HitsAppend | tools/yaml_validator.py:217-290 | walking two lists of nodes appends the findings of each, in order |
| YamlChecks.HitsBelow | tools/yaml_validator.py:217-290 | a node is inspected before the nodes below it |
| YamlChecks.EntryVisitsStep | tools/yaml_validator.py:222-241 | one more mapping pair appends the findings of the nodes under it, when the walk descends into it |
| YamlChecks.ItemVisitsStep | tools/yaml_validator.py:242-245 | one more list item appends the findings of its nodes |
| YamlChecks.PatternScanIgnoresKey | tools/yaml_validator.py:247-290 | the URL and MQTT walks do not depend on the key a value sits under |
| YamlChecks.WalkStart | tools/yaml_validator.py:217-290 | a walk inspects its root, then what lies below |
| YamlChecks.DeprecatedEntryStep | tools/yaml_validator.py:222-241 | the deprecation walk checks each pair's key and value, then recurses into the value |
| YamlChecks.PatternEntryStep | tools/yaml_validator.py:258-286 | the URL and MQTT walks recurse into each pair they descend into |
| YamlChecks.ItemStep | tools/yaml_validator.py:242-290 | each list item is walked in order |
| YamlChecks.HitsMember | tools/yaml_validator.py:217-290 | a finding is appended exactly when some inspected node yields it |
| YamlChecks.RuleHitsMember | tools/yaml_validator.py:250-256 | a string yields a rule's message exactly when the rule has a non-empty pattern it contains (case-insensitively for MQTT) |
| YamlChecks.DeprecationsIff | tools/yaml_validator.py:225-237 | `enabled: false` is reported exactly for pairs with key `enabled` and value `False`, and fragile device ids exactly for pairs with key `device_id` or `device_ids` |
| YamlChecks.PatternHitIff | tools/yaml_validator.py:247-290 | a URL or MQTT warning is appended exactly when an inspected string fires a rule with that message; only strings are inspected |
| YamlChecks.EntryVisitsMember | tools/yaml_validator.py:222-241 | every node under a mapping lies under one of its pairs |
| YamlChecks.EntryVisitsContain | tools/yaml_validator.py:222-241 | every node under a pair the walk descends into is visited |
| YamlChecks.ItemVisitsMember | tools/yaml_validator.py:242-245 | every node under a list lies under one of its items |
| YamlChecks.ItemVisitsContain | tools/yaml_validator.py:242-245 | every node under an item is visited |
| YamlChecks.WalkIsClosed | tools/yaml_validator.py:217-290 | the walk reaches every pair it descends into and every list item below a visited node |
| YamlChecks.PrunedWalkKeys | tools/yaml_validator.py:277-286 | the MQTT walk visits a keyed node only under an MQTT topic key or when it is a mapping or list |
| YamlChecks.MqttWarnsOnTopicsOnly | tools/yaml_validator.py:268-290 | an MQTT warning is always about a string that is the document itself, a list item, or the value of a topic key |
| YamlChecks.LoadErrors | tools/yaml_validator.py:353-359 | what the encoding and syntax checks of `validate_all` append; `UnloadedFileFindings` and `FileFindingsSpec` state it |
| YamlChecks.FileErrors | tools/yaml_validator.py:346-367 | what one iteration of `validate_all` appends to the errors; `SkippedFileFindings`, `UnloadedFileFindings` and `FileFindingsSpec` state it |
| YamlChecks.SkippedFileFindings | tools/yaml_validator.py:350-351 | `secrets.yaml` appends nothing |
| YamlChecks.UnloadedFileFindings | tools/yaml_validator.py:353-359 | a file that does not load appends only its encoding or syntax error, and no warning; one whose read fails appends nothing; one that is read but not loaded appends exactly the encoding error or the syntax check's error |
| YamlChecks.AllPassIff | tools/yaml_validator.py:346-369 | `validate_all` is true exactly when every file passes |
| YamlChecks.AllStep | tools/yaml_validator.py:348-367 | one more file appends its findings and updates the verdict |
| YamlChecks.FirstRaise | tools/yaml_validator.py:348-367 | the position of the first file whose encoding check raises (a missing file, a denied read or another read failure, but not a loader exception); none before it does |
| YamlChecks.FileFindingsSpec | tools/yaml_validator.py:348-367 | a skipped file or one whose read fails appends nothing; a failing one appends exactly one encoding, syntax or unexpected error and no warning; one whose loader raises a non-YAML exception appends "Unexpected error", fails and does not raise |
| YamlValidation.YamlValidator.constructor | tools/yaml_validator.py:23-28 | both lists are empty |
| YamlValidation.YamlValidator.ValidateYamlSyntax | tools/yaml_validator.py:30-64 | true exactly when the file parses; appends its syntax error otherwise |
| YamlValidation.YamlValidator.ValidateFileEncoding | tools/yaml_validator.py:66-74 | raises exactly when reading the text fails: a missing file, a denied read or another read error; false, with one error, exactly when it is not UTF-8; true for a file that is read, whether or not it then loads |
| YamlValidation.YamlValidator.ValidateConfigurationStructure | tools/yaml_validator.py:76-102 | returns and appends what `ConfigReportSpec` describes |
| YamlValidation.YamlValidator.ValidateAutomationsStructure | tools/yaml_validator.py:104-159 | returns and appends what `AutomationsReportSpec` describes |
| YamlValidation.YamlValidator.CheckAutomation | tools/yaml_validator.py:121-152 | one automation: appends its errors and warnings; valid exactly when there are no errors |
| YamlValidation.YamlValidator.CheckAutomationBestPractices | tools/yaml_validator.py:161-171 | appends the mode hint exactly when the automation has neither `mode` nor `use_blueprint` |
| YamlValidation.YamlValidator.ValidateScriptsStructure | tools/yaml_validator.py:173-215 | returns and appends what `ScriptsReportSpec` describes |
| YamlValidation.YamlValidator.CheckDeprecatedPatterns | tools/yaml_validator.py:217-245 | the recursive walk appends exactly the deprecation findings of every node, in walk order |
| YamlValidation.YamlValidator.CheckDeprecatedKey | tools/yaml_validator.py:225-237 | appends one pair's deprecation findings |
| YamlValidation.YamlValidator.ScanString | tools/yaml_validator.py:249-256 | appends the message of each rule the string fires, in rule order |
| YamlValidation.YamlValidator.CheckHardcodedUrls | tools/yaml_validator.py:247-266 | the recursive walk appends exactly the URL warnings of every string in the document |
| YamlValidation.YamlValidator.CheckMqttTopics | tools/yaml_validator.py:268-290 | the pruned walk appends exactly the MQTT warnings of the strings it reaches |
| YamlValidation.YamlValidator.ValidateDeprecatedPatternsInFile | tools/yaml_validator.py:292-324 | a non-empty parsed document gets the deprecation and URL walks, and the MQTT walk when the file name contains `mqtt` in any case; anything else adds nothing |
| YamlValidation.YamlValidator.CheckLoaded | tools/yaml_validator.py:361-367 | a loaded file gets the structure checks and the pattern walks |
| YamlValidation.YamlValidator.CheckStructure | tools/yaml_validator.py:361-364 | appends the three structure checks' findings, in order |
| YamlValidation.YamlValidator.ValidateLoading | tools/yaml_validator.py:353-359 | raises exactly when reading the text fails; otherwise true exactly when it parses, appending the encoding error or the syntax check's error, including "Unexpected error" for a loader exception |
| YamlValidation.YamlValidator.ValidateFile | tools/yaml_validator.py:348-367 | one iteration: raises exactly when the encoding check does, with nothing appended; otherwise true exactly when the file passes |
| YamlValidation.YamlValidator.ValidateAll | tools/yaml_validator.py:335-369 | a missing directory fails with one error; no files passes with one warning; otherwise raises exactly when some file's text cannot be read, true exactly when every file passes, with the findings of the files before the first raise; a file whose loader raises fails with "Unexpected error" and the loop goes on |
| YamlValidation.YamlValidator.ValidateFiles | tools/yaml_validator.py:346-369 | the loop over the files, with the same outcome and findings |
| HaChecks.Unsuffixed | tools/ha_official_validator.py:101 | `re.sub(r"[a-zA-Z].*$", "", s)`; `UnsuffixedAt`, `NoLetterUnsuffixed` and `SuffixStart` state where it cuts |
| HaChecks.ParseVersion | tools/ha_official_validator.py:91-103 | `_parse_version`; `ParseDotted` and `ParseIgnoresSuffix` state what it gives |
| HaChecks.SuffixStart | tools/ha_official_validator.py:101 | where `[a-zA-Z].*$` first matches: a letter followed by no line break except a final one, with no earlier such position |
| HaChecks.DigitParts | tools/ha_official_validator.py:103 | the parts that are all digits, as numbers; never more than the parts |
| HaChecks.Numerals | tools/ha_official_validator.py:91-103 | each number written in decimal, in order |
| HaChecks.NumeralValue | tools/ha_official_validator.py:103 | `int` of a number's decimal text is that number |
| HaChecks.SplitDotted | tools/ha_official_validator.py:102 | splitting dotted numbers at `.` gives back their numerals |
| HaChecks.DigitPartsOfNumerals | tools/ha_official_validator.py:103 | numerals are all kept and give back their numbers |
| HaChecks.NoLetterUnsuffixed | tools/ha_official_validator.py:101 | text without letters is left alone by the suffix removal |
| HaChecks.ParseDotted | tools/ha_official_validator.py:91-103 | parsing dotted numbers gives back the numbers |
| HaChecks.DottedHasNoLetter | tools/ha_official_validator.py:101 | dotted numbers contain no letter and no line break |
| HaChecks.ParseIgnoresSuffix | tools/ha_official_validator.py:91-103 | a one-line suffix starting with a letter (`b1`, `dev0`) does not change the parsed version |
| HaChecks.UnsuffixedAt | tools/ha_official_validator.py:101 | the suffix removal cuts exactly at the first letter of such a suffix |
| HaChecks.Example | tools/ha_official_validator.py:95 | `2024.12.0b1` parses to 2024, 12, 0 |
| HaChecks.ExampleDotted | tools/ha_official_validator.py:95 | 2024, 12, 0 is written `2024.12.0` |
| HaChecks.VersionLess | tools/ha_official_validator.py:76 | tuple `<` on the parsed versions; `VersionLessIff` states it, and `VersionLessIrreflexive`, `VersionLessTransitive` and `VersionLessTotal` show it is a strict total order |
| HaChecks.VersionLessIff | tools/ha_official_validator.py:76 | tuple `<`: after an equal prefix, the first is shorter or has a smaller part |
| HaChecks.LessWitness | tools/ha_official_validator.py:76 | if one tuple is smaller, a position shows it |
| HaChecks.LessAtIsLess | tools/ha_official_validator.py:76 | a position that shows it makes the tuple smaller |
| HaChecks.VersionLessIrreflexive | tools/ha_official_validator.py:76 | no version is below itself |
| HaChecks.VersionLessTransitive | tools/ha_official_validator.py:76 | the version order is transitive |
| HaChecks.VersionLessTotal | tools/ha_official_validator.py:76 | of two different versions, one is below the other |
| HaChecks.Shown | tools/ha_official_validator.py:150-175 | no more lines are reported than there are |
| HaChecks.RoutesPartition | tools/ha_official_validator.py:150-175 | every stdout line that is not skipped is reported exactly once, as information, an error or a warning |
| HaChecks.PrefixCancel | tools/ha_official_validator.py:155-175 | the step `RouteLineHas` uses to recover the stripped line from a reported `HA Check: ` entry: equal texts after the same prefix are equal |
| HaChecks.RouteOf | tools/ha_official_validator.py:150-175 | the list a stripped stdout line goes to; `RouteLineHas`, `RoutedIff` and `RoutesPartition` state it |
| HaChecks.RoutedIff | tools/ha_official_validator.py:150-175 | `HA Check: line` is on a list exactly when some stdout line strips to `line` and the first matching rule sends it to that list |
| HaChecks.RouteLineHas | tools/ha_official_validator.py:151-175 | the same for one stdout line |
| HaChecks.RoundErrorCountIsInfo | tools/ha_official_validator.py:160-163 | as written, a count line such as `10 errors found` contains `0 errors` and is reported as information, not as an error |
| HaChecks.RoundCountText | tools/ha_official_validator.py:160-163 | the count of a multiple of ten ends in `0 errors found` |
| HaChecks.ZeroErrorsLine | tools/ha_official_validator.py:160-163 | any line of digits followed by `0 errors found` is reported as information |
| HaChecks.ZeroErrorsMentioned | tools/ha_official_validator.py:160-163 | such a line contains `0 errors`, `errors` and `found` |
| HaChecks.SuccessIsInfo | tools/ha_official_validator.py:157-158 | the success line is reported as information |
| HaChecks.StderrErrorIff | tools/ha_official_validator.py:177-193 | `HA Error: line` is added exactly when some stderr line strips to `line`, and `line` is not blank and mentions no ignore pattern, case-insensitively |
| HaChecks.EmptyPatternSilences | tools/ha_official_validator.py:187-191 | an empty ignore pattern silences all of stderr |
| HaChecks.RemoveFirst | tools/ha_official_validator.py:213-214 | `list.remove` takes out one occurrence of the value |
| HaChecks.DropStep | tools/ha_official_validator.py:213-214 | each error to remove is still present when its turn comes, and removing it advances the removal by one |
| HaChecks.MovedMentions | tools/ha_official_validator.py:207-212 | every error to remove mentions an environment pattern |
| HaChecks.DropAll | tools/ha_official_validator.py:213-214 | removing all of them leaves exactly the errors that mention no pattern, in their order |
| HaChecks.ReclassifySplits | tools/ha_official_validator.py:195-217 | the errors kept and those moved are, together, the original errors |
| HaChecks.ReclassifySeparates | tools/ha_official_validator.py:195-217 | an error is kept exactly when it mentions no environment pattern, and moved exactly when it mentions one |
| HaChecks.EnvWarningsFollowMoved | tools/ha_official_validator.py:207-212 | each moved error becomes one `[Env]` warning, in order |
| HaChecks.NoPatternsKeepAll | tools/ha_official_validator.py:201-204 | with no environment patterns nothing changes |
| HaChecks.KeptIdempotent | tools/ha_official_validator.py:195-217 | a second reclassification changes nothing |
| HaValidation.VersionReport | tools/ha_official_validator.py:54-89 | what `check_version_compatibility` appends; `DottedVersionCheck` states it for dotted versions |
| HaValidation.OutputReport | tools/ha_official_validator.py:148-193 | what `parse_check_config_output` appends; `RunReportSpec` states it |
| HaValidation.RunReport | tools/ha_official_validator.py:105-146 | what `run_ha_check_config` appends; `RunReportSpec` states it |
| HaValidation.DottedVersionCheck | tools/ha_official_validator.py:54-89 | with a dotted version (maybe with a suffix) and a dotted minimum, the check passes exactly when the version is not below the minimum, and reports one line: information, or the below-minimum warning exactly when it is below |
| HaValidation.RunReportSpec | tools/ha_official_validator.py:105-193 | every stdout line of a finished run that is not skipped lands on exactly one list; a timeout, a missing interpreter or another failure gives exactly one error |
| HaValidation.ValidateAllOutcome | tools/ha_official_validator.py:195-241 | after `validate_all` no remaining error mentions an environment pattern, and every earlier error either remains or has its `[Env]` warning |
| HaValidation.HaOfficialValidator.constructor | tools/ha_official_validator.py:24-31 | the three lists are empty and no version is known |
| HaValidation.HaOfficialValidator.GetHaVersion | tools/ha_official_validator.py:33-52 | a known version is kept; otherwise it is the installed one, or stays unknown |
| HaValidation.HaOfficialValidator.CheckVersionCompatibility | tools/ha_official_validator.py:54-89 | fails only for a version below a non-empty minimum; an unknown version gives a warning, and a compatible one an information line |
| HaValidation.HaOfficialValidator.RunHaCheckConfig | tools/ha_official_validator.py:105-146 | runs the check with the configured timeout; true exactly when it finished with exit code 0; appends the parsed output, or one error when it could not run |
| HaValidation.HaOfficialValidator.ParseCheckConfigOutput | tools/ha_official_validator.py:148-193 | appends the routed stdout lines and the stderr errors |
| HaValidation.HaOfficialValidator.ParseStdout | tools/ha_official_validator.py:150-175 | the loop over the stdout lines routes each one as `RoutedIff` says |
| HaValidation.HaOfficialValidator.RouteStdoutLine | tools/ha_official_validator.py:151-175 | one stdout line is appended to the list its first matching rule gives, or skipped |
| HaValidation.HaOfficialValidator.ParseStderr | tools/ha_official_validator.py:177-193 | the loop over the stderr lines appends the errors `StderrErrorIff` describes |
| HaValidation.HaOfficialValidator.ReclassifyEnvironmentErrors | tools/ha_official_validator.py:195-217 | the errors become those that mention no environment pattern, in order, and each moved error becomes an `[Env]` warning |
| HaValidation.HaOfficialValidator.CollectEnvironmentErrors | tools/ha_official_validator.py:206-212 | the first loop yields exactly the errors to remove and appends their warnings |
| HaValidation.HaOfficialValidator.FirstMention | tools/ha_official_validator.py:208-212 | the inner loop finds a pattern exactly when the error mentions one, case-insensitively |
| HaValidation.HaOfficialValidator.ValidateAll | tools/ha_official_validator.py:219-241 | a missing directory or `configuration.yaml` fails with one error; otherwise the version check, the run and the reclassification happen in that order, and the result is true exactly when no error remains |

## Left out

- Reading files, directories and the registries is not modelled. A file is given as its parsed document or its failure, and so are the registries and blueprints.
- The YAML loader with Home Assistant tags (`ha_yaml_loader`) is not part of this model. A tag such as `!input x` is the string it carries.
- `get_yaml_files` is not modelled: the files are an input, in any order. `rglob` over the blueprints directory is likewise an input list.
- Path handling is not modelled: `resolve`, `relative_to` and `str` of a path. File paths are strings, and the directory's existence is a parameter.
- Failures inside `load_blueprints` are not modelled. They are only logged; files that fail to load are left out of the input list.
- The official validator's inputs:
  - The version lookup through `homeassistant.const` is the `installed` parameter.
  - The `subprocess.run` call, with its working directory and timeout, is the `run` parameter.
  - The exceptions it raises are cases of `RunOutcome`.
- Logging, `print_results`, argument parsing, `main` and exit codes are not modelled. The output and the command line are outside the core.
- Regular expressions are not modelled in general. Each pattern the source uses is written out as a function, and a lemma ties it to the pattern's meaning.
- `str.lower`, `str.isdigit` and `int` are modelled on ASCII only.
  - Unicode case folding is not modelled.
  - Non-ASCII digits are not modelled either, though `isdigit` accepts them and `int` rejects some.
- The `except` branch of the version comparison is not modelled. It is reached by such digits and by a minimum version that is not a string, and neither is in the model.
- A registry record is modelled with its `entity_id` always present and its `id` present or absent.
  - A record without `entity_id` makes loading the entity registry fail with "Failed to load entity registry: 'entity_id'". That failure is the `Source.Failed` case, which the model covers.
  - A device or area record without `id` likewise lands in its registry's `Failed` case.
- Registry records hold only the fields the validators read: `entity_id`, `id` and `disabled_by`.
- Duplicate keys in a YAML mapping are not modelled. Lookups take the first pair, as a parsed dictionary has one.
- The `deprecated_patterns` and `recommended_fields` sections are modelled only by their accessors, since no validator reads them. The unused `context` parameter of `check_deprecated_patterns` is omitted.
- Python's iteration order over sets is not modelled; it is arbitrary. The loops report it as a ghost sequence that enumerates the set.
- The structure checks' return values in `validate_all` are discarded, as in the source. The model computes them but does not use them.
- YamlValidation.YamlValidator.ValidateDeprecatedPatternsInFile: the walks' unexpected exceptions, which the source only logs, are not modelled.
- Settings.ValidationConfig.GetRawConfig: `get_raw_config` returns a shallow `dict.copy()`, so a caller that changes a nested list or mapping of the result (appending to `environment_patterns`, editing `timeouts`) changes the held configuration and every later accessor. `Config` is a value and cannot share parts, so this aliasing is not modelled; no validator in the core calls `get_raw_config`.
- Settings.ValidationConfig.constructor: the default path next to the module is not modelled; the file is given as a `ConfigFile`.
- The loaded configuration is modelled as a mapping whose sections are each absent or of the expected type. Three kinds of document fall outside the `Config` type and are not modelled:
  - a section present with `null` or a value of another type. For example, `min_ha_version: 2025` is a YAML integer, so `re.sub` raises `TypeError` and the version check takes its `except` branch: one information line, and true. Likewise `stderr_ignore_patterns: null` makes parsing the output raise inside `run_ha_check_config`, which then reports "Failed to run Home Assistant config check".
  - a document that is not a mapping, such as a top-level list, on which every accessor raises `AttributeError`.
  - entries of the wrong shape inside a section, such as an environment or URL entry that is not a mapping.
- YamlChecks.Show: the mode hint quotes the automation's `alias` through Python's `str()`. The model renders strings, booleans, integers and `None` the same way, but shows a mapping as `{...}` and a list as `[...]` where Python prints their `repr` (`{'a': 1}`).
- The YAML document (`ConfigTree.Tree`) has no floats, dates or timestamps, and no keys other than strings. A value of such a type given to a check (an `alias: 1.5`, a date under a mapping key, a numeric key) is not modelled.
