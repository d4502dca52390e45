/** The five key-driven walks over a parsed configuration that collect candidate
    entity ids, device ids, area ids, service names and entity-registry ids. */
module Extractor {
  import opened Text
  import opened ConfigTree
  import opened Classifier
  import opened TemplateScanner

  predicate IsEntityKey(k: string) {
    k == "entity_id" || k == "entity_ids" || k == "entities"
  }

  predicate IsDeviceKey(k: string) {
    k == "device_id" || k == "device_ids"
  }

  predicate IsAreaKey(k: string) {
    k == "area_id" || k == "area_ids"
  }

  /** The call names whose presence makes a string worth scanning as a template. */
  predicate MentionsStateCall(s: string) {
    Contains(s, "state_attr(") || Contains(s, "states(") || Contains(s, "is_state(")
  }

  /** The strings of a list that pass `keep`. */
  function StringItems(ts: seq<Tree>, keep: string -> bool): set<string> {
    set i | 0 <= i < |ts| && ts[i].Str? && keep(ts[i].s) :: ts[i].s
  }

  // ----- entity references -----

  /** `extract_entity_references`. */
  function EntityRefs(t: Tree): set<string>
    decreases t, 1
  {
    match t
    case Map(es) => EntityRefsEntries(es)
    case Seq(ts) => EntityRefsItems(ts)
    case _ => {}
  }

  function EntityRefsItems(ts: seq<Tree>): set<string>
    decreases ts, 0
  {
    if ts == [] then {} else EntityRefs(ts[0]) + EntityRefsItems(ts[1..])
  }

  function EntityRefsEntries(es: seq<(string, Tree)>): set<string>
    decreases es, 0
  {
    if es == [] then {}
    else
      var e := es[0];
      assert e.1 < e;
      EntityRefsEntry(e.0, e.1) + EntityRefsEntries(es[1..])
  }

  /** What the pair `key: value` of a mapping contributes. */
  function EntityRefsEntry(k: string, v: Tree): set<string>
    decreases v, 2
  {
    if IsEntityKey(k) then
      match v
      case Str(s) => if ShouldSkip(s) then {} else {s}
      case Seq(ts) => StringItems(ts, x => !ShouldSkip(x))
      case _ => {}
    else if IsDeviceKey(k) || IsAreaKey(k) then {}
    else if k == "data" && v.Map? then EntityRefs(v)
    else if v.Str? && MentionsStateCall(v.s) then Extract(v.s)
    else EntityRefs(v)
  }

  // ----- device and area references -----

  /** `extract_device_references`. */
  function DeviceRefs(t: Tree): set<string>
    decreases t, 1
  {
    match t
    case Map(es) => DeviceRefsEntries(es)
    case Seq(ts) => DeviceRefsItems(ts)
    case _ => {}
  }

  function DeviceRefsItems(ts: seq<Tree>): set<string>
    decreases ts, 0
  {
    if ts == [] then {} else DeviceRefs(ts[0]) + DeviceRefsItems(ts[1..])
  }

  function DeviceRefsEntries(es: seq<(string, Tree)>): set<string>
    decreases es, 0
  {
    if es == [] then {}
    else
      var e := es[0];
      assert e.1 < e;
      (if IsDeviceKey(e.0) then TaggedFree(e.1) else DeviceRefs(e.1))
      + DeviceRefsEntries(es[1..])
  }

  /** A string, or the strings of a list, that are not `!`-tags. */
  function TaggedFree(v: Tree): set<string> {
    match v
    case Str(s) => if StartsWith(s, "!") then {} else {s}
    case Seq(ts) => StringItems(ts, x => !StartsWith(x, "!"))
    case _ => {}
  }

  /** `extract_area_references`. */
  function AreaRefs(t: Tree): set<string>
    decreases t, 1
  {
    match t
    case Map(es) => AreaRefsEntries(es)
    case Seq(ts) => AreaRefsItems(ts)
    case _ => {}
  }

  function AreaRefsItems(ts: seq<Tree>): set<string>
    decreases ts, 0
  {
    if ts == [] then {} else AreaRefs(ts[0]) + AreaRefsItems(ts[1..])
  }

  function AreaRefsEntries(es: seq<(string, Tree)>): set<string>
    decreases es, 0
  {
    if es == [] then {}
    else
      var e := es[0];
      assert e.1 < e;
      (if IsAreaKey(e.0) then TaggedFree(e.1) else AreaRefs(e.1))
      + AreaRefsEntries(es[1..])
  }

  // ----- service calls -----

  /** `extract_service_calls`. */
  function ServiceCalls(t: Tree): set<string>
    decreases t, 1
  {
    match t
    case Map(es) => ServiceCallsEntries(es)
    case Seq(ts) => ServiceCallsItems(ts)
    case _ => {}
  }

  function ServiceCallsItems(ts: seq<Tree>): set<string>
    decreases ts, 0
  {
    if ts == [] then {} else ServiceCalls(ts[0]) + ServiceCallsItems(ts[1..])
  }

  function ServiceCallsEntries(es: seq<(string, Tree)>): set<string>
    decreases es, 0
  {
    if es == [] then {}
    else
      var e := es[0];
      assert e.1 < e;
      ServiceCallsEntry(e.0, e.1) + ServiceCallsEntries(es[1..])
  }

  function ServiceCallsEntry(k: string, v: Tree): set<string>
    decreases v, 2
  {
    if k == "service" && v.Str? then
      if !StartsWith(v.s, "!") && !IsTemplate(v.s) then {v.s} else {}
    else if k == "action" && v.Str? then
      if '.' in v.s && !StartsWith(v.s, "!") then {v.s} else {}
    else ServiceCalls(v)
  }

  // ----- entity-registry ids -----

  /** `extract_entity_registry_ids`. */
  function RegistryIds(t: Tree): set<string>
    decreases t, 1
  {
    match t
    case Map(es) => RegistryIdsEntries(es)
    case Seq(ts) => RegistryIdsItems(ts)
    case _ => {}
  }

  function RegistryIdsItems(ts: seq<Tree>): set<string>
    decreases ts, 0
  {
    if ts == [] then {} else RegistryIds(ts[0]) + RegistryIdsItems(ts[1..])
  }

  function RegistryIdsEntries(es: seq<(string, Tree)>): set<string>
    decreases es, 0
  {
    if es == [] then {}
    else
      var e := es[0];
      assert e.1 < e;
      (if e.0 == "entity_id" && e.1.Str? then
         (if IsUuidFormat(e.1.s) then {e.1.s} else {})
       else RegistryIds(e.1))
      + RegistryIdsEntries(es[1..])
  }

  // ----- properties of the entity walk -----

  lemma UuidHasNoDot(x: string)
    requires IsUuidFormat(x)
    ensures CountChar(x, '.') == 0
  {
    forall j | 0 <= j < |x| ensures x[j] != '.' {
      if j < 32 {
        assert x[j] == x[..32][j];
      }
    }
    NoOccurrenceCountsZero(x, '.');
  }

  /** A token taken from a template is never UUID-form. */
  lemma TemplateTokenNotUuid(s: string, x: string)
    requires x in Extract(s)
    ensures !IsUuidFormat(x)
  {
    ExtractIff(s, x);
    if IsUuidFormat(x) {
      UuidHasNoDot(x);
    }
  }

  /** No entity reference is UUID-form: such values are skipped under entity
      keys, and template tokens contain a dot. So the walk never hands the
      entity check a value that its UUID test would skip. */
  lemma {:induction false} EntityRefsNotUuid(t: Tree, x: string)
    requires x in EntityRefs(t)
    ensures !IsUuidFormat(x)
    decreases t, 1
  {
    match t
    case Map(es) => EntityRefsEntriesNotUuid(es, x);
    case Seq(ts) => EntityRefsItemsNotUuid(ts, x);
  }

  lemma {:induction false} EntityRefsItemsNotUuid(ts: seq<Tree>, x: string)
    requires x in EntityRefsItems(ts)
    ensures !IsUuidFormat(x)
    decreases ts, 0
  {
    if x in EntityRefs(ts[0]) {
      EntityRefsNotUuid(ts[0], x);
    } else {
      EntityRefsItemsNotUuid(ts[1..], x);
    }
  }

  lemma {:induction false} EntityRefsEntriesNotUuid(es: seq<(string, Tree)>, x: string)
    requires x in EntityRefsEntries(es)
    ensures !IsUuidFormat(x)
    decreases es, 0
  {
    var e := es[0];
    assert e.1 < e;
    if x in EntityRefsEntry(e.0, e.1) {
      EntityRefsEntryNotUuid(e.0, e.1, x);
    } else {
      EntityRefsEntriesNotUuid(es[1..], x);
    }
  }

  lemma {:induction false} EntityRefsEntryNotUuid(k: string, v: Tree, x: string)
    requires x in EntityRefsEntry(k, v)
    ensures !IsUuidFormat(x)
    decreases v, 2
  {
    if IsEntityKey(k) {
    } else if k == "data" && v.Map? {
      EntityRefsNotUuid(v, x);
    } else if v.Str? && MentionsStateCall(v.s) {
      TemplateTokenNotUuid(v.s, x);
    } else {
      EntityRefsNotUuid(v, x);
    }
  }

  /** Under an entity key only the value itself, or the strings of a list value,
      can be references, and only those that are not skipped: the value is never
      walked into or scanned as a template. */
  lemma EntityKeyValueIsShallow(k: string, v: Tree, x: string)
    requires IsEntityKey(k)
    ensures x in EntityRefsEntry(k, v) <==>
      !ShouldSkip(x) && (v == Str(x) || (v.Seq? && Str(x) in v.items))
  {
    if v.Seq? && Str(x) in v.items {
      var i :| 0 <= i < |v.items| && v.items[i] == Str(x);
      assert x == v.items[i].s;
    }
  }

  /** A string under any other key that names none of `states(`, `is_state(` and
      `state_attr(` contributes nothing. */
  lemma PlainStringContributesNothing(k: string, s: string)
    requires !IsEntityKey(k) && !MentionsStateCall(s)
    ensures EntityRefsEntry(k, Str(s)) == {}
  {
  }

  lemma DottedTextHasNoParen(x: string, y: string)
    requires IsIdent(x) && IsIdent(y)
    ensures '(' !in "states." + x + "." + y
  {
    var s := "states." + x + "." + y;
    forall j | 0 <= j < |s| ensures s[j] != '(' {
      if j >= 8 + |x| {
        assert s[j] == y[j - 8 - |x|];
      } else if 7 <= j < 7 + |x| {
        assert s[j] == x[j - 7];
      }
    }
  }

  /** The quirk of the gate: a bare `states.x.y` string yields nothing, although
      the template scanner alone would find `x.y` in it. */
  lemma BareDottedStringIgnored(k: string, x: string, y: string)
    requires !IsEntityKey(k) && IsIdent(x) && IsIdent(y)
    ensures EntityRefsEntry(k, Str("states." + x + "." + y)) == {}
    ensures x + "." + y in Extract("states." + x + "." + y)
  {
    var s := "states." + x + "." + y;
    DottedTextHasNoParen(x, y);
    assert !MentionsStateCall(s) by {
      AbsentCharNotContained(s, "states(", 6);
      AbsentCharNotContained(s, "is_state(", 8);
      AbsentCharNotContained(s, "state_attr(", 10);
    }
    PlainStringContributesNothing(k, s);
    DottedAloneNamesEntity(x, y);
  }

  lemma DottedAloneNamesEntity(x: string, y: string)
    requires IsIdent(x) && IsIdent(y)
    ensures x + "." + y in Extract("states." + x + "." + y)
  {
    DottedNamesEntity("", x, y, "");
    assert "" + "states." + x + "." + y + "" == "states." + x + "." + y;
  }

  /** Whatever lies under a device or area key, the entity walk ignores it. */
  lemma {:induction false} EntityRefsIgnoreDeviceAndAreaValues(es: seq<(string, Tree)>, i: nat, v: Tree)
    requires i < |es| && (IsDeviceKey(es[i].0) || IsAreaKey(es[i].0))
    ensures EntityRefsEntries(es[i := (es[i].0, v)]) == EntityRefsEntries(es)
  {
    var es' := es[i := (es[i].0, v)];
    if i == 0 {
      assert es'[1..] == es[1..];
    } else {
      assert es'[1..] == es[1..][i - 1 := (es[i].0, v)];
      EntityRefsIgnoreDeviceAndAreaValues(es[1..], i - 1, v);
    }
  }

  // ----- properties of the other walks -----

  /** Under a device or area key the walks keep the value itself, or the strings
      of a list value, dropping only `!`-tags. */
  lemma TaggedFreeIff(v: Tree, x: string)
    ensures x in TaggedFree(v) <==>
      !StartsWith(x, "!") && (v == Str(x) || (v.Seq? && Str(x) in v.items))
  {
    if v.Seq? && Str(x) in v.items {
      var i :| 0 <= i < |v.items| && v.items[i] == Str(x);
      assert x == v.items[i].s;
    }
  }

  lemma {:induction false} DeviceRefsUntagged(t: Tree, x: string)
    requires x in DeviceRefs(t)
    ensures !StartsWith(x, "!")
    decreases t, 1
  {
    match t
    case Map(es) => DeviceRefsEntriesUntagged(es, x);
    case Seq(ts) => DeviceRefsItemsUntagged(ts, x);
  }

  lemma {:induction false} DeviceRefsItemsUntagged(ts: seq<Tree>, x: string)
    requires x in DeviceRefsItems(ts)
    ensures !StartsWith(x, "!")
    decreases ts, 0
  {
    if x in DeviceRefs(ts[0]) {
      DeviceRefsUntagged(ts[0], x);
    } else {
      DeviceRefsItemsUntagged(ts[1..], x);
    }
  }

  lemma {:induction false} DeviceRefsEntriesUntagged(es: seq<(string, Tree)>, x: string)
    requires x in DeviceRefsEntries(es)
    ensures !StartsWith(x, "!")
    decreases es, 0
  {
    var e := es[0];
    assert e.1 < e;
    if IsDeviceKey(e.0) && x in TaggedFree(e.1) {
      TaggedFreeIff(e.1, x);
    } else if !IsDeviceKey(e.0) && x in DeviceRefs(e.1) {
      DeviceRefsUntagged(e.1, x);
    } else {
      DeviceRefsEntriesUntagged(es[1..], x);
    }
  }

  lemma {:induction false} AreaRefsUntagged(t: Tree, x: string)
    requires x in AreaRefs(t)
    ensures !StartsWith(x, "!")
    decreases t, 1
  {
    match t
    case Map(es) => AreaRefsEntriesUntagged(es, x);
    case Seq(ts) => AreaRefsItemsUntagged(ts, x);
  }

  lemma {:induction false} AreaRefsItemsUntagged(ts: seq<Tree>, x: string)
    requires x in AreaRefsItems(ts)
    ensures !StartsWith(x, "!")
    decreases ts, 0
  {
    if x in AreaRefs(ts[0]) {
      AreaRefsUntagged(ts[0], x);
    } else {
      AreaRefsItemsUntagged(ts[1..], x);
    }
  }

  lemma {:induction false} AreaRefsEntriesUntagged(es: seq<(string, Tree)>, x: string)
    requires x in AreaRefsEntries(es)
    ensures !StartsWith(x, "!")
    decreases es, 0
  {
    var e := es[0];
    assert e.1 < e;
    if IsAreaKey(e.0) && x in TaggedFree(e.1) {
      TaggedFreeIff(e.1, x);
    } else if !IsAreaKey(e.0) && x in AreaRefs(e.1) {
      AreaRefsUntagged(e.1, x);
    } else {
      AreaRefsEntriesUntagged(es[1..], x);
    }
  }

  /** A `service` string is kept unless it is a tag or a template; an `action`
      string only if it has a dot and is not a tag (templates pass). */
  lemma ServiceEntryIff(k: string, s: string, x: string)
    requires k == "service" || k == "action"
    ensures x in ServiceCallsEntry(k, Str(s)) <==>
      x == s && !StartsWith(s, "!") && (if k == "service" then !IsTemplate(s) else '.' in s)
  {
  }

  /** Every collected service name is free of `!`-tags and is either a dotted
      name or not a template. */
  lemma {:induction false} ServiceCallsShape(t: Tree, x: string)
    requires x in ServiceCalls(t)
    ensures !StartsWith(x, "!") && ('.' in x || !IsTemplate(x))
    decreases t, 1
  {
    match t
    case Map(es) => ServiceCallsEntriesShape(es, x);
    case Seq(ts) => ServiceCallsItemsShape(ts, x);
  }

  lemma {:induction false} ServiceCallsItemsShape(ts: seq<Tree>, x: string)
    requires x in ServiceCallsItems(ts)
    ensures !StartsWith(x, "!") && ('.' in x || !IsTemplate(x))
    decreases ts, 0
  {
    if x in ServiceCalls(ts[0]) {
      ServiceCallsShape(ts[0], x);
    } else {
      ServiceCallsItemsShape(ts[1..], x);
    }
  }

  lemma {:induction false} ServiceCallsEntriesShape(es: seq<(string, Tree)>, x: string)
    requires x in ServiceCallsEntries(es)
    ensures !StartsWith(x, "!") && ('.' in x || !IsTemplate(x))
    decreases es, 0
  {
    var e := es[0];
    assert e.1 < e;
    if x in ServiceCallsEntry(e.0, e.1) {
      if !((e.0 == "service" || e.0 == "action") && e.1.Str?) {
        ServiceCallsShape(e.1, x);
      }
    } else {
      ServiceCallsEntriesShape(es[1..], x);
    }
  }

  /** Only UUID-form strings under `entity_id` are collected as registry ids. */
  lemma {:induction false} RegistryIdsAreUuid(t: Tree, x: string)
    requires x in RegistryIds(t)
    ensures IsUuidFormat(x)
    decreases t, 1
  {
    match t
    case Map(es) => RegistryIdsEntriesAreUuid(es, x);
    case Seq(ts) => RegistryIdsItemsAreUuid(ts, x);
  }

  lemma {:induction false} RegistryIdsItemsAreUuid(ts: seq<Tree>, x: string)
    requires x in RegistryIdsItems(ts)
    ensures IsUuidFormat(x)
    decreases ts, 0
  {
    if x in RegistryIds(ts[0]) {
      RegistryIdsAreUuid(ts[0], x);
    } else {
      RegistryIdsItemsAreUuid(ts[1..], x);
    }
  }

  lemma {:induction false} RegistryIdsEntriesAreUuid(es: seq<(string, Tree)>, x: string)
    requires x in RegistryIdsEntries(es)
    ensures IsUuidFormat(x)
    decreases es, 0
  {
    var e := es[0];
    assert e.1 < e;
    if x in RegistryIdsEntries(es[1..]) {
      RegistryIdsEntriesAreUuid(es[1..], x);
    } else if !(e.0 == "entity_id" && e.1.Str?) {
      RegistryIdsAreUuid(e.1, x);
    }
  }

  /** Entity references and registry ids never overlap. */
  lemma EntityRefsAndRegistryIdsDisjoint(t: Tree)
    ensures EntityRefs(t) * RegistryIds(t) == {}
  {
    forall x | x in EntityRefs(t) && x in RegistryIds(t) ensures false {
      EntityRefsNotUuid(t, x);
      RegistryIdsAreUuid(t, x);
    }
  }
}
