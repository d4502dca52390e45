/** The entity, device and area registries as the reference validator indexes
    them, and the indexes it derives from the entity registry. */
module Registry {
  import opened Wrappers
  import opened PyDict

  /** An entry of `data.entities` in the entity registry: its `entity_id`, its
      `id` (absent in some records) and its `disabled_by` (`None` when absent or
      null). */
  datatype EntityRecord = EntityRecord(entityId: string, id: Option<string>, disabledBy: Option<string>)

  /** An entry of `data.devices` or `data.areas`: only its `id` is consulted. */
  datatype IdRecord = IdRecord(id: string)

  /** What reading a registry file gave; `Present` carries the list under the
      registry's `data` key (empty when either key is missing). */
  datatype Source<R> =
    | Missing
    | InvalidJson(detail: string)
    | PermissionDenied
    | Failed(detail: string)
    | Present(records: seq<R>)

  /** `{key(r): r for r in rs}`: one entry per distinct key, in order of first
      appearance, holding the last record with that key. */
  function Index<R>(rs: seq<R>, key: R -> string): (d: Dict<R>)
    ensures Valid(d)
    ensures forall e :: e in d ==> key(e.1) == e.0 && e.1 in rs
    decreases |rs|
  {
    if rs == [] then []
    else
      var r := rs[|rs| - 1];
      var init := rs[..|rs| - 1];
      var d := Index(init, key);
      assert forall x :: x in init ==> x in rs;
      Insert(d, key(r), r)
  }

  /** The index has exactly the keys of the records. */
  lemma {:induction false} IndexKeys<R>(rs: seq<R>, key: R -> string, k: string)
    ensures HasKey(Index(rs, key), k) <==> exists i :: 0 <= i < |rs| && key(rs[i]) == k
    decreases |rs|
  {
    if rs != [] {
      var init := rs[..|rs| - 1];
      var last := rs[|rs| - 1];
      IndexKeys(init, key, k);
      assert HasKey(Index(rs, key), k) <==> HasKey(Index(init, key), k) || k == key(last);
      if exists i :: 0 <= i < |rs| && key(rs[i]) == k {
        var i :| 0 <= i < |rs| && key(rs[i]) == k;
        if i < |init| {
          assert init[i] == rs[i];
          assert HasKey(Index(init, key), k);
        } else {
          assert i == |rs| - 1 && key(last) == k;
        }
      }
      if HasKey(Index(rs, key), k) {
        var i := |rs| - 1;
        if k != key(last) {
          i :| 0 <= i < |init| && key(init[i]) == k;
          assert rs[i] == init[i];
        }
        assert key(rs[i]) == k;
      }
    }
  }

  /** Later records override earlier ones with the same key. */
  lemma {:induction false} IndexLastWins<R>(rs: seq<R>, key: R -> string, j: nat)
    requires j < |rs|
    requires forall i :: j < i < |rs| ==> key(rs[i]) != key(rs[j])
    ensures HasKey(Index(rs, key), key(rs[j])) && PyDict.Get(Index(rs, key), key(rs[j])) == rs[j]
    decreases |rs|
  {
    var init := rs[..|rs| - 1];
    var r := rs[|rs| - 1];
    if j == |rs| - 1 {
    } else {
      assert init[j] == rs[j];
      forall i | j < i < |init| ensures key(init[i]) != key(init[j]) {
        assert init[i] == rs[i];
      }
      IndexLastWins(init, key, j);
      InsertOther(Index(init, key), key(r), r, key(rs[j]));
    }
  }

  function EntityKey(r: EntityRecord): string { r.entityId }
  function IdKey(r: IdRecord): string { r.id }

  /** Every entry of an entity index is stored under its own `entity_id`. */
  predicate KeyedByEntityId(d: Dict<EntityRecord>) {
    Valid(d) && forall e :: e in d ==> e.1.entityId == e.0
  }

  lemma EntityIndexKeyed(rs: seq<EntityRecord>)
    ensures KeyedByEntityId(Index(rs, EntityKey))
  {
  }

  /** The index of the disabled entities: every record whose `disabled_by` is
      set, under its `entity_id`. */
  function DisabledIndex(d: Dict<EntityRecord>): (r: Dict<EntityRecord>)
    decreases |d|
  {
    if d == [] then []
    else
      var r := DisabledIndex(d[..|d| - 1]);
      var last := d[|d| - 1];
      if last.1.disabledBy.Some? then Insert(r, last.1.entityId, last.1) else r
  }

  /** The disabled index has a key exactly for the disabled records. */
  lemma {:induction false} DisabledIndexKeys(d: Dict<EntityRecord>)
    ensures forall k :: HasKey(DisabledIndex(d), k) ==> exists e :: e in d && e.1.entityId == k && e.1.disabledBy.Some?
    ensures forall e :: e in d && e.1.disabledBy.Some? ==> HasKey(DisabledIndex(d), e.1.entityId)
    decreases |d|
  {
    if d != [] {
      var init := d[..|d| - 1];
      DisabledIndexKeys(init);
      assert forall e :: e in d <==> e in init || e == d[|d| - 1];
    }
  }

  /** The disabled-entity index never has a key the entity index lacks, so an
      entity id missing from the registry is never found among the disabled
      ones: the "references disabled entity" warning cannot be produced. */
  lemma DisabledIsSubIndex(d: Dict<EntityRecord>, k: string)
    requires KeyedByEntityId(d)
    ensures HasKey(DisabledIndex(d), k) ==> HasKey(d, k)
  {
    DisabledIndexKeys(d);
    if HasKey(DisabledIndex(d), k) {
      var e :| e in d && e.1.entityId == k && e.1.disabledBy.Some?;
      var i :| 0 <= i < |d| && d[i] == e;
      assert Keys(d)[i] == k;
    }
  }

  /** `get_entity_registry_id_mapping`: each record's `id` mapped to its
      `entity_id`, over the records that have an `id`, in index order, the
      last record winning. */
  function IdMapping(d: Dict<EntityRecord>): (m: Dict<string>)
    decreases |d|
  {
    if d == [] then []
    else
      var m := IdMapping(d[..|d| - 1]);
      var last := d[|d| - 1];
      match last.1.id
      case Some(x) => Insert(m, x, last.1.entityId)
      case None => m
  }

  /** The mapping is a dict whose keys are exactly the ids of the records, and
      each id maps to the `entity_id` of a record having that id. */
  lemma {:induction false} IdMappingSpec(d: Dict<EntityRecord>)
    ensures Valid(IdMapping(d))
    ensures forall x :: HasKey(IdMapping(d), x) <==> exists e :: e in d && e.1.id == Some(x)
    ensures forall p :: p in IdMapping(d) ==> exists e :: e in d && e.1.id == Some(p.0) && e.1.entityId == p.1
    decreases |d|
  {
    if d != [] {
      var init := d[..|d| - 1];
      IdMappingSpec(init);
      assert forall e :: e in d <==> e in init || e == d[|d| - 1];
    }
  }

  /** The entity an id maps to is always in the index it was built from, so the
      `actual_entity_id in entities` test in the registry-id check always
      succeeds. */
  lemma MappedEntityPresent(d: Dict<EntityRecord>, x: string)
    requires KeyedByEntityId(d)
    requires HasKey(IdMapping(d), x)
    ensures HasKey(d, PyDict.Get(IdMapping(d), x))
  {
    IdMappingSpec(d);
    var m := IdMapping(d);
    var p := m[Position(m, x)];
    assert p in m;
    var e :| e in d && e.1.id == Some(p.0) && e.1.entityId == p.1;
    var i :| 0 <= i < |d| && d[i] == e;
    assert Keys(d)[i] == p.1;
  }
}
