/** `ExternalReferenceHandler` of the legacy tree (`nsync/models.py`): the
    per-record create-or-update and delete that the legacy command runs,
    with the lookups of the model object and of the external key mapping
    they are built from. */
module LegacyModels {
  import opened Common
  import opened Store
  import opened Fields
  import opened ActionProperties
  import opened LegacySync

  /** The text the mapping table's `external_key` column holds for a key:
      a string as it is, a number in decimal. */
  function KeyText(v: Value): string {
    match v
    case Str(s) => s
    case Int(i) => IntToString(i)
    case Ref(id) => IntToString(id)
    case Null => ""
  }

  /** The mapping row a record is looked up under. */
  function MappingKey(system: SystemId, r: SyncRecord): MapKey {
    MapKey(system, KeyText(r.externalKey))
  }

  /** What `get_or_construct_key_mapping` returns: `(None, False)`, a stored
      row with `False`, or a fresh unsaved row with `True`. */
  datatype KeyMapping =
    | NoMapping
    | ExistingMapping(key: MapKey, target: ObjRef)
    | NewMapping(key: MapKey)

  /** `get_or_construct_key_mapping(external_system, record)`. The table is
      unique on (system, key), so its `MultipleObjectsReturned` branch cannot
      be reached. */
  function GetOrConstructKeyMapping(st: State, system: SystemId, r: SyncRecord): KeyMapping {
    if !IsExternallyMappable(r) then NoMapping
    else
      var mk := MappingKey(system, r);
      if mk in st.mappings then ExistingMapping(mk, st.mappings[mk]) else NewMapping(mk)
  }

  /** `get_model_object(model, name, value)`: the stored object that alone
      holds `value` in the field `name` with its attributes, or a fresh
      instance of the model (no object yet, default attributes); several
      matches raise `MultipleObjectsReturned`, a name that is not a plain
      field of the model `FieldError`. */
  ghost function ModelObject(schema: Schema, objects: map<ObjRef, Record>, model: TypeTag, name: string, value: Value)
    : Result<(Option<ObjRef>, Record)>
  {
    var found :- Filter(schema, objects, model, map[name := value]);
    if |found| == 1 then Success((Some(Only(found)), objects[Only(found)]))
    else if found == {} then Success((None, DefaultRecord(schema, model)))
    else Failure(MultipleObjectsReturned)
  }

  method GetModelObject(db: Database, model: TypeTag, name: string, value: Value)
    returns (r: Result<(Option<ObjRef>, Record)>)
    ensures r == ModelObject(db.schema, db.objects, model, name, value)
  {
    var found := Filter(db.schema, db.objects, model, map[name := value]);
    if found.Failure? {
      return Failure(found.error);
    }
    if |found.value| == 1 {
      var o :| o in found.value;
      assert found.value == {Only(found.value)};
      return Success((Some(o), db.objects[o]));
    } else if found.value == {} {
      return Success((None, DefaultRecord(db.schema, model)));
    }
    return Failure(MultipleObjectsReturned);
  }

  /** The result of `create_or_update_for_sync_record` (whether the
      "existing mapping points elsewhere" warning is logged, or the error
      that escapes) and the database afterwards. */
  datatype UpsertOutcome = UpsertOutcome(result: Result<bool>, state: State)

  /** The database after `model_obj.save()` of `rec`: the matched object
      keeps its key, a fresh instance gets the next one. */
  function SaveState(st: State, model: TypeTag, existing: Option<ObjRef>, rec: Record): State {
    if existing.Some? then st.(objects := st.objects[existing.value := rec])
    else State(st.objects[ObjRef(model, st.nextId) := rec], st.mappings, st.nextId + 1)
  }

  function SavedRef(st: State, model: TypeTag, existing: Option<ObjRef>): ObjRef {
    if existing.Some? then existing.value else ObjRef(model, st.nextId)
  }

  /** `create_or_update_for_sync_record(external_system, model, record)`:
      find the object, write every plain field and, by a single lookup per
      relation, every `base=>sub` relation (the same two passes as
      `update_from_fields` with force on), save it, and point the record's
      mapping at it. Nothing is saved when the attributes raise. */
  ghost function CreateOrUpdateSpec(schema: Schema, st: State, system: SystemId, model: TypeTag, r: SyncRecord): UpsertOutcome {
    match MatchFieldValue(r)
    case Failure(e) => UpsertOutcome(Failure(e), st)
    case Success(v) =>
      match ModelObject(schema, st.objects, model, r.matchField, v)
      case Failure(e) => UpsertOutcome(Failure(e), st)
      case Success((existing, rec)) =>
        match ApplyFields(schema, st.objects, model, rec, r.fields, true)
        case Failure(e) => UpsertOutcome(Failure(e), st)
        case Success(upd) =>
          var saved := SaveState(st, model, existing, upd);
          var o := SavedRef(st, model, existing);
          match GetOrConstructKeyMapping(saved, system, r)
          case NoMapping => UpsertOutcome(Success(false), saved)
          case ExistingMapping(mk, t) =>
            UpsertOutcome(Success(t.id != o.id), saved.(mappings := saved.mappings[mk := ObjRef(model, o.id)]))
          case NewMapping(mk) =>
            UpsertOutcome(Success(false), saved.(mappings := saved.mappings[mk := ObjRef(model, o.id)]))
  }

  method CreateOrUpdateForSyncRecord(db: Database, system: SystemId, model: TypeTag, r: SyncRecord)
    returns (warned: Result<bool>)
    modifies db
    ensures UpsertOutcome(warned, db.Snapshot()) == CreateOrUpdateSpec(db.schema, old(db.Snapshot()), system, model, r)
  {
    var v := MatchFieldValue(r);
    if v.Failure? {
      return Failure(v.error);
    }
    var obj := GetModelObject(db, model, r.matchField, v.value);
    if obj.Failure? {
      return Failure(obj.error);
    }
    var (existing, rec) := obj.value;
    var upd := UpdateFromFields(db.schema, db.objects, model, rec, r.fields, true);
    if upd.Failure? {
      return Failure(upd.error);
    }
    var o := db.Save(model, existing, upd.value);
    var mapping := GetOrConstructKeyMapping(db.Snapshot(), system, r);
    match mapping
    case NoMapping =>
      warned := Success(false);
    case ExistingMapping(mk, t) =>
      warned := Success(t.id != o.id);
      db.mappings := db.mappings[mk := ObjRef(model, o.id)];
    case NewMapping(mk) =>
      warned := Success(false);
      db.mappings := db.mappings[mk := ObjRef(model, o.id)];
  }

  /** The error that escapes `delete_for_sync_record`, if any, and the
      database afterwards. */
  datatype DeleteOutcome = DeleteOutcome(error: Option<Error>, state: State)

  /** `record.delete`: `SyncRecord` has no such attribute. */
  function DeleteAttribute(r: SyncRecord): Result<bool> {
    Failure(AttributeError)
  }

  /** `delete_for_sync_record` as written: its first line reads
      `record.delete`, which raises before anything is deleted. */
  function DeleteAsWritten(st: State, r: SyncRecord): DeleteOutcome {
    match DeleteAttribute(r)
    case Failure(e) => DeleteOutcome(Some(e), st)
    case Success(_) => DeleteOutcome(None, st)
  }

  method DeleteForSyncRecordAsWritten(db: Database, system: SystemId, model: TypeTag, r: SyncRecord)
    returns (err: Option<Error>)
    modifies db
    ensures DeleteOutcome(err, db.Snapshot()) == DeleteAsWritten(old(db.Snapshot()), r)
  {
    var flag := DeleteAttribute(r);
    if flag.Failure? {
      return Some(flag.error);
    }
    err := None;
  }

  /** The first half of `delete_for_sync_record` for a delete record: the
      matched object, if there is one, is deleted. */
  ghost function DeleteObjectPart(schema: Schema, st: State, model: TypeTag, r: SyncRecord): Result<State> {
    var v :- MatchFieldValue(r);
    var (existing, _) :- ModelObject(schema, st.objects, model, r.matchField, v);
    if existing.Some? then Success(st.(objects := st.objects - {existing.value})) else Success(st)
  }

  /** `delete_for_sync_record` with the test read as `is_delete_record()`,
      the rest as written: for an unmappable record the mapping lookup
      returns `(None, False)` and `None.delete()` raises, after the object
      is already gone. */
  ghost function DeleteFlagFixedSpec(schema: Schema, st: State, system: SystemId, model: TypeTag, r: SyncRecord): DeleteOutcome {
    if !IsDeleteRecord(r) then DeleteOutcome(None, st)
    else
      match DeleteObjectPart(schema, st, model, r)
      case Failure(e) => DeleteOutcome(Some(e), st)
      case Success(st1) =>
        match GetOrConstructKeyMapping(st1, system, r)
        case NoMapping => DeleteOutcome(Some(AttributeError), st1)
        case ExistingMapping(mk, _) => DeleteOutcome(None, st1.(mappings := st1.mappings - {mk}))
        case NewMapping(_) => DeleteOutcome(None, st1)
  }

  /** `delete_for_sync_record` as evidently intended: a record that is not
      a delete is ignored; otherwise the matched object, if any, is deleted
      and then the record's mapping, if there is one. */
  ghost function DeleteForSyncRecordSpec(schema: Schema, st: State, system: SystemId, model: TypeTag, r: SyncRecord): DeleteOutcome {
    if !IsDeleteRecord(r) then DeleteOutcome(None, st)
    else
      match DeleteObjectPart(schema, st, model, r)
      case Failure(e) => DeleteOutcome(Some(e), st)
      case Success(st1) =>
        match GetOrConstructKeyMapping(st1, system, r)
        case ExistingMapping(mk, _) => DeleteOutcome(None, st1.(mappings := st1.mappings - {mk}))
        case _ => DeleteOutcome(None, st1)
  }

  method DeleteForSyncRecord(db: Database, system: SystemId, model: TypeTag, r: SyncRecord)
    returns (err: Option<Error>)
    modifies db
    ensures DeleteOutcome(err, db.Snapshot()) == DeleteForSyncRecordSpec(db.schema, old(db.Snapshot()), system, model, r)
  {
    if !IsDeleteRecord(r) {
      return None;
    }
    var v := MatchFieldValue(r);
    if v.Failure? {
      return Some(v.error);
    }
    var obj := GetModelObject(db, model, r.matchField, v.value);
    if obj.Failure? {
      return Some(obj.error);
    }
    var (existing, _) := obj.value;
    if existing.Some? {
      db.objects := db.objects - {existing.value};
    }
    var mapping := GetOrConstructKeyMapping(db.Snapshot(), system, r);
    if mapping.ExistingMapping? {
      db.mappings := db.mappings - {mapping.key};
    }
    err := None;
  }

  // ----- properties -----

  /** The three answers of the mapping lookup: none for an unmappable
      record, the stored row when (system, key) has one, else a fresh row
      for that pair. */
  lemma KeyMappingCases(st: State, system: SystemId, r: SyncRecord)
    ensures GetOrConstructKeyMapping(st, system, r).NoMapping? <==> !Truthy(r.externalKey)
    ensures GetOrConstructKeyMapping(st, system, r).ExistingMapping? <==>
      Truthy(r.externalKey) && MapKey(system, KeyText(r.externalKey)) in st.mappings
    ensures var m := GetOrConstructKeyMapping(st, system, r);
      m.ExistingMapping? ==> m.key == MapKey(system, KeyText(r.externalKey)) && m.target == st.mappings[m.key]
    ensures var m := GetOrConstructKeyMapping(st, system, r);
      m.NewMapping? ==> m.key == MapKey(system, KeyText(r.externalKey)) && m.key !in st.mappings
  {
  }

  /** The object lookup returns the one match with its attributes, a fresh
      default instance when nothing matches, and raises on several matches
      or a name that is not a plain field. */
  lemma ModelObjectCases(schema: Schema, objects: map<ObjRef, Record>, model: TypeTag, name: string, value: Value)
    ensures var r := ModelObject(schema, objects, model, name, value);
      (r.Failure? && r.error == FieldError) <==> !IsPlain(schema, model, name)
    ensures var r := ModelObject(schema, objects, model, name, value);
      forall o :: (r.Success? && r.value.0 == Some(o)) <==> Filter(schema, objects, model, map[name := value]) == Success({o})
    ensures var r := ModelObject(schema, objects, model, name, value);
      r.Success? && r.value.0.Some? ==> r.value.0.value in objects && r.value.1 == objects[r.value.0.value]
    ensures var r := ModelObject(schema, objects, model, name, value);
      (r.Success? && r.value.0.None?) <==> Filter(schema, objects, model, map[name := value]) == Success({})
    ensures var r := ModelObject(schema, objects, model, name, value);
      r.Success? && r.value.0.None? ==> r.value.1 == DefaultRecord(schema, model)
    ensures var r := ModelObject(schema, objects, model, name, value);
      (r.Failure? && r.error == MultipleObjectsReturned) <==>
        Filter(schema, objects, model, map[name := value]).Success? && |Filter(schema, objects, model, map[name := value]).value| > 1
  {
    var f := Filter(schema, objects, model, map[name := value]);
    if f.Success? && |f.value| == 1 {
      var o := Only(f.value);
      assert ModelObject(schema, objects, model, name, value).value.0 == Some(o);
    }
  }

  /** Whatever raises, nothing is saved. */
  lemma CreateOrUpdateErrorUnchanged(schema: Schema, st: State, system: SystemId, model: TypeTag, r: SyncRecord)
    ensures CreateOrUpdateSpec(schema, st, system, model, r).result.Failure? ==>
      CreateOrUpdateSpec(schema, st, system, model, r).state == st
  {
  }

  /** A new object is created only when no object holds the match value:
      then exactly one, under the next key; when one does, the set of
      objects is unchanged and that object is the one written. */
  lemma CreateOrUpdateCreatesOnlyIfNone(schema: Schema, st: State, system: SystemId, model: TypeTag, r: SyncRecord, v: Value)
    requires MatchFieldValue(r) == Success(v)
    requires CreateOrUpdateSpec(schema, st, system, model, r).result.Success?
    ensures var after := CreateOrUpdateSpec(schema, st, system, model, r).state;
      Filter(schema, st.objects, model, map[r.matchField := v]) == Success({}) ==>
        after.objects.Keys == st.objects.Keys + {ObjRef(model, st.nextId)} && after.nextId == st.nextId + 1
    ensures var after := CreateOrUpdateSpec(schema, st, system, model, r).state;
      forall o :: Filter(schema, st.objects, model, map[r.matchField := v]) == Success({o}) ==>
        o in st.objects && after.objects.Keys == st.objects.Keys && after.nextId == st.nextId
  {
    ModelObjectCases(schema, st.objects, model, r.matchField, v);
    CreateOrUpdateStored(schema, st, system, model, r, v);
  }

  /** A successful run stores the computed instance as `SaveState` does. */
  lemma CreateOrUpdateStored(schema: Schema, st: State, system: SystemId, model: TypeTag, r: SyncRecord, v: Value)
    requires MatchFieldValue(r) == Success(v)
    requires CreateOrUpdateSpec(schema, st, system, model, r).result.Success?
    ensures ModelObject(schema, st.objects, model, r.matchField, v).Success?
    ensures var (existing, rec) := ModelObject(schema, st.objects, model, r.matchField, v).value;
      var after := CreateOrUpdateSpec(schema, st, system, model, r).state;
      ApplyFields(schema, st.objects, model, rec, r.fields, true).Success?
      && var saved := SaveState(st, model, existing, ApplyFields(schema, st.objects, model, rec, r.fields, true).value);
      after.objects == saved.objects && after.nextId == saved.nextId
  {
  }

  /** After a successful run, the saved object holds what the attribute
      passes computed. */
  lemma CreateOrUpdateSaved(schema: Schema, st: State, system: SystemId, model: TypeTag, r: SyncRecord, v: Value,
                            existing: Option<ObjRef>, rec: Record)
    requires MatchFieldValue(r) == Success(v)
    requires ModelObject(schema, st.objects, model, r.matchField, v) == Success((existing, rec))
    requires CreateOrUpdateSpec(schema, st, system, model, r).result.Success?
    ensures ApplyFields(schema, st.objects, model, rec, r.fields, true).Success?
    ensures var after := CreateOrUpdateSpec(schema, st, system, model, r).state;
      var o := SavedRef(st, model, existing);
      o in after.objects && after.objects[o] == ApplyFields(schema, st.objects, model, rec, r.fields, true).value
  {
    var upd := ApplyFields(schema, st.objects, model, rec, r.fields, true).value;
    var saved := SaveState(st, model, existing, upd);
    var o := SavedRef(st, model, existing);
    assert o in saved.objects && saved.objects[o] == upd;
    assert CreateOrUpdateSpec(schema, st, system, model, r).state.objects == saved.objects;
  }

  /** After a successful run, the saved object holds every plain field of
      the record's columns, whatever it held before, and an attribute the
      columns do not name, neither as a field nor as the base of a
      `base=>sub` lookup, keeps its value. */
  lemma CreateOrUpdateFields(schema: Schema, st: State, system: SystemId, model: TypeTag, r: SyncRecord, v: Value,
                             existing: Option<ObjRef>, rec: Record)
    requires DistinctKeys(r.fields)
    requires MatchFieldValue(r) == Success(v)
    requires ModelObject(schema, st.objects, model, r.matchField, v) == Success((existing, rec))
    requires CreateOrUpdateSpec(schema, st, system, model, r).result.Success?
    ensures var after := CreateOrUpdateSpec(schema, st, system, model, r).state;
      var o := SavedRef(st, model, existing);
      o in after.objects
      && (forall i :: 0 <= i < |r.fields| && !HasDelim(r.fields[i].0) && IsPlain(schema, model, r.fields[i].0) ==>
            Get(after.objects[o], r.fields[i].0) == r.fields[i].1)
      && (forall k :: !HasKey(r.fields, k) && k !in Group(r.fields) ==> Get(after.objects[o], k) == Get(rec, k))
  {
    var upd := ApplyFields(schema, st.objects, model, rec, r.fields, true).value;
    CreateOrUpdateSaved(schema, st, system, model, r, v, existing, rec);
    forall i | 0 <= i < |r.fields| && !HasDelim(r.fields[i].0) && IsPlain(schema, model, r.fields[i].0)
      ensures Get(upd, r.fields[i].0) == r.fields[i].1
    {
      ForcedPlainFields(schema, st.objects, model, rec, r.fields, i);
    }
    forall k | !HasKey(r.fields, k) && k !in Group(r.fields)
      ensures Get(upd, k) == Get(rec, k)
    {
      RelationSetIff(schema, st.objects, model, rec, r.fields, true, k);
      PlainPassChanges(schema, tag := model, rec := rec, fields := r.fields, force := true, k := k);
    }
  }

  /** After a successful run, a `base=>sub` relation points at the related
      object its lookup finds alone, and otherwise keeps the value the plain
      fields left. */
  lemma CreateOrUpdateRelations(schema: Schema, st: State, system: SystemId, model: TypeTag, r: SyncRecord, v: Value,
                                existing: Option<ObjRef>, rec: Record, b: string)
    requires MatchFieldValue(r) == Success(v)
    requires ModelObject(schema, st.objects, model, r.matchField, v) == Success((existing, rec))
    requires CreateOrUpdateSpec(schema, st, system, model, r).result.Success?
    ensures PlainPass(schema, model, rec, r.fields, true).Success?
    ensures var after := CreateOrUpdateSpec(schema, st, system, model, r).state;
      var o := SavedRef(st, model, existing);
      var p := PlainPass(schema, model, rec, r.fields, true).value;
      o in after.objects
      && (forall t :: FindsOnly(schema, st.objects, model, p, Group(r.fields), true, b, t) ==> Get(after.objects[o], b) == Ref(t.id))
      && ((forall t :: !FindsOnly(schema, st.objects, model, p, Group(r.fields), true, b, t)) ==> Get(after.objects[o], b) == Get(p, b))
  {
    RelationSetIff(schema, st.objects, model, rec, r.fields, true, b);
    CreateOrUpdateSaved(schema, st, system, model, r, v, existing, rec);
  }

  /** After a successful run with a mappable record, its mapping points at
      the saved object, so looking it up again finds that object; the
      warning is logged exactly when the row pointed at another id before,
      and no other mapping changes. An unmappable record leaves the mappings
      as they were. */
  lemma CreateOrUpdateMapping(schema: Schema, st: State, system: SystemId, model: TypeTag, r: SyncRecord, v: Value,
                              existing: Option<ObjRef>, rec: Record)
    requires MatchFieldValue(r) == Success(v)
    requires ModelObject(schema, st.objects, model, r.matchField, v) == Success((existing, rec))
    requires CreateOrUpdateSpec(schema, st, system, model, r).result.Success?
    ensures var out := CreateOrUpdateSpec(schema, st, system, model, r);
      var o := SavedRef(st, model, existing);
      var mk := MappingKey(system, r);
      if IsExternallyMappable(r) then
        GetOrConstructKeyMapping(out.state, system, r) == ExistingMapping(mk, ObjRef(model, o.id))
        && out.state.mappings == st.mappings[mk := ObjRef(model, o.id)]
        && (out.result.value <==> mk in st.mappings && st.mappings[mk].id != o.id)
      else out.state.mappings == st.mappings && !out.result.value
  {
  }

  /** As written, deletion raises `AttributeError` for every record and
      deletes nothing, where the evidently intended version deletes the
      matched object of a delete record. */
  lemma DeleteAsWrittenRaises(schema: Schema, st: State, system: SystemId, model: TypeTag, r: SyncRecord, v: Value, o: ObjRef)
    requires IsDeleteRecord(r) && MatchFieldValue(r) == Success(v)
    requires Filter(schema, st.objects, model, map[r.matchField := v]) == Success({o})
    ensures DeleteAsWritten(st, r) == DeleteOutcome(Some(AttributeError), st)
    ensures o in st.objects
    ensures DeleteForSyncRecordSpec(schema, st, system, model, r).error == None
    ensures o !in DeleteForSyncRecordSpec(schema, st, system, model, r).state.objects
  {
    ModelObjectCases(schema, st.objects, model, r.matchField, v);
  }

  /** With the flag read correctly, an unmappable delete record still
      raises `AttributeError` from `None.delete()`, after its object is
      deleted; the corrected version deletes the object and stops there. */
  lemma UnmappableDeleteRaises(schema: Schema, st: State, system: SystemId, model: TypeTag, r: SyncRecord, v: Value, o: ObjRef)
    requires IsDeleteRecord(r) && !IsExternallyMappable(r) && MatchFieldValue(r) == Success(v)
    requires Filter(schema, st.objects, model, map[r.matchField := v]) == Success({o})
    ensures DeleteFlagFixedSpec(schema, st, system, model, r) ==
      DeleteOutcome(Some(AttributeError), st.(objects := st.objects - {o}))
    ensures DeleteForSyncRecordSpec(schema, st, system, model, r) ==
      DeleteOutcome(None, st.(objects := st.objects - {o}))
  {
    ModelObjectCases(schema, st.objects, model, r.matchField, v);
  }

  /** A record that is not a delete changes nothing. */
  lemma DeleteIgnoresOthers(schema: Schema, st: State, system: SystemId, model: TypeTag, r: SyncRecord)
    requires !IsDeleteRecord(r)
    ensures DeleteForSyncRecordSpec(schema, st, system, model, r) == DeleteOutcome(None, st)
  {
  }

  /** A delete record whose lookup succeeds removes the object it matches
      alone, if any, then the record's mapping, if one is stored, and
      nothing else; a lookup that raises leaves the database as it was. */
  lemma DeleteRemoves(schema: Schema, st: State, system: SystemId, model: TypeTag, r: SyncRecord, v: Value)
    requires IsDeleteRecord(r) && MatchFieldValue(r) == Success(v)
    ensures var out := DeleteForSyncRecordSpec(schema, st, system, model, r);
      var f := Filter(schema, st.objects, model, map[r.matchField := v]);
      (out.error.Some? <==> f.Failure? || |f.value| > 1)
      && (out.error.Some? ==> out.state == st)
      && (out.error.None? ==>
            out.state.nextId == st.nextId
            && out.state.objects == (if |f.value| == 1 then st.objects - f.value else st.objects)
            && out.state.mappings == (if IsExternallyMappable(r) then st.mappings - {MappingKey(system, r)} else st.mappings))
  {
    ModelObjectCases(schema, st.objects, model, r.matchField, v);
    var f := Filter(schema, st.objects, model, map[r.matchField := v]);
    if f.Success? && |f.value| == 1 {
      var o := Only(f.value);
      assert ModelObject(schema, st.objects, model, r.matchField, v) == Success((Some(o), st.objects[o]));
    }
  }
}
