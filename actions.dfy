/** The actions of the live package: create, update and delete of the objects
    a row matches on its one match field, and the wrappers that keep the
    external-key mapping table in line with them. */
module Actions {
  import opened Common
  import opened Store
  import opened Fields

  /** What every model action holds: the model, the match field's name and
      the row's remaining fields. */
  datatype ModelAction = ModelAction(model: TypeTag, matchField: string, fields: Row)

  /** What `ModelAction.__init__` guarantees of every action it builds. */
  predicate ValidModelAction(m: ModelAction) {
    m.matchField != "" && HasKey(m.fields, m.matchField)
  }

  /** `ModelAction(model, match_field_name, fields)`: the model must be given,
      the match field name must be truthy and a key of the fields. */
  function NewModelAction(model: Option<TypeTag>, matchField: Value, fields: Row): (r: Result<ModelAction>)
    ensures r.Success? <==> model.Some? && matchField.Str? && matchField.s != "" && HasKey(fields, matchField.s)
    ensures r.Success? ==> r.value == ModelAction(model.value, matchField.s, fields) && ValidModelAction(r.value)
    ensures r.Failure? ==> r.error == ValueError
  {
    if model.None? then Failure(ValueError)
    else if !Truthy(matchField) then Failure(ValueError)
    else if !(matchField.Str? && HasKey(fields, matchField.s)) then Failure(ValueError)
    else Success(ModelAction(model.value, matchField.s, fields))
  }

  /** `fields[match_field_name]` */
  function MatchValue(m: ModelAction): Value {
    match Lookup(m.fields, m.matchField)
    case Some(v) => v
    case None => Null
  }

  function MatchLookup(m: ModelAction): map<string, Value> {
    map[m.matchField := MatchValue(m)]
  }

  /** `find_objects()`: the objects of the model whose match field holds the
      row's value. */
  function FindObjects(schema: Schema, objects: map<ObjRef, Record>, m: ModelAction): Result<set<ObjRef>> {
    Filter(schema, objects, m.model, MatchLookup(m))
  }

  datatype Action =
    | BaseAction(m: ModelAction)
    | CreateModel(m: ModelAction)
    | UpdateModel(m: ModelAction, forceUpdate: bool)
    | DeleteModel(m: ModelAction)
    | DeleteIfOnlyReference(system: SystemId, key: string, deleteAction: ModelAction)
    | AlignExternalReference(system: SystemId, model: TypeTag, key: string, inner: Action)
    | DeleteExternalReference(system: SystemId, key: string)

  /** The `type` property; the wrappers report the wrapped action's.
      `DeleteIfOnlyReference` reports its delete action's type, which is
      always `"delete"` here: the builder only ever wraps a delete model
      action in it. */
  function Type(a: Action): string {
    match a
    case BaseAction(_) => ""
    case CreateModel(_) => "create"
    case UpdateModel(_, _) => "update"
    case DeleteModel(_) => "delete"
    case DeleteIfOnlyReference(_, _, _) => "delete"
    case AlignExternalReference(_, _, _, inner) => Type(inner)
    case DeleteExternalReference(_, _) => "delete"
  }

  /** What `execute()` returns (an object, `None`, or an escaping error)
      and the database afterwards. */
  datatype Outcome = Outcome(result: Result<Option<ObjRef>>, state: State)

  ghost function CreateSpec(schema: Schema, st: State, m: ModelAction): Outcome {
    match FindObjects(schema, st.objects, m)
    case Failure(e) => Outcome(Failure(e), st)
    case Success(found) =>
      if |found| == 1 then Outcome(Success(Some(Only(found))), st)
      else if |found| > 1 then Outcome(Failure(MultipleObjectsReturned), st)
      else match ApplyFields(schema, st.objects, m.model, DefaultRecord(schema, m.model), m.fields, true)
        case Failure(e) => Outcome(Failure(e), st)
        case Success(rec) =>
          var o := ObjRef(m.model, st.nextId);
          Outcome(Success(Some(o)), State(st.objects[o := rec], st.mappings, st.nextId + 1))
  }

  ghost function UpdateSpec(schema: Schema, st: State, m: ModelAction, force: bool): Outcome {
    match FindObjects(schema, st.objects, m)
    case Failure(e) => Outcome(Failure(e), st)
    case Success(found) =>
      if |found| == 0 then Outcome(Success(None), st)
      else if |found| > 1 then Outcome(Failure(MultipleObjectsReturned), st)
      else
        var o := Only(found);
        match ApplyFields(schema, st.objects, m.model, st.objects[o], m.fields, force)
        case Failure(e) => Outcome(Failure(e), st)
        case Success(rec) => Outcome(Success(Some(o)), st.(objects := st.objects[o := rec]))
  }

  function DeleteSpec(schema: Schema, st: State, m: ModelAction): Outcome {
    match FindObjects(schema, st.objects, m)
    case Failure(e) => Outcome(Failure(e), st)
    case Success(found) => Outcome(Success(None), st.(objects := st.objects - found))
  }

  /** The mapping rows with this external key that point at `o` (the
      external system is not part of this lookup). */
  function RowsFor(mappings: map<MapKey, ObjRef>, key: string, o: ObjRef): set<MapKey> {
    set mk | mk in mappings && mk.key == key && mappings[mk] == o
  }

  ghost function DeleteIfOnlyReferenceSpec(schema: Schema, st: State, system: SystemId, key: string, d: ModelAction): Outcome {
    match FindObjects(schema, st.objects, d)
    case Failure(e) => Outcome(Failure(e), st)
    case Success(found) =>
      if |found| != 1 then Outcome(Success(None), st)
      else
        var rows := RowsFor(st.mappings, key, Only(found));
        if |rows| != 1 then Outcome(Success(None), st)
        else if Only(rows).system == system then Outcome(Success(None), DeleteSpec(schema, st, d).state)
        else Outcome(Success(None), st)
  }

  /** `execute()` of an action. */
  ghost function Exec(schema: Schema, st: State, a: Action): Outcome
    decreases a
  {
    match a
    case BaseAction(_) => Outcome(Success(None), st)
    case CreateModel(m) => CreateSpec(schema, st, m)
    case UpdateModel(m, force) => UpdateSpec(schema, st, m, force)
    case DeleteModel(m) => DeleteSpec(schema, st, m)
    case DeleteIfOnlyReference(system, key, d) => DeleteIfOnlyReferenceSpec(schema, st, system, key, d)
    case AlignExternalReference(system, model, key, inner) =>
      var out := Exec(schema, st, inner);
      if out.result.Success? && out.result.value.Some? then
        var o := out.result.value.value;
        Outcome(out.result, out.state.(mappings := out.state.mappings[MapKey(system, key) := ObjRef(model, o.id)]))
      else out
    case DeleteExternalReference(system, key) =>
      Outcome(Success(None), st.(mappings := st.mappings - {MapKey(system, key)}))
  }

  // ----- the actions run against a database -----

  /** `CreateModelAction.execute` */
  method ExecuteCreate(db: Database, m: ModelAction) returns (r: Result<Option<ObjRef>>)
    modifies db
    ensures Outcome(r, db.Snapshot()) == CreateSpec(db.schema, old(db.Snapshot()), m)
  {
    var found := FindObjects(db.schema, db.objects, m);
    if found.Failure? {
      return Failure(found.error);
    }
    if |found.value| > 0 {
      if |found.value| > 1 {
        return Failure(MultipleObjectsReturned);
      }
      var o :| o in found.value;
      return Success(Some(o));
    }
    var rec := UpdateFromFields(db.schema, db.objects, m.model, DefaultRecord(db.schema, m.model), m.fields, true);
    if rec.Failure? {
      return Failure(rec.error);
    }
    var o := db.Save(m.model, None, rec.value);
    r := Success(Some(o));
  }

  /** `UpdateModelAction.execute` */
  method ExecuteUpdate(db: Database, m: ModelAction, force: bool) returns (r: Result<Option<ObjRef>>)
    modifies db
    ensures Outcome(r, db.Snapshot()) == UpdateSpec(db.schema, old(db.Snapshot()), m, force)
  {
    var found := FindObjects(db.schema, db.objects, m);
    if found.Failure? {
      return Failure(found.error);
    }
    if |found.value| == 0 {
      return Success(None);
    }
    if |found.value| > 1 {
      return Failure(MultipleObjectsReturned);
    }
    var o :| o in found.value;
    var rec := UpdateFromFields(db.schema, db.objects, m.model, db.objects[o], m.fields, force);
    if rec.Failure? {
      return Failure(rec.error);
    }
    o := db.Save(m.model, Some(o), rec.value);
    r := Success(Some(o));
  }

  /** `DeleteModelAction.execute` */
  method ExecuteDelete(db: Database, m: ModelAction) returns (r: Result<Option<ObjRef>>)
    modifies db
    ensures Outcome(r, db.Snapshot()) == DeleteSpec(db.schema, old(db.Snapshot()), m)
  {
    var found := FindObjects(db.schema, db.objects, m);
    if found.Failure? {
      return Failure(found.error);
    }
    db.objects := db.objects - found.value;
    r := Success(None);
  }

  /** `DeleteIfOnlyReferenceModelAction.execute` */
  method ExecuteDeleteIfOnlyReference(db: Database, system: SystemId, key: string, d: ModelAction)
    returns (r: Result<Option<ObjRef>>)
    modifies db
    ensures Outcome(r, db.Snapshot()) == DeleteIfOnlyReferenceSpec(db.schema, old(db.Snapshot()), system, key, d)
  {
    var found := FindObjects(db.schema, db.objects, d);
    if found.Failure? {
      return Failure(found.error);
    }
    if |found.value| != 1 {
      return Success(None);
    }
    var o :| o in found.value;
    var rows := RowsFor(db.mappings, key, o);
    if |rows| != 1 {
      return Success(None);
    }
    var row :| row in rows;
    if row.system == system {
      var _ := ExecuteDelete(db, d);
    }
    r := Success(None);
  }

  /** `execute()` */
  method Execute(db: Database, a: Action) returns (r: Result<Option<ObjRef>>)
    modifies db
    ensures Outcome(r, db.Snapshot()) == Exec(db.schema, old(db.Snapshot()), a)
    decreases a
  {
    match a
    case BaseAction(_) =>
      r := Success(None);
    case CreateModel(m) =>
      r := ExecuteCreate(db, m);
    case UpdateModel(m, force) =>
      r := ExecuteUpdate(db, m, force);
    case DeleteModel(m) =>
      r := ExecuteDelete(db, m);
    case DeleteIfOnlyReference(system, key, d) =>
      r := ExecuteDeleteIfOnlyReference(db, system, key, d);
    case AlignExternalReference(system, model, key, inner) =>
      r := Execute(db, inner);
      if r.Success? && r.value.Some? {
        db.mappings := db.mappings[MapKey(system, key) := ObjRef(model, r.value.value.id)];
      }
    case DeleteExternalReference(system, key) =>
      db.mappings := db.mappings - {MapKey(system, key)};
      r := Success(None);
  }
}
