/** The actions of the earlier, unpackaged tree (`nsync/actions.py`, whose
    builder `nsync/sync.py` repeats): no external-key wrappers, no force
    flag, a create that does nothing when the match value is taken, and an
    update that writes every field of the row. */
module LegacyActions {
  import opened Common
  import opened Store
  import opened Intent
  import opened Fields
  import opened Actions
  import opened Factory

  datatype LegacyAction =
    | LegacyBase(m: ModelAction)
    | LegacyCreate(m: ModelAction)
    | LegacyUpdate(m: ModelAction)
    | LegacyDelete(m: ModelAction)

  /** `model(**fields)`: every key must name a field of the model (else
      `TypeError`), and a relation only accepts `None` (else `ValueError`,
      which the relations, visited first, raise before any `TypeError`).
      Fields the row does not give take their defaults. */
  function Construct(schema: Schema, tag: TypeTag, fields: Row): (r: Result<Record>)
    ensures r.Success? ==> r.value.Keys == FieldsOf(schema, tag).Keys
  {
    var fs := FieldsOf(schema, tag);
    if exists i | 0 <= i < |fields| :: IsForeignKey(schema, tag, fields[i].0) && fields[i].1 != Null then
      Failure(ValueError)
    else if exists i | 0 <= i < |fields| :: fields[i].0 !in fs then
      Failure(TypeError)
    else
      var defaults := DefaultRecord(schema, tag);
      Success(map k | k in fs :: match Lookup(fields, k) case Some(v) => v case None => defaults[k])
  }

  /** The `setattr` loop of the update, over every key of the row in order. */
  function SetAll(schema: Schema, tag: TypeTag, rec: Record, fields: Row): Result<Record>
    decreases |fields|
  {
    if fields == [] then Success(rec)
    else
      var r :- SetAll(schema, tag, rec, fields[..|fields| - 1]);
      SetAttr(schema, tag, r, fields[|fields| - 1].0, fields[|fields| - 1].1)
  }

  ghost function LegacyCreateSpec(schema: Schema, st: State, m: ModelAction): Outcome {
    match FindObjects(schema, st.objects, m)
    case Failure(e) => Outcome(Failure(e), st)
    case Success(found) =>
      if found != {} then Outcome(Success(None), st)
      else match Construct(schema, m.model, m.fields)
        case Failure(e) => Outcome(Failure(e), st)
        case Success(rec) =>
          var o := ObjRef(m.model, st.nextId);
          Outcome(Success(Some(o)), State(st.objects[o := rec], st.mappings, st.nextId + 1))
  }

  ghost function LegacyUpdateSpec(schema: Schema, st: State, m: ModelAction): Outcome {
    match FindObjects(schema, st.objects, m)
    case Failure(e) => Outcome(Failure(e), st)
    case Success(found) =>
      if |found| == 0 then Outcome(Success(None), st)
      else if |found| > 1 then Outcome(Failure(MultipleObjectsReturned), st)
      else
        var o := Only(found);
        match SetAll(schema, m.model, st.objects[o], m.fields)
        case Failure(e) => Outcome(Failure(e), st)
        case Success(rec) => Outcome(Success(Some(o)), st.(objects := st.objects[o := rec]))
  }

  /** `execute()` of a legacy action. */
  ghost function LegacyExec(schema: Schema, st: State, a: LegacyAction): Outcome {
    match a
    case LegacyBase(_) => Outcome(Success(None), st)
    case LegacyCreate(m) => LegacyCreateSpec(schema, st, m)
    case LegacyUpdate(m) => LegacyUpdateSpec(schema, st, m)
    case LegacyDelete(m) => DeleteSpec(schema, st, m)
  }

  /** The `setattr` loop of `UpdateModelAction.execute`. */
  method AssignAll(schema: Schema, tag: TypeTag, rec: Record, fields: Row) returns (r: Result<Record>)
    ensures r == SetAll(schema, tag, rec, fields)
  {
    var cur := rec;
    for i := 0 to |fields|
      invariant SetAll(schema, tag, rec, fields[..i]) == Success(cur)
    {
      assert fields[..i + 1][..i] == fields[..i];
      var next := SetAttr(schema, tag, cur, fields[i].0, fields[i].1);
      if next.Failure? {
        r := next;
        SetAllFailureSticks(schema, tag, rec, fields, i + 1);
        return;
      }
      cur := next.value;
    }
    assert fields[..|fields|] == fields;
    r := Success(cur);
  }

  lemma {:induction false} SetAllFailureSticks(schema: Schema, tag: TypeTag, rec: Record, fields: Row, i: nat)
    requires i <= |fields|
    requires SetAll(schema, tag, rec, fields[..i]).Failure?
    ensures SetAll(schema, tag, rec, fields) == SetAll(schema, tag, rec, fields[..i])
    decreases |fields| - i
  {
    if i < |fields| {
      assert fields[..i + 1][..i] == fields[..i];
      SetAllFailureSticks(schema, tag, rec, fields, i + 1);
    } else {
      assert fields[..i] == fields;
    }
  }

  /** `CreateModelAction.execute` */
  method ExecuteLegacyCreate(db: Database, m: ModelAction) returns (r: Result<Option<ObjRef>>)
    modifies db
    ensures Outcome(r, db.Snapshot()) == LegacyCreateSpec(db.schema, old(db.Snapshot()), m)
  {
    var found := FindObjects(db.schema, db.objects, m);
    if found.Failure? {
      return Failure(found.error);
    }
    if found.value != {} {
      return Success(None);
    }
    var rec := Construct(db.schema, m.model, m.fields);
    if rec.Failure? {
      return Failure(rec.error);
    }
    var o := db.Save(m.model, None, rec.value);
    r := Success(Some(o));
  }

  /** `UpdateModelAction.execute` */
  method ExecuteLegacyUpdate(db: Database, m: ModelAction) returns (r: Result<Option<ObjRef>>)
    modifies db
    ensures Outcome(r, db.Snapshot()) == LegacyUpdateSpec(db.schema, old(db.Snapshot()), m)
  {
    var found := FindObjects(db.schema, db.objects, m);
    if found.Failure? {
      return Failure(found.error);
    }
    if |found.value| == 0 {
      return Success(None);
    }
    if |found.value| > 1 {
      return Failure(MultipleObjectsReturned);
    }
    var o :| o in found.value;
    var rec := AssignAll(db.schema, m.model, db.objects[o], m.fields);
    if rec.Failure? {
      return Failure(rec.error);
    }
    o := db.Save(m.model, Some(o), rec.value);
    r := Success(Some(o));
  }

  /** `execute()` of a legacy action. */
  method ExecuteLegacy(db: Database, a: LegacyAction) returns (r: Result<Option<ObjRef>>)
    modifies db
    ensures Outcome(r, db.Snapshot()) == LegacyExec(db.schema, old(db.Snapshot()), a)
  {
    match a
    case LegacyBase(_) =>
      r := Success(None);
    case LegacyCreate(m) =>
      r := ExecuteLegacyCreate(db, m);
    case LegacyUpdate(m) =>
      r := ExecuteLegacyUpdate(db, m);
    case LegacyDelete(m) =>
      r := ExecuteDelete(db, m);
  }

  // ----- the builder -----

  /** `ActionsBuilder.build` of the legacy tree: create, update and delete
      for the set flags, in that order, or the lone base action when none
      is set; the external key plays no part. */
  function LegacyBuild(model: Option<TypeTag>, intent: SyncActions, matchField: Value, fields: Row): Result<seq<LegacyAction>> {
    var m :- NewModelAction(model, matchField, fields);
    var flagged := LegacyFlagged(intent, m);
    Success(if flagged == [] then [LegacyBase(m)] else flagged)
  }

  function LegacyFlagged(intent: SyncActions, m: ModelAction): seq<LegacyAction> {
    (if intent.create then [LegacyCreate(m)] else [])
    + (if intent.update then [LegacyUpdate(m)] else [])
    + (if intent.delete then [LegacyDelete(m)] else [])
  }

  /** `build`, appending to a list as the source does. */
  method BuildLegacy(model: Option<TypeTag>, intent: SyncActions, matchField: Value, fields: Row)
    returns (r: Result<seq<LegacyAction>>)
    ensures r == LegacyBuild(model, intent, matchField, fields)
  {
    var m := NewModelAction(model, matchField, fields);
    if m.Failure? {
      return Failure(m.error);
    }
    var actions: seq<LegacyAction> := [];
    if intent.create {
      actions := actions + [LegacyCreate(m.value)];
    }
    if intent.update {
      actions := actions + [LegacyUpdate(m.value)];
    }
    if intent.delete {
      actions := actions + [LegacyDelete(m.value)];
    }
    assert actions == LegacyFlagged(intent, m.value);
    if actions == [] {
      actions := actions + [LegacyBase(m.value)];
      assert actions == [LegacyBase(m.value)];
    }
    r := Success(actions);
  }

  /** `ActionsBuilder.from_dict` of the legacy tree (both copies): the same
      pops as the packaged builder, then the legacy `build`. */
  function LegacyFromDict(model: Option<TypeTag>, raw: Option<Row>): (Result<seq<LegacyAction>>, Option<Row>) {
    if raw.None? || raw.value == [] then (Success([]), raw)
    else
      var row := raw.value;
      match Pop(row, ActionFlagsLabel)
      case Failure(e) => (Failure(e), raw)
      case Success((flags, row1)) =>
        match Pop(row1, MatchFieldNameLabel)
        case Failure(e) => (Failure(e), Some(row1))
        case Success((matchField, row2)) =>
          var (_, rest) := PopOr(row2, ExternalKeyLabel);
          match Decode(flags)
          case Failure(e) => (Failure(e), Some(rest))
          case Success(intent) => (LegacyBuild(model, intent, matchField, rest), Some(rest))
  }

  /** `from_dict`, popping the reserved keys from the caller's dict. */
  method LegacyFromDictInPlace(model: Option<TypeTag>, raw: RawValues?) returns (r: Result<seq<LegacyAction>>)
    modifies raw
    ensures raw == null ==> r == LegacyFromDict(model, None).0
    ensures raw != null ==> (r, Some(raw.entries)) == LegacyFromDict(model, Some(old(raw.entries)))
  {
    if raw == null || raw.entries == [] {
      return Success([]);
    }
    var flags := Pop(raw.entries, ActionFlagsLabel);
    if flags.Failure? {
      return Failure(flags.error);
    }
    raw.entries := flags.value.1;
    var matchField := Pop(raw.entries, MatchFieldNameLabel);
    if matchField.Failure? {
      return Failure(matchField.error);
    }
    raw.entries := matchField.value.1;
    var key := PopOr(raw.entries, ExternalKeyLabel);
    raw.entries := key.1;
    var intent := Decode(flags.value.0);
    if intent.Failure? {
      return Failure(intent.error);
    }
    r := BuildLegacy(model, intent.value, matchField.value.0, raw.entries);
  }

  // ----- properties -----

  /** The legacy model action raises `ValueError` for a missing model, a
      falsy match field name, or one that is not a key of the row. */
  lemma LegacyBuildFailsIff(model: Option<TypeTag>, intent: SyncActions, matchField: Value, fields: Row)
    ensures LegacyBuild(model, intent, matchField, fields).Failure? <==>
      !(model.Some? && matchField.Str? && matchField.s != "" && HasKey(fields, matchField.s))
    ensures LegacyBuild(model, intent, matchField, fields).Failure? ==> LegacyBuild(model, intent, matchField, fields).error == ValueError
  {
  }

  function KindRank(a: LegacyAction): nat {
    match a
    case LegacyCreate(_) => 0
    case LegacyUpdate(_) => 1
    case LegacyDelete(_) => 2
    case LegacyBase(_) => 3
  }

  /** The legacy list holds a create, an update, a delete exactly when the
      flag is set, in that order and each at most once, and the base action
      exactly when no flag is set, alone. */
  lemma LegacyBuildShape(model: Option<TypeTag>, intent: SyncActions, matchField: Value, fields: Row)
    requires LegacyBuild(model, intent, matchField, fields).Success?
    ensures var r := LegacyBuild(model, intent, matchField, fields).value;
      var m := NewModelAction(model, matchField, fields).value;
      (LegacyCreate(m) in r <==> intent.create)
      && (LegacyUpdate(m) in r <==> intent.update)
      && (LegacyDelete(m) in r <==> intent.delete)
      && (LegacyBase(m) in r <==> !(intent.create || intent.update || intent.delete))
      && (r[0].LegacyBase? ==> r == [LegacyBase(m)])
      && (forall i, j :: 0 <= i < j < |r| ==> KindRank(r[i]) < KindRank(r[j]))
      && (forall a :: a in r ==> a.m == m)
  {
  }

  /** `from_dict` on a row with both mandatory keys is the legacy `build`
      over the decoded flags, the match field name and the row without the
      three reserved keys; the external key is popped and dropped. */
  lemma LegacyFromDictBuilds(model: Option<TypeTag>, row: Row)
    requires HasKey(row, ActionFlagsLabel) && HasKey(row, MatchFieldNameLabel)
    ensures var flags := Lookup(row, ActionFlagsLabel).value;
      var matchField := Lookup(row, MatchFieldNameLabel).value;
      var rest := Without(row, {ActionFlagsLabel, MatchFieldNameLabel, ExternalKeyLabel});
      LegacyFromDict(model, Some(row)) ==
        (match Decode(flags)
         case Failure(e) => Failure(e)
         case Success(intent) => LegacyBuild(model, intent, matchField, rest),
         Some(rest))
  {
    LookupWithout(row, {ActionFlagsLabel}, MatchFieldNameLabel);
    PopsCompose(row);
  }

  /** A missing or empty dict gives no actions; a missing `action_flags` or
      `match_field_name` raises `KeyError` for that key. */
  lemma LegacyFromDictErrors(model: Option<TypeTag>, raw: Option<Row>)
    ensures raw.None? || raw == Some([]) ==> LegacyFromDict(model, raw) == (Success([]), raw)
    ensures raw.Some? && raw.value != [] && !HasKey(raw.value, ActionFlagsLabel) ==>
      LegacyFromDict(model, raw).0 == Failure(KeyError(ActionFlagsLabel))
    ensures raw.Some? && raw.value != [] && HasKey(raw.value, ActionFlagsLabel) && !HasKey(raw.value, MatchFieldNameLabel) ==>
      LegacyFromDict(model, raw).0 == Failure(KeyError(MatchFieldNameLabel))
  {
    if raw.Some? && raw.value != [] && HasKey(raw.value, ActionFlagsLabel) {
      LookupWithout(raw.value, {ActionFlagsLabel}, MatchFieldNameLabel);
    }
  }

  /** With field names free of the delimiter, the legacy `setattr` loop is
      the packaged plain pass with force on. */
  lemma {:induction false} SetAllIsForcedPlainPass(schema: Schema, tag: TypeTag, rec: Record, fields: Row)
    requires WellFormedSchema(schema)
    ensures SetAll(schema, tag, rec, fields) == PlainPass(schema, tag, rec, fields, true)
    decreases |fields|
  {
    if fields != [] {
      SetAllIsForcedPlainPass(schema, tag, rec, fields[..|fields| - 1]);
    }
  }

  /** When the legacy create finds the match value taken, it returns `None`
      and writes nothing. */
  lemma LegacyCreateExisting(schema: Schema, st: State, m: ModelAction)
    requires FindObjects(schema, st.objects, m).Success? && FindObjects(schema, st.objects, m).value != {}
    ensures LegacyExec(schema, st, LegacyCreate(m)) == Outcome(Success(None), st)
  {
  }

  /** Otherwise it adds exactly one object, new to the store, holding every
      field the row gives; it fails (writing nothing) exactly when a
      relation is given a value or a key names no field. */
  lemma LegacyCreateNew(schema: Schema, st: State, m: ModelAction)
    requires Store.Valid(st)
    requires FindObjects(schema, st.objects, m) == Success({})
    ensures var out := LegacyExec(schema, st, LegacyCreate(m));
      out.result.Failure? <==>
        exists i :: 0 <= i < |m.fields| && (m.fields[i].0 !in FieldsOf(schema, m.model)
          || (IsForeignKey(schema, m.model, m.fields[i].0) && m.fields[i].1 != Null))
    ensures var out := LegacyExec(schema, st, LegacyCreate(m));
      out.result.Success? ==>
        var o := ObjRef(m.model, st.nextId);
        out.result == Success(Some(o)) && o !in st.objects
        && out.state.objects.Keys == st.objects.Keys + {o}
        && (forall x :: x in st.objects ==> out.state.objects[x] == st.objects[x])
        && (forall i :: 0 <= i < |m.fields| && DistinctKeys(m.fields) ==> Get(out.state.objects[o], m.fields[i].0) == m.fields[i].1)
  {
    var out := LegacyExec(schema, st, LegacyCreate(m));
    if out.result.Success? {
      var rec := Construct(schema, m.model, m.fields).value;
      forall i | 0 <= i < |m.fields| && DistinctKeys(m.fields)
        ensures Get(rec, m.fields[i].0) == m.fields[i].1
      {
        LookupDistinct(m.fields, i);
      }
    }
  }

  /** In a dict, the value found for the key of entry `i` is entry `i`'s. */
  lemma {:induction false} LookupDistinct(row: Row, i: nat)
    requires DistinctKeys(row) && i < |row|
    ensures Lookup(row, row[i].0) == Some(row[i].1)
    decreases |row|
  {
    if i > 0 {
      assert row[1..][i - 1] == row[i];
      assert row[0].0 != row[i].0;
      LookupDistinct(row[1..], i - 1);
    }
  }

  /** The legacy update returns `None` on no match, raises on several, and
      on one match writes every field the row gives, unconditionally, and
      nothing else. */
  lemma LegacyUpdateOne(schema: Schema, st: State, m: ModelAction, o: ObjRef)
    requires WellFormedSchema(schema) && DistinctKeys(m.fields)
    requires FindObjects(schema, st.objects, m) == Success({o})
    requires LegacyExec(schema, st, LegacyUpdate(m)).result.Success?
    ensures var out := LegacyExec(schema, st, LegacyUpdate(m));
      out.result == Success(Some(o))
      && out.state.objects.Keys == st.objects.Keys
      && (forall x :: x in st.objects && x != o ==> out.state.objects[x] == st.objects[x])
      && out.state.mappings == st.mappings && out.state.nextId == st.nextId
      && (forall i :: 0 <= i < |m.fields| && m.fields[i].0 in FieldsOf(schema, m.model) ==>
            Get(out.state.objects[o], m.fields[i].0) == m.fields[i].1)
  {
    assert Only({o}) == o;
    var out := LegacyExec(schema, st, LegacyUpdate(m));
    SetAllIsForcedPlainPass(schema, m.model, st.objects[o], m.fields);
    forall i | 0 <= i < |m.fields| && m.fields[i].0 in FieldsOf(schema, m.model)
      ensures Get(out.state.objects[o], m.fields[i].0) == m.fields[i].1
    {
      assert !HasDelim(m.fields[i].0);
      ForcedAssignsAll(schema, m.model, st.objects[o], m.fields, i);
    }
  }

  lemma LegacyUpdateNoneOrMany(schema: Schema, st: State, m: ModelAction)
    requires FindObjects(schema, st.objects, m).Success?
    ensures FindObjects(schema, st.objects, m).value == {} ==>
      LegacyExec(schema, st, LegacyUpdate(m)) == Outcome(Success(None), st)
    ensures |FindObjects(schema, st.objects, m).value| > 1 ==>
      LegacyExec(schema, st, LegacyUpdate(m)) == Outcome(Failure(MultipleObjectsReturned), st)
  {
  }
}
