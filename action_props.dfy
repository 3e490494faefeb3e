/** What the actions of the live package promise, stated over `Exec`. */
module ActionProperties {
  import opened Common
  import opened Store
  import opened Fields
  import opened Actions

  /** The action a chain of `AlignExternalReference` wrappers ends in. */
  function Core(a: Action): Action {
    if a.AlignExternalReference? then Core(a.inner) else a
  }

  /** Every action has one of the four types, and the type is `''` exactly
      for a plain model action, however deeply it is wrapped. */
  lemma {:induction false} TypeCases(a: Action)
    ensures Type(a) in {"", "create", "update", "delete"}
    ensures Type(a) == "" <==> Core(a).BaseAction?
    ensures Type(a) == "create" <==> Core(a).CreateModel?
    ensures Type(a) == "update" <==> Core(a).UpdateModel?
  {
    if a.AlignExternalReference? {
      TypeCases(a.inner);
    }
  }

  /** An action that raises leaves the database as it was: every error is
      raised before the first write. */
  lemma {:induction false} ErrorLeavesStateUnchanged(schema: Schema, st: State, a: Action)
    ensures Exec(schema, st, a).result.Failure? ==> Exec(schema, st, a).state == st
  {
    if a.AlignExternalReference? {
      ErrorLeavesStateUnchanged(schema, st, a.inner);
    }
  }

  /** Primary keys stay below the next key to hand out. */
  lemma {:induction false} ValidPreserved(schema: Schema, st: State, a: Action)
    requires Valid(st)
    ensures Valid(Exec(schema, st, a).state)
  {
    if a.AlignExternalReference? {
      ValidPreserved(schema, st, a.inner);
    }
  }

  /** Only the mapping-aware actions touch the mapping table, and they touch
      no object beyond what the wrapped action does. */
  lemma {:induction false} MappingsOnlyByWrappers(schema: Schema, st: State, a: Action)
    ensures !a.AlignExternalReference? && !a.DeleteExternalReference? && !a.DeleteIfOnlyReference?
      ==> Exec(schema, st, a).state.mappings == st.mappings
    ensures a.DeleteIfOnlyReference? ==> Exec(schema, st, a).state.mappings == st.mappings
    ensures a.AlignExternalReference? ==>
      Exec(schema, st, a).state.objects == Exec(schema, st, a.inner).state.objects
    ensures a.DeleteExternalReference? ==> Exec(schema, st, a).state.objects == st.objects
  {
  }

  // ----- create -----

  /** Create finds an existing object by the match field: that object is
      returned and nothing is written. */
  lemma CreateReturnsExisting(schema: Schema, st: State, m: ModelAction, o: ObjRef)
    requires FindObjects(schema, st.objects, m) == Success({o})
    ensures Exec(schema, st, CreateModel(m)) == Outcome(Success(Some(o)), st)
  {
  }

  /** Several objects with the match value: `get()` raises. */
  lemma CreateRaisesOnMany(schema: Schema, st: State, m: ModelAction)
    requires FindObjects(schema, st.objects, m).Success? && |FindObjects(schema, st.objects, m).value| > 1
    ensures Exec(schema, st, CreateModel(m)) == Outcome(Failure(MultipleObjectsReturned), st)
  {
  }

  /** The match field of a lookup that succeeded is a plain field of the
      model and holds no delimiter, and its value comes from the row. */
  lemma MatchFieldFacts(schema: Schema, objects: map<ObjRef, Record>, m: ModelAction)
    requires WellFormedSchema(schema) && ValidModelAction(m)
    requires FindObjects(schema, objects, m).Success?
    ensures IsPlain(schema, m.model, m.matchField) && !HasDelim(m.matchField)
    ensures exists i :: 0 <= i < |m.fields| && m.fields[i] == (m.matchField, MatchValue(m))
  {
    assert m.matchField in MatchLookup(m);
  }

  /** After a forced `update_from_fields`, every plain field named by a row
      key holds that key's value. */
  lemma ForcedPlainFields(schema: Schema, objects: map<ObjRef, Record>, tag: TypeTag, rec: Record,
                          fields: Row, i: nat)
    requires DistinctKeys(fields) && i < |fields|
    requires !HasDelim(fields[i].0) && IsPlain(schema, tag, fields[i].0)
    requires ApplyFields(schema, objects, tag, rec, fields, true).Success?
    ensures Get(ApplyFields(schema, objects, tag, rec, fields, true).value, fields[i].0) == fields[i].1
  {
    RelationSetIff(schema, objects, tag, rec, fields, true, fields[i].0);
    ForcedAssignsAll(schema, tag, rec, fields, i);
  }

  /** Create with no object holding the match value adds exactly one new
      object, returns it, and that object carries every plain field of the
      row and is the only one the match value finds. */
  lemma CreateAddsOne(schema: Schema, st: State, m: ModelAction)
    requires Valid(st) && WellFormedSchema(schema) && ValidModelAction(m) && DistinctKeys(m.fields)
    requires FindObjects(schema, st.objects, m) == Success({})
    requires Exec(schema, st, CreateModel(m)).result.Success?
    ensures var out := Exec(schema, st, CreateModel(m));
      var o := ObjRef(m.model, st.nextId);
      out.result == Success(Some(o)) && o !in st.objects
      && out.state.objects.Keys == st.objects.Keys + {o}
      && (forall x :: x in st.objects ==> out.state.objects[x] == st.objects[x])
      && out.state.mappings == st.mappings
    ensures var out := Exec(schema, st, CreateModel(m));
      var o := ObjRef(m.model, st.nextId);
      (forall i :: 0 <= i < |m.fields| && !HasDelim(m.fields[i].0) && IsPlain(schema, m.model, m.fields[i].0)
            ==> Get(out.state.objects[o], m.fields[i].0) == m.fields[i].1)
      && FindObjects(schema, out.state.objects, m) == Success({o})
  {
    var o := ObjRef(m.model, st.nextId);
    CreateNewStep(schema, st, m);
    var rec := ApplyFields(schema, st.objects, m.model, DefaultRecord(schema, m.model), m.fields, true).value;
    ForcedPlainAll(schema, st.objects, m.model, DefaultRecord(schema, m.model), m.fields);
    MatchFieldFacts(schema, st.objects, m);
    var j :| 0 <= j < |m.fields| && m.fields[j] == (m.matchField, MatchValue(m));
    assert Matches(rec, MatchLookup(m));
    FindsOnlyNew(schema, st.objects, m, o, rec);
  }

  /** A create that finds nothing and succeeds stores the new instance under
      the next key. */
  lemma CreateNewStep(schema: Schema, st: State, m: ModelAction)
    requires FindObjects(schema, st.objects, m) == Success({})
    requires CreateSpec(schema, st, m).result.Success?
    ensures ApplyFields(schema, st.objects, m.model, DefaultRecord(schema, m.model), m.fields, true).Success?
    ensures var rec := ApplyFields(schema, st.objects, m.model, DefaultRecord(schema, m.model), m.fields, true).value;
      var o := ObjRef(m.model, st.nextId);
      CreateSpec(schema, st, m) == Outcome(Success(Some(o)), State(st.objects[o := rec], st.mappings, st.nextId + 1))
  {
  }

  /** Every plain field named by a row key, all at once. */
  lemma ForcedPlainAll(schema: Schema, objects: map<ObjRef, Record>, tag: TypeTag, rec: Record, fields: Row)
    requires DistinctKeys(fields)
    requires ApplyFields(schema, objects, tag, rec, fields, true).Success?
    ensures var r := ApplyFields(schema, objects, tag, rec, fields, true).value;
      forall i :: 0 <= i < |fields| && !HasDelim(fields[i].0) && IsPlain(schema, tag, fields[i].0) ==> Get(r, fields[i].0) == fields[i].1
  {
    forall i | 0 <= i < |fields| && !HasDelim(fields[i].0) && IsPlain(schema, tag, fields[i].0)
      ensures Get(ApplyFields(schema, objects, tag, rec, fields, true).value, fields[i].0) == fields[i].1
    {
      ForcedPlainFields(schema, objects, tag, rec, fields, i);
    }
  }

  /** An object added beside none that match, and matching itself, is the
      only one the lookup finds. */
  lemma FindsOnlyNew(schema: Schema, objects: map<ObjRef, Record>, m: ModelAction, o: ObjRef, rec: Record)
    requires FindObjects(schema, objects, m) == Success({})
    requires o.tag == m.model && Matches(rec, MatchLookup(m))
    ensures FindObjects(schema, objects[o := rec], m) == Success({o})
  {
    var after := FindObjects(schema, objects[o := rec], m);
    assert after.Success?;
    forall x ensures x in after.value <==> x == o {
      if x in objects && x != o {
        assert x !in FindObjects(schema, objects, m).value;
      }
    }
    assert after.value == {o};
  }

  /** Running the same create twice gives the same object and writes nothing
      the second time. */
  lemma CreateIdempotent(schema: Schema, st: State, m: ModelAction)
    requires Valid(st) && WellFormedSchema(schema) && ValidModelAction(m) && DistinctKeys(m.fields)
    requires FindObjects(schema, st.objects, m) == Success({})
    ensures var once := Exec(schema, st, CreateModel(m));
      Exec(schema, once.state, CreateModel(m)) == once
  {
    var once := Exec(schema, st, CreateModel(m));
    if once.result.Success? {
      CreateAddsOne(schema, st, m);
      CreateReturnsExisting(schema, once.state, m, ObjRef(m.model, st.nextId));
    } else {
      ErrorLeavesStateUnchanged(schema, st, CreateModel(m));
    }
  }

  // ----- update -----

  /** Update with no object holding the match value returns `None` and
      writes nothing. */
  lemma UpdateNoMatch(schema: Schema, st: State, m: ModelAction, force: bool)
    requires FindObjects(schema, st.objects, m) == Success({})
    ensures Exec(schema, st, UpdateModel(m, force)) == Outcome(Success(None), st)
  {
  }

  /** Several objects with the match value: only `ObjectDoesNotExist` is
      caught, so the error escapes. */
  lemma UpdateRaisesOnMany(schema: Schema, st: State, m: ModelAction, force: bool)
    requires FindObjects(schema, st.objects, m).Success? && |FindObjects(schema, st.objects, m).value| > 1
    ensures Exec(schema, st, UpdateModel(m, force)) == Outcome(Failure(MultipleObjectsReturned), st)
  {
  }

  /** Update of the single matching object returns it and rewrites it alone.
      Unforced, an attribute that held a value keeps it; forced, every plain
      field the row names takes the row's value. */
  lemma UpdateOneMatch(schema: Schema, st: State, m: ModelAction, force: bool, o: ObjRef)
    requires FindObjects(schema, st.objects, m) == Success({o})
    requires Exec(schema, st, UpdateModel(m, force)).result.Success?
    ensures var out := Exec(schema, st, UpdateModel(m, force));
      out.result == Success(Some(o))
      && out.state.objects.Keys == st.objects.Keys
      && (forall x :: x in st.objects && x != o ==> out.state.objects[x] == st.objects[x])
      && out.state.mappings == st.mappings && out.state.nextId == st.nextId
    ensures var out := Exec(schema, st, UpdateModel(m, force));
      !force ==> forall k :: !IsEmpty(Get(st.objects[o], k)) ==> Get(out.state.objects[o], k) == Get(st.objects[o], k)
    ensures var out := Exec(schema, st, UpdateModel(m, force));
      force && DistinctKeys(m.fields) ==>
        forall i :: 0 <= i < |m.fields| && !HasDelim(m.fields[i].0) && IsPlain(schema, m.model, m.fields[i].0)
          ==> Get(out.state.objects[o], m.fields[i].0) == m.fields[i].1
  {
    UpdateOneStep(schema, st, m, force, o);
    var old_ := st.objects[o];
    if !force {
      UnforcedKeepsAll(schema, st.objects, m.model, old_, m.fields);
    } else if DistinctKeys(m.fields) {
      ForcedPlainAll(schema, st.objects, m.model, old_, m.fields);
    }
  }

  /** An update that finds one object and succeeds stores the rewritten
      instance under that object's key. */
  lemma UpdateOneStep(schema: Schema, st: State, m: ModelAction, force: bool, o: ObjRef)
    requires FindObjects(schema, st.objects, m) == Success({o})
    requires UpdateSpec(schema, st, m, force).result.Success?
    ensures o in st.objects && ApplyFields(schema, st.objects, m.model, st.objects[o], m.fields, force).Success?
    ensures var rec := ApplyFields(schema, st.objects, m.model, st.objects[o], m.fields, force).value;
      UpdateSpec(schema, st, m, force) == Outcome(Success(Some(o)), st.(objects := st.objects[o := rec]))
  {
    assert Only({o}) == o;
  }

  /** Unforced, no attribute that held a value changes. */
  lemma UnforcedKeepsAll(schema: Schema, objects: map<ObjRef, Record>, tag: TypeTag, rec: Record, fields: Row)
    requires ApplyFields(schema, objects, tag, rec, fields, false).Success?
    ensures var r := ApplyFields(schema, objects, tag, rec, fields, false).value;
      forall k :: !IsEmpty(Get(rec, k)) ==> Get(r, k) == Get(rec, k)
  {
    forall k | !IsEmpty(Get(rec, k))
      ensures Get(ApplyFields(schema, objects, tag, rec, fields, false).value, k) == Get(rec, k)
    {
      UnforcedKeepsValues(schema, tag, rec, fields, k);
      RelationSetIff(schema, objects, tag, rec, fields, false, k);
    }
  }

  // ----- delete -----

  /** Delete removes every object of the model holding the match value and
      nothing else; afterwards the match value finds nothing. */
  lemma DeleteRemovesMatches(schema: Schema, st: State, m: ModelAction)
    requires FindObjects(schema, st.objects, m).Success?
    ensures var out := Exec(schema, st, DeleteModel(m));
      out.result == Success(None)
      && (forall x :: x in out.state.objects <==>
            x in st.objects && !(x.tag == m.model && Matches(st.objects[x], MatchLookup(m))))
      && (forall x :: x in out.state.objects ==> out.state.objects[x] == st.objects[x])
      && out.state.mappings == st.mappings && out.state.nextId == st.nextId
      && FindObjects(schema, out.state.objects, m) == Success({})
  {
    var out := Exec(schema, st, DeleteModel(m));
    var after := FindObjects(schema, out.state.objects, m);
    assert forall x :: x in out.state.objects ==> out.state.objects[x] == st.objects[x];
    assert after.value == {};
  }

  /** "Delete this object only if this is its only reference": the wrapped
      delete runs exactly when one object matches, exactly one mapping row
      with this external key points at it, and that row belongs to this
      system; otherwise nothing changes. It never returns an object. */
  lemma DeleteIfOnlyReferenceIff(schema: Schema, st: State, system: SystemId, key: string, d: ModelAction)
    requires FindObjects(schema, st.objects, d).Success?
    ensures var out := Exec(schema, st, DeleteIfOnlyReference(system, key, d));
      out.result == Success(None)
      && out.state == if exists o, row :: FindObjects(schema, st.objects, d) == Success({o})
                                          && RowsFor(st.mappings, key, o) == {row} && row.system == system
                      then Exec(schema, st, DeleteModel(d)).state
                      else st
  {
    var found := FindObjects(schema, st.objects, d).value;
    if |found| == 1 {
      var o := Only(found);
      var rows := RowsFor(st.mappings, key, o);
      if |rows| == 1 {
        var row := Only(rows);
        if row.system != system {
          forall o', row' | FindObjects(schema, st.objects, d) == Success({o'}) && RowsFor(st.mappings, key, o') == {row'}
            ensures row'.system != system
          {
            assert o' == o;
          }
        }
      } else {
        forall o', row' | FindObjects(schema, st.objects, d) == Success({o'})
          ensures RowsFor(st.mappings, key, o') != {row'}
        {
          assert o' == o;
        }
      }
    } else {
      assert forall o' :: FindObjects(schema, st.objects, d) != Success({o'});
    }
  }

  // ----- the mapping wrappers -----

  /** Align returns what the wrapped action returns. When that is an object,
      the row for this system and key (reused or new) points at it and no
      other row changes; otherwise the table is as the wrapped action left
      it. */
  lemma AlignPointsMapping(schema: Schema, st: State, system: SystemId, model: TypeTag, key: string, inner: Action)
    ensures var out := Exec(schema, st, AlignExternalReference(system, model, key, inner));
      var run := Exec(schema, st, inner);
      out.result == run.result && out.state.objects == run.state.objects && out.state.nextId == run.state.nextId
    ensures var out := Exec(schema, st, AlignExternalReference(system, model, key, inner));
      var run := Exec(schema, st, inner);
      run.result.Success? && run.result.value.Some? ==>
        MapKey(system, key) in out.state.mappings
        && out.state.mappings[MapKey(system, key)] == ObjRef(model, run.result.value.value.id)
        && forall mk :: mk != MapKey(system, key) ==>
             (mk in out.state.mappings <==> mk in run.state.mappings)
             && (mk in run.state.mappings ==> out.state.mappings[mk] == run.state.mappings[mk])
    ensures var out := Exec(schema, st, AlignExternalReference(system, model, key, inner));
      var run := Exec(schema, st, inner);
      !(run.result.Success? && run.result.value.Some?) ==> out.state == run.state
  {
  }

  /** DeleteExternalReference removes exactly the row for this system and
      key. */
  lemma DeleteExternalReferenceRemoves(schema: Schema, st: State, system: SystemId, key: string)
    ensures var out := Exec(schema, st, DeleteExternalReference(system, key));
      out.result == Success(None) && out.state.objects == st.objects
      && forall mk :: mk in out.state.mappings <==> mk in st.mappings && mk != MapKey(system, key)
  {
  }
}
