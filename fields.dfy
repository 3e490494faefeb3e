/** `ModelAction.update_from_fields`: copying a row's fields onto a model
    instance. Plain attributes are written in row order, unless the instance
    already holds a value and `force` is off; keys of the form `base=>sub`
    are gathered into one lookup per `base` and, once the plain attributes
    are written, each such relation is pointed at the single related object
    that matches its lookup. */
module Fields {
  import opened Common
  import opened Store

  /** `setattr(obj, name, value)`, as far as it reaches the saved row: a name
      that is not a field of the model is not persisted, and a relation
      accepts only `None` (anything else is not an instance of the related
      model, which Django refuses with `ValueError`). */
  function SetAttr(schema: Schema, tag: TypeTag, rec: Record, name: string, v: Value): Result<Record> {
    var fs := FieldsOf(schema, tag);
    if name !in fs then Success(rec)
    else if fs[name].Plain? then Success(rec[name := v])
    else if v == Null then Success(rec[name := Null])
    else Failure(ValueError)
  }

  /** One turn of the first loop for a key without the delimiter. */
  function PlainStep(schema: Schema, tag: TypeTag, rec: Record, name: string, v: Value, force: bool): Result<Record> {
    if HasDelim(name) then Success(rec)
    else if !force && !IsEmpty(Get(rec, name)) then Success(rec)
    else SetAttr(schema, tag, rec, name, v)
  }

  /** The first loop over the row, in row order. */
  function PlainPass(schema: Schema, tag: TypeTag, rec: Record, fields: Row, force: bool): Result<Record>
    decreases |fields|
  {
    if fields == [] then Success(rec)
    else
      var r :- PlainPass(schema, tag, rec, fields[..|fields| - 1], force);
      PlainStep(schema, tag, r, fields[|fields| - 1].0, fields[|fields| - 1].1, force)
  }

  /** Lookups by relation: `base` to the map from `sub` to value. */
  type Groups = map<string, map<string, Value>>

  function AddToGroup(g: Groups, name: string, v: Value): Groups
    requires HasDelim(name)
  {
    var base := SplitFirst(name);
    var inner := if base in g then g[base] else map[];
    g[base := inner[SplitSecond(name) := v]]
  }

  /** The `referential_attributes` dict the first loop fills in. */
  function Group(fields: Row): Groups
    decreases |fields|
  {
    if fields == [] then map[]
    else
      var g := Group(fields[..|fields| - 1]);
      var (name, v) := fields[|fields| - 1];
      if HasDelim(name) then AddToGroup(g, name, v) else g
  }

  /** A relation is looked up when it is a forward relation of the model and
      either `force` is on or it is still `None`. */
  predicate Eligible(schema: Schema, tag: TypeTag, rec: Record, base: string, force: bool) {
    IsForeignKey(schema, tag, base) && (force || Get(rec, base) == Null)
  }

  /** What the second loop does for one relation: nothing (`None`), point
      it at an object, or let the lookup's error escape. A lookup that finds
      no object or several is logged and ignored. */
  ghost function Resolution(schema: Schema, objects: map<ObjRef, Record>, tag: TypeTag, rec: Record,
                            base: string, getBy: map<string, Value>, force: bool): Result<Option<ObjRef>>
  {
    if !Eligible(schema, tag, rec, base, force) then Success(None)
    else
      var m :- Filter(schema, objects, FieldsOf(schema, tag)[base].target, getBy);
      if |m| == 1 then Success(Some(Only(m))) else Success(None)
  }

  /** The outcome of each relation among `done`. */
  ghost function Outcomes(schema: Schema, objects: map<ObjRef, Record>, tag: TypeTag, rec: Record,
                          groups: Groups, force: bool, done: set<string>): map<string, Result<Option<ObjRef>>>
    requires done <= groups.Keys
  {
    map b | b in done :: Resolution(schema, objects, tag, rec, b, groups[b], force)
  }

  /** The relations whose outcome points them at an object. */
  function Found(out: map<string, Result<Option<ObjRef>>>): set<string> {
    set b | b in out && out[b].Success? && out[b].value.Some?
  }

  /** `rec` with each found relation pointed at its object. */
  function Overlay(rec: Record, out: map<string, Result<Option<ObjRef>>>): Record {
    map k | k in rec.Keys + Found(out) :: if k in Found(out) then Ref(out[k].value.value.id) else rec[k]
  }

  /** The instance once the relations among `done` are dealt with. */
  ghost function ResolveSome(schema: Schema, objects: map<ObjRef, Record>, tag: TypeTag, rec: Record,
                             groups: Groups, force: bool, done: set<string>): Record
    requires done <= groups.Keys
  {
    Overlay(rec, Outcomes(schema, objects, tag, rec, groups, force, done))
  }

  /** The second loop: each relation is dealt with on its own, so the order
      of the lookups does not matter; the first lookup that raises ends it. */
  ghost function RefPass(schema: Schema, objects: map<ObjRef, Record>, tag: TypeTag, rec: Record,
                         groups: Groups, force: bool): Result<Record>
  {
    if exists b :: b in groups && Resolution(schema, objects, tag, rec, b, groups[b], force).Failure?
    then Failure(FieldError)
    else Success(ResolveSome(schema, objects, tag, rec, groups, force, groups.Keys))
  }

  /** `update_from_fields(obj, force)` on an instance holding `rec`, with the
      stored objects available for the relation lookups. */
  ghost function ApplyFields(schema: Schema, objects: map<ObjRef, Record>, tag: TypeTag, rec: Record,
                             fields: Row, force: bool): Result<Record>
  {
    var p :- PlainPass(schema, tag, rec, fields, force);
    RefPass(schema, objects, tag, p, Group(fields), force)
  }

  lemma {:induction false} PlainPassFailureSticks(schema: Schema, tag: TypeTag, rec: Record, fields: Row, force: bool, i: nat)
    requires i <= |fields|
    requires PlainPass(schema, tag, rec, fields[..i], force).Failure?
    ensures PlainPass(schema, tag, rec, fields, force) == PlainPass(schema, tag, rec, fields[..i], force)
    decreases |fields| - i
  {
    if i < |fields| {
      assert fields[..i + 1][..i] == fields[..i];
      PlainPassFailureSticks(schema, tag, rec, fields, force, i + 1);
    } else {
      assert fields[..i] == fields;
    }
  }

  /** The first loop of `update_from_fields`: the plain attributes, and the
      lookups gathered on the way. */
  method AssignPlain(schema: Schema, tag: TypeTag, rec: Record, fields: Row, force: bool)
    returns (r: Result<Record>, groups: Groups)
    ensures r == PlainPass(schema, tag, rec, fields, force)
    ensures r.Success? ==> groups == Group(fields)
  {
    var cur := rec;
    groups := map[];
    for i := 0 to |fields|
      invariant PlainPass(schema, tag, rec, fields[..i], force) == Success(cur)
      invariant groups == Group(fields[..i])
    {
      assert fields[..i + 1][..i] == fields[..i];
      var (name, value) := fields[i];
      if HasDelim(name) {
        groups := AddToGroup(groups, name, value);
      } else if force || IsEmpty(Get(cur, name)) {
        var s := SetAttr(schema, tag, cur, name, value);
        if s.Failure? {
          PlainPassFailureSticks(schema, tag, rec, fields, force, i + 1);
          return Failure(s.error), groups;
        }
        cur := s.value;
      }
    }
    assert fields[..|fields|] == fields;
    r := Success(cur);
  }

  /** Dealing with one more relation changes at most that relation. */
  lemma ResolveStep(schema: Schema, objects: map<ObjRef, Record>, tag: TypeTag, rec: Record,
                    groups: Groups, force: bool, done: set<string>, b: string)
    requires done <= groups.Keys && b in groups && b !in done
    requires Resolution(schema, objects, tag, rec, b, groups[b], force).Success?
    ensures var res := Resolution(schema, objects, tag, rec, b, groups[b], force).value;
      var before := ResolveSome(schema, objects, tag, rec, groups, force, done);
      ResolveSome(schema, objects, tag, rec, groups, force, done + {b})
        == if res.Some? then before[b := Ref(res.value.id)] else before
  {
    var res := Resolution(schema, objects, tag, rec, b, groups[b], force);
    var out := Outcomes(schema, objects, tag, rec, groups, force, done);
    assert Outcomes(schema, objects, tag, rec, groups, force, done + {b}) == out[b := res];
    OverlayStep(rec, out, b, res);
  }

  lemma OverlayStep(rec: Record, out: map<string, Result<Option<ObjRef>>>, b: string, res: Result<Option<ObjRef>>)
    requires b !in out && res.Success?
    ensures Overlay(rec, out[b := res]) == if res.value.Some? then Overlay(rec, out)[b := Ref(res.value.value.id)] else Overlay(rec, out)
  {
    if res.value.Some? {
      assert Found(out[b := res]) == Found(out) + {b};
    } else {
      assert Found(out[b := res]) == Found(out);
    }
  }

  /** One turn of the second loop, for the relation `b`. */
  method ResolveOne(schema: Schema, objects: map<ObjRef, Record>, tag: TypeTag, rec: Record,
                    b: string, getBy: map<string, Value>, force: bool) returns (r: Result<Option<ObjRef>>)
    ensures r == Resolution(schema, objects, tag, rec, b, getBy, force)
  {
    var fs := FieldsOf(schema, tag);
    if b in fs && fs[b].ForeignKey? && (force || Get(rec, b) == Null) {
      var m := Filter(schema, objects, fs[b].target, getBy);
      if m.Failure? {
        return Failure(m.error);
      }
      if |m.value| == 1 {
        var o :| o in m.value;
        return Success(Some(o));
      }
    }
    r := Success(None);
  }

  /** The second loop of `update_from_fields`, over the gathered lookups. */
  method ResolveRelations(schema: Schema, objects: map<ObjRef, Record>, tag: TypeTag, plain: Record,
                          groups: Groups, force: bool) returns (r: Result<Record>)
    ensures r == RefPass(schema, objects, tag, plain, groups, force)
  {
    var cur := plain;
    var remaining := groups.Keys;
    ghost var done: set<string> := {};
    assert ResolveSome(schema, objects, tag, plain, groups, force, done) == plain;
    while remaining != {}
      invariant remaining + done == groups.Keys && remaining !! done
      invariant forall b :: b in done ==> Resolution(schema, objects, tag, plain, b, groups[b], force).Success?
      invariant cur == ResolveSome(schema, objects, tag, plain, groups, force, done)
      decreases remaining
    {
      var b :| b in remaining;
      var res := ResolveOne(schema, objects, tag, plain, b, groups[b], force);
      if res.Failure? {
        return Failure(FieldError);
      }
      ResolveStep(schema, objects, tag, plain, groups, force, done, b);
      if res.value.Some? {
        cur := cur[b := Ref(res.value.value.id)];
      }
      remaining := remaining - {b};
      done := done + {b};
    }
    r := Success(cur);
  }

  /** `update_from_fields` itself: the two loops in turn. */
  method UpdateFromFields(schema: Schema, objects: map<ObjRef, Record>, tag: TypeTag, rec: Record,
                          fields: Row, force: bool) returns (r: Result<Record>)
    ensures r == ApplyFields(schema, objects, tag, rec, fields, force)
  {
    var p, groups := AssignPlain(schema, tag, rec, fields, force);
    if p.Failure? {
      return Failure(p.error);
    }
    r := ResolveRelations(schema, objects, tag, p.value, groups, force);
  }

  // ----- what the plain pass promises -----

  /** An attribute the plain pass changes is a field of the model named by a
      row key without the delimiter, it receives that key's value, and unless
      `force` is on it was empty (`None` or `''`) before. */
  lemma {:induction false} PlainPassChanges(schema: Schema, tag: TypeTag, rec: Record, fields: Row, force: bool, k: string)
    requires PlainPass(schema, tag, rec, fields, force).Success?
    ensures var r := PlainPass(schema, tag, rec, fields, force).value;
      Get(r, k) != Get(rec, k) ==>
        !HasDelim(k) && k in FieldsOf(schema, tag) && (force || IsEmpty(Get(rec, k)))
        && exists i :: 0 <= i < |fields| && fields[i] == (k, Get(r, k))
    decreases |fields|
  {
    if fields != [] {
      var init := fields[..|fields| - 1];
      PlainPassChanges(schema, tag, rec, init, force, k);
      var p := PlainPass(schema, tag, rec, init, force).value;
      var r := PlainPass(schema, tag, rec, fields, force).value;
      if Get(r, k) != Get(rec, k) && Get(p, k) != Get(rec, k) {
        var i :| 0 <= i < |init| && init[i] == (k, Get(p, k));
        if Get(r, k) != Get(p, k) {
          assert fields[|fields| - 1] == (k, Get(r, k));
        } else {
          assert fields[i] == (k, Get(r, k));
        }
      } else if Get(r, k) != Get(rec, k) {
        assert fields[|fields| - 1] == (k, Get(r, k));
      }
    }
  }

  /** Unforced, the plain pass never changes an attribute that holds a
      value. */
  lemma UnforcedKeepsValues(schema: Schema, tag: TypeTag, rec: Record, fields: Row, k: string)
    requires PlainPass(schema, tag, rec, fields, false).Success?
    requires !IsEmpty(Get(rec, k))
    ensures Get(PlainPass(schema, tag, rec, fields, false).value, k) == Get(rec, k)
  {
    PlainPassChanges(schema, tag, rec, fields, false, k);
  }

  /** A key holding the delimiter is never written as a plain attribute. */
  lemma DelimKeyNotAssigned(schema: Schema, tag: TypeTag, rec: Record, fields: Row, force: bool, k: string)
    requires PlainPass(schema, tag, rec, fields, force).Success?
    requires HasDelim(k)
    ensures Get(PlainPass(schema, tag, rec, fields, force).value, k) == Get(rec, k)
  {
    PlainPassChanges(schema, tag, rec, fields, force, k);
  }

  /** Writing one attribute leaves every other attribute as it was. */
  lemma {:induction false} PlainStepOther(schema: Schema, tag: TypeTag, rec: Record, name: string, v: Value, force: bool, k: string)
    requires k != name
    requires PlainStep(schema, tag, rec, name, v, force).Success?
    ensures Get(PlainStep(schema, tag, rec, name, v, force).value, k) == Get(rec, k)
  {
  }

  /** Forced, every field of the model named by a row key without the
      delimiter ends up holding that key's value. */
  lemma {:induction false} ForcedAssignsAll(schema: Schema, tag: TypeTag, rec: Record, fields: Row, i: nat)
    requires DistinctKeys(fields)
    requires i < |fields| && !HasDelim(fields[i].0) && fields[i].0 in FieldsOf(schema, tag)
    requires PlainPass(schema, tag, rec, fields, true).Success?
    ensures Get(PlainPass(schema, tag, rec, fields, true).value, fields[i].0) == fields[i].1
    decreases |fields|
  {
    var n := |fields| - 1;
    var init := fields[..n];
    var p := PlainPass(schema, tag, rec, init, true).value;
    if i == n {
      assert PlainStep(schema, tag, p, fields[n].0, fields[n].1, true).Success?;
    } else {
      assert init[i] == fields[i];
      ForcedAssignsAll(schema, tag, rec, init, i);
      PlainStepOther(schema, tag, p, fields[n].0, fields[n].1, true, fields[i].0);
    }
  }

  /** The plain pass raises only by giving a relation something other than
      `None`, and always does then, unless the relation already holds a value
      and `force` is off. */
  lemma {:induction false} PlainPassFails(schema: Schema, tag: TypeTag, rec: Record, fields: Row, force: bool)
    ensures PlainPass(schema, tag, rec, fields, force).Failure? ==>
      PlainPass(schema, tag, rec, fields, force).error == ValueError
      && exists i :: 0 <= i < |fields| && !HasDelim(fields[i].0)
           && IsForeignKey(schema, tag, fields[i].0) && fields[i].1 != Null
    ensures (forall i :: 0 <= i < |fields| && !HasDelim(fields[i].0) && IsForeignKey(schema, tag, fields[i].0)
               ==> fields[i].1 == Null)
      ==> PlainPass(schema, tag, rec, fields, force).Success?
    decreases |fields|
  {
    if fields != [] {
      var init := fields[..|fields| - 1];
      PlainPassFails(schema, tag, rec, init, force);
      forall i | 0 <= i < |init| ensures init[i] == fields[i] { }
    }
  }

  // ----- what the gathering of `base=>sub` keys promises -----

  predicate SplitsTo(name: string, base: string, sub: string) {
    HasDelim(name) && SplitFirst(name) == base && SplitSecond(name) == sub
  }

  /** Gathering a key leaves the entries it does not split into as they were. */
  lemma AddToGroupOther(g: Groups, name: string, v: Value, base: string, sub: string)
    requires !SplitsTo(name, base, sub) && HasDelim(name)
    ensures var g' := AddToGroup(g, name, v);
      (base in g' && sub in g'[base]) <==> (base in g && sub in g[base])
    ensures var g' := AddToGroup(g, name, v);
      base in g && sub in g[base] ==> g'[base][sub] == g[base][sub]
  {
  }

  /** Every `base=>sub` key of the row, and nothing else, has an entry in the
      lookup for its `base`. */
  lemma {:induction false} GroupHas(fields: Row, base: string, sub: string)
    ensures base in Group(fields) && sub in Group(fields)[base] <==>
      exists i :: 0 <= i < |fields| && SplitsTo(fields[i].0, base, sub)
    decreases |fields|
  {
    if fields != [] {
      var n := |fields| - 1;
      var init := fields[..n];
      GroupHas(init, base, sub);
      forall i | 0 <= i < n ensures init[i] == fields[i] { }
      var (name, v) := fields[n];
      if HasDelim(name) && !SplitsTo(name, base, sub) {
        AddToGroupOther(Group(init), name, v, base, sub);
      }
    }
  }

  /** Row key `i` is the last one that splits into `base` and `sub`. */
  predicate LastSplitting(fields: Row, i: int, base: string, sub: string) {
    0 <= i < |fields| && SplitsTo(fields[i].0, base, sub)
    && forall j :: i < j < |fields| ==> !SplitsTo(fields[j].0, base, sub)
  }

  /** All the sub-keys of one relation end up in its single lookup; each
      holds the value of the last row key that splits into it. */
  lemma {:induction false} GroupValue(fields: Row, base: string, sub: string)
    requires base in Group(fields) && sub in Group(fields)[base]
    ensures exists i :: LastSplitting(fields, i, base, sub) && Group(fields)[base][sub] == fields[i].1
    decreases |fields|
  {
    var n := |fields| - 1;
    var init := fields[..n];
    var (name, v) := fields[n];
    if SplitsTo(name, base, sub) {
      assert Group(fields)[base][sub] == v;
    } else {
      var g := Group(init);
      if HasDelim(name) {
        AddToGroupOther(g, name, v, base, sub);
      }
      GroupValue(init, base, sub);
      var i :| LastSplitting(init, i, base, sub) && g[base][sub] == init[i].1;
      assert init[i] == fields[i];
      forall j | i < j < |fields| ensures !SplitsTo(fields[j].0, base, sub) {
        if j < n { assert init[j] == fields[j]; }
      }
    }
  }

  /** The row key `base=>sub` (neither part holding the delimiter) lands in
      the lookup for `base` under `sub`. */
  lemma JoinedKeyGrouped(fields: Row, base: string, sub: string, i: nat)
    requires !HasDelim(base) && !HasDelim(sub)
    requires i < |fields| && fields[i].0 == base + "=>" + sub
    ensures base in Group(fields) && sub in Group(fields)[base]
  {
    SplitJoined(base, sub);
    GroupHas(fields, base, sub);
  }

  // ----- what the relation pass promises -----

  /** `related_model.objects.filter(**getBy)` for the relation `base`. */
  function RelatedLookup(schema: Schema, objects: map<ObjRef, Record>, tag: TypeTag, base: string,
                         getBy: map<string, Value>): Result<set<ObjRef>>
    requires IsForeignKey(schema, tag, base)
  {
    Filter(schema, objects, FieldsOf(schema, tag)[base].target, getBy)
  }

  /** The relation `b` is looked up and its lookup finds `o` alone. */
  predicate FindsOnly(schema: Schema, objects: map<ObjRef, Record>, tag: TypeTag, p: Record,
                      g: Groups, force: bool, b: string, o: ObjRef) {
    b in g && Eligible(schema, tag, p, b, force) && RelatedLookup(schema, objects, tag, b, g[b]) == Success({o})
  }

  /** After a successful `update_from_fields`, a relation named in the
      lookups points at the object its lookup found alone, when it was
      eligible; every other attribute keeps the value the plain pass left. */
  lemma RelationSetIff(schema: Schema, objects: map<ObjRef, Record>, tag: TypeTag, rec: Record,
                       fields: Row, force: bool, b: string)
    requires ApplyFields(schema, objects, tag, rec, fields, force).Success?
    ensures PlainPass(schema, tag, rec, fields, force).Success?
    ensures var p := PlainPass(schema, tag, rec, fields, force).value;
      var r := ApplyFields(schema, objects, tag, rec, fields, force).value;
      forall o :: FindsOnly(schema, objects, tag, p, Group(fields), force, b, o) ==> Get(r, b) == Ref(o.id)
    ensures var p := PlainPass(schema, tag, rec, fields, force).value;
      var r := ApplyFields(schema, objects, tag, rec, fields, force).value;
      (forall o :: !FindsOnly(schema, objects, tag, p, Group(fields), force, b, o)) ==> Get(r, b) == Get(p, b)
  {
    var p := PlainPass(schema, tag, rec, fields, force).value;
    var g := Group(fields);
    if b in g && Eligible(schema, tag, p, b, force) {
      var m := RelatedLookup(schema, objects, tag, b, g[b]);
      assert Resolution(schema, objects, tag, p, b, g[b], force).Success?;
      if |m.value| == 1 {
        assert FindsOnly(schema, objects, tag, p, g, force, b, Only(m.value));
        forall o | FindsOnly(schema, objects, tag, p, g, force, b, o) ensures o == Only(m.value) {
          assert o in m.value;
        }
      } else {
        assert forall o :: !FindsOnly(schema, objects, tag, p, g, force, b, o);
      }
    }
  }

  /** `update_from_fields` raises after a successful plain pass exactly when
      some eligible relation's lookup raises; a lookup that finds no object or
      several never does. */
  lemma RefPassFailsIff(schema: Schema, objects: map<ObjRef, Record>, tag: TypeTag, rec: Record,
                        fields: Row, force: bool)
    requires PlainPass(schema, tag, rec, fields, force).Success?
    ensures var p := PlainPass(schema, tag, rec, fields, force).value;
      ApplyFields(schema, objects, tag, rec, fields, force).Failure? <==>
        exists b :: b in Group(fields) && Eligible(schema, tag, p, b, force)
          && RelatedLookup(schema, objects, tag, b, Group(fields)[b]).Failure?
  {
    var p := PlainPass(schema, tag, rec, fields, force).value;
    var g := Group(fields);
    if ApplyFields(schema, objects, tag, rec, fields, force).Failure? {
      var b :| b in g && Resolution(schema, objects, tag, p, b, g[b], force).Failure?;
      assert Eligible(schema, tag, p, b, force);
    }
  }
}
