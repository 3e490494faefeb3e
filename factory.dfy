/** `ActionsBuilder` and `CsvActionsBuilder` (also `CsvActionFactory`): from
    a decoded intent, or from a raw row, to the list of actions to run. */
module Factory {
  import opened Common
  import opened Store
  import opened Intent
  import opened Actions
  import opened ActionProperties

  /** The builder's configuration: the model (possibly missing) and the
      external system (possibly none). */
  datatype Builder = Builder(model: Option<TypeTag>, system: Option<SystemId>)

  /** `is_externally_mappable(external_key)`: a system is configured and the
      key is a string that is not blank once stripped. */
  function IsExternallyMappable(b: Builder, key: Value): bool {
    if b.system.None? then false
    else if key.Null? then false
    else if !key.Str? then false
    else Strip(key.s) != ""
  }

  /** Mappable means: a system, and a string key with a character that is not
      whitespace. */
  lemma MappableIff(b: Builder, key: Value)
    ensures IsExternallyMappable(b, key) <==>
      b.system.Some? && key.Str? && exists i :: 0 <= i < |key.s| && !IsSpace(key.s[i])
  {
    if key.Str? {
      StripEmptyIff(key.s);
    }
  }

  /** An action as `build` appends it: wrapped in `AlignExternalReference`
      when the key is mappable. */
  function Aligned(b: Builder, key: Value, a: Action, m: ModelAction): Action {
    if IsExternallyMappable(b, key) then AlignExternalReference(b.system.value, m.model, key.s, a) else a
  }

  /** The list `build` returns: the model action is constructed first (and
      raises `ValueError` when it cannot be), then the actions are appended
      in the order impotent, delete, create, update. */
  function Build(b: Builder, intent: SyncActions, matchField: Value, key: Value, fields: Row): Result<seq<Action>> {
    var m :- NewModelAction(b.model, matchField, fields);
    Success(BasePart(intent, m) + DeletePart(b, intent, key, m) + CreatePart(b, intent, key, m) + UpdatePart(b, intent, key, m))
  }

  function BasePart(intent: SyncActions, m: ModelAction): seq<Action> {
    if IsImpotent(intent) then [BaseAction(m)] else []
  }

  function DeletePart(b: Builder, intent: SyncActions, key: Value, m: ModelAction): seq<Action> {
    if !intent.delete then []
    else if IsExternallyMappable(b, key) then
      [if intent.force then DeleteModel(m) else DeleteIfOnlyReference(b.system.value, key.s, m),
       DeleteExternalReference(b.system.value, key.s)]
    else if intent.force then [DeleteModel(m)]
    else []
  }

  function CreatePart(b: Builder, intent: SyncActions, key: Value, m: ModelAction): seq<Action> {
    if intent.create then [Aligned(b, key, CreateModel(m), m)] else []
  }

  function UpdatePart(b: Builder, intent: SyncActions, key: Value, m: ModelAction): seq<Action> {
    if intent.update then [Aligned(b, key, UpdateModel(m, intent.force), m)] else []
  }

  /** `build(sync_actions, match_field_name, external_system_key, fields)`,
      appending to a list as the source does. */
  method BuildActions(b: Builder, intent: SyncActions, matchField: Value, key: Value, fields: Row)
    returns (r: Result<seq<Action>>)
    ensures r == Build(b, intent, matchField, key, fields)
  {
    var actions: seq<Action> := [];
    var m := NewModelAction(b.model, matchField, fields);
    if m.Failure? {
      return Failure(m.error);
    }
    var mappable := IsExternallyMappable(b, key);
    if IsImpotent(intent) {
      actions := actions + [BaseAction(m.value)];
    }
    assert actions == BasePart(intent, m.value);
    if intent.delete {
      var action := DeleteModel(m.value);
      if mappable {
        if !intent.force {
          action := DeleteIfOnlyReference(b.system.value, key.s, m.value);
        }
        actions := actions + [action];
        actions := actions + [DeleteExternalReference(b.system.value, key.s)];
      } else if intent.force {
        actions := actions + [action];
      }
    }
    assert actions == BasePart(intent, m.value) + DeletePart(b, intent, key, m.value);
    if intent.create {
      var action := CreateModel(m.value);
      if mappable {
        action := AlignExternalReference(b.system.value, m.value.model, key.s, action);
      }
      actions := actions + [action];
    }
    assert actions == BasePart(intent, m.value) + DeletePart(b, intent, key, m.value) + CreatePart(b, intent, key, m.value);
    if intent.update {
      var action := UpdateModel(m.value, intent.force);
      if mappable {
        action := AlignExternalReference(b.system.value, m.value.model, key.s, action);
      }
      actions := actions + [action];
    }
    assert actions == BasePart(intent, m.value) + DeletePart(b, intent, key, m.value) + CreatePart(b, intent, key, m.value) + UpdatePart(b, intent, key, m.value);
    r := Success(actions);
  }

  /** `build` raises exactly when the model action cannot be constructed. */
  lemma BuildFailsIff(b: Builder, intent: SyncActions, matchField: Value, key: Value, fields: Row)
    ensures Build(b, intent, matchField, key, fields).Failure? <==>
      !(b.model.Some? && matchField.Str? && matchField.s != "" && HasKey(fields, matchField.s))
    ensures Build(b, intent, matchField, key, fields).Failure? ==> Build(b, intent, matchField, key, fields).error == ValueError
  {
  }

  /** An impotent intent gives the lone base model action. */
  lemma BuildImpotent(b: Builder, intent: SyncActions, matchField: Value, key: Value, fields: Row)
    requires IsImpotent(intent)
    requires NewModelAction(b.model, matchField, fields).Success?
    ensures Build(b, intent, matchField, key, fields) == Success([BaseAction(NewModelAction(b.model, matchField, fields).value)])
  {
    var m := NewModelAction(b.model, matchField, fields).value;
    var e: seq<Action> := [];
    assert Build(b, intent, matchField, key, fields) == Success([BaseAction(m)] + e + e + e);
    assert [BaseAction(m)] + e + e + e == [BaseAction(m)];
  }

  /** The four shapes of a delete: nothing (unforced, unmappable), a plain
      delete (forced, unmappable), a delete-if-only-reference then the
      mapping's removal (unforced, mappable), a plain delete then the
      mapping's removal (forced, mappable). */
  lemma BuildDelete(b: Builder, intent: SyncActions, matchField: Value, key: Value, fields: Row)
    requires Intent.Valid(intent) && intent.delete
    requires NewModelAction(b.model, matchField, fields).Success?
    ensures var m := NewModelAction(b.model, matchField, fields).value;
      var r := Build(b, intent, matchField, key, fields).value;
      if !IsExternallyMappable(b, key) then
        r == (if intent.force then [DeleteModel(m)] else [])
      else
        var sys, k := b.system.value, key.s;
        r == (if intent.force then [DeleteModel(m), DeleteExternalReference(sys, k)]
              else [DeleteIfOnlyReference(sys, k, m), DeleteExternalReference(sys, k)])
  {
  }

  /** Without delete, the create comes before the update, each appears
      exactly when its flag is set, each is wrapped once in Align exactly
      when the key is mappable, that wrapper carries the builder's system,
      the model and the row's key, and the update carries the force flag. */
  lemma BuildCreateUpdate(b: Builder, intent: SyncActions, matchField: Value, key: Value, fields: Row)
    requires !intent.delete && !IsImpotent(intent)
    requires NewModelAction(b.model, matchField, fields).Success?
    ensures var m := NewModelAction(b.model, matchField, fields).value;
      var r := Build(b, intent, matchField, key, fields).value;
      |r| == (if intent.create then 1 else 0) + (if intent.update then 1 else 0)
      && (forall i :: 0 <= i < |r| ==> (r[i].AlignExternalReference? <==> IsExternallyMappable(b, key)))
      && (forall i :: 0 <= i < |r| && r[i].AlignExternalReference? ==>
            r[i].system == b.system.value && r[i].model == b.model.value && r[i].key == key.s && !r[i].inner.AlignExternalReference?)
      && (intent.create ==> Core(r[0]) == CreateModel(m) && Type(r[0]) == "create")
      && (intent.update ==> Core(r[|r| - 1]) == UpdateModel(m, intent.force) && Type(r[|r| - 1]) == "update")
  {
    var m := NewModelAction(b.model, matchField, fields).value;
    var r := Build(b, intent, matchField, key, fields).value;
    if intent.create {
      TypeCases(r[0]);
    }
    if intent.update {
      TypeCases(r[|r| - 1]);
    }
  }

  /** Every action of the list has a type the intent asked for: `''` only
      for an impotent intent, and otherwise one of its flags. */
  lemma BuildTypes(b: Builder, intent: SyncActions, matchField: Value, key: Value, fields: Row)
    requires Intent.Valid(intent)
    requires Build(b, intent, matchField, key, fields).Success?
    ensures var r := Build(b, intent, matchField, key, fields).value;
      forall a :: a in r ==>
        (Type(a) == "" <==> IsImpotent(intent))
        && (Type(a) == "create" ==> intent.create)
        && (Type(a) == "update" ==> intent.update)
        && (Type(a) == "delete" ==> intent.delete)
  {
    var m := NewModelAction(b.model, matchField, fields).value;
    PartsAsked(b, intent, key, m);
  }

  lemma PartsAsked(b: Builder, intent: SyncActions, key: Value, m: ModelAction)
    requires Intent.Valid(intent)
    ensures var r := BasePart(intent, m) + DeletePart(b, intent, key, m) + CreatePart(b, intent, key, m) + UpdatePart(b, intent, key, m);
      forall a :: a in r ==> TypeAsked(intent, a)
  {
    var p1, p2 := BasePart(intent, m), DeletePart(b, intent, key, m);
    var p3, p4 := CreatePart(b, intent, key, m), UpdatePart(b, intent, key, m);
    assert forall a :: a in p1 ==> TypeAsked(intent, a);
    assert forall a :: a in p2 ==> TypeAsked(intent, a);
    assert forall a :: a in p3 ==> TypeAsked(intent, a) by {
      if intent.create { assert Type(p3[0]) == "create"; }
    }
    assert forall a :: a in p4 ==> TypeAsked(intent, a) by {
      if intent.update { assert Type(p4[0]) == "update"; }
    }
    forall a | a in p1 + p2 + p3 + p4 ensures TypeAsked(intent, a) {
      assert a in p1 || a in p2 || a in p3 || a in p4;
    }
  }

  /** The type of `a` is one the intent asks for. */
  predicate TypeAsked(intent: SyncActions, a: Action) {
    (Type(a) == "" <==> IsImpotent(intent))
    && (Type(a) == "create" ==> intent.create)
    && (Type(a) == "update" ==> intent.update)
    && (Type(a) == "delete" ==> intent.delete)
  }

  // ----- from a raw row -----

  const ActionFlagsLabel := "action_flags"
  const MatchFieldNameLabel := "match_field_name"
  const ExternalKeyLabel := "external_key"

  /** What `from_dict(raw_values)` returns, and what is left of the caller's
      dict afterwards (the reserved keys are popped in place, one by one, so
      a `KeyError` for the match field name comes after the action flags are
      gone). A missing dict (`None`) or an empty one gives no actions. */
  function FromDict(b: Builder, raw: Option<Row>): (Result<seq<Action>>, Option<Row>) {
    if raw.None? || raw.value == [] then (Success([]), raw)
    else
      var row := raw.value;
      match Pop(row, ActionFlagsLabel)
      case Failure(e) => (Failure(e), raw)
      case Success((flags, row1)) =>
        match Pop(row1, MatchFieldNameLabel)
        case Failure(e) => (Failure(e), Some(row1))
        case Success((matchField, row2)) =>
          var (key, rest) := PopOr(row2, ExternalKeyLabel);
          match Decode(flags)
          case Failure(e) => (Failure(e), Some(rest))
          case Success(intent) => (Build(b, intent, matchField, key, rest), Some(rest))
  }

  /** The caller's dict, which `from_dict` pops from. */
  class RawValues {
    var entries: Row
    constructor (entries: Row)
      ensures this.entries == entries
    {
      this.entries := entries;
    }
  }

  /** `CsvActionsBuilder.from_dict`, popping the reserved keys in place. */
  method FromDictInPlace(b: Builder, raw: RawValues?) returns (r: Result<seq<Action>>)
    modifies raw
    ensures raw == null ==> r == FromDict(b, None).0
    ensures raw != null ==> (r, Some(raw.entries)) == FromDict(b, Some(old(raw.entries)))
  {
    if raw == null || raw.entries == [] {
      return Success([]);
    }
    var flags := Pop(raw.entries, ActionFlagsLabel);
    if flags.Failure? {
      return Failure(flags.error);
    }
    raw.entries := flags.value.1;
    var matchField := Pop(raw.entries, MatchFieldNameLabel);
    if matchField.Failure? {
      return Failure(matchField.error);
    }
    raw.entries := matchField.value.1;
    var key := PopOr(raw.entries, ExternalKeyLabel);
    raw.entries := key.1;
    var intent := Decode(flags.value.0);
    if intent.Failure? {
      return Failure(intent.error);
    }
    r := BuildActions(b, intent.value, matchField.value.0, key.0, raw.entries);
  }

  predicate Reserved(k: string) {
    k == ActionFlagsLabel || k == MatchFieldNameLabel || k == ExternalKeyLabel
  }

  /** The three pops of `from_dict`, as one removal. */
  lemma PopsCompose(row: Row)
    ensures PopOr(Without(Without(row, {ActionFlagsLabel}), {MatchFieldNameLabel}), ExternalKeyLabel)
      == (match Lookup(row, ExternalKeyLabel) case Some(v) => v case None => Null,
          Without(row, {ActionFlagsLabel, MatchFieldNameLabel, ExternalKeyLabel}))
  {
    var row2 := Without(Without(row, {ActionFlagsLabel}), {MatchFieldNameLabel});
    WithoutWithout(row, {ActionFlagsLabel}, {MatchFieldNameLabel});
    WithoutWithout(row, {ActionFlagsLabel, MatchFieldNameLabel}, {ExternalKeyLabel});
    assert {ActionFlagsLabel} + {MatchFieldNameLabel} == {ActionFlagsLabel, MatchFieldNameLabel};
    assert {ActionFlagsLabel, MatchFieldNameLabel} + {ExternalKeyLabel} == {ActionFlagsLabel, MatchFieldNameLabel, ExternalKeyLabel};
    LookupWithout(row, {ActionFlagsLabel, MatchFieldNameLabel}, ExternalKeyLabel);
    if Lookup(row2, ExternalKeyLabel).None? {
      WithoutAbsent(row2, ExternalKeyLabel);
    }
  }

  /** `from_dict` on a row with both mandatory keys is `build` over the
      decoded flags, the match field name, the external key (or `None`) and
      the row with exactly the three reserved keys removed; the caller's dict
      is that remainder afterwards. */
  lemma FromDictBuilds(b: Builder, row: Row)
    requires HasKey(row, ActionFlagsLabel) && HasKey(row, MatchFieldNameLabel)
    ensures var flags := Lookup(row, ActionFlagsLabel).value;
      var matchField := Lookup(row, MatchFieldNameLabel).value;
      var key := match Lookup(row, ExternalKeyLabel) case Some(v) => v case None => Null;
      var rest := Without(row, {ActionFlagsLabel, MatchFieldNameLabel, ExternalKeyLabel});
      FromDict(b, Some(row)) ==
        (match Decode(flags)
         case Failure(e) => Failure(e)
         case Success(intent) => Build(b, intent, matchField, key, rest),
         Some(rest))
  {
    LookupWithout(row, {ActionFlagsLabel}, MatchFieldNameLabel);
    PopsCompose(row);
  }

  /** What is left of the caller's dict is the row without the reserved
      keys. */
  lemma FromDictRest(row: Row)
    ensures var rest := Without(row, {ActionFlagsLabel, MatchFieldNameLabel, ExternalKeyLabel});
      forall e :: e in rest <==> e in row && !Reserved(e.0)
  {
  }

  /** A missing dict or an empty one gives no actions and is left alone. */
  lemma FromDictEmpty(b: Builder, raw: Option<Row>)
    requires raw.None? || raw.value == []
    ensures FromDict(b, raw) == (Success([]), raw)
  {
  }

  /** A missing `action_flags` or `match_field_name` raises `KeyError` for
      that key. */
  lemma FromDictMissingKeys(b: Builder, row: Row)
    requires row != []
    ensures !HasKey(row, ActionFlagsLabel) ==> FromDict(b, Some(row)) == (Failure(KeyError(ActionFlagsLabel)), Some(row))
    ensures HasKey(row, ActionFlagsLabel) && !HasKey(row, MatchFieldNameLabel) ==>
      FromDict(b, Some(row)) == (Failure(KeyError(MatchFieldNameLabel)), Some(Without(row, {ActionFlagsLabel})))
  {
    if HasKey(row, ActionFlagsLabel) {
      LookupWithout(row, {ActionFlagsLabel}, MatchFieldNameLabel);
    }
  }
}
