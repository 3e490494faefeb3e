/** The `performsync` command of the legacy tree
    (`nsync/management/commands/performsync.py`): the check of a sync file's
    header, the turning of its rows into sync records, and the order in
    which the command applies the records of every file. */
module LegacyPerformSync {
  import opened Common
  import opened Store
  import opened Intent
  import opened LegacySync
  import opened LegacyModels

  const MatchFieldNameHeader: string := "match_field_name"
  const ExternalKeyHeader: string := "external_key"
  const DeleteFlagHeader: string := "delete_flag"

  /** `SyncRecordCSVFileHandler.mandatory_headers` */
  const MandatoryHeaders: set<string> := {ExternalKeyHeader, DeleteFlagHeader, MatchFieldNameHeader}

  /** `is_valid()` on the reader's `fieldnames` (`None` for an empty file,
      whose `len` raises `TypeError`): at least four columns, among them the
      three mandatory ones. */
  function IsValid(fieldnames: Option<seq<string>>): Result<bool> {
    match fieldnames
    case None => Failure(TypeError)
    case Some(h) =>
      if |h| < 4 then Success(false)
      else Success(forall m :: m in MandatoryHeaders ==> m in h)
  }

  /** The row is dropped when its match field names a mandatory column or
      none of its columns. */
  predicate Dropped(matchField: Value, rest: Row) {
    (matchField.Str? && matchField.s in MandatoryHeaders) || !(matchField.Str? && HasKey(rest, matchField.s))
  }

  /** The record an accepted row becomes: the key and the flags are popped,
      the flags decoded, and the rest of the row are the record's fields. */
  function MakeRecord(matchField: Value, rest: Row): Result<SyncRecord> {
    var (key, rest2) :- Pop(rest, ExternalKeyHeader);
    var (flag, rest3) :- Pop(rest2, DeleteFlagHeader);
    var actions :- Decode(flag);
    NewSyncRecord(key, actions, matchField, rest3)
  }

  /** One turn of the loop of `get_sync_records()`: `None` for a dropped
      row. */
  function ParseLine(line: Row): Result<Option<SyncRecord>> {
    var (matchField, rest) :- Pop(line, MatchFieldNameHeader);
    if Dropped(matchField, rest) then Success(None)
    else
      var rec :- MakeRecord(matchField, rest);
      Success(Some(rec))
  }

  /** `get_sync_records()` over the rows of the file: the records of the
      accepted rows, in row order; the first row that raises ends it. */
  function SyncRecordsOf(lines: seq<Row>): (r: Result<seq<SyncRecord>>)
    ensures r.Success? ==> |r.value| <= |lines|
    decreases |lines|
  {
    if lines == [] then Success([])
    else
      var p :- ParseLine(lines[0]);
      var rest :- SyncRecordsOf(lines[1..]);
      Success((if p.Some? then [p.value] else []) + rest)
  }

  /** The records gathered so far in front of what the remaining rows give. */
  function Prefixed(pre: seq<SyncRecord>, res: Result<seq<SyncRecord>>): Result<seq<SyncRecord>> {
    if res.Failure? then res else Success(pre + res.value)
  }

  method GetSyncRecords(lines: seq<Row>) returns (r: Result<seq<SyncRecord>>)
    ensures r == SyncRecordsOf(lines)
  {
    var records: seq<SyncRecord> := [];
    assert lines[0..] == lines;
    if SyncRecordsOf(lines).Success? {
      assert records + SyncRecordsOf(lines).value == SyncRecordsOf(lines).value;
    }
    for i := 0 to |lines|
      invariant SyncRecordsOf(lines) == Prefixed(records, SyncRecordsOf(lines[i..]))
    {
      SyncRecordsNext(lines, i, records);
      var line := lines[i];
      var popped := Pop(line, MatchFieldNameHeader);
      if popped.Failure? {
        assert ParseLine(line) == Failure(popped.error);
        return Failure(popped.error);
      }
      var (matchField, rest) := popped.value;
      if Dropped(matchField, rest) {
        assert ParseLine(line) == Success(None);
        assert records + [] == records;
      } else {
        var rec := MakeRecord(matchField, rest);
        if rec.Failure? {
          assert ParseLine(line) == Failure(rec.error);
          return Failure(rec.error);
        }
        assert ParseLine(line) == Success(Some(rec.value));
        records := records + [rec.value];
      }
    }
    assert lines[|lines|..] == [];
    assert records + [] == records;
    r := Success(records);
  }

  // ----- the command -----

  /** One call the command makes: `create_or_update_for_sync_record` or
      `delete_for_sync_record` of one record for one system and model. */
  datatype Step =
    | Upsert(system: SystemId, model: TypeTag, record: SyncRecord)
    | Remove(system: SystemId, model: TypeTag, record: SyncRecord)

  /** The error that ends the command, if any, and the database afterwards. */
  datatype CommandOutcome = CommandOutcome(error: Option<Error>, state: State)

  /** A step against the database; the legacy warning has no effect. The
      delete is the corrected one. */
  ghost function RunStep(schema: Schema, st: State, s: Step): CommandOutcome {
    match s
    case Upsert(system, model, r) =>
      var out := CreateOrUpdateSpec(schema, st, system, model, r);
      CommandOutcome(if out.result.Failure? then Some(out.result.error) else None, out.state)
    case Remove(system, model, r) =>
      var out := DeleteForSyncRecordSpec(schema, st, system, model, r);
      CommandOutcome(out.error, out.state)
  }

  /** Steps one after another; the first that raises ends the run. */
  ghost function RunSteps(schema: Schema, st: State, steps: seq<Step>): CommandOutcome
    decreases |steps|
  {
    if steps == [] then CommandOutcome(None, st)
    else
      var out := RunStep(schema, st, steps[0]);
      if out.error.Some? then out else RunSteps(schema, out.state, steps[1..])
  }

  function Upserts(system: SystemId, model: TypeTag, rs: seq<SyncRecord>): (r: seq<Step>)
    ensures |r| == |rs|
    ensures forall i :: 0 <= i < |r| ==> r[i] == Upsert(system, model, rs[i])
  {
    if rs == [] then [] else [Upsert(system, model, rs[0])] + Upserts(system, model, rs[1..])
  }

  function Removes(system: SystemId, model: TypeTag, rs: seq<SyncRecord>): (r: seq<Step>)
    ensures |r| == |rs|
    ensures forall i :: 0 <= i < |r| ==> r[i] == Remove(system, model, rs[i])
  {
    if rs == [] then [] else [Remove(system, model, rs[0])] + Removes(system, model, rs[1..])
  }

  /** `apply_updates(info)`: a create-or-update per non-delete record. */
  function UpdatesOf(info: SyncInfo): seq<Step> {
    Upserts(info.systemName, info.model, GetNonDeleted(info))
  }

  /** `apply_deletions(info)`: a delete per delete record. */
  function DeletionsOf(info: SyncInfo): seq<Step> {
    Removes(info.systemName, info.model, GetDeleted(info))
  }

  function UpdateSteps(infos: seq<SyncInfo>): seq<Step> {
    if infos == [] then [] else UpdatesOf(infos[0]) + UpdateSteps(infos[1..])
  }

  function DeleteSteps(infos: seq<SyncInfo>): seq<Step> {
    if infos == [] then [] else DeletionsOf(infos[0]) + DeleteSteps(infos[1..])
  }

  /** `handle()`: the updates of every file, then the deletions of every
      file. */
  function Schedule(infos: seq<SyncInfo>): seq<Step> {
    UpdateSteps(infos) + DeleteSteps(infos)
  }

  method ApplyUpdates(db: Database, info: SyncInfo) returns (err: Option<Error>)
    modifies db
    ensures CommandOutcome(err, db.Snapshot()) == RunSteps(db.schema, old(db.Snapshot()), UpdatesOf(info))
  {
    var records := GetNonDeleted(info);
    ghost var steps := UpdatesOf(info);
    for i := 0 to |records|
      invariant RunSteps(db.schema, old(db.Snapshot()), steps) ==
        RunSteps(db.schema, db.Snapshot(), Upserts(info.systemName, info.model, records[i..]))
    {
      assert records[i..][0] == records[i] && records[i..][1..] == records[i + 1..];
      var r := CreateOrUpdateForSyncRecord(db, info.systemName, info.model, records[i]);
      if r.Failure? {
        return Some(r.error);
      }
    }
    err := None;
  }

  method ApplyDeletions(db: Database, info: SyncInfo) returns (err: Option<Error>)
    modifies db
    ensures CommandOutcome(err, db.Snapshot()) == RunSteps(db.schema, old(db.Snapshot()), DeletionsOf(info))
  {
    var records := GetDeleted(info);
    ghost var steps := DeletionsOf(info);
    for i := 0 to |records|
      invariant RunSteps(db.schema, old(db.Snapshot()), steps) ==
        RunSteps(db.schema, db.Snapshot(), Removes(info.systemName, info.model, records[i..]))
    {
      assert records[i..][0] == records[i] && records[i..][1..] == records[i + 1..];
      err := DeleteForSyncRecord(db, info.systemName, info.model, records[i]);
      if err.Some? {
        return;
      }
    }
    err := None;
  }

  method Handle(db: Database, infos: seq<SyncInfo>) returns (err: Option<Error>)
    modifies db
    ensures CommandOutcome(err, db.Snapshot()) == RunSteps(db.schema, old(db.Snapshot()), Schedule(infos))
  {
    for i := 0 to |infos|
      invariant RunSteps(db.schema, old(db.Snapshot()), Schedule(infos)) ==
        RunSteps(db.schema, db.Snapshot(), UpdateSteps(infos[i..]) + DeleteSteps(infos))
    {
      UpdateStepsNext(db.schema, db.Snapshot(), infos, i, DeleteSteps(infos));
      err := ApplyUpdates(db, infos[i]);
      if err.Some? {
        return;
      }
    }
    assert infos[|infos|..] == [];
    assert [] + DeleteSteps(infos) == DeleteSteps(infos);
    for i := 0 to |infos|
      invariant RunSteps(db.schema, old(db.Snapshot()), Schedule(infos)) ==
        RunSteps(db.schema, db.Snapshot(), DeleteSteps(infos[i..]))
    {
      DeleteStepsNext(db.schema, db.Snapshot(), infos, i);
      err := ApplyDeletions(db, infos[i]);
      if err.Some? {
        return;
      }
    }
    err := None;
  }

  // ----- properties -----

  lemma {:induction false} RunStepsConcat(schema: Schema, st: State, a: seq<Step>, b: seq<Step>)
    ensures RunSteps(schema, st, a + b) ==
      (var first := RunSteps(schema, st, a);
       if first.error.Some? then first else RunSteps(schema, first.state, b))
    decreases |a|
  {
    if a == [] {
      assert a + b == b;
    } else {
      assert (a + b)[0] == a[0] && (a + b)[1..] == a[1..] + b;
      var out := RunStep(schema, st, a[0]);
      if out.error.None? {
        RunStepsConcat(schema, out.state, a[1..], b);
      }
    }
  }

  /** The updates still to run after the file `i`. */
  lemma UpdateStepsNext(schema: Schema, st: State, infos: seq<SyncInfo>, i: nat, tail: seq<Step>)
    requires i < |infos|
    ensures RunSteps(schema, st, UpdateSteps(infos[i..]) + tail) ==
      (var first := RunSteps(schema, st, UpdatesOf(infos[i]));
       if first.error.Some? then first else RunSteps(schema, first.state, UpdateSteps(infos[i + 1..]) + tail))
  {
    assert infos[i..][0] == infos[i] && infos[i..][1..] == infos[i + 1..];
    assert UpdateSteps(infos[i..]) + tail == UpdatesOf(infos[i]) + (UpdateSteps(infos[i + 1..]) + tail);
    RunStepsConcat(schema, st, UpdatesOf(infos[i]), UpdateSteps(infos[i + 1..]) + tail);
  }

  /** The deletions still to run after the file `i`. */
  lemma DeleteStepsNext(schema: Schema, st: State, infos: seq<SyncInfo>, i: nat)
    requires i < |infos|
    ensures RunSteps(schema, st, DeleteSteps(infos[i..])) ==
      (var first := RunSteps(schema, st, DeletionsOf(infos[i]));
       if first.error.Some? then first else RunSteps(schema, first.state, DeleteSteps(infos[i + 1..])))
  {
    assert infos[i..][0] == infos[i] && infos[i..][1..] == infos[i + 1..];
    RunStepsConcat(schema, st, DeletionsOf(infos[i]), DeleteSteps(infos[i + 1..]));
  }

  /** The rows still to read after the row `i`. */
  lemma SyncRecordsNext(lines: seq<Row>, i: nat, pre: seq<SyncRecord>)
    requires i < |lines|
    ensures Prefixed(pre, SyncRecordsOf(lines[i..])) ==
      (match ParseLine(lines[i])
       case Failure(e) => Failure(e)
       case Success(p) => Prefixed(pre + (if p.Some? then [p.value] else []), SyncRecordsOf(lines[i + 1..])))
  {
    assert lines[i..][0] == lines[i] && lines[i..][1..] == lines[i + 1..];
    var p := ParseLine(lines[i]);
    var rest := SyncRecordsOf(lines[i + 1..]);
    if p.Success? && rest.Success? {
      var head: seq<SyncRecord> := if p.value.Some? then [p.value.value] else [];
      ConcatAssoc(pre, head, rest.value);
    }
  }

  /** A file is valid exactly when it has at least four columns and the
      three mandatory ones are among them; a file without a header row
      raises. */
  lemma IsValidIff(fieldnames: Option<seq<string>>)
    ensures IsValid(fieldnames).Failure? <==> fieldnames.None?
    ensures fieldnames.Some? && |fieldnames.value| < 4 ==> IsValid(fieldnames) == Success(false)
    ensures fieldnames.Some? ==>
      (IsValid(fieldnames) == Success(true) <==>
         |fieldnames.value| >= 4 && ExternalKeyHeader in fieldnames.value
         && DeleteFlagHeader in fieldnames.value && MatchFieldNameHeader in fieldnames.value)
  {
  }

  /** Without a `match_field_name` column the row raises `KeyError`. */
  lemma ParseLineMissingMatchField(line: Row)
    requires !HasKey(line, MatchFieldNameHeader)
    ensures ParseLine(line) == Failure(KeyError(MatchFieldNameHeader))
  {
  }

  /** A row whose match field names a mandatory column is dropped. */
  lemma ParseLineDropsMandatory(line: Row, s: string)
    requires Lookup(line, MatchFieldNameHeader) == Some(Str(s)) && s in MandatoryHeaders
    ensures ParseLine(line) == Success(None)
  {
  }

  /** A row whose match field is not one of its columns is dropped. */
  lemma ParseLineDropsUnknown(line: Row, mf: Value)
    requires Lookup(line, MatchFieldNameHeader) == Some(mf)
    requires !(mf.Str? && HasKey(line, mf.s))
    ensures ParseLine(line) == Success(None)
  {
    if mf.Str? {
      HasKeyWithout(line, {MatchFieldNameHeader}, mf.s);
    }
  }

  /** A row whose match field names one of its other columns, that holds the
      two other mandatory columns, decodable flags and no column named
      after the record's own parameters, becomes the record with the three
      mandatory columns removed from its fields. */
  lemma ParseLineAccepts(line: Row, s: string, key: Value, flag: Value, actions: SyncActions)
    requires Lookup(line, MatchFieldNameHeader) == Some(Str(s)) && s != "" && s !in MandatoryHeaders && HasKey(line, s)
    requires Lookup(line, ExternalKeyHeader) == Some(key) && Lookup(line, DeleteFlagHeader) == Some(flag)
    requires Decode(flag) == Success(actions)
    requires !HasKey(line, "self") && !HasKey(line, "sync_actions")
    ensures ParseLine(line) == Success(Some(SyncRecord(key, actions, s, Without(line, MandatoryHeaders))))
  {
    var rest := Without(line, {MatchFieldNameHeader});
    PopMatchField(line, s, key, flag);
    MakeRecordAccepts(line, rest, s, key, flag, actions);
    ParseLineSteps(line, Str(s), rest);
  }

  lemma PopMatchField(line: Row, s: string, key: Value, flag: Value)
    requires Lookup(line, MatchFieldNameHeader) == Some(Str(s)) && s !in MandatoryHeaders && HasKey(line, s)
    requires Lookup(line, ExternalKeyHeader) == Some(key) && Lookup(line, DeleteFlagHeader) == Some(flag)
    ensures var rest := Without(line, {MatchFieldNameHeader});
      Pop(line, MatchFieldNameHeader) == Success((Str(s), rest)) && !Dropped(Str(s), rest)
      && Lookup(rest, ExternalKeyHeader) == Some(key) && Lookup(rest, DeleteFlagHeader) == Some(flag)
  {
    var rest := Without(line, {MatchFieldNameHeader});
    HasKeyWithout(line, {MatchFieldNameHeader}, s);
    LookupWithout(line, {MatchFieldNameHeader}, ExternalKeyHeader);
    LookupWithout(line, {MatchFieldNameHeader}, DeleteFlagHeader);
  }

  lemma ParseLineSteps(line: Row, matchField: Value, rest: Row)
    requires Pop(line, MatchFieldNameHeader) == Success((matchField, rest))
    requires !Dropped(matchField, rest) && MakeRecord(matchField, rest).Success?
    ensures ParseLine(line) == Success(Some(MakeRecord(matchField, rest).value))
  {
  }

  /** The three pops remove exactly the mandatory columns. */
  lemma PopsMandatory(line: Row)
    ensures Without(Without(Without(line, {MatchFieldNameHeader}), {ExternalKeyHeader}), {DeleteFlagHeader})
      == Without(line, MandatoryHeaders)
  {
    WithoutWithout(line, {MatchFieldNameHeader}, {ExternalKeyHeader});
    WithoutWithout(line, {MatchFieldNameHeader} + {ExternalKeyHeader}, {DeleteFlagHeader});
    assert {MatchFieldNameHeader} + {ExternalKeyHeader} + {DeleteFlagHeader} == MandatoryHeaders;
  }

  lemma MakeRecordAccepts(line: Row, rest: Row, s: string, key: Value, flag: Value, actions: SyncActions)
    requires rest == Without(line, {MatchFieldNameHeader})
    requires s != "" && s !in MandatoryHeaders && HasKey(line, s)
    requires Lookup(rest, ExternalKeyHeader) == Some(key) && Lookup(rest, DeleteFlagHeader) == Some(flag)
    requires Decode(flag) == Success(actions)
    requires !HasKey(line, "self") && !HasKey(line, "sync_actions")
    ensures MakeRecord(Str(s), rest) == Success(SyncRecord(key, actions, s, Without(line, MandatoryHeaders)))
  {
    var rest2 := Without(rest, {ExternalKeyHeader});
    var fields := Without(line, MandatoryHeaders);
    assert Pop(rest, ExternalKeyHeader) == Success((key, rest2));
    LookupWithout(rest, {ExternalKeyHeader}, DeleteFlagHeader);
    PopsMandatory(line);
    assert Pop(rest2, DeleteFlagHeader) == Success((flag, fields));
    MakeRecordSteps(Str(s), rest, key, rest2, flag, fields, actions);
    FieldsFree(line, s);
    NewSyncRecordFree(key, actions, s, fields);
  }

  /** A record over fields that hold the match field and no parameter name
      is built as given. */
  lemma NewSyncRecordFree(key: Value, actions: SyncActions, s: string, fields: Row)
    requires s != "" && HasKey(fields, s)
    requires forall k :: k in ParameterNames ==> !HasKey(fields, k)
    ensures NewSyncRecord(key, actions, Str(s), fields) == Success(SyncRecord(key, actions, s, fields))
  {
  }

  /** The record built from a row whose pops and decoding succeed. */
  lemma MakeRecordSteps(matchField: Value, rest: Row, key: Value, rest2: Row, flag: Value, fields: Row, actions: SyncActions)
    requires Pop(rest, ExternalKeyHeader) == Success((key, rest2))
    requires Pop(rest2, DeleteFlagHeader) == Success((flag, fields))
    requires Decode(flag) == Success(actions)
    ensures MakeRecord(matchField, rest) == NewSyncRecord(key, actions, matchField, fields)
  {
  }

  /** What is left of an accepted row holds its match field and no column
      named after a parameter of the record. */
  lemma FieldsFree(line: Row, s: string)
    requires s !in MandatoryHeaders && HasKey(line, s)
    requires !HasKey(line, "self") && !HasKey(line, "sync_actions")
    ensures HasKey(Without(line, MandatoryHeaders), s)
    ensures forall k :: k in ParameterNames ==> !HasKey(Without(line, MandatoryHeaders), k)
  {
    HasKeyWithout(line, MandatoryHeaders, s);
    forall k | k in ParameterNames ensures !HasKey(Without(line, MandatoryHeaders), k) {
      HasKeyWithout(line, MandatoryHeaders, k);
    }
  }

  /** The record an accepted row becomes names one of its fields as the
      match field, and its fields are the row without the mandatory columns. */
  lemma ParseLineRecord(line: Row)
    requires ParseLine(line).Success? && ParseLine(line).value.Some?
    ensures var x := ParseLine(line).value.value;
      WellFormedRecord(x) && x.fields == Without(line, MandatoryHeaders)
      && forall k :: k in MandatoryHeaders ==> !HasKey(x.fields, k)
  {
    var (mf, rest) := Pop(line, MatchFieldNameHeader).value;
    var (key, rest2) := Pop(rest, ExternalKeyHeader).value;
    var (flag, rest3) := Pop(rest2, DeleteFlagHeader).value;
    var actions := Decode(flag).value;
    assert MakeRecord(mf, rest) == NewSyncRecord(key, actions, mf, rest3);
    NewSyncRecordIff(key, actions, mf, rest3);
    PopsMandatory(line);
    forall k | k in MandatoryHeaders ensures !HasKey(rest3, k) {
      HasKeyWithout(line, MandatoryHeaders, k);
    }
  }

  /** Every record of a file is well formed and carries none of the
      mandatory columns among its fields. */
  lemma {:induction false} SyncRecordsWellFormed(lines: seq<Row>)
    requires SyncRecordsOf(lines).Success?
    ensures forall x :: x in SyncRecordsOf(lines).value ==>
      WellFormedRecord(x) && forall k :: k in MandatoryHeaders ==> !HasKey(x.fields, k)
    decreases |lines|
  {
    if lines != [] {
      SyncRecordsWellFormed(lines[1..]);
      if ParseLine(lines[0]).value.Some? {
        ParseLineRecord(lines[0]);
      }
    }
  }

  /** A file with no rows gives no records. */
  lemma NoRowsNoRecords()
    ensures SyncRecordsOf([]) == Success([])
  {
  }

  /** Records keep the order of their rows: the records of two runs of rows
      are those of the first run followed by those of the second, and a row
      that raises ends the whole. */
  lemma {:induction false} SyncRecordsConcat(a: seq<Row>, b: seq<Row>)
    ensures SyncRecordsOf(a + b) ==
      (match SyncRecordsOf(a)
       case Failure(e) => Failure(e)
       case Success(ra) => Prefixed(ra, SyncRecordsOf(b)))
    decreases |a|
  {
    if a == [] {
      assert a + b == b;
      if SyncRecordsOf(b).Success? {
        assert [] + SyncRecordsOf(b).value == SyncRecordsOf(b).value;
      }
    } else {
      assert (a + b)[0] == a[0] && (a + b)[1..] == a[1..] + b;
      SyncRecordsConcat(a[1..], b);
      var p := ParseLine(a[0]);
      if p.Success? && SyncRecordsOf(a[1..]).Success? && SyncRecordsOf(b).Success? {
        var head: seq<SyncRecord> := if p.value.Some? then [p.value.value] else [];
        assert head + (SyncRecordsOf(a[1..]).value + SyncRecordsOf(b).value)
          == (head + SyncRecordsOf(a[1..]).value) + SyncRecordsOf(b).value;
      }
    }
  }

  lemma {:induction false} UpdateStepsUpsert(infos: seq<SyncInfo>)
    ensures forall s :: s in UpdateSteps(infos) ==> s.Upsert? && !IsDeleteRecord(s.record)
    decreases |infos|
  {
    if infos != [] {
      UpdateStepsUpsert(infos[1..]);
      Partition(infos[0]);
      assert forall s :: s in UpdatesOf(infos[0]) ==> s.Upsert? && !IsDeleteRecord(s.record) by {
        forall s | s in UpdatesOf(infos[0]) ensures s.Upsert? && !IsDeleteRecord(s.record) {
          var i :| 0 <= i < |UpdatesOf(infos[0])| && UpdatesOf(infos[0])[i] == s;
          assert GetNonDeleted(infos[0])[i] in GetNonDeleted(infos[0]);
        }
      }
    }
  }

  lemma {:induction false} DeleteStepsRemove(infos: seq<SyncInfo>)
    ensures forall s :: s in DeleteSteps(infos) ==> s.Remove? && IsDeleteRecord(s.record)
    decreases |infos|
  {
    if infos != [] {
      DeleteStepsRemove(infos[1..]);
      Partition(infos[0]);
      assert forall s :: s in DeletionsOf(infos[0]) ==> s.Remove? && IsDeleteRecord(s.record) by {
        forall s | s in DeletionsOf(infos[0]) ensures s.Remove? && IsDeleteRecord(s.record) {
          var i :| 0 <= i < |DeletionsOf(infos[0])| && DeletionsOf(infos[0])[i] == s;
          assert GetDeleted(infos[0])[i] in GetDeleted(infos[0]);
        }
      }
    }
  }

  /** The command creates or updates with the non-delete records of every
      file before it deletes with any delete record, whatever the order of
      the files: every create-or-update precedes every delete. */
  lemma UpdatesBeforeDeletions(infos: seq<SyncInfo>)
    ensures var s := Schedule(infos);
      forall i, j :: 0 <= i < j < |s| && s[i].Remove? ==> s[j].Remove?
    ensures forall s :: s in Schedule(infos) ==> (s.Upsert? <==> !IsDeleteRecord(s.record))
  {
    UpdateStepsUpsert(infos);
    DeleteStepsRemove(infos);
    var u, d := UpdateSteps(infos), DeleteSteps(infos);
    var s := Schedule(infos);
    forall i | 0 <= i < |s| ensures s[i].Remove? <==> i >= |u| {
      if i < |u| {
        assert s[i] == u[i] && u[i] in u;
      } else {
        assert s[i] == d[i - |u|] && d[i - |u|] in d;
      }
    }
  }

  /** One file updates a record and another deletes one: in either order of
      the files the update runs first and the delete last, so the delete
      wins. */
  lemma DeleteWins(a: SystemId, b: SystemId, model: TypeTag, u: SyncRecord, d: SyncRecord)
    requires !IsDeleteRecord(u) && IsDeleteRecord(d)
    ensures Schedule([SyncInfo(a, model, [u]), SyncInfo(b, model, [d])]) == [Upsert(a, model, u), Remove(b, model, d)]
    ensures Schedule([SyncInfo(b, model, [d]), SyncInfo(a, model, [u])]) == [Upsert(a, model, u), Remove(b, model, d)]
  {
    var iu, id := SyncInfo(a, model, [u]), SyncInfo(b, model, [d]);
    SingleRecordSteps(a, model, u);
    SingleRecordSteps(b, model, d);
    TwoFileSteps(iu, id);
    TwoFileSteps(id, iu);
    assert [Upsert(a, model, u)] + [] == [] + [Upsert(a, model, u)] == [Upsert(a, model, u)];
    assert [Remove(b, model, d)] + [] == [] + [Remove(b, model, d)] == [Remove(b, model, d)];
  }

  /** The steps of a file holding one record. */
  lemma SingleRecordSteps(system: SystemId, model: TypeTag, r: SyncRecord)
    ensures UpdatesOf(SyncInfo(system, model, [r])) == if IsDeleteRecord(r) then [] else [Upsert(system, model, r)]
    ensures DeletionsOf(SyncInfo(system, model, [r])) == if IsDeleteRecord(r) then [Remove(system, model, r)] else []
  {
    assert [r][1..] == [];
    if IsDeleteRecord(r) {
      assert NonDeleted([r]) == [] + [] && Deleted([r]) == [r] + [];
    } else {
      assert NonDeleted([r]) == [r] + [] && Deleted([r]) == [] + [];
    }
  }

  /** The steps of two files. */
  lemma TwoFileSteps(x: SyncInfo, y: SyncInfo)
    ensures UpdateSteps([x, y]) == UpdatesOf(x) + UpdatesOf(y)
    ensures DeleteSteps([x, y]) == DeletionsOf(x) + DeletionsOf(y)
  {
    var s := [x, y];
    assert s[0] == x && s[1..] == [y] && s[1..][0] == y && s[1..][1..] == [];
    assert UpdateSteps(s[1..]) == UpdatesOf(y) + [] && UpdatesOf(y) + [] == UpdatesOf(y);
    assert DeleteSteps(s[1..]) == DeletionsOf(y) + [] && DeletionsOf(y) + [] == DeletionsOf(y);
  }
}
