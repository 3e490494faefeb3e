/** The record types of the legacy tree (`nsync/sync.py`): one parsed row
    of a sync file (`SyncRecord`) and the records of one file for one
    external system and model (`SyncInfo`). */
module LegacySync {
  import opened Common
  import opened Store
  import opened Intent

  /** A row's key, its decoded actions, the name of the match field and the
      remaining columns (the `**kwargs` of the constructor). */
  datatype SyncRecord = SyncRecord(externalKey: Value, syncActions: SyncActions, matchField: string, fields: Row)

  /** The names of the constructor's own parameters: a keyword argument with
      one of these names clashes with them. */
  const ParameterNames: set<string> := {"self", "external_key", "sync_actions", "match_field_name"}

  /** `SyncRecord(external_key, sync_actions, match_field_name, **kwargs)`.
      Python refuses a keyword that repeats a parameter with `TypeError`
      before the body runs; the body refuses a falsy match field name and
      one that is not among the keyword arguments with `ValueError`. */
  function NewSyncRecord(externalKey: Value, actions: SyncActions, matchField: Value, kwargs: Row): Result<SyncRecord> {
    if exists k :: k in ParameterNames && HasKey(kwargs, k) then Failure(TypeError)
    else if !Truthy(matchField) then Failure(ValueError)
    else if !matchField.Str? || !HasKey(kwargs, matchField.s) then Failure(ValueError)
    else Success(SyncRecord(externalKey, actions, matchField.s, kwargs))
  }

  /** What every constructed record satisfies: it names a match field, and
      that field is one of its columns. */
  predicate WellFormedRecord(r: SyncRecord) {
    r.matchField != "" && HasKey(r.fields, r.matchField)
  }

  /** `is_externally_mappable()` returns the key itself; as a condition it
      is the key's truthiness. */
  predicate IsExternallyMappable(r: SyncRecord) {
    Truthy(r.externalKey)
  }

  /** `is_delete_record()` */
  predicate IsDeleteRecord(r: SyncRecord) {
    r.syncActions.delete
  }

  /** `record.fields[record.match_field_name]` */
  function MatchFieldValue(r: SyncRecord): Result<Value> {
    match Lookup(r.fields, r.matchField)
    case Some(v) => Success(v)
    case None => Failure(KeyError(r.matchField))
  }

  datatype SyncInfo = SyncInfo(systemName: SystemId, model: TypeTag, records: seq<SyncRecord>)

  /** `get_all_records()` */
  function GetAllRecords(info: SyncInfo): seq<SyncRecord> {
    info.records
  }

  /** The list comprehension of `get_non_deleted()`. */
  function NonDeleted(rs: seq<SyncRecord>): (r: seq<SyncRecord>)
    ensures forall x :: x in r ==> x in rs && !IsDeleteRecord(x)
    ensures |r| <= |rs|
  {
    if rs == [] then []
    else (if IsDeleteRecord(rs[0]) then [] else [rs[0]]) + NonDeleted(rs[1..])
  }

  /** The list comprehension of `get_deleted()`. */
  function Deleted(rs: seq<SyncRecord>): (r: seq<SyncRecord>)
    ensures forall x :: x in r ==> x in rs && IsDeleteRecord(x)
    ensures |r| <= |rs|
  {
    if rs == [] then []
    else (if IsDeleteRecord(rs[0]) then [rs[0]] else []) + Deleted(rs[1..])
  }

  function GetNonDeleted(info: SyncInfo): seq<SyncRecord> {
    NonDeleted(info.records)
  }

  function GetDeleted(info: SyncInfo): seq<SyncRecord> {
    Deleted(info.records)
  }

  // ----- properties -----

  /** The constructor succeeds exactly when no keyword clashes with a
      parameter and the match field names one of the keyword arguments; the
      record it builds keeps every argument. */
  lemma NewSyncRecordIff(externalKey: Value, actions: SyncActions, matchField: Value, kwargs: Row)
    ensures NewSyncRecord(externalKey, actions, matchField, kwargs).Success? <==>
      (forall k :: k in ParameterNames ==> !HasKey(kwargs, k))
      && matchField.Str? && matchField.s != "" && HasKey(kwargs, matchField.s)
    ensures NewSyncRecord(externalKey, actions, matchField, kwargs).Success? ==>
      var r := NewSyncRecord(externalKey, actions, matchField, kwargs).value;
      WellFormedRecord(r) && r.externalKey == externalKey && r.syncActions == actions
      && r.fields == kwargs && MatchFieldValue(r).Success?
  {
  }

  /** Without clashing keywords, a falsy match field name or one missing
      from the keyword arguments raises `ValueError`. */
  lemma NewSyncRecordValueError(externalKey: Value, actions: SyncActions, matchField: Value, kwargs: Row)
    requires forall k :: k in ParameterNames ==> !HasKey(kwargs, k)
    requires !Truthy(matchField) || (matchField.Str? && !HasKey(kwargs, matchField.s))
    ensures NewSyncRecord(externalKey, actions, matchField, kwargs) == Failure(ValueError)
  {
  }

  /** `None`, `''` and `0` as the key make a record unmappable; any other
      string or number makes it mappable. */
  lemma MappableIff(r: SyncRecord)
    ensures IsExternallyMappable(r) <==>
      (r.externalKey.Str? && r.externalKey.s != "") || (r.externalKey.Int? && r.externalKey.i != 0) || r.externalKey.Ref?
  {
  }

  lemma {:induction false} SplitCounts(rs: seq<SyncRecord>)
    ensures multiset(NonDeleted(rs)) + multiset(Deleted(rs)) == multiset(rs)
    decreases |rs|
  {
    if rs != [] {
      var x, t := rs[0], rs[1..];
      assert rs == [x] + t;
      SplitCounts(t);
      NonDeletedCons(x, t);
      DeletedCons(x, t);
      assert multiset(rs) == multiset([x]) + multiset(t);
      if IsDeleteRecord(x) {
        assert Deleted(rs) == [x] + Deleted(t) && NonDeleted(rs) == [] + NonDeleted(t);
        assert [] + NonDeleted(t) == NonDeleted(t);
        assert multiset(Deleted(rs)) == multiset([x]) + multiset(Deleted(t));
      } else {
        assert NonDeleted(rs) == [x] + NonDeleted(t) && Deleted(rs) == [] + Deleted(t);
        assert [] + Deleted(t) == Deleted(t);
        assert multiset(NonDeleted(rs)) == multiset([x]) + multiset(NonDeleted(t));
      }
    }
  }

  lemma NonDeletedCons(x: SyncRecord, rs: seq<SyncRecord>)
    ensures NonDeleted([x] + rs) == (if IsDeleteRecord(x) then [] else [x]) + NonDeleted(rs)
  {
    assert ([x] + rs)[0] == x && ([x] + rs)[1..] == rs;
  }

  lemma {:induction false} NonDeletedConcat(a: seq<SyncRecord>, b: seq<SyncRecord>)
    ensures NonDeleted(a + b) == NonDeleted(a) + NonDeleted(b)
    decreases |a|
  {
    if a == [] {
      assert a + b == b;
    } else {
      var x, t := a[0], a[1..];
      assert a == [x] + t && a + b == [x] + (t + b);
      NonDeletedCons(x, t + b);
      NonDeletedCons(x, t);
      NonDeletedConcat(t, b);
      ConcatAssoc(if IsDeleteRecord(x) then [] else [x], NonDeleted(t), NonDeleted(b));
    }
  }

  lemma DeletedCons(x: SyncRecord, rs: seq<SyncRecord>)
    ensures Deleted([x] + rs) == (if IsDeleteRecord(x) then [x] else []) + Deleted(rs)
  {
    assert ([x] + rs)[0] == x && ([x] + rs)[1..] == rs;
  }

  lemma {:induction false} DeletedConcat(a: seq<SyncRecord>, b: seq<SyncRecord>)
    ensures Deleted(a + b) == Deleted(a) + Deleted(b)
    decreases |a|
  {
    if a == [] {
      assert a + b == b;
    } else {
      var x, t := a[0], a[1..];
      assert a == [x] + t && a + b == [x] + (t + b);
      DeletedCons(x, t + b);
      DeletedCons(x, t);
      DeletedConcat(t, b);
      ConcatAssoc(if IsDeleteRecord(x) then [x] else [], Deleted(t), Deleted(b));
    }
  }

  /** The two filters split the records: every record lands in exactly one
      of them, as often as it is listed, the deleted ones all delete and the
      others none. Both keep the records' order: the filter of a
      concatenation is the concatenation of the filters. */
  lemma Partition(info: SyncInfo)
    ensures multiset(GetNonDeleted(info)) + multiset(GetDeleted(info)) == multiset(GetAllRecords(info))
    ensures forall x :: x in GetDeleted(info) ==> IsDeleteRecord(x)
    ensures forall x :: x in GetNonDeleted(info) ==> !IsDeleteRecord(x)
    ensures forall a, b :: info.records == a + b ==>
      GetNonDeleted(info) == NonDeleted(a) + NonDeleted(b) && GetDeleted(info) == Deleted(a) + Deleted(b)
  {
    SplitCounts(info.records);
    forall a, b | info.records == a + b
      ensures GetNonDeleted(info) == NonDeleted(a) + NonDeleted(b) && GetDeleted(info) == Deleted(a) + Deleted(b)
    {
      NonDeletedConcat(a, b);
      DeletedConcat(a, b);
    }
  }

  /** One delete record and one other: each filter returns just its own. */
  lemma OneOfEach(system: SystemId, model: TypeTag, keep: SyncRecord, gone: SyncRecord)
    requires !IsDeleteRecord(keep) && IsDeleteRecord(gone)
    ensures GetNonDeleted(SyncInfo(system, model, [keep, gone])) == [keep]
    ensures GetDeleted(SyncInfo(system, model, [keep, gone])) == [gone]
  {
    var rs := [keep, gone];
    assert rs[1..] == [gone] && rs[1..][1..] == [];
    assert NonDeleted(rs[1..]) == [] + [];
    assert Deleted(rs[1..]) == [gone] + [];
    assert NonDeleted(rs) == [keep] + [];
    assert Deleted(rs) == [] + [gone];
  }
}
