/** The policies of the legacy tree (`nsync/policies.py`), over the legacy
    actions. They read like the packaged ones, but the legacy actions carry
    no `type` attribute, so the ordered policy as written cannot sort them. */
module LegacyPolicies {
  import opened Common
  import opened Store
  import opened Actions
  import opened LegacyActions
  import opened Policies

  datatype LegacyPolicy =
    | LegacyBasic(actions: seq<LegacyAction>)
    | LegacyOrdered(actions: seq<LegacyAction>)
    | LegacyTransaction(inner: LegacyPolicy)

  ghost function LegacyRunSeq(schema: Schema, st: State, acts: seq<LegacyAction>): PolicyOutcome
    decreases |acts|
  {
    if acts == [] then PolicyOutcome(None, st)
    else
      var out := LegacyExec(schema, st, acts[0]);
      if out.result.Failure? then PolicyOutcome(Some(out.result.error), out.state)
      else LegacyRunSeq(schema, out.state, acts[1..])
  }

  /** `a.type` on a legacy action: no legacy action class defines it. */
  function TypeAttribute(a: LegacyAction): Result<string> {
    Failure(AttributeError)
  }

  /** The type each legacy action evidently stands for. */
  function Kind(a: LegacyAction): string {
    match a
    case LegacyBase(_) => ""
    case LegacyCreate(_) => "create"
    case LegacyUpdate(_) => "update"
    case LegacyDelete(_) => "delete"
  }

  function KindBucket(acts: seq<LegacyAction>, t: string): (r: seq<LegacyAction>)
    ensures forall a :: a in r ==> a in acts && Kind(a) == t
  {
    if acts == [] then []
    else (if Kind(acts[0]) == t then [acts[0]] else []) + KindBucket(acts[1..], t)
  }

  function LegacyOrderedList(acts: seq<LegacyAction>): seq<LegacyAction> {
    KindBucket(acts, "create") + (KindBucket(acts, "update") + KindBucket(acts, "delete"))
  }

  /** The legacy ordered policy as written: the first `a.type` it evaluates
      raises, before any action runs; only an empty list gets through. */
  function OrderedAsWritten(st: State, acts: seq<LegacyAction>): PolicyOutcome {
    if acts == [] then PolicyOutcome(None, st) else PolicyOutcome(Some(AttributeError), st)
  }

  /** `execute()` of a legacy policy, with the ordered policy sorting by
      kind. */
  ghost function LegacyRun(schema: Schema, st: State, p: LegacyPolicy): PolicyOutcome
    decreases p
  {
    match p
    case LegacyBasic(acts) => LegacyRunSeq(schema, st, acts)
    case LegacyOrdered(acts) => LegacyRunSeq(schema, st, LegacyOrderedList(acts))
    case LegacyTransaction(inner) =>
      var out := LegacyRun(schema, st, inner);
      if out.error.Some? then PolicyOutcome(out.error, st) else out
  }

  // ----- the policies run against a database -----

  /** `BasicSyncPolicy.execute` */
  method ExecuteLegacyBasic(db: Database, acts: seq<LegacyAction>) returns (err: Option<Error>)
    modifies db
    ensures PolicyOutcome(err, db.Snapshot()) == LegacyRunSeq(db.schema, old(db.Snapshot()), acts)
  {
    for i := 0 to |acts|
      invariant LegacyRunSeq(db.schema, old(db.Snapshot()), acts) == LegacyRunSeq(db.schema, db.Snapshot(), acts[i..])
    {
      assert acts[i..][0] == acts[i] && acts[i..][1..] == acts[i + 1..];
      var r := ExecuteLegacy(db, acts[i]);
      if r.Failure? {
        return Some(r.error);
      }
    }
    err := None;
  }

  /** `OrderedSyncPolicy.execute` as written: the filter reads `a.type`. */
  method ExecuteOrderedAsWritten(db: Database, acts: seq<LegacyAction>) returns (err: Option<Error>)
    modifies db
    ensures PolicyOutcome(err, db.Snapshot()) == OrderedAsWritten(old(db.Snapshot()), acts)
  {
    var types := ["create", "update", "delete"];
    for k := 0 to |types|
      invariant db.Snapshot() == old(db.Snapshot())
      invariant k > 0 ==> acts == []
    {
      // `filter` is lazy: reading `a.type` on the first action raises, so
      // the loop never gets past `i == 0`.
      for i := 0 to |acts|
        invariant i == 0
      {
        var t := TypeAttribute(acts[i]);
        if t.Failure? {
          return Some(t.error);
        }
      }
    }
    err := None;
  }

  /** One pass of the ordered policy, sorting by kind. */
  method ExecuteLegacyPass(db: Database, acts: seq<LegacyAction>, t: string) returns (err: Option<Error>)
    modifies db
    ensures PolicyOutcome(err, db.Snapshot()) == LegacyRunSeq(db.schema, old(db.Snapshot()), KindBucket(acts, t))
  {
    for i := 0 to |acts|
      invariant LegacyRunSeq(db.schema, old(db.Snapshot()), KindBucket(acts, t)) == LegacyRunSeq(db.schema, db.Snapshot(), KindBucket(acts[i..], t))
    {
      assert acts[i..][0] == acts[i] && acts[i..][1..] == acts[i + 1..];
      if Kind(acts[i]) == t {
        ghost var rest := KindBucket(acts[i..], t);
        assert rest[0] == acts[i] && rest[1..] == KindBucket(acts[i + 1..], t);
        var r := ExecuteLegacy(db, acts[i]);
        if r.Failure? {
          return Some(r.error);
        }
      } else {
        assert KindBucket(acts[i..], t) == [] + KindBucket(acts[i + 1..], t);
        assert [] + KindBucket(acts[i + 1..], t) == KindBucket(acts[i + 1..], t);
      }
    }
    err := None;
  }

  function KindPasses(acts: seq<LegacyAction>, types: seq<string>): seq<LegacyAction> {
    if types == [] then [] else KindBucket(acts, types[0]) + KindPasses(acts, types[1..])
  }

  /** The ordered policy as evidently intended: create, update and delete
      passes by kind. */
  method ExecuteLegacyOrdered(db: Database, acts: seq<LegacyAction>) returns (err: Option<Error>)
    modifies db
    ensures PolicyOutcome(err, db.Snapshot()) == LegacyRunSeq(db.schema, old(db.Snapshot()), LegacyOrderedList(acts))
  {
    var types := ["create", "update", "delete"];
    assert KindPasses(acts, types) == LegacyOrderedList(acts) by {
      assert types[0] == "create" && types[1..] == ["update", "delete"];
      assert types[1..][0] == "update" && types[1..][1..] == ["delete"];
      assert types[1..][1..][0] == "delete" && types[1..][1..][1..] == [];
      assert KindPasses(acts, types[1..][1..]) == KindBucket(acts, "delete") + [];
      assert KindBucket(acts, "delete") + [] == KindBucket(acts, "delete");
    }
    for k := 0 to |types|
      invariant LegacyRunSeq(db.schema, old(db.Snapshot()), LegacyOrderedList(acts)) == LegacyRunSeq(db.schema, db.Snapshot(), KindPasses(acts, types[k..]))
    {
      assert types[k..][0] == types[k] && types[k..][1..] == types[k + 1..];
      LegacyRunSeqConcat(db.schema, db.Snapshot(), KindBucket(acts, types[k]), KindPasses(acts, types[k + 1..]));
      err := ExecuteLegacyPass(db, acts, types[k]);
      if err.Some? {
        return;
      }
    }
    err := None;
  }

  /** `execute()` of any legacy policy. */
  method ExecuteLegacyPolicy(db: Database, p: LegacyPolicy) returns (err: Option<Error>)
    modifies db
    ensures PolicyOutcome(err, db.Snapshot()) == LegacyRun(db.schema, old(db.Snapshot()), p)
    decreases p
  {
    match p
    case LegacyBasic(acts) =>
      err := ExecuteLegacyBasic(db, acts);
    case LegacyOrdered(acts) =>
      err := ExecuteLegacyOrdered(db, acts);
    case LegacyTransaction(inner) =>
      var saved := db.Snapshot();
      err := ExecuteLegacyPolicy(db, inner);
      if err.Some? {
        db.objects, db.mappings, db.nextId := saved.objects, saved.mappings, saved.nextId;
      }
  }

  // ----- properties -----

  lemma {:induction false} LegacyRunSeqConcat(schema: Schema, st: State, a: seq<LegacyAction>, b: seq<LegacyAction>)
    ensures LegacyRunSeq(schema, st, a + b) ==
      (var first := LegacyRunSeq(schema, st, a);
       if first.error.Some? then first else LegacyRunSeq(schema, first.state, b))
    decreases |a|
  {
    if a == [] {
      assert a + b == b;
    } else {
      assert (a + b)[0] == a[0] && (a + b)[1..] == a[1..] + b;
      var out := LegacyExec(schema, st, a[0]);
      if out.result.Success? {
        LegacyRunSeqConcat(schema, out.state, a[1..], b);
      }
    }
  }

  /** As written, the ordered policy raises `AttributeError` on any
      non-empty list and runs nothing: a single create is refused, where
      sorting by kind runs it. */
  lemma OrderedAsWrittenRefusesCreate(schema: Schema, st: State, m: ModelAction)
    ensures OrderedAsWritten(st, [LegacyCreate(m)]) == PolicyOutcome(Some(AttributeError), st)
    ensures LegacyRun(schema, st, LegacyOrdered([LegacyCreate(m)])) == LegacyRunSeq(schema, st, [LegacyCreate(m)])
  {
    var acts := [LegacyCreate(m)];
    assert acts[1..] == [];
    assert KindBucket(acts, "create") == [LegacyCreate(m)] + [];
    assert KindBucket(acts, "update") == [] + [];
    assert KindBucket(acts, "delete") == [] + [];
    assert LegacyOrderedList(acts) == acts;
  }

  /** A legacy transaction is all or nothing. */
  lemma LegacyTransactionAtomic(schema: Schema, st: State, p: LegacyPolicy)
    ensures var out := LegacyRun(schema, st, LegacyTransaction(p));
      out.error == LegacyRun(schema, st, p).error
      && (out.error.Some? ==> out.state == st)
      && (out.error.None? ==> out.state == LegacyRun(schema, st, p).state)
  {
  }

  lemma KindBucketCons(x: LegacyAction, rest: seq<LegacyAction>, t: string)
    ensures KindBucket([x] + rest, t) == (if Kind(x) == t then [x] else []) + KindBucket(rest, t)
  {
    assert ([x] + rest)[0] == x && ([x] + rest)[1..] == rest;
  }

  /** The filter is stable: filtering a concatenation concatenates the
      filtered parts, so the bucket keeps the list's relative order. */
  lemma {:induction false} KindBucketConcat(a: seq<LegacyAction>, b: seq<LegacyAction>, t: string)
    ensures KindBucket(a + b, t) == KindBucket(a, t) + KindBucket(b, t)
    decreases |a|
  {
    if a == [] {
      assert a + b == b;
    } else {
      var x, rest := a[0], a[1..];
      assert a == [x] + rest && a + b == [x] + (rest + b);
      KindBucketCons(x, rest + b, t);
      KindBucketCons(x, rest, t);
      KindBucketConcat(rest, b, t);
      ConcatAssoc(if Kind(x) == t then [x] else [], KindBucket(rest, t), KindBucket(b, t));
    }
  }

  /** A list all of the type is its own bucket; a list with none of it has
      an empty bucket. With the concatenation lemma this fixes the bucket of
      every list. */
  lemma {:induction false} KindBucketWhole(acts: seq<LegacyAction>, t: string)
    ensures (forall i :: 0 <= i < |acts| ==> Kind(acts[i]) == t) ==> KindBucket(acts, t) == acts
    ensures (forall i :: 0 <= i < |acts| ==> Kind(acts[i]) != t) ==> KindBucket(acts, t) == []
    decreases |acts|
  {
    if acts != [] {
      var x, rest := acts[0], acts[1..];
      assert acts == [x] + rest;
      KindBucketCons(x, rest, t);
      KindBucketWhole(rest, t);
      if forall i :: 0 <= i < |acts| ==> Kind(acts[i]) == t {
        assert forall i :: 0 <= i < |rest| ==> Kind(rest[i]) == t by {
          forall i | 0 <= i < |rest| ensures Kind(rest[i]) == t {
            assert rest[i] == acts[i + 1];
          }
        }
      }
      if forall i :: 0 <= i < |acts| ==> Kind(acts[i]) != t {
        assert Kind(acts[0]) != t;
        assert forall i :: 0 <= i < |rest| ==> Kind(rest[i]) != t by {
          forall i | 0 <= i < |rest| ensures Kind(rest[i]) != t {
            assert rest[i] == acts[i + 1];
          }
        }
        assert KindBucket(acts, t) == [] + [];
      }
    }
  }

  lemma {:induction false} KindBucketCount(acts: seq<LegacyAction>, t: string, a: LegacyAction)
    ensures multiset(KindBucket(acts, t))[a] == if Kind(a) == t then multiset(acts)[a] else 0
    decreases |acts|
  {
    if acts != [] {
      var x, rest := acts[0], acts[1..];
      assert acts == [x] + rest;
      KindBucketCount(rest, t, a);
      CountCons(x, rest, a);
      if Kind(x) == t {
        assert KindBucket(acts, t) == [x] + KindBucket(rest, t);
        CountCons(x, KindBucket(rest, t), a);
      } else {
        assert KindBucket(acts, t) == [] + KindBucket(rest, t);
        assert [] + KindBucket(rest, t) == KindBucket(rest, t);
      }
    }
  }

  /** Sorted by kind, every create, update and delete runs as often as it
      is listed and the base action never. */
  lemma LegacyOrderedCounts(acts: seq<LegacyAction>, a: LegacyAction)
    ensures multiset(LegacyOrderedList(acts))[a] == if a.LegacyBase? then 0 else multiset(acts)[a]
  {
    KindBucketCount(acts, "create", a);
    KindBucketCount(acts, "update", a);
    KindBucketCount(acts, "delete", a);
  }

  /** Sorted by kind, creates come before updates and updates before
      deletes. */
  lemma LegacyOrderedSorted(acts: seq<LegacyAction>)
    ensures var r := LegacyOrderedList(acts);
      forall i, j :: 0 <= i < j < |r| ==> KindRank(r[i]) <= KindRank(r[j])
  {
    var c, u, d := KindBucket(acts, "create"), KindBucket(acts, "update"), KindBucket(acts, "delete");
    var r := LegacyOrderedList(acts);
    forall i | 0 <= i < |r|
      ensures KindRank(r[i]) == if i < |c| then 0 else if i < |c| + |u| then 1 else 2
    {
      if i < |c| {
        assert r[i] == c[i] && c[i] in c;
      } else if i < |c| + |u| {
        assert r[i] == u[i - |c|] && u[i - |c|] in u;
      } else {
        assert r[i] == d[i - |c| - |u|] && d[i - |c| - |u|] in d;
      }
    }
  }
}
