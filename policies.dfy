/** The synchronisation policies: run a list of actions as given
    (`BasicSyncPolicy`), grouped by type (`OrderedSyncPolicy`), or inside a
    transaction (`TransactionSyncPolicy`). An error raised by an action
    escapes the policy and stops it. */
module Policies {
  import opened Common
  import opened Store
  import opened Actions
  import opened ActionProperties

  datatype Policy =
    | Basic(actions: seq<Action>)
    | Ordered(actions: seq<Action>)
    | Transaction(inner: Policy)

  /** The error that escaped (if any) and the database afterwards. */
  datatype PolicyOutcome = PolicyOutcome(error: Option<Error>, state: State)

  /** The actions executed one after another, stopping at the first one
      that raises. */
  ghost function RunSeq(schema: Schema, st: State, acts: seq<Action>): PolicyOutcome
    decreases |acts|
  {
    if acts == [] then PolicyOutcome(None, st)
    else
      var out := Exec(schema, st, acts[0]);
      if out.result.Failure? then PolicyOutcome(Some(out.result.error), out.state)
      else RunSeq(schema, out.state, acts[1..])
  }

  /** `filter(lambda a: a.type == t, actions)` */
  function Bucket(acts: seq<Action>, t: string): (r: seq<Action>)
    ensures forall a :: a in r ==> a in acts && Type(a) == t
    ensures |r| <= |acts|
  {
    if acts == [] then []
    else (if Type(acts[0]) == t then [acts[0]] else []) + Bucket(acts[1..], t)
  }

  /** The order in which `OrderedSyncPolicy` executes the actions. */
  function OrderedList(acts: seq<Action>): seq<Action> {
    Bucket(acts, "create") + (Bucket(acts, "update") + Bucket(acts, "delete"))
  }

  /** The buckets for the given types, one after another. */
  function Passes(acts: seq<Action>, types: seq<string>): seq<Action> {
    if types == [] then [] else Bucket(acts, types[0]) + Passes(acts, types[1..])
  }

  /** `execute()` of a policy. A transaction undoes everything its policy
      did when an error escapes it. */
  ghost function Run(schema: Schema, st: State, p: Policy): PolicyOutcome
    decreases p
  {
    match p
    case Basic(acts) => RunSeq(schema, st, acts)
    case Ordered(acts) => RunSeq(schema, st, OrderedList(acts))
    case Transaction(inner) =>
      var out := Run(schema, st, inner);
      if out.error.Some? then PolicyOutcome(out.error, st) else out
  }

  // ----- the policies run against a database -----

  /** `BasicSyncPolicy.execute` */
  method ExecuteBasic(db: Database, acts: seq<Action>) returns (err: Option<Error>)
    modifies db
    ensures PolicyOutcome(err, db.Snapshot()) == RunSeq(db.schema, old(db.Snapshot()), acts)
  {
    for i := 0 to |acts|
      invariant RunSeq(db.schema, old(db.Snapshot()), acts) == RunSeq(db.schema, db.Snapshot(), acts[i..])
    {
      assert acts[i..][0] == acts[i] && acts[i..][1..] == acts[i + 1..];
      var r := Execute(db, acts[i]);
      if r.Failure? {
        return Some(r.error);
      }
    }
    err := None;
  }

  /** One pass of `OrderedSyncPolicy`: the actions of type `t`, in order. */
  method ExecutePass(db: Database, acts: seq<Action>, t: string) returns (err: Option<Error>)
    modifies db
    ensures PolicyOutcome(err, db.Snapshot()) == RunSeq(db.schema, old(db.Snapshot()), Bucket(acts, t))
  {
    for i := 0 to |acts|
      invariant RunSeq(db.schema, old(db.Snapshot()), Bucket(acts, t)) == RunSeq(db.schema, db.Snapshot(), Bucket(acts[i..], t))
    {
      assert acts[i..][0] == acts[i] && acts[i..][1..] == acts[i + 1..];
      if Type(acts[i]) == t {
        ghost var rest := Bucket(acts[i..], t);
        assert rest[0] == acts[i] && rest[1..] == Bucket(acts[i + 1..], t);
        var r := Execute(db, acts[i]);
        if r.Failure? {
          return Some(r.error);
        }
      } else {
        assert Bucket(acts[i..], t) == [] + Bucket(acts[i + 1..], t);
        assert [] + Bucket(acts[i + 1..], t) == Bucket(acts[i + 1..], t);
      }
    }
    err := None;
  }

  /** `OrderedSyncPolicy.execute`: one pass over the actions per type, in
      the order create, update, delete. */
  method ExecuteOrdered(db: Database, acts: seq<Action>) returns (err: Option<Error>)
    modifies db
    ensures PolicyOutcome(err, db.Snapshot()) == RunSeq(db.schema, old(db.Snapshot()), OrderedList(acts))
  {
    var types := ["create", "update", "delete"];
    assert Passes(acts, types) == OrderedList(acts) by {
      assert types[0] == "create" && types[1..] == ["update", "delete"];
      assert types[1..][0] == "update" && types[1..][1..] == ["delete"];
      assert types[1..][1..][0] == "delete" && types[1..][1..][1..] == [];
      assert Passes(acts, types[1..][1..]) == Bucket(acts, "delete") + [];
      assert Bucket(acts, "delete") + [] == Bucket(acts, "delete");
    }
    for k := 0 to |types|
      invariant RunSeq(db.schema, old(db.Snapshot()), OrderedList(acts)) == RunSeq(db.schema, db.Snapshot(), Passes(acts, types[k..]))
    {
      assert types[k..][0] == types[k] && types[k..][1..] == types[k + 1..];
      RunSeqConcat(db.schema, db.Snapshot(), Bucket(acts, types[k]), Passes(acts, types[k + 1..]));
      err := ExecutePass(db, acts, types[k]);
      if err.Some? {
        return;
      }
    }
    err := None;
  }

  /** `execute()` of any policy; a transaction keeps a copy of the database
      and puts it back when an error escapes (`transaction.atomic()`). */
  method ExecutePolicy(db: Database, p: Policy) returns (err: Option<Error>)
    modifies db
    ensures PolicyOutcome(err, db.Snapshot()) == Run(db.schema, old(db.Snapshot()), p)
    decreases p
  {
    match p
    case Basic(acts) =>
      err := ExecuteBasic(db, acts);
    case Ordered(acts) =>
      err := ExecuteOrdered(db, acts);
    case Transaction(inner) =>
      var saved := db.Snapshot();
      err := ExecutePolicy(db, inner);
      if err.Some? {
        db.objects, db.mappings, db.nextId := saved.objects, saved.mappings, saved.nextId;
      }
  }

  // ----- properties -----

  /** Running two lists one after the other is running their
      concatenation. */
  lemma {:induction false} RunSeqConcat(schema: Schema, st: State, a: seq<Action>, b: seq<Action>)
    ensures RunSeq(schema, st, a + b) ==
      (var first := RunSeq(schema, st, a);
       if first.error.Some? then first else RunSeq(schema, first.state, b))
    decreases |a|
  {
    if a == [] {
      assert a + b == b;
    } else {
      assert (a + b)[0] == a[0] && (a + b)[1..] == a[1..] + b;
      var out := Exec(schema, st, a[0]);
      if out.result.Success? {
        RunSeqConcat(schema, out.state, a[1..], b);
      }
    }
  }

  /** The actions before `acts[i]` all ran, `acts[i]` raised, and the list
      stopped there with the database as those before it left it. */
  ghost predicate FailsAt(schema: Schema, st: State, acts: seq<Action>, i: nat)
    requires i < |acts|
  {
    var before := RunSeq(schema, st, acts[..i]);
    var out := Exec(schema, before.state, acts[i]);
    before.error.None? && out.result.Failure?
    && RunSeq(schema, st, acts) == PolicyOutcome(Some(out.result.error), before.state)
  }

  /** An error that escapes a list comes from one of its actions, and the
      failing action itself writes nothing. */
  lemma {:induction false} RunSeqStopsAtError(schema: Schema, st: State, acts: seq<Action>)
    requires RunSeq(schema, st, acts).error.Some?
    ensures exists i :: 0 <= i < |acts| && FailsAt(schema, st, acts, i)
    decreases |acts|
  {
    var out := Exec(schema, st, acts[0]);
    assert acts[..0] == [];
    if out.result.Failure? {
      ErrorLeavesStateUnchanged(schema, st, acts[0]);
      assert FailsAt(schema, st, acts, 0);
    } else {
      RunSeqStopsAtError(schema, out.state, acts[1..]);
      var i :| 0 <= i < |acts[1..]| && FailsAt(schema, out.state, acts[1..], i);
      assert acts[..i + 1][0] == acts[0] && acts[..i + 1][1..] == acts[1..][..i];
      assert acts[i + 1] == acts[1..][i];
      assert RunSeq(schema, st, acts[..i + 1]) == RunSeq(schema, out.state, acts[1..][..i]);
      assert FailsAt(schema, st, acts, i + 1);
    }
  }

  /** Every policy keeps the database well formed. */
  lemma {:induction false} RunSeqValid(schema: Schema, st: State, acts: seq<Action>)
    requires Valid(st)
    ensures Valid(RunSeq(schema, st, acts).state)
    decreases |acts|
  {
    if acts != [] {
      ValidPreserved(schema, st, acts[0]);
      var out := Exec(schema, st, acts[0]);
      if out.result.Success? {
        RunSeqValid(schema, out.state, acts[1..]);
      }
    }
  }

  lemma {:induction false} RunValid(schema: Schema, st: State, p: Policy)
    requires Valid(st)
    ensures Valid(Run(schema, st, p).state)
    decreases p
  {
    match p
    case Basic(acts) => RunSeqValid(schema, st, acts);
    case Ordered(acts) => RunSeqValid(schema, st, OrderedList(acts));
    case Transaction(inner) => RunValid(schema, st, inner);
  }

  /** A transaction is all or nothing: when an error escapes, the database
      is as it was before; otherwise it is what the wrapped policy made it. */
  lemma TransactionAtomic(schema: Schema, st: State, p: Policy)
    ensures var out := Run(schema, st, Transaction(p));
      out.error == Run(schema, st, p).error
      && (out.error.Some? ==> out.state == st)
      && (out.error.None? ==> out.state == Run(schema, st, p).state)
  {
  }

  lemma BucketCons(x: Action, rest: seq<Action>, t: string)
    ensures Bucket([x] + rest, t) == (if Type(x) == t then [x] else []) + Bucket(rest, t)
  {
    assert ([x] + rest)[0] == x && ([x] + rest)[1..] == rest;
  }

  /** The filter is stable: filtering a concatenation concatenates the
      filtered parts, so the bucket keeps the list's relative order. */
  lemma {:induction false} BucketConcat(a: seq<Action>, b: seq<Action>, t: string)
    ensures Bucket(a + b, t) == Bucket(a, t) + Bucket(b, t)
    decreases |a|
  {
    if a == [] {
      assert a + b == b;
    } else {
      var x, rest := a[0], a[1..];
      assert a == [x] + rest && a + b == [x] + (rest + b);
      BucketCons(x, rest + b, t);
      BucketCons(x, rest, t);
      BucketConcat(rest, b, t);
      ConcatAssoc(if Type(x) == t then [x] else [], Bucket(rest, t), Bucket(b, t));
    }
  }

  /** A list all of the type is its own bucket; a list with none of it has
      an empty bucket. With the concatenation lemma this fixes the bucket of
      every list. */
  lemma {:induction false} BucketWhole(acts: seq<Action>, t: string)
    ensures (forall i :: 0 <= i < |acts| ==> Type(acts[i]) == t) ==> Bucket(acts, t) == acts
    ensures (forall i :: 0 <= i < |acts| ==> Type(acts[i]) != t) ==> Bucket(acts, t) == []
    decreases |acts|
  {
    if acts != [] {
      var x, rest := acts[0], acts[1..];
      assert acts == [x] + rest;
      BucketCons(x, rest, t);
      BucketWhole(rest, t);
      if forall i :: 0 <= i < |acts| ==> Type(acts[i]) == t {
        assert forall i :: 0 <= i < |rest| ==> Type(rest[i]) == t by {
          forall i | 0 <= i < |rest| ensures Type(rest[i]) == t {
            assert rest[i] == acts[i + 1];
          }
        }
      }
      if forall i :: 0 <= i < |acts| ==> Type(acts[i]) != t {
        assert Type(acts[0]) != t;
        assert forall i :: 0 <= i < |rest| ==> Type(rest[i]) != t by {
          forall i | 0 <= i < |rest| ensures Type(rest[i]) != t {
            assert rest[i] == acts[i + 1];
          }
        }
        assert Bucket(acts, t) == [] + [];
      }
    }
  }

  lemma {:induction false} BucketCount(acts: seq<Action>, t: string, a: Action)
    ensures multiset(Bucket(acts, t))[a] == if Type(a) == t then multiset(acts)[a] else 0
    decreases |acts|
  {
    if acts != [] {
      var x, rest := acts[0], acts[1..];
      assert acts == [x] + rest;
      BucketCount(rest, t, a);
      CountCons(x, rest, a);
      if Type(x) == t {
        assert Bucket(acts, t) == [x] + Bucket(rest, t);
        CountCons(x, Bucket(rest, t), a);
      } else {
        assert Bucket(acts, t) == [] + Bucket(rest, t);
        assert [] + Bucket(rest, t) == Bucket(rest, t);
      }
    }
  }

  /** The ordered policy executes every create, update and delete action of
      the list exactly as often as it appears, and never the impotent base
      actions. */
  lemma OrderedCounts(acts: seq<Action>, a: Action)
    ensures multiset(OrderedList(acts))[a] == if Type(a) == "" then 0 else multiset(acts)[a]
  {
    BucketCount(acts, "create", a);
    BucketCount(acts, "update", a);
    BucketCount(acts, "delete", a);
    TypeCases(a);
  }

  function TypeRank(t: string): nat {
    if t == "create" then 0 else if t == "update" then 1 else 2
  }

  /** In the ordered policy every create comes before every update and every
      update before every delete. */
  lemma OrderedSorted(acts: seq<Action>)
    ensures var r := OrderedList(acts);
      forall i, j :: 0 <= i < j < |r| ==> TypeRank(Type(r[i])) <= TypeRank(Type(r[j]))
  {
    var c, u, d := Bucket(acts, "create"), Bucket(acts, "update"), Bucket(acts, "delete");
    var r := OrderedList(acts);
    forall i | 0 <= i < |r|
      ensures TypeRank(Type(r[i])) == if i < |c| then 0 else if i < |c| + |u| then 1 else 2
    {
      if i < |c| {
        assert r[i] == c[i] && c[i] in c;
      } else if i < |c| + |u| {
        assert r[i] == u[i - |c|] && u[i - |c|] in u;
      } else {
        assert r[i] == d[i - |c| - |u|] && d[i - |c| - |u|] in d;
      }
    }
  }

  /** Two actions in a row. */
  lemma RunPair(schema: Schema, st: State, x: Action, y: Action)
    ensures var first := Exec(schema, st, x);
      RunSeq(schema, st, [x, y]) ==
        if first.result.Failure? then PolicyOutcome(Some(first.result.error), first.state)
        else var second := Exec(schema, first.state, y);
          if second.result.Failure? then PolicyOutcome(Some(second.result.error), second.state)
          else PolicyOutcome(None, second.state)
  {
    var first := Exec(schema, st, x);
    assert [x, y][0] == x && [x, y][1..] == [y] && [y][0] == y && [y][1..] == [];
    if first.result.Success? {
      assert RunSeq(schema, st, [x, y]) == RunSeq(schema, first.state, [y]);
      var second := Exec(schema, first.state, y);
      if second.result.Success? {
        assert RunSeq(schema, first.state, [y]) == RunSeq(schema, second.state, []);
      }
    }
  }

  lemma BucketPair(x: Action, y: Action, t: string)
    ensures Bucket([x, y], t) == (if Type(x) == t then [x] else []) + (if Type(y) == t then [y] else [])
  {
    assert [x, y][0] == x && [x, y][1..] == [y] && [y][0] == y && [y][1..] == [];
    var ys := if Type(y) == t then [y] else [];
    assert Bucket([y], t) == ys + [];
    assert ys + [] == ys;
  }

  /** Two actions that both succeed run to the state the second leaves. */
  lemma RunPairOk(schema: Schema, st: State, x: Action, y: Action)
    requires Exec(schema, st, x).result.Success?
    requires Exec(schema, Exec(schema, st, x).state, y).result.Success?
    ensures Run(schema, st, Basic([x, y])) == PolicyOutcome(None, Exec(schema, Exec(schema, st, x).state, y).state)
  {
    RunPair(schema, st, x, y);
  }

  /** The example that motivates the ordered policy: a forced delete listed
      before a create of the same row. Run as given, the delete removes what
      the match value finds and the create then makes a fresh object, so
      exactly that one object holds the match value afterwards. */
  lemma BasicDeleteThenCreate(schema: Schema, st: State, m: ModelAction)
    requires Valid(st) && WellFormedSchema(schema) && ValidModelAction(m) && DistinctKeys(m.fields)
    requires FindObjects(schema, st.objects, m).Success?
    requires Exec(schema, DeleteSpec(schema, st, m).state, CreateModel(m)).result.Success?
    ensures var out := Run(schema, st, Basic([DeleteModel(m), CreateModel(m)]));
      out.error.None? && FindObjects(schema, out.state.objects, m) == Success({ObjRef(m.model, st.nextId)})
  {
    var first := Exec(schema, st, DeleteModel(m));
    var mid := first.state;
    assert mid == DeleteSpec(schema, st, m).state;
    assert first.result.Success? && FindObjects(schema, mid.objects, m) == Success({}) && mid.nextId == st.nextId by {
      DeleteRemovesMatches(schema, st, m);
    }
    assert Valid(mid) by {
      ValidPreserved(schema, st, DeleteModel(m));
    }
    var out := Exec(schema, mid, CreateModel(m));
    assert out.result.Success?;
    assert FindObjects(schema, out.state.objects, m) == Success({ObjRef(m.model, mid.nextId)}) by {
      CreateAddsOne(schema, mid, m);
    }
    RunPairOk(schema, st, DeleteModel(m), CreateModel(m));
  }

  /** Under the ordered policy the create runs first and the forced delete
      second, so no object holds the match value afterwards. */
  lemma OrderedCreateThenDelete(schema: Schema, st: State, m: ModelAction)
    requires FindObjects(schema, st.objects, m).Success?
    requires Exec(schema, st, CreateModel(m)).result.Success?
    ensures var out := Run(schema, st, Ordered([DeleteModel(m), CreateModel(m)]));
      out.error.None? && FindObjects(schema, out.state.objects, m) == Success({})
  {
    var acts := [DeleteModel(m), CreateModel(m)];
    assert OrderedList(acts) == [CreateModel(m), DeleteModel(m)] by {
      OrderedPair(m);
    }
    var mid := Exec(schema, st, CreateModel(m)).state;
    assert FindObjects(schema, mid.objects, m).Success?;
    DeleteRemovesMatches(schema, mid, m);
    RunPairOk(schema, st, CreateModel(m), DeleteModel(m));
    assert Run(schema, st, Ordered(acts)) == Run(schema, st, Basic([CreateModel(m), DeleteModel(m)]));
  }

  /** The ordered policy puts the create of a delete-then-create pair first. */
  lemma OrderedPair(m: ModelAction)
    ensures OrderedList([DeleteModel(m), CreateModel(m)]) == [CreateModel(m), DeleteModel(m)]
  {
    var acts := [DeleteModel(m), CreateModel(m)];
    BucketPair(DeleteModel(m), CreateModel(m), "create");
    BucketPair(DeleteModel(m), CreateModel(m), "update");
    BucketPair(DeleteModel(m), CreateModel(m), "delete");
    assert OrderedList(acts) == [CreateModel(m)] + ([] + [DeleteModel(m)]);
  }
}
