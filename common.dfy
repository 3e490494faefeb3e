/** Values, rows and errors shared by every part of the model: the Python
    values a sync row can hold, the ordered dictionary a row is, the
    exceptions the engine raises, and the few string operations it uses
    (splitting on the `=>` delimiter, `str.strip`). */
module Common {

  /** The exceptions that escape the engine, by kind. */
  datatype Error =
    | ValueError
    | KeyError(key: string)
    | TypeError
    | AttributeError
    | FieldError
    | MultipleObjectsReturned

  datatype Option<+T> = None | Some(value: T)

  /** A computation that returns a value or raises one of the errors above. */
  datatype Result<+T> = Success(value: T) | Failure(error: Error) {
    predicate IsFailure() { Failure? }
    function PropagateFailure<U>(): Result<U> requires Failure? { Failure(error) }
    function Extract(): T requires Success? { value }
  }

  /** A Python value as it can appear in a row or in an object's attribute:
      `None`, a `str`, an `int`, or a reference to a stored object (by id). */
  datatype Value = Null | Str(s: string) | Int(i: int) | Ref(id: nat)

  /** Python truthiness of a value. */
  predicate Truthy(v: Value) {
    match v
    case Null => false
    case Str(s) => s != ""
    case Int(i) => i != 0
    case Ref(_) => true
  }

  /** The "has no value yet" test of the engine: `None` or the empty string. */
  predicate IsEmpty(v: Value) {
    v == Null || v == Str("")
  }

  /** A row: a Python dict with string keys, in insertion order. */
  type Row = seq<(string, Value)>

  predicate HasKey(row: Row, k: string) {
    exists i :: 0 <= i < |row| && row[i].0 == k
  }

  /** A dict never holds a key twice. */
  predicate DistinctKeys(row: Row) {
    forall i, j :: 0 <= i < j < |row| ==> row[i].0 != row[j].0
  }

  /** `row.get(k)`: the value stored under `k`, if any. */
  function Lookup(row: Row, k: string): (r: Option<Value>)
    ensures r.Some? <==> HasKey(row, k)
    ensures r.Some? ==> exists i :: 0 <= i < |row| && row[i] == (k, r.value)
  {
    if row == [] then None
    else if row[0].0 == k then Some(row[0].1)
    else
      var r := Lookup(row[1..], k);
      assert r.Some? ==> exists i :: 0 <= i < |row[1..]| && row[1..][i] == (k, r.value);
      assert HasKey(row[1..], k) ==> HasKey(row, k) by {
        if HasKey(row[1..], k) {
          var i :| 0 <= i < |row[1..]| && row[1..][i].0 == k;
          assert row[i + 1].0 == k;
        }
      }
      assert HasKey(row, k) && row[0].0 != k ==> HasKey(row[1..], k) by {
        if HasKey(row, k) && row[0].0 != k {
          var i :| 0 <= i < |row| && row[i].0 == k;
          assert i > 0 && row[1..][i - 1].0 == k;
        }
      }
      r
  }

  /** The dict with the given keys popped, the other entries in their order. */
  function Without(row: Row, keys: set<string>): (r: Row)
    ensures forall e :: e in r <==> e in row && e.0 !in keys
    ensures DistinctKeys(row) ==> DistinctKeys(r)
  {
    if row == [] then []
    else if row[0].0 in keys then Without(row[1..], keys)
    else
      var tail := Without(row[1..], keys);
      assert DistinctKeys(row) ==> forall e :: e in tail ==> e.0 != row[0].0 by {
        if DistinctKeys(row) {
          forall e | e in tail ensures e.0 != row[0].0 {
            var i :| 0 <= i < |row[1..]| && row[1..][i] == e;
            assert row[i + 1] == e;
          }
        }
      }
      [row[0]] + tail
  }

  /** `dict.pop(k)`: the value and the dict without `k`, or `KeyError`. */
  function Pop(row: Row, k: string): Result<(Value, Row)> {
    match Lookup(row, k)
    case None => Failure(KeyError(k))
    case Some(v) => Success((v, Without(row, {k})))
  }

  /** `dict.pop(k, None)` */
  function PopOr(row: Row, k: string): (Value, Row) {
    match Lookup(row, k)
    case None => (Null, row)
    case Some(v) => (v, Without(row, {k}))
  }

  /** Concatenation is associative. */
  lemma ConcatAssoc<T>(a: seq<T>, b: seq<T>, c: seq<T>)
    ensures a + (b + c) == (a + b) + c
  {
  }

  /** How often `a` occurs in a sequence with `x` in front. */
  lemma CountCons<T>(x: T, s: seq<T>, a: T)
    ensures multiset([x] + s)[a] == (if x == a then 1 else 0) + multiset(s)[a]
  {
    assert multiset([x] + s) == multiset([x]) + multiset(s);
  }

  /** Popping keys one after another is removing them all at once. */
  lemma {:induction false} WithoutWithout(row: Row, a: set<string>, b: set<string>)
    ensures Without(Without(row, a), b) == Without(row, a + b)
    decreases |row|
  {
    if row != [] {
      WithoutWithout(row[1..], a, b);
    }
  }

  /** Removing other keys does not change what a key looks up. */
  lemma {:induction false} LookupWithout(row: Row, ks: set<string>, k: string)
    requires k !in ks
    ensures Lookup(Without(row, ks), k) == Lookup(row, k)
    decreases |row|
  {
    if row != [] {
      LookupWithout(row[1..], ks, k);
    }
  }

  /** Removing a key that is absent changes nothing. */
  lemma {:induction false} WithoutAbsent(row: Row, k: string)
    requires Lookup(row, k).None?
    ensures Without(row, {k}) == row
    decreases |row|
  {
    if row != [] {
      WithoutAbsent(row[1..], k);
    }
  }

  /** A key is left after removing others exactly when it was there. */
  lemma HasKeyWithout(row: Row, ks: set<string>, k: string)
    ensures HasKey(Without(row, ks), k) <==> HasKey(row, k) && k !in ks
  {
    if HasKey(row, k) && k !in ks {
      var i :| 0 <= i < |row| && row[i].0 == k;
      assert row[i] in Without(row, ks);
    }
    if HasKey(Without(row, ks), k) {
      var r := Without(row, ks);
      var i :| 0 <= i < |r| && r[i].0 == k;
      assert r[i] in row;
    }
  }

  /** The keys of a row. */
  function Keys(row: Row): (r: set<string>)
    ensures forall k :: k in r <==> HasKey(row, k)
  {
    set i | 0 <= i < |row| :: row[i].0
  }

  // ----- the `=>` delimiter -----

  /** The two characters `=>` start at index `i` of `s`. */
  predicate DelimAt(s: string, i: int) {
    0 <= i && i + 1 < |s| && s[i] == '=' && s[i + 1] == '>'
  }

  /** `'=>' in s` */
  predicate HasDelim(s: string) {
    exists i | 0 <= i < |s| :: DelimAt(s, i)
  }

  /** `s.find('=>', from)`, with `|s|` standing for "not found". */
  function FindDelim(s: string, from: nat): (r: nat)
    requires from <= |s|
    ensures from <= r <= |s|
    ensures r < |s| ==> DelimAt(s, r)
    ensures forall k :: from <= k < r ==> !DelimAt(s, k)
    ensures r == |s| ==> forall k :: from <= k ==> !DelimAt(s, k)
    decreases |s| - from
  {
    if from + 1 >= |s| then |s|
    else if s[from] == '=' && s[from + 1] == '>' then from
    else FindDelim(s, from + 1)
  }

  /** `s.split('=>')[0]` */
  function SplitFirst(s: string): string {
    s[..FindDelim(s, 0)]
  }

  /** `s.split('=>')[1]`, for a key that holds the delimiter. */
  function SplitSecond(s: string): string
    requires HasDelim(s)
  {
    var i := FindDelim(s, 0);
    var j := FindDelim(s, i + 2);
    s[i + 2..j]
  }

  /** The key `base=>sub` splits back into `base` and `sub` when neither part
      holds the delimiter itself. */
  lemma {:induction false} SplitJoined(base: string, sub: string)
    requires !HasDelim(base) && !HasDelim(sub)
    ensures HasDelim(base + "=>" + sub)
    ensures SplitFirst(base + "=>" + sub) == base
    ensures SplitSecond(base + "=>" + sub) == sub
  {
    var s := base + "=>" + sub;
    assert DelimAt(s, |base|);
    forall k | 0 <= k < |base| ensures !DelimAt(s, k) {
      if k + 1 < |base| {
        assert s[k] == base[k] && s[k + 1] == base[k + 1];
        assert !DelimAt(base, k);
      } else {
        assert s[k + 1] == '=';
      }
    }
    assert FindDelim(s, 0) == |base|;
    forall k | |base| + 2 <= k ensures !DelimAt(s, k) {
      if k + 1 < |s| {
        assert s[k] == sub[k - |base| - 2] && s[k + 1] == sub[k + 1 - |base| - 2];
        assert !DelimAt(sub, k - |base| - 2);
      }
    }
    assert FindDelim(s, |base| + 2) == |s|;
    assert s[..|base|] == base;
    assert s[|base| + 2..] == sub;
  }

  // ----- str.strip -----

  /** The characters Python's `str.isspace` accepts. */
  predicate IsSpace(c: char) {
    var n := c as int;
    c == ' ' || 9 <= n <= 13 || 28 <= n <= 31 || n == 0x85 || n == 0xA0
    || n == 0x1680 || 0x2000 <= n <= 0x200A || n == 0x2028 || n == 0x2029
    || n == 0x202F || n == 0x205F || n == 0x3000
  }

  function StripLeft(s: string): (r: string)
    ensures r == [] || !IsSpace(r[0])
    ensures (r == []) <==> (forall i :: 0 <= i < |s| ==> IsSpace(s[i]))
  {
    if s == [] then s
    else if IsSpace(s[0]) then
      var r := StripLeft(s[1..]);
      assert forall i :: 1 <= i < |s| ==> s[i] == s[1..][i - 1];
      r
    else s
  }

  function StripRight(s: string): (r: string)
    ensures r == [] || !IsSpace(r[|r| - 1])
    ensures (r == []) <==> (forall i :: 0 <= i < |s| ==> IsSpace(s[i]))
  {
    if s == [] then s
    else if IsSpace(s[|s| - 1]) then
      var r := StripRight(s[..|s| - 1]);
      assert forall i :: 0 <= i < |s| - 1 ==> s[i] == s[..|s| - 1][i];
      r
    else s
  }

  /** `s.strip()` */
  function Strip(s: string): string {
    StripRight(StripLeft(s))
  }

  /** A string strips to `''` exactly when it is all whitespace. */
  lemma StripEmptyIff(s: string)
    ensures Strip(s) == "" <==> forall i :: 0 <= i < |s| ==> IsSpace(s[i])
  {
  }

  // ----- str(int) -----

  function DigitChar(d: nat): char
    requires d < 10
  {
    "0123456789"[d]
  }

  function NatToString(n: nat): (r: string)
    ensures |r| >= 1
    decreases n
  {
    if n < 10 then [DigitChar(n)] else NatToString(n / 10) + [DigitChar(n % 10)]
  }

  /** `str(i)` */
  function IntToString(i: int): string {
    if i < 0 then "-" + NatToString(-i) else NatToString(i)
  }
}
