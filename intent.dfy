/** What a sync row asks for: the `SyncActions` intent and its encoding as an
    action-flags string such as `"cu*"` (`CsvSyncActionsEncoder`,
    `CsvSyncActionsDecoder`). */
module Intent {
  import opened Common

  /** The four flags. Construction goes through `NewSyncActions`, which
      refuses delete together with create or update. */
  datatype SyncActions = SyncActions(create: bool, update: bool, delete: bool, force: bool)

  predicate Valid(a: SyncActions) {
    !(a.delete && (a.create || a.update))
  }

  /** `SyncActions(create, update, delete, force)` */
  function NewSyncActions(create: bool, update: bool, delete: bool, force: bool): (r: Result<SyncActions>)
    ensures r.Success? <==> !(delete && (create || update))
    ensures r.Success? ==> r.value == SyncActions(create, update, delete, force) && Valid(r.value)
    ensures r.Failure? ==> r.error == ValueError
  {
    if delete && create then Failure(ValueError)
    else if delete && update then Failure(ValueError)
    else Success(SyncActions(create, update, delete, force))
  }

  /** `is_impotent`: the intent neither creates, updates nor deletes. */
  predicate IsImpotent(a: SyncActions) {
    !(a.create || a.update || a.delete)
  }

  /** The position of an encoded flag character in the fixed order `cud*`. */
  function Rank(c: char): int {
    if c == 'c' then 0 else if c == 'u' then 1 else if c == 'd' then 2 else if c == '*' then 3 else 4
  }

  /** `CsvSyncActionsEncoder.encode`: one character per set flag, in the
      order `c`, `u`, `d`, `*`. */
  function Encode(a: SyncActions): (r: string)
    ensures 'c' in r <==> a.create
    ensures 'u' in r <==> a.update
    ensures 'd' in r <==> a.delete
    ensures '*' in r <==> a.force
  {
    Flag(a.create, 'c') + (Flag(a.update, 'u') + (Flag(a.delete, 'd') + Flag(a.force, '*')))
  }

  function Flag(b: bool, c: char): string {
    if b then [c] else []
  }

  /** The characters of `s` come strictly in the order `c`, `u`, `d`, `*`,
      each of rank above `k`. */
  predicate OrderedAbove(s: string, k: int) {
    (forall i :: 0 <= i < |s| ==> k < Rank(s[i]) < 4)
    && (forall i, j :: 0 <= i < j < |s| ==> Rank(s[i]) < Rank(s[j]))
  }

  lemma {:induction false} FlagOrdered(b: bool, c: char, rest: string, k: int)
    requires OrderedAbove(rest, Rank(c)) && k < Rank(c) < 4
    ensures OrderedAbove(Flag(b, c) + rest, k)
  {
    var s := Flag(b, c) + rest;
    if b {
      assert s == [c] + rest;
      forall i | 0 <= i < |s| ensures k < Rank(s[i]) < 4 {
        if i > 0 {
          assert s[i] == rest[i - 1];
        }
      }
      forall i, j | 0 <= i < j < |s| ensures Rank(s[i]) < Rank(s[j]) {
        assert s[j] == rest[j - 1];
        if i > 0 {
          assert s[i] == rest[i - 1];
        }
      }
    } else {
      assert s == rest;
    }
  }

  /** The encoding lists its characters in the fixed order `c`, `u`, `d`,
      `*`, and nothing else. */
  lemma EncodeOrdered(a: SyncActions)
    ensures OrderedAbove(Encode(a), -1)
  {
    var f := Flag(a.force, '*');
    var d := Flag(a.delete, 'd') + f;
    var u := Flag(a.update, 'u') + d;
    assert OrderedAbove(f, Rank('d')) by {
      FlagOrdered(a.force, '*', [], 2);
      assert f + [] == f;
    }
    assert OrderedAbove(d, Rank('u')) by {
      FlagOrdered(a.delete, 'd', f, 1);
    }
    assert OrderedAbove(u, Rank('c')) by {
      FlagOrdered(a.update, 'u', d, 0);
    }
    FlagOrdered(a.create, 'c', u, -1);
  }

  /** `CsvSyncActionsDecoder.decode`: a falsy value gives no flags; a string
      sets each flag whose letter it holds in either case; a value that is
      not a string cannot be searched (the `TypeError` is swallowed) and
      gives no flags. The construction then refuses delete with create or
      update. */
  function Decode(flags: Value): Result<SyncActions> {
    if Truthy(flags) && flags.Str? then
      var s := flags.s;
      NewSyncActions('C' in s || 'c' in s, 'U' in s || 'u' in s, 'D' in s || 'd' in s, '*' in s)
    else
      NewSyncActions(false, false, false, false)
  }

  /** Every intent that can be constructed survives encoding and decoding. */
  lemma RoundTrip(a: SyncActions)
    requires Valid(a)
    ensures Decode(Str(Encode(a))) == Success(a)
  {
    EncodeOrdered(a);
    DecodeFlags(Encode(a), a);
  }

  lemma DecodeFlags(s: string, a: SyncActions)
    requires Valid(a)
    requires forall i :: 0 <= i < |s| ==> Rank(s[i]) < 4
    requires ('c' in s <==> a.create) && ('u' in s <==> a.update)
    requires ('d' in s <==> a.delete) && ('*' in s <==> a.force)
    ensures Decode(Str(s)) == Success(a)
  {
    assert 'C' !in s && 'U' !in s && 'D' !in s by {
      forall i | 0 <= i < |s| ensures s[i] != 'C' && s[i] != 'U' && s[i] != 'D' {
        assert Rank(s[i]) < 4;
      }
    }
  }

  /** Decoding refuses exactly the strings that ask for a delete together
      with a create or an update. */
  lemma DecodeFailsIff(s: string)
    ensures Decode(Str(s)).Failure? <==>
      ('D' in s || 'd' in s) && ('C' in s || 'c' in s || 'U' in s || 'u' in s)
    ensures Decode(Str(s)).Failure? ==> Decode(Str(s)).error == ValueError
  {
  }

  /** A value that is not a string (such as the integer 123) decodes to no
      flags at all. */
  lemma DecodeNonString(flags: Value)
    requires !flags.Str?
    ensures Decode(flags) == Success(SyncActions(false, false, false, false))
  {
  }

  function UpperChar(c: char): char {
    if 'a' <= c <= 'z' then (c as int - 32) as char else c
  }

  function LowerChar(c: char): char {
    if 'A' <= c <= 'Z' then (c as int + 32) as char else c
  }

  /** `s.upper()` and `s.lower()`, restricted to the ASCII letters. */
  function Upper(s: string): (r: string)
    ensures |r| == |s| && forall i :: 0 <= i < |s| ==> r[i] == UpperChar(s[i])
  {
    seq(|s|, i requires 0 <= i < |s| => UpperChar(s[i]))
  }

  function Lower(s: string): (r: string)
    ensures |r| == |s| && forall i :: 0 <= i < |s| ==> r[i] == LowerChar(s[i])
  {
    seq(|s|, i requires 0 <= i < |s| => LowerChar(s[i]))
  }

  /** The string holds the letter `lower` in either case. */
  predicate HasLetter(s: string, lower: char, upper: char) {
    upper in s || lower in s
  }

  lemma {:induction false} HasLetterUpper(s: string, lower: char, upper: char)
    requires 'a' <= lower <= 'z' && upper == UpperChar(lower)
    ensures HasLetter(Upper(s), lower, upper) <==> HasLetter(s, lower, upper)
  {
    var t := Upper(s);
    if HasLetter(s, lower, upper) {
      var i :| 0 <= i < |s| && (s[i] == upper || s[i] == lower);
      assert t[i] == upper;
    }
    if HasLetter(t, lower, upper) {
      var i :| 0 <= i < |t| && (t[i] == upper || t[i] == lower);
      assert s[i] == upper || s[i] == lower;
    }
  }

  lemma {:induction false} HasLetterLower(s: string, lower: char, upper: char)
    requires 'a' <= lower <= 'z' && upper == UpperChar(lower)
    ensures HasLetter(Lower(s), lower, upper) <==> HasLetter(s, lower, upper)
  {
    var t := Lower(s);
    if HasLetter(s, lower, upper) {
      var i :| 0 <= i < |s| && (s[i] == upper || s[i] == lower);
      assert t[i] == lower;
    }
    if HasLetter(t, lower, upper) {
      var i :| 0 <= i < |t| && (t[i] == upper || t[i] == lower);
      assert s[i] == upper || s[i] == lower;
    }
  }

  lemma {:induction false} StarUnchanged(s: string)
    ensures '*' in Upper(s) <==> '*' in s
    ensures '*' in Lower(s) <==> '*' in s
  {
    var u, l := Upper(s), Lower(s);
    if '*' in s {
      var i :| 0 <= i < |s| && s[i] == '*';
      assert u[i] == '*' && l[i] == '*';
    }
    if '*' in u {
      var i :| 0 <= i < |u| && u[i] == '*';
      assert s[i] == '*';
    }
    if '*' in l {
      var i :| 0 <= i < |l| && l[i] == '*';
      assert s[i] == '*';
    }
  }

  /** Decoding does not depend on the case of the flag letters. */
  lemma DecodeCaseInsensitive(s: string)
    ensures Decode(Str(Upper(s))) == Decode(Str(s))
    ensures Decode(Str(Lower(s))) == Decode(Str(s))
  {
    HasLetterUpper(s, 'c', 'C');
    HasLetterUpper(s, 'u', 'U');
    HasLetterUpper(s, 'd', 'D');
    HasLetterLower(s, 'c', 'C');
    HasLetterLower(s, 'u', 'U');
    HasLetterLower(s, 'd', 'D');
    StarUnchanged(s);
  }

  /** The characters decoding looks for. */
  predicate IsFlagChar(c: char) {
    c in "cCuUdD*"
  }

  /** Inserting any character that is not a flag letter or `*`, anywhere,
      does not change what a string decodes to. */
  lemma {:induction false} DecodeIgnoresOthers(s1: string, c: char, s2: string)
    requires !IsFlagChar(c)
    ensures Decode(Str(s1 + [c] + s2)) == Decode(Str(s1 + s2))
  {
    InsertOther(s1, c, s2, 'c');
    InsertOther(s1, c, s2, 'C');
    InsertOther(s1, c, s2, 'u');
    InsertOther(s1, c, s2, 'U');
    InsertOther(s1, c, s2, 'd');
    InsertOther(s1, c, s2, 'D');
    InsertOther(s1, c, s2, '*');
  }

  /** Inserting a character other than `f` does not change whether `f`
      occurs. */
  lemma InsertOther(s1: string, c: char, s2: string, f: char)
    requires c != f
    ensures f in s1 + [c] + s2 <==> f in s1 + s2
  {
    var long, short := s1 + [c] + s2, s1 + s2;
    if f in long {
      var i :| 0 <= i < |long| && long[i] == f;
      if i < |s1| { assert short[i] == f; }
      else { assert i > |s1| && short[i - 1] == f; }
    }
    if f in short {
      var i :| 0 <= i < |short| && short[i] == f;
      if i < |s1| { assert long[i] == f; }
      else { assert long[i + 1] == f; }
    }
  }

  /** An intent is impotent exactly when its encoding holds at most the
      force flag. */
  lemma ImpotentIff(a: SyncActions)
    ensures IsImpotent(a) <==> Encode(a) == "" || Encode(a) == "*"
  {
    if Encode(a) == "*" {
      assert Encode(a)[0] == '*';
    }
  }
}
