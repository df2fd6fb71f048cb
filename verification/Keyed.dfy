/** An object store: records kept in ascending order of their key, each key
    at most once, the way an IndexedDB object store holds and iterates them.
    `put`, `get`, `delete` and `add` with a fresh key are the operations. */
module Keyed {
  import opened Wrappers
  import Seqs

  /** Strictly ascending keys: key order, and no key twice. */
  predicate Ascending<T>(s: seq<T>, key: T -> nat)
  {
    forall i, j :: 0 <= i < j < |s| ==> key(s[i]) < key(s[j])
  }

  /** Every key is below `bound` (the next id the fresh-id supply hands out). */
  predicate KeysBelow<T>(s: seq<T>, key: T -> nat, bound: nat)
  {
    forall i :: 0 <= i < |s| ==> key(s[i]) < bound
  }

  predicate HasKey<T>(s: seq<T>, k: nat, key: T -> nat)
  {
    exists i :: 0 <= i < |s| && key(s[i]) == k
  }

  function KeyIs<T>(key: T -> nat, k: nat): T -> bool
  {
    x => key(x) == k
  }

  function KeyIsNot<T>(key: T -> nat, k: nat): T -> bool
  {
    x => key(x) != k
  }

  /** `get`: the record stored under `k`, if any. */
  function Find<T>(s: seq<T>, k: nat, key: T -> nat): (r: Option<T>)
    ensures r.Some? ==> r.value in s && key(r.value) == k
    ensures r.None? <==> !HasKey(s, k, key)
  {
    var m := Seqs.Filter(s, KeyIs(key, k));
    if m == [] then None else
      Some(m[0])
  }

  /** `put`: replace the record with the same key, or insert it in key order. */
  function Upsert<T>(s: seq<T>, x: T, key: T -> nat): (r: seq<T>)
    ensures x in r
    ensures forall i :: 0 <= i < |r| ==> r[i] == x || r[i] in s
    ensures Ascending(s, key) ==> |r| == if HasKey(s, key(x), key) then |s| else |s| + 1
  {
    if s == [] then [x]
    else if key(s[0]) == key(x) then
      assert Ascending(s, key) ==> Ascending(s[1..], key) && !HasKey(s[1..], key(x), key);
      [x] + s[1..]
    else if key(x) < key(s[0]) then
      assert Ascending(s, key) ==> !HasKey(s, key(x), key);
      [x] + s
    else
      var rest := Upsert(s[1..], x, key);
      assert HasKey(s, key(x), key) <==> HasKey(s[1..], key(x), key) by {
        if HasKey(s, key(x), key) {
          var i :| 0 <= i < |s| && key(s[i]) == key(x);
          assert key(s[1..][i - 1]) == key(x);
        }
      }
      assert Ascending(s, key) ==> Ascending(s[1..], key);
      [s[0]] + rest
  }

  /** `delete`: drop the record stored under `k`, keeping the others in order. */
  function Remove<T>(s: seq<T>, k: nat, key: T -> nat): (r: seq<T>)
    ensures !HasKey(r, k, key)
    ensures forall i :: 0 <= i < |s| && key(s[i]) != k ==> s[i] in r
  {
    var r := Seqs.Filter(s, KeyIsNot(key, k));
    assert forall i :: 0 <= i < |r| ==> key(r[i]) != k by {
      forall i | 0 <= i < |r| ensures key(r[i]) != k {
        assert KeyIsNot(key, k)(r[i]);
      }
    }
    assert forall i :: 0 <= i < |s| && key(s[i]) != k ==> s[i] in r by {
      forall i | 0 <= i < |s| && key(s[i]) != k ensures s[i] in r {
        assert KeyIsNot(key, k)(s[i]);
      }
    }
    r
  }

  /** A subsequence chosen by a filter keeps the keys ascending. */
  lemma {:induction false} FilterAscending<T>(s: seq<T>, p: T -> bool, key: T -> nat)
    requires Ascending(s, key)
    ensures Ascending(Seqs.Filter(s, p), key)
    ensures forall b: nat :: KeysBelow(s, key, b) ==> KeysBelow(Seqs.Filter(s, p), key, b)
  {
    if s != [] {
      var s' := s[..|s| - 1];
      var x := s[|s| - 1];
      assert Ascending(s', key);
      FilterAscending(s', p, key);
      var f := Seqs.Filter(s', p);
      forall i | 0 <= i < |f| ensures key(f[i]) < key(x) {
        var j :| 0 <= j < |s'| && s'[j] == f[i];
      }
    }
  }

  /** After a put, `get` finds the new record under its key and the old
      answer under every other key. */
  lemma {:induction false} FindUpsert<T>(s: seq<T>, x: T, k: nat, key: T -> nat)
    ensures Find(Upsert(s, x, key), k, key) == if k == key(x) then Some(x) else Find(s, k, key)
  {
    var p := KeyIs(key, k);
    if s == [] {
      Seqs.FilterCons(x, [], p);
    } else if key(s[0]) == key(x) {
      Seqs.FilterCons(x, s[1..], p);
      assert s == [s[0]] + s[1..];
      Seqs.FilterCons(s[0], s[1..], p);
    } else if key(x) < key(s[0]) {
      Seqs.FilterCons(x, s, p);
    } else {
      FindUpsert(s[1..], x, k, key);
      Seqs.FilterCons(s[0], Upsert(s[1..], x, key), p);
      assert s == [s[0]] + s[1..];
      Seqs.FilterCons(s[0], s[1..], p);
    }
  }

  /** A put keeps the keys ascending. */
  lemma {:induction false} UpsertAscending<T>(s: seq<T>, x: T, key: T -> nat)
    requires Ascending(s, key)
    ensures Ascending(Upsert(s, x, key), key)
  {
    if s != [] && key(x) > key(s[0]) {
      assert Ascending(s[1..], key);
      UpsertAscending(s[1..], x, key);
      var rest := Upsert(s[1..], x, key);
      forall i | 0 <= i < |rest| ensures key(s[0]) < key(rest[i]) {
        if rest[i] != x {
          var j :| 0 <= j < |s[1..]| && s[1..][j] == rest[i];
          assert s[1..][j] == s[j + 1];
        }
      }
      assert Upsert(s, x, key) == [s[0]] + rest;
    }
  }

  /** A put of a key below the bound keeps every key below it. */
  lemma UpsertKeysBelow<T>(s: seq<T>, x: T, key: T -> nat, bound: nat)
    requires KeysBelow(s, key, bound) && key(x) < bound
    ensures KeysBelow(Upsert(s, x, key), key, bound)
  {
    var r := Upsert(s, x, key);
    forall i | 0 <= i < |r| ensures key(r[i]) < bound {
      if r[i] != x {
        var j :| 0 <= j < |s| && s[j] == r[i];
      }
    }
  }

  /** A delete forgets exactly the deleted key. */
  lemma FindRemove<T>(s: seq<T>, k: nat, j: nat, key: T -> nat)
    ensures Find(Remove(s, k, key), j, key) == if j == k then None else Find(s, j, key)
  {
    var r := Remove(s, k, key);
    if j != k {
      Seqs.FilterFilter(s, KeyIsNot(key, k), KeyIs(key, j), KeyIs(key, j));
    }
  }

  /** A delete keeps the keys ascending and below their bound. */
  lemma RemoveAscending<T>(s: seq<T>, k: nat, key: T -> nat)
    requires Ascending(s, key)
    ensures Ascending(Remove(s, k, key), key)
    ensures forall b: nat :: KeysBelow(s, key, b) ==> KeysBelow(Remove(s, k, key), key, b)
  {
    FilterAscending(s, KeyIsNot(key, k), key);
  }

  /** `add` with a key above every stored key appends the record, the same
      as a put would. */
  lemma {:induction false} AppendFresh<T>(s: seq<T>, x: T, key: T -> nat)
    requires KeysBelow(s, key, key(x))
    ensures Upsert(s, x, key) == s + [x]
  {
    if s != [] {
      assert key(s[0]) < key(x);
      assert KeysBelow(s[1..], key, key(x));
      AppendFresh(s[1..], x, key);
      assert Upsert(s, x, key) == [s[0]] + Upsert(s[1..], x, key);
      assert s + [x] == [s[0]] + (s[1..] + [x]);
    }
  }

  /** ... and the store stays in key order. */
  lemma AppendAscending<T>(s: seq<T>, x: T, key: T -> nat)
    requires Ascending(s, key) && KeysBelow(s, key, key(x))
    ensures Ascending(s + [x], key)
  {
  }

  /** With each key once, looking up the key of a stored record finds that record. */
  lemma FindUnique<T>(s: seq<T>, x: T, key: T -> nat)
    requires Ascending(s, key) && x in s
    ensures Find(s, key(x), key) == Some(x)
  {
    var i :| 0 <= i < |s| && s[i] == x;
    assert HasKey(s, key(x), key);
    var r := Find(s, key(x), key);
    var j :| 0 <= j < |s| && s[j] == r.value;
    assert !(i < j) && !(j < i);
  }
}
