/**
  Python's `collections.Counter` as the pipeline uses it: a map from key to
  a positive count, read with a default of 0 and updated one key at a
  time; and lists without repeats, which is what `set(...)` and the
  `seen` sets of the source produce.
 */
module Counters {

  predicate Distinct<T(==)>(s: seq<T>) {
    forall i, j :: 0 <= i < j < |s| ==> s[i] != s[j]
  }

  /** The tail of a list without repeats has none either, and lacks the head. */
  lemma DistinctTail<T>(s: seq<T>)
    requires Distinct(s) && s != []
    ensures Distinct(s[1..]) && s[0] !in s[1..]
    ensures forall x :: x in s <==> x == s[0] || x in s[1..]
  {
    forall i, j | 0 <= i < j < |s[1..]| ensures s[1..][i] != s[1..][j] {
      assert s[1..][i] == s[i + 1] && s[1..][j] == s[j + 1];
    }
    forall i | 0 <= i < |s[1..]| ensures s[1..][i] != s[0] {
      assert s[1..][i] == s[i + 1];
    }
    assert s == [s[0]] + s[1..];
  }

  /** A permutation of a sequence without duplicates has none either. */
  lemma {:induction false} DistinctPermutation<T>(a: seq<T>, b: seq<T>)
    requires multiset(a) == multiset(b) && Distinct(b)
    ensures Distinct(a)
  {
    forall i, j | 0 <= i < j < |a| ensures a[i] != a[j] {
      if a[i] == a[j] {
        var x := a[i];
        assert a == a[..i] + [x] + a[i + 1..j] + [x] + a[j + 1..];
        assert multiset(a)[x] >= 2;
        DistinctCountsOnce(b, x);
      }
    }
  }

  lemma {:induction false} DistinctCountsOnce<T>(s: seq<T>, x: T)
    requires Distinct(s)
    ensures multiset(s)[x] <= 1
    decreases |s|
  {
    if s != [] {
      assert s == [s[0]] + s[1..];
      assert Distinct(s[1..]) by {
        forall i, j | 0 <= i < j < |s[1..]| ensures s[1..][i] != s[1..][j] {
          assert s[1..][i] == s[i + 1] && s[1..][j] == s[j + 1];
        }
      }
      DistinctCountsOnce(s[1..], x);
      if s[0] == x {
        assert x !in s[1..];
      }
    }
  }

  /** The first occurrence of every element, in order (the `seen` set of the source). */
  function Dedup(s: seq<string>): (r: seq<string>)
    ensures Distinct(r)
    ensures forall x :: x in r <==> x in s
  {
    if s == [] then []
    else
      var init := Dedup(s[..|s| - 1]);
      assert forall x :: x in s <==> x in s[..|s| - 1] || x == s[|s| - 1] by {
        assert s == s[..|s| - 1] + [s[|s| - 1]];
      }
      if s[|s| - 1] in init then init else init + [s[|s| - 1]]
  }

  /** Without repeats there is nothing to drop. */
  lemma {:induction false} DedupOfDistinct(s: seq<string>)
    requires Distinct(s)
    ensures Dedup(s) == s
    decreases |s|
  {
    if s != [] {
      var init := s[..|s| - 1];
      assert Distinct(init);
      DedupOfDistinct(init);
      assert s[|s| - 1] !in init;
      assert s == init + [s[|s| - 1]];
    }
  }

  /** A `Counter` read: a missing key counts 0. */
  function Get(m: map<string, nat>, key: string): nat {
    if key in m then m[key] else 0
  }

  predicate Positive(m: map<string, nat>) {
    forall k :: k in m ==> m[k] >= 1
  }

  /** `counter[k] += 1`. */
  function Inc(m: map<string, nat>, k: string): (r: map<string, nat>)
    ensures forall key :: Get(r, key) == Get(m, key) + (if key == k then 1 else 0)
    ensures Positive(m) ==> Positive(r)
  {
    m[k := Get(m, k) + 1]
  }

  /** `counter.update(keys)` for keys without repeats. */
  function IncAll(m: map<string, nat>, keys: seq<string>): (r: map<string, nat>)
    requires Distinct(keys)
    ensures forall key :: Get(r, key) == Get(m, key) + (if key in keys then 1 else 0)
    ensures Positive(m) ==> Positive(r)
    decreases |keys|
  {
    if keys == [] then m
    else
      DistinctTail(keys);
      IncAll(Inc(m, keys[0]), keys[1..])
  }

  /** `counter.update(keys)` for any list: every occurrence adds one. */
  function Update(m: map<string, nat>, keys: seq<string>): (r: map<string, nat>)
    ensures forall key :: Get(r, key) == Get(m, key) + multiset(keys)[key]
    ensures Positive(m) ==> Positive(r)
  {
    if keys == [] then m
    else
      var init := keys[..|keys| - 1];
      assert keys == init + [keys[|keys| - 1]];
      Inc(Update(m, init), keys[|keys| - 1])
  }
}
