/**
  A stable sort into descending order of an integer key. Python's
  `sorted(xs, key=k, reverse=True)`, `Counter.most_common()` and JavaScript's
  `[...xs].sort((a, b) => k(b) - k(a))` all sort this way: larger keys first,
  and elements with equal keys keep their input order.
 */
module Sorting {

  ghost predicate SortedDesc<T>(s: seq<T>, key: T -> int) {
    forall i, j :: 0 <= i < j < |s| ==> key(s[i]) >= key(s[j])
  }

  /** The elements of `s` whose key is `v`, in their order in `s`. */
  function KeyFilter<T>(s: seq<T>, key: T -> int, v: int): (r: seq<T>)
    ensures |r| <= |s|
  {
    if s == [] then []
    else (if key(s[0]) == v then [s[0]] else []) + KeyFilter(s[1..], key, v)
  }

  lemma KeyFilterCons<T>(x: T, s: seq<T>, key: T -> int, v: int)
    ensures KeyFilter([x] + s, key, v) == (if key(x) == v then [x] else []) + KeyFilter(s, key, v)
  {
    assert ([x] + s)[1..] == s;
  }

  /** Inserts `x` in front of the first element whose key is not larger than `x`'s. */
  function Insert<T>(x: T, s: seq<T>, key: T -> int): (r: seq<T>)
    requires SortedDesc(s, key)
    ensures SortedDesc(r, key)
    ensures multiset(r) == multiset(s) + multiset{x}
    ensures |r| == |s| + 1
  {
    if s == [] then [x]
    else if key(s[0]) <= key(x) then
      var r := [x] + s;
      assert r[1..] == s;
      r
    else
      var t := Insert(x, s[1..], key);
      var r := [s[0]] + t;
      assert s == [s[0]] + s[1..];
      HeadBounds(x, s, t, key);
      ConsSorted(s[0], t, key);
      r
  }

  /** After `x` is inserted into the tail of `s`, the head of `s` still bounds every key. */
  lemma HeadBounds<T>(x: T, s: seq<T>, t: seq<T>, key: T -> int)
    requires SortedDesc(s, key) && s != [] && key(s[0]) > key(x)
    requires multiset(t) == multiset(s[1..]) + multiset{x}
    ensures forall k :: 0 <= k < |t| ==> key(s[0]) >= key(t[k])
  {
    forall k | 0 <= k < |t| ensures key(s[0]) >= key(t[k]) {
      assert t[k] in multiset(t);
      if t[k] != x {
        assert t[k] in multiset(s[1..]);
        var j :| 0 <= j < |s[1..]| && s[1..][j] == t[k];
        assert s[j + 1] == t[k];
      }
    }
  }

  /** A sorted sequence stays sorted behind an element whose key bounds all of its keys. */
  lemma ConsSorted<T>(h: T, t: seq<T>, key: T -> int)
    requires SortedDesc(t, key)
    requires forall k :: 0 <= k < |t| ==> key(h) >= key(t[k])
    ensures SortedDesc([h] + t, key)
  {
    var r := [h] + t;
    forall i, j | 0 <= i < j < |r| ensures key(r[i]) >= key(r[j]) {
      assert r[j] == t[j - 1];
      if i > 0 {
        assert r[i] == t[i - 1];
      }
    }
  }

  /**
    The stable descending sort: the result is ordered by non-increasing key,
    is a permutation of the input, and lists the elements of every key in
    their input order.
   */
  function StableSortDesc<T>(s: seq<T>, key: T -> int): (r: seq<T>)
    ensures SortedDesc(r, key)
    ensures multiset(r) == multiset(s)
    ensures |r| == |s|
  {
    if s == [] then []
    else
      var t := StableSortDesc(s[1..], key);
      MultisetCons(s);
      Insert(s[0], t, key)
  }

  lemma MultisetCons<T>(s: seq<T>)
    requires s != []
    ensures multiset(s) == multiset(s[1..]) + multiset{s[0]}
  {
    assert s == [s[0]] + s[1..];
  }

  lemma {:induction false} InsertKeyFilter<T>(x: T, s: seq<T>, key: T -> int, v: int)
    requires SortedDesc(s, key)
    ensures KeyFilter(Insert(x, s, key), key, v) == (if key(x) == v then [x] else []) + KeyFilter(s, key, v)
    decreases |s|
  {
    if s == [] || key(s[0]) <= key(x) {
      KeyFilterCons(x, s, key, v);
    } else {
      var h, tl := s[0], s[1..];
      assert s == [h] + tl;
      assert SortedDesc(tl, key) by {
        forall i, j | 0 <= i < j < |tl| ensures key(tl[i]) >= key(tl[j]) {
          assert tl[i] == s[i + 1] && tl[j] == s[j + 1];
        }
      }
      InsertKeyFilter(x, tl, key, v);
      assert Insert(x, s, key) == [h] + Insert(x, tl, key);
      KeyFilterBehind(x, h, tl, Insert(x, tl, key), key, v);
    }
  }

  /** `x` passing behind a larger `h` does not change the order among the elements of any one key. */
  lemma KeyFilterBehind<T>(x: T, h: T, tl: seq<T>, t: seq<T>, key: T -> int, v: int)
    requires key(h) > key(x)
    requires KeyFilter(t, key, v) == (if key(x) == v then [x] else []) + KeyFilter(tl, key, v)
    ensures KeyFilter([h] + t, key, v) == (if key(x) == v then [x] else []) + KeyFilter([h] + tl, key, v)
  {
    var X := if key(x) == v then [x] else [];
    var H := if key(h) == v then [h] else [];
    KeyFilterCons(h, t, key, v);
    KeyFilterCons(h, tl, key, v);
    SwapEmptyPrefix(H, X, KeyFilter(tl, key, v));
  }

  lemma SwapEmptyPrefix<T>(a: seq<T>, b: seq<T>, c: seq<T>)
    requires a == [] || b == []
    ensures a + (b + c) == b + (a + c)
  {
  }

  /** Stability: for every key, the elements carrying it appear in input order. */
  lemma {:induction false} StableSortKeepsTies<T>(s: seq<T>, key: T -> int, v: int)
    ensures KeyFilter(StableSortDesc(s, key), key, v) == KeyFilter(s, key, v)
    decreases |s|
  {
    if s != [] {
      StableSortKeepsTies(s[1..], key, v);
      InsertKeyFilter(s[0], StableSortDesc(s[1..], key), key, v);
    }
  }

  /** `s.slice(0, n)` / `s[:n]`. */
  function Take<T>(s: seq<T>, n: nat): (r: seq<T>)
    ensures |r| == if |s| < n then |s| else n
    ensures forall i :: 0 <= i < |r| ==> r[i] == s[i]
  {
    if |s| <= n then s else s[..n]
  }
}
