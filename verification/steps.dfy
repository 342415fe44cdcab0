/**
  The list of pipeline step names as the configuration code normalises it:
  every name stripped, blank names dropped, order kept
  (backend/app/services/pipeline.py and backend/app/services/pipeline_config.py
  both apply the same comprehension).
 */
module Steps {
  import opened Text

  /** A list comprehension: the concatenated contributions of the items, in order. */
  function Comprehend(items: seq<string>, f: string -> seq<string>): seq<string>
  {
    if items == [] then [] else f(items[0]) + Comprehend(items[1..], f)
  }

  /** A comprehension works item by item: it distributes over concatenation. */
  lemma {:induction false} ComprehendAppend(a: seq<string>, b: seq<string>, f: string -> seq<string>)
    ensures Comprehend(a + b, f) == Comprehend(a, f) + Comprehend(b, f)
    decreases |a|
  {
    if a == [] {
      assert a + b == b;
    } else {
      ComprehendAppend(a[1..], b, f);
      assert (a + b)[0] == a[0] && (a + b)[1..] == a[1..] + b;
    }
  }

  /** What one item contributes: itself stripped, unless that is blank. */
  function Kept(item: string): (r: seq<string>)
    ensures |r| <= 1
    ensures forall k :: 0 <= k < |r| ==> r[k] != [] && Stripped(r[k])
  {
    if Strip(item) != [] then [Strip(item)] else []
  }

  /** `[s.strip() for s in items if s.strip()]`: each item stripped, the blank ones dropped. */
  function StrippedNonBlank(items: seq<string>): (r: seq<string>)
    ensures |r| <= |items|
    ensures forall k :: 0 <= k < |r| ==> r[k] != [] && Stripped(r[k])
  {
    ComprehendAll(items, Kept, s => s != [] && Stripped(s));
    Comprehend(items, Kept)
  }

  /** Contributions of at most one element each, all satisfying `p`, make at most one element per item, all satisfying `p`. */
  lemma {:induction false} ComprehendAll(items: seq<string>, f: string -> seq<string>, p: string -> bool)
    requires forall x :: |f(x)| <= 1
    requires forall x, k :: 0 <= k < |f(x)| ==> p(f(x)[k])
    ensures |Comprehend(items, f)| <= |items|
    ensures forall k :: 0 <= k < |Comprehend(items, f)| ==> p(Comprehend(items, f)[k])
    decreases |items|
  {
    if items != [] {
      ComprehendAll(items[1..], f, p);
      var h, t := f(items[0]), Comprehend(items[1..], f);
      assert Comprehend(items, f) == h + t;
      forall k | 0 <= k < |h + t| ensures p((h + t)[k]) {
        if k < |h| {
          assert (h + t)[k] == h[k];
        } else {
          assert (h + t)[k] == t[k - |h|];
        }
      }
    }
  }

  /** The normalisation works step name by step name. */
  lemma StrippedNonBlankAppend(a: seq<string>, b: seq<string>)
    ensures StrippedNonBlank(a + b) == StrippedNonBlank(a) + StrippedNonBlank(b)
  {
    ComprehendAppend(a, b, Kept);
  }

  /** One step name becomes its stripped self, or nothing when it is blank. */
  lemma StrippedNonBlankOne(item: string)
    ensures StrippedNonBlank([item]) == Kept(item)
  {
    ComprehendOne(item, Kept);
  }

  lemma ComprehendOne(item: string, f: string -> seq<string>)
    ensures Comprehend([item], f) == f(item)
  {
    assert [item][1..] == [];
  }

  /** A comprehension whose function returns every item unchanged is the identity. */
  lemma {:induction false} ComprehendIdentity(items: seq<string>, f: string -> seq<string>)
    requires forall k :: 0 <= k < |items| ==> f(items[k]) == [items[k]]
    ensures Comprehend(items, f) == items
    decreases |items|
  {
    if items != [] {
      var rest := items[1..];
      assert forall k :: 0 <= k < |rest| ==> rest[k] == items[k + 1];
      ComprehendIdentity(rest, f);
      assert items == [items[0]] + rest;
    }
  }

  lemma CleanKept(item: string)
    requires item != [] && Stripped(item)
    ensures Kept(item) == [item]
  {
    StripOfStripped(item);
  }

  /** Step names that are already stripped and non-blank pass through unchanged. */
  lemma StrippedNonBlankOfClean(items: seq<string>)
    requires forall k :: 0 <= k < |items| ==> items[k] != [] && Stripped(items[k])
    ensures StrippedNonBlank(items) == items
  {
    forall k | 0 <= k < |items| ensures Kept(items[k]) == [items[k]] {
      CleanKept(items[k]);
    }
    ComprehendIdentity(items, Kept);
  }
}
