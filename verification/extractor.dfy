/**
  The technical-keyword extractor (backend/app/services/extractor.py).

  Keywords come grouped by category. They are matched longest first, a
  match that overlaps an earlier accepted match is rejected, and every
  keyword counts at most once per block. The keyword patterns (the escaped
  keyword between `\w` look-arounds, ignoring case) are a parameter:
  `finder(keyword, text)` lists the spans `finditer` yields, in text order.
  Python's `str.lower` is a parameter as well.
 */
module Extractor {
  import opened Results
  import opened Sorting
  import opened Stats
  import opened Counters

  /** A match of a keyword pattern: the half-open character range `[start, end)`. */
  datatype Span = Span(start: int, end: int)

  /** One hit of `extract_keywords`. */
  datatype KeywordMatch = KeywordMatch(keyword: string, category: string)

  /** The configured keywords: category name and its keywords, in file order. */
  type Groups = seq<(string, seq<string>)>

  /**
    An extractor: its configuration and parameters, and what `__init__`
    derives from them once (the sorted keyword list and the category map).
   */
  datatype KeywordExtractor = KeywordExtractor(
    groups: Groups,
    lower: string -> string,
    finder: (string, string) -> seq<Span>,
    sorted: seq<string>,
    categories: map<string, string>)

  predicate InSomeGroup(groups: Groups, kw: string) {
    exists g :: 0 <= g < |groups| && kw in groups[g].1
  }

  /** Every keyword of every category, in file order, repeats included. */
  function AllKeywords(groups: Groups): (r: seq<string>)
    ensures forall kw :: kw in r <==> InSomeGroup(groups, kw)
  {
    if groups == [] then []
    else
      var init := AllKeywords(groups[..|groups| - 1]);
      assert forall g :: 0 <= g < |groups| - 1 ==> groups[..|groups| - 1][g] == groups[g];
      init + groups[|groups| - 1].1
  }

  function KeywordLength(kw: string): int {
    |kw|
  }

  /** `_sorted_keywords`: the distinct keywords, longest first. */
  function SortedKeywords(groups: Groups): (r: seq<string>)
    ensures forall kw :: kw in r <==> InSomeGroup(groups, kw)
    ensures SortedDesc(r, KeywordLength)
    ensures multiset(r) == multiset(Dedup(AllKeywords(groups)))
  {
    var d := Dedup(AllKeywords(groups));
    var r := StableSortDesc(d, KeywordLength);
    assert forall kw :: kw in r <==> kw in d by {
      forall kw ensures kw in r <==> kw in d {
        assert kw in r <==> kw in multiset(r);
        assert kw in d <==> kw in multiset(d);
      }
    }
    r
  }

  /**
    Every configured keyword appears exactly once, and keywords of equal
    length keep the order in which they were first seen.
   */
  lemma SortedKeywordsDistinctAndStable(groups: Groups, n: int)
    ensures Distinct(SortedKeywords(groups))
    ensures KeyFilter(SortedKeywords(groups), KeywordLength, n)
         == KeyFilter(Dedup(AllKeywords(groups)), KeywordLength, n)
  {
    DistinctPermutation(SortedKeywords(groups), Dedup(AllKeywords(groups)));
    StableSortKeepsTies(Dedup(AllKeywords(groups)), KeywordLength, n);
  }

  /** `_overlaps` for one pair: the half-open ranges share a position. */
  predicate Overlaps(a: Span, b: Span) {
    !(a.end <= b.start || a.start >= b.end)
  }

  /** `_overlaps`: the span overlaps one of the accepted spans. */
  predicate OverlapsAny(span: Span, spans: seq<Span>) {
    exists k :: 0 <= k < |spans| && Overlaps(span, spans[k])
  }

  predicate PairwiseDisjoint(spans: seq<Span>) {
    forall i, j :: 0 <= i < j < |spans| ==> !Overlaps(spans[i], spans[j])
  }

  /** Position `p` lies in the half-open span. */
  predicate Covers(s: Span, p: int) {
    s.start <= p < s.end
  }

  /** For non-empty spans the half-open test means exactly "some position lies in both"; it is symmetric. */
  lemma OverlapsIffSharedPosition(a: Span, b: Span)
    requires a.start < a.end && b.start < b.end
    ensures Overlaps(a, b) <==> exists p :: Covers(a, p) && Covers(b, p)
    ensures Overlaps(a, b) == Overlaps(b, a)
  {
    if Overlaps(a, b) {
      var p := if a.start < b.start then b.start else a.start;
      assert Covers(a, p) && Covers(b, p);
    }
  }

  /** `str.lower()` of some keyword of the list is `key`. */
  predicate Mentions(kws: seq<string>, lower: string -> string, key: string) {
    exists k :: k in kws && lower(k) == key
  }

  /**
    The category of the last group that mentions `key`, searching from the
    end of the file: the category a later entry of the map assignment leaves.
   */
  function LastCategory(groups: Groups, lower: string -> string, key: string): Option<string> {
    if groups == [] then None
    else if Mentions(groups[|groups| - 1].1, lower, key) then Some(groups[|groups| - 1].0)
    else LastCategory(groups[..|groups| - 1], lower, key)
  }

  /** `mapping[kw.lower()] = category` for the keywords of one category, in order. */
  function AssignAll(m: map<string, string>, kws: seq<string>, lower: string -> string, category: string)
    : (r: map<string, string>)
    ensures forall key :: key in r <==> key in m || Mentions(kws, lower, key)
    ensures forall key :: key in r ==> r[key] == if Mentions(kws, lower, key) then category else m[key]
    decreases |kws|
  {
    if kws == [] then m
    else
      var r := AssignAll(m[lower(kws[0]) := category], kws[1..], lower, category);
      assert forall key :: Mentions(kws, lower, key) <==> lower(kws[0]) == key || Mentions(kws[1..], lower, key) by {
        forall key ensures Mentions(kws, lower, key) <==> lower(kws[0]) == key || Mentions(kws[1..], lower, key) {
          if Mentions(kws, lower, key) {
            var k :| k in kws && lower(k) == key;
            if k != kws[0] { assert k in kws[1..]; }
          }
          if Mentions(kws[1..], lower, key) {
            var k :| k in kws[1..] && lower(k) == key;
            assert k in kws;
          }
        }
      }
      r
  }

  /** `_build_keyword_category_map`: lowered keyword to category; a later category overwrites an earlier one. */
  function CategoryMap(groups: Groups, lower: string -> string): map<string, string> {
    if groups == [] then map[]
    else
      var n := |groups| - 1;
      AssignAll(CategoryMap(groups[..n], lower), groups[n].1, lower, groups[n].0)
  }

  /** The map holds a lowered keyword exactly when some group lists it, with the category of the last such group. */
  lemma {:induction false} CategoryMapIsLast(groups: Groups, lower: string -> string, key: string)
    ensures key in CategoryMap(groups, lower) <==> LastCategory(groups, lower, key).Some?
    ensures key in CategoryMap(groups, lower) ==> CategoryMap(groups, lower)[key] == LastCategory(groups, lower, key).value
    decreases |groups|
  {
    if groups != [] {
      CategoryMapIsLast(groups[..|groups| - 1], lower, key);
    }
  }

  /** `KeywordExtractor.__init__`: the derived fields are computed from the configuration. */
  function NewExtractor(groups: Groups, lower: string -> string, finder: (string, string) -> seq<Span>)
    : (x: KeywordExtractor)
    ensures Valid(x)
    ensures x.groups == groups && x.lower == lower && x.finder == finder
    ensures x.sorted == SortedKeywords(groups) && x.categories == CategoryMap(groups, lower)
  {
    SortedKeywordsDistinctAndStable(groups, 0);
    KeywordExtractor(groups, lower, finder, SortedKeywords(groups), CategoryMap(groups, lower))
  }

  /**
    What `__init__` establishes: every configured keyword is tried exactly
    once, longest first, and the category map is built from the groups.
   */
  ghost predicate Valid(x: KeywordExtractor) {
    && Distinct(x.sorted)
    && SortedDesc(x.sorted, KeywordLength)
    && (forall kw :: kw in x.sorted <==> InSomeGroup(x.groups, kw))
    && x.categories == CategoryMap(x.groups, x.lower)
  }

  /** The category `extract_keywords` records: the map entry of the lowered keyword, or `"unknown"`. */
  function Category(x: KeywordExtractor, kw: string): string {
    if x.lower(kw) in x.categories then x.categories[x.lower(kw)] else "unknown"
  }

  /** A keyword's category is that of the last group listing it up to case, `"unknown"` when none does. */
  lemma CategoryIsLast(x: KeywordExtractor, kw: string)
    requires Valid(x)
    ensures LastCategory(x.groups, x.lower, x.lower(kw)).Some? ==>
      Category(x, kw) == LastCategory(x.groups, x.lower, x.lower(kw)).value
    ensures LastCategory(x.groups, x.lower, x.lower(kw)).None? ==> Category(x, kw) == "unknown"
  {
    CategoryMapIsLast(x.groups, x.lower, x.lower(kw));
  }

  /** A configured keyword is never `"unknown"` by default: it gets the last category that lists it, up to case. */
  lemma {:induction false} ConfiguredKeywordHasCategory(groups: Groups, lower: string -> string, kw: string)
    requires InSomeGroup(groups, kw)
    ensures LastCategory(groups, lower, lower(kw)).Some?
    ensures lower(kw) in CategoryMap(groups, lower)
    decreases |groups|
  {
    var n := |groups| - 1;
    var g :| 0 <= g < |groups| && kw in groups[g].1;
    if g == n || Mentions(groups[n].1, lower, lower(kw)) {
      assert Mentions(groups[n].1, lower, lower(kw));
    } else {
      assert groups[..n][g] == groups[g];
      ConfiguredKeywordHasCategory(groups[..n], lower, kw);
    }
    CategoryMapIsLast(groups, lower, lower(kw));
  }

  /** The first match that overlaps no accepted span. */
  function FirstFree(matches: seq<Span>, taken: seq<Span>): (r: Option<Span>)
    ensures r.None? <==> forall k :: 0 <= k < |matches| ==> OverlapsAny(matches[k], taken)
    ensures r.Some? ==> r.value in matches && !OverlapsAny(r.value, taken)
  {
    if matches == [] then None
    else if !OverlapsAny(matches[0], taken) then Some(matches[0])
    else
      var r := FirstFree(matches[1..], taken);
      assert forall k :: 1 <= k < |matches| ==> matches[k] == matches[1..][k - 1];
      r
  }

  /** The `i`-th hit's accepted span, at position `offset + i` of `spans`, is a match of its keyword. */
  predicate SpansMatch(x: KeywordExtractor, text: string, hits: seq<KeywordMatch>, spans: seq<Span>, offset: nat) {
    |spans| == offset + |hits| && forall i :: 0 <= i < |hits| ==> spans[offset + i] in x.finder(hits[i].keyword, text)
  }

  predicate DistinctKeywords(hits: seq<KeywordMatch>) {
    forall i, j :: 0 <= i < j < |hits| ==> hits[i].keyword != hits[j].keyword
  }

  /**
    The loop of `extract_keywords` over the keywords `kws`, with the spans
    accepted so far: each keyword contributes its first free match and then
    stops. Returns the hits and all accepted spans.
   */
  function ExtractFrom(x: KeywordExtractor, text: string, kws: seq<string>, taken: seq<Span>)
    : (r: (seq<KeywordMatch>, seq<Span>))
    ensures |r.1| == |taken| + |r.0| && r.1[..|taken|] == taken
    ensures forall i :: 0 <= i < |r.0| ==> r.0[i].keyword in kws && r.0[i].category == Category(x, r.0[i].keyword)
    decreases |kws|
  {
    if kws == [] then ([], taken)
    else
      var kw := kws[0];
      match FirstFree(x.finder(kw, text), taken)
      case None => ExtractFrom(x, text, kws[1..], taken)
      case Some(span) =>
        var rest := ExtractFrom(x, text, kws[1..], taken + [span]);
        assert rest.1[..|taken|] == taken by {
          assert rest.1[..|taken| + 1][..|taken|] == taken;
        }
        ([KeywordMatch(kw, Category(x, kw))] + rest.0, rest.1)
  }

  /**
    The accepted spans never overlap, the `i`-th hit's span is a match of its
    keyword, and no keyword is hit twice.
   */
  lemma {:induction false} ExtractFromInvariant(x: KeywordExtractor, text: string, kws: seq<string>, taken: seq<Span>)
    requires PairwiseDisjoint(taken) && Distinct(kws)
    ensures var r := ExtractFrom(x, text, kws, taken);
      && PairwiseDisjoint(r.1)
      && SpansMatch(x, text, r.0, r.1, |taken|)
      && DistinctKeywords(r.0)
    decreases |kws|
  {
    if kws != [] {
      var kw := kws[0];
      DistinctTail(kws);
      match FirstFree(x.finder(kw, text), taken)
      case None =>
        ExtractFromInvariant(x, text, kws[1..], taken);
      case Some(span) =>
        var taken' := taken + [span];
        DisjointSnoc(taken, span);
        ExtractFromInvariant(x, text, kws[1..], taken');
        var rest := ExtractFrom(x, text, kws[1..], taken');
        assert forall i :: 0 <= i < |rest.0| ==> rest.0[i].keyword != kw;
        ConsHits(x, text, kw, taken, span, rest.0, rest.1);
    }
  }

  /** A span overlapping none of a disjoint list keeps it disjoint. */
  lemma DisjointSnoc(taken: seq<Span>, span: Span)
    requires PairwiseDisjoint(taken) && !OverlapsAny(span, taken)
    ensures PairwiseDisjoint(taken + [span])
  {
    var taken' := taken + [span];
    forall i, j | 0 <= i < j < |taken'| ensures !Overlaps(taken'[i], taken'[j]) {
      if j == |taken| {
        assert !Overlaps(span, taken[i]);
      } else {
        assert taken'[i] == taken[i] && taken'[j] == taken[j];
      }
    }
  }

  /** A hit in front of the later hits keeps the span and distinctness invariants. */
  lemma ConsHits(x: KeywordExtractor, text: string, kw: string, taken: seq<Span>, span: Span,
                 rest0: seq<KeywordMatch>, rest1: seq<Span>)
    requires span in x.finder(kw, text)
    requires |rest1| == |taken| + 1 + |rest0| && rest1[..|taken| + 1] == taken + [span]
    requires SpansMatch(x, text, rest0, rest1, |taken| + 1)
    requires DistinctKeywords(rest0)
    requires forall i :: 0 <= i < |rest0| ==> rest0[i].keyword != kw
    ensures var hits := [KeywordMatch(kw, Category(x, kw))] + rest0;
      && SpansMatch(x, text, hits, rest1, |taken|)
      && DistinctKeywords(hits)
  {
    var hits := [KeywordMatch(kw, Category(x, kw))] + rest0;
    assert rest1[|taken|] == span by {
      assert rest1[..|taken| + 1][|taken|] == span;
    }
    forall i | 0 <= i < |hits| ensures rest1[|taken| + i] in x.finder(hits[i].keyword, text) {
      if i > 0 {
        assert hits[i] == rest0[i - 1];
        assert rest1[|taken| + i] == rest1[|taken| + 1 + (i - 1)];
      }
    }
    forall i, j | 0 <= i < j < |hits| ensures hits[i].keyword != hits[j].keyword {
      assert hits[j] == rest0[j - 1];
      if i > 0 {
        assert hits[i] == rest0[i - 1];
      }
    }
  }

  /** `extract_keywords`: the hits of one block of text, in the order the keywords were tried. */
  function ExtractKeywords(x: KeywordExtractor, text: string): (r: seq<KeywordMatch>)
    ensures forall i :: 0 <= i < |r| ==> r[i].keyword in x.sorted
    ensures forall i :: 0 <= i < |r| ==> r[i].category == Category(x, r[i].keyword)
  {
    ExtractFrom(x, text, x.sorted, []).0
  }

  /** Only configured keywords are hit. */
  lemma ExtractKeywordsConfigured(x: KeywordExtractor, text: string)
    requires Valid(x)
    ensures forall i :: 0 <= i < |ExtractKeywords(x, text)| ==> InSomeGroup(x.groups, ExtractKeywords(x, text)[i].keyword)
  {
  }

  /**
    One block never hits a keyword twice; the accepted match spans are
    pairwise disjoint and each one is a match of its keyword.
   */
  lemma ExtractKeywordsSpans(x: KeywordExtractor, text: string)
    requires Valid(x)
    ensures var r := ExtractFrom(x, text, x.sorted, []);
      && DistinctKeywords(r.0)
      && PairwiseDisjoint(r.1)
      && SpansMatch(x, text, r.0, r.1, 0)
  {
    var none: seq<Span> := [];
    assert PairwiseDisjoint(none);
    ExtractFromInvariant(x, text, x.sorted, none);
  }

  /** Trying the keywords `a + b` is trying `a`, then `b` with the spans `a` accepted. */
  lemma {:induction false} ExtractFromAppend(x: KeywordExtractor, text: string, a: seq<string>, b: seq<string>, taken: seq<Span>)
    ensures var ra := ExtractFrom(x, text, a, taken);
      var rb := ExtractFrom(x, text, b, ra.1);
      ExtractFrom(x, text, a + b, taken) == (ra.0 + rb.0, rb.1)
    decreases |a|
  {
    if a == [] {
      assert a + b == b;
      var rb := ExtractFrom(x, text, b, taken);
      assert [] + rb.0 == rb.0;
    } else {
      assert (a + b)[0] == a[0] && (a + b)[1..] == a[1..] + b;
      match FirstFree(x.finder(a[0], text), taken)
      case None =>
        ExtractFromAppend(x, text, a[1..], b, taken);
        ExtractFromMiss(x, text, a, taken);
        ExtractFromMiss(x, text, a + b, taken);
      case Some(span) =>
        var hit := KeywordMatch(a[0], Category(x, a[0]));
        ExtractFromAppend(x, text, a[1..], b, taken + [span]);
        var ra' := ExtractFrom(x, text, a[1..], taken + [span]);
        var rb := ExtractFrom(x, text, b, ra'.1);
        ExtractFromHit(x, text, a, taken, span);
        ExtractFromHit(x, text, a + b, taken, span);
        assert [hit] + (ra'.0 + rb.0) == ([hit] + ra'.0) + rb.0;
    }
  }

  /** One step of `ExtractFrom` where every match of the first keyword overlaps an accepted span. */
  lemma ExtractFromMiss(x: KeywordExtractor, text: string, kws: seq<string>, taken: seq<Span>)
    requires kws != [] && FirstFree(x.finder(kws[0], text), taken).None?
    ensures ExtractFrom(x, text, kws, taken) == ExtractFrom(x, text, kws[1..], taken)
  {
  }

  /** One step of `ExtractFrom` where the first keyword is hit with `span`. */
  lemma ExtractFromHit(x: KeywordExtractor, text: string, kws: seq<string>, taken: seq<Span>, span: Span)
    requires kws != [] && FirstFree(x.finder(kws[0], text), taken) == Some(span)
    ensures var rest := ExtractFrom(x, text, kws[1..], taken + [span]);
      ExtractFrom(x, text, kws, taken) == ([KeywordMatch(kws[0], Category(x, kws[0]))] + rest.0, rest.1)
  {
  }

  /** A keyword all of whose matches overlap an accepted span is never hit. */
  lemma {:induction false} ShadowedKeywordMissed(x: KeywordExtractor, text: string, kws: seq<string>, taken: seq<Span>, kw: string)
    requires forall m :: m in x.finder(kw, text) ==> OverlapsAny(m, taken)
    ensures forall i :: 0 <= i < |ExtractFrom(x, text, kws, taken).0| ==> ExtractFrom(x, text, kws, taken).0[i].keyword != kw
    decreases |kws|
  {
    if kws != [] {
      match FirstFree(x.finder(kws[0], text), taken)
      case None =>
        ShadowedKeywordMissed(x, text, kws[1..], taken, kw);
      case Some(span) =>
        var taken' := taken + [span];
        forall m | m in x.finder(kw, text) ensures OverlapsAny(m, taken') {
          var k :| 0 <= k < |taken| && Overlaps(m, taken[k]);
          assert taken'[k] == taken[k];
        }
        ShadowedKeywordMissed(x, text, kws[1..], taken', kw);
        var rest := ExtractFrom(x, text, kws[1..], taken');
        assert forall i :: 1 <= i < |rest.0| + 1 ==> ([KeywordMatch(kws[0], Category(x, kws[0]))] + rest.0)[i] == rest.0[i - 1];
    }
  }

  /** Cutting a list without repeats right after position `p`: `kws[p]` falls in the first part, `kws[q]` in the second. */
  lemma SplitAfter(kws: seq<string>, p: nat, q: nat) returns (a: seq<string>, b: seq<string>)
    requires Distinct(kws) && p < q < |kws|
    ensures kws == a + b && Distinct(a)
    ensures kws[p] !in b && kws[q] !in a
  {
    a, b := kws[..p + 1], kws[p + 1..];
    assert kws == a + b;
    assert Distinct(a) by {
      forall i, j | 0 <= i < j < |a| ensures a[i] != a[j] {
        assert a[i] == kws[i] && a[j] == kws[j];
      }
    }
    assert kws[p] !in b by {
      forall j | 0 <= j < |b| ensures b[j] != kws[p] {
        assert b[j] == kws[p + 1 + j];
      }
    }
    assert kws[q] !in a by {
      forall j | 0 <= j < |a| ensures a[j] != kws[q] {
        assert a[j] == kws[j];
      }
    }
  }

  /**
    Trying `a` then `b`: once `long`, tried in `a`, is hit, a keyword
    `short` of `b` whose every match overlaps every match of `long` is not.
   */
  lemma ShadowedAfterHit(x: KeywordExtractor, text: string, a: seq<string>, b: seq<string>, long: string, short: string)
    requires Distinct(a) && long !in b && short !in a
    requires forall m, n :: m in x.finder(long, text) && n in x.finder(short, text) ==> Overlaps(n, m)
    requires exists i :: 0 <= i < |ExtractFrom(x, text, a + b, []).0| && ExtractFrom(x, text, a + b, []).0[i].keyword == long
    ensures forall i :: 0 <= i < |ExtractFrom(x, text, a + b, []).0| ==> ExtractFrom(x, text, a + b, []).0[i].keyword != short
  {
    var ra := ExtractFrom(x, text, a, []);
    var rb := ExtractFrom(x, text, b, ra.1);
    assert ExtractFrom(x, text, a + b, []).0 == ra.0 + rb.0 by {
      ExtractFromAppend(x, text, a, b, []);
    }
    var i := HitInFirst(ra.0, rb.0, b, long);
    assert ra.1[i] in x.finder(long, text) by {
      ExtractFromInvariant(x, text, a, []);
    }
    assert forall j :: 0 <= j < |rb.0| ==> rb.0[j].keyword != short by {
      forall n | n in x.finder(short, text) ensures OverlapsAny(n, ra.1) {
        assert Overlaps(n, ra.1[i]);
      }
      ShadowedKeywordMissed(x, text, b, ra.1, short);
    }
    NotInConcat(ra.0, rb.0, short);
  }

  /** A keyword that the second part of a hit list cannot hold is hit in the first part. */
  lemma HitInFirst(p: seq<KeywordMatch>, q: seq<KeywordMatch>, b: seq<string>, kw: string) returns (i: nat)
    requires forall j :: 0 <= j < |q| ==> q[j].keyword in b
    requires kw !in b
    requires exists i :: 0 <= i < |p + q| && (p + q)[i].keyword == kw
    ensures i < |p| && p[i].keyword == kw
  {
    i :| 0 <= i < |p + q| && (p + q)[i].keyword == kw;
  }

  /** A keyword missing from both parts of a hit list is missing from the whole. */
  lemma NotInConcat(p: seq<KeywordMatch>, q: seq<KeywordMatch>, kw: string)
    requires forall j :: 0 <= j < |p| ==> p[j].keyword != kw
    requires forall j :: 0 <= j < |q| ==> q[j].keyword != kw
    ensures forall j :: 0 <= j < |p + q| ==> (p + q)[j].keyword != kw
  {
    forall j | 0 <= j < |p + q| ensures (p + q)[j].keyword != kw {
      if j >= |p| {
        assert (p + q)[j] == q[j - |p|];
      }
    }
  }

  /**
    A longer keyword shadows a shorter one: if every match of `short`
    overlaps every match of `long` and `long` is hit, `short` is not
    (`C++` against `C`, `Tailwind CSS` against `CSS`).
   */
  lemma LongerKeywordWins(x: KeywordExtractor, text: string, long: string, short: string)
    requires Valid(x)
    requires InSomeGroup(x.groups, short) && |long| > |short|
    requires forall m, n :: m in x.finder(long, text) && n in x.finder(short, text) ==> Overlaps(n, m)
    requires long in HitKeywords(x, text)
    ensures short !in HitKeywords(x, text)
  {
    var kws := x.sorted;
    var r := ExtractKeywords(x, text);
    var i :| 0 <= i < |r| && r[i].keyword == long;
    var p :| 0 <= p < |kws| && kws[p] == long;
    var q :| 0 <= q < |kws| && kws[q] == short;
    assert KeywordLength(kws[p]) > KeywordLength(kws[q]);
    var a, b := SplitAfter(kws, p, q);
    ShadowedAfterHit(x, text, a, b, long, short);
  }

  /** The spans accepted before the keyword at position `p` of the sorted list is tried. */
  function AcceptedBefore(x: KeywordExtractor, text: string, p: nat): seq<Span>
    requires p <= |x.sorted|
  {
    ExtractFrom(x, text, x.sorted[..p], []).1
  }

  /** The hits before the keyword at position `p` of the sorted list is tried. */
  function HitsBefore(x: KeywordExtractor, text: string, p: nat): seq<KeywordMatch>
    requires p <= |x.sorted|
  {
    ExtractFrom(x, text, x.sorted[..p], []).0
  }

  /** Trying the sorted keywords from position `p` on, after the first `p`. */
  lemma ExtractFromSplit(x: KeywordExtractor, text: string, p: nat)
    requires p < |x.sorted|
    ensures var rb := ExtractFrom(x, text, x.sorted[p..], AcceptedBefore(x, text, p));
      && ExtractFrom(x, text, x.sorted, []) == (HitsBefore(x, text, p) + rb.0, rb.1)
      && |AcceptedBefore(x, text, p)| == |HitsBefore(x, text, p)|
  {
    assert x.sorted[..p] + x.sorted[p..] == x.sorted;
    ExtractFromAppend(x, text, x.sorted[..p], x.sorted[p..], []);
  }

  /**
    A keyword with a match that overlaps none of the spans accepted before
    it is hit: its hit follows the earlier hits, with the category map's
    category, and its accepted span is its first such match.
   */
  lemma FreeMatchIsHit(x: KeywordExtractor, text: string, p: nat)
    requires p < |x.sorted|
    requires FirstFree(x.finder(x.sorted[p], text), AcceptedBefore(x, text, p)).Some?
    ensures var r := ExtractFrom(x, text, x.sorted, []);
      var i := |HitsBefore(x, text, p)|;
      && i < |r.0| && i < |r.1|
      && r.0[i] == KeywordMatch(x.sorted[p], Category(x, x.sorted[p]))
      && r.1[i] == FirstFree(x.finder(x.sorted[p], text), AcceptedBefore(x, text, p)).value
  {
    var kw, taken := x.sorted[p], AcceptedBefore(x, text, p);
    var m := FirstFree(x.finder(kw, text), taken).value;
    ExtractFromSplit(x, text, p);
    var b := x.sorted[p..];
    assert b[0] == kw && b[1..] == x.sorted[p + 1..];
    var rest := ExtractFrom(x, text, b[1..], taken + [m]);
    assert ExtractFrom(x, text, b, taken) == ([KeywordMatch(kw, Category(x, kw))] + rest.0, rest.1);
    assert rest.1[|taken|] == m by {
      assert rest.1[..|taken| + 1][|taken|] == m;
    }
  }

  /**
    A keyword all of whose matches overlap a span accepted before it is not
    hit: no other keyword stands for it, each being tried once.
   */
  lemma NoFreeMatchIsMissed(x: KeywordExtractor, text: string, p: nat)
    requires Valid(x) && p < |x.sorted|
    requires FirstFree(x.finder(x.sorted[p], text), AcceptedBefore(x, text, p)).None?
    ensures x.sorted[p] !in HitKeywords(x, text)
  {
    var kw, taken := x.sorted[p], AcceptedBefore(x, text, p);
    ExtractFromSplit(x, text, p);
    var a, b := x.sorted[..p], x.sorted[p..];
    assert b[0] == kw && b[1..] == x.sorted[p + 1..];
    var rb := ExtractFrom(x, text, b[1..], taken);
    assert ExtractFrom(x, text, b, taken) == rb;
    assert kw !in a by {
      forall j | 0 <= j < |a| ensures a[j] != kw {
        assert a[j] == x.sorted[j];
      }
    }
    assert kw !in b[1..] by {
      forall j | 0 <= j < |b[1..]| ensures b[1..][j] != kw {
        assert b[1..][j] == x.sorted[p + 1 + j];
      }
    }
    NotInConcat(HitsBefore(x, text, p), rb.0, kw);
  }

  /**
    The sorted keyword at position `p` is hit exactly when one of its
    matches overlaps none of the spans accepted before it.
   */
  lemma HitIffFreeMatch(x: KeywordExtractor, text: string, p: nat)
    requires Valid(x) && p < |x.sorted|
    ensures x.sorted[p] in HitKeywords(x, text) <==>
      FirstFree(x.finder(x.sorted[p], text), AcceptedBefore(x, text, p)).Some?
  {
    if FirstFree(x.finder(x.sorted[p], text), AcceptedBefore(x, text, p)).Some? {
      FreeMatchIsHit(x, text, p);
      var i := |HitsBefore(x, text, p)|;
      assert ExtractKeywords(x, text)[i].keyword == x.sorted[p];
    } else {
      NoFreeMatchIsMissed(x, text, p);
    }
  }

  /**
    A match that overlaps no match of any keyword tried earlier makes its
    keyword a hit, whatever was accepted before it.
   */
  lemma ClearMatchIsHit(x: KeywordExtractor, text: string, p: nat, m: Span)
    requires Valid(x) && p < |x.sorted|
    requires m in x.finder(x.sorted[p], text)
    requires forall j, n :: 0 <= j < p && n in x.finder(x.sorted[j], text) ==> !Overlaps(m, n)
    ensures x.sorted[p] in HitKeywords(x, text)
  {
    var a := x.sorted[..p];
    var hits, taken := HitsBefore(x, text, p), AcceptedBefore(x, text, p);
    assert Distinct(a) by {
      forall i, j | 0 <= i < j < |a| ensures a[i] != a[j] {
        assert a[i] == x.sorted[i] && a[j] == x.sorted[j];
      }
    }
    var none: seq<Span> := [];
    ExtractFromInvariant(x, text, a, none);
    assert !OverlapsAny(m, taken) by {
      forall k | 0 <= k < |taken| ensures !Overlaps(m, taken[k]) {
        var kw := hits[k].keyword;
        assert taken[k] in x.finder(kw, text);
        var j :| 0 <= j < |a| && a[j] == kw;
        assert x.sorted[j] == kw;
      }
    }
    var i :| 0 <= i < |x.finder(x.sorted[p], text)| && x.finder(x.sorted[p], text)[i] == m;
    HitIffFreeMatch(x, text, p);
  }

  /**
    The keywords tried before position `p` are other keywords at least as
    long, so a span clear of their matches is clear of every earlier match.
   */
  lemma ClearOfLonger(x: KeywordExtractor, text: string, p: nat, m: Span)
    requires Valid(x) && p < |x.sorted|
    requires forall kw, n :: kw in x.sorted && |kw| >= |x.sorted[p]| && kw != x.sorted[p] && n in x.finder(kw, text) ==>
      !Overlaps(m, n)
    ensures forall j, n :: 0 <= j < p && n in x.finder(x.sorted[j], text) ==> !Overlaps(m, n)
  {
    forall j, n | 0 <= j < p && n in x.finder(x.sorted[j], text) ensures !Overlaps(m, n) {
      assert KeywordLength(x.sorted[j]) >= KeywordLength(x.sorted[p]) && x.sorted[j] != x.sorted[p];
      assert x.sorted[j] in x.sorted;
    }
  }

  /**
    When the only other keywords at least as long as the one at `p` are `a`
    and `b`, a match of it clear of their matches makes it a hit.
   */
  lemma ClearAmong(x: KeywordExtractor, text: string, p: nat, m: Span, a: string, b: string)
    requires Valid(x) && p < |x.sorted|
    requires m in x.finder(x.sorted[p], text)
    requires forall kw :: kw in x.sorted && |kw| >= |x.sorted[p]| && kw != x.sorted[p] ==> kw == a || kw == b
    requires forall n :: n in x.finder(a, text) ==> !Overlaps(m, n)
    requires forall n :: n in x.finder(b, text) ==> !Overlaps(m, n)
    ensures x.sorted[p] in HitKeywords(x, text)
  {
    ClearOfLonger(x, text, p, m);
    ClearMatchIsHit(x, text, p, m);
  }

  /** An assumed keyword configuration holding the keywords of the extractor test. */
  const ExampleGroups: Groups := [("languages", ["C", "C++"]), ("frontend", ["CSS", "Tailwind CSS"])]

  /** The text of the extractor test. */
  const ExampleText: string := "経験: C++ と Tailwind CSS を使用"

  /**
    The extractor test under `ExampleGroups`, with the matches the keyword
    patterns are taken to yield in its text: `Tailwind CSS` and `C++` are
    hit because their matches are free when tried, and `CSS` and `C` are not
    because those longer keywords took their positions first.
   */
  lemma LongerKeywordsExample(lower: string -> string, finder: (string, string) -> seq<Span>)
    requires finder("Tailwind CSS", ExampleText) == [Span(10, 22)]
    requires finder("C++", ExampleText) == [Span(4, 7)]
    requires finder("CSS", ExampleText) == [Span(19, 22)]
    requires finder("C", ExampleText) == [Span(4, 5)]
    ensures var hits := HitKeywords(NewExtractor(ExampleGroups, lower, finder), ExampleText);
      && "Tailwind CSS" in hits && "CSS" !in hits
      && "C++" in hits && "C" !in hits
  {
    ExampleHits(NewExtractor(ExampleGroups, lower, finder));
  }

  /** The same for any extractor built from `ExampleGroups`. */
  lemma ExampleHits(x: KeywordExtractor)
    requires Valid(x) && x.groups == ExampleGroups
    requires x.finder("Tailwind CSS", ExampleText) == [Span(10, 22)]
    requires x.finder("C++", ExampleText) == [Span(4, 7)]
    requires x.finder("CSS", ExampleText) == [Span(19, 22)]
    requires x.finder("C", ExampleText) == [Span(4, 5)]
    ensures var hits := HitKeywords(x, ExampleText);
      && "Tailwind CSS" in hits && "CSS" !in hits
      && "C++" in hits && "C" !in hits
  {
    ExampleKeywords(x);
    ExampleTailwindHit(x);
    ExampleCppHit(x);
    ContainedMatchShadowed(x, ExampleText, "Tailwind CSS", "CSS", Span(10, 22), Span(19, 22));
    ContainedMatchShadowed(x, ExampleText, "C++", "C", Span(4, 7), Span(4, 5));
  }

  /** A hit keyword shadows a shorter configured one whose only match lies inside its own only match. */
  lemma ContainedMatchShadowed(x: KeywordExtractor, text: string, long: string, short: string, ml: Span, ms: Span)
    requires Valid(x)
    requires short in x.sorted && |long| > |short|
    requires x.finder(long, text) == [ml] && x.finder(short, text) == [ms]
    requires ml.start <= ms.start < ms.end <= ml.end
    requires long in HitKeywords(x, text)
    ensures short !in HitKeywords(x, text)
  {
    LongerKeywordWins(x, text, long, short);
  }

  /** `Tailwind CSS` is the longest example keyword, so it is tried first and hit. */
  lemma ExampleTailwindHit(x: KeywordExtractor)
    requires Valid(x)
    requires forall kw :: kw in x.sorted <==> kw in ["C", "C++", "CSS", "Tailwind CSS"]
    requires x.finder("Tailwind CSS", ExampleText) == [Span(10, 22)]
    ensures "Tailwind CSS" in HitKeywords(x, ExampleText)
  {
    assert "Tailwind CSS" in x.sorted;
    var p :| 0 <= p < |x.sorted| && x.sorted[p] == "Tailwind CSS";
    assert forall kw :: kw in x.sorted && kw != "Tailwind CSS" ==> |kw| < |x.sorted[p]|;
    ClearOfLonger(x, ExampleText, p, Span(10, 22));
    ClearMatchIsHit(x, ExampleText, p, Span(10, 22));
  }

  /** Only `CSS` and `Tailwind CSS` may be tried before `C++`, and their matches lie elsewhere. */
  lemma ExampleCppHit(x: KeywordExtractor)
    requires Valid(x)
    requires forall kw :: kw in x.sorted <==> kw in ["C", "C++", "CSS", "Tailwind CSS"]
    requires x.finder("Tailwind CSS", ExampleText) == [Span(10, 22)]
    requires x.finder("C++", ExampleText) == [Span(4, 7)]
    requires x.finder("CSS", ExampleText) == [Span(19, 22)]
    ensures "C++" in HitKeywords(x, ExampleText)
  {
    assert "C++" in x.sorted;
    var q :| 0 <= q < |x.sorted| && x.sorted[q] == "C++";
    ExampleRivals(x.sorted);
    ClearAmong(x, ExampleText, q, Span(4, 7), "CSS", "Tailwind CSS");
  }

  /** The example keywords at least as long as `C++`, other than itself. */
  lemma ExampleRivals(sorted: seq<string>)
    requires forall kw :: kw in sorted <==> kw in ["C", "C++", "CSS", "Tailwind CSS"]
    ensures forall kw :: kw in sorted && |kw| >= 3 && kw != "C++" ==> kw == "CSS" || kw == "Tailwind CSS"
  {
  }

  /** The example extractor tries exactly the four keywords of `ExampleGroups`. */
  lemma ExampleKeywords(x: KeywordExtractor)
    requires Valid(x) && x.groups == ExampleGroups
    ensures forall kw :: kw in x.sorted <==> kw in ["C", "C++", "CSS", "Tailwind CSS"]
  {
    forall kw ensures kw in x.sorted <==> kw in ["C", "C++", "CSS", "Tailwind CSS"] {
      assert InSomeGroup(ExampleGroups, kw) <==> kw in ExampleGroups[0].1 || kw in ExampleGroups[1].1;
    }
  }

  /** The keywords of a list of hits, in order. */
  function Keywords(hits: seq<KeywordMatch>): (r: seq<string>)
    ensures |r| == |hits|
    ensures forall i :: 0 <= i < |r| ==> r[i] == hits[i].keyword
  {
    seq(|hits|, i requires 0 <= i < |hits| => hits[i].keyword)
  }

  /** `{m.keyword for m in matched}`: the keywords a block contributes to the counters, listed in hit order. */
  function HitKeywords(x: KeywordExtractor, text: string): (r: seq<string>)
    ensures Distinct(r)
    ensures forall kw :: kw in r <==> exists i :: 0 <= i < |ExtractKeywords(x, text)| && ExtractKeywords(x, text)[i].keyword == kw
  {
    var hits := ExtractKeywords(x, text);
    var ks := Keywords(hits);
    assert forall kw :: kw in ks <==> exists i :: 0 <= i < |hits| && hits[i].keyword == kw by {
      forall kw ensures kw in ks <==> exists i :: 0 <= i < |hits| && hits[i].keyword == kw {
        if exists i :: 0 <= i < |hits| && hits[i].keyword == kw {
          var i :| 0 <= i < |hits| && hits[i].keyword == kw;
          assert ks[i] == kw;
        }
      }
    }
    Dedup(ks)
  }

  /**
    A block hits each keyword at most once, so taking the set loses
    nothing: the counted keywords are the hits' keywords, in hit order.
   */
  lemma HitKeywordsAreHits(x: KeywordExtractor, text: string)
    requires Valid(x)
    ensures HitKeywords(x, text) == Keywords(ExtractKeywords(x, text))
  {
    var ks := Keywords(ExtractKeywords(x, text));
    assert Distinct(ks) by {
      ExtractKeywordsSpans(x, text);
    }
    DedupOfDistinct(ks);
  }

  /** The keyword set of every block, in block order: what the counting loops iterate over. */
  function HitLists(x: KeywordExtractor, blocks: seq<string>): (r: seq<seq<string>>)
    ensures |r| == |blocks|
    ensures forall i :: 0 <= i < |r| ==> r[i] == HitKeywords(x, blocks[i]) && Distinct(r[i])
  {
    seq(|blocks|, i requires 0 <= i < |blocks| => HitKeywords(x, blocks[i]))
  }

  /** The keyword sets of concatenated block lists are the concatenated sets. */
  lemma HitListsAppend(x: KeywordExtractor, a: seq<string>, b: seq<string>)
    ensures HitLists(x, a + b) == HitLists(x, a) + HitLists(x, b)
  {
  }

  /** Number of the keyword sets that hold `kw`. */
  function ListsWith(lists: seq<seq<string>>, kw: string): (n: nat)
    ensures n <= |lists|
  {
    if lists == [] then 0
    else ListsWith(lists[..|lists| - 1], kw) + (if kw in lists[|lists| - 1] then 1 else 0)
  }

  /** A keyword is counted only if some set holds it. */
  lemma {:induction false} ListsWithWitness(lists: seq<seq<string>>, kw: string) returns (i: nat)
    requires ListsWith(lists, kw) > 0
    ensures i < |lists| && kw in lists[i]
    decreases |lists|
  {
    if kw in lists[|lists| - 1] {
      i := |lists| - 1;
    } else {
      i := ListsWithWitness(lists[..|lists| - 1], kw);
    }
  }

  /** One more set adds one exactly when it holds the keyword. */
  lemma ListsWithSnoc(init: seq<seq<string>>, last: seq<string>, kw: string)
    ensures ListsWith(init + [last], kw) == ListsWith(init, kw) + (if kw in last then 1 else 0)
  {
    var s := init + [last];
    assert s[..|s| - 1] == init;
  }

  /** Set counts are additive over concatenation. */
  lemma {:induction false} ListsWithAppend(a: seq<seq<string>>, b: seq<seq<string>>, kw: string)
    ensures ListsWith(a + b, kw) == ListsWith(a, kw) + ListsWith(b, kw)
    decreases |b|
  {
    if b != [] {
      var init, last := b[..|b| - 1], b[|b| - 1];
      ListsWithAppend(a, init, kw);
      assert a + b == (a + init) + [last];
      assert b == init + [last];
      ListsWithSnoc(a + init, last, kw);
      ListsWithSnoc(init, last, kw);
    } else {
      assert a + b == a;
    }
  }

  /** Number of blocks in which `kw` is hit. */
  function BlocksWith(x: KeywordExtractor, blocks: seq<string>, kw: string): (n: nat)
    ensures n <= |blocks|
  {
    ListsWith(HitLists(x, blocks), kw)
  }

  /** Only configured keywords are ever counted. */
  lemma CountedKeywordIsConfigured(x: KeywordExtractor, blocks: seq<string>, kw: string)
    requires Valid(x) && BlocksWith(x, blocks, kw) > 0
    ensures InSomeGroup(x.groups, kw)
  {
    var b := ListsWithWitness(HitLists(x, blocks), kw);
    var hits := ExtractKeywords(x, blocks[b]);
    var i :| 0 <= i < |hits| && hits[i].keyword == kw;
    assert kw in x.sorted;
  }

  /** `counter.update(unique)` for the keyword set of each block in turn. */
  function CountLists(lists: seq<seq<string>>): (r: map<string, nat>)
    requires forall i :: 0 <= i < |lists| ==> Distinct(lists[i])
    ensures forall kw :: Get(r, kw) == ListsWith(lists, kw)
    ensures Positive(r)
  {
    if lists == [] then map[]
    else IncAll(CountLists(lists[..|lists| - 1]), lists[|lists| - 1])
  }

  /** `count_by_keyword`: every block adds one to each keyword it hits. */
  function CountByKeyword(x: KeywordExtractor, blocks: seq<string>): (r: map<string, nat>)
    ensures forall kw :: Get(r, kw) == BlocksWith(x, blocks, kw)
    ensures Positive(r)
  {
    CountLists(HitLists(x, blocks))
  }

  /** The example of the test suite: `Python` is hit in two of three blocks, twice in the first. */
  lemma CountOncePerBlockExample(x: KeywordExtractor)
    requires HitKeywords(x, "Python Python") == ["Python"]
    requires HitKeywords(x, "Java and Python") == ["Python", "Java"]
    requires HitKeywords(x, "no hit") == []
    ensures var counts := CountByKeyword(x, ["Python Python", "Java and Python", "no hit"]);
      Get(counts, "Python") == 2 && Get(counts, "Java") == 1
  {
    BlocksWithThree(x, "Python Python", "Java and Python", "no hit", "Python");
    BlocksWithThree(x, "Python Python", "Java and Python", "no hit", "Java");
  }

  /** Three blocks, counted one by one. */
  lemma BlocksWithThree(x: KeywordExtractor, b1: string, b2: string, b3: string, kw: string)
    ensures BlocksWith(x, [b1, b2, b3], kw) ==
      (if kw in HitKeywords(x, b1) then 1 else 0) + (if kw in HitKeywords(x, b2) then 1 else 0)
      + (if kw in HitKeywords(x, b3) then 1 else 0)
  {
    var l1, l2, l3 := HitKeywords(x, b1), HitKeywords(x, b2), HitKeywords(x, b3);
    assert HitLists(x, [b1, b2, b3]) == [l1, l2] + [l3];
    assert [l1, l2] == [l1] + [l2];
    assert [l1] == [] + [l1];
    ListsWithSnoc([], l1, kw);
    ListsWithSnoc([l1], l2, kw);
    ListsWithSnoc([l1, l2], l3, kw);
  }

  /** Every count is between 1 and the number of blocks: a keyword counts at most once per block. */
  lemma CountsBounded(x: KeywordExtractor, blocks: seq<string>, kw: string)
    requires kw in CountByKeyword(x, blocks)
    ensures 1 <= CountByKeyword(x, blocks)[kw] <= |blocks|
  {
    assert Get(CountByKeyword(x, blocks), kw) == BlocksWith(x, blocks, kw);
  }

  /** Block counts are additive over concatenated block lists. */
  lemma BlocksWithAppend(x: KeywordExtractor, a: seq<string>, b: seq<string>, kw: string)
    ensures BlocksWith(x, a + b, kw) == BlocksWith(x, a, kw) + BlocksWith(x, b, kw)
  {
    HitListsAppend(x, a, b);
    ListsWithAppend(HitLists(x, a), HitLists(x, b), kw);
  }

  /** So are the keyword counters: counting two block lists separately and adding gives the count of both. */
  lemma CountByKeywordAdditive(x: KeywordExtractor, a: seq<string>, b: seq<string>, kw: string)
    ensures Get(CountByKeyword(x, a + b), kw) == Get(CountByKeyword(x, a), kw) + Get(CountByKeyword(x, b), kw)
  {
    BlocksWithAppend(x, a, b, kw);
  }

  /** A two-level read: category, then keyword. */
  function Get2(m: map<string, map<string, nat>>, cat: string, kw: string): nat {
    if cat in m then Get(m[cat], kw) else 0
  }

  /** Every category present holds a keyword with a positive count. */
  predicate Populated(m: map<string, map<string, nat>>) {
    forall cat :: cat in m ==> Positive(m[cat]) && |m[cat]| > 0
  }

  /** `categories.setdefault(category, Counter())[keyword] += 1`. */
  function IncCategory(category: string -> string, m: map<string, map<string, nat>>, key: string)
    : (r: map<string, map<string, nat>>)
    ensures forall cat, kw :: Get2(r, cat, kw) == Get2(m, cat, kw) + (if kw == key && category(kw) == cat then 1 else 0)
    ensures Populated(m) ==> Populated(r)
  {
    var cat := category(key);
    var inner := if cat in m then m[cat] else map[];
    var r := m[cat := Inc(inner, key)];
    assert Populated(m) ==> Populated(r) by {
      if Populated(m) {
        forall c | c in r ensures Positive(r[c]) && |r[c]| > 0 {
          if c == cat {
            assert key in r[c];
          }
        }
      }
    }
    r
  }

  /**
    The same for each
    keyword of one block, `category` giving each keyword's category.
   */
  function IncCategories(category: string -> string, m: map<string, map<string, nat>>, keys: seq<string>)
    : (r: map<string, map<string, nat>>)
    requires Distinct(keys)
    ensures forall cat, kw ::
      Get2(r, cat, kw) == Get2(m, cat, kw) + (if kw in keys && category(kw) == cat then 1 else 0)
    ensures Populated(m) ==> Populated(r)
    decreases |keys|
  {
    if keys == [] then m
    else
      DistinctTail(keys);
      IncCategories(category, IncCategory(category, m, keys[0]), keys[1..])
  }

  /** The category counters over the keyword set of each block in turn. */
  function CategoryLists(category: string -> string, lists: seq<seq<string>>): (r: map<string, map<string, nat>>)
    requires forall i :: 0 <= i < |lists| ==> Distinct(lists[i])
    ensures forall cat, kw :: Get2(r, cat, kw) == if category(kw) == cat then ListsWith(lists, kw) else 0
    ensures Populated(r)
  {
    if lists == [] then map[]
    else IncCategories(category, CategoryLists(category, lists[..|lists| - 1]), lists[|lists| - 1])
  }

  /** `count_by_category`: the keyword counts, grouped under each keyword's category. */
  function CountByCategory(x: KeywordExtractor, blocks: seq<string>): (r: map<string, map<string, nat>>)
    ensures forall cat, kw :: Get2(r, cat, kw) == if Category(x, kw) == cat then BlocksWith(x, blocks, kw) else 0
    ensures Populated(r)
  {
    CategoryLists(kw => Category(x, kw), HitLists(x, blocks))
  }

  /** The elements of `order` that are keys of `counter`, in `order`'s order. */
  function Present(order: seq<string>, counter: map<string, nat>): (r: seq<string>)
    ensures forall kw :: kw in r <==> kw in order && kw in counter
  {
    if order == [] then []
    else (if order[0] in counter then [order[0]] else []) + Present(order[1..], counter)
  }

  /** A counter read as a sort key. */
  function CountKey(counter: map<string, nat>): string -> int {
    kw => Get(counter, kw)
  }

  /**
    `counter.most_common()`: the counted keywords by descending count. The
    sort is stable, so `order` (the order in which the counter first saw
    each keyword) breaks ties.
   */
  function MostCommon(counter: map<string, nat>, order: seq<string>): (r: seq<string>)
    ensures forall kw :: kw in r <==> kw in order && kw in counter
    ensures forall i, j :: 0 <= i < j < |r| ==> Get(counter, r[i]) >= Get(counter, r[j])
  {
    var present := Present(order, counter);
    var r := StableSortDesc(present, CountKey(counter));
    assert forall kw :: kw in r <==> kw in present by {
      forall kw ensures kw in r <==> kw in present {
        assert kw in r <==> kw in multiset(r);
        assert kw in present <==> kw in multiset(present);
      }
    }
    r
  }

  /** Keywords with equal counts keep their relative order in `order`. */
  lemma MostCommonTies(counter: map<string, nat>, order: seq<string>, v: int)
    ensures KeyFilter(MostCommon(counter, order), CountKey(counter), v) == KeyFilter(Present(order, counter), CountKey(counter), v)
  {
    StableSortKeepsTies(Present(order, counter), CountKey(counter), v);
  }

  /** Two counted keywords with the same count come out in `order`'s order. */
  lemma MostCommonOfTie(counter: map<string, nat>, a: string, b: string)
    requires a in counter && b in counter && a != b && Get(counter, a) == Get(counter, b)
    ensures MostCommon(counter, [a, b]) == [a, b]
  {
    var key := CountKey(counter);
    assert Present([b], counter) == [b];
    assert Present([a, b], counter) == [a, b];
    assert StableSortDesc([b], key) == [b];
    assert [a, b][1..] == [b];
    assert Insert(a, [b], key) == [a, b];
  }

  /** The keyword sets of all blocks, one after another. */
  function Concat(lists: seq<seq<string>>): (r: seq<string>)
    ensures forall kw :: kw in r <==> ListsWith(lists, kw) > 0
  {
    if lists == [] then [] else Concat(lists[..|lists| - 1]) + lists[|lists| - 1]
  }

  /**
    The counted keywords in the order the counters first see them: block by
    block, and within a block in hit order.
   */
  function FirstSeen(x: KeywordExtractor, blocks: seq<string>): (r: seq<string>)
    ensures Distinct(r)
    ensures forall kw :: kw in r <==> BlocksWith(x, blocks, kw) > 0
  {
    Dedup(Concat(HitLists(x, blocks)))
  }

  /** One summary item per keyword: its count and its share of all `total` blocks. */
  function Items(counter: map<string, nat>, ranked: seq<string>, total: nat): (r: seq<KeywordStat>)
    requires total > 0
    ensures |r| == |ranked|
    ensures forall i :: 0 <= i < |r| ==>
      r[i] == KeywordStat(ranked[i], Get(counter, ranked[i]), Ratio(Get(counter, ranked[i]), total))
  {
    seq(|ranked|, i requires 0 <= i < |ranked| =>
      KeywordStat(ranked[i], Get(counter, ranked[i]), Ratio(Get(counter, ranked[i]), total)))
  }

  /** The summary of one category: its counted keywords, most frequent first. */
  function CategoryItems(counter: map<string, nat>, order: seq<string>, total: nat): (r: seq<KeywordStat>)
    requires total > 0
    ensures forall i :: 0 <= i < |r| ==>
      r[i].keyword in counter && r[i].count == Get(counter, r[i].keyword) && r[i].ratio == Ratio(r[i].count, total)
    ensures forall i, j :: 0 <= i < j < |r| ==> r[i].count >= r[j].count
    ensures forall kw :: (exists i :: 0 <= i < |r| && r[i].keyword == kw) <==> kw in order && kw in counter
  {
    var ranked := MostCommon(counter, order);
    ItemsKeywords(counter, ranked, total);
    Items(counter, ranked, total)
  }

  /** The items name exactly the ranked keywords. */
  lemma ItemsKeywords(counter: map<string, nat>, ranked: seq<string>, total: nat)
    requires total > 0
    ensures var r := Items(counter, ranked, total);
      forall kw :: (exists i :: 0 <= i < |r| && r[i].keyword == kw) <==> kw in ranked
  {
    var r := Items(counter, ranked, total);
    forall kw ensures (exists i :: 0 <= i < |r| && r[i].keyword == kw) <==> kw in ranked {
      if kw in ranked {
        var i :| 0 <= i < |ranked| && ranked[i] == kw;
        assert r[i].keyword == kw;
      }
    }
  }

  /** `summarize`: per category, its keywords with count and ratio, most frequent first. */
  function Summarize(x: KeywordExtractor, blocks: seq<string>): (r: map<string, seq<KeywordStat>>)
    ensures |blocks| == 0 ==> r == map[]
    ensures |blocks| > 0 ==> r.Keys == CountByCategory(x, blocks).Keys
    ensures forall cat, i, j :: cat in r && 0 <= i < j < |r[cat]| ==> r[cat][i].count >= r[cat][j].count
  {
    if |blocks| == 0 then map[]
    else
      var counters := CountByCategory(x, blocks);
      map cat | cat in counters :: CategoryItems(counters[cat], FirstSeen(x, blocks), |blocks|)
  }

  /** A category is summarized exactly when one of its keywords is hit in some block. */
  lemma SummarizeCategories(x: KeywordExtractor, blocks: seq<string>, cat: string)
    requires |blocks| > 0
    ensures cat in Summarize(x, blocks) <==> exists kw :: Category(x, kw) == cat && BlocksWith(x, blocks, kw) >= 1
  {
    var counters := CountByCategory(x, blocks);
    if cat in counters {
      var kw :| kw in counters[cat];
      assert Get2(counters, cat, kw) >= 1;
    }
    if exists kw :: Category(x, kw) == cat && BlocksWith(x, blocks, kw) >= 1 {
      var kw :| Category(x, kw) == cat && BlocksWith(x, blocks, kw) >= 1;
      assert Get2(counters, cat, kw) >= 1;
    }
  }

  /**
    Every item of category `cat` is a keyword of that category with its
    number of blocks as count, and its ratio is that count over ALL blocks
    (not over the category's total), so it lies in (0, 1].
   */
  lemma SummarizeItem(x: KeywordExtractor, blocks: seq<string>, cat: string, i: nat)
    requires |blocks| > 0 && cat in Summarize(x, blocks) && i < |Summarize(x, blocks)[cat]|
    ensures var item := Summarize(x, blocks)[cat][i];
      && Category(x, item.keyword) == cat
      && item.count == BlocksWith(x, blocks, item.keyword) >= 1
      && item.ratio == item.count as real / |blocks| as real
      && 0.0 < item.ratio <= 1.0
  {
    var counters := CountByCategory(x, blocks);
    var items := CategoryItems(counters[cat], FirstSeen(x, blocks), |blocks|);
    assert Summarize(x, blocks)[cat] == items;
    var item := items[i];
    assert Get2(counters, cat, item.keyword) == item.count;
  }

  /** Every keyword of category `cat` that some block hits has an item. */
  lemma SummarizeComplete(x: KeywordExtractor, blocks: seq<string>, cat: string, kw: string)
    requires |blocks| > 0 && Category(x, kw) == cat && BlocksWith(x, blocks, kw) >= 1
    ensures cat in Summarize(x, blocks)
    ensures exists i :: 0 <= i < |Summarize(x, blocks)[cat]| && Summarize(x, blocks)[cat][i].keyword == kw
  {
    var counters := CountByCategory(x, blocks);
    assert Get2(counters, cat, kw) >= 1;
    assert Summarize(x, blocks)[cat] == CategoryItems(counters[cat], FirstSeen(x, blocks), |blocks|);
  }

  /**
    Ties are broken by first sight: two keywords of one category, each hit
    in one block, are listed in block order whatever their names.
   */
  lemma SummarizeTies(x: KeywordExtractor, b1: string, b2: string, k1: string, k2: string, cat: string)
    requires HitKeywords(x, b1) == [k1] && HitKeywords(x, b2) == [k2] && k1 != k2
    requires Category(x, k1) == cat && Category(x, k2) == cat
    ensures cat in Summarize(x, [b1, b2])
    ensures Summarize(x, [b1, b2])[cat] == [KeywordStat(k1, 1, Ratio(1, 2)), KeywordStat(k2, 1, Ratio(1, 2))]
  {
    var blocks := [b1, b2];
    TwoHitLists(x, b1, b2, k1, k2);
    TwoLists(HitLists(x, blocks), k1, k2);
    SummarizeComplete(x, blocks, cat, k1);
    var counters := CountByCategory(x, blocks);
    assert Get2(counters, cat, k1) == 1 && Get2(counters, cat, k2) == 1;
    CategoryItemsTie(counters[cat], k1, k2, 2);
  }

  lemma TwoHitLists(x: KeywordExtractor, b1: string, b2: string, k1: string, k2: string)
    requires HitKeywords(x, b1) == [k1] && HitKeywords(x, b2) == [k2]
    ensures HitLists(x, [b1, b2]) == [[k1], [k2]]
  {
  }

  /** Two blocks hitting one keyword each: each is counted once and they are first seen in block order. */
  lemma TwoLists(lists: seq<seq<string>>, k1: string, k2: string)
    requires lists == [[k1], [k2]] && k1 != k2
    ensures ListsWith(lists, k1) == 1 && ListsWith(lists, k2) == 1
    ensures Dedup(Concat(lists)) == [k1, k2]
  {
    TwoListsCount(lists, k1, k2, k1);
    TwoListsCount(lists, k1, k2, k2);
    TwoListsOrder(lists, k1, k2);
  }

  lemma TwoListsCount(lists: seq<seq<string>>, k1: string, k2: string, kw: string)
    requires lists == [[k1], [k2]] && k1 != k2 && (kw == k1 || kw == k2)
    ensures ListsWith(lists, kw) == 1
  {
    assert lists == [[k1]] + [[k2]] && [[k1]] == [] + [[k1]];
    ListsWithSnoc([], [k1], kw);
    ListsWithSnoc([[k1]], [k2], kw);
  }

  lemma TwoListsOrder(lists: seq<seq<string>>, k1: string, k2: string)
    requires lists == [[k1], [k2]] && k1 != k2
    ensures Dedup(Concat(lists)) == [k1, k2]
  {
    assert lists[..1] == [[k1]];
    assert [[k1]][..0] == [];
    assert Concat([[k1]]) == [k1];
    assert Concat(lists) == [k1, k2];
    DedupOfDistinct([k1, k2]);
  }

  /** A counter holding two keywords once each ranks them in first-seen order. */
  lemma CategoryItemsTie(counter: map<string, nat>, k1: string, k2: string, total: nat)
    requires k1 in counter && k2 in counter && k1 != k2 && Get(counter, k1) == 1 && Get(counter, k2) == 1
    requires total > 0
    ensures CategoryItems(counter, [k1, k2], total) == [KeywordStat(k1, 1, Ratio(1, total)), KeywordStat(k2, 1, Ratio(1, total))]
  {
    MostCommonOfTie(counter, k1, k2);
  }

  /** The ranking of a category summary: `Go` before `Python` when both are hit once, `Go` first. */
  lemma SummarizeTieExample(x: KeywordExtractor, cat: string)
    requires HitKeywords(x, "Go") == ["Go"] && HitKeywords(x, "Python") == ["Python"]
    requires Category(x, "Go") == cat && Category(x, "Python") == cat
    ensures cat in Summarize(x, ["Go", "Python"])
    ensures Summarize(x, ["Go", "Python"])[cat] == [KeywordStat("Go", 1, 0.5), KeywordStat("Python", 1, 0.5)]
  {
    SummarizeTies(x, "Go", "Python", "Go", "Python", cat);
    assert Ratio(1, 2) == 0.5;
  }
}
