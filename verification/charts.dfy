/**
  The two charts of the dashboard (frontend/components/Charts.tsx): the
  top-ten keyword ranking of `KeywordChart` and the pie data of
  `ClassChart`. JavaScript arrays are values here, so sorting a copy and
  leaving the caller's array alone is the only behaviour there is.
 */
module Charts {
  import opened Stats
  import opened Sorting

  /** How many bars the keyword chart draws at most. */
  const MaxBars: nat := 10

  function Count(s: KeywordStat): int {
    s.count
  }

  /** `[...data].sort((a, b) => b.count - a.count).slice(0, 10)`. */
  function Ranking(data: seq<KeywordStat>): (r: seq<KeywordStat>)
    ensures |r| == if |data| < MaxBars then |data| else MaxBars
    ensures SortedDesc(r, Count)
    ensures multiset(r) <= multiset(data)
  {
    var sorted := StableSortDesc(data, Count);
    var r := Take(sorted, MaxBars);
    assert sorted == r + sorted[|r|..];
    assert multiset(sorted) == multiset(r) + multiset(sorted[|r|..]);
    r
  }

  /** Every entry of the ranking comes from the input. */
  lemma RankingFromInput(data: seq<KeywordStat>, i: nat)
    requires i < |Ranking(data)|
    ensures Ranking(data)[i] in data
  {
    var r := Ranking(data);
    assert r[i] in multiset(r);
  }

  /**
    The ranking really is a top ten: an entry the ranking leaves out (or
    keeps fewer copies of) counts no more than any entry it shows.
   */
  lemma {:induction false} RankingIsTop(data: seq<KeywordStat>, x: KeywordStat)
    requires multiset(Ranking(data))[x] < multiset(data)[x]
    ensures forall i :: 0 <= i < |Ranking(data)| ==> Ranking(data)[i].count >= x.count
  {
    var sorted := StableSortDesc(data, Count);
    var r := Ranking(data);
    LeftOut(sorted, r, x);
    PrefixDominates(sorted, |r|, x);
    assert forall i :: 0 <= i < |r| ==> r[i] == sorted[i];
  }

  /** What a prefix of `s` holds fewer copies of lies in the rest of `s`. */
  lemma LeftOut(s: seq<KeywordStat>, prefix: seq<KeywordStat>, x: KeywordStat)
    requires |prefix| <= |s| && (forall i :: 0 <= i < |prefix| ==> prefix[i] == s[i])
    requires multiset(prefix)[x] < multiset(s)[x]
    ensures x in s[|prefix|..]
  {
    assert s == prefix + s[|prefix|..];
    assert multiset(s) == multiset(prefix) + multiset(s[|prefix|..]);
    assert x in multiset(s[|prefix|..]);
  }

  /** In a sequence sorted by descending count, every element of a prefix counts at least as much as any element after it. */
  lemma PrefixDominates(s: seq<KeywordStat>, n: nat, x: KeywordStat)
    requires SortedDesc(s, Count) && n <= |s| && x in s[n..]
    ensures forall i :: 0 <= i < n ==> s[i].count >= x.count
  {
    var j :| 0 <= j < |s[n..]| && s[n..][j] == x;
    assert s[n + j] == x;
    forall i | 0 <= i < n ensures s[i].count >= x.count {
      assert Count(s[i]) >= Count(s[n + j]);
    }
  }

  /** The first elements of a sequence that carry a key are the first of those the whole sequence carries. */
  lemma {:induction false} KeyFilterTake<T>(s: seq<T>, n: nat, key: T -> int, v: int)
    requires n <= |s|
    ensures KeyFilter(s[..n], key, v) <= KeyFilter(s, key, v)
    decreases n
  {
    if n > 0 {
      assert s[..n][1..] == s[1..][..n - 1];
      KeyFilterTake(s[1..], n - 1, key, v);
    }
  }

  /**
    Ties keep their input order (`Array.prototype.sort` is stable): the
    shown entries of any one count are the first entries of that count in
    the input, in input order.
   */
  lemma RankingKeepsTies(data: seq<KeywordStat>, v: int)
    ensures KeyFilter(Ranking(data), Count, v) <= KeyFilter(data, Count, v)
  {
    var sorted := StableSortDesc(data, Count);
    StableSortKeepsTies(data, Count, v);
    if |sorted| > MaxBars {
      KeyFilterTake(sorted, MaxBars, Count, v);
    }
  }

  /** One slice of the class pie: `{ name, value, ratio }`. */
  datatype PieDatum = PieDatum(name: string, value: nat, ratio: real)

  /**
    `ClassChart`'s `chartData`: one slice per entry of the class summary,
    in entry order, named by the upper-cased class name (`toUpperCase` is a
    parameter).
   */
  function PieData(entries: seq<(string, ClassStat)>, upper: string -> string): (r: seq<PieDatum>)
    ensures |r| == |entries|
    ensures forall i :: 0 <= i < |r| ==>
      r[i].name == upper(entries[i].0) && r[i].value == entries[i].1.count && r[i].ratio == entries[i].1.ratio
  {
    seq(|entries|, i requires 0 <= i < |entries| =>
      PieDatum(upper(entries[i].0), entries[i].1.count, entries[i].1.ratio))
  }

  /** The entries of a JavaScript object built from a map: every key once. */
  predicate EntriesOf(entries: seq<(string, ClassStat)>, summary: map<string, ClassStat>) {
    && (forall a, b :: 0 <= a < b < |entries| ==> entries[a].0 != entries[b].0)
    && (forall i :: 0 <= i < |entries| ==> entries[i].0 in summary && summary[entries[i].0] == entries[i].1)
    && (forall k :: k in summary ==> exists i :: 0 <= i < |entries| && entries[i].0 == k)
  }

  function TotalValue(data: seq<PieDatum>): nat {
    if data == [] then 0 else data[0].value + TotalValue(data[1..])
  }

  function TotalCount(entries: seq<(string, ClassStat)>): nat {
    if entries == [] then 0 else entries[0].1.count + TotalCount(entries[1..])
  }

  /** The pie draws every class of the summary, one slice each, with its count. */
  lemma PieCoversSummary(entries: seq<(string, ClassStat)>, summary: map<string, ClassStat>, upper: string -> string)
    requires EntriesOf(entries, summary)
    ensures |PieData(entries, upper)| == |summary|
    ensures forall k :: k in summary ==>
      exists i :: 0 <= i < |entries| && PieData(entries, upper)[i] == PieDatum(upper(k), summary[k].count, summary[k].ratio)
  {
    EntriesCardinality(entries, summary);
    var r := PieData(entries, upper);
    forall k | k in summary
      ensures exists i :: 0 <= i < |entries| && r[i] == PieDatum(upper(k), summary[k].count, summary[k].ratio)
    {
      var i :| 0 <= i < |entries| && entries[i].0 == k;
      assert r[i] == PieDatum(upper(k), summary[k].count, summary[k].ratio);
    }
  }

  /** A map has as many keys as its entry list has entries. */
  lemma {:induction false} EntriesCardinality(entries: seq<(string, ClassStat)>, summary: map<string, ClassStat>)
    requires EntriesOf(entries, summary)
    ensures |entries| == |summary|
    decreases |entries|
  {
    if entries == [] {
      assert summary.Keys == {};
    } else {
      EntriesOfRest(entries, summary);
      EntriesCardinality(entries[1..], summary - {entries[0].0});
    }
  }

  /** Dropping the first entry and its key from the map keeps the two in step. */
  lemma EntriesOfRest(entries: seq<(string, ClassStat)>, summary: map<string, ClassStat>)
    requires EntriesOf(entries, summary) && entries != []
    ensures EntriesOf(entries[1..], summary - {entries[0].0})
  {
    var k := entries[0].0;
    var rest := entries[1..];
    var smaller := summary - {k};
    forall j | 0 <= j < |rest| ensures rest[j].0 in smaller && smaller[rest[j].0] == rest[j].1 {
      assert rest[j] == entries[j + 1];
    }
    forall key | key in smaller ensures exists j :: 0 <= j < |rest| && rest[j].0 == key {
      var i :| 0 <= i < |entries| && entries[i].0 == key;
      assert rest[i - 1].0 == key;
    }
  }

  /** The slices add up to the classified total: the pie loses no count. */
  lemma {:induction false} PieTotal(entries: seq<(string, ClassStat)>, upper: string -> string)
    ensures TotalValue(PieData(entries, upper)) == TotalCount(entries)
    decreases |entries|
  {
    if entries != [] {
      PieTotal(entries[1..], upper);
      assert PieData(entries, upper)[1..] == PieData(entries[1..], upper);
    }
  }
}
