/**
  The span selection of the semantic extractor
  (backend/app/services/semantic.py, `SemanticExtractor.extract`).

  The embedding model and the cosine similarity are outside the model: the
  extractor is given one similarity score per line of the body, as exact
  reals, and a threshold. The lines scoring at least the threshold are the
  hits; the result spans from the first hit to the last, including every
  line between them whatever its score.
 */
module Semantic {
  import opened Results
  import opened Text

  /** `SemanticResult`. */
  datatype SemanticResult = SemanticResult(
    text: string,
    score: real,
    startLine: Option<nat>,
    endLine: Option<nat>,
    matched: bool,
    lineScores: seq<real>)

  /** Line `i` is a hit: its score reaches the threshold. */
  predicate IsHit(sims: seq<real>, threshold: real, i: int)
  {
    0 <= i < |sims| && sims[i] >= threshold
  }

  /** `[idx for idx, sim in enumerate(sims) if sim >= threshold]`, from index `from` on. */
  function HitIndices(sims: seq<real>, threshold: real, from: nat): (r: seq<nat>)
    requires from <= |sims|
    ensures forall k :: 0 <= k < |r| ==> from <= r[k] && IsHit(sims, threshold, r[k])
    ensures forall i :: from <= i < |sims| && IsHit(sims, threshold, i) ==> i in r
    ensures forall k, l :: 0 <= k < l < |r| ==> r[k] < r[l]
    decreases |sims| - from
  {
    if from == |sims| then []
    else (if sims[from] >= threshold then [from] else []) + HitIndices(sims, threshold, from + 1)
  }

  /** The sum of a sequence of reals. */
  function Sum(xs: seq<real>): real
  {
    if xs == [] then 0.0 else Sum(xs[..|xs| - 1]) + xs[|xs| - 1]
  }

  /** The arithmetic mean (`np.mean`) of a non-empty sequence. */
  function Mean(xs: seq<real>): real
    requires |xs| > 0
  {
    Sum(xs) / |xs| as real
  }

  /** `[sims[i] for i in hit_indices]`. */
  function Pick(sims: seq<real>, indices: seq<nat>): (r: seq<real>)
    requires forall k :: 0 <= k < |indices| ==> indices[k] < |sims|
    ensures |r| == |indices|
    ensures forall k :: 0 <= k < |r| ==> r[k] == sims[indices[k]]
  {
    seq(|indices|, k requires 0 <= k < |indices| => sims[indices[k]])
  }

  /**
    The first and the last hit, when there is one (`min(hit_indices)` and
    `max(hit_indices)`): every hit lies between them.
   */
  function Span(sims: seq<real>, threshold: real): (r: Option<(nat, nat)>)
    ensures r.None? ==> forall i :: !IsHit(sims, threshold, i)
    ensures r.Some? ==>
      && r.value.0 <= r.value.1
      && IsHit(sims, threshold, r.value.0)
      && IsHit(sims, threshold, r.value.1)
      && forall i :: IsHit(sims, threshold, i) ==> r.value.0 <= i <= r.value.1
  {
    var hits := HitIndices(sims, threshold, 0);
    if hits == [] then None
    else
      var first := hits[0];
      var last := hits[|hits| - 1];
      assert forall k :: 0 <= k < |hits| ==> first <= hits[k] <= last by {
        forall k | 0 <= k < |hits| ensures first <= hits[k] <= last {
          if k > 0 {
            assert hits[0] < hits[k];
          }
          if k < |hits| - 1 {
            assert hits[k] < hits[|hits| - 1];
          }
        }
      }
      assert forall i :: IsHit(sims, threshold, i) ==> first <= i <= last by {
        forall i | IsHit(sims, threshold, i) ensures first <= i <= last {
          assert i in hits;
          var k :| 0 <= k < |hits| && hits[k] == i;
        }
      }
      Some((first, last))
  }

  /** `"\n".join(lines[first:last + 1]).strip()`. */
  function SpanText(lines: seq<string>, first: nat, last: nat): string
    requires first <= last < |lines|
  {
    Strip(Join(lines[first..last + 1], '\n'))
  }

  /** The result for a body whose lines are `lines`, scored `sims`. */
  function Select(lines: seq<string>, sims: seq<real>, threshold: real): (r: SemanticResult)
    requires |sims| == |lines|
    ensures r.lineScores == sims
    ensures r.matched <==> exists i :: IsHit(sims, threshold, i)
    ensures !r.matched ==> r.text == [] && r.score == 0.0 && r.startLine.None? && r.endLine.None?
    ensures r.matched ==>
      && r.startLine.Some? && r.endLine.Some?
      && r.startLine.value <= r.endLine.value < |lines|
      && IsHit(sims, threshold, r.startLine.value)
      && IsHit(sims, threshold, r.endLine.value)
      && (forall i :: 0 <= i < r.startLine.value ==> !IsHit(sims, threshold, i))
      && (forall i :: r.endLine.value < i < |lines| ==> !IsHit(sims, threshold, i))
      && r.text == SpanText(lines, r.startLine.value, r.endLine.value)
  {
    match Span(sims, threshold)
    case None =>
      SemanticResult([], 0.0, None, None, false, sims)
    case Some((first, last)) =>
      assert IsHit(sims, threshold, first);
      SemanticResult(
        SpanText(lines, first, last),
        Mean(Pick(sims, HitIndices(sims, threshold, 0))),
        Some(first), Some(last), true, sims)
  }

  /** `extract`: nothing for a body without lines, else the selected span. */
  function Extract(body: string, sims: seq<real>, threshold: real): (r: Option<SemanticResult>)
    requires |sims| == |SplitLines(body)|
    ensures r.None? <==> body == []
    ensures r.Some? ==> r.value == Select(SplitLines(body), sims, threshold)
  {
    var lines := SplitLines(body);
    if lines == [] then None else Some(Select(lines, sims, threshold))
  }

  /**
    Every line of the span is kept, hit or not: the text contains the
    stripped content of each line from the first hit to the last.
   */
  lemma SpanKeepsGaps(lines: seq<string>, sims: seq<real>, threshold: real, i: nat)
    requires |sims| == |lines|
    requires var r := Select(lines, sims, threshold); r.matched && r.startLine.value <= i <= r.endLine.value
    ensures Contains(Select(lines, sims, threshold).text, Strip(lines[i]))
  {
    var r := Select(lines, sims, threshold);
    SpanTextKeeps(lines, r.startLine.value, r.endLine.value, i);
  }

  /** The span text of lines `first..last` holds the stripped content of each of them. */
  lemma SpanTextKeeps(lines: seq<string>, first: nat, last: nat, i: nat)
    requires first <= i <= last < |lines|
    ensures Contains(SpanText(lines, first, last), Strip(lines[i]))
  {
    assert lines[first..last + 1][i - first] == lines[i];
    StripJoinKeepsPart(lines[first..last + 1], '\n', i - first);
  }

  /** The sum of values each at least `t` is at least `t` times their number. */
  lemma {:induction false} SumAtLeast(xs: seq<real>, t: real)
    requires forall k :: 0 <= k < |xs| ==> xs[k] >= t
    ensures Sum(xs) >= |xs| as real * t
    decreases |xs|
  {
    if xs != [] {
      SumAtLeast(xs[..|xs| - 1], t);
    }
  }

  /** The sum of values each at most `t` is at most `t` times their number. */
  lemma {:induction false} SumAtMost(xs: seq<real>, t: real)
    requires forall k :: 0 <= k < |xs| ==> xs[k] <= t
    ensures Sum(xs) <= |xs| as real * t
    decreases |xs|
  {
    if xs != [] {
      SumAtMost(xs[..|xs| - 1], t);
    }
  }

  /** A mean of values within [lo, hi] lies within [lo, hi]. */
  lemma MeanBounds(xs: seq<real>, lo: real, hi: real)
    requires |xs| > 0
    requires forall k :: 0 <= k < |xs| ==> lo <= xs[k] <= hi
    ensures lo <= Mean(xs) <= hi
  {
    SumAtLeast(xs, lo);
    SumAtMost(xs, hi);
    var n := |xs| as real;
    var s := Sum(xs);
    assert n * lo <= s <= n * hi;
    assert s / n * n == s;
  }

  /** A matched result's score is the mean of the hit scores only. */
  lemma SelectScore(lines: seq<string>, sims: seq<real>, threshold: real)
    requires |sims| == |lines|
    ensures var r := Select(lines, sims, threshold);
      var hits := HitIndices(sims, threshold, 0);
      r.matched ==> |hits| > 0 && r.score == Mean(Pick(sims, hits))
  {
  }

  /**
    So a matched result's score lies between the threshold and the highest
    line score.
   */
  lemma ScoreBounds(lines: seq<string>, sims: seq<real>, threshold: real, top: real)
    requires |sims| == |lines|
    requires forall i :: 0 <= i < |sims| ==> sims[i] <= top
    ensures var r := Select(lines, sims, threshold);
      r.matched ==> threshold <= r.score <= top
  {
    var r := Select(lines, sims, threshold);
    if r.matched {
      SelectScore(lines, sims, threshold);
      var hits := HitIndices(sims, threshold, 0);
      var scores := Pick(sims, hits);
      forall k | 0 <= k < |scores| ensures threshold <= scores[k] <= top {
        assert IsHit(sims, threshold, hits[k]);
      }
      MeanBounds(scores, threshold, top);
    }
  }

  /**
    The span of the extractor's own test: four lines of which the middle
    two score 1 and the others 0, with threshold 0.5, select exactly the
    middle two lines.
   */
  lemma MiddleSpanExample()
    ensures var lines := ["intro line", "match line 1", "match line 2", "other line"];
      var r := Select(lines, [0.0, 1.0, 1.0, 0.0], 0.5);
      && r.matched
      && r.startLine == Some(1) && r.endLine == Some(2)
      && r.text == "match line 1\nmatch line 2"
      && r.score == 1.0
  {
    var lines := ["intro line", "match line 1", "match line 2", "other line"];
    var sims := [0.0, 1.0, 1.0, 0.0];
    var r := Select(lines, sims, 0.5);
    assert IsHit(sims, 0.5, 1) && IsHit(sims, 0.5, 2);
    assert !IsHit(sims, 0.5, 0) && !IsHit(sims, 0.5, 3);
    assert r.startLine == Some(1) && r.endLine == Some(2);
    MiddleSpanText(lines);
    SelectScore(lines, sims, 0.5);
    MiddleSpanMean(sims);
  }

  lemma MiddleSpanText(lines: seq<string>)
    requires lines == ["intro line", "match line 1", "match line 2", "other line"]
    ensures SpanText(lines, 1, 2) == "match line 1\nmatch line 2"
  {
    assert lines[1..3] == ["match line 1", "match line 2"];
    var joined := "match line 1\nmatch line 2";
    assert Join(lines[1..3], '\n') == joined;
    StripOfStripped(joined);
  }

  lemma MiddleSpanMean(sims: seq<real>)
    requires sims == [0.0, 1.0, 1.0, 0.0]
    ensures HitIndices(sims, 0.5, 0) == [1, 2]
    ensures Mean(Pick(sims, [1, 2])) == 1.0
  {
    assert HitIndices(sims, 0.5, 3) == [];
    assert HitIndices(sims, 0.5, 2) == [2];
    assert HitIndices(sims, 0.5, 1) == [1, 2];
    var picked := Pick(sims, [1, 2]);
    assert picked == [1.0, 1.0];
    assert Sum(picked) == Sum([1.0]) + 1.0;
    assert Sum([1.0]) == Sum([]) + 1.0;
  }

  /**
    A non-empty body none of whose lines reaches the threshold yields an
    unmatched result, not `None`.
   */
  lemma NoHitIsUnmatched(body: string, sims: seq<real>, threshold: real)
    requires |sims| == |SplitLines(body)| && body != []
    requires forall i :: 0 <= i < |sims| ==> sims[i] < threshold
    ensures var r := Extract(body, sims, threshold);
      && r.Some? && !r.value.matched
      && r.value.text == [] && r.value.score == 0.0
      && |r.value.lineScores| == |SplitLines(body)|
  {
  }
}
