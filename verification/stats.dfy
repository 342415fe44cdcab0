/**
  The statistics records the backend emits and the frontend draws
  (frontend/types.ts `KeywordStat` and `ClassStat`). Ratios are exact
  rationals here; the source's floating-point division is not modelled.
 */
module Stats {

  /** One keyword of a category summary. */
  datatype KeywordStat = KeywordStat(keyword: string, count: nat, ratio: real)

  /** One class of a class summary. */
  datatype ClassStat = ClassStat(count: nat, ratio: real)

  /** `count / total` as Python's true division computes it (total > 0). */
  function Ratio(count: nat, total: nat): (r: real)
    requires total > 0
    ensures count <= total ==> 0.0 <= r <= 1.0
    ensures count > 0 <==> r > 0.0
    ensures r * total as real == count as real
  {
    count as real / total as real
  }
}
