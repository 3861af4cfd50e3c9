/** Per-metric selection and the `reduce((sum, r) => sum + r.metrics.<m>, 0)`
    aggregation shared by the history list and the results view. */
module Metrics {
  import opened Types

  /** The five fields of `QualityMetrics`. */
  datatype Metric = Coherence | Completeness | Readability | Relevance | Overall

  function Score(m: QualityMetrics, k: Metric): real
  {
    match k
    case Coherence => m.coherence
    case Completeness => m.completeness
    case Readability => m.readability
    case Relevance => m.relevance
    case Overall => m.overallScore
  }

  /** The left fold from zero over the responses, adding metric `k` of each. */
  function Sum(rs: seq<ResponseData>, k: Metric): real
  {
    if rs == [] then 0.0 else Sum(rs[..|rs| - 1], k) + Score(rs[|rs| - 1].metrics, k)
  }

  /** `sum / responses.length` for a non-empty list. */
  function Mean(rs: seq<ResponseData>, k: Metric): real
    requires |rs| > 0
  {
    Sum(rs, k) / (|rs| as real)
  }

  /** Every response scores at most `hi` on metric `k`. */
  ghost predicate AllAtMost(rs: seq<ResponseData>, k: Metric, hi: real)
  {
    forall i :: 0 <= i < |rs| ==> Score(rs[i].metrics, k) <= hi
  }

  /** Every response scores at least `lo` on metric `k`. */
  ghost predicate AllAtLeast(rs: seq<ResponseData>, k: Metric, lo: real)
  {
    forall i :: 0 <= i < |rs| ==> lo <= Score(rs[i].metrics, k)
  }

  /** A sum of n scores each at most `hi` is at most `n * hi`. */
  lemma {:induction false} SumAtMost(rs: seq<ResponseData>, k: Metric, hi: real)
    requires AllAtMost(rs, k, hi)
    ensures Sum(rs, k) <= (|rs| as real) * hi
  {
    if rs != [] {
      var front := rs[..|rs| - 1];
      assert AllAtMost(front, k, hi) by {
        forall i | 0 <= i < |front| ensures Score(front[i].metrics, k) <= hi {
          assert front[i] == rs[i];
        }
      }
      SumAtMost(front, k, hi);
    }
  }

  /** A sum of n scores each at least `lo` is at least `n * lo`. */
  lemma {:induction false} SumAtLeast(rs: seq<ResponseData>, k: Metric, lo: real)
    requires AllAtLeast(rs, k, lo)
    ensures (|rs| as real) * lo <= Sum(rs, k)
  {
    if rs != [] {
      var front := rs[..|rs| - 1];
      assert AllAtLeast(front, k, lo) by {
        forall i | 0 <= i < |front| ensures lo <= Score(front[i].metrics, k) {
          assert front[i] == rs[i];
        }
      }
      SumAtLeast(front, k, lo);
    }
  }

  /** The mean never exceeds an upper bound of the scores. */
  lemma MeanAtMost(rs: seq<ResponseData>, k: Metric, hi: real)
    requires |rs| > 0
    requires AllAtMost(rs, k, hi)
    ensures Mean(rs, k) <= hi
  {
    SumAtMost(rs, k, hi);
    assert Mean(rs, k) * (|rs| as real) == Sum(rs, k);
  }

  /** The mean never falls below a lower bound of the scores. */
  lemma MeanAtLeast(rs: seq<ResponseData>, k: Metric, lo: real)
    requires |rs| > 0
    requires AllAtLeast(rs, k, lo)
    ensures lo <= Mean(rs, k)
  {
    SumAtLeast(rs, k, lo);
    assert Mean(rs, k) * (|rs| as real) == Sum(rs, k);
  }
}
