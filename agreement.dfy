/** The history card and the results view compute the best and average score
    of an experiment in two different ways (`Math.max` over the scores and a
    strict-`>` reduce over the responses; a shared sum divided by the count).
    These lemmas show the two views report the same numbers. */
module Agreement {
  import opened Types
  import opened Metrics
  import ExperimentHistory
  import ResponseDisplay

  /** The best score on a history card is the score of the response the
      results view marks as best. */
  lemma BestScoresAgree(e: ExperimentData)
    requires e.responses != []
    ensures ExperimentHistory.GetBestScore(e)
         == ExperimentHistory.Finite(ResponseDisplay.BestResponse(e.responses).value.metrics.overallScore)
  {
  }

  /** The average score on a history card is the overall field of the
      results view's average metrics. */
  lemma AverageScoresAgree(e: ExperimentData)
    requires e.responses != []
    ensures ExperimentHistory.GetAverageScore(e)
         == ExperimentHistory.Finite(ResponseDisplay.AverageMetrics(e.responses).value.overallScore)
  {
  }
}
