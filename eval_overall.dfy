/** `_calculate_overall_score`: the weighted mean of whichever aggregate scores an
    evaluation carries, with the weights renormalised over the scores present. */
module Overall {
  import opened Wrappers
  import opened Stats
  import opened Scoring

  /** The metrics dictionary of one evaluation; a key the evaluation did not fill
      is `None`. */
  datatype Metrics = Metrics(
    responseQuality: Option<QualityReport>,
    retrieval: Option<RetrievalMetrics>,
    relevance: Option<RelevanceMetrics>,
    completeness: Option<CompletenessMetrics>,
    accuracy: Option<AccuracyMetrics>)

  /** A score with its (not yet normalised) weight. */
  datatype Weighted = Weighted(score: real, weight: real)

  const QualityWeight: real := 0.4
  const RetrievalWeight: real := 0.2
  const RelevanceWeight: real := 0.2
  const CompletenessWeight: real := 0.2
  const AccuracyWeight: real := 0.1

  /** The `scores`/`weights` lists, in the order the keys are tested. */
  function WeightedScores(m: Metrics): (ws: seq<Weighted>)
    ensures forall k :: 0 <= k < |ws| ==> ws[k].weight > 0.0
  {
    (if m.responseQuality.Some? then [Weighted(m.responseQuality.value.meanScore, QualityWeight)] else [])
    + (if m.retrieval.Some? && m.retrieval.value.score.Some? then [Weighted(m.retrieval.value.score.value, RetrievalWeight)] else [])
    + (if m.relevance.Some? && m.relevance.value.score.Some? then [Weighted(m.relevance.value.score.value, RelevanceWeight)] else [])
    + (if m.completeness.Some? then [Weighted(m.completeness.value.score, CompletenessWeight)] else [])
    + (if m.accuracy.Some? && m.accuracy.value.score.Some? then [Weighted(m.accuracy.value.score.value, AccuracyWeight)] else [])
  }

  function Scores(ws: seq<Weighted>): (ss: seq<real>)
    ensures |ss| == |ws| && forall k :: 0 <= k < |ws| ==> ss[k] == ws[k].score
  {
    seq(|ws|, k requires 0 <= k < |ws| => ws[k].score)
  }

  /** The sum of the weights. */
  function TotalWeight(ws: seq<Weighted>): real {
    if ws == [] then 0.0 else ws[0].weight + TotalWeight(ws[1..])
  }

  /** The sum of every score times its weight divided by the total weight. */
  function NormalizedSum(ws: seq<Weighted>, total: real): real
    requires total != 0.0
  {
    if ws == [] then 0.0 else ws[0].score * (ws[0].weight / total) + NormalizedSum(ws[1..], total)
  }

  /** The score before normalisation: the sum of `score * weight`. */
  function WeightedSum(ws: seq<Weighted>): real {
    if ws == [] then 0.0 else ws[0].score * ws[0].weight + WeightedSum(ws[1..])
  }

  lemma {:induction false} TotalWeightPositive(ws: seq<Weighted>)
    requires forall k :: 0 <= k < |ws| ==> ws[k].weight > 0.0
    ensures ws != [] ==> TotalWeight(ws) > 0.0
    ensures TotalWeight(ws) >= 0.0
  {
    if ws != [] {
      TotalWeightPositive(ws[1..]);
    }
  }

  /** The weighted mean of a list of weighted scores; 5.0 for the empty list. */
  function WeightedMean(ws: seq<Weighted>): real
    requires forall k :: 0 <= k < |ws| ==> ws[k].weight > 0.0
  {
    if ws == [] then 5.0
    else
      TotalWeightPositive(ws);
      NormalizedSum(ws, TotalWeight(ws))
  }

  /** `_calculate_overall_score(metrics)` */
  function OverallScore(m: Metrics): real {
    WeightedMean(WeightedScores(m))
  }

  // ---------------------------------------------------------------------------
  // The weighted mean is a convex combination

  lemma {:induction false} ScaleByQuotient(s: real, w: real, t: real)
    requires t > 0.0
    ensures s * (w / t) == (s * w) / t
  {
  }

  lemma {:induction false} AddQuotients(a: real, b: real, t: real)
    requires t > 0.0
    ensures a / t + b / t == (a + b) / t
  {
  }

  /** Summing the normalised products is dividing the plain weighted sum by the
      total weight once. */
  lemma {:induction false} NormalizedIsQuotient(ws: seq<Weighted>, t: real)
    requires t > 0.0
    ensures NormalizedSum(ws, t) == WeightedSum(ws) / t
  {
    if ws != [] {
      NormalizedIsQuotient(ws[1..], t);
      ScaleByQuotient(ws[0].score, ws[0].weight, t);
      AddQuotients(ws[0].score * ws[0].weight, WeightedSum(ws[1..]), t);
    }
  }

  lemma {:induction false} ScaleMonotone(a: real, b: real, w: real)
    requires a <= b && w >= 0.0
    ensures a * w <= b * w
  {
  }

  lemma {:induction false} WeightedSumAtLeast(ws: seq<Weighted>, lo: real)
    requires forall k :: 0 <= k < |ws| ==> ws[k].weight >= 0.0 && lo <= ws[k].score
    ensures lo * TotalWeight(ws) <= WeightedSum(ws)
  {
    if ws != [] {
      WeightedSumAtLeast(ws[1..], lo);
      ScaleMonotone(lo, ws[0].score, ws[0].weight);
      assert lo * TotalWeight(ws) == lo * ws[0].weight + lo * TotalWeight(ws[1..]);
    }
  }

  lemma {:induction false} WeightedSumAtMost(ws: seq<Weighted>, hi: real)
    requires forall k :: 0 <= k < |ws| ==> ws[k].weight >= 0.0 && ws[k].score <= hi
    ensures WeightedSum(ws) <= hi * TotalWeight(ws)
  {
    if ws != [] {
      WeightedSumAtMost(ws[1..], hi);
      ScaleMonotone(ws[0].score, hi, ws[0].weight);
      assert hi * TotalWeight(ws) == hi * ws[0].weight + hi * TotalWeight(ws[1..]);
    }
  }

  /** The weighted mean is the weighted sum over the total weight. */
  lemma {:induction false} WeightedMeanIsQuotient(ws: seq<Weighted>)
    requires ws != [] && forall k :: 0 <= k < |ws| ==> ws[k].weight > 0.0
    ensures TotalWeight(ws) > 0.0 && WeightedMean(ws) == WeightedSum(ws) / TotalWeight(ws)
  {
    TotalWeightPositive(ws);
    NormalizedIsQuotient(ws, TotalWeight(ws));
  }

  lemma {:induction false} ScoresBetween(ws: seq<Weighted>)
    requires ws != [] && forall k :: 0 <= k < |ws| ==> ws[k].weight > 0.0
    ensures forall k :: 0 <= k < |ws| ==>
      ws[k].weight >= 0.0 && MinReal(Scores(ws)) <= ws[k].score <= MaxReal(Scores(ws))
  {
    forall k | 0 <= k < |ws|
      ensures MinReal(Scores(ws)) <= ws[k].score <= MaxReal(Scores(ws))
    {
      assert Scores(ws)[k] in Scores(ws);
    }
  }

  /** The weighted mean lies between the smallest and the largest score; the empty
      list gives 5.0. */
  lemma {:induction false} QuotientAtLeast(q: real, sum: real, t: real, lo: real)
    requires t > 0.0 && q == sum / t && lo * t <= sum
    ensures lo <= q
  {
    DivAtLeast(sum, t, lo);
  }

  lemma {:induction false} QuotientAtMost(q: real, sum: real, t: real, hi: real)
    requires t > 0.0 && q == sum / t && sum <= hi * t
    ensures q <= hi
  {
    DivAtMost(sum, t, hi);
  }

  /** Any lower bound on every score bounds the weighted mean from below. */
  lemma {:induction false} MeanAtLeast(ws: seq<Weighted>, lo: real)
    requires ws != [] && forall k :: 0 <= k < |ws| ==> ws[k].weight > 0.0 && lo <= ws[k].score
    ensures lo <= WeightedMean(ws)
  {
    WeightedMeanIsQuotient(ws);
    WeightedSumAtLeast(ws, lo);
    QuotientAtLeast(WeightedMean(ws), WeightedSum(ws), TotalWeight(ws), lo);
  }

  /** Any upper bound on every score bounds the weighted mean from above. */
  lemma {:induction false} MeanAtMost(ws: seq<Weighted>, hi: real)
    requires ws != [] && forall k :: 0 <= k < |ws| ==> ws[k].weight > 0.0 && ws[k].score <= hi
    ensures WeightedMean(ws) <= hi
  {
    WeightedMeanIsQuotient(ws);
    WeightedSumAtMost(ws, hi);
    QuotientAtMost(WeightedMean(ws), WeightedSum(ws), TotalWeight(ws), hi);
  }

  lemma {:induction false} WeightedMeanAtLeastMin(ws: seq<Weighted>)
    requires ws != [] && forall k :: 0 <= k < |ws| ==> ws[k].weight > 0.0
    ensures MinReal(Scores(ws)) <= WeightedMean(ws)
  {
    ScoresBetween(ws);
    MeanAtLeast(ws, MinReal(Scores(ws)));
  }

  lemma {:induction false} WeightedMeanAtMostMax(ws: seq<Weighted>)
    requires ws != [] && forall k :: 0 <= k < |ws| ==> ws[k].weight > 0.0
    ensures WeightedMean(ws) <= MaxReal(Scores(ws))
  {
    ScoresBetween(ws);
    MeanAtMost(ws, MaxReal(Scores(ws)));
  }

  /** The weighted mean lies between the smallest and the largest score; the empty
      list gives 5.0. */
  lemma {:induction false} WeightedMeanBetween(ws: seq<Weighted>)
    requires forall k :: 0 <= k < |ws| ==> ws[k].weight > 0.0
    ensures ws == [] ==> WeightedMean(ws) == 5.0
    ensures ws != [] ==> MinReal(Scores(ws)) <= WeightedMean(ws) <= MaxReal(Scores(ws))
  {
    if ws != [] {
      WeightedMeanAtLeastMin(ws);
      WeightedMeanAtMostMax(ws);
    }
  }

  lemma {:induction false} EqualWeightsSum(ws: seq<Weighted>, w: real)
    requires forall k :: 0 <= k < |ws| ==> ws[k].weight == w
    ensures WeightedSum(ws) == SumReal(Scores(ws)) * w
    ensures TotalWeight(ws) == (|ws| as real) * w
  {
    if ws != [] {
      EqualWeightsSum(ws[1..], w);
      assert Scores(ws)[1..] == Scores(ws[1..]);
    }
  }

  lemma {:induction false} CancelCommonFactor(s: real, n: real, w: real)
    requires n > 0.0 && w > 0.0
    ensures (s * w) / (n * w) == s / n
  {
  }

  /** With equal weights the weighted mean is the plain mean. */
  lemma {:induction false} EqualWeightsMean(ws: seq<Weighted>, w: real)
    requires ws != [] && w > 0.0
    requires forall k :: 0 <= k < |ws| ==> ws[k].weight == w
    ensures WeightedMean(ws) == Mean(Scores(ws))
  {
    WeightedMeanIsQuotient(ws);
    EqualWeightsSum(ws, w);
    CancelCommonFactor(SumReal(Scores(ws)), |ws| as real, w);
  }

  // ---------------------------------------------------------------------------
  // Properties of `_calculate_overall_score`

  /** Which scores take part: a judged quality with weight 0.4, a retrieval,
      relevance or completeness score with 0.2 each and an accuracy score with 0.1;
      the overall score is their renormalised weighted mean, lies between the
      smallest and largest of them, and is 5.0 when there is none. */
  lemma {:induction false} OverallScoreIsConvex(m: Metrics)
    ensures var ws := WeightedScores(m);
      && (ws == [] <==>
            m.responseQuality.None? && (m.retrieval.None? || m.retrieval.value.score.None?)
            && (m.relevance.None? || m.relevance.value.score.None?) && m.completeness.None?
            && (m.accuracy.None? || m.accuracy.value.score.None?))
      && (ws == [] ==> OverallScore(m) == 5.0)
      && (ws != [] ==>
            && TotalWeight(ws) > 0.0 && OverallScore(m) == WeightedSum(ws) / TotalWeight(ws)
            && MinReal(Scores(ws)) <= OverallScore(m) <= MaxReal(Scores(ws)))
  {
    var ws := WeightedScores(m);
    WeightedMeanBetween(ws);
    if ws != [] {
      WeightedMeanIsQuotient(ws);
    }
  }

  /** Without a judged quality and without an accuracy score, three present scores
      weigh the same: the overall score is their plain mean. */
  lemma {:induction false} OverallOfThree(m: Metrics, retrieval: real, relevance: real, completeness: real)
    requires m.responseQuality.None? && m.accuracy.None?
    requires m.retrieval.Some? && m.retrieval.value.score == Some(retrieval)
    requires m.relevance.Some? && m.relevance.value.score == Some(relevance)
    requires m.completeness.Some? && m.completeness.value.score == completeness
    ensures OverallScore(m) == (retrieval + relevance + completeness) / 3.0
  {
    var ws := WeightedScores(m);
    assert ws == [Weighted(retrieval, 0.2), Weighted(relevance, 0.2), Weighted(completeness, 0.2)];
    EqualWeightsMean(ws, 0.2);
    var ss := [retrieval, relevance, completeness];
    assert Scores(ws) == ss;
    assert ss[1..] == [relevance, completeness] && ss[1..][1..] == [completeness];
    assert [completeness][1..] == [];
    assert SumReal([completeness]) == completeness;
    assert SumReal([relevance, completeness]) == relevance + completeness;
    assert SumReal(ss) == retrieval + relevance + completeness;
  }

  /** Scores in `[0, 10]` give an overall score in `[0, 10]`. */
  lemma {:induction false} OverallScoreInRange(m: Metrics)
    requires forall x :: x in Scores(WeightedScores(m)) ==> 0.0 <= x <= 10.0
    ensures 0.0 <= OverallScore(m) <= 10.0
  {
    var ws := WeightedScores(m);
    WeightedMeanBetween(ws);
    if ws != [] {
      assert MinReal(Scores(ws)) in Scores(ws);
      assert MaxReal(Scores(ws)) in Scores(ws);
    }
  }
}
