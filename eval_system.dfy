/** `EvaluationSystem.evaluate_rag_response`, which scores one answer and appends the
    evaluation to the history, and the statistics `generate_performance_report`
    draws from that history. The judge model is an input: its parsed reply, or the
    fact that the call or the parsing failed. */
module Evaluation {
  import opened Wrappers
  import opened PyStr
  import opened Stats
  import opened Scoring
  import opened Overall
  import Comparison

  /** What `_evaluate_response_quality` got from the judge model: the five scores of
      its JSON reply, or a failure (the call raised, or the reply did not parse). */
  datatype JudgeReply =
    | Judged(precision: real, relevance: real, completeness: real, clarity: real, contextUse: real)
    | JudgeFailed

  /** `_evaluate_response_quality`: the judge's scores with their mean, or the
      heuristic judgement when the judge failed. */
  function ResponseQuality(question: string, answer: string, reply: JudgeReply): Result<QualityReport> {
    match reply
    case Judged(p, r, c, cl, u) => Ok(QualityReport(p, r, c, cl, u, (p + r + c + cl + u) / 5.0))
    case JudgeFailed => FallbackQuality(question, answer)
  }

  /** One entry of the history (the timestamp left aside). */
  datatype Evaluation = Evaluation(question: string, answer: string, metrics: Metrics, overallScore: real)

  /** `if expected_answer:` */
  predicate Truthy(expected: Option<string>) {
    expected.Some? && expected.value != ""
  }

  /** The evaluation `evaluate_rag_response` builds; `judged` says whether a judge
      client is configured. The only failures are the divisions by zero of the
      fallback judgement and of the retrieval metric. */
  function Evaluate(judged: bool, question: string, answer: string, docs: seq<Doc>,
                    expected: Option<string>, reply: JudgeReply, sqrt: real -> real): Result<Evaluation>
  {
    var quality := JudgedQuality(judged, question, answer, reply);
    if quality.Err? then Err(quality.error)
    else
      var retrieval := EvaluateRetrieval(question, docs, sqrt);
      if retrieval.Err? then Err(retrieval.error)
      else Ok(Assemble(question, answer, docs, expected, quality.value, retrieval.value))
  }

  /** The `response_quality` key: present only when a judge is configured. */
  function JudgedQuality(judged: bool, question: string, answer: string, reply: JudgeReply): Result<Option<QualityReport>> {
    if !judged then Ok(None)
    else
      var q := ResponseQuality(question, answer, reply);
      if q.Err? then Err(q.error) else Ok(Some(q.value))
  }

  /** The remaining keys, once quality and retrieval are known, and the overall score. */
  function Assemble(question: string, answer: string, docs: seq<Doc>, expected: Option<string>,
                    quality: Option<QualityReport>, retrieval: RetrievalMetrics): Evaluation
  {
    var metrics := Metrics(
      quality, Some(retrieval), Some(EvaluateRelevance(question, answer)),
      Some(EvaluateCompleteness(question, answer, docs)),
      if Truthy(expected) then Some(EvaluateAccuracy(answer, expected.value)) else None);
    Evaluation(question, answer, metrics, OverallScore(metrics))
  }

  /** A history entry as `evaluate_rag_response` writes it. */
  ghost predicate WellFormed(e: Evaluation) {
    && e.metrics.retrieval.Some? && e.metrics.relevance.Some? && e.metrics.completeness.Some?
    && e.overallScore == OverallScore(e.metrics)
  }

  class Evaluator {
    /** Whether a judge client (`llm_client`) is configured. */
    const judged: bool
    /** `evaluation_history` */
    var history: seq<Evaluation>

    ghost predicate Valid()
      reads this
    {
      forall k :: 0 <= k < |history| ==> WellFormed(history[k])
    }

    constructor(judged: bool)
      ensures this.judged == judged && history == [] && Valid()
    {
      this.judged := judged;
      history := [];
    }

    /** `evaluate_rag_response(question, answer, docs, expected)`: on success the
        evaluation is appended to the history, on failure the history is left as
        it was. */
    method EvaluateRagResponse(question: string, answer: string, docs: seq<Doc>,
                               expected: Option<string>, reply: JudgeReply, sqrt: real -> real)
      returns (r: Result<Evaluation>)
      requires Valid()
      modifies this
      ensures Valid()
      ensures r == Evaluate(judged, question, answer, docs, expected, reply, sqrt)
      ensures r.Ok? ==> history == old(history) + [r.value]
      ensures r.Err? ==> history == old(history)
    {
      r := Evaluate(judged, question, answer, docs, expected, reply, sqrt);
      if r.Ok? {
        EvaluationKeys(judged, question, answer, docs, expected, reply, sqrt);
        ghost var previous := history;
        history := history + [r.value];
        forall k | 0 <= k < |history| ensures WellFormed(history[k]) {
          if k < |previous| {
            assert history[k] == previous[k];
          } else {
            assert history[k] == r.value;
          }
        }
      }
    }

    /** `generate_performance_report()` without its timestamps and its same-day
        section. */
    function GeneratePerformanceReport(sqrt: real -> real): Report
      reads this
    {
      PerformanceReport(history, sqrt)
    }
  }

  // ---------------------------------------------------------------------------
  // Properties of one evaluation

  /** Evaluation fails only by dividing by zero, and exactly when the question has
      no words and either the judge failed or some document lacks a similarity
      score. */
  lemma {:induction false} EvaluationFailsIff(judged: bool, question: string, answer: string, docs: seq<Doc>,
                                              expected: Option<string>, reply: JudgeReply, sqrt: real -> real)
    ensures var r := Evaluate(judged, question, answer, docs, expected, reply, sqrt);
      && (r.Err? <==>
            Words(Lower(question)) == []
            && ((judged && reply.JudgeFailed?) || exists k :: 0 <= k < |docs| && docs[k].similarity.None?))
      && (r.Err? ==> r.error == ZeroDivision)
  {
    var quality := JudgedQuality(judged, question, answer, reply);
    assert quality.Err? <==> Words(Lower(question)) == [] && judged && reply.JudgeFailed? by {
      FallbackQualityBounds(question, answer);
    }
    assert quality.Err? ==> quality.error == ZeroDivision by {
      FallbackQualityBounds(question, answer);
    }
    RetrievalFailsIff(question, docs, sqrt);
  }

  /** The keys of a successful evaluation: retrieval, relevance and completeness
      always, a response quality exactly when a judge is configured, an accuracy
      exactly when an expected answer is given; the overall score is computed from
      them. */
  lemma {:induction false} EvaluationKeys(judged: bool, question: string, answer: string, docs: seq<Doc>,
                                          expected: Option<string>, reply: JudgeReply, sqrt: real -> real)
    ensures var r := Evaluate(judged, question, answer, docs, expected, reply, sqrt);
      r.Ok? ==>
        && WellFormed(r.value)
        && r.value.question == question && r.value.answer == answer
        && (r.value.metrics.responseQuality.Some? <==> judged)
        && (r.value.metrics.accuracy.Some? <==> Truthy(expected))
  {
    var quality := JudgedQuality(judged, question, answer, reply);
    if quality.Ok? {
      assert quality.value.Some? <==> judged;
      var retrieval := EvaluateRetrieval(question, docs, sqrt);
      if retrieval.Ok? {
        AssembleKeys(question, answer, docs, expected, quality.value, retrieval.value);
      }
    }
  }

  /** `Assemble` keeps the quality it is given and fills the other keys. */
  lemma {:induction false} AssembleKeys(question: string, answer: string, docs: seq<Doc>, expected: Option<string>,
                                        quality: Option<QualityReport>, retrieval: RetrievalMetrics)
    ensures var e := Assemble(question, answer, docs, expected, quality, retrieval);
      && WellFormed(e)
      && e.question == question && e.answer == answer
      && e.metrics.responseQuality == quality
      && (e.metrics.accuracy.Some? <==> Truthy(expected))
  {
  }

  /** Judge scores in `[0, 10]` give a quality mean in `[0, 10]`. */
  lemma {:induction false} QualityInRange(question: string, answer: string, reply: JudgeReply)
    requires reply.Judged? ==>
      && 0.0 <= reply.precision <= 10.0 && 0.0 <= reply.relevance <= 10.0
      && 0.0 <= reply.completeness <= 10.0 && 0.0 <= reply.clarity <= 10.0
      && 0.0 <= reply.contextUse <= 10.0
    ensures var q := ResponseQuality(question, answer, reply);
      q.Ok? ==> 0.0 <= q.value.meanScore <= 10.0
  {
    FallbackQualityBounds(question, answer);
  }

  /** With judge scores in `[0, 10]`, similarity scores in `[0, 1]` and a true
      square root, every present score and the overall score lie in `[0, 10]`. */
  lemma {:induction false} EvaluationInRange(judged: bool, question: string, answer: string, docs: seq<Doc>,
                                             expected: Option<string>, reply: JudgeReply, sqrt: real -> real)
    requires IsSqrt(sqrt)
    requires forall k :: 0 <= k < |docs| && docs[k].similarity.Some? ==> 0.0 <= docs[k].similarity.value <= 1.0
    requires reply.Judged? ==>
      && 0.0 <= reply.precision <= 10.0 && 0.0 <= reply.relevance <= 10.0
      && 0.0 <= reply.completeness <= 10.0 && 0.0 <= reply.clarity <= 10.0
      && 0.0 <= reply.contextUse <= 10.0
    ensures var r := Evaluate(judged, question, answer, docs, expected, reply, sqrt);
      r.Ok? ==> 0.0 <= r.value.overallScore <= 10.0
  {
    var quality := JudgedQuality(judged, question, answer, reply);
    if quality.Ok? {
      QualityInRange(question, answer, reply);
      var retrieval := EvaluateRetrieval(question, docs, sqrt);
      if retrieval.Ok? {
        RetrievalBounds(question, docs, sqrt);
        AssembleInRange(question, answer, docs, expected, quality.value, retrieval.value);
      }
    }
  }

  /** A quality mean and a retrieval score in `[0, 10]` give an overall score in
      `[0, 10]`. */
  lemma {:induction false} AssembleInRange(question: string, answer: string, docs: seq<Doc>, expected: Option<string>,
                                           quality: Option<QualityReport>, retrieval: RetrievalMetrics)
    requires quality.Some? ==> 0.0 <= quality.value.meanScore <= 10.0
    requires retrieval.score.Some? ==> 0.0 <= retrieval.score.value <= 10.0
    ensures var e := Assemble(question, answer, docs, expected, quality, retrieval);
      0.0 <= e.overallScore <= 10.0
  {
    var m := Assemble(question, answer, docs, expected, quality, retrieval).metrics;
    RelevanceBounds(question, answer);
    CompletenessBounds(question, answer, docs);
    if Truthy(expected) {
      AccuracyBounds(answer, expected.value);
    }
    KeyScoresInRange(m);
    OverallScoreInRange(m);
  }

  /** Every score of a metrics dictionary lies in `[0, 10]` when each present one does. */
  lemma {:induction false} KeyScoresInRange(m: Metrics)
    requires m.responseQuality.Some? ==> 0.0 <= m.responseQuality.value.meanScore <= 10.0
    requires m.retrieval.Some? && m.retrieval.value.score.Some? ==> 0.0 <= m.retrieval.value.score.value <= 10.0
    requires m.relevance.Some? && m.relevance.value.score.Some? ==> 0.0 <= m.relevance.value.score.value <= 10.0
    requires m.completeness.Some? ==> 0.0 <= m.completeness.value.score <= 10.0
    requires m.accuracy.Some? && m.accuracy.value.score.Some? ==> 0.0 <= m.accuracy.value.score.value <= 10.0
    ensures forall x :: x in Scores(WeightedScores(m)) ==> 0.0 <= x <= 10.0
  {
    var ws := WeightedScores(m);
    forall k | 0 <= k < |ws| ensures 0.0 <= ws[k].score <= 10.0 {
    }
  }

  /** The overall score of `e` is the plain mean of its retrieval, relevance and
      completeness scores. */
  predicate PlainMeanOfThree(e: Evaluation) {
    && e.metrics.retrieval.Some? && e.metrics.retrieval.value.score.Some?
    && e.metrics.relevance.Some? && e.metrics.relevance.value.score.Some?
    && e.metrics.completeness.Some?
    && e.overallScore ==
      (e.metrics.retrieval.value.score.value + e.metrics.relevance.value.score.value
       + e.metrics.completeness.value.score) / 3.0
  }

  /** Without a judge and without an expected answer, a question with content words
      and at least one document give an overall score that is the plain mean of the
      retrieval, relevance and completeness scores. */
  lemma {:induction false} UnjudgedOverallIsPlainMean(question: string, answer: string, docs: seq<Doc>,
                                                      reply: JudgeReply, sqrt: real -> real)
    requires docs != [] && !(WordSet(question) <= StopWords)
    ensures var r := Evaluate(false, question, answer, docs, None, reply, sqrt);
      r.Ok? && PlainMeanOfThree(r.value)
  {
    WordSetEmptyIff(question);
    RetrievalFailsIff(question, docs, sqrt);
    var retrieval := EvaluateRetrieval(question, docs, sqrt);
    UnjudgedEvaluation(question, answer, docs, None, reply, sqrt);
    AssembledOfThree(question, answer, docs, retrieval.value);
  }

  lemma {:induction false} UnjudgedEvaluation(question: string, answer: string, docs: seq<Doc>,
                                              expected: Option<string>, reply: JudgeReply, sqrt: real -> real)
    requires EvaluateRetrieval(question, docs, sqrt).Ok?
    ensures Evaluate(false, question, answer, docs, expected, reply, sqrt)
      == Ok(Assemble(question, answer, docs, expected, None, EvaluateRetrieval(question, docs, sqrt).value))
  {
  }

  lemma {:induction false} AssembledOfThree(question: string, answer: string, docs: seq<Doc>, retrieval: RetrievalMetrics)
    requires retrieval.score.Some? && !(WordSet(question) <= StopWords)
    ensures PlainMeanOfThree(Assemble(question, answer, docs, None, None, retrieval))
  {
    RelevanceBounds(question, answer);
    var e := Assemble(question, answer, docs, None, None, retrieval);
    var m := e.metrics;
    OverallOfThree(m, retrieval.score.value, m.relevance.value.score.value, m.completeness.value.score);
  }

  // ---------------------------------------------------------------------------
  // `generate_performance_report`: `overall_stats` and `metric_analysis`

  /** The four metric categories the report analyses (accuracy is not one). */
  datatype MetricKind = ResponseQualityKind | RetrievalKind | RelevanceKind | CompletenessKind

  /** The score of category `kind` in one evaluation, when it has one. */
  function MetricValue(m: Metrics, kind: MetricKind): Option<real> {
    match kind
    case ResponseQualityKind => if m.responseQuality.Some? then Some(m.responseQuality.value.meanScore) else None
    case RetrievalKind => if m.retrieval.Some? then m.retrieval.value.score else None
    case RelevanceKind => if m.relevance.Some? then m.relevance.value.score else None
    case CompletenessKind => if m.completeness.Some? then Some(m.completeness.value.score) else None
  }

  /** The `values` list of one category: its scores over the history, in order. */
  function MetricValues(history: seq<Evaluation>, kind: MetricKind): seq<real> {
    if history == [] then []
    else
      var v := MetricValue(history[0].metrics, kind);
      (if v.Some? then [v.value] else []) + MetricValues(history[1..], kind)
  }

  /** The overall score of every evaluation, in order. */
  function OverallScores(history: seq<Evaluation>): (ss: seq<real>)
    ensures |ss| == |history| && forall k :: 0 <= k < |history| ==> ss[k] == history[k].overallScore
  {
    seq(|history|, k requires 0 <= k < |history| => history[k].overallScore)
  }

  /** `{'avg': ..., 'std': ...}` */
  datatype MetricSummary = MetricSummary(avg: real, std: real)

  /** The report: an error for an empty history, else the number of evaluations, the
      statistics of the overall scores, and the mean and deviation of each category
      that has at least one score. */
  datatype Report =
    | NoHistory
    | Report(totalEvaluations: nat, overallStats: Comparison.Summary, metricAnalysis: map<MetricKind, MetricSummary>)

  function Analysis(history: seq<Evaluation>, sqrt: real -> real): map<MetricKind, MetricSummary> {
    map kind: MetricKind | MetricValues(history, kind) != [] ::
      MetricSummary(Mean(MetricValues(history, kind)), StdevOrZero(MetricValues(history, kind), sqrt))
  }

  function PerformanceReport(history: seq<Evaluation>, sqrt: real -> real): Report {
    if history == [] then NoHistory
    else Report(|history|, Comparison.Summarize(OverallScores(history), sqrt), Analysis(history, sqrt))
  }

  lemma {:induction false} MetricValuesPresent(history: seq<Evaluation>, kind: MetricKind)
    ensures MetricValues(history, kind) != [] <==>
      exists k :: 0 <= k < |history| && MetricValue(history[k].metrics, kind).Some?
    ensures forall x :: x in MetricValues(history, kind) ==>
      exists k :: 0 <= k < |history| && MetricValue(history[k].metrics, kind) == Some(x)
  {
    if history != [] {
      MetricValuesPresent(history[1..], kind);
      forall k | 1 <= k < |history| ensures history[k] == history[1..][k - 1] {
      }
    }
  }

  /** An empty history gives the error report. Otherwise the report counts the
      evaluations, summarises their overall scores, and analyses exactly the
      categories that some evaluation scored, each with a mean between that
      category's extremes and a non-negative deviation. */
  lemma {:induction false} ReportShape(history: seq<Evaluation>, sqrt: real -> real)
    requires IsSqrt(sqrt)
    ensures var rep := PerformanceReport(history, sqrt);
      && (rep.NoHistory? <==> history == [])
      && (rep.Report? ==>
            && rep.totalEvaluations == |history|
            && rep.overallStats == Comparison.Summarize(OverallScores(history), sqrt)
            && rep.overallStats.min <= rep.overallStats.avg <= rep.overallStats.max
            && 0.0 <= rep.overallStats.successRate <= 1.0
            && (forall kind :: kind in rep.metricAnalysis <==>
                  exists k :: 0 <= k < |history| && MetricValue(history[k].metrics, kind).Some?)
            && (forall kind :: kind in rep.metricAnalysis ==>
                  && MinReal(MetricValues(history, kind)) <= rep.metricAnalysis[kind].avg <= MaxReal(MetricValues(history, kind))
                  && rep.metricAnalysis[kind].std >= 0.0))
  {
    if history != [] {
      Comparison.SummaryBounds(OverallScores(history), sqrt);
      forall kind ensures kind in Analysis(history, sqrt) <==>
        exists k :: 0 <= k < |history| && MetricValue(history[k].metrics, kind).Some?
      {
        MetricValuesPresent(history, kind);
      }
      forall kind | kind in Analysis(history, sqrt)
        ensures var vs := MetricValues(history, kind);
          && MinReal(vs) <= Analysis(history, sqrt)[kind].avg <= MaxReal(vs)
          && Analysis(history, sqrt)[kind].std >= 0.0
      {
        MeanBetween(MetricValues(history, kind));
        StdevNonNegative(MetricValues(history, kind), sqrt);
      }
    }
  }

  /** Every evaluation the evaluator records has a completeness score, so a
      non-empty history always has a completeness analysis, over one score per
      evaluation. */
  lemma {:induction false} CompletenessAlwaysAnalysed(history: seq<Evaluation>, sqrt: real -> real)
    requires history != []
    requires forall k :: 0 <= k < |history| ==> WellFormed(history[k])
    ensures CompletenessKind in PerformanceReport(history, sqrt).metricAnalysis
    ensures |MetricValues(history, CompletenessKind)| == |history|
  {
    MetricValuesPresent(history, CompletenessKind);
    assert MetricValue(history[0].metrics, CompletenessKind).Some?;
    AllPresentCount(history, CompletenessKind);
  }

  lemma {:induction false} AllPresentCount(history: seq<Evaluation>, kind: MetricKind)
    requires forall k :: 0 <= k < |history| ==> MetricValue(history[k].metrics, kind).Some?
    ensures |MetricValues(history, kind)| == |history|
  {
    if history != [] {
      forall k | 0 <= k < |history[1..]| ensures MetricValue(history[1..][k].metrics, kind).Some? {
        assert history[1..][k] == history[k + 1];
      }
      AllPresentCount(history[1..], kind);
    }
  }
}
