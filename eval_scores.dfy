/** The heuristic scorers of `EvaluationSystem`: the fallback quality judgement, the
    retrieval, relevance, completeness and accuracy metrics, and the question
    aspects the completeness metric looks for. Scores are exact reals; the square
    root behind `statistics.stdev` is a parameter. */
module Scoring {
  import opened Wrappers
  import opened PyStr
  import opened Stats

  /** A retrieved document as the evaluator reads it: the keys `text`,
      `similarity_score` and `source`, each of which may be absent. */
  datatype Doc = Doc(text: Option<string>, similarity: Option<real>, source: Option<string>)

  /** The document's text, empty when it has none. */
  function DocText(d: Doc): string { d.text.GetOr("") }

  /** `min(a, b)` on reals. */
  function Least(a: real, b: real): real { if b < a then b else a }

  /** `max(a, b)` on reals. */
  function Greatest(a: real, b: real): real { if b > a then b else a }

  /** The set of whitespace-separated words of the lower-cased text. */
  function WordSet(s: string): set<string> {
    set w | w in Words(Lower(s))
  }

  lemma {:induction false} WordSetEmptyIff(s: string)
    ensures WordSet(s) == {} <==> Words(Lower(s)) == []
  {
    if Words(Lower(s)) != [] {
      assert Words(Lower(s))[0] in WordSet(s);
    }
  }

  /** A text without characters has no words. */
  lemma {:induction false} EmptyHasNoWords(s: string)
    requires |s| == 0
    ensures WordSet(s) == {}
  {
    WordsEmptyIffBlank(Lower(s));
    WordSetEmptyIff(s);
  }

  lemma {:induction false} SubsetCard<T>(a: set<T>, b: set<T>)
    requires a <= b
    ensures |a| <= |b|
    ensures |a| == |b| ==> a == b
  {
    var d := b - a;
    assert b == a + d && a * d == {};
  }

  /** Dividing a count by a larger positive count gives a ratio in `[0, 1]`, and the
      ratio is 1 exactly when the counts agree. */
  lemma {:induction false} Ratio(c: nat, n: nat)
    requires c <= n && n > 0
    ensures 0.0 <= c as real / n as real <= 1.0
    ensures c as real / n as real == 1.0 <==> c == n
  {
    DivAtMost(c as real, n as real, 1.0);
    DivAtLeast(c as real, n as real, 0.0);
    DivIsOne(c as real, n as real);
  }

  // ---------------------------------------------------------------------------
  // `_fallback_quality_evaluation`

  /** The dictionary of the quality judgement (the fixed `justificativa` text left
      aside). */
  datatype QualityReport = QualityReport(
    precision: real, relevance: real, completeness: real, clarity: real, contextUse: real,
    meanScore: real)

  /** 0.8 when the answer contains a period, 0.5 otherwise. */
  function Clarity(answer: string): real {
    if |Split(answer, ".")| > 1 then 0.8 else 0.5
  }

  /** The fallback judgement from the two word sets, the answer's length and its
      clarity. */
  function Quality(q: set<string>, a: set<string>, answerLength: nat, clarity: real): Result<QualityReport> {
    if |q| == 0 then Err(ZeroDivision)
    else
      var overlap := |q * a| as real / |q| as real;
      var completeness := Least(answerLength as real / 200.0, 1.0);
      Ok(QualityReport(7.0, overlap * 10.0, completeness * 10.0, clarity * 10.0, 7.0,
                       (7.0 + overlap * 10.0 + completeness * 10.0 + clarity * 10.0 + 7.0) / 5.0))
  }

  /** `_fallback_quality_evaluation(question, answer)`; a question without words
      divides by zero. */
  function FallbackQuality(question: string, answer: string): Result<QualityReport> {
    Quality(WordSet(question), WordSet(answer), |answer|, Clarity(answer))
  }

  /** The answer counts as several sentences exactly when it contains a period. */
  lemma {:induction false} ClarityIffPeriod(answer: string)
    ensures Clarity(answer) == 0.8 <==> Contains(answer, ".")
    ensures Clarity(answer) == 0.5 <==> !Contains(answer, ".")
  {
  }

  /** The fallback fails exactly on a question without words; otherwise every score
      lies in `[0, 10]`, the mean between 3.8 and 8.4, and the mean is the average of
      the five scores. */
  lemma {:induction false} FallbackQualityBounds(question: string, answer: string)
    ensures FallbackQuality(question, answer).Err? <==> Words(Lower(question)) == []
    ensures FallbackQuality(question, answer).Err? ==> FallbackQuality(question, answer).error == ZeroDivision
    ensures match FallbackQuality(question, answer)
      case Err(_) => true
      case Ok(r) =>
        && 0.0 <= r.relevance <= 10.0 && 0.0 <= r.completeness <= 10.0
        && (r.clarity == 5.0 || r.clarity == 8.0)
        && r.meanScore == (r.precision + r.relevance + r.completeness + r.clarity + r.contextUse) / 5.0
        && 3.8 <= r.meanScore <= 8.4
  {
    WordSetEmptyIff(question);
    QualityBounds(WordSet(question), WordSet(answer), |answer|, Clarity(answer));
  }

  lemma {:induction false} QualityBounds(q: set<string>, a: set<string>, answerLength: nat, clarity: real)
    requires clarity == 0.5 || clarity == 0.8
    ensures Quality(q, a, answerLength, clarity).Err? <==> q == {}
    ensures match Quality(q, a, answerLength, clarity)
      case Err(e) => e == ZeroDivision
      case Ok(r) =>
        && 0.0 <= r.relevance <= 10.0 && 0.0 <= r.completeness <= 10.0
        && (r.clarity == 5.0 || r.clarity == 8.0)
        && r.meanScore == (r.precision + r.relevance + r.completeness + r.clarity + r.contextUse) / 5.0
        && 3.8 <= r.meanScore <= 8.4
  {
    if |q| > 0 {
      SubsetCard(q * a, q);
      Ratio(|q * a|, |q|);
    }
  }

  /** An answer that repeats every word of the question, contains a period and has
      at least 200 characters gets the highest fallback mean, 8.4. */
  lemma {:induction false} FallbackQualityTop(question: string, answer: string)
    requires Words(Lower(question)) != []
    requires WordSet(question) <= WordSet(answer)
    requires Contains(answer, ".") && |answer| >= 200
    ensures FallbackQuality(question, answer).Ok?
    ensures FallbackQuality(question, answer).value.meanScore == 8.4
  {
    WordSetEmptyIff(question);
    QualityTop(WordSet(question), WordSet(answer), |answer|);
  }

  lemma {:induction false} QualityTop(q: set<string>, a: set<string>, answerLength: nat)
    requires q != {} && q <= a && answerLength >= 200
    ensures Quality(q, a, answerLength, 0.8) == Ok(QualityReport(7.0, 10.0, 10.0, 8.0, 7.0, 8.4))
  {
    assert q * a == q;
    Ratio(|q|, |q|);
    DivAtLeast(answerLength as real, 200.0, 1.0);
  }

  // ---------------------------------------------------------------------------
  // `_evaluate_relevance`

  /** The stop words removed from both sides. */
  const StopWords: set<string> := {
    "o", "a", "e", "de", "do", "da", "em", "um", "uma", "para", "com", "como", "que",
    "\U{e9}", "ser"
  }

  /** The result of `_evaluate_relevance`; `score` is `relevance_score`, absent
      when the question has only stop words. */
  datatype RelevanceMetrics = RelevanceMetrics(keywordOverlap: real, semanticRelevance: real, score: Option<real>)

  /** `_evaluate_relevance(question, answer, docs)`; the documents are not read. */
  function EvaluateRelevance(question: string, answer: string): RelevanceMetrics {
    var q := WordSet(question) - StopWords;
    var a := WordSet(answer) - StopWords;
    if |q| == 0 then RelevanceMetrics(0.0, 0.5, None)
    else
      var overlap := |q * a| as real / |q| as real;
      RelevanceMetrics(overlap, 0.7, Some((overlap * 0.6 + 0.7 * 0.4) * 10.0))
  }

  /** No score exactly when every question word is a stop word; otherwise the
      overlap lies in `[0, 1]`, is 1 exactly when the answer repeats every content
      word of the question, and the score lies between 2.8 and 8.8. */
  lemma {:induction false} RelevanceBounds(question: string, answer: string)
    ensures var r := EvaluateRelevance(question, answer);
      && (r.score.None? <==> WordSet(question) <= StopWords)
      && (r.score.None? ==> r.keywordOverlap == 0.0 && r.semanticRelevance == 0.5)
      && (r.score.Some? ==>
            && 0.0 <= r.keywordOverlap <= 1.0
            && (r.keywordOverlap == 1.0 <==> WordSet(question) - StopWords <= WordSet(answer))
            && r.score.value == 6.0 * r.keywordOverlap + 2.8
            && 2.8 <= r.score.value <= 8.8)
  {
    var q := WordSet(question) - StopWords;
    var a := WordSet(answer) - StopWords;
    ContentWords(WordSet(question), WordSet(answer), StopWords);
    if |q| > 0 {
      SubsetCard(q * a, q);
      Ratio(|q * a|, |q|);
    }
  }

  /** Removing the same words from both sides: nothing is left of the question
      exactly when all its words were removed, and every remaining question word is
      shared exactly when the answer holds it. */
  lemma {:induction false} ContentWords(question: set<string>, answer: set<string>, removed: set<string>)
    ensures question - removed == {} <==> question <= removed
    ensures (question - removed) * (answer - removed) == question - removed <==> question - removed <= answer
  {
    var q := question - removed;
    if q == {} {
      forall x | x in question ensures x in removed {
        assert x !in q;
      }
    }
    if q <= answer {
      assert q * (answer - removed) == q;
    }
  }

  // ---------------------------------------------------------------------------
  // `_identify_question_aspects`

  /** One aspect test: when some trigger word occurs in the lower-cased question,
      the aspect's keywords are added. */
  datatype AspectRule = AspectRule(triggers: seq<string>, keywords: seq<string>)

  /** The temporal, procedural, locational, requirement and financial tests, in the
      order they are made. */
  const AspectRules: seq<AspectRule> := [
    AspectRule(["quando", "prazo", "tempo", "dura\U{e7}\U{e3}o"],
               ["prazo", "tempo", "dura\U{e7}\U{e3}o", "dias", "per\U{ed}odo"]),
    AspectRule(["como", "processo", "procedimento", "solicitar"],
               ["procedimento", "processo", "etapas", "passos"]),
    AspectRule(["onde", "local", "endere\U{e7}o"],
               ["local", "endere\U{e7}o", "localiza\U{e7}\U{e3}o"]),
    AspectRule(["requisitos", "necess\U{e1}rio", "preciso"],
               ["requisitos", "necess\U{e1}rio", "obrigat\U{f3}rio"]),
    AspectRule(["pre\U{e7}o", "custo", "valor", "pagamento"],
               ["pre\U{e7}o", "custo", "valor", "pagamento", "dinheiro"])
  ]

  /** The aspect used when no test fires. */
  const DefaultAspect: seq<string> := ["informa\U{e7}\U{e3}o", "dados", "detalhes"]

  /** Some word of `words` occurs in `text`. */
  predicate MentionsAny(text: string, words: seq<string>) {
    exists w :: w in words && Contains(text, w)
  }

  /** The keyword lists of the rules whose test fires on `text`, in rule order. */
  function Triggered(text: string, rules: seq<AspectRule>): (r: seq<seq<string>>)
    ensures |r| <= |rules|
  {
    if rules == [] then []
    else
      (if MentionsAny(text, rules[0].triggers) then [rules[0].keywords] else [])
      + Triggered(text, rules[1..])
  }

  /** `_identify_question_aspects(question)` */
  function IdentifyAspects(question: string): seq<seq<string>> {
    var found := Triggered(Lower(question), AspectRules);
    if found == [] then [DefaultAspect] else found
  }

  lemma {:induction false} TriggeredEmptyIff(text: string, rules: seq<AspectRule>)
    ensures Triggered(text, rules) == [] <==> forall k :: 0 <= k < |rules| ==> !MentionsAny(text, rules[k].triggers)
  {
    if rules != [] {
      TriggeredEmptyIff(text, rules[1..]);
      assert forall k :: 1 <= k < |rules| ==> rules[k] == rules[1..][k - 1];
    }
  }

  lemma {:induction false} TriggeredFromRules(text: string, rules: seq<AspectRule>)
    ensures forall a :: a in Triggered(text, rules) ==>
      exists k :: 0 <= k < |rules| && a == rules[k].keywords && MentionsAny(text, rules[k].triggers)
  {
    if rules != [] {
      TriggeredFromRules(text, rules[1..]);
      forall a | a in Triggered(text, rules)
        ensures exists k :: 0 <= k < |rules| && a == rules[k].keywords && MentionsAny(text, rules[k].triggers)
      {
        if a in Triggered(text, rules[1..]) {
          var k :| 0 <= k < |rules[1..]| && a == rules[1..][k].keywords && MentionsAny(text, rules[1..][k].triggers);
          assert rules[1..][k] == rules[k + 1];
        } else {
          assert a == rules[0].keywords && MentionsAny(text, rules[0].triggers);
        }
      }
    }
  }

  /** The aspect list is never empty; it is the default aspect alone exactly when
      none of the five tests fires on the lower-cased question, and otherwise each
      aspect is the keyword list of a test that fired. */
  lemma {:induction false} AspectsShape(question: string)
    ensures var aspects := IdentifyAspects(question); var ql := Lower(question);
      && 1 <= |aspects| <= |AspectRules|
      && (aspects == [DefaultAspect] <==> forall k :: 0 <= k < |AspectRules| ==> !MentionsAny(ql, AspectRules[k].triggers))
      && forall a :: a in aspects ==>
           a == DefaultAspect || exists k :: 0 <= k < |AspectRules| && a == AspectRules[k].keywords && MentionsAny(ql, AspectRules[k].triggers)
  {
    var ql := Lower(question);
    TriggeredEmptyIff(ql, AspectRules);
    TriggeredFromRules(ql, AspectRules);
    var found := Triggered(ql, AspectRules);
    if found != [] {
      assert found[0] in found;
      forall k | 0 <= k < |AspectRules| ensures AspectRules[k].keywords != DefaultAspect {
        assert AspectRules[k].keywords[0] != DefaultAspect[0];
      }
    }
  }

  /** A question asking "quando" gets the temporal aspect first. */
  lemma {:induction false} AspectsTemporalExample()
    ensures IdentifyAspects("quando")[0] == AspectRules[0].keywords
  {
    var ql := Lower("quando");
    assert ql == "quando";
    assert OccursAt(ql, "quando", 0);
    ContainsIff(ql, "quando");
    assert MentionsAny(ql, AspectRules[0].triggers);
  }

  // ---------------------------------------------------------------------------
  // `_evaluate_completeness`

  /** The result of `_evaluate_completeness`. */
  datatype CompletenessMetrics = CompletenessMetrics(aspectCoverage: real, lengthAdequacy: real, score: real)

  /** The number of aspects with a keyword in `text`. */
  function Addressed(text: string, aspects: seq<seq<string>>): (n: nat)
    ensures n <= |aspects|
  {
    if aspects == [] then 0
    else (if MentionsAny(text, aspects[0]) then 1 else 0) + Addressed(text, aspects[1..])
  }

  /** The total length of the documents' texts. */
  function ContextLength(docs: seq<Doc>): nat {
    if docs == [] then 0 else |DocText(docs[0])| + ContextLength(docs[1..])
  }

  /** `_evaluate_completeness(question, answer, docs)` */
  function EvaluateCompleteness(question: string, answer: string, docs: seq<Doc>): CompletenessMetrics {
    var aspects := IdentifyAspects(question);
    AspectsShape(question);
    var coverage := Addressed(Lower(answer), aspects) as real / |aspects| as real;
    var ratio := Least(|answer| as real / Greatest(ContextLength(docs) as real * 0.1, 100.0), 1.0);
    CompletenessMetrics(coverage, ratio, (coverage * 0.7 + ratio * 0.3) * 10.0)
  }

  lemma {:induction false} AddressedAllIff(text: string, aspects: seq<seq<string>>)
    ensures Addressed(text, aspects) == |aspects| <==> forall k :: 0 <= k < |aspects| ==> MentionsAny(text, aspects[k])
  {
    if aspects != [] {
      AddressedAllIff(text, aspects[1..]);
      assert forall k :: 1 <= k < |aspects| ==> aspects[k] == aspects[1..][k - 1];
    }
  }

  /** Coverage and length adequacy lie in `[0, 1]` and the score in `[0, 10]`; the
      coverage is 1 exactly when every aspect has one of its keywords in the
      lower-cased answer. */
  lemma {:induction false} CompletenessBounds(question: string, answer: string, docs: seq<Doc>)
    ensures var r := EvaluateCompleteness(question, answer, docs); var aspects := IdentifyAspects(question);
      && 0.0 <= r.aspectCoverage <= 1.0
      && 0.0 <= r.lengthAdequacy <= 1.0
      && 0.0 <= r.score <= 10.0
      && (r.aspectCoverage == 1.0 <==> forall k :: 0 <= k < |aspects| ==> MentionsAny(Lower(answer), aspects[k]))
  {
    var aspects := IdentifyAspects(question);
    AspectsShape(question);
    Ratio(Addressed(Lower(answer), aspects), |aspects|);
    AddressedAllIff(Lower(answer), aspects);
    var d := Greatest(ContextLength(docs) as real * 0.1, 100.0);
    DivAtLeast(|answer| as real, d, 0.0);
  }

  /** Every keyword of every aspect the evaluator builds is a non-empty word. */
  lemma {:induction false} AspectKeywordsNonEmpty(question: string)
    ensures forall a :: a in IdentifyAspects(question) ==> "" !in a
  {
    AspectsShape(question);
    assert "" !in DefaultAspect;
    forall k | 0 <= k < |AspectRules| ensures "" !in AspectRules[k].keywords {
      assert k == 0 || k == 1 || k == 2 || k == 3 || k == 4;
    }
  }

  /** An empty answer addresses nothing and scores 0. */
  lemma {:induction false} EmptyAnswerIncomplete(question: string, docs: seq<Doc>)
    ensures EvaluateCompleteness(question, "", docs).aspectCoverage == 0.0
    ensures EvaluateCompleteness(question, "", docs).score == 0.0
  {
    AspectKeywordsNonEmpty(question);
    NothingAddressedInEmpty(IdentifyAspects(question));
  }

  lemma {:induction false} NothingAddressedInEmpty(aspects: seq<seq<string>>)
    requires forall a :: a in aspects ==> "" !in a
    ensures Addressed(Lower(""), aspects) == 0
  {
    if aspects != [] {
      NothingAddressedInEmpty(aspects[1..]);
      assert Lower("") == "";
    }
  }

  // ---------------------------------------------------------------------------
  // `_evaluate_accuracy`

  /** The result of `_evaluate_accuracy`; `score` is `accuracy_score`, absent when
      the expected answer has no words. */
  datatype AccuracyMetrics = AccuracyMetrics(wordSimilarity: real, lengthSimilarity: real, score: Option<real>)

  function Max(a: nat, b: nat): nat { if a < b then b else a }

  function Distance(a: nat, b: nat): nat { if a < b then b - a else a - b }

  /** The accuracy metrics from the two word sets and the two lengths. */
  function Accuracy(g: set<string>, e: set<string>, generatedLength: nat, expectedLength: nat): AccuracyMetrics
    requires e != {} ==> expectedLength > 0
  {
    if |e| == 0 then AccuracyMetrics(0.0, 0.0, None)
    else
      var words := |g * e| as real / |g + e| as real;
      var length := 1.0 - Distance(generatedLength, expectedLength) as real / Max(generatedLength, expectedLength) as real;
      AccuracyMetrics(words, length, Some((words * 0.8 + length * 0.2) * 10.0))
  }

  /** `_evaluate_accuracy(generated, expected)` */
  function EvaluateAccuracy(generated: string, expected: string): AccuracyMetrics {
    WordsNeedText(expected);
    Accuracy(WordSet(generated), WordSet(expected), |generated|, |expected|)
  }

  lemma {:induction false} WordsNeedText(s: string)
    ensures WordSet(s) != {} ==> |s| > 0
  {
    if |s| == 0 {
      EmptyHasNoWords(s);
    }
  }

  /** No score exactly when the expected answer has no words; otherwise both
      similarities lie in `[0, 1]` and the score in `[0, 10]`. */
  lemma {:induction false} AccuracyBounds(generated: string, expected: string)
    ensures var r := EvaluateAccuracy(generated, expected);
      && (r.score.None? <==> WordSet(expected) == {})
      && (r.score.None? ==> r.wordSimilarity == 0.0 && r.lengthSimilarity == 0.0)
      && (r.score.Some? ==>
            && 0.0 <= r.wordSimilarity <= 1.0 && 0.0 <= r.lengthSimilarity <= 1.0
            && 0.0 <= r.score.value <= 10.0)
  {
    WordsNeedText(expected);
    AccuracyRatios(WordSet(generated), WordSet(expected), |generated|, |expected|);
  }

  lemma {:induction false} AccuracyRatios(g: set<string>, e: set<string>, lg: nat, le: nat)
    requires e != {} ==> le > 0
    ensures var r := Accuracy(g, e, lg, le);
      && (r.score.None? <==> e == {})
      && (r.score.None? ==> r.wordSimilarity == 0.0 && r.lengthSimilarity == 0.0)
      && (r.score.Some? ==>
            && 0.0 <= r.wordSimilarity <= 1.0 && 0.0 <= r.lengthSimilarity <= 1.0
            && 0.0 <= r.score.value <= 10.0)
  {
    if |e| > 0 {
      SubsetCard(g * e, g + e);
      SubsetCard(e, g + e);
      Ratio(|g * e|, |g + e|);
      Ratio(Distance(lg, le), Max(lg, le));
    }
  }

  /** The expected answer itself scores 10. */
  lemma {:induction false} AccuracyOfExpected(expected: string)
    requires WordSet(expected) != {}
    ensures EvaluateAccuracy(expected, expected).score == Some(10.0)
  {
    WordsNeedText(expected);
    AccuracyOfSelf(WordSet(expected), |expected|);
  }

  lemma {:induction false} AccuracyOfSelf(e: set<string>, l: nat)
    requires e != {} && l > 0
    ensures Accuracy(e, e, l, l).score == Some(10.0)
  {
    assert e * e == e && e + e == e;
    Ratio(|e|, |e|);
    assert Distance(l, l) == 0;
  }

  /** When both answers have words, swapping them leaves every metric unchanged. */
  lemma {:induction false} AccuracySymmetric(a: string, b: string)
    requires WordSet(a) != {} && WordSet(b) != {}
    ensures EvaluateAccuracy(a, b) == EvaluateAccuracy(b, a)
  {
    WordsNeedText(a);
    WordsNeedText(b);
    AccuracySwap(WordSet(a), WordSet(b), |a|, |b|);
  }

  lemma {:induction false} AccuracySwap(g: set<string>, e: set<string>, lg: nat, le: nat)
    requires g != {} && e != {} && lg > 0 && le > 0
    ensures Accuracy(g, e, lg, le) == Accuracy(e, g, le, lg)
  {
    assert g * e == e * g && g + e == e + g;
    assert Distance(lg, le) == Distance(le, lg) && Max(lg, le) == Max(le, lg);
  }

  // ---------------------------------------------------------------------------
  // `_evaluate_retrieval`

  /** The result of `_evaluate_retrieval`; `score` is `retrieval_score`, absent
      when no document was retrieved. */
  datatype RetrievalMetrics = RetrievalMetrics(numDocs: nat, avgRelevance: real, coverage: nat, diversity: real, score: Option<real>)

  /** How many of `words` occur in `text`; repeated words count again. */
  function CountIn(words: seq<string>, text: string): (n: nat)
    ensures n <= |words|
  {
    if words == [] then 0
    else (if Contains(text, words[0]) then 1 else 0) + CountIn(words[1..], text)
  }

  /** The relevance of one document: its `similarity_score` when it has one,
      otherwise the share of the question's words (with repetitions) that occur in
      its lower-cased text, which divides by zero for a question without words. */
  function DocRelevance(questionWords: seq<string>, d: Doc): Result<real> {
    match d.similarity
    case Some(s) => Ok(s)
    case None =>
      if |questionWords| == 0 then Err(ZeroDivision)
      else Ok(CountIn(questionWords, Lower(DocText(d))) as real / |questionWords| as real)
  }

  /** The loop filling `relevance_scores`; the first failure ends it. */
  function Relevances(questionWords: seq<string>, docs: seq<Doc>): (r: Result<seq<real>>)
    ensures r.Ok? ==> |r.value| == |docs|
    ensures r.Ok? ==> forall k :: 0 <= k < |docs| ==> DocRelevance(questionWords, docs[k]) == Ok(r.value[k])
  {
    if docs == [] then Ok([])
    else
      match DocRelevance(questionWords, docs[0])
      case Err(e) => Err(e)
      case Ok(x) =>
        match Relevances(questionWords, docs[1..])
        case Err(e) => Err(e)
        case Ok(xs) => Ok([x] + xs)
  }

  /** The distinct `source` values (documents without one add nothing). */
  function Sources(docs: seq<Doc>): (r: set<string>)
    ensures |r| <= |docs|
  {
    if docs == [] then {}
    else
      var rest := Sources(docs[1..]);
      var here: set<string> := if docs[0].source.Some? then {docs[0].source.value} else {};
      assert |here + rest| <= |here| + |rest| by {
        assert |here + rest| + |here * rest| == |here| + |rest|;
      }
      here + rest
  }

  /** The length of every document's text. */
  function TextSizes(docs: seq<Doc>): (sizes: seq<real>)
    ensures |sizes| == |docs|
    ensures forall k :: 0 <= k < |docs| ==> sizes[k] == |DocText(docs[k])| as real
  {
    seq(|docs|, k requires 0 <= k < |docs| => |DocText(docs[k])| as real)
  }

  /** `stdev(sizes) / mean(sizes)` for two or more documents with a positive mean
      size, else 0. */
  function Diversity(sizes: seq<real>, sqrt: real -> real): real {
    if |sizes| > 1 && Mean(sizes) > 0.0 then sqrt(SampleVariance(sizes)) / Mean(sizes) else 0.0
  }

  /** The `retrieval_score` formula. */
  function RetrievalScore(avg: real, coverage: nat, diversity: real): real {
    (avg * 0.4 + Least(coverage as real / 3.0, 1.0) * 0.3 + Least(diversity, 1.0) * 0.3) * 10.0
  }

  /** `_evaluate_retrieval(question, docs)`, with `sqrt` the square root behind
      `statistics.stdev`. */
  function EvaluateRetrieval(question: string, docs: seq<Doc>, sqrt: real -> real): Result<RetrievalMetrics> {
    if docs == [] then Ok(RetrievalMetrics(0, 0.0, 0, 0.0, None))
    else
      match Relevances(Words(Lower(question)), docs)
      case Err(e) => Err(e)
      case Ok(relevance) =>
        var avg := Mean(relevance);
        var coverage := |Sources(docs)|;
        var diversity := Diversity(TextSizes(docs), sqrt);
        Ok(RetrievalMetrics(|docs|, avg, coverage, diversity, Some(RetrievalScore(avg, coverage, diversity))))
  }

  lemma {:induction false} RelevancesFailIff(questionWords: seq<string>, docs: seq<Doc>)
    ensures Relevances(questionWords, docs).Err? <==>
      |questionWords| == 0 && exists k :: 0 <= k < |docs| && docs[k].similarity.None?
    ensures Relevances(questionWords, docs).Err? ==> Relevances(questionWords, docs).error == ZeroDivision
  {
    if docs != [] {
      RelevancesFailIff(questionWords, docs[1..]);
      if |questionWords| == 0 && docs[0].similarity.Some? {
        if exists k :: 0 <= k < |docs| && docs[k].similarity.None? {
          var k :| 0 <= k < |docs| && docs[k].similarity.None?;
          assert docs[1..][k - 1] == docs[k];
        }
      }
    }
  }

  /** Retrieval fails exactly when the question has no words and some document
      lacks a `similarity_score`; there is no score exactly when no document was
      retrieved. */
  lemma {:induction false} RetrievalFailsIff(question: string, docs: seq<Doc>, sqrt: real -> real)
    ensures var r := EvaluateRetrieval(question, docs, sqrt);
      && (r.Err? <==> Words(Lower(question)) == [] && exists k :: 0 <= k < |docs| && docs[k].similarity.None?)
      && (r.Err? ==> r.error == ZeroDivision)
      && (r.Ok? ==> (r.value.score.None? <==> docs == []) && r.value.numDocs == |docs| && r.value.coverage <= |docs|)
  {
    RelevancesFailIff(Words(Lower(question)), docs);
  }

  /** A relevance computed from word matches lies in `[0, 1]`. */
  lemma {:induction false} DocRelevanceBounds(questionWords: seq<string>, d: Doc)
    requires d.similarity.Some? ==> 0.0 <= d.similarity.value <= 1.0
    ensures DocRelevance(questionWords, d).Ok? ==> 0.0 <= DocRelevance(questionWords, d).value <= 1.0
  {
    if d.similarity.None? && |questionWords| > 0 {
      Ratio(CountIn(questionWords, Lower(DocText(d))), |questionWords|);
    }
  }

  /** The score formula maps relevance and diversity in range to `[0, 10]`. */
  lemma {:induction false} RetrievalScoreBounds(avg: real, coverage: nat, diversity: real)
    requires 0.0 <= avg <= 1.0 && diversity >= 0.0
    ensures 0.0 <= RetrievalScore(avg, coverage, diversity) <= 10.0
  {
    DivAtLeast(coverage as real, 3.0, 0.0);
  }

  lemma {:induction false} DiversityNonNegative(sizes: seq<real>, sqrt: real -> real)
    requires IsSqrt(sqrt)
    ensures Diversity(sizes, sqrt) >= 0.0
  {
    if |sizes| > 1 && Mean(sizes) > 0.0 {
      var v := SampleVariance(sizes);
      assert sqrt(v) >= 0.0;
      DivAtLeast(sqrt(v), Mean(sizes), 0.0);
    }
  }

  /** When every similarity score present lies in `[0, 1]`, the average relevance
      lies in `[0, 1]` and the retrieval score in `[0, 10]`. */
  lemma {:induction false} RetrievalBounds(question: string, docs: seq<Doc>, sqrt: real -> real)
    requires IsSqrt(sqrt)
    requires forall k :: 0 <= k < |docs| && docs[k].similarity.Some? ==> 0.0 <= docs[k].similarity.value <= 1.0
    ensures var r := EvaluateRetrieval(question, docs, sqrt);
      r.Ok? && r.value.score.Some? ==>
        && 0.0 <= r.value.avgRelevance <= 1.0
        && r.value.diversity >= 0.0
        && 0.0 <= r.value.score.value <= 10.0
  {
    var r := EvaluateRetrieval(question, docs, sqrt);
    if r.Ok? && docs != [] {
      var qw := Words(Lower(question));
      var rel := Relevances(qw, docs).value;
      forall x | x in rel ensures 0.0 <= x <= 1.0 {
        var k :| 0 <= k < |rel| && rel[k] == x;
        DocRelevanceBounds(qw, docs[k]);
      }
      MeanBetween(rel);
      DiversityNonNegative(TextSizes(docs), sqrt);
      RetrievalScoreBounds(Mean(rel), |Sources(docs)|, Diversity(TextSizes(docs), sqrt));
    }
  }
}
