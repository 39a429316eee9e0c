/** The bookkeeping of `RAGAgent`: the chunk store `_store_chunks` fills, keyword
    retrieval, the context string, the confidence formula, and the counters and
    running means that `query` keeps. The generated answer, any exception raised
    while answering, and the elapsed time are inputs. */
module Agent {
  import opened Wrappers
  import opened PyStr
  import opened Stats

  /** One record of `self.documents` as `_store_chunks` writes it (the timestamp
      left aside). */
  datatype StoredChunk = StoredChunk(text: string, embedding: seq<real>, source: string, chunkId: string)

  /** `f"{source_file}_{i}"` */
  function ChunkId(sourceFile: string, i: nat): string {
    sourceFile + "_" + NatToString(i)
  }

  /** Chunk ids of one file never collide. */
  lemma {:induction false} ChunkIdsDistinct(sourceFile: string, i: nat, j: nat)
    requires i != j
    ensures ChunkId(sourceFile, i) != ChunkId(sourceFile, j)
  {
    if ChunkId(sourceFile, i) == ChunkId(sourceFile, j) {
      var p := |sourceFile| + 1;
      assert NatToString(i) == ChunkId(sourceFile, i)[p..];
      assert NatToString(j) == ChunkId(sourceFile, j)[p..];
      NatToStringInjective(i, j);
    }
  }

  // ---------------------------------------------------------------------------
  // `_retrieve_documents`

  /** How many documents retrieval returns at most. */
  const TopK: nat := 3

  /** Some word of the question occurs in the lower-cased text of the document. */
  predicate Mentions(words: seq<string>, text: string) {
    exists k :: 0 <= k < |words| && Contains(Lower(text), words[k])
  }

  /** The documents that mention a question word, in store order. */
  function Relevant(words: seq<string>, docs: seq<StoredChunk>): seq<StoredChunk> {
    if docs == [] then []
    else
      var last := docs[|docs| - 1];
      Relevant(words, docs[..|docs| - 1]) + (if Mentions(words, last.text) then [last] else [])
  }

  /** The positions in `docs` of the relevant documents: increasing, and covering
      every document that mentions a question word. */
  function RelevantPositions(words: seq<string>, docs: seq<StoredChunk>): (idx: seq<nat>)
    ensures |idx| == |Relevant(words, docs)|
    ensures forall i :: 0 <= i < |idx| ==> idx[i] < |docs| && docs[idx[i]] == Relevant(words, docs)[i]
    ensures forall i, j :: 0 <= i < j < |idx| ==> idx[i] < idx[j]
    ensures forall k :: 0 <= k < |docs| && Mentions(words, docs[k].text) ==> k in idx
  {
    if docs == [] then []
    else
      var n := |docs| - 1;
      var front := docs[..n];
      var rest := RelevantPositions(words, front);
      assert forall i :: 0 <= i < |rest| ==> docs[rest[i]] == front[rest[i]];
      if Mentions(words, docs[n].text) then rest + [n] else rest
  }

  /** At most the first `TopK` relevant documents, in stored order. */
  function FirstRelevant(words: seq<string>, docs: seq<StoredChunk>): seq<StoredChunk> {
    var relevant := Relevant(words, docs);
    if |relevant| <= TopK then relevant else relevant[..TopK]
  }

  /** `a` is `b` with some elements dropped, order kept. */
  ghost predicate Embeds(idx: seq<nat>, a: seq<StoredChunk>, b: seq<StoredChunk>) {
    && |idx| == |a|
    && (forall i :: 0 <= i < |idx| ==> idx[i] < |b| && a[i] == b[idx[i]])
    && (forall i, j :: 0 <= i < j < |idx| ==> idx[i] < idx[j])
  }

  ghost predicate IsSubsequence(a: seq<StoredChunk>, b: seq<StoredChunk>) {
    exists idx :: Embeds(idx, a, b)
  }

  /** Retrieval returns at most three documents, each mentioning a question word,
      in the order of the store and without repeating a stored record; when at
      most three documents qualify it returns every one of them, and otherwise
      exactly three. */
  lemma {:induction false} RetrievalIsFirstMatches(words: seq<string>, docs: seq<StoredChunk>)
    ensures var r := FirstRelevant(words, docs);
      && |r| <= TopK
      && IsSubsequence(r, docs)
      && (forall k :: 0 <= k < |r| ==> Mentions(words, r[k].text))
      && (|Relevant(words, docs)| <= TopK ==>
            forall k :: 0 <= k < |docs| && Mentions(words, docs[k].text) ==> docs[k] in r)
      && (|Relevant(words, docs)| > TopK ==> |r| == TopK)
  {
    var relevant := Relevant(words, docs);
    var r := FirstRelevant(words, docs);
    var idx := RelevantPositions(words, docs);
    var m := |r|;
    assert Embeds(idx[..m], r, docs);
    forall k | 0 <= k < |r| ensures Mentions(words, r[k].text) {
      var p := idx[k];
      RelevantMention(words, docs, p);
    }
    if |relevant| <= TopK {
      forall k | 0 <= k < |docs| && Mentions(words, docs[k].text) ensures docs[k] in r {
        var i :| 0 <= i < |idx| && idx[i] == k;
        assert r[i] == docs[k];
      }
    }
  }

  /** A document picked by the filter mentions a question word. */
  lemma {:induction false} RelevantMention(words: seq<string>, docs: seq<StoredChunk>, p: nat)
    requires p in RelevantPositions(words, docs)
    ensures Mentions(words, docs[p].text)
    decreases |docs|
  {
    var n := |docs| - 1;
    var front := docs[..n];
    if p != n || !Mentions(words, docs[n].text) {
      assert p in RelevantPositions(words, front);
      RelevantMention(words, front, p);
      assert front[p] == docs[p];
    }
  }

  /** A question without words retrieves nothing. */
  lemma {:induction false} NoWordsNoDocuments(docs: seq<StoredChunk>)
    ensures FirstRelevant([], docs) == []
  {
    var idx := RelevantPositions([], docs);
    assert |idx| == 0 by {
      if |idx| > 0 {
        RelevantMention([], docs, idx[0]);
      }
    }
  }

  // ---------------------------------------------------------------------------
  // `_build_context`

  /** The numbered header, source and text of one document. The escaped newlines
      of the source are the two characters backslash and `n`, not line breaks. */
  function ContextPart(i: nat, d: StoredChunk): string {
    "Documento " + NatToString(i) + " (" + d.source + "):\\n" + d.text + "\\n"
  }

  function ContextParts(docs: seq<StoredChunk>): (parts: seq<string>)
    ensures |parts| == |docs|
  {
    seq(|docs|, i requires 0 <= i < |docs| => ContextPart(i + 1, docs[i]))
  }

  /** The parts joined by an escaped newline (backslash, `n`). */
  function BuildContext(docs: seq<StoredChunk>): string {
    Join(ContextParts(docs), "\\n")
  }

  lemma {:induction false} OccursWithin(s: string, mid: string, sub: string, i: nat, j: nat)
    requires OccursAt(s, mid, i) && OccursAt(mid, sub, j)
    ensures OccursAt(s, sub, i + j)
  {
    forall t | 0 <= t < |sub| ensures s[i + j + t] == sub[t] {
      assert s[i + j + t] == s[i..i + |mid|][j + t];
      assert sub[t] == mid[j..j + |sub|][t];
    }
    assert s[i + j..i + j + |sub|] == sub;
  }

  lemma {:induction false} JoinHoldsParts(parts: seq<string>, sep: string, k: nat)
    requires k < |parts|
    ensures exists p :: OccursAt(Join(parts, sep), parts[k], p)
  {
    if |parts| == 1 {
      assert OccursAt(Join(parts, sep), parts[0], 0);
    } else if k == 0 {
      assert OccursAt(Join(parts, sep), parts[0], 0);
    } else {
      JoinHoldsParts(parts[1..], sep, k - 1);
      var p :| OccursAt(Join(parts[1..], sep), parts[1..][k - 1], p);
      var offset := |parts[0] + sep|;
      assert OccursAt(Join(parts, sep), Join(parts[1..], sep), offset);
      OccursWithin(Join(parts, sep), Join(parts[1..], sep), parts[k], offset, p);
    }
  }

  /** The context numbers the documents from 1 and holds, for each, its header with
      its source and its text; with no documents it is empty. */
  lemma {:induction false} ContextHoldsEveryDocument(docs: seq<StoredChunk>)
    ensures docs == [] ==> BuildContext(docs) == ""
    ensures forall k :: 0 <= k < |docs| ==>
      && Contains(BuildContext(docs), "Documento " + NatToString(k + 1) + " (" + docs[k].source + "):\\n")
      && Contains(BuildContext(docs), docs[k].text)
  {
    var context := BuildContext(docs);
    var parts := ContextParts(docs);
    forall k | 0 <= k < |docs|
      ensures Contains(context, "Documento " + NatToString(k + 1) + " (" + docs[k].source + "):\\n")
      ensures Contains(context, docs[k].text)
    {
      var header := "Documento " + NatToString(k + 1) + " (" + docs[k].source + "):\\n";
      assert parts[k] == header + docs[k].text + "\\n";
      JoinHoldsParts(parts, "\\n", k);
      var p :| OccursAt(context, parts[k], p);
      assert OccursAt(parts[k], header, 0);
      assert OccursAt(parts[k], docs[k].text, |header|);
      OccursWithin(context, parts[k], header, p, 0);
      OccursWithin(context, parts[k], docs[k].text, p, |header|);
      ContainsIff(context, header);
      ContainsIff(context, docs[k].text);
    }
  }

  // ---------------------------------------------------------------------------
  // `_calculate_confidence`

  /** `x` capped at 1. */
  function AtMostOne(x: real): real {
    if x < 1.0 then x else 1.0
  }

  /** `_calculate_confidence(response, docs)` for `docCount` documents. */
  function Confidence(response: string, docCount: nat): real {
    if docCount == 0 then 0.1
    else (AtMostOne(docCount as real / 3.0) + AtMostOne(|response| as real / 200.0)) / 2.0
  }

  /** No documents give 0.1; otherwise the confidence lies in `[1/6, 1]`, and it is 1
      exactly when at least three documents were found and the answer has at least
      200 characters. */
  lemma {:induction false} ConfidenceBounds(response: string, docCount: nat)
    ensures docCount == 0 ==> Confidence(response, docCount) == 0.1
    ensures docCount > 0 ==> 1.0 / 6.0 <= Confidence(response, docCount) <= 1.0
    ensures Confidence(response, docCount) == 1.0 <==> docCount >= 3 && |response| >= 200
  {
  }

  // ---------------------------------------------------------------------------
  // `query` and the agent's metrics

  /** The dictionary `query` returns. */
  datatype QueryResult =
    | Answered(question: string, answer: string, sources: seq<string>, confidence: real,
               processingTime: real, strategy: string)
    | Failed(question: string, answer: string, sources: seq<string>, confidence: real,
             processingTime: real, error: string)

  /** The source of every retrieved document, in order. */
  function Sources(docs: seq<StoredChunk>): (r: seq<string>)
    ensures |r| == |docs| && forall k :: 0 <= k < |docs| ==> r[k] == docs[k].source
  {
    seq(|docs|, k requires 0 <= k < |docs| => docs[k].source)
  }

  function Times(history: seq<QueryResult>): (r: seq<real>)
    ensures |r| == |history|
  {
    seq(|history|, k requires 0 <= k < |history| => history[k].processingTime)
  }

  function Confidences(history: seq<QueryResult>): (r: seq<real>)
    ensures |r| == |history|
  {
    seq(|history|, k requires 0 <= k < |history| => history[k].confidence)
  }

  lemma {:induction false} SumAppend(xs: seq<real>, x: real)
    ensures SumReal(xs + [x]) == SumReal(xs) + x
  {
    if xs != [] {
      assert (xs + [x])[1..] == xs[1..] + [x];
      SumAppend(xs[1..], x);
    } else {
      assert xs + [x] == [x];
    }
  }

  /** `(avg * (n - 1) + x) / n` with `n - 1 == count`: the running mean `_update_metrics`
      keeps. */
  function RunningMean(avg: real, count: nat, x: real): real {
    (avg * (count as real) + x) / ((count + 1) as real)
  }

  /** The running mean turns the mean of `xs` into the mean of `xs` and `x`. */
  lemma {:induction false} RunningMeanStep(xs: seq<real>, avg: real, x: real)
    requires xs != [] ==> avg == Mean(xs)
    ensures RunningMean(avg, |xs|, x) == Mean(xs + [x])
  {
    SumAppend(xs, x);
    if xs != [] {
      var n := |xs| as real;
      assert avg * n == SumReal(xs);
    } else {
      assert SumReal([] + [x]) == x;
    }
  }

  /** What the agent's counters, history and means satisfy between queries: only
      answered queries are in the history, one per success; and as long as no
      query has failed, the running means are the means over the history. */
  ghost predicate Consistent(history: seq<QueryResult>, total: nat, successful: nat, avgTime: real, avgConfidence: real) {
    && successful <= total
    && |history| == successful
    && (forall k :: 0 <= k < |history| ==> history[k].Answered?)
    && (successful == total && total > 0 ==>
          avgTime == Mean(Times(history)) && avgConfidence == Mean(Confidences(history)))
  }

  /** An answered query keeps the counters consistent. */
  lemma {:induction false} AnsweredKeepsConsistent(history: seq<QueryResult>, total: nat, successful: nat,
                                                   avgTime: real, avgConfidence: real, r: QueryResult)
    requires Consistent(history, total, successful, avgTime, avgConfidence) && r.Answered?
    ensures Consistent(history + [r], total + 1, successful + 1,
                       RunningMean(avgTime, total, r.processingTime), RunningMean(avgConfidence, total, r.confidence))
  {
    var h := history + [r];
    assert Times(h) == Times(history) + [r.processingTime];
    assert Confidences(h) == Confidences(history) + [r.confidence];
    assert forall k :: 0 <= k < |h| ==> h[k] == if k < |history| then history[k] else r;
    if successful == total {
      RunningMeanStep(Times(history), avgTime, r.processingTime);
      RunningMeanStep(Confidences(history), avgConfidence, r.confidence);
    }
  }

  /** A failed query keeps the counters consistent, and from then on the history
      falls short of the query count. */
  lemma {:induction false} FailedKeepsConsistent(history: seq<QueryResult>, total: nat, successful: nat,
                                                 avgTime: real, avgConfidence: real)
    requires Consistent(history, total, successful, avgTime, avgConfidence)
    ensures Consistent(history, total + 1, successful, avgTime, avgConfidence)
    ensures |history| < total + 1
  {
  }

  /** The dictionary `get_metrics` returns. */
  datatype AgentMetrics = AgentMetrics(
    totalQueries: nat, avgResponseTime: real, avgConfidence: real, successfulQueries: nat, successRate: real)

  class RagAgent {
    var documents: seq<StoredChunk>
    var chatHistory: seq<QueryResult>
    var totalQueries: nat
    var successfulQueries: nat
    var avgResponseTime: real
    var avgConfidence: real

    ghost predicate Valid()
      reads this
    {
      Consistent(chatHistory, totalQueries, successfulQueries, avgResponseTime, avgConfidence)
    }

    constructor()
      ensures documents == [] && chatHistory == []
      ensures totalQueries == 0 && successfulQueries == 0
      ensures avgResponseTime == 0.0 && avgConfidence == 0.0
      ensures Valid()
    {
      documents := [];
      chatHistory := [];
      totalQueries := 0;
      successfulQueries := 0;
      avgResponseTime := 0.0;
      avgConfidence := 0.0;
    }

    /** `_store_chunks(chunks, embeddings, source_file)`: one record per pair of
        `zip(chunks, embeddings)`, appended after the stored ones. */
    method StoreChunks(chunks: seq<string>, embeddings: seq<seq<real>>, sourceFile: string)
      requires Valid()
      modifies this
      ensures Valid()
      ensures |documents| == |old(documents)| + (if |chunks| < |embeddings| then |chunks| else |embeddings|)
      ensures documents[..|old(documents)|] == old(documents)
      ensures forall i :: 0 <= i < |documents| - |old(documents)| ==>
        documents[|old(documents)| + i] == StoredChunk(chunks[i], embeddings[i], sourceFile, ChunkId(sourceFile, i))
      ensures chatHistory == old(chatHistory) && totalQueries == old(totalQueries)
      ensures successfulQueries == old(successfulQueries)
      ensures avgResponseTime == old(avgResponseTime) && avgConfidence == old(avgConfidence)
    {
      var n := if |chunks| < |embeddings| then |chunks| else |embeddings|;
      ghost var before := documents;
      for i := 0 to n
        invariant |documents| == |before| + i
        invariant documents[..|before|] == before
        invariant forall k :: 0 <= k < i ==>
          documents[|before| + k] == StoredChunk(chunks[k], embeddings[k], sourceFile, ChunkId(sourceFile, k))
        invariant chatHistory == old(chatHistory) && totalQueries == old(totalQueries)
        invariant successfulQueries == old(successfulQueries)
        invariant avgResponseTime == old(avgResponseTime) && avgConfidence == old(avgConfidence)
      {
        documents := documents + [StoredChunk(chunks[i], embeddings[i], sourceFile, ChunkId(sourceFile, i))];
      }
    }

    /** `_retrieve_documents(question, strategy)`; the strategy is not used. */
    method RetrieveDocuments(question: string, strategy: string) returns (r: seq<StoredChunk>)
      ensures r == FirstRelevant(Words(Lower(question)), documents)
    {
      var words := Words(Lower(question));
      var relevant: seq<StoredChunk> := [];
      for i := 0 to |documents|
        invariant relevant == Relevant(words, documents[..i])
      {
        PrefixOfNext(documents, i);
        if Mentions(words, documents[i].text) {
          relevant := relevant + [documents[i]];
        }
      }
      FullPrefix(documents);
      r := if |relevant| <= TopK then relevant else relevant[..TopK];
    }

    /** `_update_metrics(processing_time, confidence)`: both running means take one
        more value, with `total_queries` as the count. */
    method UpdateMetrics(processingTime: real, confidence: real)
      requires totalQueries > 0
      modifies this
      ensures documents == old(documents) && chatHistory == old(chatHistory)
      ensures totalQueries == old(totalQueries) && successfulQueries == old(successfulQueries)
      ensures avgResponseTime == RunningMean(old(avgResponseTime), totalQueries - 1, processingTime)
      ensures avgConfidence == RunningMean(old(avgConfidence), totalQueries - 1, confidence)
    {
      avgResponseTime := RunningMean(avgResponseTime, totalQueries - 1, processingTime);
      avgConfidence := RunningMean(avgConfidence, totalQueries - 1, confidence);
    }

    /** `query(question, strategy)`. `answer` is what the generator returns for the
        built context; `failure` is the message of an exception raised while
        retrieving or generating; `elapsed` is the measured processing time. Every
        query is counted; only an answered one updates the means, enters the history
        and counts as a success. */
    method Query(question: string, strategy: string, answer: string, failure: Option<string>, elapsed: real)
      returns (result: QueryResult)
      requires Valid()
      modifies this
      ensures Valid()
      ensures totalQueries == old(totalQueries) + 1 && documents == old(documents)
      ensures failure.Some? ==>
        && result == Failed(question, "Erro ao processar pergunta: " + failure.value, [], 0.0, elapsed, failure.value)
        && chatHistory == old(chatHistory) && successfulQueries == old(successfulQueries)
        && avgResponseTime == old(avgResponseTime) && avgConfidence == old(avgConfidence)
      ensures failure.None? ==>
        var retrieved := FirstRelevant(Words(Lower(question)), documents);
        && result == Answered(question, answer, Sources(retrieved), Confidence(answer, |retrieved|), elapsed, strategy)
        && chatHistory == old(chatHistory) + [result]
        && successfulQueries == old(successfulQueries) + 1
        && avgResponseTime == RunningMean(old(avgResponseTime), old(totalQueries), elapsed)
        && avgConfidence == RunningMean(old(avgConfidence), old(totalQueries), result.confidence)
    {
      totalQueries := totalQueries + 1;
      if failure.Some? {
        FailedKeepsConsistent(chatHistory, totalQueries - 1, successfulQueries, avgResponseTime, avgConfidence);
        return Failed(question, "Erro ao processar pergunta: " + failure.value, [], 0.0, elapsed, failure.value);
      }
      var relevantDocs := RetrieveDocuments(question, strategy);
      var confidence := Confidence(answer, |relevantDocs|);
      result := Answered(question, answer, Sources(relevantDocs), confidence, elapsed, strategy);
      AnsweredKeepsConsistent(chatHistory, totalQueries - 1, successfulQueries, avgResponseTime, avgConfidence, result);
      UpdateMetrics(elapsed, confidence);
      chatHistory := chatHistory + [result];
      successfulQueries := successfulQueries + 1;
    }

    /** `get_metrics()`: the counters and means, and the success rate. */
    function GetMetrics(): (m: AgentMetrics)
      reads this
      ensures m.totalQueries == totalQueries && m.successfulQueries == successfulQueries
      ensures m.avgResponseTime == avgResponseTime && m.avgConfidence == avgConfidence
      ensures totalQueries == 0 ==> m.successRate == 0.0
      ensures totalQueries > 0 ==> m.successRate * (totalQueries as real) == successfulQueries as real
      ensures Valid() ==> 0.0 <= m.successRate <= 1.0
      ensures Valid() ==> (m.successRate == 1.0 <==> totalQueries > 0 && successfulQueries == totalQueries)
    {
      var rate := if totalQueries > 0 then (successfulQueries as real) / (totalQueries as real) else 0.0;
      AgentMetrics(totalQueries, avgResponseTime, avgConfidence, successfulQueries, rate)
    }
  }
}
