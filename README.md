# RAG chunking, evaluation and agent core in Dafny

This project models three parts of a retrieval-augmented generation (RAG)
pipeline.

1. **The chunking engine** (`chunking_engine.py`):
   - the strategy table and its fallback;
   - the four splitters: recursive, token, semantic and page;
   - the overlap step;
   - the per-chunk metrics, including the approximate overlap measurement;
   - the strategy evaluation.
2. **The evaluation system** (`evaluation_system.py`):
   - the response-quality heuristic;
   - the retrieval, relevance, completeness and accuracy scores;
   - the weighted overall score;
   - the evaluation history;
   - the strategy comparison;
   - the performance report.
3. **The RAG agent's bookkeeping** (`rag_agent.py`):
   - storing chunks;
   - keyword retrieval;
   - building the context;
   - the confidence value;
   - the running means;
   - the metrics.

Python's string operations are modelled on `seq<char>` in module `PyStr`. That
covers `split`, `strip`, `rstrip(chars)`, whitespace `split()`, `lower()`,
slices with negative indices and `str(n)`. The `statistics` functions are in
`Stats`.

Each source function that only computes a value is a Dafny function. Lemmas
state what the source promises about it. The loops of the source are methods
with loop invariants, proved equal to those functions. The engine, the
evaluator and the agent are classes:
- The engine's fields are set once in the constructor (`const`).
- The evaluator appends to its history.
- The agent updates its document list, chat history and counters in place.

A Python exception becomes an `Err` value of a `Result`, for example
`ZeroDivision`, `EmptySeparator` (for `str.split('')`) or `ZeroRangeStep` (for
`range` with step 0).

A loop that the source never leaves is reported as `Err(Diverges)`. A lemma
shows that the source's loop variables never meet its exit conditions.

Where the code does something other than its own comments, names or a
first reading suggest, the model follows the code:
- **Token chunking.** `_token_chunking` (`chunking_engine.py:203-217`) never
  leaves its loop for a positive overlap and at least one token. The last
  window ends at `len(tokens)`, so the next start is `len(tokens) - overlap`.
  That start stays below `len(tokens)`, and `start_idx >= end_idx` never holds.
  `Windows.TokenLoopNeverExits` proves this. `Windows.TokenStartsExample` shows
  10 tokens with size 4 and overlap 1: the starts are 0, 3, 6, 9, 9, 9, so the
  loop stays at start 9.
- **Paragraph packing.** The buffer of `_recursive_chunking` carries the
  two-character paragraph break (`chunking_engine.py:124`). So `"A\n\nB\n\nC"`
  with chunk size 3 gives three chunks
  (`RecursiveSplit.ParagraphSeparateExample`). Two chunks need size 4
  (`RecursiveSplit.ParagraphPackingExample`).
- **Character fallback.** The comment at `chunking_engine.py:185` promises a
  split into characters when no separator works. That line is never reached
  from `_recursive_chunking`, because `''` is in the separator list and
  `'' in text` always holds (`RecursiveSplit.EmptySeparatorAlwaysFound`). An
  oversized part without `"\n\n"`, `"\n"`, `". "` or `" "` reaches
  `text.split('')` instead, which raises `ValueError`
  (`RecursiveSplit.UnsplittableRaises`).
- **Full stops.** `current_chunk.rstrip(separator)` (`chunking_engine.py:168`,
  `:181`) strips the characters `'.'` and `' '`, not the suffix `". "`. It also
  removes the text's own full stops: `"ab.. cd"` with chunk size 4 gives
  `["ab", "cd"]` (`RecursiveSplit.DotsLostExample`). Recursive chunking
  therefore keeps every character except whitespace and full stops
  (`RecursiveSplit.RecursiveChunksKeepContent`).
- **Standard deviation.** The spread of retrieval diversity and of the
  strategy comparison is `statistics.stdev`, the sample deviation with `n - 1`.
- **No retrieved documents.** `_evaluate_retrieval` returns a dictionary
  without `retrieval_score` for an empty document list
  (`evaluation_system.py:191-197`), so retrieval drops out of the overall score
  instead of counting as 0.
- **No content words.** When the question has no content words, the relevance
  result has no `relevance_score` and also drops out.
- **Question without words.** `_fallback_quality_evaluation` divides by
  `len(question_words)` (`evaluation_system.py:171`), and so raises
  `ZeroDivisionError` for a question without words
  (`Scoring.FallbackQualityBounds`). The retrieval word ratio
  (`evaluation_system.py:203-212`) raises in the same case when a document
  lacks `similarity_score` (`Scoring.RetrievalFailsIff`). Either raise aborts
  `evaluate_rag_response` (`Evaluation.EvaluationFailsIff`).
- **Empty text.** `evaluate_chunking_strategy` divides by `len(text)`
  (`chunking_engine.py:401`) and raises for an empty text that produced chunks
  (`Engine.EmptyTextRaises`).

## Model

| member | source | states |
|---|---|---|
| PyStr.IndexOf | chunking_engine.py:157 | The result is -1 or a position where the substring occurs, and no earlier position holds it (the `in` test). |
| PyStr.ContainsIff | chunking_engine.py:157 | `sub in s` holds exactly when `sub` occurs at some position of `s`. |
| PyStr.EmptyAlwaysContained | chunking_engine.py:156-157 | The empty string is contained in every string. |
| PyStr.SplitJoin | chunking_engine.py:119 | Joining the parts of `split(sep)` with `sep` gives back the text. |
| PyStr.SplitPartsFree | chunking_engine.py:158 | No part of `split(sep)` contains `sep`. |
| PyStr.LStrip | chunking_engine.py:314 | The result is a suffix that does not start with whitespace, and only whitespace was removed. |
| PyStr.RStrip | chunking_engine.py:314 | The result is a prefix that does not end with whitespace, and only whitespace was removed. |
| PyStr.BlankIff | chunking_engine.py:127 | A text is blank (`not s.strip()`) exactly when every character is whitespace. |
| PyStr.StripKeepsNonSpace | chunking_engine.py:128 | Stripping keeps every non-whitespace character, in order. |
| PyStr.StripIdempotent | chunking_engine.py:314 | Stripping twice is stripping once. |
| PyStr.RStripChars | chunking_engine.py:168 | `rstrip(chars)` gives a prefix whose last character is not in `chars`. |
| PyStr.RStripCharsAbsorbs | chunking_engine.py:168 | Characters of the set appended to a text are all removed again by `rstrip`. |
| PyStr.RStripCharsIsNotSuffixRemoval | chunking_engine.py:168 | `rstrip(". ")` on `"Dr.. "` gives `"Dr"`: it strips a character set, not a suffix. |
| PyStr.Words | evaluation_system.py:169 | Every word of `split()` is non-empty and free of whitespace. |
| PyStr.WordsEmptyIffBlank | evaluation_system.py:169 | `split()` gives no words exactly when the text is all whitespace. |
| PyStr.LowerIdempotent | evaluation_system.py:169-170 | Lower-casing a lower-cased string changes nothing. |
| PyStr.LowerHasNoUpper | evaluation_system.py:169-170 | No upper-case letter is left after `lower()`. |
| PyStr.Slice | chunking_engine.py:283 | A Python slice equals the Dafny subsequence for in-range bounds and never exceeds the sequence. |
| PyStr.ParseNatToString | chunking_engine.py:358 | `str(n)` reads back as `n`. |
| PyStr.NatToStringInjective | chunking_engine.py:358 | Different numbers print differently. |
| Stats.MinOf | chunking_engine.py:396 | `min(sizes)` is a member of the list and no larger than any member. |
| Stats.MaxOf | chunking_engine.py:397 | `max(sizes)` is a member of the list and no smaller than any member. |
| Stats.Variance | chunking_engine.py:406-413 | The population variance (0 for at most one value) is not negative. |
| Stats.SampleVariance | evaluation_system.py:397 | The sample variance of two or more values is not negative. |
| Stats.VarianceOfConstant | chunking_engine.py:406-413 | Equal values have variance 0, in both the population and the sample form. |
| Stats.SortSpec | evaluation_system.py:396 | The sorted list is ascending and a permutation of the input. |
| Stats.MeanBetween | evaluation_system.py:395 | The mean lies between the minimum and the maximum. |
| Stats.NatMeanBetween | chunking_engine.py:395-397 | The average chunk size lies between the minimum and maximum size. |
| Stats.MedianBetween | evaluation_system.py:396 | The median lies between the minimum and the maximum. |
| Stats.StdevNonNegative | evaluation_system.py:397 | The deviation (0 for a single value) is not negative. |
| Stats.SuccessRateBounds | evaluation_system.py:400 | The success rate lies in [0, 1]. |
| Stats.SuccessRateOne | evaluation_system.py:400 | The success rate is 1 exactly when every score is at least 7. |
| Windows.RangeWindows | chunking_engine.py:272 | A zero chunk size raises (`range` step 0) and a negative one gives no chunks. |
| Windows.FixedWindowsExact | chunking_engine.py:186 | Fixed windows concatenate back to the text, each has 1 to `size` characters, and all but the last have exactly `size`. |
| Windows.SteppedFromAt | chunking_engine.py:281-285 | Window `j` of the sliding loop is the slice starting at `j * step` of length `size`. |
| Windows.SteppedFromCount | chunking_engine.py:281-288 | The sliding loop produces windows exactly for the starts below the text length. |
| Windows.CharacterChunking | chunking_engine.py:276-290 | Empty text gives no chunk. A non-positive overlap gives one window. An overlap in (0, size) gives the sliding windows with step `size - overlap`. An overlap of at least `size` never ends. |
| Windows.TokenLoopNeverExits | chunking_engine.py:203-217 | With a positive overlap and tokens present, `start_idx` stays below the token count and below the next `end_idx` forever. |
| Windows.TokenStartsExample | chunking_engine.py:203-217 | For 10 tokens, size 4 and overlap 1 the starts are 0, 3, 6, 9, 9, 9. |
| Windows.TokenWindows | chunking_engine.py:197-219 | No tokens give no chunk. A non-positive overlap gives the first window decoded. A positive overlap never ends. |
| Windows.TokenChunking | chunking_engine.py:188-219 | Without a tokenizer the text is split into character windows with 4× the size and overlap. With one, the tokens of the text are windowed. |
| Overlap.Tail | chunking_engine.py:304 | The borrowed text is the last `min(len, overlap)` characters of the previous chunk. |
| Overlap.ApplyOverlap | chunking_engine.py:292-310 | The loop computes `Overlapped`, which keeps the chunk count. |
| Overlap.OverlappedAt | chunking_engine.py:294-308 | With an overlap and at least two chunks, chunk `k` becomes the tail of chunk `k-1`, a space, and chunk `k`. Chunk 0 is untouched. |
| Overlap.OverlapRoundTrip | chunking_engine.py:292-310 | Removing the borrowed prefixes recovers the original chunks. |
| Overlap.OverlapBorrowsFromPrevious | chunking_engine.py:304-307 | Chunk `k` after overlap is exactly the borrowed tail of the original previous chunk, one space and the original chunk. |
| RecursiveSplit.FirstSeparator | chunking_engine.py:156-157 | The chosen separator occurs in the text, and no earlier separator in the list does. |
| RecursiveSplit.NonBlank | chunking_engine.py:183 | Exactly the non-blank chunks are kept. |
| RecursiveSplit.EmptySeparatorAlwaysFound | chunking_engine.py:156-157 | When `''` is in the list, some separator is always chosen. |
| RecursiveSplit.UnsplittableRaises | chunking_engine.py:156-158 | An oversized text with no newline, sentence stop or space reaches `''` and `split('')` raises. |
| RecursiveSplit.FoldErrSticks | chunking_engine.py:163-179 | Once a part raises, the rest of the parts loop keeps the error. |
| RecursiveSplit.SplitTextRecursively | chunking_engine.py:150-186 | The method (loops plus recursion on the remaining separators) computes `SplitSpec`. |
| RecursiveSplit.SplitFits | chunking_engine.py:150-186 | Every chunk of a successful split of an oversized text fits the chunk size. |
| RecursiveSplit.SplitChunksShape | chunking_engine.py:150-186 | With the source's separator list, every chunk is non-blank and at most `chunk_size` long. |
| RecursiveSplit.ParagraphFoldErrSticks | chunking_engine.py:121-139 | An error in the paragraph loop sticks. |
| RecursiveSplit.ParagraphFoldShape | chunking_engine.py:121-139 | The paragraph loop keeps its buffer and emitted chunks within size and non-blank. |
| RecursiveSplit.ParagraphChunksShape | chunking_engine.py:115-142 | Every chunk before overlap is non-blank and at most `chunk_size` long. |
| RecursiveSplit.SplitKeeps | chunking_engine.py:150-183 | For a set of characters holding every non-whitespace separator character found in the text, `_split_text_recursively` keeps, in order, every character of the text outside whitespace and that set. |
| RecursiveSplit.ParagraphChunksKeep | chunking_engine.py:115-142 | For a set of characters holding every non-whitespace separator character found in the text, the chunks before overlap keep, in order, every character of the text outside whitespace and that set. |
| RecursiveSplit.RecursiveChunksKeepContent | chunking_engine.py:107-148 | With `chunk_overlap <= 0`, the chunks joined hold the text's characters other than whitespace and `.`, in order. |
| RecursiveSplit.RecursiveChunksKeepNonSpace | chunking_engine.py:107-148 | With `chunk_overlap <= 0` and no `.` in the text, the chunks joined hold exactly the text's non-whitespace characters, in order. |
| RecursiveSplit.DotsLostExample | chunking_engine.py:168 | `"ab.. cd"` with chunk size 4 gives `["ab", "cd"]`: `rstrip(". ")` also strips the text's own full stop. |
| RecursiveSplit.RecursiveChunking | chunking_engine.py:107-148 | The method computes `RecursiveChunks`: paragraphs packed, oversized ones split, overlap applied when positive. |
| RecursiveSplit.ParagraphPackingExample | chunking_engine.py:119-142 | Three one-character paragraphs with size 4 give two chunks, the first two paragraphs joined by their break. |
| RecursiveSplit.ParagraphSeparateExample | chunking_engine.py:119-142 | The same paragraphs with size 3 give three chunks. |
| Semantic.HeaderIgnoresSurroundingSpace | chunking_engine.py:312-314 | A line is a header exactly when its stripped form is. |
| Semantic.MarkdownHeaderExamples | chunking_engine.py:318 | `## Intro` is a header, and seven hashes do not match the markdown pattern. |
| Semantic.NumberedSectionExamples | chunking_engine.py:319 | `12. Resumo` matches the numbered pattern, and `12. resumo` does not. |
| Semantic.CapsLabelExample | chunking_engine.py:320 | `FIM:` is a header. |
| Semantic.ChapterMarkerExample | chunking_engine.py:322 | `CAPÍTULO 3` matches the chapter marker. |
| Semantic.SemanticChunking | chunking_engine.py:221-248 | The line loop computes `SemanticChunks`. |
| Semantic.SemanticBufferAfterLine | chunking_engine.py:230-243 | After a header line the buffer is that line. After any other line it is empty or within `max_chunk_size`. |
| Semantic.SemanticStepKeeps | chunking_engine.py:230-243 | One line step keeps every non-whitespace character seen so far. |
| Semantic.SemanticKeepsContent | chunking_engine.py:221-248 | The chunks hold exactly the text's non-whitespace characters, in order. |
| Semantic.SizeFlushMayEmitEmpty | chunking_engine.py:241-242 | The size flush can emit an empty chunk: `"\n\n"` with limit 1 gives `[""]`. |
| Pages.DigitRun | chunking_engine.py:254-256 | `\d+` matches a maximal run of ASCII digits. |
| Pages.MatchAt | chunking_engine.py:253-258 | A marker match starts with the marker's literal prefix and stays inside the text. |
| Pages.FirstMatch | chunking_engine.py:264 | `re.search` finds the leftmost match, and there is none before it. |
| Pages.FirstMarker | chunking_engine.py:263-267 | The chosen pattern matches somewhere, and no earlier pattern does. |
| Pages.RegexSplitSlices | chunking_engine.py:265 | Every piece of `re.split` occurs in the text. |
| Pages.StrippedPagesShape | chunking_engine.py:266 | Every kept page is non-blank, already stripped and occurs in the text. |
| Pages.PageChunksShape | chunking_engine.py:250-274 | Either a marker was found and the pages are non-blank, stripped pieces of the text, or the fixed windows rebuild the text exactly. |
| Pages.ZeroSizeFallbackRaises | chunking_engine.py:270-272 | With no marker and chunk size 0, the fallback raises. |
| Pages.FormFeedExample | chunking_engine.py:257-267 | `a\fb` gives the pages `a` and `b`. |
| ChunkMetrics.OverlapSearch | chunking_engine.py:375-377 | The descending search returns a working length, and no larger length in range works. |
| ChunkMetrics.CalculateOverlapIsLargest | chunking_engine.py:370-379 | The measured overlap is the largest working length up to `min(len)//2`, and 0 exactly when none works. |
| ChunkMetrics.Metrics | chunking_engine.py:335-368 | One record per chunk, record `i` computed from chunk `i`. |
| ChunkMetrics.CalculateMetrics | chunking_engine.py:337-368 | The loop computes `Metrics`. |
| ChunkMetrics.MetricsDescribeChunks | chunking_engine.py:356-364 | Each record carries its chunk's text, position, size, strategy and id, and the first has overlap 0. |
| ChunkMetrics.ChunkIdInjective | chunking_engine.py:358 | Different positions give different `strategy_i` ids. |
| ChunkMetrics.ChunkIdsDistinct | chunking_engine.py:358 | The chunk ids of one call are pairwise distinct. |
| ChunkMetrics.OverlappedEndsWithOriginal | chunking_engine.py:307 | An overlapped chunk ends with the original chunk. |
| ChunkMetrics.BorrowedTailWorks | chunking_engine.py:304-307 | The borrowed tail passes the overlap measurement's test when it fits its window. |
| ChunkMetrics.MeasuredOverlapCoversBorrowed | chunking_engine.py:370-379 | When the borrowed length is within the search range, the measured overlap is at least the borrowed length. |
| Engine.Resolve | chunking_engine.py:80-88 | A known name resolves to its entry. An unknown one falls back to `recursive_500_100`. A missing entry or `type` key raises. |
| Engine.DefaultTableResolves | chunking_engine.py:37-59 | With the default table every name resolves to one of the four kinds, and an unknown name to recursive 500/100. |
| Engine.ChunkingEngine.constructor | chunking_engine.py:30-32 | A missing or empty table is replaced by the default one. |
| Engine.ChunkingEngine.CreateChunks | chunking_engine.py:69-105 | The result is the resolution error, the splitter's error, `ValueError` for an unknown type, or the splitter's chunks with their metrics under the resolved name. |
| Engine.ChunkingEngine.EvaluateChunkingStrategy | chunking_engine.py:381-404 | The result is the statistics of the chunks `create_chunks` produces, or its error. |
| Engine.EvaluationBounds | chunking_engine.py:389-400 | The count is the number of chunks, the average size lies between min and max, and the variance is not negative. |
| Engine.SizesAddUp | chunking_engine.py:389-401 | The sizes add up to the length of the concatenated chunks. |
| Engine.ExactSplitCoversText | chunking_engine.py:401 | Chunks that concatenate to the text give coverage exactly 1. |
| Engine.EmptyTextRaises | chunking_engine.py:401 | Chunks of an empty text make the coverage division raise. |
| Scoring.ClarityIffPeriod | evaluation_system.py:177 | Clarity is 0.8 exactly when the answer contains a period, 0.5 otherwise. |
| Scoring.FallbackQualityBounds | evaluation_system.py:164-187 | The heuristic raises exactly for a question without words. Otherwise relevance and completeness lie in [0, 10] and the mean is the average of the five scores, between 3.8 and 8.4. |
| Scoring.FallbackQualityTop | evaluation_system.py:164-187 | A long answer with a period that repeats every question word gets the top mean 8.4. |
| Scoring.RelevanceBounds | evaluation_system.py:235-258 | No score exactly when the question has only stop words. Otherwise the overlap lies in [0, 1], is 1 exactly when the answer holds every content word, and the score is `6·overlap + 2.8`. |
| Scoring.Triggered | evaluation_system.py:291-309 | At most one aspect per rule. |
| Scoring.TriggeredEmptyIff | evaluation_system.py:291-309 | No aspect fires exactly when no rule's trigger occurs. |
| Scoring.TriggeredFromRules | evaluation_system.py:291-309 | Every aspect is the keyword list of a rule whose trigger occurs. |
| Scoring.AspectsShape | evaluation_system.py:285-311 | Between one and five aspects. The default aspect appears exactly when nothing triggers. |
| Scoring.AspectsTemporalExample | evaluation_system.py:292-293 | `quando` triggers the temporal aspect first. |
| Scoring.Addressed | evaluation_system.py:266-269 | The addressed count never exceeds the aspect count. |
| Scoring.AddressedAllIff | evaluation_system.py:266-269 | All aspects are addressed exactly when each has a keyword in the answer. |
| Scoring.CompletenessBounds | evaluation_system.py:260-283 | Coverage and length adequacy lie in [0, 1] and the score in [0, 10]. Coverage is 1 exactly when every aspect is addressed. |
| Scoring.AspectKeywordsNonEmpty | evaluation_system.py:292-311 | No aspect keyword is the empty string. |
| Scoring.EmptyAnswerIncomplete | evaluation_system.py:260-283 | An empty answer has coverage 0 and score 0. |
| Scoring.AccuracyBounds | evaluation_system.py:313-331 | No score exactly when the expected answer has no words. Otherwise both similarities lie in [0, 1] and the score in [0, 10]. |
| Scoring.AccuracyOfExpected | evaluation_system.py:313-331 | The expected answer compared with itself scores 10. |
| Scoring.AccuracySymmetric | evaluation_system.py:322-325 | Swapping the generated and expected answers (both with words) gives the same result. |
| Scoring.Relevances | evaluation_system.py:203-212 | One relevance per document, each the document's similarity score or its word ratio. |
| Scoring.RelevancesFailIff | evaluation_system.py:203-212 | The relevances raise exactly when the question has no words and some document lacks a similarity score. |
| Scoring.Sources | evaluation_system.py:217-221 | The number of distinct sources never exceeds the number of documents. |
| Scoring.RetrievalFailsIff | evaluation_system.py:189-233 | Retrieval raises exactly in the relevances' case. Otherwise there is a score exactly when there are documents, and coverage is at most the document count. |
| Scoring.DocRelevanceBounds | evaluation_system.py:205-212 | Each document's relevance lies in [0, 1] when its similarity score does. |
| Scoring.RetrievalScoreBounds | evaluation_system.py:232 | The retrieval formula maps in-range inputs into [0, 10]. |
| Scoring.DiversityNonNegative | evaluation_system.py:225 | Diversity is not negative. |
| Scoring.RetrievalBounds | evaluation_system.py:189-233 | With similarity scores in [0, 1], average relevance lies in [0, 1] and the retrieval score in [0, 10]. |
| Overall.WeightedScores | evaluation_system.py:335-361 | Every weight collected is positive. |
| Overall.NormalizedIsQuotient | evaluation_system.py:366-371 | The sum with normalized weights is the weighted sum divided by the total weight. |
| Overall.WeightedMeanBetween | evaluation_system.py:363-373 | No scores give 5.0. Otherwise the weighted mean lies between the smallest and largest score. |
| Overall.EqualWeightsMean | evaluation_system.py:366-371 | With equal weights the weighted mean is the plain mean. |
| Overall.OverallScoreIsConvex | evaluation_system.py:333-373 | No score is collected exactly when every category is absent or scoreless, which gives 5.0. Otherwise the overall score is the weighted quotient, between the smallest and largest score. |
| Overall.OverallOfThree | evaluation_system.py:343-371 | With retrieval, relevance and completeness only, the overall score is their plain mean. |
| Overall.OverallScoreInRange | evaluation_system.py:333-373 | Scores in [0, 10] give an overall score in [0, 10]. |
| Comparison.SummaryBounds | evaluation_system.py:391-401 | Count, min ≤ mean ≤ max, min ≤ median ≤ max, the deviation is not negative, and the success rate lies in [0, 1] and is 1 exactly when every score is at least 7. |
| Comparison.GroupByStrategy | evaluation_system.py:381-386 | The groups are keyed by exactly the strategies seen, in first-seen order, each holding that strategy's scores. |
| Comparison.NamesAreStrategies | evaluation_system.py:381-386 | The group names are exactly the strategies of the runs. |
| Comparison.NamesDistinct | evaluation_system.py:381-386 | The group names are distinct. |
| Comparison.ScoresOfCounts | evaluation_system.py:386-391 | Each group holds one score per run of its strategy. |
| Comparison.GroupsPartitionRuns | evaluation_system.py:381-386 | The group sizes add up to the number of runs. |
| Comparison.RankByAvgSpec | evaluation_system.py:404-408 | The ranking is in descending mean order and a permutation of the items. |
| Comparison.Table | evaluation_system.py:389-401 | One summary per strategy, computed from that strategy's scores. |
| Comparison.CompareStrategies | evaluation_system.py:375-414 | The method computes `Compare`. |
| Comparison.CompareEmptyIff | evaluation_system.py:377-378 | The result is empty exactly when there are no runs. |
| Comparison.CompareEntries | evaluation_system.py:380-401 | The table has an entry for exactly the strategies seen, each the summary of its scores with a count of its runs. |
| Comparison.CompareRanking | evaluation_system.py:403-412 | The ranking lists every table entry once, in descending mean order. |
| Comparison.CompareBest | evaluation_system.py:413 | The best strategy heads the ranking and has the highest mean. |
| Evaluation.Evaluator.constructor | evaluation_system.py:31-33 | The history starts empty. Whether a judge is configured is fixed. |
| Evaluation.Evaluator.EvaluateRagResponse | evaluation_system.py:51-107 | The result is `Evaluate` of the inputs. A success is appended to the history, and an error leaves it unchanged. |
| Evaluation.EvaluationFailsIff | evaluation_system.py:77-99 | An evaluation raises exactly when the question has no words and either the judge failed or a document lacks a similarity score. |
| Evaluation.EvaluationKeys | evaluation_system.py:77-101 | A record has the question and answer. Response quality is present exactly with a judge, and accuracy exactly with a non-empty expected answer. |
| Evaluation.QualityInRange | evaluation_system.py:109-162 | Judge scores in [0, 10] give a quality mean in [0, 10]. |
| Evaluation.EvaluationInRange | evaluation_system.py:51-107 | With judge scores and similarity scores in range, the overall score lies in [0, 10]. |
| Evaluation.UnjudgedOverallIsPlainMean | evaluation_system.py:78-101 | Without a judge or expected answer, with documents and a content word, the overall score is the plain mean of the three scores. |
| Evaluation.MetricValuesPresent | evaluation_system.py:453-463 | A metric has values exactly when some evaluation carries its score, and each value comes from one. |
| Evaluation.ReportShape | evaluation_system.py:416-472 | No history gives the error result. Otherwise: the count, the summary of the overall scores, and an analysis entry for exactly the metrics with values, its mean between their extremes. |
| Evaluation.CompletenessAlwaysAnalysed | evaluation_system.py:453-468 | Completeness is always analysed, with one value per evaluation. |
| Agent.ChunkIdsDistinct | rag_agent.py:186 | Different positions give different `source_i` ids. |
| Agent.RelevantPositions | rag_agent.py:256-259 | The matching documents are found at increasing positions, and every document that mentions a question word is among them. |
| Agent.RetrievalIsFirstMatches | rag_agent.py:250-262 | At most 3 documents, a subsequence of the stored ones, each mentioning a question word. All matches when there are at most 3, otherwise exactly 3. |
| Agent.NoWordsNoDocuments | rag_agent.py:258 | A question without words retrieves nothing. |
| Agent.ContextHoldsEveryDocument | rag_agent.py:264-271 | The context is empty for no documents, and holds every document's numbered header and text. |
| Agent.ConfidenceBounds | rag_agent.py:303-315 | No documents give 0.1. Otherwise the confidence lies in [1/6, 1], and it is 1 exactly with at least 3 documents and a 200-character answer. |
| Agent.RunningMeanStep | rag_agent.py:317-329 | The running-mean update of a mean gives the mean of the extended list. |
| Agent.AnsweredKeepsConsistent | rag_agent.py:203-234 | An answered query keeps the counters consistent with the history. |
| Agent.FailedKeepsConsistent | rag_agent.py:239-248 | A failed query keeps the counters consistent. |
| Agent.RagAgent.constructor | rag_agent.py:30-41 | No documents, no history, zero counters and means. |
| Agent.RagAgent.StoreChunks | rag_agent.py:178-189 | One record per zipped pair is appended, with id `source_i`. Nothing else changes. |
| Agent.RagAgent.RetrieveDocuments | rag_agent.py:250-262 | The result is the first 3 stored documents mentioning a question word. |
| Agent.RagAgent.UpdateMetrics | rag_agent.py:317-329 | Both running means take one more value. Nothing else changes. |
| Agent.RagAgent.Query | rag_agent.py:191-248 | The query count always grows. A failure returns the error record and changes nothing else. A success appends the answer with its sources and confidence, counts it and updates both means. |
| Agent.RagAgent.GetMetrics | rag_agent.py:335-343 | The counters and means, and a success rate of 0 without queries, otherwise successful/total, in [0, 1]. |

## Left out

- Language-model calls: the judge's reply (`JudgeReply`) and the generated answer are inputs. The prompt text and JSON parsing are not modelled. A malformed reply is `JudgeFailed`.
- Configuration loading from YAML, `initialize_system`, `process_documents`, the interactive chat, `_generate_response` and the JSON save and load of the evaluation history: I/O around the core.
- Logging, timestamps and the `recent_performance` section of the report: they depend on the clock.
- `justificativa` texts of the quality results: constant strings.
- tiktoken: the tokenizer is a parameter (an encoder and a decoder). The `len(chunk.split())` fallback taken when encoding raises is not modelled, because the encoder is total here.
- Floating point: scores are exact reals, and the square root behind `statistics.stdev` is a parameter required to be a true square root.
- Character classes: `lower()` and `isupper()` cover ASCII and Latin-1 letters only, and `\d` matches ASCII digits only. Whitespace is Python's full `isspace` set.
- `min_chunk_size` of the semantic strategy: nothing in the source reads it.
- Stats.VarianceOfConstant: only "equal values give variance 0" is proved, not the converse.
- Windows.CharacterChunking: a source loop that never ends is reported as `Err(Diverges)` instead of not returning.
- Windows.TokenWindows: a source loop that never ends is reported as `Err(Diverges)` instead of not returning.
- Comparison.RankByAvgSpec: the order among strategies with equal means (the sort's stability) is not stated.
- Agent.RagAgent.Query: the exception is a `failure` input raised before `_update_metrics`. After a failed query the running means are no longer plain means of the history, so consistency only promises the means while every query has succeeded.
- Agent.RagAgent.RetrieveDocuments: the `strategy` argument is unused by the source and so by the model.
- Stats.Median: computed from an insertion sort, which matches `sorted` in value.
- RecursiveSplit.RecursiveChunking: for a text with full stops, the content lemma sets `.` aside on both sides. It does not state that the full stops of the chunks are a subsequence of those of the text.
