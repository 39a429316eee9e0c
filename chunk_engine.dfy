/** `ChunkingEngine`: the strategy table, the dispatch of `create_chunks` to one of the
    four splitters followed by the per-chunk metrics, and the summary statistics of
    `evaluate_chunking_strategy`. */
module Engine {
  import opened Wrappers
  import opened PyStr
  import Windows
  import RecursiveSplit
  import Semantic
  import Pages
  import opened ChunkMetrics
  import opened Stats

  /** One entry of `strategies_config`; an absent key is `None`. */
  datatype StrategyConfig = StrategyConfig(
    kind: Option<string>,
    chunkSize: Option<int>,
    chunkOverlap: Option<int>,
    maxChunkSize: Option<int>,
    minChunkSize: Option<int>)

  const DefaultName := "recursive_500_100"

  /** `_get_default_config()` */
  const DefaultStrategies: map<string, StrategyConfig> := map[
    "recursive_500_100" := StrategyConfig(Some("recursive"), Some(500), Some(100), None, None),
    "token_400_50" := StrategyConfig(Some("token"), Some(400), Some(50), None, None),
    "semantic_auto" := StrategyConfig(Some("semantic"), None, None, Some(1000), Some(200)),
    "page_based" := StrategyConfig(Some("page"), Some(2000), None, None, None)
  ]

  /** The strategy `create_chunks` settles on: its name (which also labels the
      chunks), its `type` and its configuration. */
  datatype Resolved = Resolved(name: string, kind: string, config: StrategyConfig)

  /** The lookup at the head of `create_chunks`: an unknown name falls back to
      `'recursive_500_100'`; `config['type']` fails when that entry is missing too
      (`config` is `None`) or has no `type`. */
  function Resolve(strategies: map<string, StrategyConfig>, strategy: string): (r: Result<Resolved>)
    ensures strategy in strategies && strategies[strategy].kind.Some? ==>
      r == Ok(Resolved(strategy, strategies[strategy].kind.value, strategies[strategy]))
    ensures r.Ok? ==> var name := r.value.name;
      && name == (if strategy in strategies then strategy else DefaultName)
      && name in strategies && r.value.config == strategies[name] && strategies[name].kind == Some(r.value.kind)
    ensures r == Err(StrategyMissing) <==> strategy !in strategies && DefaultName !in strategies
    ensures r == Err(TypeKeyMissing) <==>
      var name := if strategy in strategies then strategy else DefaultName;
      name in strategies && strategies[name].kind.None?
    ensures r.Ok? || r == Err(StrategyMissing) || r == Err(TypeKeyMissing)
  {
    var name := if strategy in strategies then strategy else DefaultName;
    if name !in strategies then Err(StrategyMissing)
    else match strategies[name].kind
      case None => Err(TypeKeyMissing)
      case Some(kind) => Ok(Resolved(name, kind, strategies[name]))
  }

  /** With the default table every name resolves to a supported type, and an unknown
      name means recursive chunking with size 500 and overlap 100. */
  lemma {:induction false} DefaultTableResolves(strategy: string)
    ensures var r := Resolve(DefaultStrategies, strategy);
      && r.Ok?
      && r.value.kind in {"recursive", "token", "semantic", "page"}
      && (strategy !in DefaultStrategies ==>
            r.value.name == DefaultName && r.value.kind == "recursive"
            && r.value.config.chunkSize == Some(500) && r.value.config.chunkOverlap == Some(100))
  {
  }

  /** The outcome of the splitter that `create_chunks` calls for `res`, with the
      defaults each one applies through `config.get`. */
  ghost predicate Splits(res: Resolved, tokenizer: Option<Windows.Tokenizer>, text: string, out: Result<seq<string>>) {
    var c := res.config;
    if res.kind == "recursive" then
      out == RecursiveSplit.RecursiveChunks(text, c.chunkSize.GetOr(500), c.chunkOverlap.GetOr(100))
    else if res.kind == "token" then
      var size := c.chunkSize.GetOr(400);
      var overlap := c.chunkOverlap.GetOr(50);
      match tokenizer
      case None => Windows.CharacterChunked(text, size * 4, overlap * 4, out)
      case Some(t) => Windows.TokenChunked(t.encode(text), size, overlap, t.decode, out)
    else if res.kind == "semantic" then
      out == Ok(Semantic.SemanticChunks(text, c.maxChunkSize.GetOr(1000)))
    else if res.kind == "page" then
      out == Pages.PageChunks(text, c.chunkSize.GetOr(2000))
    else
      out == Err(UnsupportedType(res.kind))
  }

  /** What `create_chunks(text, strategy)` returns: a resolution error, the splitter's
      error, or the splitter's chunks with the metrics of `_calculate_metrics`
      labelled with the resolved strategy name. */
  ghost predicate CreatesChunks(strategies: map<string, StrategyConfig>, tokenizer: Option<Windows.Tokenizer>,
                                text: string, strategy: string, r: Result<seq<ChunkRecord>>) {
    match Resolve(strategies, strategy)
    case Err(e) => r == Err(e)
    case Ok(res) =>
      match r
      case Err(e) => Splits(res, tokenizer, text, Err(e))
      case Ok(records) =>
        Splits(res, tokenizer, text, Ok(Texts(records))) && records == Metrics(Texts(records), res.name, tokenizer)
  }

  class ChunkingEngine {
    const strategies: map<string, StrategyConfig>
    const tokenizer: Option<Windows.Tokenizer>

    /** `ChunkingEngine(strategies_config)`: a missing or empty table is replaced by
        the default one. The tokenizer (`tiktoken`, or `None` when it cannot be
        loaded) is a parameter. */
    constructor(config: Option<map<string, StrategyConfig>>, tokenizer: Option<Windows.Tokenizer>)
      ensures strategies == (if config.None? || config.value == map[] then DefaultStrategies else config.value)
      ensures this.tokenizer == tokenizer
    {
      strategies := if config.None? || config.value == map[] then DefaultStrategies else config.value;
      this.tokenizer := tokenizer;
    }

    /** `create_chunks(text, strategy)` */
    method CreateChunks(text: string, strategy: string) returns (r: Result<seq<ChunkRecord>>)
      ensures CreatesChunks(strategies, tokenizer, text, strategy, r)
    {
      var resolved := Resolve(strategies, strategy);
      if resolved.Err? {
        return Err(resolved.error);
      }
      var res := resolved.value;
      var c := res.config;
      var out: Result<seq<string>>;
      if res.kind == "recursive" {
        out := RecursiveSplit.RecursiveChunking(text, c.chunkSize.GetOr(500), c.chunkOverlap.GetOr(100));
      } else if res.kind == "token" {
        out := Windows.TokenChunking(tokenizer, text, c.chunkSize.GetOr(400), c.chunkOverlap.GetOr(50));
      } else if res.kind == "semantic" {
        var chunks := Semantic.SemanticChunking(text, c.maxChunkSize.GetOr(1000));
        out := Ok(chunks);
      } else if res.kind == "page" {
        out := Pages.PageChunks(text, c.chunkSize.GetOr(2000));
      } else {
        out := Err(UnsupportedType(res.kind));
      }
      assert Splits(res, tokenizer, text, out);
      if out.Err? {
        return Err(out.error);
      }
      var records := CalculateMetrics(out.value, res.name, tokenizer);
      MetricsDescribeChunks(out.value, res.name, tokenizer);
      r := Ok(records);
    }

    /** `evaluate_chunking_strategy(text, strategy)`: the statistics are computed
        from the records `create_chunks` returns, and labelled with the strategy
        name as given. */
    method EvaluateChunkingStrategy(text: string, strategy: string) returns (r: Result<ChunkingEvaluation>)
      ensures exists c :: && CreatesChunks(strategies, tokenizer, text, strategy, c)
                          && r == (match c case Err(e) => Err(e) case Ok(records) => Evaluate(text, strategy, records))
    {
      var c := CreateChunks(text, strategy);
      if c.Err? {
        r := Err(c.error);
      } else {
        r := Evaluate(text, strategy, c.value);
      }
      assert CreatesChunks(strategies, tokenizer, text, strategy, c);
    }
  }

  // ---------------------------------------------------------------------------
  // `evaluate_chunking_strategy` and `_calculate_variance`

  datatype ChunkingEvaluation =
    | NoChunks   // `{'error': 'Nenhum chunk criado'}`
    | Evaluated(
        strategy: string,
        totalChunks: nat,
        avgChunkSize: real,
        minChunkSize: nat,
        maxChunkSize: nat,
        avgTokenCount: real,
        totalTokens: nat,
        sizeVariance: real,
        coverage: real)

  function Sizes(records: seq<ChunkRecord>): (s: seq<nat>)
    ensures |s| == |records|
  {
    seq(|records|, i requires 0 <= i < |records| => records[i].size)
  }

  function TokenCounts(records: seq<ChunkRecord>): (s: seq<nat>)
    ensures |s| == |records|
  {
    seq(|records|, i requires 0 <= i < |records| => records[i].tokenCount)
  }

  /** The dictionary `evaluate_chunking_strategy` builds from the records;
      `sum(sizes) / len(text)` raises for an empty text. */
  function Evaluate(text: string, strategy: string, records: seq<ChunkRecord>): Result<ChunkingEvaluation> {
    if |records| == 0 then Ok(NoChunks)
    else if |text| == 0 then Err(ZeroDivision)
    else
      var sizes := Sizes(records);
      var tokens := TokenCounts(records);
      var n := |records| as real;
      Ok(Evaluated(
        strategy, |records|,
        SumNat(sizes) as real / n, MinOf(sizes), MaxOf(sizes),
        SumNat(tokens) as real / n, SumNat(tokens),
        Variance(Reals(sizes)),
        SumNat(sizes) as real / (|text| as real)))
  }

  // ---------------------------------------------------------------------------
  // Properties of the statistics

  /** The average chunk size lies between the smallest and the largest chunk, the
      average token count is the token total shared out over the chunks, and the
      variance is never negative. */
  lemma {:induction false} EvaluationBounds(text: string, strategy: string, records: seq<ChunkRecord>)
    requires |records| > 0 && |text| > 0
    ensures var r := Evaluate(text, strategy, records);
      && r.Ok? && r.value.Evaluated?
      && r.value.totalChunks == |records|
      && r.value.minChunkSize as real <= r.value.avgChunkSize <= r.value.maxChunkSize as real
      && r.value.avgTokenCount == r.value.totalTokens as real / (r.value.totalChunks as real)
      && r.value.sizeVariance >= 0.0
  {
    EvaluationShape(text, strategy, records);
    NatMeanBetween(Sizes(records));
  }

  /** Unfolds the fields of a successful `Evaluate`, for `EvaluationBounds`. */
  lemma {:induction false} EvaluationShape(text: string, strategy: string, records: seq<ChunkRecord>)
    requires |records| > 0 && |text| > 0
    ensures var r := Evaluate(text, strategy, records);
      && r.Ok? && r.value.Evaluated?
      && r.value.totalChunks == |records|
      && r.value.avgChunkSize == SumNat(Sizes(records)) as real / (|records| as real)
      && r.value.minChunkSize == MinOf(Sizes(records)) && r.value.maxChunkSize == MaxOf(Sizes(records))
      && r.value.avgTokenCount == SumNat(TokenCounts(records)) as real / (|records| as real)
      && r.value.totalTokens == SumNat(TokenCounts(records))
      && r.value.sizeVariance == Variance(Reals(Sizes(records)))
  {
  }

  lemma {:induction false} SizesAddUp(cs: seq<string>, name: string, tokenizer: Option<Windows.Tokenizer>)
    ensures SumNat(Sizes(Metrics(cs, name, tokenizer))) == |Concat(cs)|
    decreases |cs|
  {
    if |cs| > 0 {
      var rs := Metrics(cs, name, tokenizer);
      MetricsDescribeChunks(cs, name, tokenizer);
      ConcatLengthFromSizes(cs, Sizes(rs));
    }
  }

  lemma {:induction false} ConcatLengthFromSizes(cs: seq<string>, sizes: seq<nat>)
    requires |sizes| == |cs| && forall i :: 0 <= i < |cs| ==> sizes[i] == |cs[i]|
    ensures SumNat(sizes) == |Concat(cs)|
  {
    if |cs| > 0 {
      ConcatLengthFromSizes(cs[1..], sizes[1..]);
    }
  }

  /** When the chunks reassemble the text exactly (as the fixed-window fallbacks do),
      the coverage is exactly 1. */
  lemma {:induction false} ExactSplitCoversText(text: string, strategy: string, cs: seq<string>, name: string,
                             tokenizer: Option<Windows.Tokenizer>)
    requires |text| > 0 && |cs| > 0 && Concat(cs) == text
    ensures var r := Evaluate(text, strategy, Metrics(cs, name, tokenizer));
      r.Ok? && r.value.Evaluated? && r.value.coverage == 1.0
  {
    var records := Metrics(cs, name, tokenizer);
    SizesAddUp(cs, name, tokenizer);
    CoverageField(text, strategy, records);
    var n := |text| as real;
    assert SumNat(Sizes(records)) as real == n;
    DivSelf(n);
  }

  lemma {:induction false} DivSelf(n: real)
    requires n > 0.0
    ensures n / n == 1.0
  {
  }

  /** Unfolds the coverage field of a successful `Evaluate`, for
      `ExactSplitCoversText`. */
  lemma {:induction false} CoverageField(text: string, strategy: string, records: seq<ChunkRecord>)
    requires |text| > 0 && |records| > 0
    ensures var r := Evaluate(text, strategy, records);
      r.Ok? && r.value.Evaluated? && r.value.coverage == SumNat(Sizes(records)) as real / (|text| as real)
  {
  }

  /** Records exist only for a non-empty text, or the coverage division raises. */
  lemma {:induction false} EmptyTextRaises(strategy: string, records: seq<ChunkRecord>)
    requires |records| > 0
    ensures Evaluate("", strategy, records) == Err(ZeroDivision)
  {
  }
}
