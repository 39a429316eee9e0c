/** `compare_strategies`: group evaluations by strategy, summarise each group's
    overall scores and rank the groups by their mean score. The same summary is the
    `overall_stats` of the performance report. */
module Comparison {
  import opened Wrappers
  import opened Stats
  import PyStr

  /** The statistics computed for a list of overall scores. */
  datatype Summary = Summary(
    count: nat, avg: real, median: real, std: real, min: real, max: real, successRate: real)

  /** `mean`, `median`, `stdev` (0 for a single score), `min`, `max` and the share of
      scores of at least 7. */
  function Summarize(scores: seq<real>, sqrt: real -> real): Summary
    requires |scores| > 0
  {
    Summary(|scores|, Mean(scores), Median(scores), StdevOrZero(scores, sqrt),
            MinReal(scores), MaxReal(scores), SuccessRate(scores))
  }

  /** The mean and the median lie between the extremes, the deviation is not
      negative, and the success rate lies in `[0, 1]` and is 1 exactly when every
      score is at least 7. */
  lemma {:induction false} SummaryBounds(scores: seq<real>, sqrt: real -> real)
    requires |scores| > 0 && IsSqrt(sqrt)
    ensures var s := Summarize(scores, sqrt);
      && s.count == |scores|
      && s.min <= s.avg <= s.max
      && s.min <= s.median <= s.max
      && s.std >= 0.0
      && 0.0 <= s.successRate <= 1.0
      && (s.successRate == 1.0 <==> forall x :: x in scores ==> x >= 7.0)
      && (forall x :: x in scores ==> s.min <= x <= s.max)
  {
    MeanBetween(scores);
    MedianBetween(scores);
    StdevNonNegative(scores, sqrt);
    SuccessRateBounds(scores);
    SuccessRateOne(scores);
  }

  // ---------------------------------------------------------------------------
  // Grouping

  /** One evaluation as `compare_strategies` reads it: its `strategy` key, which may
      be absent, and its `overall_score`. */
  datatype Run = Run(strategy: Option<string>, overallScore: real)

  /** The run's strategy tag, `"unknown"` when it has none. */
  function StrategyOf(r: Run): string { r.strategy.GetOr("unknown") }

  /** The keys of the groups dictionary, in insertion order: each strategy name at
      its first appearance. */
  function Names(runs: seq<Run>): seq<string> {
    if runs == [] then []
    else
      var prev := Names(runs[..|runs| - 1]);
      var n := StrategyOf(runs[|runs| - 1]);
      if n in prev then prev else prev + [n]
  }

  /** The overall scores of the runs of strategy `name`, in order. */
  function ScoresOf(runs: seq<Run>, name: string): seq<real> {
    if runs == [] then []
    else
      var last := runs[|runs| - 1];
      ScoresOf(runs[..|runs| - 1], name) + (if StrategyOf(last) == name then [last.overallScore] else [])
  }

  /** The grouping loop: `order` is the key order of the dictionary and `groups`
      maps each strategy to the overall scores of its runs. */
  method GroupByStrategy(runs: seq<Run>) returns (order: seq<string>, groups: map<string, seq<real>>)
    ensures order == Names(runs)
    ensures forall n :: n in groups <==> n in order
    ensures forall n :: n in groups ==> groups[n] == ScoresOf(runs, n)
  {
    order, groups := [], map[];
    for i := 0 to |runs|
      invariant order == Names(runs[..i])
      invariant forall n :: n in groups <==> n in order
      invariant forall n :: n in groups ==> groups[n] == ScoresOf(runs[..i], n)
      invariant forall n :: n !in groups ==> ScoresOf(runs[..i], n) == []
    {
      PyStr.PrefixOfNext(runs, i);
      var name := StrategyOf(runs[i]);
      if name !in groups {
        groups := groups[name := []];
        order := order + [name];
      }
      groups := groups[name := groups[name] + [runs[i].overallScore]];
    }
    PyStr.FullPrefix(runs);
  }

  lemma {:induction false} NamesAreStrategies(runs: seq<Run>)
    ensures forall n :: n in Names(runs) <==> exists k :: 0 <= k < |runs| && StrategyOf(runs[k]) == n
  {
    if runs != [] {
      var init := runs[..|runs| - 1];
      NamesAreStrategies(init);
      forall n ensures n in Names(runs) <==> exists k :: 0 <= k < |runs| && StrategyOf(runs[k]) == n {
        if exists k :: 0 <= k < |runs| && StrategyOf(runs[k]) == n {
          var k :| 0 <= k < |runs| && StrategyOf(runs[k]) == n;
          if k < |runs| - 1 {
            assert init[k] == runs[k];
          }
        }
        if n in Names(init) {
          var k :| 0 <= k < |init| && StrategyOf(init[k]) == n;
          assert runs[k] == init[k];
        }
      }
    }
  }

  lemma {:induction false} NamesDistinct(runs: seq<Run>)
    ensures forall i, j :: 0 <= i < j < |Names(runs)| ==> Names(runs)[i] != Names(runs)[j]
  {
    if runs != [] {
      NamesDistinct(runs[..|runs| - 1]);
    }
  }

  lemma {:induction false} ScoresOfEmptyIff(runs: seq<Run>, name: string)
    ensures ScoresOf(runs, name) == [] <==> name !in Names(runs)
  {
    if runs != [] {
      ScoresOfEmptyIff(runs[..|runs| - 1], name);
    }
  }

  /** The scores of the runs of `name`: one for each run of that strategy. */
  lemma {:induction false} ScoresOfCounts(runs: seq<Run>, name: string)
    ensures |ScoresOf(runs, name)| == |set k | 0 <= k < |runs| && StrategyOf(runs[k]) == name|
  {
    var ks := set k | 0 <= k < |runs| && StrategyOf(runs[k]) == name;
    if runs != [] {
      var init := runs[..|runs| - 1];
      var last := |runs| - 1;
      ScoresOfCounts(init, name);
      var ks0 := set k | 0 <= k < |init| && StrategyOf(init[k]) == name;
      assert ks0 == set k | 0 <= k < last && StrategyOf(runs[k]) == name;
      if StrategyOf(runs[last]) == name {
        assert ks == ks0 + {last};
      } else {
        assert ks == ks0;
      }
    } else {
      assert ks == {};
    }
  }

  /** The total size of the groups named in `names`. */
  function GroupSizes(runs: seq<Run>, names: seq<string>): nat {
    if names == [] then 0
    else GroupSizes(runs, names[..|names| - 1]) + |ScoresOf(runs, names[|names| - 1])|
  }

  lemma {:induction false} GroupSizesStep(runs: seq<Run>, r: Run, names: seq<string>)
    requires forall i, j :: 0 <= i < j < |names| ==> names[i] != names[j]
    ensures GroupSizes(runs + [r], names) == GroupSizes(runs, names) + (if StrategyOf(r) in names then 1 else 0)
  {
    var all := runs + [r];
    assert all[..|all| - 1] == runs;
    if names != [] {
      var init := names[..|names| - 1];
      GroupSizesStep(runs, r, init);
      PyStr.FrontAndLast(names);
      if StrategyOf(r) == names[|names| - 1] {
        assert StrategyOf(r) !in init;
      }
    }
  }

  /** Every evaluation lands in exactly one group: the group sizes add up to the
      number of evaluations. */
  lemma {:induction false} GroupsPartitionRuns(runs: seq<Run>)
    ensures GroupSizes(runs, Names(runs)) == |runs|
  {
    if runs != [] {
      var init := runs[..|runs| - 1];
      var r := runs[|runs| - 1];
      PyStr.FrontAndLast(runs);
      GroupsPartitionRuns(init);
      NamesDistinct(init);
      GroupSizesStep(init, r, Names(init));
      var n := StrategyOf(r);
      if n !in Names(init) {
        ScoresOfEmptyIff(init, n);
        var names := Names(init) + [n];
        assert names[..|names| - 1] == Names(init);
        assert ScoresOf(runs, n) == [r.overallScore];
      }
    }
  }

  // ---------------------------------------------------------------------------
  // Ranking

  /** A `(strategy, statistics)` item of the comparison. */
  datatype Ranked = Ranked(name: string, summary: Summary)

  /** Insert `x`, which came before every item of `ranked`, in front of the first
      item whose mean is not larger. */
  function InsertByAvg(x: Ranked, ranked: seq<Ranked>): seq<Ranked> {
    if ranked == [] || ranked[0].summary.avg <= x.summary.avg then [x] + ranked
    else [ranked[0]] + InsertByAvg(x, ranked[1..])
  }

  /** The items sorted by mean score, highest first (the source sorts stably). */
  function RankByAvg(items: seq<Ranked>): seq<Ranked> {
    if items == [] then [] else InsertByAvg(items[0], RankByAvg(items[1..]))
  }

  predicate DescendingByAvg(rs: seq<Ranked>) {
    forall i, j :: 0 <= i < j < |rs| ==> rs[i].summary.avg >= rs[j].summary.avg
  }

  lemma {:induction false} InsertByAvgKeeps(x: Ranked, ranked: seq<Ranked>)
    ensures multiset(InsertByAvg(x, ranked)) == multiset(ranked) + multiset{x}
  {
    if ranked != [] && ranked[0].summary.avg > x.summary.avg {
      InsertByAvgKeeps(x, ranked[1..]);
      assert ranked == [ranked[0]] + ranked[1..];
    }
  }

  /** An upper bound on the mean of `x` and of every item bounds the insertion too. */
  lemma {:induction false} InsertByAvgAtMost(x: Ranked, ranked: seq<Ranked>, hi: real)
    requires x.summary.avg <= hi && forall k :: 0 <= k < |ranked| ==> ranked[k].summary.avg <= hi
    ensures forall k :: 0 <= k < |InsertByAvg(x, ranked)| ==> InsertByAvg(x, ranked)[k].summary.avg <= hi
  {
    if ranked != [] && ranked[0].summary.avg > x.summary.avg {
      InsertByAvgAtMost(x, ranked[1..], hi);
    }
  }

  /** A descending list whose head's mean bounds a descending tail. */
  lemma {:induction false} DescendingCons(h: Ranked, t: seq<Ranked>)
    requires DescendingByAvg(t) && forall k :: 0 <= k < |t| ==> t[k].summary.avg <= h.summary.avg
    ensures DescendingByAvg([h] + t)
  {
    var r := [h] + t;
    forall i, j | 0 <= i < j < |r| ensures r[i].summary.avg >= r[j].summary.avg {
      assert r[j] == t[j - 1];
      if i > 0 {
        assert r[i] == t[i - 1];
      }
    }
  }

  lemma {:induction false} InsertByAvgSorted(x: Ranked, ranked: seq<Ranked>)
    requires DescendingByAvg(ranked)
    ensures DescendingByAvg(InsertByAvg(x, ranked))
  {
    if ranked == [] {
      DescendingCons(x, []);
    } else if ranked[0].summary.avg <= x.summary.avg {
      DescendingCons(x, ranked);
    } else {
      InsertByAvgSorted(x, ranked[1..]);
      InsertByAvgAtMost(x, ranked[1..], ranked[0].summary.avg);
      DescendingCons(ranked[0], InsertByAvg(x, ranked[1..]));
    }
  }

  /** The ranking is sorted by mean score, largest first, and holds exactly the
      items it was given. */
  lemma {:induction false} RankByAvgSpec(items: seq<Ranked>)
    ensures DescendingByAvg(RankByAvg(items))
    ensures multiset(RankByAvg(items)) == multiset(items)
  {
    if items != [] {
      RankByAvgSpec(items[1..]);
      InsertByAvgSorted(items[0], RankByAvg(items[1..]));
      InsertByAvgKeeps(items[0], RankByAvg(items[1..]));
      assert items == [items[0]] + items[1..];
    }
  }

  // ---------------------------------------------------------------------------
  // The comparison

  /** The dictionary `compare_strategies` returns: `{}` for no evaluations, else the
      per-strategy statistics, the ranking and the best strategy. */
  datatype Comparison =
    | NoEvaluations
    | Compared(strategies: map<string, Summary>, ranking: seq<Ranked>, best: string)

  lemma {:induction false} NamesHaveScores(runs: seq<Run>)
    ensures forall n :: n in Names(runs) ==> |ScoresOf(runs, n)| > 0
  {
    forall n | n in Names(runs) ensures |ScoresOf(runs, n)| > 0 {
      ScoresOfEmptyIff(runs, n);
    }
  }

  /** The `comparison` dictionary after the statistics of the strategies in
      `names` have been filled in, one after the other. */
  function Table(runs: seq<Run>, names: seq<string>, sqrt: real -> real): (t: map<string, Summary>)
    requires forall n :: n in names ==> n in Names(runs)
    ensures forall n :: n in t <==> n in names
    ensures forall n :: n in t ==> |ScoresOf(runs, n)| > 0 && t[n] == Summarize(ScoresOf(runs, n), sqrt)
  {
    NamesHaveScores(runs);
    if names == [] then map[]
    else
      var last := names[|names| - 1];
      Table(runs, names[..|names| - 1], sqrt)[last := Summarize(ScoresOf(runs, last), sqrt)]
  }

  /** `comparison.items()`, in the key order of the groups. */
  function Items(names: seq<string>, table: map<string, Summary>): (items: seq<Ranked>)
    requires forall n :: n in names ==> n in table
    ensures |items| == |names|
  {
    seq(|names|, k requires 0 <= k < |names| => Ranked(names[k], table[names[k]]))
  }

  /** `compare_strategies(evaluations)` */
  function Compare(runs: seq<Run>, sqrt: real -> real): Comparison {
    if runs == [] then NoEvaluations
    else
      NamesHaveScores(runs);
      var names := Names(runs);
      var table := Table(runs, names, sqrt);
      var ranking := RankByAvg(Items(names, table));
      NonEmptyRanking(runs, sqrt);
      Compared(table, ranking, ranking[0].name)
  }

  lemma {:induction false} NonEmptyRanking(runs: seq<Run>, sqrt: real -> real)
    requires runs != []
    ensures var names := Names(runs); |RankByAvg(Items(names, Table(runs, names, sqrt)))| > 0
  {
    NamesHaveScores(runs);
    var names := Names(runs);
    var items := Items(names, Table(runs, names, sqrt));
    RankByAvgSpec(items);
    assert |multiset(RankByAvg(items))| == |multiset(items)|;
    NamesAreStrategies(runs);
    assert StrategyOf(runs[0]) in names;
  }

  /** The loops of `compare_strategies`: grouping, then one entry of statistics per
      group, then the ranking. */
  method CompareStrategies(runs: seq<Run>, sqrt: real -> real) returns (r: Comparison)
    ensures r == Compare(runs, sqrt)
  {
    if runs == [] {
      return NoEvaluations;
    }
    var order, groups := GroupByStrategy(runs);
    NamesHaveScores(runs);
    var comparison: map<string, Summary> := map[];
    for i := 0 to |order|
      invariant comparison == Table(runs, order[..i], sqrt)
    {
      var name := order[i];
      TableStep(runs, order, i, sqrt);
      comparison := comparison[name := Summarize(groups[name], sqrt)];
    }
    PyStr.FullPrefix(order);
    var ranking := RankByAvg(Items(order, comparison));
    NonEmptyRanking(runs, sqrt);
    r := Compared(comparison, ranking, ranking[0].name);
  }

  /** One more group of statistics, as the loop of `CompareStrategies` adds it. */
  lemma {:induction false} TableStep(runs: seq<Run>, order: seq<string>, i: nat, sqrt: real -> real)
    requires i < |order| && forall n :: n in order ==> n in Names(runs) && |ScoresOf(runs, n)| > 0
    ensures Table(runs, order[..i + 1], sqrt)
      == Table(runs, order[..i], sqrt)[order[i] := Summarize(ScoresOf(runs, order[i]), sqrt)]
  {
    var next := order[..i + 1];
    assert next[..|next| - 1] == order[..i] && next[|next| - 1] == order[i];
  }

  /** No evaluations give `{}`, and only they do. */
  lemma {:induction false} CompareEmptyIff(runs: seq<Run>, sqrt: real -> real)
    ensures Compare(runs, sqrt).NoEvaluations? <==> runs == []
  {
  }

  /** One entry per strategy that occurs (`'unknown'` for runs without one),
      summarising exactly that strategy's runs. */
  lemma {:induction false} CompareEntries(runs: seq<Run>, sqrt: real -> real)
    requires runs != []
    ensures var c := Compare(runs, sqrt);
      && c.Compared?
      && (forall n :: n in c.strategies <==> exists k :: 0 <= k < |runs| && StrategyOf(runs[k]) == n)
      && (forall n :: n in c.strategies ==>
            && c.strategies[n] == Summarize(ScoresOf(runs, n), sqrt)
            && c.strategies[n].count == |set k | 0 <= k < |runs| && StrategyOf(runs[k]) == n|)
  {
    NamesAreStrategies(runs);
    NamesHaveScores(runs);
    var strategies := Compare(runs, sqrt).strategies;
    forall n | n in strategies
      ensures strategies[n].count == |set k | 0 <= k < |runs| && StrategyOf(runs[k]) == n|
    {
      ScoresOfCounts(runs, n);
    }
  }

  lemma {:induction false} RankingIsItems(names: seq<string>, table: map<string, Summary>)
    requires forall n :: n in names ==> n in table
    requires forall i, j :: 0 <= i < j < |names| ==> names[i] != names[j]
    requires forall n :: n in table ==> n in names
    ensures var ranking := RankByAvg(Items(names, table));
      && |ranking| == |table|
      && DescendingByAvg(ranking)
      && (forall x :: x in ranking ==> x.name in table && x.summary == table[x.name])
      && (forall n :: n in table ==> exists k :: 0 <= k < |ranking| && ranking[k].name == n)
  {
    var items := Items(names, table);
    var ranking := RankByAvg(items);
    RankByAvgSpec(items);
    assert |multiset(ranking)| == |multiset(items)|;
    assert |table| == |names| by {
      DistinctCard(names);
      assert table.Keys == set n | n in names;
    }
    forall x | x in ranking ensures x.name in table && x.summary == table[x.name] {
      assert x in multiset(items);
      var k :| 0 <= k < |items| && items[k] == x;
    }
    forall n | n in table ensures exists k :: 0 <= k < |ranking| && ranking[k].name == n {
      var j :| 0 <= j < |names| && names[j] == n;
      assert items[j] in multiset(ranking);
      var k :| 0 <= k < |ranking| && ranking[k] == items[j];
    }
  }

  /** The ranking lists every entry exactly once, sorted by mean score, largest
      first. */
  lemma {:induction false} CompareRanking(runs: seq<Run>, sqrt: real -> real)
    requires runs != []
    ensures var c := Compare(runs, sqrt);
      && c.Compared?
      && |c.ranking| == |c.strategies|
      && DescendingByAvg(c.ranking)
      && (forall x :: x in c.ranking ==> x.name in c.strategies && x.summary == c.strategies[x.name])
      && (forall n :: n in c.strategies ==> exists k :: 0 <= k < |c.ranking| && c.ranking[k].name == n)
  {
    NamesDistinct(runs);
    NamesHaveScores(runs);
    var names := Names(runs);
    RankingIsItems(names, Table(runs, names, sqrt));
  }

  /** The best strategy is the first ranked one, and its mean score is the
      largest. */
  lemma {:induction false} CompareBest(runs: seq<Run>, sqrt: real -> real)
    requires runs != []
    ensures var c := Compare(runs, sqrt);
      && c.Compared?
      && c.best == c.ranking[0].name && c.best in c.strategies
      && (forall n :: n in c.strategies ==> c.strategies[c.best].avg >= c.strategies[n].avg)
  {
    CompareRanking(runs, sqrt);
    var c := Compare(runs, sqrt);
    RankingHeadIsBest(c.ranking, c.strategies);
  }

  /** In a descending ranking that lists the table's entries, the head's entry has
      the largest mean. */
  lemma {:induction false} RankingHeadIsBest(ranking: seq<Ranked>, table: map<string, Summary>)
    requires |ranking| > 0 && DescendingByAvg(ranking)
    requires forall x :: x in ranking ==> x.name in table && x.summary == table[x.name]
    requires forall n :: n in table ==> exists k :: 0 <= k < |ranking| && ranking[k].name == n
    ensures ranking[0].name in table
    ensures forall n :: n in table ==> table[ranking[0].name].avg >= table[n].avg
  {
    assert ranking[0] in ranking;
    forall n | n in table ensures table[ranking[0].name].avg >= table[n].avg {
      var k :| 0 <= k < |ranking| && ranking[k].name == n;
      assert ranking[k] in ranking;
    }
  }

  /** A sequence without repetitions has as many distinct elements as positions. */
  lemma {:induction false} DistinctCard<T>(s: seq<T>)
    requires forall i, j :: 0 <= i < j < |s| ==> s[i] != s[j]
    ensures |set x | x in s| == |s|
  {
    if s != [] {
      var init := s[..|s| - 1];
      DistinctCard(init);
      assert (set x | x in s) == (set x | x in init) + {s[|s| - 1]};
      assert s[|s| - 1] !in init;
    }
  }
}
