/** `_calculate_metrics` and `_calculate_overlap`: the record attached to every chunk
    (identifier, position, size, token count, and the measured overlap with the
    chunk before it). */
module ChunkMetrics {
  import opened Wrappers
  import opened PyStr
  import Windows
  import Overlap

  /** The dictionary built for each chunk. */
  datatype ChunkRecord = ChunkRecord(
    text: string,
    chunkId: string,
    size: nat,
    tokenCount: nat,
    overlapWithPrevious: nat,
    strategy: string,
    position: nat)

  // ---------------------------------------------------------------------------
  // `_calculate_overlap`

  /** The test of one candidate length: the last `len` characters of the first chunk
      occur within the first `2 * len` characters of the second. */
  predicate OverlapWorks(c1: string, c2: string, len: int) {
    Contains(Slice(c2, 0, len * 2), Slice(c1, -len, |c1|))
  }

  /** The `for length in range(start, 0, -1)` search with its early return. */
  function OverlapSearch(c1: string, c2: string, start: int): (r: nat)
    decreases start
    ensures r <= (if start < 0 then 0 else start)
    ensures r > 0 ==> OverlapWorks(c1, c2, r)
    ensures forall len :: r < len <= start ==> !OverlapWorks(c1, c2, len)
  {
    if start <= 0 then 0
    else if OverlapWorks(c1, c2, start) then start
    else OverlapSearch(c1, c2, start - 1)
  }

  function Min(a: int, b: int): int { if a < b then a else b }

  /** `_calculate_overlap(chunk1, chunk2)` */
  function CalculateOverlap(c1: string, c2: string): nat {
    OverlapSearch(c1, c2, Min(|c1|, |c2|) / 2)
  }

  /** The measured overlap is the largest length `L` in `[1, min(len)//2]` whose
      test succeeds, and 0 exactly when no length succeeds. */
  lemma {:induction false} CalculateOverlapIsLargest(c1: string, c2: string)
    ensures var r := CalculateOverlap(c1, c2); var top := Min(|c1|, |c2|) / 2;
      && r <= top
      && (r > 0 ==> OverlapWorks(c1, c2, r))
      && (forall len :: r < len <= top ==> !OverlapWorks(c1, c2, len))
      && (r == 0 <==> forall len :: 1 <= len <= top ==> !OverlapWorks(c1, c2, len))
  {
  }

  // ---------------------------------------------------------------------------
  // `_calculate_metrics`

  /** `f"{strategy}_{i}"` */
  function ChunkId(strategy: string, i: nat): string {
    strategy + "_" + NatToString(i)
  }

  /** `len(tokenizer.encode(chunk))` with a tokenizer, `len(chunk.split())` without. */
  function TokenCount(tokenizer: Option<Windows.Tokenizer>, chunk: string): nat {
    match tokenizer
    case Some(t) => |t.encode(chunk)|
    case None => |Words(chunk)|
  }

  function Record(chunks: seq<string>, strategy: string, tokenizer: Option<Windows.Tokenizer>, i: nat): ChunkRecord
    requires i < |chunks|
  {
    ChunkRecord(
      chunks[i], ChunkId(strategy, i), |chunks[i]|, TokenCount(tokenizer, chunks[i]),
      if i > 0 then CalculateOverlap(chunks[i - 1], chunks[i]) else 0,
      strategy, i)
  }

  /** The list `_calculate_metrics(chunks, strategy)` returns. */
  function Metrics(chunks: seq<string>, strategy: string, tokenizer: Option<Windows.Tokenizer>): (rs: seq<ChunkRecord>)
    ensures |rs| == |chunks|
    ensures forall i :: 0 <= i < |rs| ==> rs[i] == Record(chunks, strategy, tokenizer, i)
  {
    MetricsFirst(chunks, strategy, tokenizer, |chunks|)
  }

  /** The records of the first `n` chunks. */
  function MetricsFirst(chunks: seq<string>, strategy: string, tokenizer: Option<Windows.Tokenizer>, n: nat): (rs: seq<ChunkRecord>)
    requires n <= |chunks|
    ensures |rs| == n
    ensures forall i :: 0 <= i < n ==> rs[i] == Record(chunks, strategy, tokenizer, i)
  {
    if n == 0 then [] else MetricsFirst(chunks, strategy, tokenizer, n - 1) + [Record(chunks, strategy, tokenizer, n - 1)]
  }

  /** The loop of `_calculate_metrics`. */
  method CalculateMetrics(chunks: seq<string>, strategy: string, tokenizer: Option<Windows.Tokenizer>)
    returns (rs: seq<ChunkRecord>)
    ensures rs == Metrics(chunks, strategy, tokenizer)
  {
    rs := [];
    for i := 0 to |chunks|
      invariant rs == MetricsFirst(chunks, strategy, tokenizer, i)
    {
      var overlap := 0;
      if i > 0 {
        overlap := CalculateOverlap(chunks[i - 1], chunks[i]);
      }
      var record := ChunkRecord(chunks[i], ChunkId(strategy, i), |chunks[i]|,
                                TokenCount(tokenizer, chunks[i]), overlap, strategy, i);
      assert record == Record(chunks, strategy, tokenizer, i);
      rs := rs + [record];
    }
  }

  /** The texts of the records. */
  function Texts(rs: seq<ChunkRecord>): (ts: seq<string>)
    ensures |ts| == |rs|
  {
    seq(|rs|, i requires 0 <= i < |rs| => rs[i].text)
  }

  /** Record `i` carries chunk `i` unchanged, position `i`, its length as size, and
      an overlap of 0 when it is the first; the texts of the records are the chunks. */
  lemma {:induction false} MetricsDescribeChunks(chunks: seq<string>, strategy: string, tokenizer: Option<Windows.Tokenizer>)
    ensures var rs := Metrics(chunks, strategy, tokenizer);
      && Texts(rs) == chunks
      && (forall i :: 0 <= i < |rs| ==>
            rs[i].text == chunks[i] && rs[i].position == i && rs[i].size == |chunks[i]|
            && rs[i].strategy == strategy && rs[i].chunkId == ChunkId(strategy, i))
      && (|rs| > 0 ==> rs[0].overlapWithPrevious == 0)
  {
  }

  lemma {:induction false} ChunkIdInjective(strategy: string, i: nat, j: nat)
    requires ChunkId(strategy, i) == ChunkId(strategy, j)
    ensures i == j
  {
    var p := strategy + "_";
    assert ChunkId(strategy, i)[|p|..] == NatToString(i);
    assert ChunkId(strategy, j)[|p|..] == NatToString(j);
    NatToStringInjective(i, j);
  }

  /** Chunk identifiers within one call are pairwise distinct. */
  lemma {:induction false} ChunkIdsDistinct(chunks: seq<string>, strategy: string, tokenizer: Option<Windows.Tokenizer>)
    ensures var rs := Metrics(chunks, strategy, tokenizer);
      forall i, j :: 0 <= i < j < |rs| ==> rs[i].chunkId != rs[j].chunkId
  {
    var rs := Metrics(chunks, strategy, tokenizer);
    forall i, j | 0 <= i < j < |rs| ensures rs[i].chunkId != rs[j].chunkId {
      if rs[i].chunkId == rs[j].chunkId {
        ChunkIdInjective(strategy, i, j);
      }
    }
  }

  // ---------------------------------------------------------------------------
  // How the measurement sees the overlap that `_apply_overlap` added

  /** An overlapped chunk ends with the original chunk at the same position. */
  lemma {:induction false} OverlappedEndsWithOriginal(cs: seq<string>, ov: int, k: nat)
    requires ov > 0 && k < |cs|
    ensures var p := Overlap.Overlapped(cs, ov)[k];
      |p| >= |cs[k]| && p[|p| - |cs[k]|..] == cs[k]
  {
    if k > 0 {
      Overlap.OverlapBorrowsFromPrevious(cs, ov, k);
    } else if |cs| > 1 {
      Overlap.OverlappedAt(cs, ov);
    }
  }

  lemma {:induction false} SuffixOfSuffix(p: string, q: string, m: nat)
    requires |p| >= |q| && p[|p| - |q|..] == q && m <= |q|
    ensures p[|p| - m..] == q[|q| - m..]
  {
    assert p[|p| - m..] == p[|p| - |q|..][|q| - m..];
  }

  /** A candidate length `m` succeeds when the last `m` characters of `p` are the
      first `m` characters of `c`. */
  lemma {:induction false} PrefixWorks(p: string, c: string, m: nat)
    requires 1 <= m <= |p| && 2 * m <= |c| && p[|p| - m..] == c[..m]
    ensures OverlapWorks(p, c, m)
  {
    var window := Slice(c, 0, m * 2);
    assert window == c[..m * 2];
    assert window[0..m] == c[..m];
    var neg: int := -(m as int);
    assert SliceIndex(neg, |p|) == |p| - m;
    var tail := Slice(p, neg, |p|);
    assert tail == p[|p| - m..];
    assert OccursAt(window, tail, 0);
    ContainsIff(window, tail);
  }

  lemma {:induction false} BorrowedTailWorks(cs: seq<string>, ov: int, k: nat)
    requires ov > 0 && 0 < k < |cs|
    requires var m := Overlap.TailLength(|cs[k - 1]|, ov);
      m >= 1 && 2 * m <= |Overlap.Overlapped(cs, ov)[k]|
    ensures var r := Overlap.Overlapped(cs, ov);
      OverlapWorks(r[k - 1], r[k], Overlap.TailLength(|cs[k - 1]|, ov))
  {
    var r := Overlap.Overlapped(cs, ov);
    var prev := cs[k - 1];
    var m := Overlap.TailLength(|prev|, ov);
    Overlap.OverlapBorrowsFromPrevious(cs, ov, k);
    OverlappedEndsWithOriginal(cs, ov, k - 1);
    SuffixOfSuffix(r[k - 1], prev, m);
    PrefixWorks(r[k - 1], r[k], m);
  }

  /** After `_apply_overlap`, the overlap `_calculate_metrics` reports between two
      consecutive chunks is at least the number of characters borrowed, provided
      both chunks are at least twice that long. */
  lemma {:induction false} MeasuredOverlapCoversBorrowed(cs: seq<string>, ov: int, k: nat)
    requires ov > 0 && 0 < k < |cs|
    requires var r := Overlap.Overlapped(cs, ov); var m := Overlap.TailLength(|cs[k - 1]|, ov);
      1 <= m && 2 * m <= |r[k - 1]| && 2 * m <= |r[k]|
    ensures var r := Overlap.Overlapped(cs, ov);
      CalculateOverlap(r[k - 1], r[k]) >= Overlap.TailLength(|cs[k - 1]|, ov)
  {
    BorrowedTailWorks(cs, ov, k);
  }
}
