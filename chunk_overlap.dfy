/** `_apply_overlap`: every chunk after the first is prefixed with the last
    `overlap_size` characters of the chunk before it (all of it when shorter)
    and a space. */
module Overlap {
  import opened PyStr

  /** The last `ov` characters of the previous chunk, or all of it when it is not longer. */
  function Tail(prev: string, ov: int): (t: string)
    ensures ov > 0 ==> |t| == TailLength(|prev|, ov) && t == prev[|prev| - |t|..]
  {
    if |prev| > ov then
      assert ov > 0 ==> SliceIndex(-ov, |prev|) == |prev| - ov;
      Slice(prev, -ov, |prev|)
    else prev
  }

  /** The length of the tail taken from a chunk of length `n`. */
  function TailLength(n: nat, ov: int): nat {
    if n > ov then (if ov >= 0 then ov else 0) else n
  }

  /** The `k`-th chunk after the overlap is applied. */
  function OverlapElem(cs: seq<string>, ov: int, k: nat): string
    requires k < |cs|
  {
    if k == 0 then cs[0] else Tail(cs[k - 1], ov) + " " + cs[k]
  }

  /** The result of `_apply_overlap(chunks, overlap_size)`. */
  function Overlapped(cs: seq<string>, ov: int): (r: seq<string>)
    ensures |r| == |cs|
  {
    if |cs| <= 1 || ov <= 0 then cs else OverlapFirst(cs, ov, |cs|)
  }

  /** The first `n` chunks after the overlap is applied. */
  function OverlapFirst(cs: seq<string>, ov: int, n: nat): (r: seq<string>)
    requires n <= |cs|
    ensures |r| == n
  {
    if n == 0 then [] else OverlapFirst(cs, ov, n - 1) + [OverlapElem(cs, ov, n - 1)]
  }

  lemma {:induction false} OverlapFirstAt(cs: seq<string>, ov: int, n: nat, k: nat)
    requires k < n <= |cs|
    ensures OverlapFirst(cs, ov, n)[k] == OverlapElem(cs, ov, k)
  {
    var front := OverlapFirst(cs, ov, n - 1);
    var last := OverlapElem(cs, ov, n - 1);
    assert OverlapFirst(cs, ov, n) == front + [last];
    if k < n - 1 {
      OverlapFirstAt(cs, ov, n - 1, k);
      assert (front + [last])[k] == front[k];
    }
  }

  /** The loop of `_apply_overlap`. */
  method ApplyOverlap(cs: seq<string>, ov: int) returns (r: seq<string>)
    ensures r == Overlapped(cs, ov)
  {
    if |cs| <= 1 || ov <= 0 {
      return cs;
    }
    r := [cs[0]];
    assert r == OverlapFirst(cs, ov, 1);
    for i := 1 to |cs|
      invariant r == OverlapFirst(cs, ov, i)
    {
      var overlapText := Tail(cs[i - 1], ov);
      var combined := overlapText + " " + cs[i];
      r := r + [combined];
    }
  }

  lemma {:induction false} OverlappedAt(cs: seq<string>, ov: int)
    requires |cs| > 1 && ov > 0
    ensures forall k :: 0 <= k < |cs| ==> Overlapped(cs, ov)[k] == OverlapElem(cs, ov, k)
  {
    forall k | 0 <= k < |cs| ensures Overlapped(cs, ov)[k] == OverlapElem(cs, ov, k) {
      OverlapFirstAt(cs, ov, |cs|, k);
    }
  }

  // ---------------------------------------------------------------------------
  // The inverse: strip the borrowed prefixes again, left to right

  /** Remove the borrowed prefix of each chunk in `rest`, knowing the length of the
      original chunk before it. */
  function Unlap(rest: seq<string>, ov: int, prevLen: nat): seq<string>
    decreases |rest|
  {
    if |rest| == 0 then []
    else
      var cut := TailLength(prevLen, ov) + 1;
      var o := if cut <= |rest[0]| then rest[0][cut..] else "";
      [o] + Unlap(rest[1..], ov, |o|)
  }

  function RemoveOverlap(r: seq<string>, ov: int): seq<string> {
    if |r| <= 1 || ov <= 0 then r else [r[0]] + Unlap(r[1..], ov, |r[0]|)
  }

  lemma {:induction false} UnlapOverlapped(cs: seq<string>, ov: int, j: nat)
    requires ov > 0 && 1 <= j <= |cs|
    ensures Unlap(Overlapped(cs, ov)[j..], ov, |cs[j - 1]|) == cs[j..]
    decreases |cs| - j
  {
    if j < |cs| {
      var r := Overlapped(cs, ov);
      assert Unlap(r[j..], ov, |cs[j - 1]|) == [cs[j]] + Unlap(r[j + 1..], ov, |cs[j]|) by {
        var t := Tail(cs[j - 1], ov);
        assert r[j] == t + " " + cs[j] by {
          OverlappedAt(cs, ov);
        }
        assert r[j][|t| + 1..] == cs[j];
        SuffixCons(r, j);
      }
      UnlapOverlapped(cs, ov, j + 1);
      SuffixCons(cs, j);
    }
  }

  /** Removing the borrowed prefixes recovers the original chunks: the overlap
      adds text in front of each chunk and changes nothing else. */
  lemma {:induction false} OverlapRoundTrip(cs: seq<string>, ov: int)
    ensures RemoveOverlap(Overlapped(cs, ov), ov) == cs
  {
    if |cs| > 1 && ov > 0 {
      OverlapFirstAt(cs, ov, |cs|, 0);
      UnlapOverlapped(cs, ov, 1);
      SuffixCons(cs, 0);
    }
  }

  /** Each chunk after the first begins with the end of the original chunk before
      it, followed by a space, and ends with its own original text. */
  lemma {:induction false} OverlapBorrowsFromPrevious(cs: seq<string>, ov: int, k: nat)
    requires ov > 0 && 0 < k < |cs|
    ensures var r := Overlapped(cs, ov); var m := TailLength(|cs[k - 1]|, ov);
      && |r[k]| == m + 1 + |cs[k]|
      && r[k][..m] == cs[k - 1][|cs[k - 1]| - m..]
      && r[k][m] == ' '
      && r[k][m + 1..] == cs[k]
  {
    var r := Overlapped(cs, ov);
    var t := Tail(cs[k - 1], ov);
    assert r[k] == t + " " + cs[k] by {
      OverlapFirstAt(cs, ov, |cs|, k);
    }
    assert r[k][..|t|] == t;
  }
}
