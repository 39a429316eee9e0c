/** The window-based splitters of the chunking engine: fixed character windows
    (a window of `size` characters at every multiple of `size`), the sliding character
    window `_character_chunking`, and the sliding token window `_token_chunking`. */
module Windows {
  import opened Wrappers
  import opened PyStr

  /** The tokenizer collaborator: an encoder and a decoder, nothing else is assumed. */
  datatype Tokenizer = Tokenizer(encode: string -> seq<int>, decode: seq<int> -> string)

  // ---------------------------------------------------------------------------
  // Fixed, non-overlapping windows

  /** Consecutive windows of `size` characters; the last one may be shorter. */
  function FixedWindows(text: string, size: int): seq<string>
    requires size > 0
    decreases |text|
  {
    if |text| == 0 then []
    else if |text| <= size then [text]
    else [text[..size]] + FixedWindows(text[size..], size)
  }

  /** The list comprehension over `range(0, len(text), size)`: a zero step raises,
      a negative step gives an empty range. */
  function RangeWindows(text: string, size: int): (r: Result<seq<string>>)
    ensures size == 0 <==> r == Err(ZeroRangeStep)
    ensures size < 0 ==> r == Ok([])
  {
    if size == 0 then Err(ZeroRangeStep)
    else if size < 0 then Ok([])
    else Ok(FixedWindows(text, size))
  }

  /** Fixed windows reconstruct the text exactly, every window is non-empty and at
      most `size` long, and every window but the last is exactly `size` long. */
  lemma {:induction false} FixedWindowsExact(text: string, size: int)
    requires size > 0
    ensures Concat(FixedWindows(text, size)) == text
    ensures forall w :: w in FixedWindows(text, size) ==> 0 < |w| <= size
    ensures forall j :: 0 <= j < |FixedWindows(text, size)| - 1 ==> |FixedWindows(text, size)[j]| == size
    decreases |text|
  {
    var ws := FixedWindows(text, size);
    if |text| == 0 {
    } else if |text| <= size {
      assert ws == [text];
      assert Concat(ws) == text + Concat([]);
    } else {
      var rest := FixedWindows(text[size..], size);
      FixedWindowsExact(text[size..], size);
      assert ws == [text[..size]] + rest;
      assert ws[1..] == rest;
      assert text == text[..size] + text[size..];
      forall j | 0 <= j < |ws| - 1 ensures |ws[j]| == size {
        if j > 0 { assert ws[j] == rest[j - 1]; }
      }
    }
  }

  // ---------------------------------------------------------------------------
  // `_character_chunking`: windows of `size` starting every `size - overlap` characters

  /** The windows `text[start:start+size]`, `text[start+step:start+step+size]`, ...
      for every start below `len(text)`. */
  function SteppedFrom(text: string, start: int, size: int, step: int): seq<string>
    requires step > 0
    decreases |text| - start
  {
    if start >= |text| then [] else [Slice(text, start, start + size)] + SteppedFrom(text, start + step, size, step)
  }

  lemma {:induction false} StepArithmetic(k: int, step: int)
    ensures k * step + step == (k + 1) * step
  {
  }

  /** `j` steps of `step` taken one at a time. */
  function Offset(j: nat, step: int): int {
    if j == 0 then 0 else Offset(j - 1, step) + step
  }

  lemma {:induction false} OffsetIsProduct(j: nat, step: int)
    ensures Offset(j, step) == j * step
  {
    if j > 0 {
      OffsetIsProduct(j - 1, step);
      StepArithmetic(j - 1, step);
    }
  }

  lemma {:induction false} SteppedFromAtOffset(text: string, start: int, size: int, step: int, j: nat)
    requires step > 0
    requires j < |SteppedFrom(text, start, size, step)|
    ensures var b := start + Offset(j, step); SteppedFrom(text, start, size, step)[j] == Slice(text, b, b + size)
    decreases j
  {
    if j > 0 {
      var rest := SteppedFrom(text, start + step, size, step);
      assert SteppedFrom(text, start, size, step)[j] == rest[j - 1];
      SteppedFromAtOffset(text, start + step, size, step, j - 1);
      assert Offset(j, step) == Offset(j - 1, step) + step;
    }
  }

  /** The `j`-th window starts at `start + j*step`. */
  lemma {:induction false} SteppedFromAt(text: string, start: int, size: int, step: int, j: nat)
    requires step > 0
    requires j < |SteppedFrom(text, start, size, step)|
    ensures var b := start + j * step; SteppedFrom(text, start, size, step)[j] == Slice(text, b, b + size)
  {
    SteppedFromAtOffset(text, start, size, step, j);
    OffsetIsProduct(j, step);
  }

  /** There is one window for every start `start + j*step` below `len(text)`. */
  lemma {:induction false} SteppedFromCount(text: string, start: int, size: int, step: int)
    requires step > 0 && start < |text|
    ensures var n := |SteppedFrom(text, start, size, step)|;
      n > 0 && start + (n - 1) * step < |text| <= start + n * step
    decreases |text| - start
  {
    var rest := SteppedFrom(text, start + step, size, step);
    if start + step < |text| {
      SteppedFromCount(text, start + step, size, step);
      StepArithmetic(|rest| - 1, step);
      StepArithmetic(|rest|, step);
    }
  }

  /** What `_character_chunking(text, size, overlap)` does, case by case. */
  ghost predicate CharacterChunked(text: string, size: int, overlap: int, r: Result<seq<string>>) {
    && (|text| == 0 ==> r == Ok([]))
    && (|text| > 0 && overlap <= 0 ==> r == Ok([Slice(text, 0, size)]))
    && (|text| > 0 && 0 < overlap && size <= overlap ==> r == Err(Diverges))
    && (|text| > 0 && 0 < overlap < size ==> r == Ok(SteppedFrom(text, 0, size, size - overlap)))
  }

  /** The loop of `_character_chunking`. It stops where the source's loop would
      stop; where the source's `start` would stop advancing while staying below
      `len(text)` (so the source loops forever), it reports `Diverges`. */
  method CharacterChunking(text: string, size: int, overlap: int) returns (r: Result<seq<string>>)
    ensures CharacterChunked(text, size, overlap, r)
  {
    var chunks: seq<string> := [];
    var start := 0;
    while start < |text|
      invariant 0 <= start
      invariant overlap <= 0 ==> start == 0 && chunks == []
      invariant |chunks| > 0 ==> 0 < overlap < size
      invariant chunks == [] ==> start == 0
      invariant 0 < overlap < size ==>
        chunks + SteppedFrom(text, start, size, size - overlap) == SteppedFrom(text, 0, size, size - overlap)
      decreases |text| - start
    {
      var end := start + size;
      chunks := chunks + [Slice(text, start, end)];
      start := end - overlap;
      if start >= end {
        assert overlap <= 0 && chunks == [Slice(text, 0, size)];
        break;
      }
      if start <= end - size {
        // no progress: the source's `start` never reaches `len(text)` from here
        return Err(Diverges);
      }
    }
    if 0 < overlap < size {
      assert SteppedFrom(text, start, size, size - overlap) == [];
      assert chunks + [] == chunks;
    }
    r := Ok(chunks);
  }

  // ---------------------------------------------------------------------------
  // `_token_chunking`

  /** The value of `start_idx` at the top of the source's loop after `k` rounds,
      for `n` tokens (ignoring the loop's exits). */
  function TokenStart(k: nat, n: nat, size: int, overlap: int): int {
    if k == 0 then 0
    else
      var s := TokenStart(k - 1, n, size, overlap);
      (if s + size < n then s + size else n) - overlap
  }

  /** With a positive overlap and at least one token, `start_idx` never reaches
      `len(tokens)` and `start_idx >= end_idx` never holds: the source's loop
      never exits. */
  lemma {:induction false} TokenLoopNeverExits(k: nat, n: nat, size: int, overlap: int)
    requires n > 0 && overlap > 0
    ensures TokenStart(k, n, size, overlap) < n
    ensures TokenStart(k + 1, n, size, overlap) < (if TokenStart(k, n, size, overlap) + size < n then TokenStart(k, n, size, overlap) + size else n)
  {
  }

  /** Ten tokens, windows of four, overlap one: the starts are 0, 3, 6, 9, 9, 9, ... */
  lemma {:induction false} TokenStartsExample()
    ensures TokenStart(0, 10, 4, 1) == 0 && TokenStart(1, 10, 4, 1) == 3
    ensures TokenStart(2, 10, 4, 1) == 6 && TokenStart(3, 10, 4, 1) == 9
    ensures TokenStart(4, 10, 4, 1) == 9 && TokenStart(5, 10, 4, 1) == 9
  {
  }

  /** What the token loop does over `tokens`: nothing for no tokens, exactly one
      window (the first `chunk_size` tokens) for a non-positive overlap, and no
      end at all for a positive overlap. */
  ghost predicate TokenChunked(tokens: seq<int>, size: int, overlap: int, decode: seq<int> -> string, r: Result<seq<string>>) {
    var n := |tokens|;
    && (n == 0 ==> r == Ok([]))
    && (n > 0 && overlap <= 0 ==> r == Ok([decode(Slice(tokens, 0, if size < n then size else n))]))
    && (n > 0 && overlap > 0 ==> r == Err(Diverges))
  }

  /** The `while start_idx < len(tokens)` loop of `_token_chunking`, reporting
      `Diverges` at the point where `start_idx` stops advancing. */
  method TokenWindows(tokens: seq<int>, size: int, overlap: int, decode: seq<int> -> string)
    returns (r: Result<seq<string>>)
    ensures TokenChunked(tokens, size, overlap, decode, r)
  {
    var chunks: seq<string> := [];
    var start := 0;
    while start < |tokens|
      invariant 0 <= start <= |tokens| && (chunks == [] <==> start == 0)
      invariant overlap <= 0 ==> start == 0 && chunks == []
      invariant |tokens| > 0 && overlap > 0 ==> start < |tokens|
      decreases |tokens| - start
    {
      var end := if start + size < |tokens| then start + size else |tokens|;
      chunks := chunks + [decode(Slice(tokens, start, end))];
      var next := end - overlap;
      if next >= end {
        assert overlap <= 0;
        assert chunks == [decode(Slice(tokens, 0, if size < |tokens| then size else |tokens|))];
        break;
      }
      if next <= start {
        // from here `start_idx` never increases and stays below `len(tokens)`
        return Err(Diverges);
      }
      start := next;
    }
    r := Ok(chunks);
  }

  /** `_token_chunking`: the token loop when a tokenizer is present, otherwise
      character windows four times as large. */
  method TokenChunking(tokenizer: Option<Tokenizer>, text: string, size: int, overlap: int)
    returns (r: Result<seq<string>>)
    ensures tokenizer.None? ==> CharacterChunked(text, size * 4, overlap * 4, r)
    ensures tokenizer.Some? ==> TokenChunked(tokenizer.value.encode(text), size, overlap, tokenizer.value.decode, r)
  {
    if tokenizer.None? {
      r := CharacterChunking(text, size * 4, overlap * 4);
      return;
    }
    var tokens := tokenizer.value.encode(text);
    r := TokenWindows(tokens, size, overlap, tokenizer.value.decode);
  }
}
