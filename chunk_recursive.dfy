/** `_split_text_recursively` and `_recursive_chunking`: greedy accumulation of
    paragraphs (and, for oversized paragraphs, of separator-delimited parts) into
    chunks of at most `chunk_size` characters.

    Each algorithm is written twice: once as a specification function (a left fold
    over the parts) and once as the source's loop, proved to compute the same value. */
module RecursiveSplit {
  import opened Wrappers
  import opened PyStr
  import Windows
  import Overlap

  /** The separator priority list of `_recursive_chunking`. */
  const Separators: seq<string> := ["\n\n", "\n", ". ", " ", ""]

  /** The greedy buffer: the chunks emitted so far and the text being accumulated. */
  datatype Buffer = Buffer(chunks: seq<string>, current: string)

  /** The index of the first separator of `seps` that occurs in `text`
      (the `for separator in separators: if separator in text` search). */
  function FirstSeparator(seps: seq<string>, text: string, from: nat := 0): (r: Option<nat>)
    requires from <= |seps|
    decreases |seps| - from
    ensures r.Some? ==> from <= r.value < |seps| && Contains(text, seps[r.value])
    ensures forall k :: from <= k < (if r.Some? then r.value else |seps|) ==> !Contains(text, seps[k])
  {
    if from == |seps| then None
    else if Contains(text, seps[from]) then Some(from)
    else FirstSeparator(seps, text, from + 1)
  }

  /** The chunks that are not blank, in order. */
  function NonBlank(cs: seq<string>): (r: seq<string>)
    ensures forall c :: c in r <==> c in cs && !IsBlank(c)
    ensures |r| <= |cs|
  {
    if |cs| == 0 then []
    else if IsBlank(cs[0]) then NonBlank(cs[1..])
    else [cs[0]] + NonBlank(cs[1..])
  }

  /** A non-empty buffer is emitted with the separator's characters stripped from its end. */
  function Flush(b: Buffer, sep: string): seq<string> {
    if b.current != "" then b.chunks + [RStripChars(b.current, sep)] else b.chunks
  }

  // ---------------------------------------------------------------------------
  // Specification of `_split_text_recursively`

  /** The result of `_split_text_recursively(text, chunk_size, seps)`. */
  function SplitSpec(text: string, size: int, seps: seq<string>): Result<seq<string>>
    decreases |seps|, 1, 0
  {
    if |text| <= size then Ok([text])
    else match FirstSeparator(seps, text)
      case None => Windows.RangeWindows(text, size)
      case Some(j) =>
        var sep := seps[j];
        if sep == "" then Err(EmptySeparator)
        else match Fold(Split(text, sep), sep, size, seps)
          case Err(e) => Err(e)
          case Ok(b) => Ok(NonBlank(Flush(b, sep)))
  }

  /** The inner `for part in parts` loop after the parts seen so far. */
  function Fold(parts: seq<string>, sep: string, size: int, seps: seq<string>): Result<Buffer>
    requires |seps| > 0
    decreases |seps|, 0, |parts|
  {
    if |parts| == 0 then Ok(Buffer([], ""))
    else match Fold(parts[..|parts| - 1], sep, size, seps)
      case Err(e) => Err(e)
      case Ok(b) => Step(b, parts[|parts| - 1], sep, size, seps)
  }

  /** One round of the inner loop; an oversized part recurses with the list minus
      its FIRST element (`separators[1:]`), whichever separator was used. */
  function Step(b: Buffer, part: string, sep: string, size: int, seps: seq<string>): Result<Buffer>
    requires |seps| > 0
    decreases |seps|, 0, 0
  {
    if |b.current| + |part| + |sep| <= size then Ok(Buffer(b.chunks, b.current + part + sep))
    else
      var flushed := Flush(b, sep);
      if |part| > size then
        match SplitSpec(part, size, seps[1..])
        case Err(e) => Err(e)
        case Ok(sub) => Ok(Buffer(flushed + sub, ""))
      else Ok(Buffer(flushed, part + sep))
  }

  lemma {:induction false} FoldErrSticks(parts: seq<string>, k: nat, sep: string, size: int, seps: seq<string>)
    requires |seps| > 0 && k <= |parts|
    requires Fold(parts[..k], sep, size, seps).Err?
    ensures Fold(parts, sep, size, seps) == Fold(parts[..k], sep, size, seps)
    decreases |parts| - k
  {
    if k < |parts| {
      PrefixOfNext(parts, k);
      FoldErrSticks(parts, k + 1, sep, size, seps);
    } else {
      FullPrefix(parts);
    }
  }

  lemma {:induction false} FoldNext(parts: seq<string>, i: nat, sep: string, size: int, seps: seq<string>)
    requires |seps| > 0 && i < |parts| && Fold(parts[..i], sep, size, seps).Ok?
    ensures Fold(parts[..i + 1], sep, size, seps) == Step(Fold(parts[..i], sep, size, seps).value, parts[i], sep, size, seps)
  {
    PrefixOfNext(parts, i);
  }

  // ---------------------------------------------------------------------------
  // The source's loops, proved equal to the specification

  method SplitTextRecursively(text: string, size: int, seps: seq<string>) returns (r: Result<seq<string>>)
    ensures r == SplitSpec(text, size, seps)
    decreases |seps|
  {
    if |text| <= size {
      return Ok([text]);
    }
    for j := 0 to |seps|
      invariant forall k :: 0 <= k < j ==> !Contains(text, seps[k])
    {
      var sep := seps[j];
      if Contains(text, sep) {
        assert FirstSeparator(seps, text) == Some(j);
        if sep == "" {
          return Err(EmptySeparator);
        }
        var parts := Split(text, sep);
        var chunks: seq<string> := [];
        var current := "";
        for i := 0 to |parts|
          invariant Fold(parts[..i], sep, size, seps) == Ok(Buffer(chunks, current))
        {
          FoldNext(parts, i, sep, size, seps);
          var part := parts[i];
          if |current| + |part| + |sep| <= size {
            current := current + part + sep;
          } else {
            if current != "" {
              chunks := chunks + [RStripChars(current, sep)];
            }
            if |part| > size {
              var sub := SplitTextRecursively(part, size, seps[1..]);
              if sub.Err? {
                FoldErrSticks(parts, i + 1, sep, size, seps);
                return Err(sub.error);
              }
              chunks := chunks + sub.value;
              current := "";
            } else {
              current := part + sep;
            }
          }
        }
        FullPrefix(parts);
        if current != "" {
          chunks := chunks + [RStripChars(current, sep)];
        }
        return Ok(NonBlank(chunks));
      }
    }
    r := Windows.RangeWindows(text, size);
  }

  // ---------------------------------------------------------------------------
  // Properties

  predicate AllFit(cs: seq<string>, size: int) {
    forall c :: c in cs ==> |c| <= size
  }

  /** The buffer invariant: emitted chunks fit, and so does the current text once
      the separator's characters are stripped from its end. */
  predicate BufferFits(b: Buffer, sep: string, size: int) {
    AllFit(b.chunks, size) && (b.current == "" || |RStripChars(b.current, sep)| <= size)
  }

  lemma {:induction false} RStripCharsOfPartAndSep(part: string, sep: string)
    ensures |RStripChars(part + sep, sep)| <= |part|
  {
    RStripCharsAbsorbs(part, sep, sep);
  }

  /** Every chunk produced for an oversized text fits in `chunk_size`. */
  lemma {:induction false} SplitFits(text: string, size: int, seps: seq<string>)
    requires |text| > size
    ensures SplitSpec(text, size, seps).Ok? ==> AllFit(SplitSpec(text, size, seps).value, size)
    decreases |seps|, 1, 0
  {
    match FirstSeparator(seps, text)
    case None =>
      if size > 0 {
        Windows.FixedWindowsExact(text, size);
      }
    case Some(j) =>
      var sep := seps[j];
      if sep != "" {
        var parts := Split(text, sep);
        FoldFits(parts, sep, size, seps);
      }
  }

  lemma {:induction false} FoldFits(parts: seq<string>, sep: string, size: int, seps: seq<string>)
    requires |seps| > 0
    ensures Fold(parts, sep, size, seps).Ok? ==> BufferFits(Fold(parts, sep, size, seps).value, sep, size)
    decreases |seps|, 0, |parts|
  {
    if |parts| > 0 {
      var init := parts[..|parts| - 1];
      FoldFits(init, sep, size, seps);
      if Fold(init, sep, size, seps).Ok? {
        StepFits(Fold(init, sep, size, seps).value, parts[|parts| - 1], sep, size, seps);
      }
    }
  }

  lemma {:induction false} StepFits(b: Buffer, part: string, sep: string, size: int, seps: seq<string>)
    requires |seps| > 0 && BufferFits(b, sep, size)
    ensures Step(b, part, sep, size, seps).Ok? ==> BufferFits(Step(b, part, sep, size, seps).value, sep, size)
    decreases |seps|, 0, 0
  {
    if |b.current| + |part| + |sep| <= size {
    } else if |part| > size {
      SplitFits(part, size, seps[1..]);
    } else {
      RStripCharsOfPartAndSep(part, sep);
    }
  }

  /** While the empty separator is still in the list, the character-window fallback
      is never reached: some separator always occurs in the text. */
  lemma {:induction false} EmptySeparatorAlwaysFound(seps: seq<string>, text: string)
    requires "" in seps
    ensures FirstSeparator(seps, text).Some?
  {
    var k :| 0 <= k < |seps| && seps[k] == "";
    EmptyAlwaysContained(text);
  }

  /** From the engine's separator list, the chunks of an oversized text are never
      blank and never longer than `chunk_size`. */
  lemma {:induction false} SplitChunksShape(text: string, size: int)
    requires |text| > size
    ensures SplitSpec(text, size, Separators).Ok? ==>
      forall c :: c in SplitSpec(text, size, Separators).value ==> !IsBlank(c) && |c| <= size
  {
    SplitFits(text, size, Separators);
    EmptySeparatorAlwaysFound(Separators, text);
  }

  /** A part longer than `chunk_size` containing none of "\n\n", "\n", ". ", " "
      reaches the separator '' and `text.split('')` raises. */
  lemma {:induction false} UnsplittableRaises(text: string, size: int)
    requires |text| > size
    requires !Contains(text, "\n\n") && !Contains(text, "\n") && !Contains(text, ". ") && !Contains(text, " ")
    ensures SplitSpec(text, size, Separators) == Err(EmptySeparator)
  {
    EmptyAlwaysContained(text);
    assert FirstSeparator(Separators, text) == Some(4);
  }

  // ---------------------------------------------------------------------------
  // `_recursive_chunking`: paragraphs first, oversized paragraphs split recursively

  /** A buffer that is not blank is emitted stripped of surrounding whitespace. */
  function FlushStripped(b: Buffer): seq<string> {
    if !IsBlank(b.current) then b.chunks + [Strip(b.current)] else b.chunks
  }

  /** One round of the paragraph loop. */
  function ParagraphStep(b: Buffer, paragraph: string, size: int): Result<Buffer> {
    if |b.current| + |paragraph| <= size then Ok(Buffer(b.chunks, b.current + paragraph + "\n\n"))
    else
      var flushed := FlushStripped(b);
      if |paragraph| > size then
        match SplitSpec(paragraph, size, Separators)
        case Err(e) => Err(e)
        case Ok(sub) => Ok(Buffer(flushed + sub, ""))
      else Ok(Buffer(flushed, paragraph + "\n\n"))
  }

  /** The paragraph loop after the paragraphs seen so far. */
  function ParagraphFold(ps: seq<string>, size: int): Result<Buffer> {
    if |ps| == 0 then Ok(Buffer([], ""))
    else match ParagraphFold(ps[..|ps| - 1], size)
      case Err(e) => Err(e)
      case Ok(b) => ParagraphStep(b, ps[|ps| - 1], size)
  }

  /** The chunks of `_recursive_chunking` before the overlap is applied. */
  function ParagraphChunks(text: string, size: int): Result<seq<string>> {
    match ParagraphFold(Split(text, "\n\n"), size)
    case Err(e) => Err(e)
    case Ok(b) => Ok(FlushStripped(b))
  }

  /** The result of `_recursive_chunking(text, config)`. */
  function RecursiveChunks(text: string, size: int, overlap: int): Result<seq<string>> {
    match ParagraphChunks(text, size)
    case Err(e) => Err(e)
    case Ok(cs) => Ok(if overlap > 0 then Overlap.Overlapped(cs, overlap) else cs)
  }

  lemma {:induction false} ParagraphFoldErrSticks(ps: seq<string>, k: nat, size: int)
    requires k <= |ps|
    requires ParagraphFold(ps[..k], size).Err?
    ensures ParagraphFold(ps, size) == ParagraphFold(ps[..k], size)
    decreases |ps| - k
  {
    if k < |ps| {
      PrefixOfNext(ps, k);
      ParagraphFoldErrSticks(ps, k + 1, size);
    } else {
      FullPrefix(ps);
    }
  }

  lemma {:induction false} ParagraphFoldNext(ps: seq<string>, i: nat, size: int)
    requires i < |ps| && ParagraphFold(ps[..i], size).Ok?
    ensures ParagraphFold(ps[..i + 1], size) == ParagraphStep(ParagraphFold(ps[..i], size).value, ps[i], size)
  {
    PrefixOfNext(ps, i);
  }

  /** The loop of `_recursive_chunking`. */
  method RecursiveChunking(text: string, size: int, overlap: int) returns (r: Result<seq<string>>)
    ensures r == RecursiveChunks(text, size, overlap)
  {
    var paragraphs := Split(text, "\n\n");
    var chunks: seq<string> := [];
    var current := "";
    for i := 0 to |paragraphs|
      invariant ParagraphFold(paragraphs[..i], size) == Ok(Buffer(chunks, current))
    {
      ParagraphFoldNext(paragraphs, i, size);
      var before := Buffer(chunks, current);
      var paragraph := paragraphs[i];
      if |current| + |paragraph| <= size {
        current := current + paragraph + "\n\n";
      } else {
        chunks := FlushStripped(before);
        if |paragraph| > size {
          var sub := SplitTextRecursively(paragraph, size, Separators);
          if sub.Err? {
            ParagraphFoldErrSticks(paragraphs, i + 1, size);
            return Err(sub.error);
          }
          chunks := chunks + sub.value;
          current := "";
        } else {
          current := paragraph + "\n\n";
        }
      }
      assert ParagraphStep(before, paragraph, size) == Ok(Buffer(chunks, current));
    }
    FullPrefix(paragraphs);
    chunks := FlushStripped(Buffer(chunks, current));
    if overlap > 0 {
      chunks := Overlap.ApplyOverlap(chunks, overlap);
    }
    r := Ok(chunks);
  }

  /** Every chunk is non-blank and at most `chunk_size` characters long. */
  predicate GoodChunks(cs: seq<string>, size: int) {
    forall c :: c in cs ==> !IsBlank(c) && |c| <= size
  }

  /** The text being accumulated is empty or at most `chunk_size` characters
      followed by the two newlines of `'\n\n'`. */
  predicate GoodCurrent(current: string, size: int) {
    current == "" || (|current| >= 2 && |current| <= size + 2 && current[|current| - 2..] == "\n\n")
  }

  /** The paragraph buffer invariant. */
  predicate ParagraphBufferShape(b: Buffer, size: int) {
    GoodChunks(b.chunks, size) && GoodCurrent(b.current, size)
  }

  lemma {:induction false} GoodChunksAppend(a: seq<string>, b: seq<string>, size: int)
    requires GoodChunks(a, size) && GoodChunks(b, size)
    ensures GoodChunks(a + b, size)
  {
    forall c | c in a + b ensures !IsBlank(c) && |c| <= size {
      if c !in a { assert c in b; }
    }
  }

  lemma {:induction false} StripOfBuffered(current: string, size: int)
    requires |current| >= 2 && |current| <= size + 2 && current[|current| - 2..] == "\n\n"
    ensures |Strip(current)| <= size
  {
    assert IsSpace(current[|current| - 1]) && IsSpace(current[|current| - 2]);
    StripDropsTrailingSpace(current, 2);
  }

  lemma {:induction false} StripNotBlank(s: string)
    requires !IsBlank(s)
    ensures !IsBlank(Strip(s))
  {
    // Strip is idempotent on a stripped, non-empty string
    var t := Strip(s);
    assert t != "";
    assert !IsSpace(t[0]) && !IsSpace(t[|t| - 1]);
    BlankIff(t);
  }

  /** A non-blank buffer is emitted as a good chunk. */
  lemma {:induction false} StrippedCurrentGood(current: string, size: int)
    requires GoodCurrent(current, size) && !IsBlank(current)
    ensures GoodChunks([Strip(current)], size)
  {
    StripNotBlank(current);
    assert current != "";
    StripOfBuffered(current, size);
  }

  lemma {:induction false} FlushStrippedShape(b: Buffer, size: int)
    requires ParagraphBufferShape(b, size)
    ensures GoodChunks(FlushStripped(b), size)
  {
    if !IsBlank(b.current) {
      StrippedCurrentGood(b.current, size);
      GoodChunksAppend(b.chunks, [Strip(b.current)], size);
    }
  }

  lemma {:induction false} ParagraphFoldShape(ps: seq<string>, size: int)
    ensures ParagraphFold(ps, size).Ok? ==> ParagraphBufferShape(ParagraphFold(ps, size).value, size)
  {
    if |ps| > 0 {
      var init := ps[..|ps| - 1];
      ParagraphFoldShape(init, size);
      var prev := ParagraphFold(init, size);
      if prev.Ok? {
        ParagraphStepShape(prev.value, ps[|ps| - 1], size);
      }
    }
  }

  lemma {:induction false} ParagraphStepShape(b: Buffer, p: string, size: int)
    requires ParagraphBufferShape(b, size)
    ensures ParagraphStep(b, p, size).Ok? ==> ParagraphBufferShape(ParagraphStep(b, p, size).value, size)
  {
    var r := ParagraphStep(b, p, size);
    if |b.current| + |p| <= size {
      var c := b.current + p + "\n\n";
      assert r == Ok(Buffer(b.chunks, c));
      assert c[|c| - 2..] == "\n\n";
    } else {
      var flushed := FlushStripped(b);
      FlushStrippedShape(b, size);
      if |p| > size {
        var sub := SplitSpec(p, size, Separators);
        SplitChunksShape(p, size);
        if sub.Ok? {
          assert r == Ok(Buffer(flushed + sub.value, ""));
          assert GoodChunks(sub.value, size);
          GoodChunksAppend(flushed, sub.value, size);
        }
      } else {
        var c := p + "\n\n";
        assert r == Ok(Buffer(flushed, c));
        assert c[|c| - 2..] == "\n\n";
      }
    }
  }

  /** Before the overlap, every chunk of `_recursive_chunking` is non-blank and at
      most `chunk_size` characters long. */
  lemma {:induction false} ParagraphChunksShape(text: string, size: int)
    ensures ParagraphChunks(text, size).Ok? ==>
      forall c :: c in ParagraphChunks(text, size).value ==> !IsBlank(c) && |c| <= size
  {
    ParagraphFoldShape(Split(text, "\n\n"), size);
    var f := ParagraphFold(Split(text, "\n\n"), size);
    if f.Ok? {
      FlushStrippedShape(f.value, size);
      assert GoodChunks(FlushStripped(f.value), size);
    }
  }

  // ---------------------------------------------------------------------------
  // Content: only separator characters are lost

  /** Every character `text` shares with a separator of `seps` is whitespace or in
      `drop`: whichever of them the split uses, losing it loses nothing kept. */
  predicate SeparatorsDroppable(text: string, seps: seq<string>, drop: set<char>) {
    forall k, c :: 0 <= k < |seps| && c in seps[k] && c in text ==> IsSpace(c) || c in drop
  }

  /** The list still ends with the empty separator, so some separator is always found. */
  predicate EndsWithEmpty(seps: seq<string>) {
    |seps| > 0 && seps[|seps| - 1] == ""
  }

  lemma {:induction false} SeparatorsDroppableWithin(text: string, part: string, seps: seq<string>, drop: set<char>)
    requires SeparatorsDroppable(text, seps, drop)
    requires forall c :: c in part ==> c in text
    ensures SeparatorsDroppable(part, seps, drop)
  {
  }

  lemma {:induction false} SeparatorsDroppableRest(text: string, seps: seq<string>, drop: set<char>)
    requires |seps| > 0 && SeparatorsDroppable(text, seps, drop)
    ensures SeparatorsDroppable(text, seps[1..], drop)
  {
    forall k, c | 0 <= k < |seps[1..]| && c in seps[1..][k] && c in text ensures IsSpace(c) || c in drop {
      assert seps[1..][k] == seps[k + 1];
    }
  }

  /** The separator found in the text has only droppable characters. */
  lemma {:induction false} FoundSeparatorDroppable(text: string, seps: seq<string>, j: nat, drop: set<char>)
    requires j < |seps| && Contains(text, seps[j]) && SeparatorsDroppable(text, seps, drop)
    ensures Droppable(seps[j], drop)
  {
    ContainedWithin(text, seps[j]);
    forall k | 0 <= k < |seps[j]| ensures IsSpace(seps[j][k]) || seps[j][k] in drop {
      assert seps[j][k] in seps[j];
    }
  }

  lemma {:induction false} FlushKeeps(b: Buffer, sep: string, drop: set<char>)
    requires Droppable(sep, drop)
    ensures Kept(Concat(Flush(b, sep)), drop) == Kept(Concat(b.chunks), drop) + Kept(b.current, drop)
  {
    KeptAppend(Concat(b.chunks), b.current, drop);
    if b.current != "" {
      ConcatSnoc(b.chunks, RStripChars(b.current, sep));
      KeptAppend(Concat(b.chunks), RStripChars(b.current, sep), drop);
      RStripCharsKeeps(b.current, sep, drop);
    } else {
      assert Concat(b.chunks) + b.current == Concat(b.chunks);
    }
  }

  /** Dropping blank chunks drops nothing that is kept. */
  lemma {:induction false} NonBlankKeeps(cs: seq<string>, drop: set<char>)
    ensures Kept(Concat(NonBlank(cs)), drop) == Kept(Concat(cs), drop)
  {
    if |cs| > 0 {
      NonBlankKeeps(cs[1..], drop);
      KeptAppend(cs[0], Concat(cs[1..]), drop);
      if IsBlank(cs[0]) {
        BlankIff(cs[0]);
        KeptOfDroppable(cs[0], drop);
      } else {
        assert NonBlank(cs) == [cs[0]] + NonBlank(cs[1..]);
        assert Concat(NonBlank(cs)) == cs[0] + Concat(NonBlank(cs[1..]));
        KeptAppend(cs[0], Concat(NonBlank(cs[1..])), drop);
      }
    }
  }

  /** `_split_text_recursively` keeps every character of the text that is neither
      whitespace nor a droppable separator character, in order. */
  lemma {:induction false} SplitKeeps(text: string, size: int, seps: seq<string>, drop: set<char>)
    requires EndsWithEmpty(seps) && SeparatorsDroppable(text, seps, drop)
    ensures SplitSpec(text, size, seps).Ok? ==> Kept(Concat(SplitSpec(text, size, seps).value), drop) == Kept(text, drop)
    decreases |seps|, 1, 0
  {
    if |text| <= size {
      assert [text][1..] == [];
      assert Concat([text]) == text + "" == text;
    } else {
      EmptySeparatorAlwaysFound(seps, text);
      var j := FirstSeparator(seps, text).value;
      var sep := seps[j];
      if sep != "" {
        FoundSeparatorDroppable(text, seps, j, drop);
        var parts := Split(text, sep);
        SplitPartsWithin(text, sep);
        SeparatorsDroppableRest(text, seps, drop);
        forall p | p in parts ensures SeparatorsDroppable(p, seps[1..], drop) {
          SeparatorsDroppableWithin(text, p, seps[1..], drop);
        }
        FoldKeeps(parts, sep, size, seps, drop);
        var f := Fold(parts, sep, size, seps);
        if f.Ok? {
          NonBlankKeeps(Flush(f.value, sep), drop);
          FlushKeeps(f.value, sep, drop);
          KeptJoin(parts, sep, drop);
          SplitJoin(text, sep);
        }
      }
    }
  }

  lemma {:induction false} FoldKeeps(parts: seq<string>, sep: string, size: int, seps: seq<string>, drop: set<char>)
    requires EndsWithEmpty(seps) && |seps| > 1 && Droppable(sep, drop)
    requires forall p :: p in parts ==> SeparatorsDroppable(p, seps[1..], drop)
    ensures Fold(parts, sep, size, seps).Ok? ==>
      Kept(Concat(Fold(parts, sep, size, seps).value.chunks), drop) + Kept(Fold(parts, sep, size, seps).value.current, drop)
        == Kept(Concat(parts), drop)
    decreases |seps|, 0, |parts|
  {
    if |parts| > 0 {
      var init := parts[..|parts| - 1];
      var last := parts[|parts| - 1];
      FoldKeeps(init, sep, size, seps, drop);
      var f := Fold(init, sep, size, seps);
      if f.Ok? {
        StepKeeps(f.value, last, sep, size, seps, drop);
        FrontAndLast(parts);
        ConcatSnoc(init, last);
        KeptAppend(Concat(init), last, drop);
      }
    } else {
      assert Kept("", drop) + Kept("", drop) == "";
    }
  }

  lemma {:induction false} StepKeeps(b: Buffer, part: string, sep: string, size: int, seps: seq<string>, drop: set<char>)
    requires EndsWithEmpty(seps) && |seps| > 1 && Droppable(sep, drop)
    requires SeparatorsDroppable(part, seps[1..], drop)
    ensures Step(b, part, sep, size, seps).Ok? ==>
      Kept(Concat(Step(b, part, sep, size, seps).value.chunks), drop) + Kept(Step(b, part, sep, size, seps).value.current, drop)
        == Kept(Concat(b.chunks), drop) + Kept(b.current, drop) + Kept(part, drop)
    decreases |seps|, 0, 0
  {
    var r := Step(b, part, sep, size, seps);
    if |b.current| + |part| + |sep| <= size {
      assert r == Ok(Buffer(b.chunks, b.current + part + sep));
      AppendedSeparatorKeeps(b.current + part, sep, drop);
      KeptAppend(b.current, part, drop);
    } else {
      var flushed := Flush(b, sep);
      FlushKeeps(b, sep, drop);
      if |part| > size {
        SplitKeeps(part, size, seps[1..], drop);
        var sub := SplitSpec(part, size, seps[1..]);
        if sub.Ok? {
          assert r == Ok(Buffer(flushed + sub.value, ""));
          EmittedKeeps(flushed, sub.value, drop);
        }
      } else {
        assert r == Ok(Buffer(flushed, part + sep));
        AppendedSeparatorKeeps(part, sep, drop);
      }
    }
  }

  lemma {:induction false} AppendedSeparatorKeeps(s: string, sep: string, drop: set<char>)
    requires Droppable(sep, drop)
    ensures Kept(s + sep, drop) == Kept(s, drop)
  {
    KeptAppend(s, sep, drop);
    KeptOfDroppable(sep, drop);
  }

  lemma {:induction false} EmittedKeeps(flushed: seq<string>, sub: seq<string>, drop: set<char>)
    ensures Kept(Concat(flushed + sub), drop) + Kept("", drop) == Kept(Concat(flushed), drop) + Kept(Concat(sub), drop)
  {
    ConcatAppend(flushed, sub);
    KeptAppend(Concat(flushed), Concat(sub), drop);
  }

  /** A blank buffer holds nothing kept; a non-blank one is emitted stripped. */
  lemma {:induction false} FlushStrippedKeeps(b: Buffer, drop: set<char>)
    ensures Kept(Concat(FlushStripped(b)), drop) == Kept(Concat(b.chunks), drop) + Kept(b.current, drop)
  {
    if !IsBlank(b.current) {
      ConcatSnoc(b.chunks, Strip(b.current));
      KeptAppend(Concat(b.chunks), Strip(b.current), drop);
      StripKeeps(b.current, drop);
    } else {
      BlankIff(b.current);
      KeptOfDroppable(b.current, drop);
      assert Kept(Concat(b.chunks), drop) + "" == Kept(Concat(b.chunks), drop);
    }
  }

  lemma {:induction false} ParagraphStepKeeps(b: Buffer, paragraph: string, size: int, drop: set<char>)
    requires SeparatorsDroppable(paragraph, Separators, drop)
    ensures ParagraphStep(b, paragraph, size).Ok? ==>
      Kept(Concat(ParagraphStep(b, paragraph, size).value.chunks), drop) + Kept(ParagraphStep(b, paragraph, size).value.current, drop)
        == Kept(Concat(b.chunks), drop) + Kept(b.current, drop) + Kept(paragraph, drop)
  {
    var r := ParagraphStep(b, paragraph, size);
    assert Droppable("\n\n", drop) by { assert IsSpace('\n'); }
    if |b.current| + |paragraph| <= size {
      assert r == Ok(Buffer(b.chunks, b.current + paragraph + "\n\n"));
      AppendedSeparatorKeeps(b.current + paragraph, "\n\n", drop);
      KeptAppend(b.current, paragraph, drop);
    } else {
      var flushed := FlushStripped(b);
      FlushStrippedKeeps(b, drop);
      if |paragraph| > size {
        SplitKeeps(paragraph, size, Separators, drop);
        var sub := SplitSpec(paragraph, size, Separators);
        if sub.Ok? {
          assert r == Ok(Buffer(flushed + sub.value, ""));
          EmittedKeeps(flushed, sub.value, drop);
        }
      } else {
        assert r == Ok(Buffer(flushed, paragraph + "\n\n"));
        AppendedSeparatorKeeps(paragraph, "\n\n", drop);
      }
    }
  }

  lemma {:induction false} ParagraphFoldKeeps(ps: seq<string>, size: int, drop: set<char>)
    requires forall p :: p in ps ==> SeparatorsDroppable(p, Separators, drop)
    ensures ParagraphFold(ps, size).Ok? ==>
      Kept(Concat(ParagraphFold(ps, size).value.chunks), drop) + Kept(ParagraphFold(ps, size).value.current, drop)
        == Kept(Concat(ps), drop)
  {
    if |ps| > 0 {
      var init := ps[..|ps| - 1];
      var last := ps[|ps| - 1];
      ParagraphFoldKeeps(init, size, drop);
      var f := ParagraphFold(init, size);
      if f.Ok? {
        ParagraphStepKeeps(f.value, last, size, drop);
        FrontAndLast(ps);
        ConcatSnoc(init, last);
        KeptAppend(Concat(init), last, drop);
      }
    } else {
      assert Kept("", drop) + Kept("", drop) == "";
    }
  }

  /** The paragraph chunks keep every character of the text that is neither
      whitespace nor a droppable separator character, in order. */
  lemma {:induction false} ParagraphChunksKeep(text: string, size: int, drop: set<char>)
    requires SeparatorsDroppable(text, Separators, drop)
    ensures ParagraphChunks(text, size).Ok? ==> Kept(Concat(ParagraphChunks(text, size).value), drop) == Kept(text, drop)
  {
    var ps := Split(text, "\n\n");
    SplitPartsWithin(text, "\n\n");
    forall p | p in ps ensures SeparatorsDroppable(p, Separators, drop) {
      SeparatorsDroppableWithin(text, p, Separators, drop);
    }
    ParagraphFoldKeeps(ps, size, drop);
    var f := ParagraphFold(ps, size);
    if f.Ok? {
      FlushStrippedKeeps(f.value, drop);
      assert Droppable("\n\n", drop) by { assert IsSpace('\n'); }
      KeptJoin(ps, "\n\n", drop);
      SplitJoin(text, "\n\n");
    }
  }

  /** The separators are made of newlines, spaces and the full stop. */
  lemma {:induction false} SeparatorCharacters()
    ensures forall k, c :: 0 <= k < |Separators| && c in Separators[k] ==> c == '\n' || c == ' ' || c == '.'
  {
    forall k, c | 0 <= k < |Separators| && c in Separators[k] ensures c == '\n' || c == ' ' || c == '.' {
      assert k == 0 || k == 1 || k == 2 || k == 3 || k == 4;
    }
  }

  /** With `chunk_overlap <= 0`, recursive chunking loses only whitespace and full
      stops: the other characters of the chunks are those of the text, in order.
      Full stops may go, because `rstrip(". ")` also strips the text's own dots. */
  lemma {:induction false} RecursiveChunksKeepContent(text: string, size: int, overlap: int)
    requires overlap <= 0
    ensures RecursiveChunks(text, size, overlap).Ok? ==>
      Kept(Concat(RecursiveChunks(text, size, overlap).value), {'.'}) == Kept(text, {'.'})
  {
    SeparatorCharacters();
    ParagraphChunksKeep(text, size, {'.'});
  }

  /** With `chunk_overlap <= 0` and no full stop in the text, recursive chunking
      loses only whitespace. */
  lemma {:induction false} RecursiveChunksKeepNonSpace(text: string, size: int, overlap: int)
    requires overlap <= 0 && '.' !in text
    ensures RecursiveChunks(text, size, overlap).Ok? ==>
      NonSpace(Concat(RecursiveChunks(text, size, overlap).value)) == NonSpace(text)
  {
    SeparatorCharacters();
    assert IsSpace('\n') && IsSpace(' ');
    ParagraphChunksKeep(text, size, {});
    if RecursiveChunks(text, size, overlap).Ok? {
      KeptNothingDropped(Concat(RecursiveChunks(text, size, overlap).value));
      KeptNothingDropped(text);
    }
  }

  /** `"ab.. cd"` with `chunk_size` 4: the separator ". " splits it into "ab." and
      "cd", and `rstrip(". ")` strips the text's own dot as well. */
  lemma {:induction false} DotsLostExample()
    ensures SplitSpec("ab.. cd", 4, Separators) == Ok(["ab", "cd"])
  {
    FullStopFoundFirst();
    assert Separators[2] == ". ";
    SplitAtFullStop();
    FoldAtFullStop();
    FlushAtFullStop();
  }

  lemma {:induction false} FullStopFoundFirst()
    ensures FirstSeparator(Separators, "ab.. cd") == Some(2)
  {
    var t := "ab.. cd";
    AbsentLeader(t, "\n\n");
    AbsentLeader(t, "\n");
    assert OccursAt(t, ". ", 3);
    ContainsIff(t, ". ");
    assert FirstSeparator(Separators, t, 2) == Some(2);
  }

  lemma {:induction false} FlushAtFullStop()
    ensures NonBlank(Flush(Buffer(["ab"], "cd. "), ". ")) == ["ab", "cd"]
  {
    assert RStripChars("cd. ", ". ") == "cd" by {
      assert "cd. "[..3] == "cd." && "cd."[..2] == "cd";
    }
    assert Flush(Buffer(["ab"], "cd. "), ". ") == ["ab", "cd"];
    NonBlankOfTwo("ab", "cd");
  }

  lemma {:induction false} NonBlankOfTwo(a: string, b: string)
    requires |a| > 0 && |b| > 0 && !IsSpace(a[0]) && !IsSpace(b[0])
    ensures NonBlank([a, b]) == [a, b]
  {
    NotBlankAt(a, 0);
    NotBlankAt(b, 0);
    assert [a, b][1..] == [b] && [b][1..] == [];
  }

  lemma {:induction false} NotBlankAt(s: string, k: nat)
    requires k < |s| && !IsSpace(s[k])
    ensures !IsBlank(s)
  {
    BlankIff(s);
  }

  /** A string whose first character does not occur in `s` does not occur in `s`. */
  lemma {:induction false} AbsentLeader(s: string, sub: string)
    requires |sub| > 0 && sub[0] !in s
    ensures !Contains(s, sub)
  {
    ContainsIff(s, sub);
  }

  lemma {:induction false} SplitAtFullStop()
    ensures Split("ab.. cd", ". ") == ["ab.", "cd"]
  {
    var t := "ab.. cd";
    forall j | 0 <= j < 3 ensures !OccursAt(t, ". ", j) {
      MismatchAt(t, ". ", j, if j < 2 then 0 else 1);
    }
    assert OccursAt(t, ". ", 3);
    assert IndexOf(t, ". ") == 3;
    assert t[5..] == "cd" && t[..3] == "ab.";
    AbsentLeader("cd", ". ");
    assert Split("cd", ". ") == ["cd"];
  }

  /** `sub` does not occur at `j` when one of its characters differs there. */
  lemma {:induction false} MismatchAt(s: string, sub: string, j: nat, k: nat)
    requires k < |sub| && j + k < |s| && s[j + k] != sub[k]
    ensures !OccursAt(s, sub, j)
  {
  }

  lemma {:induction false} FoldAtFullStop()
    ensures Fold(["ab.", "cd"], ". ", 4, Separators) == Ok(Buffer(["ab"], "cd. "))
  {
    assert ["ab.", "cd"][..1] == ["ab."];
    FirstPartBuffered();
    SecondPartFlushes();
  }

  lemma {:induction false} FirstPartBuffered()
    ensures Fold(["ab."], ". ", 4, Separators) == Ok(Buffer([], "ab.. "))
  {
    assert ["ab."][..0] == [];
    assert "ab." + ". " == "ab.. ";
    assert Step(Buffer([], ""), "ab.", ". ", 4, Separators) == Ok(Buffer([], "ab.. "));
  }

  lemma {:induction false} SecondPartFlushes()
    ensures Step(Buffer([], "ab.. "), "cd", ". ", 4, Separators) == Ok(Buffer(["ab"], "cd. "))
  {
    var cur := "ab.. ";
    assert RStripChars(cur, ". ") == RStripChars("ab.", ". ") by { assert cur[..4] == "ab.." && "ab.."[..3] == "ab."; }
    assert RStripChars("ab.", ". ") == RStripChars("ab", ". ") by { assert "ab."[..2] == "ab"; }
    assert RStripChars(cur, ". ") == "ab";
    assert Flush(Buffer([], cur), ". ") == ["ab"];
    assert "cd" + ". " == "cd. ";
  }

  /** Three one-character paragraphs `a`, `b`, `c` separated by blank lines. */
  function ThreeParagraphs(a: char, b: char, c: char): string {
    [a] + "\n\n" + [b] + "\n\n" + [c]
  }

  lemma {:induction false} SplitThreeParagraphs(a: char, b: char, c: char)
    requires !IsSpace(a) && !IsSpace(b)
    ensures Split(ThreeParagraphs(a, b, c), "\n\n") == [[a], [b], [c]]
  {
    var s := ThreeParagraphs(a, b, c);
    assert !OccursAt(s, "\n\n", 0) by { assert s[0..2][0] == a; }
    assert OccursAt(s, "\n\n", 1);
    assert IndexOf(s, "\n\n") == 1;
    var t := s[3..];
    assert t == [b] + "\n\n" + [c];
    assert !OccursAt(t, "\n\n", 0) by { assert t[0..2][0] == b; }
    assert OccursAt(t, "\n\n", 1);
    assert IndexOf(t, "\n\n") == 1;
    var u := t[3..];
    assert u == [c];
    assert IndexOf(u, "\n\n") == -1;
    assert s[..1] == [a] && t[..1] == [b];
    assert Split(u, "\n\n") == [[c]];
    assert Split(t, "\n\n") == [[b]] + Split(u, "\n\n");
    assert Split(s, "\n\n") == [[a]] + Split(t, "\n\n");
  }

  lemma {:induction false} StripTrailingBreak(x: string)
    requires |x| > 0 && !IsSpace(x[0]) && !IsSpace(x[|x| - 1])
    ensures Strip(x + "\n\n") == x && !IsBlank(x + "\n\n")
  {
    var y := x + "\n\n";
    assert LStrip(y) == y;
    assert y[..|y| - 1] == x + "\n";
    assert (x + "\n")[..|x|] == x;
  }

  /** Short paragraphs are packed greedily: with room for two one-character
      paragraphs they share a chunk, the blank line between them kept. */
  lemma {:induction false} ParagraphPackingExample(a: char, b: char, c: char)
    requires !IsSpace(a) && !IsSpace(b) && !IsSpace(c)
    ensures ParagraphChunks(ThreeParagraphs(a, b, c), 4) == Ok([[a] + "\n\n" + [b], [c]])
  {
    SplitThreeParagraphs(a, b, c);
    FoldThree(a, b, c);
    FlushThree([a] + "\n\n" + [b], c);
  }

  lemma {:induction false} FoldThree(a: char, b: char, c: char)
    requires !IsSpace(a) && !IsSpace(b)
    ensures ParagraphFold([[a], [b], [c]], 4) == Ok(Buffer([[a] + "\n\n" + [b]], [c] + "\n\n"))
  {
    var ps := [[a], [b], [c]];
    assert ps[..2] == [[a], [b]];
    PackFirstTwo(a, b);
    PackThird([a] + "\n\n" + [b], c);
  }

  lemma {:induction false} FlushThree(ab: string, c: char)
    requires !IsSpace(c)
    ensures FlushStripped(Buffer([ab], [c] + "\n\n")) == [ab, [c]]
  {
    StripTrailingBreak([c]);
  }

  lemma {:induction false} PackFirstTwo(a: char, b: char)
    ensures ParagraphFold([[a], [b]], 4) == Ok(Buffer([], [a] + "\n\n" + [b] + "\n\n"))
  {
    assert [[a]][..0] == [] && [[a], [b]][..1] == [[a]];
    assert "" + [a] + "\n\n" == [a] + "\n\n";
    assert ParagraphFold([[a]], 4) == Ok(Buffer([], [a] + "\n\n"));
  }

  lemma {:induction false} PackThird(ab: string, c: char)
    requires |ab| == 4 && !IsSpace(ab[0]) && !IsSpace(ab[3])
    ensures ParagraphStep(Buffer([], ab + "\n\n"), [c], 4) == Ok(Buffer([ab], [c] + "\n\n"))
  {
    StripTrailingBreak(ab);
    assert FlushStripped(Buffer([], ab + "\n\n")) == [ab];
  }

  lemma {:induction false} SeparateFirstTwo(a: char, b: char)
    requires !IsSpace(a) && !IsSpace(b)
    ensures ParagraphFold([[a], [b]], 3) == Ok(Buffer([[a]], [b] + "\n\n"))
  {
    assert [[a]][..0] == [] && [[a], [b]][..1] == [[a]];
    assert "" + [a] + "\n\n" == [a] + "\n\n";
    assert ParagraphFold([[a]], 3) == Ok(Buffer([], [a] + "\n\n"));
    StripTrailingBreak([a]);
    assert |[a] + "\n\n"| == 3;
    assert FlushStripped(Buffer([], [a] + "\n\n")) == [[a]];
    assert ParagraphStep(Buffer([], [a] + "\n\n"), [b], 3) == Ok(Buffer([[a]], [b] + "\n\n"));
  }

  /** With room for only one of them, each paragraph is a chunk of its own. */
  lemma {:induction false} ParagraphSeparateExample(a: char, b: char, c: char)
    requires !IsSpace(a) && !IsSpace(b) && !IsSpace(c)
    ensures ParagraphChunks(ThreeParagraphs(a, b, c), 3) == Ok([[a], [b], [c]])
  {
    var ps := Split(ThreeParagraphs(a, b, c), "\n\n");
    SplitThreeParagraphs(a, b, c);
    assert ps[..2] == [[a], [b]] && ps[..3] == ps;
    SeparateFirstTwo(a, b);
    SeparateLast(a, b, c);
    assert ParagraphFold(ps, 3) == Ok(Buffer([[a], [b]], [c] + "\n\n"));
  }

  lemma {:induction false} SeparateLast(a: char, b: char, c: char)
    requires !IsSpace(b) && !IsSpace(c)
    ensures ParagraphStep(Buffer([[a]], [b] + "\n\n"), [c], 3) == Ok(Buffer([[a], [b]], [c] + "\n\n"))
    ensures FlushStripped(Buffer([[a], [b]], [c] + "\n\n")) == [[a], [b], [c]]
  {
    StripTrailingBreak([b]);
    StripTrailingBreak([c]);
    assert |[b] + "\n\n"| == 3;
    assert FlushStripped(Buffer([[a]], [b] + "\n\n")) == [[a], [b]];
  }
}
