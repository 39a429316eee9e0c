/** `_semantic_chunking` and `_is_section_header`: a line scanner that starts a new
    chunk at every section header and flushes a chunk that grows past
    `max_chunk_size`. The header regexes are written out as predicates over the
    characters of the stripped line. */
module Semantic {
  import opened PyStr
  import opened RecursiveSplit

  // ---------------------------------------------------------------------------
  // `_is_section_header`

  /** `^#{1,6}\s+`: one to six '#' followed by whitespace. */
  predicate MarkdownHeader(s: string) {
    exists k :: 1 <= k <= 6 && k < |s| && IsSpace(s[k]) && forall j :: 0 <= j < k ==> s[j] == '#'
  }

  /** `^\d+\.\s+[A-Z]`: digits, a period, whitespace, an ASCII capital. */
  predicate NumberedSection(s: string) {
    exists d, w :: 1 <= d && d + 1 < w < |s|
      && (forall j :: 0 <= j < d ==> IsAsciiDigit(s[j]))
      && s[d] == '.'
      && (forall j :: d < j < w ==> IsSpace(s[j]))
      && IsAsciiUpper(s[w])
  }

  /** `^[A-Z][A-Z\s]+:$`: a capital, at least one capital or whitespace, and a
      final colon. */
  predicate CapsLabel(s: string) {
    |s| >= 3 && IsAsciiUpper(s[0]) && s[|s| - 1] == ':'
    && forall j :: 1 <= j < |s| - 1 ==> IsAsciiUpper(s[j]) || IsSpace(s[j])
  }

  /** `^WORD\s+\d+`: the word, whitespace, a digit. */
  predicate WordNumber(s: string, word: string) {
    |word| < |s| && s[..|word|] == word
    && exists w :: |word| < w < |s| && IsAsciiDigit(s[w]) && forall j :: |word| <= j < w ==> IsSpace(s[j])
  }

  const Secao: string := "SE\U{c7}\U{c3}O"
  const Capitulo: string := "CAP\U{cd}TULO"

  /** The header test on an already stripped line. */
  predicate HeaderLine(s: string) {
    MarkdownHeader(s) || NumberedSection(s) || CapsLabel(s)
    || WordNumber(s, Secao) || WordNumber(s, Capitulo)
    || (|s| < 50 && IsUpper(s) && |s| > 5)
  }

  /** `_is_section_header(line)` */
  predicate IsSectionHeader(line: string) {
    HeaderLine(Strip(line))
  }

  /** Surrounding whitespace never changes whether a line is a header. */
  lemma {:induction false} HeaderIgnoresSurroundingSpace(line: string)
    ensures IsSectionHeader(Strip(line)) <==> IsSectionHeader(line)
  {
    StripIdempotent(line);
  }

  /** A markdown heading with up to six hashes is a header; seven hashes are not
      (unless the line passes another test). */
  lemma {:induction false} MarkdownHeaderExamples()
    ensures IsSectionHeader("## Intro")
    ensures !MarkdownHeader("####### x")
  {
    var s := "## Intro";
    assert MarkdownHeader(s) by {
      assert s[2] == ' ' && s[0] == '#' && s[1] == '#';
    }
    assert Strip(s) == s by {
      StripOfTrimmed(s);
    }
    SevenHashes();
  }

  lemma {:induction false} SevenHashes()
    ensures !MarkdownHeader("####### x")
  {
    var s := "####### x";
    forall k | 1 <= k <= 6 && k < |s| ensures !IsSpace(s[k]) {
      assert s[k] == '#';
    }
  }

  /** A numbered heading needs a capital after the whitespace. */
  lemma {:induction false} NumberedSectionExamples()
    ensures NumberedSection("12. Resumo")
    ensures !NumberedSection("12. resumo")
  {
    var s := "12. Resumo";
    assert 1 <= 2 && 2 + 1 < 4 < |s| && s[2] == '.' && IsSpace(s[3]) && IsAsciiUpper(s[4]);
    var t := "12. resumo";
    forall d, w | 1 <= d && d + 1 < w < |t|
        && (forall j :: 0 <= j < d ==> IsAsciiDigit(t[j])) && t[d] == '.'
        && (forall j :: d < j < w ==> IsSpace(t[j]))
      ensures !IsAsciiUpper(t[w])
    {
      assert IsAsciiDigit(t[0]) && IsAsciiDigit(t[1]) && !IsAsciiDigit(t[2]);
      assert d == 2;
      assert !IsSpace(t[4]);
      assert w == 4;
    }
  }

  /** A capitals label ending in a colon is a header. */
  lemma {:induction false} CapsLabelExample()
    ensures IsSectionHeader("FIM:")
  {
    var s := "FIM:";
    assert CapsLabel(s) by {
      assert IsAsciiUpper(s[0]) && IsAsciiUpper(s[1]) && IsAsciiUpper(s[2]) && s[3] == ':';
    }
    assert Strip(s) == s by {
      StripOfTrimmed(s);
    }
  }

  /** A chapter marker needs a digit after the whitespace. */
  lemma {:induction false} ChapterMarkerExample()
    ensures WordNumber(Capitulo + " 3", Capitulo)
  {
    var s := Capitulo + " 3";
    assert s[..|Capitulo|] == Capitulo;
    assert IsAsciiDigit(s[|Capitulo| + 1]);
  }

  // ---------------------------------------------------------------------------
  // `_semantic_chunking`

  /** One round of the line loop. */
  function SemanticStep(b: Buffer, line: string, maxSize: int): Buffer {
    if IsSectionHeader(line) then Buffer(FlushStripped(b), line + "\n")
    else
      var grown := b.current + line + "\n";
      if |grown| > maxSize then Buffer(b.chunks + [Strip(grown)], "")
      else Buffer(b.chunks, grown)
  }

  function SemanticFold(lines: seq<string>, maxSize: int): Buffer {
    if |lines| == 0 then Buffer([], "")
    else SemanticStep(SemanticFold(lines[..|lines| - 1], maxSize), lines[|lines| - 1], maxSize)
  }

  /** The result of `_semantic_chunking(text, config)`; `max_chunk_size` is the only
      configuration value it reads. */
  function SemanticChunks(text: string, maxSize: int): seq<string> {
    FlushStripped(SemanticFold(Split(text, "\n"), maxSize))
  }

  /** The loop of `_semantic_chunking`. */
  method SemanticChunking(text: string, maxSize: int) returns (chunks: seq<string>)
    ensures chunks == SemanticChunks(text, maxSize)
  {
    var lines := Split(text, "\n");
    chunks := [];
    var current := "";
    for i := 0 to |lines|
      invariant SemanticFold(lines[..i], maxSize) == Buffer(chunks, current)
    {
      PrefixOfNext(lines, i);
      var line := lines[i];
      if IsSectionHeader(line) {
        if !IsBlank(current) {
          chunks := chunks + [Strip(current)];
        }
        current := line + "\n";
      } else {
        current := current + line + "\n";
        if |current| > maxSize {
          chunks := chunks + [Strip(current)];
          current := "";
        }
      }
    }
    FullPrefix(lines);
    if !IsBlank(current) {
      chunks := chunks + [Strip(current)];
    }
  }

  // ---------------------------------------------------------------------------
  // Properties

  /** After a header line the buffer holds exactly that line; after any other line
      it is empty (just flushed) or within `max_chunk_size`. */
  lemma {:induction false} SemanticBufferAfterLine(lines: seq<string>, maxSize: int)
    requires |lines| > 0
    ensures var b := SemanticFold(lines, maxSize); var line := lines[|lines| - 1];
      && (IsSectionHeader(line) ==> b.current == line + "\n")
      && (!IsSectionHeader(line) ==> b.current == "" || |b.current| <= maxSize)
  {
  }

  lemma {:induction false} NonSpaceNewline(s: string)
    ensures NonSpace(s + "\n") == NonSpace(s)
  {
    NonSpaceAppend(s, "\n");
    assert NonSpace("\n") == "" by { assert IsSpace('\n'); }
    assert NonSpace(s) + "" == NonSpace(s);
  }

  /** What the flush keeps of the buffer's non-whitespace text. */
  lemma {:induction false} FlushStrippedKeeps(b: Buffer)
    ensures NonSpace(Concat(FlushStripped(b))) == NonSpace(Concat(b.chunks)) + NonSpace(b.current)
  {
    if !IsBlank(b.current) {
      ConcatSnoc(b.chunks, Strip(b.current));
      NonSpaceAppend(Concat(b.chunks), Strip(b.current));
      StripKeepsNonSpace(b.current);
    } else {
      BlankIff(b.current);
      NonSpaceOfBlank(b.current);
      assert NonSpace(Concat(b.chunks)) + "" == NonSpace(Concat(b.chunks));
    }
  }

  lemma {:induction false} HeaderBranchKeeps(b: Buffer, line: string)
    ensures NonSpace(Concat(FlushStripped(b))) + NonSpace(line + "\n")
      == NonSpace(Concat(b.chunks)) + NonSpace(b.current) + NonSpace(line)
  {
    NonSpaceNewline(line);
    FlushStrippedKeeps(b);
  }

  lemma {:induction false} NonSpaceGrown(current: string, line: string)
    ensures NonSpace(current + line + "\n") == NonSpace(current) + NonSpace(line)
  {
    NonSpaceAppend(current + line, "\n");
    assert NonSpace("\n") == "" by { assert IsSpace('\n'); }
    NonSpaceAppend(current, line);
    assert NonSpace(current + line) + "" == NonSpace(current + line);
  }

  lemma {:induction false} FlushGrownKeeps(chunks: seq<string>, grown: string)
    ensures NonSpace(Concat(chunks + [Strip(grown)])) == NonSpace(Concat(chunks)) + NonSpace(grown)
  {
    ConcatSnoc(chunks, Strip(grown));
    NonSpaceAppend(Concat(chunks), Strip(grown));
    StripKeepsNonSpace(grown);
  }

  lemma {:induction false} SemanticStepKeeps(b: Buffer, line: string, maxSize: int)
    ensures var b' := SemanticStep(b, line, maxSize);
      NonSpace(Concat(b'.chunks)) + NonSpace(b'.current)
        == NonSpace(Concat(b.chunks)) + NonSpace(b.current) + NonSpace(line)
  {
    var a := NonSpace(Concat(b.chunks));
    var c := NonSpace(b.current);
    var l := NonSpace(line);
    if IsSectionHeader(line) {
      HeaderBranchKeeps(b, line);
    } else {
      var grown := b.current + line + "\n";
      NonSpaceGrown(b.current, line);
      assert a + (c + l) == a + c + l;
      if |grown| > maxSize {
        FlushGrownKeeps(b.chunks, grown);
        assert NonSpace("") == "";
        assert a + (c + l) + "" == a + (c + l);
      }
    }
  }

  lemma {:induction false} SemanticFoldKeeps(lines: seq<string>, maxSize: int)
    ensures var b := SemanticFold(lines, maxSize);
      NonSpace(Concat(b.chunks)) + NonSpace(b.current) == NonSpace(Concat(lines))
  {
    if |lines| > 0 {
      var init := lines[..|lines| - 1];
      var line := lines[|lines| - 1];
      var before := SemanticFold(init, maxSize);
      var after := SemanticFold(lines, maxSize);
      assert after == SemanticStep(before, line, maxSize);
      SemanticFoldKeeps(init, maxSize);
      SemanticStepKeeps(before, line, maxSize);
      assert NonSpace(Concat(after.chunks)) + NonSpace(after.current)
          == NonSpace(Concat(init)) + NonSpace(line);
      assert Concat(lines) == Concat(init) + line by {
        FrontAndLast(lines);
        ConcatSnoc(init, line);
      }
      NonSpaceAppend(Concat(init), line);
    }
  }

  /** Semantic chunking loses and invents no text: the chunks, put together, hold
      exactly the non-whitespace characters of the input, in order. */
  lemma {:induction false} SemanticKeepsContent(text: string, maxSize: int)
    ensures NonSpace(Concat(SemanticChunks(text, maxSize))) == NonSpace(text)
  {
    var lines := Split(text, "\n");
    SemanticFoldKeeps(lines, maxSize);
    FlushStrippedKeeps(SemanticFold(lines, maxSize));
    SplitJoin(text, "\n");
    NonSpaceJoinNewline(lines);
  }

  /** Unlike the other flushes, the size flush does not test for blankness: blank
      lines alone can produce an empty chunk. */
  lemma {:induction false} SizeFlushMayEmitEmpty()
    ensures SemanticChunks("\n\n", 1) == [""]
  {
    SplitTwoNewlines();
    FoldBlankLines();
    assert IsBlank("\n");
  }

  lemma {:induction false} SplitTwoNewlines()
    ensures Split("\n\n", "\n") == ["", "", ""]
  {
    var s := "\n\n";
    assert OccursAt(s, "\n", 0);
    assert IndexOf(s, "\n") == 0;
    var t := s[1..];
    assert OccursAt(t, "\n", 0);
    assert IndexOf(t, "\n") == 0;
    assert t[1..] == "";
    assert Split("", "\n") == [""];
  }

  lemma {:induction false} FoldBlankLines()
    ensures SemanticFold(["", "", ""], 1) == Buffer([""], "\n")
  {
    var lines := ["", "", ""];
    assert lines[..2] == ["", ""] && ["", ""][..1] == [""] && [""][..0] == [];
    BlankLineSteps();
    assert SemanticFold([""], 1) == Buffer([], "\n");
    assert SemanticFold(["", ""], 1) == Buffer([""], "");
  }

  /** The three rounds on blank lines with `max_chunk_size` 1: grow, flush by
      size, grow. */
  lemma {:induction false} BlankLineSteps()
    ensures SemanticStep(Buffer([], ""), "", 1) == Buffer([], "\n")
    ensures SemanticStep(Buffer([], "\n"), "", 1) == Buffer([""], "")
    ensures SemanticStep(Buffer([""], ""), "", 1) == Buffer([""], "\n")
  {
    BlankLineNotHeader();
    assert "" + "" + "\n" == "\n";
    assert "\n" + "" + "\n" == "\n\n";
    assert Strip("\n\n") == "" by {
      BlankIff("\n\n");
    }
  }

  lemma {:induction false} BlankLineNotHeader()
    ensures !IsSectionHeader("")
  {
    assert Strip("") == "";
  }
}
