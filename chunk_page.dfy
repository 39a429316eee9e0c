/** `_page_chunking`: split the text on the first page-marker pattern that occurs in
    it, strip the pages and drop blank ones; without markers (or when every page is
    blank) fall back to fixed windows of `chunk_size` characters. The marker regexes
    are written out as a matcher over characters. */
module Pages {
  import opened Wrappers
  import opened PyStr
  import Windows

  /** A pattern `prefix`, then (when `number`) one or more digits, then `suffix`. */
  datatype Marker = Marker(prefix: string, number: bool, suffix: string)

  /** `--- Página \d+ ---`, `\[Página \d+\]`, `Page \d+` and `\f`, in the order they
      are tried. */
  const Markers: seq<Marker> := [
    Marker("--- P\U{e1}gina ", true, " ---"),
    Marker("[P\U{e1}gina ", true, "]"),
    Marker("Page ", true, ""),
    Marker("\U{0c}", false, "")
  ]

  /** The number of consecutive digits of `text` from position `i`. */
  function DigitRun(text: string, i: nat): (d: nat)
    requires i <= |text|
    decreases |text| - i
    ensures i + d <= |text|
    ensures forall j :: i <= j < i + d ==> IsAsciiDigit(text[j])
    ensures i + d < |text| ==> !IsAsciiDigit(text[i + d])
  {
    if i < |text| && IsAsciiDigit(text[i]) then 1 + DigitRun(text, i + 1) else 0
  }

  /** The length of the match of `m` starting at `i`, if there is one. `\d+` is
      greedy, and since no suffix starts with a digit only the longest run of
      digits can be followed by the suffix. */
  function MatchAt(text: string, i: nat, m: Marker): (r: Option<nat>)
    requires i <= |text|
    ensures r.Some? ==> |m.prefix| <= r.value && i + r.value <= |text|
    ensures r.Some? ==> text[i..i + |m.prefix|] == m.prefix
  {
    if i + |m.prefix| > |text| || text[i..i + |m.prefix|] != m.prefix then None
    else
      var d := if m.number then DigitRun(text, i + |m.prefix|) else 0;
      var j := i + |m.prefix| + d;
      if m.number && d == 0 then None
      else if j + |m.suffix| <= |text| && text[j..j + |m.suffix|] == m.suffix then Some(|m.prefix| + d + |m.suffix|)
      else None
  }

  /** The leftmost match of `m` at or after `from` (`re.search`). */
  function FirstMatch(text: string, m: Marker, from: nat): (r: Option<nat>)
    requires from <= |text|
    decreases |text| - from
    ensures r.Some? ==> from <= r.value <= |text| && MatchAt(text, r.value, m).Some?
    ensures forall i :: from <= i < (if r.Some? then r.value else |text| + 1) ==> MatchAt(text, i, m).None?
  {
    if MatchAt(text, from, m).Some? then Some(from)
    else if from == |text| then None
    else FirstMatch(text, m, from + 1)
  }

  /** `re.split(pattern, text)` from position `from`: the text between successive
      leftmost, non-overlapping matches. */
  function RegexSplit(text: string, m: Marker, from: nat): (pages: seq<string>)
    requires |m.prefix| > 0 && from <= |text|
    decreases |text| - from
    ensures |pages| >= 1
  {
    match FirstMatch(text, m, from)
    case None => [text[from..]]
    case Some(i) => [text[from..i]] + RegexSplit(text, m, i + MatchAt(text, i, m).value)
  }

  /** The index of the first marker that occurs in `text`. */
  function FirstMarker(text: string, k: nat := 0): (r: Option<nat>)
    requires k <= |Markers|
    decreases |Markers| - k
    ensures r.Some? ==> k <= r.value < |Markers| && FirstMatch(text, Markers[r.value], 0).Some?
    ensures forall j :: k <= j < (if r.Some? then r.value else |Markers|) ==> FirstMatch(text, Markers[j], 0).None?
  {
    if k == |Markers| then None
    else if FirstMatch(text, Markers[k], 0).Some? then Some(k)
    else FirstMarker(text, k + 1)
  }

  /** Every page stripped of surrounding whitespace, the blank ones dropped. */
  function StrippedPages(pages: seq<string>): (r: seq<string>)
    ensures |r| <= |pages|
  {
    if |pages| == 0 then []
    else if IsBlank(pages[0]) then StrippedPages(pages[1..])
    else [Strip(pages[0])] + StrippedPages(pages[1..])
  }

  /** The result of `_page_chunking(text, config)` with `chunk_size` read from the
      configuration (2000 when absent). */
  function PageChunks(text: string, size: int): Result<seq<string>> {
    var chunks := match FirstMarker(text)
      case None => []
      case Some(k) => StrippedPages(RegexSplit(text, Markers[k], 0));
    if chunks == [] then Windows.RangeWindows(text, size) else Ok(chunks)
  }

  // ---------------------------------------------------------------------------
  // Properties

  /** `p` occurs somewhere in `text`. */
  ghost predicate OccursIn(p: string, text: string) {
    exists i :: OccursAt(text, p, i)
  }

  lemma {:induction false} RegexSplitSlices(text: string, m: Marker, from: nat)
    requires |m.prefix| > 0 && from <= |text|
    ensures forall p :: p in RegexSplit(text, m, from) ==> OccursIn(p, text)
    decreases |text| - from
  {
    match FirstMatch(text, m, from)
    case None =>
      assert OccursAt(text, text[from..], from);
    case Some(i) =>
      RegexSplitSlices(text, m, i + MatchAt(text, i, m).value);
      assert OccursAt(text, text[from..i], from);
  }

  /** The stripped text is the slice of `s` that starts after the leading
      whitespace. */
  lemma {:induction false} StripOffset(s: string) returns (x: nat)
    ensures x + |Strip(s)| <= |s| && s[x..x + |Strip(s)|] == Strip(s)
  {
    var l := LStrip(s);
    var r := RStrip(l);
    x := |s| - |l|;
    PrefixOfSuffix(s, x, |r|);
  }

  /** Stripping a piece of the text leaves a piece of the text. */
  lemma {:induction false} StrippedOccurs(text: string, p: string, a: int)
    requires OccursAt(text, p, a)
    ensures OccursIn(Strip(p), text)
  {
    var x := StripOffset(p);
    var q := Strip(p);
    PartAt(text, p, q, a, x, x + |q|);
  }

  lemma {:induction false} PartAt(text: string, p: string, q: string, a: int, x: nat, y: nat)
    requires OccursAt(text, p, a)
    requires x <= y <= |p| && p[x..y] == q
    ensures OccursAt(text, q, a + x)
  {
    SubSlice(text, a, a + |p|, x, y);
  }

  lemma {:induction false} SubSlice(text: string, a: nat, b: nat, x: nat, y: nat)
    requires a <= b <= |text| && x <= y <= b - a
    ensures text[a..b][x..y] == text[a + x..a + y]
  {
    var lhs := text[a..b][x..y];
    var rhs := text[a + x..a + y];
    assert |lhs| == |rhs|;
    forall k | 0 <= k < |lhs| ensures lhs[k] == rhs[k] {
      assert lhs[k] == text[a..b][x + k] == text[a + x + k];
    }
  }

  lemma {:induction false} StrippedPagesShape(pages: seq<string>, text: string)
    requires forall p :: p in pages ==> OccursIn(p, text)
    ensures forall c :: c in StrippedPages(pages) ==> !IsBlank(c) && Strip(c) == c && OccursIn(c, text)
  {
    if |pages| > 0 {
      StrippedPagesShape(pages[1..], text);
      if !IsBlank(pages[0]) {
        StripIdempotent(pages[0]);
        assert OccursIn(pages[0], text) by {
          assert pages[0] in pages;
        }
        var a :| OccursAt(text, pages[0], a);
        StrippedOccurs(text, pages[0], a);
      }
    }
  }

  /** Page chunks are either stripped, non-blank pieces of the text (`c in text`)
      found between markers, or (in the fallback) fixed windows that reassemble the text exactly. */
  lemma {:induction false} PageChunksShape(text: string, size: int)
    requires size > 0
    ensures var r := PageChunks(text, size);
      && r.Ok?
      && ((FirstMarker(text).Some? && r.value != [] &&
           forall c :: c in r.value ==> !IsBlank(c) && Strip(c) == c && Contains(text, c))
          || (Concat(r.value) == text && forall c :: c in r.value ==> 0 < |c| <= size))
  {
    match FirstMarker(text)
    case None =>
      Windows.FixedWindowsExact(text, size);
    case Some(k) =>
      var pages := RegexSplit(text, Markers[k], 0);
      RegexSplitSlices(text, Markers[k], 0);
      StrippedPagesShape(pages, text);
      if StrippedPages(pages) == [] {
        Windows.FixedWindowsExact(text, size);
      } else {
        forall c | c in StrippedPages(pages) ensures Contains(text, c) {
          ContainsIff(text, c);
        }
      }
  }

  /** A `chunk_size` of zero in the configuration makes the fallback's `range` raise. */
  lemma {:induction false} ZeroSizeFallbackRaises(text: string)
    requires FirstMarker(text).None?
    ensures PageChunks(text, 0) == Err(ZeroRangeStep)
  {
  }

  /** A form feed between two pages splits them. */
  lemma {:induction false} FormFeedExample(a: char, b: char, size: int)
    requires !IsSpace(a) && !IsSpace(b)
    ensures PageChunks([a, '\U{0c}', b], size) == Ok([[a], [b]])
  {
    var s := [a, '\U{0c}', b];
    var ff := Markers[3];
    assert MatchAt(s, 0, ff).None? by { assert s[0..1] == [a]; }
    assert MatchAt(s, 1, ff) == Some(1) by { assert s[1..2] == "\U{0c}"; assert s[2..2] == ""; }
    assert FirstMatch(s, ff, 0) == Some(1);
    assert MatchAt(s, 2, ff).None? by { assert s[2..3] == [b]; }
    assert MatchAt(s, 3, ff).None?;
    assert FirstMatch(s, ff, 2).None?;
    assert RegexSplit(s, ff, 2) == [[b]] by { assert s[2..] == [b]; }
    assert RegexSplit(s, ff, 0) == [[a], [b]] by { assert s[0..1] == [a]; }
    assert FirstMarker(s) == Some(3);
    StripOfTrimmed([a]);
    StripOfTrimmed([b]);
    assert StrippedPages([[b]]) == [[b]];
    assert StrippedPages([[a], [b]]) == [[a], [b]] by { assert [[a], [b]][1..] == [[b]]; }
  }
}
