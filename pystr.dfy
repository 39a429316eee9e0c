/** The Python string and slicing semantics the core relies on:
    `in`, `str.split(sep)`, `str.split()`, `str.strip()`, `str.rstrip(chars)`,
    `str.lower()`, `str.isupper()`, `s[i:j]` with negative indices, and `str(n)`. */
module PyStr {

  /** `str.isspace()` for one character: the Unicode whitespace set Python uses. */
  predicate IsSpace(c: char) {
    c == ' ' || ('\t' <= c <= '\r') || ('\U{1c}' <= c <= '\U{1f}')
    || c == '\U{85}' || c == '\U{a0}' || c == '\U{1680}'
    || ('\U{2000}' <= c <= '\U{200a}') || c == '\U{2028}' || c == '\U{2029}'
    || c == '\U{202f}' || c == '\U{205f}' || c == '\U{3000}'
  }

  predicate IsAsciiDigit(c: char) { '0' <= c <= '9' }

  predicate IsAsciiUpper(c: char) { 'A' <= c <= 'Z' }

  // ---------------------------------------------------------------------------
  // Substring search: `sub in s`

  predicate OccursAt(s: string, sub: string, i: int) {
    0 <= i && i + |sub| <= |s| && s[i..i + |sub|] == sub
  }

  /** The first position at or after `from` where `sub` occurs, or -1. */
  function FindFrom(s: string, sub: string, from: nat): (r: int)
    decreases |s| - from
    ensures r == -1 || (from <= r && OccursAt(s, sub, r))
    ensures forall j :: from <= j < (if r < 0 then |s| + 1 else r) ==> !OccursAt(s, sub, j)
  {
    if from + |sub| > |s| then -1
    else if s[from..from + |sub|] == sub then from
    else FindFrom(s, sub, from + 1)
  }

  function IndexOf(s: string, sub: string): (r: int)
    ensures r == -1 || OccursAt(s, sub, r)
    ensures forall j :: 0 <= j < (if r < 0 then |s| + 1 else r) ==> !OccursAt(s, sub, j)
  {
    FindFrom(s, sub, 0)
  }

  /** Python's `sub in s`. */
  predicate Contains(s: string, sub: string) {
    IndexOf(s, sub) >= 0
  }

  lemma {:induction false} ContainsIff(s: string, sub: string)
    ensures Contains(s, sub) <==> exists i :: OccursAt(s, sub, i)
  {
    if exists i :: OccursAt(s, sub, i) {
      var i :| OccursAt(s, sub, i);
      assert i < |s| + 1;
    }
  }

  lemma {:induction false} EmptyAlwaysContained(s: string)
    ensures Contains(s, "")
  {
    assert OccursAt(s, "", 0);
  }

  // ---------------------------------------------------------------------------
  // `s.split(sep)` with a non-empty separator, and its inverse `sep.join(parts)`

  function Split(s: string, sep: string): (parts: seq<string>)
    requires |sep| > 0
    decreases |s|
    ensures |parts| >= 1
  {
    var i := IndexOf(s, sep);
    if i < 0 then [s] else [s[..i]] + Split(s[i + |sep|..], sep)
  }

  function Join(parts: seq<string>, sep: string): string {
    if |parts| == 0 then ""
    else if |parts| == 1 then parts[0]
    else parts[0] + sep + Join(parts[1..], sep)
  }

  /** Splitting loses nothing: joining the parts with the separator gives the text back. */
  lemma {:induction false} SplitJoin(s: string, sep: string)
    requires |sep| > 0
    ensures Join(Split(s, sep), sep) == s
    decreases |s|
  {
    var i := IndexOf(s, sep);
    var ps := Split(s, sep);
    if i < 0 {
      assert ps == [s];
    } else {
      var rest := s[i + |sep|..];
      var tail := Split(rest, sep);
      assert ps == [s[..i]] + tail;
      SplitJoin(rest, sep);
      assert ps[1..] == tail;
      assert Join(ps, sep) == s[..i] + sep + Join(tail, sep);
      assert s[i..i + |sep|] == sep;
      assert s == s[..i] + s[i..i + |sep|] + rest;
    }
  }

  /** No part produced by a split contains the separator. */
  lemma {:induction false} SplitPartsFree(s: string, sep: string)
    requires |sep| > 0
    ensures forall p :: p in Split(s, sep) ==> !Contains(p, sep)
    decreases |s|
  {
    var i := IndexOf(s, sep);
    if i < 0 {
      assert Split(s, sep) == [s];
    } else {
      var rest := s[i + |sep|..];
      SplitPartsFree(rest, sep);
      HeadFree(s, sep, i);
      var parts := Split(s, sep);
      assert parts == [s[..i]] + Split(rest, sep);
      forall p | p in parts ensures !Contains(p, sep) {
        if p != s[..i] { assert p in Split(rest, sep); }
      }
    }
  }

  /** The text before the first occurrence does not contain the separator. */
  lemma {:induction false} HeadFree(s: string, sep: string, i: int)
    requires |sep| > 0 && i == IndexOf(s, sep) && i >= 0
    ensures !Contains(s[..i], sep)
  {
    var head := s[..i];
    forall k | 0 <= k && k + |sep| <= |head| ensures !OccursAt(head, sep, k) {
      assert head[k..k + |sep|] == s[k..k + |sep|];
      assert !OccursAt(s, sep, k);
    }
    ContainsIff(head, sep);
  }

  // ---------------------------------------------------------------------------
  // `s.strip()` and blankness

  function LStrip(s: string): (r: string)
    ensures |r| <= |s| && r == s[|s| - |r|..]
    ensures |r| > 0 ==> !IsSpace(r[0])
    ensures forall k :: 0 <= k < |s| - |r| ==> IsSpace(s[k])
  {
    if |s| > 0 && IsSpace(s[0]) then LStrip(s[1..]) else s
  }

  function RStrip(s: string): (r: string)
    ensures |r| <= |s| && r == s[..|r|]
    ensures |r| > 0 ==> !IsSpace(r[|r| - 1])
    ensures forall k :: |r| <= k < |s| ==> IsSpace(s[k])
  {
    if |s| > 0 && IsSpace(s[|s| - 1]) then RStrip(s[..|s| - 1]) else s
  }

  /** Python's `s.strip()`. */
  function Strip(s: string): string {
    RStrip(LStrip(s))
  }

  /** `not s.strip()`: the string holds only whitespace. */
  predicate IsBlank(s: string) {
    Strip(s) == ""
  }

  lemma {:induction false} BlankIff(s: string)
    ensures IsBlank(s) <==> forall k :: 0 <= k < |s| ==> IsSpace(s[k])
  {
    var l := LStrip(s);
    if !IsBlank(s) && |l| > 0 {
      assert !IsSpace(l[0]) && l[0] == s[|s| - |l|];
    }
    if forall k :: 0 <= k < |s| ==> IsSpace(s[k]) {
      if |l| > 0 {
        assert l[0] == s[|s| - |l|];
      }
    }
  }

  /** The non-whitespace characters of a string, in order. */
  function NonSpace(s: string): (r: string)
    ensures |r| <= |s|
  {
    if |s| == 0 then ""
    else if IsSpace(s[0]) then NonSpace(s[1..])
    else [s[0]] + NonSpace(s[1..])
  }

  lemma {:induction false} NonSpaceAppend(a: string, b: string)
    ensures NonSpace(a + b) == NonSpace(a) + NonSpace(b)
    decreases |a|
  {
    if |a| > 0 {
      assert (a + b)[1..] == a[1..] + b;
      NonSpaceAppend(a[1..], b);
    } else {
      assert a + b == b;
    }
  }

  lemma {:induction false} NonSpaceOfBlank(s: string)
    requires forall k :: 0 <= k < |s| ==> IsSpace(s[k])
    ensures NonSpace(s) == ""
    decreases |s|
  {
    if |s| > 0 { NonSpaceOfBlank(s[1..]); }
  }

  /** Stripping removes only whitespace. */
  lemma {:induction false} StripKeepsNonSpace(s: string)
    ensures NonSpace(Strip(s)) == NonSpace(s)
  {
    StripKeeps(s, {});
    KeptNothingDropped(Strip(s));
    KeptNothingDropped(s);
  }

  /** A string ending in `n` whitespace characters loses at least them to `strip()`. */
  lemma {:induction false} StripDropsTrailingSpace(s: string, n: nat)
    requires n <= |s|
    requires forall k :: |s| - n <= k < |s| ==> IsSpace(s[k])
    ensures |Strip(s)| + n <= |s|
  {
    var l := LStrip(s);
    var r := RStrip(l);
    if |r| > 0 {
      // the last character kept is not whitespace, so it lies before the n trailing ones
      var p := |s| - |l| + |r| - 1;
      assert r[|r| - 1] == l[|r| - 1] == s[p];
      assert !IsSpace(s[p]);
    }
  }

  /** A string with no whitespace at either end is its own `strip()`. */
  lemma {:induction false} StripOfTrimmed(s: string)
    requires |s| > 0 ==> !IsSpace(s[0]) && !IsSpace(s[|s| - 1])
    ensures Strip(s) == s
  {
  }

  /** `s.strip().strip() == s.strip()` */
  lemma {:induction false} StripIdempotent(s: string)
    ensures Strip(Strip(s)) == Strip(s)
  {
    var l := LStrip(s);
    var r := RStrip(l);
    if |r| > 0 {
      assert r[0] == l[0];
    }
    StripOfTrimmed(r);
  }

  /** Joining lines with newlines adds only whitespace. */
  lemma {:induction false} NonSpaceJoinNewline(parts: seq<string>)
    ensures NonSpace(Join(parts, "\n")) == NonSpace(Concat(parts))
  {
    if |parts| == 1 {
      assert Concat(parts) == parts[0] + Concat(parts[1..]);
      assert parts[0] + "" == parts[0];
    } else if |parts| > 1 {
      NonSpaceJoinNewline(parts[1..]);
      NonSpaceAppend(parts[0] + "\n", Join(parts[1..], "\n"));
      NonSpaceAppend(parts[0], "\n");
      assert NonSpace("\n") == "" by { assert IsSpace('\n'); }
      NonSpaceAppend(parts[0], Concat(parts[1..]));
    }
  }

  /** The characters of `s` that are neither whitespace nor in `drop`, in order:
      what a text keeps when only whitespace and the characters of `drop` may be lost. */
  function Kept(s: string, drop: set<char>): (r: string)
    ensures |r| <= |s|
  {
    if |s| == 0 then ""
    else if IsSpace(s[0]) || s[0] in drop then Kept(s[1..], drop)
    else [s[0]] + Kept(s[1..], drop)
  }

  /** With nothing dropped besides whitespace, `Kept` is `NonSpace`. */
  lemma {:induction false} KeptNothingDropped(s: string)
    ensures Kept(s, {}) == NonSpace(s)
    decreases |s|
  {
    if |s| > 0 { KeptNothingDropped(s[1..]); }
  }

  lemma {:induction false} KeptAppend(a: string, b: string, drop: set<char>)
    ensures Kept(a + b, drop) == Kept(a, drop) + Kept(b, drop)
    decreases |a|
  {
    if |a| > 0 {
      assert (a + b)[1..] == a[1..] + b;
      KeptAppend(a[1..], b, drop);
    } else {
      assert a + b == b;
    }
  }

  /** Every character of `s` is whitespace or in `drop`. */
  predicate Droppable(s: string, drop: set<char>) {
    forall k :: 0 <= k < |s| ==> IsSpace(s[k]) || s[k] in drop
  }

  lemma {:induction false} KeptOfDroppable(s: string, drop: set<char>)
    requires Droppable(s, drop)
    ensures Kept(s, drop) == ""
    decreases |s|
  {
    if |s| > 0 { KeptOfDroppable(s[1..], drop); }
  }

  /** Stripping removes only whitespace, whatever else is dropped. */
  lemma {:induction false} StripKeeps(s: string, drop: set<char>)
    ensures Kept(Strip(s), drop) == Kept(s, drop)
  {
    LStripKeeps(s, drop);
    RStripKeeps(LStrip(s), drop);
  }

  lemma {:induction false} LStripKeeps(s: string, drop: set<char>)
    ensures Kept(LStrip(s), drop) == Kept(s, drop)
  {
    var l := LStrip(s);
    var front := s[..|s| - |l|];
    assert s == front + l;
    KeptAppend(front, l, drop);
    forall k | 0 <= k < |front| ensures IsSpace(front[k]) {
      assert front[k] == s[k];
    }
    KeptOfDroppable(front, drop);
  }

  lemma {:induction false} RStripKeeps(l: string, drop: set<char>)
    ensures Kept(RStrip(l), drop) == Kept(l, drop)
  {
    var r := RStrip(l);
    var back := l[|r|..];
    assert l == r + back;
    KeptAppend(r, back, drop);
    forall k | 0 <= k < |back| ensures IsSpace(back[k]) {
      assert back[k] == l[|r| + k];
    }
    KeptOfDroppable(back, drop);
  }

  /** Joining with a separator of droppable characters adds nothing that is kept. */
  lemma {:induction false} KeptJoin(parts: seq<string>, sep: string, drop: set<char>)
    requires Droppable(sep, drop)
    ensures Kept(Join(parts, sep), drop) == Kept(Concat(parts), drop)
  {
    if |parts| == 1 {
      assert Concat(parts) == parts[0] + Concat(parts[1..]);
      assert parts[0] + "" == parts[0];
    } else if |parts| > 1 {
      KeptJoin(parts[1..], sep, drop);
      KeptAppend(parts[0] + sep, Join(parts[1..], sep), drop);
      KeptAppend(parts[0], sep, drop);
      KeptOfDroppable(sep, drop);
      KeptAppend(parts[0], Concat(parts[1..]), drop);
    }
  }

  /** Every character of a part of `s.split(sep)` is a character of `s`. */
  lemma {:induction false} SplitPartsWithin(s: string, sep: string)
    requires |sep| > 0
    ensures forall p, c :: p in Split(s, sep) && c in p ==> c in s
    decreases |s|
  {
    var i := IndexOf(s, sep);
    if i < 0 {
      assert Split(s, sep) == [s];
    } else {
      var rest := s[i + |sep|..];
      SplitPartsWithin(rest, sep);
      assert Split(s, sep) == [s[..i]] + Split(rest, sep);
      forall p, c | p in Split(s, sep) && c in p ensures c in s {
        if p == s[..i] {
          var k :| 0 <= k < |p| && p[k] == c;
          assert s[k] == c;
        } else {
          assert c in rest;
          var k :| 0 <= k < |rest| && rest[k] == c;
          assert s[i + |sep| + k] == c;
        }
      }
    }
  }

  /** Every character of a substring that occurs in `s` is a character of `s`. */
  lemma {:induction false} ContainedWithin(s: string, sub: string)
    requires Contains(s, sub)
    ensures forall c :: c in sub ==> c in s
  {
    ContainsIff(s, sub);
    var i :| OccursAt(s, sub, i);
    forall c | c in sub ensures c in s {
      var k :| 0 <= k < |sub| && sub[k] == c;
      assert s[i..i + |sub|][k] == s[i + k];
    }
  }

  /** A character dropped by `rstrip(chars)` is one of `chars`. */
  lemma {:induction false} RStripCharsKeeps(s: string, chars: string, drop: set<char>)
    requires Droppable(chars, drop)
    ensures Kept(RStripChars(s, chars), drop) == Kept(s, drop)
    decreases |s|
  {
    if |s| > 0 && s[|s| - 1] in chars {
      var front := s[..|s| - 1];
      RStripCharsKeeps(front, chars, drop);
      assert s == front + [s[|s| - 1]];
      KeptAppend(front, [s[|s| - 1]], drop);
      assert Kept([s[|s| - 1]], drop) == "" by {
        var k :| 0 <= k < |chars| && chars[k] == s[|s| - 1];
        KeptOfDroppable([s[|s| - 1]], drop);
      }
    }
  }

  // ---------------------------------------------------------------------------
  // `s.rstrip(chars)`: strips every trailing character that belongs to the SET `chars`

  function RStripChars(s: string, chars: string): (r: string)
    ensures |r| <= |s| && r == s[..|r|]
    ensures |r| > 0 ==> r[|r| - 1] !in chars
  {
    if |s| > 0 && s[|s| - 1] in chars then RStripChars(s[..|s| - 1], chars) else s
  }

  /** Appending characters of the set changes nothing in what `rstrip` keeps. */
  lemma {:induction false} RStripCharsAbsorbs(p: string, chars: string, tail: string)
    requires forall k :: 0 <= k < |tail| ==> tail[k] in chars
    ensures RStripChars(p + tail, chars) == RStripChars(p, chars)
    decreases |tail|
  {
    if |tail| > 0 {
      var t := tail[..|tail| - 1];
      assert (p + tail)[..|p + tail| - 1] == p + t;
      RStripCharsAbsorbs(p, chars, t);
    } else {
      assert p + tail == p;
    }
  }

  /** `rstrip` removes a character set, not a suffix: "Dr.. ".rstrip(". ") is "Dr",
      whereas removing the suffix ". " would leave "Dr.". */
  lemma {:induction false} RStripCharsIsNotSuffixRemoval()
    ensures RStripChars("Dr.. ", ". ") == "Dr"
  {
    assert "Dr.. "[..4] == "Dr..";
    assert "Dr.."[..3] == "Dr.";
    assert "Dr."[..2] == "Dr";
  }

  // ---------------------------------------------------------------------------
  // `s.split()`: maximal runs of non-whitespace

  function WordEnd(s: string, i: nat): (e: nat)
    requires i <= |s|
    decreases |s| - i
    ensures i <= e <= |s|
    ensures forall k :: i <= k < e ==> !IsSpace(s[k])
    ensures e < |s| ==> IsSpace(s[e])
  {
    if i == |s| || IsSpace(s[i]) then i else WordEnd(s, i + 1)
  }

  /** Python's `s.split()` with no argument. */
  function Words(s: string): (ws: seq<string>)
    decreases |s|
    ensures forall w :: w in ws ==> |w| > 0 && forall k :: 0 <= k < |w| ==> !IsSpace(w[k])
  {
    var t := LStrip(s);
    if t == "" then []
    else
      var e := WordEnd(t, 0);
      assert e > 0;
      var head := t[..e];
      assert forall k :: 0 <= k < |head| ==> !IsSpace(head[k]) by {
        forall k | 0 <= k < |head| ensures !IsSpace(head[k]) { assert head[k] == t[k]; }
      }
      [head] + Words(t[e..])
  }

  lemma {:induction false} WordsEmptyIffBlank(s: string)
    ensures Words(s) == [] <==> forall k :: 0 <= k < |s| ==> IsSpace(s[k])
  {
    var t := LStrip(s);
    if t != "" {
      assert t[0] == s[|s| - |t|];
    }
  }

  // ---------------------------------------------------------------------------
  // `str.lower()` and `str.isupper()` over ASCII and Latin-1

  function LowerChar(c: char): (d: char) {
    if 'A' <= c <= 'Z' || ('\U{c0}' <= c <= '\U{de}' && c != '\U{d7}') then
      (c as int + 32) as char
    else c
  }

  /** Python's `s.lower()`. */
  function Lower(s: string): (r: string)
    ensures |r| == |s| && forall k :: 0 <= k < |s| ==> r[k] == LowerChar(s[k])
  {
    seq(|s|, k requires 0 <= k < |s| => LowerChar(s[k]))
  }

  /** Lower-casing twice is lower-casing once, so lower-cased words compare
      equal exactly when their lower-cased forms do. */
  lemma {:induction false} LowerIdempotent(s: string)
    ensures Lower(Lower(s)) == Lower(s)
  {
    forall k | 0 <= k < |s| ensures LowerChar(LowerChar(s[k])) == LowerChar(s[k]) {
      var c := s[k];
      if 'A' <= c <= 'Z' {
        assert 'a' <= LowerChar(c) <= 'z';
      } else if '\U{c0}' <= c <= '\U{de}' && c != '\U{d7}' {
        assert '\U{e0}' <= LowerChar(c) <= '\U{fe}' && LowerChar(c) != '\U{f7}';
      }
    }
  }

  /** A lower-cased string has no upper-case letter left. */
  lemma {:induction false} LowerHasNoUpper(s: string)
    ensures forall k :: 0 <= k < |Lower(s)| ==> !IsUpperChar(Lower(s)[k])
  {
    forall k | 0 <= k < |s| ensures !IsUpperChar(LowerChar(s[k])) {
      var c := s[k];
      if 'A' <= c <= 'Z' {
        assert 'a' <= LowerChar(c) <= 'z';
      } else if '\U{c0}' <= c <= '\U{de}' && c != '\U{d7}' {
        assert '\U{e0}' <= LowerChar(c) <= '\U{fe}';
      }
    }
  }

  predicate IsUpperChar(c: char) {
    'A' <= c <= 'Z' || ('\U{c0}' <= c <= '\U{de}' && c != '\U{d7}')
  }

  predicate IsLowerChar(c: char) {
    'a' <= c <= 'z' || c == '\U{aa}' || c == '\U{b5}' || c == '\U{ba}'
    || ('\U{df}' <= c <= '\U{ff}' && c != '\U{f7}')
  }

  /** Python's `s.isupper()`: some cased character, and none of them lower-case. */
  predicate IsUpper(s: string) {
    (exists k :: 0 <= k < |s| && IsUpperChar(s[k]))
    && (forall k :: 0 <= k < |s| ==> !IsLowerChar(s[k]))
  }

  // ---------------------------------------------------------------------------
  // Python slices `s[i:j]`: negative indices count from the end, both clamp to [0, len]

  function SliceIndex(i: int, n: nat): (k: nat)
    ensures k <= n
    ensures 0 <= i <= n ==> k == i
  {
    if i < 0 then (if i + n < 0 then 0 else i + n) else if i > n then n else i
  }

  function Slice<T>(s: seq<T>, i: int, j: int): (r: seq<T>)
    ensures 0 <= i <= j <= |s| ==> r == s[i..j]
    ensures |r| <= |s|
  {
    var a := SliceIndex(i, |s|);
    var b := SliceIndex(j, |s|);
    if a >= b then [] else s[a..b]
  }

  // ---------------------------------------------------------------------------
  // `str(n)` for a natural number, with its inverse `int(s)`

  function DigitChar(d: nat): char
    requires d < 10
  {
    ('0' as int + d) as char
  }

  function NatToString(n: nat): (s: string)
    ensures |s| > 0 && forall k :: 0 <= k < |s| ==> IsAsciiDigit(s[k])
  {
    if n < 10 then [DigitChar(n)] else NatToString(n / 10) + [DigitChar(n % 10)]
  }

  function ParseNat(s: string): nat
    requires forall k :: 0 <= k < |s| ==> IsAsciiDigit(s[k])
  {
    if |s| == 0 then 0
    else
      assert IsAsciiDigit(s[|s| - 1]);
      10 * ParseNat(s[..|s| - 1]) + (s[|s| - 1] as int - '0' as int)
  }

  lemma {:induction false} ParseNatToString(n: nat)
    ensures ParseNat(NatToString(n)) == n
  {
    if n >= 10 {
      var s := NatToString(n);
      assert s[..|s| - 1] == NatToString(n / 10);
      ParseNatToString(n / 10);
    }
  }

  /** Different numbers print differently. */
  lemma {:induction false} NatToStringInjective(m: nat, n: nat)
    requires NatToString(m) == NatToString(n)
    ensures m == n
  {
    ParseNatToString(m);
    ParseNatToString(n);
  }

  // ---------------------------------------------------------------------------
  // Concatenation of a list of strings (`''.join(parts)`) and total length

  function Concat(parts: seq<string>): string {
    if |parts| == 0 then "" else parts[0] + Concat(parts[1..])
  }

  /** A non-empty sequence is its front followed by its last element. */
  lemma {:induction false} FrontAndLast<T>(s: seq<T>)
    requires |s| > 0
    ensures s == s[..|s| - 1] + [s[|s| - 1]]
  {
  }

  /** A suffix is its first element followed by the next suffix. */
  lemma {:induction false} SuffixCons<T>(s: seq<T>, j: nat)
    requires j < |s|
    ensures s[j..] == [s[j]] + s[j + 1..]
    ensures s[j..][0] == s[j] && s[j..][1..] == s[j + 1..]
  {
  }

  /** The prefix as long as the sequence is the sequence. */
  lemma {:induction false} FullPrefix<T>(s: seq<T>)
    ensures s[..|s|] == s
  {
  }

  /** Dropping the last element of the next prefix gives the current prefix. */
  lemma {:induction false} PrefixOfNext<T>(s: seq<T>, i: nat)
    requires i < |s|
    ensures s[..i + 1][..i] == s[..i]
  {
  }

  /** A prefix of a suffix is a slice. */
  lemma {:induction false} PrefixOfSuffix<T>(s: seq<T>, a: nat, n: nat)
    requires a + n <= |s|
    ensures s[a..][..n] == s[a..a + n]
  {
  }

  lemma {:induction false} ConcatSnoc(parts: seq<string>, x: string)
    ensures Concat(parts + [x]) == Concat(parts) + x
  {
    if |parts| == 0 {
      assert parts + [x] == [x];
      assert Concat([x]) == x + Concat([]);
    } else {
      assert (parts + [x])[1..] == parts[1..] + [x];
      ConcatSnoc(parts[1..], x);
    }
  }

  lemma {:induction false} ConcatAppend(a: seq<string>, b: seq<string>)
    ensures Concat(a + b) == Concat(a) + Concat(b)
    decreases |a|
  {
    if |a| == 0 {
      assert a + b == b;
    } else {
      assert (a + b)[1..] == a[1..] + b;
      ConcatAppend(a[1..], b);
    }
  }

  function TotalLength(parts: seq<string>): nat {
    if |parts| == 0 then 0 else |parts[0]| + TotalLength(parts[1..])
  }
}
