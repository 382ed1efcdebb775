/**
 * The few Python `str` operations the core relies on, written out so that their
 * edge cases (empty separators never occur, `find` past the end, slices with
 * negative bounds) are those of CPython.
 */
module PyStr {
  import opened Wrappers

  // ---------------------------------------------------------------------------
  // Characters

  /** `c.isspace()` in Python 3: the characters with the Unicode White_Space
      property or bidirectional class WS, B or S. */
  predicate IsSpace(c: char)
  {
    c == ' ' || c == '\t' || c == '\n' || c == '\U{0b}' || c == '\U{0c}' || c == '\r' ||
    c == '\U{1c}' || c == '\U{1d}' || c == '\U{1e}' || c == '\U{1f}' ||
    c == '\U{85}' || c == '\U{a0}' || c == '\U{1680}' ||
    c == '\U{2000}' || c == '\U{2001}' || c == '\U{2002}' || c == '\U{2003}' || c == '\U{2004}' ||
    c == '\U{2005}' || c == '\U{2006}' || c == '\U{2007}' || c == '\U{2008}' || c == '\U{2009}' ||
    c == '\U{200a}' || c == '\U{2028}' || c == '\U{2029}' || c == '\U{202f}' || c == '\U{205f}' ||
    c == '\U{3000}'
  }

  predicate AllSpace(s: string)
  {
    forall i :: 0 <= i < |s| ==> IsSpace(s[i])
  }

  predicate NoSpace(s: string)
  {
    forall i :: 0 <= i < |s| ==> !IsSpace(s[i])
  }

  /** ASCII `c.lower()`. */
  function LowerChar(c: char): (r: char)
    ensures 'A' <= c <= 'Z' ==> 'a' <= r <= 'z'
    ensures !('A' <= c <= 'Z') ==> r == c
  {
    if 'A' <= c <= 'Z' then (c as int + 32) as char else c
  }

  /** `s.lower()`, restricted to ASCII letters. */
  function Lower(s: string): (r: string)
    ensures |r| == |s|
    ensures forall i :: 0 <= i < |s| ==> r[i] == LowerChar(s[i])
  {
    seq(|s|, i requires 0 <= i < |s| => LowerChar(s[i]))
  }

  lemma LowerKeepsSpaces(s: string)
    ensures forall i :: 0 <= i < |s| ==> (IsSpace(Lower(s)[i]) <==> IsSpace(s[i]))
  {
  }

  // ---------------------------------------------------------------------------
  // strip()

  /** End of the run of whitespace that starts at `k`. */
  function SkipSpaces(s: string, k: nat): (n: nat)
    requires k <= |s|
    decreases |s| - k
    ensures k <= n <= |s|
    ensures forall i :: k <= i < n ==> IsSpace(s[i])
    ensures n < |s| ==> !IsSpace(s[n])
  {
    if k == |s| || !IsSpace(s[k]) then k else SkipSpaces(s, k + 1)
  }

  /** Start of the run of whitespace that ends at `k`. */
  function SkipSpacesBack(s: string, k: nat): (n: nat)
    requires k <= |s|
    ensures n <= k
    ensures forall i :: n <= i < k ==> IsSpace(s[i])
    ensures 0 < n ==> !IsSpace(s[n - 1])
  {
    if k == 0 || !IsSpace(s[k - 1]) then k else SkipSpacesBack(s, k - 1)
  }

  /** The run of whitespace from `k` ends exactly at the first non-space. */
  lemma SkipSpacesIs(s: string, k: nat, n: nat)
    requires k <= n <= |s|
    requires forall i :: k <= i < n ==> IsSpace(s[i])
    requires n < |s| ==> !IsSpace(s[n])
    ensures SkipSpaces(s, k) == n
  {
  }

  /** The run of whitespace before `k` starts exactly after the last non-space. */
  lemma SkipSpacesBackIs(s: string, k: nat, n: nat)
    requires n <= k <= |s|
    requires forall i :: n <= i < k ==> IsSpace(s[i])
    requires 0 < n ==> !IsSpace(s[n - 1])
    ensures SkipSpacesBack(s, k) == n
  {
  }

  /** Number of leading whitespace characters. */
  function LeadingSpaces(s: string): nat
  {
    SkipSpaces(s, 0)
  }

  /** `s.strip()`: the text between the leading and the trailing whitespace. */
  function Strip(s: string): (r: string)
    ensures r == [] <==> AllSpace(s)
    ensures LeadingSpaces(s) + |r| <= |s|
    ensures r != [] ==> !IsSpace(r[0]) && !IsSpace(r[|r| - 1])
    ensures r != [] ==> r == s[LeadingSpaces(s)..LeadingSpaces(s) + |r|]
    ensures r != [] ==> forall i :: LeadingSpaces(s) + |r| <= i < |s| ==> IsSpace(s[i])
  {
    var a := LeadingSpaces(s);
    if a == |s| then []
    else
      var b := SkipSpacesBack(s, |s|);
      assert a < b;
      s[a..b]
  }

  /** Stripping a string whose ends are not whitespace leaves it unchanged. */
  lemma StripTrimmed(s: string)
    requires s == [] || (!IsSpace(s[0]) && !IsSpace(s[|s| - 1]))
    ensures Strip(s) == s
  {
    if s != [] {
      assert LeadingSpaces(s) == 0;
      assert SkipSpacesBack(s, |s|) == |s|;
      assert s[0..|s|] == s;
    }
  }

  /** `strip()` is idempotent. */
  lemma StripIdempotent(s: string)
    ensures Strip(Strip(s)) == Strip(s)
  {
    StripTrimmed(Strip(s));
  }

  /** When `s` starts with a non-space and has a non-space at position `n - 1`, `strip()`
      keeps its first `n` characters. */
  lemma StripKeepsPrefix(s: string, n: nat)
    requires 0 < n <= |s| && !IsSpace(s[0]) && !IsSpace(s[n - 1])
    ensures n <= |Strip(s)| && Strip(s)[..n] == s[..n]
  {
    assert LeadingSpaces(s) == 0;
    var b := SkipSpacesBack(s, |s|);
    assert n <= b;
    assert Strip(s) == s[0..b];
  }

  /** Whitespace around a trimmed middle is what `strip()` removes. */
  lemma StripEnclosed(x: string, m: string, y: string)
    requires AllSpace(x) && AllSpace(y)
    requires m != [] && !IsSpace(m[0]) && !IsSpace(m[|m| - 1])
    ensures Strip(x + m + y) == m
  {
    var s := x + m + y;
    assert s[|x|] == m[0];
    assert s[|x| + |m| - 1] == m[|m| - 1];
    SkipSpacesIs(s, 0, |x|);
    SkipSpacesBackIs(s, |s|, |x| + |m|);
    assert s[|x|..|x| + |m|] == m;
  }

  /** A single space in front of text that starts with a non-space is stripped away. */
  lemma StripSpaceThen(z: string)
    requires z == [] || !IsSpace(z[0])
    ensures Strip(" " + z) == Strip(z)
  {
    var s := " " + z;
    if z != [] {
      assert s[1] == z[0];
      SkipSpacesIs(s, 0, 1);
      SkipSpacesIs(z, 0, 0);
      var e := SkipSpacesBack(z, |z|);
      assert 0 < e;
      assert s[e] == z[e - 1];
      SkipSpacesBackIs(s, |s|, e + 1);
      assert s[1..e + 1] == z[0..e];
    } else {
      assert AllSpace(s);
    }
  }

  /** Text that starts with a non-space keeps everything in front of a part that starts
      with a non-space. */
  lemma StripConcat(u: string, v: string)
    requires u != [] && !IsSpace(u[0])
    requires v != [] && !IsSpace(v[0])
    ensures Strip(u + v) == u + Strip(v)
  {
    var s := u + v;
    assert s[0] == u[0];
    SkipSpacesIs(s, 0, 0);
    SkipSpacesIs(v, 0, 0);
    var e := SkipSpacesBack(v, |v|);
    assert 0 < e;
    assert s[|u| + e - 1] == v[e - 1];
    SkipSpacesBackIs(s, |s|, |u| + e);
    assert s[0..|u| + e] == u + v[0..e];
  }

  // ---------------------------------------------------------------------------
  // find() and `in`

  /** `pat` occurs in `s` starting at position `q`. */
  predicate MatchAt(s: string, pat: string, q: int)
  {
    0 <= q && q + |pat| <= |s| && s[q..q + |pat|] == pat
  }

  /** A slice of a piece that occurs at `p` occurs at the matching offset. */
  lemma SliceWithin(t: string, r: string, p: nat, a: nat, b: nat)
    requires p + |r| <= |t| && t[p..p + |r|] == r && a <= b <= |r|
    ensures t[p + a..p + b] == r[a..b]
  {
    forall k | 0 <= k < b - a ensures t[p + a..p + b][k] == r[a..b][k] {
      assert t[p..p + |r|][a + k] == t[p + a + k];
    }
  }

  /** `s.find(pat, from)` with `from >= 0`: the first occurrence at or after `from`. */
  function Find(s: string, pat: string, from: nat): (r: Option<nat>)
    decreases |s| - from
    ensures r.Some? ==> from <= r.value && MatchAt(s, pat, r.value)
    ensures r.Some? ==> forall q :: from <= q < r.value ==> !MatchAt(s, pat, q)
    ensures r.None? ==> forall q :: from <= q ==> !MatchAt(s, pat, q)
  {
    if from + |pat| > |s| then None
    else if s[from..from + |pat|] == pat then Some(from)
    else Find(s, pat, from + 1)
  }

  /** `needle in hay`. */
  predicate Contains(hay: string, needle: string)
  {
    Find(hay, needle, 0).Some?
  }

  lemma ContainsIff(hay: string, needle: string)
    ensures Contains(hay, needle) <==> exists q :: MatchAt(hay, needle, q)
  {
    if !Contains(hay, needle) {
      assert forall q :: 0 <= q ==> !MatchAt(hay, needle, q);
    }
  }

  /** A slice of `s` holds no occurrence of `pat` when `s` has none starting inside it. */
  lemma NoMatchInSlice(s: string, pat: string, a: nat, b: nat)
    requires |pat| > 0 && a <= b <= |s|
    requires forall q :: a <= q < b ==> !MatchAt(s, pat, q)
    ensures !Contains(s[a..b], pat)
  {
    var h := s[a..b];
    ContainsIff(h, pat);
    forall q | MatchAt(h, pat, q) ensures a <= a + q < b && MatchAt(s, pat, a + q) {
      SliceWithin(s, h, a, q, q + |pat|);
    }
  }

  predicate StartsWith(s: string, prefix: string)
  {
    |prefix| <= |s| && s[..|prefix|] == prefix
  }

  predicate EndsWith(s: string, suffix: string)
  {
    |suffix| <= |s| && s[|s| - |suffix|..] == suffix
  }

  // ---------------------------------------------------------------------------
  // split(sep) and sep.join(parts)

  /** `s[k:].split(sep)` for a non-empty separator: left to right, non-overlapping. */
  function SplitFrom(s: string, sep: string, k: nat): (r: seq<string>)
    requires |sep| > 0 && k <= |s|
    decreases |s| - k
    ensures |r| >= 1
  {
    match Find(s, sep, k)
    case None => [s[k..]]
    case Some(p) => [s[k..p]] + SplitFrom(s, sep, p + |sep|)
  }

  /** `s.split(sep)` for a non-empty separator. */
  function Split(s: string, sep: string): (r: seq<string>)
    requires |sep| > 0
    ensures |r| >= 1
  {
    SplitFrom(s, sep, 0)
  }

  /** `sep.join(parts)`. */
  function Join(parts: seq<string>, sep: string): string
  {
    if parts == [] then []
    else if |parts| == 1 then parts[0]
    else parts[0] + sep + Join(parts[1..], sep)
  }

  lemma {:induction false} JoinSplitFrom(s: string, sep: string, k: nat)
    requires |sep| > 0 && k <= |s|
    ensures Join(SplitFrom(s, sep, k), sep) == s[k..]
    decreases |s| - k
  {
    match Find(s, sep, k)
    case None =>
    case Some(p) =>
      var q := p + |sep|;
      var tail := SplitFrom(s, sep, q);
      JoinSplitFrom(s, sep, q);
      assert ([s[k..p]] + tail)[1..] == tail;
      assert s[p..q] == sep;
      assert s[k..] == s[k..p] + s[p..q] + s[q..];
  }

  /** Joining what `split` produced gives the original text back. */
  lemma JoinSplit(s: string, sep: string)
    requires |sep| > 0
    ensures Join(Split(s, sep), sep) == s
  {
    JoinSplitFrom(s, sep, 0);
    assert s[0..] == s;
  }

  lemma {:induction false} SplitFromPiecesLackSeparator(s: string, sep: string, k: nat)
    requires |sep| > 0 && k <= |s|
    ensures forall j :: 0 <= j < |SplitFrom(s, sep, k)| ==> !Contains(SplitFrom(s, sep, k)[j], sep)
    decreases |s| - k
  {
    match Find(s, sep, k)
    case None =>
      NoMatchInSlice(s, sep, k, |s|);
      assert s[k..] == s[k..|s|];
    case Some(p) =>
      NoMatchInSlice(s, sep, k, p);
      SplitFromPiecesLackSeparator(s, sep, p + |sep|);
      LackSeparatorCons(s[k..p], SplitFrom(s, sep, p + |sep|), sep);
  }

  lemma LackSeparatorCons(x: string, tail: seq<string>, sep: string)
    requires !Contains(x, sep)
    requires forall j :: 0 <= j < |tail| ==> !Contains(tail[j], sep)
    ensures forall j :: 0 <= j < |[x] + tail| ==> !Contains(([x] + tail)[j], sep)
  {
    forall j | 0 <= j < |[x] + tail| ensures !Contains(([x] + tail)[j], sep) {
      if j > 0 {
        assert ([x] + tail)[j] == tail[j - 1];
      }
    }
  }

  /** No piece produced by `split` contains the separator. */
  lemma SplitPiecesLackSeparator(s: string, sep: string)
    requires |sep| > 0
    ensures forall j :: 0 <= j < |Split(s, sep)| ==> !Contains(Split(s, sep)[j], sep)
  {
    SplitFromPiecesLackSeparator(s, sep, 0);
  }

  /** Where piece `k` of `sep.join(parts)` starts. */
  function PieceStart(parts: seq<string>, sepLen: nat, k: nat): nat
    requires k <= |parts|
  {
    if k == 0 then 0 else PieceStart(parts, sepLen, k - 1) + |parts[k - 1]| + sepLen
  }

  /** Counting piece starts from the second piece on. */
  lemma {:induction false} PieceStartShift(parts: seq<string>, sepLen: nat, k: nat)
    requires 1 <= k <= |parts|
    ensures PieceStart(parts, sepLen, k) == |parts[0]| + sepLen + PieceStart(parts[1..], sepLen, k - 1)
  {
    if k > 1 {
      PieceStartShift(parts, sepLen, k - 1);
      assert parts[1..][k - 2] == parts[k - 1];
    }
  }

  /** A piece found in the right-hand part of a concatenation, seen from the whole. */
  lemma ShiftPiece(j: string, head: string, tail: string, st: nat, p: nat, piece: string, sep: string, more: bool)
    requires j == head + tail && p == |head| + st
    requires st + |piece| <= |tail| && tail[st..st + |piece|] == piece
    requires more ==> st + |piece| + |sep| <= |tail| && tail[st + |piece|..st + |piece| + |sep|] == sep
    ensures p + |piece| <= |j| && j[p..p + |piece|] == piece
    ensures more ==> p + |piece| + |sep| <= |j| && j[p + |piece|..p + |piece| + |sep|] == sep
  {
    forall m | 0 <= m < |piece| ensures j[p..p + |piece|][m] == piece[m] {
      assert tail[st..st + |piece|][m] == tail[st + m];
    }
    if more {
      var e := st + |piece|;
      forall m | 0 <= m < |sep| ensures j[p + |piece|..p + |piece| + |sep|][m] == sep[m] {
        assert tail[e..e + |sep|][m] == tail[e + m];
      }
    }
  }

  lemma JoinCons(parts: seq<string>, sep: string)
    requires |parts| > 1
    ensures Join(parts, sep) == (parts[0] + sep) + Join(parts[1..], sep)
  {
  }

  /** The first piece opens the joined text, followed by the separator when more follow. */
  lemma JoinFirstPiece(parts: seq<string>, sep: string)
    requires parts != []
    ensures |parts[0]| <= |Join(parts, sep)| && Join(parts, sep)[0..|parts[0]|] == parts[0]
    ensures |parts| > 1 ==>
      |parts[0]| + |sep| <= |Join(parts, sep)| && Join(parts, sep)[|parts[0]|..|parts[0]| + |sep|] == sep
  {
    var j := Join(parts, sep);
    if |parts| > 1 {
      assert j == parts[0] + sep + Join(parts[1..], sep);
      assert j[0..|parts[0]|] == parts[0];
      assert j[|parts[0]|..|parts[0]| + |sep|] == sep;
    } else {
      assert j == parts[0];
    }
  }

  /** Piece `k` sits at `PieceStart(k)` in the joined text, followed by the separator
      unless it is the last piece. */
  lemma {:induction false} JoinPieceAt(parts: seq<string>, sep: string, k: nat)
    requires k < |parts|
    ensures PieceStart(parts, |sep|, k) + |parts[k]| <= |Join(parts, sep)|
    ensures Join(parts, sep)[PieceStart(parts, |sep|, k)..PieceStart(parts, |sep|, k) + |parts[k]|] == parts[k]
    ensures k + 1 < |parts| ==>
      PieceStart(parts, |sep|, k) + |parts[k]| + |sep| <= |Join(parts, sep)| &&
      Join(parts, sep)[PieceStart(parts, |sep|, k) + |parts[k]|..PieceStart(parts, |sep|, k) + |parts[k]| + |sep|] == sep
  {
    if k == 0 {
      JoinFirstPiece(parts, sep);
    } else {
      var rest := parts[1..];
      assert rest[k - 1] == parts[k];
      JoinPieceAt(rest, sep, k - 1);
      PieceStartShift(parts, |sep|, k);
      JoinCons(parts, sep);
      ShiftPiece(Join(parts, sep), parts[0] + sep, Join(rest, sep), PieceStart(rest, |sep|, k - 1),
                 PieceStart(parts, |sep|, k), parts[k], sep, k + 1 < |parts|);
    }
  }

  /** The joined text is exactly as long as its pieces plus the separators between them. */
  lemma {:induction false} JoinLength(parts: seq<string>, sep: string)
    requires parts != []
    ensures |Join(parts, sep)| + |sep| == PieceStart(parts, |sep|, |parts|)
  {
    PieceStartShift(parts, |sep|, |parts|);
    if |parts| > 1 {
      JoinLength(parts[1..], sep);
    }
  }

  /** Piece `k` of `parts` sits at its start in `t`, followed by the separator, or by
      the end of `t` when it is the last piece. */
  predicate PieceAt(t: string, parts: seq<string>, sep: string, k: nat)
    requires k < |parts|
  {
    var p := PieceStart(parts, |sep|, k);
    p + |parts[k]| <= |t| && t[p..p + |parts[k]|] == parts[k] &&
    (k + 1 < |parts| ==> p + |parts[k]| + |sep| <= |t| && t[p + |parts[k]|..p + |parts[k]| + |sep|] == sep) &&
    (k + 1 == |parts| ==> p + |parts[k]| == |t|)
  }

  /** Every piece of `sep.join(parts)` sits where `PieceStart` says. */
  lemma JoinPiece(parts: seq<string>, sep: string, k: nat)
    requires k < |parts|
    ensures PieceAt(Join(parts, sep), parts, sep, k)
  {
    JoinPieceAt(parts, sep, k);
    if k + 1 == |parts| {
      JoinLength(parts, sep);
    }
  }

  // ---------------------------------------------------------------------------
  // split() with no argument, and re.sub(r'\s+', ' ', s)

  /** End of the run of non-whitespace characters that starts at `k`. */
  function WordEnd(s: string, k: nat): (n: nat)
    requires k <= |s|
    decreases |s| - k
    ensures k <= n <= |s|
    ensures forall i :: k <= i < n ==> !IsSpace(s[i])
    ensures n < |s| ==> IsSpace(s[n])
  {
    if k == |s| || IsSpace(s[k]) then k else WordEnd(s, k + 1)
  }

  /** `s[k:].split()`: the maximal runs of non-whitespace characters, in order. */
  function WordsFrom(s: string, k: nat): (r: seq<string>)
    requires k <= |s|
    decreases |s| - k
    ensures forall j :: 0 <= j < |r| ==> r[j] != [] && NoSpace(r[j])
  {
    var a := SkipSpaces(s, k);
    if a == |s| then []
    else
      var b := WordEnd(s, a);
      assert NoSpace(s[a..b]) by {
        forall i | 0 <= i < b - a ensures !IsSpace(s[a..b][i]) {
          assert s[a..b][i] == s[a + i];
        }
      }
      [s[a..b]] + WordsFrom(s, b)
  }

  /** `s.split()`. */
  function Words(s: string): (r: seq<string>)
    ensures forall j :: 0 <= j < |r| ==> r[j] != [] && NoSpace(r[j])
  {
    WordsFrom(s, 0)
  }

  /** `re.sub(r'\s+', ' ', s[k:])`: every run of whitespace becomes one space. */
  function CollapseFrom(s: string, k: nat): string
    requires k <= |s|
    decreases |s| - k
  {
    if k == |s| then []
    else if IsSpace(s[k]) then " " + CollapseFrom(s, SkipSpaces(s, k))
    else [s[k]] + CollapseFrom(s, k + 1)
  }

  /** `re.sub(r'\s+', ' ', s)`. */
  function CollapseSpaces(s: string): string
  {
    CollapseFrom(s, 0)
  }

  /** A non-space character is copied through. */
  lemma CollapseNonSpace(s: string, a: nat)
    requires a < |s| && !IsSpace(s[a])
    ensures CollapseFrom(s, a) == [s[a]] + CollapseFrom(s, a + 1)
  {
  }

  lemma ConsSlice(s: string, a: nat, b: nat, c: string)
    requires a < b <= |s|
    ensures [s[a]] + (s[a + 1..b] + c) == s[a..b] + c
  {
    assert s[a..b] == [s[a]] + s[a + 1..b];
  }

  /** A run of non-whitespace is copied through unchanged. */
  lemma {:induction false} CollapseWord(s: string, a: nat, b: nat)
    requires a <= b <= |s|
    requires forall i :: a <= i < b ==> !IsSpace(s[i])
    ensures CollapseFrom(s, a) == s[a..b] + CollapseFrom(s, b)
    decreases b - a
  {
    if a < b {
      CollapseNonSpace(s, a);
      CollapseWord(s, a + 1, b);
      ConsSlice(s, a, b, CollapseFrom(s, b));
    }
  }

  /** Collapsing text that is all whitespace from `k` on leaves at most one space. */
  lemma CollapseOfSpaces(s: string, k: nat)
    requires k <= |s| && SkipSpaces(s, k) == |s|
    ensures AllSpace(CollapseFrom(s, k))
  {
    if k < |s| {
      assert CollapseFrom(s, k) == " ";
    }
  }

  /** After `strip()`, collapsed text is the words joined by single spaces. */
  lemma {:induction false} StripCollapseFrom(s: string, k: nat)
    requires k <= |s|
    ensures Strip(CollapseFrom(s, k)) == Join(WordsFrom(s, k), " ")
    decreases |s| - k
  {
    var a := SkipSpaces(s, k);
    if a == |s| {
      CollapseOfSpaces(s, k);
    } else if k < a {
      SkipSpacesIs(s, a, a);
      StripCollapseFrom(s, a);
      assert CollapseFrom(s, k) == " " + CollapseFrom(s, a);
      StripSpaceThen(CollapseFrom(s, a));
    } else {
      var b := WordEnd(s, a);
      StripCollapseFrom(s, b);
      StripCollapseWord(s, a);
    }
  }

  /** The step of `StripCollapseFrom` at the start of a word. */
  lemma StripCollapseWord(s: string, a: nat)
    requires a < |s| && !IsSpace(s[a])
    requires Strip(CollapseFrom(s, WordEnd(s, a))) == Join(WordsFrom(s, WordEnd(s, a)), " ")
    ensures Strip(CollapseFrom(s, a)) == Join(WordsFrom(s, a), " ")
  {
    var b := WordEnd(s, a);
    var w := s[a..b];
    SkipSpacesIs(s, a, a);
    assert WordsFrom(s, a) == [w] + WordsFrom(s, b);
    CollapseWord(s, a, b);
    if SkipSpaces(s, b) == |s| {
      StripWordThenSpaces(s, a, b);
    } else {
      StripWordThenWords(s, a, b);
    }
  }

  lemma StripWordThenSpaces(s: string, a: nat, b: nat)
    requires a < b <= |s| && b == WordEnd(s, a) && SkipSpaces(s, b) == |s|
    ensures Strip(s[a..b] + CollapseFrom(s, b)) == Join([s[a..b]] + WordsFrom(s, b), " ")
  {
    var w := s[a..b];
    var c := CollapseFrom(s, b);
    assert w[0] == s[a] && w[|w| - 1] == s[b - 1];
    CollapseOfSpaces(s, b);
    assert WordsFrom(s, b) == [];
    assert [w] + [] == [w];
    StripEnclosed([], w, c);
    assert [] + w + c == w + c;
  }

  /** Whitespace followed by more words collapses to a space before the next word. */
  lemma CollapseBeforeWord(s: string, b: nat)
    requires b <= |s| && SkipSpaces(s, b) < |s|
    requires b < |s| ==> IsSpace(s[b])
    ensures b < SkipSpaces(s, b)
    ensures CollapseFrom(s, b) == " " + CollapseFrom(s, SkipSpaces(s, b))
    ensures CollapseFrom(s, SkipSpaces(s, b)) != []
    ensures !IsSpace(CollapseFrom(s, SkipSpaces(s, b))[0])
    ensures WordsFrom(s, b) != []
  {
    var c := SkipSpaces(s, b);
    SkipSpacesIs(s, c, c);
  }

  /** A word, one space and text that starts with a non-space: `strip()` keeps the word
      and the space. */
  lemma StripWordSpace(w: string, v: string)
    requires w != [] && !IsSpace(w[0]) && v != [] && !IsSpace(v[0])
    ensures Strip(w + (" " + v)) == w + " " + Strip(" " + v)
  {
    StripSpaceThen(v);
    StripConcat(w + " ", v);
    assert w + (" " + v) == (w + " ") + v;
  }

  lemma StripWordThenWords(s: string, a: nat, b: nat)
    requires a < b <= |s| && b == WordEnd(s, a) && SkipSpaces(s, b) < |s|
    requires Strip(CollapseFrom(s, b)) == Join(WordsFrom(s, b), " ")
    ensures Strip(s[a..b] + CollapseFrom(s, b)) == Join([s[a..b]] + WordsFrom(s, b), " ")
  {
    var w := s[a..b];
    var rest := WordsFrom(s, b);
    CollapseBeforeWord(s, b);
    assert w[0] == s[a];
    StripWordSpace(w, CollapseFrom(s, SkipSpaces(s, b)));
    assert ([w] + rest)[1..] == rest;
  }

  /** `re.sub(r'\s+', ' ', s).strip()`, the cleaning applied to excerpts. */
  function CleanExcerpt(s: string): (r: string)
    ensures r == Join(Words(s), " ")
  {
    StripCollapseFrom(s, 0);
    Strip(CollapseSpaces(s))
  }

  // ---------------------------------------------------------------------------
  // Slices

  /** Python's normalisation of a slice bound against a length. */
  function PyIndex(len: nat, i: int): (r: nat)
    ensures r <= len
    ensures 0 <= i <= len ==> r == i
  {
    if i < 0 then (if i + len < 0 then 0 else i + len) else if i > len then len else i
  }

  /** `s[i:j]` with Python's treatment of negative and out-of-range bounds. */
  function PySlice<T>(s: seq<T>, i: int, j: int): (r: seq<T>)
    ensures |r| <= |s|
    ensures 0 <= i <= j <= |s| ==> r == s[i..j]
  {
    var a := PyIndex(|s|, i);
    var b := PyIndex(|s|, j);
    if a < b then s[a..b] else []
  }

  /** `s[:n]` for `n >= 0`: the first `n` elements, or all of them. */
  function Prefix<T>(s: seq<T>, n: nat): (r: seq<T>)
    ensures |r| == if n <= |s| then n else |s|
    ensures r == s[..|r|]
  {
    if n <= |s| then s[..n] else s
  }

  // ---------------------------------------------------------------------------
  // Numbers as text

  predicate IsDigit(c: char)
  {
    '0' <= c <= '9'
  }

  function DigitChar(d: nat): (c: char)
    requires d < 10
    ensures IsDigit(c)
  {
    ('0' as int + d) as char
  }

  /** `str(n)` for a natural number. */
  function NatToString(n: nat): (r: string)
    ensures r != []
    ensures forall i :: 0 <= i < |r| ==> IsDigit(r[i])
    ensures n < 10 ==> |r| == 1
    ensures n >= 10 ==> |r| >= 2
  {
    if n < 10 then [DigitChar(n)] else NatToString(n / 10) + [DigitChar(n % 10)]
  }

  /** `str(i)` for an integer. */
  function IntToString(i: int): (r: string)
    ensures r != []
    ensures i >= 0 ==> r == NatToString(i)
  {
    if i < 0 then "-" + NatToString(-i) else NatToString(i)
  }

  /** `int(s)` for a string of ASCII decimal digits. */
  function ParseDigits(s: string): nat
    requires forall i :: 0 <= i < |s| ==> IsDigit(s[i])
  {
    if s == [] then 0
    else
      var last := s[|s| - 1];
      assert IsDigit(last);
      10 * ParseDigits(s[..|s| - 1]) + (last as int - '0' as int)
  }

  /** Reading back what `str(n)` wrote gives `n`. */
  lemma {:induction false} ParseNatToString(n: nat)
    ensures ParseDigits(NatToString(n)) == n
  {
    if n >= 10 {
      ParseNatToString(n / 10);
      var s := NatToString(n);
      assert s[..|s| - 1] == NatToString(n / 10);
    }
  }

  /** `str(n)` is one-to-one. */
  lemma NatToStringInjective(m: nat, n: nat)
    requires NatToString(m) == NatToString(n)
    ensures m == n
  {
    ParseNatToString(m);
    ParseNatToString(n);
  }

  /** Length of the run of ASCII digits at the start of `s`. */
  function DigitRun(s: string): (n: nat)
    ensures n <= |s|
    ensures forall i :: 0 <= i < n ==> IsDigit(s[i])
    ensures n < |s| ==> !IsDigit(s[n])
  {
    if s == [] || !IsDigit(s[0]) then 0 else 1 + DigitRun(s[1..])
  }

  predicate IsHexDigit(c: char)
  {
    ('0' <= c <= '9') || ('a' <= c <= 'f')
  }

  function HexDigitValue(c: char): (v: nat)
    requires IsHexDigit(c)
    ensures v < 16
  {
    if '0' <= c <= '9' then c as int - '0' as int else c as int - 'a' as int + 10
  }

  /** `int(s, 16)` for a string of lower-case hexadecimal digits. */
  function HexValue(s: string): (v: nat)
    requires forall i :: 0 <= i < |s| ==> IsHexDigit(s[i])
  {
    if s == [] then 0 else 16 * HexValue(s[..|s| - 1]) + HexDigitValue(s[|s| - 1])
  }

  // ---------------------------------------------------------------------------
  // Line endings and sizes

  /** `s.replace('\r\n', '\n')`. */
  function ReplaceCrlf(s: string): (r: string)
    decreases |s|
    ensures |r| <= |s|
  {
    if |s| >= 2 && s[0] == '\r' && s[1] == '\n' then "\n" + ReplaceCrlf(s[2..])
    else if s == [] then []
    else [s[0]] + ReplaceCrlf(s[1..])
  }

  /** What a file opened in text mode reads back: `\r\n` and lone `\r` become `\n`. */
  function UniversalNewlines(s: string): (r: string)
    decreases |s|
    ensures |r| <= |s|
    ensures forall i :: 0 <= i < |r| ==> r[i] != '\r'
  {
    if s == [] then []
    else if s[0] == '\r' then
      (if |s| >= 2 && s[1] == '\n' then "\n" + UniversalNewlines(s[2..]) else "\n" + UniversalNewlines(s[1..]))
    else [s[0]] + UniversalNewlines(s[1..])
  }

  /** Number of bytes UTF-8 uses for `c`. */
  function Utf8Width(c: char): (n: nat)
    ensures 1 <= n <= 4
  {
    if c as int < 0x80 then 1 else if c as int < 0x800 then 2 else if c as int < 0x10000 then 3 else 4
  }

  /** Size in bytes of `s` written as UTF-8. */
  function Utf8Size(s: string): (n: nat)
    ensures |s| <= n <= 4 * |s|
  {
    if s == [] then 0 else Utf8Width(s[0]) + Utf8Size(s[1..])
  }
}
