/** How chunks of indexed text are addressed: the page markers the OCR step writes,
    the search that reads a page number back out of a chunk, and the paragraph
    number derived from a chunk's content hash. */
module Addressing {
  import opened Wrappers
  import opened PyStr
  import TextAnalysis

  // ---------------------------------------------------------------------------
  // Page markers

  const MarkerHead: string := "--- Page "
  const MarkerTail: string := " ---"

  /** The marker written before page `k` of a PDF: `"\n--- Page k ---\n"`. */
  function PageMarker(k: nat): (r: string)
    ensures |r| == 15 + |NatToString(k)|
  {
    "\n" + MarkerHead + NatToString(k) + MarkerTail + "\n"
  }

  /** The pattern `--- Page (\d+) ---` matches at position `p` of `t`. Because a
      space is not a digit, the greedy digit group never gives anything back, so
      the group is exactly the maximal run of digits after the head. */
  predicate MarkerAt(t: string, p: nat)
  {
    var d := p + |MarkerHead|;
    d <= |t| && t[p..d] == MarkerHead &&
    var n := DigitRun(t[d..]);
    n >= 1 && d + n + |MarkerTail| <= |t| && t[d + n..d + n + |MarkerTail|] == MarkerTail
  }

  /** The number in the marker at `p`: `int(match.group(1))`. */
  function MarkerNumber(t: string, p: nat): nat
    requires MarkerAt(t, p)
  {
    var d := p + |MarkerHead|;
    ParseDigits(t[d..d + DigitRun(t[d..])])
  }

  /** `re.search` for a marker, trying the positions from `p` on. */
  function SearchMarker(t: string, p: nat): (r: Option<nat>)
    decreases |t| - p
  {
    if p + |MarkerHead| > |t| then None
    else if MarkerAt(t, p) then Some(MarkerNumber(t, p))
    else SearchMarker(t, p + 1)
  }

  /** `extract_page_info`: the number in the first marker of the text, or `None`. */
  function ExtractPageInfo(text: string): (r: Option<nat>)
  {
    SearchMarker(text, 0)
  }

  /** What the search returns is the number of the first marker at or after `p`,
      and it returns `None` exactly when there is no such marker. */
  lemma {:induction false} SearchMarkerFirst(t: string, p: nat)
    ensures SearchMarker(t, p).None? <==> forall q: nat :: p <= q ==> !MarkerAt(t, q)
    ensures SearchMarker(t, p).Some? ==>
      exists q: nat :: p <= q && MarkerAt(t, q) && SearchMarker(t, p).value == MarkerNumber(t, q) &&
        forall e: nat :: p <= e < q ==> !MarkerAt(t, e)
    decreases |t| - p
  {
    if p + |MarkerHead| > |t| {
      forall q: nat | p <= q ensures !MarkerAt(t, q) { }
    } else if MarkerAt(t, p) {
    } else {
      SearchMarkerFirst(t, p + 1);
      if SearchMarker(t, p).Some? {
        var q: nat :| p + 1 <= q && MarkerAt(t, q) && SearchMarker(t, p + 1).value == MarkerNumber(t, q) &&
          forall e: nat :: p + 1 <= e < q ==> !MarkerAt(t, e);
        NoMarkerBefore(t, p, q);
      }
    }
  }

  lemma NoMarkerBefore(t: string, p: nat, q: nat)
    requires !MarkerAt(t, p) && forall e: nat :: p + 1 <= e < q ==> !MarkerAt(t, e)
    ensures forall e: nat :: p <= e < q ==> !MarkerAt(t, e)
  {
    forall e: nat | p <= e < q ensures !MarkerAt(t, e) {
      if e != p {
        assert p + 1 <= e < q;
      }
    }
  }

  /** `extract_page_info` finds the first marker of the text, and only a text
      without markers gives `None`. */
  lemma ExtractPageInfoFirst(text: string)
    ensures ExtractPageInfo(text).None? <==> forall q: nat :: !MarkerAt(text, q)
    ensures ExtractPageInfo(text).Some? ==>
      exists q: nat :: MarkerAt(text, q) && ExtractPageInfo(text).value == MarkerNumber(text, q) &&
        forall e: nat :: e < q ==> !MarkerAt(text, e)
  {
    SearchMarkerFirst(text, 0);
  }

  /** The digits of a written marker are read back as its page number. */
  lemma MarkerReadsBack(t: string, k: nat)
    requires |PageMarker(k)| <= |t| && t[..|PageMarker(k)|] == PageMarker(k)
    ensures MarkerAt(t, 1) && MarkerNumber(t, 1) == k
  {
    var digits := NatToString(k);
    var m := PageMarker(k);
    var d := 1 + |MarkerHead|;
    var n := |digits|;
    MarkerLayout(k);
    SameSlice(t, m, 1, d);
    SameSlice(t, m, d, d + n);
    SameSlice(t, m, d + n, d + n + |MarkerTail|);
    DigitsThenSpace(t[d..], digits, n);
    ParseNatToString(k);
  }

  /** Where the pieces of a written marker lie. */
  lemma MarkerLayout(k: nat)
    ensures var m := PageMarker(k);
      var d := 1 + |MarkerHead|;
      var n := |NatToString(k)|;
      m[1..d] == MarkerHead && m[d..d + n] == NatToString(k) &&
      m[d + n..d + n + |MarkerTail|] == MarkerTail
  {
    var m := PageMarker(k);
    var digits := NatToString(k);
    assert m == "\n" + (MarkerHead + (digits + (MarkerTail + "\n")));
  }

  /** A text that begins with `m` agrees with it on every slice of `m`. */
  lemma SameSlice(t: string, m: string, a: nat, b: nat)
    requires |m| <= |t| && t[..|m|] == m && a <= b <= |m|
    ensures t[a..b] == m[a..b]
  {
    assert forall i :: a <= i < b ==> t[i] == t[..|m|][i];
  }

  /** Digits followed by the space of the marker's tail form the whole digit run. */
  lemma DigitsThenSpace(s: string, digits: string, n: nat)
    requires n == |digits| && n + |MarkerTail| <= |s| && s[..n] == digits && s[n..n + |MarkerTail|] == MarkerTail
    requires forall i :: 0 <= i < n ==> IsDigit(digits[i])
    ensures DigitRun(s) == n && s[..DigitRun(s)] == digits
  {
    assert s[n] == MarkerTail[0] == ' ';
    assert forall i :: 0 <= i < n ==> s[i] == digits[i];
    DigitRunOf(s, n);
  }

  /** A text that begins with the marker of page `k` is attributed to page `k`,
      whatever follows the marker. */
  lemma ExtractPageInfoOfMarker(t: string, k: nat)
    requires |PageMarker(k)| <= |t| && t[..|PageMarker(k)|] == PageMarker(k)
    ensures ExtractPageInfo(t) == Some(k)
  {
    MarkerReadsBack(t, k);
    assert t[0] == PageMarker(k)[0] == '\n';
    assert !MarkerAt(t, 0) by { assert t[0..|MarkerHead|][0] == '\n'; }
    assert SearchMarker(t, 1) == Some(k);
  }

  /** A run of `n` digits followed by a non-digit is the whole digit run. */
  lemma DigitRunOf(s: string, n: nat)
    requires n < |s| && !IsDigit(s[n])
    requires forall i :: 0 <= i < n ==> IsDigit(s[i])
    ensures DigitRun(s) == n
  {
  }

  // ---------------------------------------------------------------------------
  // Paragraph numbers

  /** `extract_paragraph_info`: the first eight hex digits of the MD5 of the stripped
      first 50 characters of the stripped text, modulo 100, with 0 replaced by 1. */
  function ParagraphId(md5: TextAnalysis.Md5, text: string): (r: nat)
    ensures 1 <= r <= 99
  {
    var h := HexValue(md5(Strip(Prefix(Strip(text), 50)))[..8]) % 100;
    if h == 0 then 1 else h
  }

  /** Texts whose stripped 50-character beginnings agree get the same paragraph number. */
  lemma ParagraphIdOfPrefix(md5: TextAnalysis.Md5, a: string, b: string)
    requires Strip(Prefix(Strip(a), 50)) == Strip(Prefix(Strip(b), 50))
    ensures ParagraphId(md5, a) == ParagraphId(md5, b)
  {
  }

  /** Whitespace around the text does not change its paragraph number. */
  lemma ParagraphIdIgnoresOuterWhitespace(md5: TextAnalysis.Md5, text: string)
    ensures ParagraphId(md5, Strip(text)) == ParagraphId(md5, text)
  {
    StripIdempotent(text);
  }

  /** Nothing after the first 50 characters changes the paragraph number. */
  lemma ParagraphIdIgnoresTail(md5: TextAnalysis.Md5, text: string, tail: string)
    requires |text| >= 50 && !IsSpace(text[0]) && !IsSpace(text[49])
    ensures ParagraphId(md5, text + tail) == ParagraphId(md5, text)
  {
    var whole := text + tail;
    assert whole[0] == text[0] && whole[49] == text[49];
    StripKeepsPrefix(text, 50);
    StripKeepsPrefix(whole, 50);
    assert whole[..50] == text[..50];
  }
}
