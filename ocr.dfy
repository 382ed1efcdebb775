/** Text extraction from a PDF: the text of every page, each preceded by a marker
    naming its page number. The PDF reader is not modelled; the pages arrive as
    their extracted strings. */
module Ocr {
  import opened Wrappers
  import opened Addressing

  /** The extracted text of the first `n` pages. */
  function PdfTextUpTo(pages: seq<string>, n: nat): string
    requires n <= |pages|
  {
    if n == 0 then [] else PdfTextUpTo(pages, n - 1) + PageMarker(n) + pages[n - 1]
  }

  function PdfText(pages: seq<string>): string
  {
    PdfTextUpTo(pages, |pages|)
  }

  /** `extract_text_from_pdf`, with the PDF given as the text of its pages. */
  method ExtractTextFromPdf(pages: seq<string>) returns (text: string)
    ensures text == PdfText(pages)
  {
    text := "";
    for i := 0 to |pages|
      invariant text == PdfTextUpTo(pages, i)
    {
      var pageNum := i + 1;
      text := text + PageMarker(pageNum);
      text := text + pages[i];
    }
  }

  // ---------------------------------------------------------------------------
  // Layout of the extracted text

  /** Total length of the first `n` strings. */
  function TotalLength(ss: seq<string>, n: nat): nat
    requires n <= |ss|
  {
    if n == 0 then 0 else TotalLength(ss, n - 1) + |ss[n - 1]|
  }

  /** Total length of the markers of pages 1 to `n`. */
  function MarkersLength(n: nat): nat
  {
    if n == 0 then 0 else MarkersLength(n - 1) + |PageMarker(n)|
  }

  /** The output is exactly as long as the markers and the pages together; a PDF
      without pages gives the empty text. */
  lemma {:induction false} PdfTextLength(pages: seq<string>, n: nat)
    requires n <= |pages|
    ensures |PdfTextUpTo(pages, n)| == MarkersLength(n) + TotalLength(pages, n)
    ensures n == 0 ==> PdfTextUpTo(pages, n) == []
  {
    if n > 0 {
      PdfTextLength(pages, n - 1);
    }
  }

  /** The text of fewer pages is a prefix of the text of more pages. */
  lemma {:induction false} PdfTextPrefix(pages: seq<string>, k: nat, n: nat)
    requires k <= n <= |pages|
    ensures |PdfTextUpTo(pages, k)| <= |PdfTextUpTo(pages, n)|
    ensures PdfTextUpTo(pages, n)[..|PdfTextUpTo(pages, k)|] == PdfTextUpTo(pages, k)
  {
    if k < n {
      PdfTextPrefix(pages, k, n - 1);
      var a := PdfTextUpTo(pages, k);
      var b := PdfTextUpTo(pages, n - 1);
      var c := PdfTextUpTo(pages, n);
      assert c == b + (PageMarker(n) + pages[n - 1]);
      assert c[..|a|] == b[..|a|];
    }
  }

  /** Where page `k` (counted from 0) starts in the extracted text. */
  function PageStart(pages: seq<string>, k: nat): nat
    requires k < |pages|
  {
    |PdfTextUpTo(pages, k)| + |PageMarker(k + 1)|
  }

  /** Page `k` sits in the output right after its marker. */
  lemma PagePlaced(pages: seq<string>, k: nat)
    requires k < |pages|
    ensures var text := PdfText(pages);
      var s := PageStart(pages, k);
      s + |pages[k]| <= |text| &&
      text[s - |PageMarker(k + 1)|..s] == PageMarker(k + 1) && text[s..s + |pages[k]|] == pages[k]
  {
    PdfTextPrefix(pages, k + 1, |pages|);
    var text := PdfText(pages);
    var a := PdfTextUpTo(pages, k);
    var m := PageMarker(k + 1);
    var b := PdfTextUpTo(pages, k + 1);
    assert b == a + m + pages[k];
    var s := PageStart(pages, k);
    assert text[..|b|] == b;
    assert text[s - |m|..s] == b[|a|..|a| + |m|] == m;
    assert text[s..s + |pages[k]|] == b[|a| + |m|..|b|] == pages[k];
  }

  /** Pages appear in page order and do not overlap. */
  lemma PagesInOrder(pages: seq<string>, j: nat, k: nat)
    requires j < k < |pages|
    ensures PageStart(pages, j) + |pages[j]| < PageStart(pages, k)
  {
    PdfTextPrefix(pages, j + 1, k);
  }

  /** The part of the output that starts at the marker of page `k` is attributed
      to page `k + 1` by `extract_page_info`. */
  lemma PageAttributed(pages: seq<string>, k: nat)
    requires k < |pages|
    ensures var text := PdfText(pages);
      var s := |PdfTextUpTo(pages, k)|;
      s <= |text| && ExtractPageInfo(text[s..]) == Some(k + 1)
  {
    PagePlaced(pages, k);
    var text := PdfText(pages);
    var m := PageMarker(k + 1);
    var s := |PdfTextUpTo(pages, k)|;
    assert text[s..][..|m|] == text[s..s + |m|];
    ExtractPageInfoOfMarker(text[s..], k + 1);
  }

  /** The text of a PDF with at least one page starts with the page-1 marker, so
      the whole text is attributed to page 1. */
  lemma FirstPageIsOne(pages: seq<string>)
    requires |pages| >= 1
    ensures PdfText(pages)[..|PageMarker(1)|] == PageMarker(1)
    ensures ExtractPageInfo(PdfText(pages)) == Some(1)
  {
    PageAttributed(pages, 0);
    PagePlaced(pages, 0);
    PdfTextLength(pages, 0);
    var text := PdfText(pages);
    assert text[0..] == text;
  }
}
