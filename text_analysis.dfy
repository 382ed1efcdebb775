/** Segmentation of a document's text into paragraphs and sentences with absolute
    character offsets and content-hash ids. */
module TextAnalysis {
  import opened Wrappers
  import opened PyStr

  /** What `hexdigest()` of an MD5 hash returns: 32 lower-case hexadecimal digits. */
  type HexDigest = s: string | |s| == 32 && forall i :: 0 <= i < |s| ==> IsHexDigit(s[i])
    witness "00000000000000000000000000000000"

  /** MD5 of the encoded text, supplied by the caller. */
  type Md5 = string -> HexDigest

  /** The sentence tokenizer: the sentence strings, or the message of the exception it raised. */
  type Tokenizer = string -> Result<seq<string>, string>

  // ---------------------------------------------------------------------------
  // Content ids

  /** The id of a paragraph or sentence: the first 12 hex digits of the MD5 of the
      stripped first 100 characters of the stripped text. */
  function GenerateTextId(md5: Md5, text: string): (r: string)
    ensures |r| == 12
    ensures forall i :: 0 <= i < |r| ==> IsHexDigit(r[i])
  {
    md5(Strip(Prefix(Strip(text), 100)))[..12]
  }

  /** Whitespace around the text does not change its id. */
  lemma TextIdIgnoresOuterWhitespace(md5: Md5, text: string)
    ensures GenerateTextId(md5, Strip(text)) == GenerateTextId(md5, text)
  {
    StripIdempotent(text);
  }

  /** Nothing after the first 100 characters changes the id. */
  lemma TextIdIgnoresTail(md5: Md5, text: string, tail: string)
    requires |text| >= 100 && !IsSpace(text[0]) && !IsSpace(text[99])
    ensures GenerateTextId(md5, text + tail) == GenerateTextId(md5, text)
  {
    var whole := text + tail;
    assert whole[0] == text[0] && whole[99] == text[99];
    StripKeepsPrefix(text, 100);
    StripKeepsPrefix(whole, 100);
    assert whole[..100] == text[..100];
  }

  // ---------------------------------------------------------------------------
  // Paragraphs

  datatype Span = Span(start: nat, end: nat)

  /** A paragraph record; `id` and `documentId` are filled in by the document analysis. */
  datatype Paragraph = Paragraph(index: nat, content: string, position: Span,
                                 id: Option<string>, documentId: Option<int>)

  const ParagraphBreak: string := "\n\n"

  /** The raw paragraphs: the text with CRLF line ends normalised, split at blank lines. */
  function RawParagraphs(text: string): (raw: seq<string>)
    ensures |raw| >= 1
  {
    Split(ReplaceCrlf(text), ParagraphBreak)
  }

  /** Where the stripped content of raw paragraph `k` starts in the normalised text. */
  function ContentStart(raw: seq<string>, k: nat): nat
    requires k < |raw|
  {
    PieceStart(raw, |ParagraphBreak|, k) + LeadingSpaces(raw[k])
  }

  /** The stripped raw paragraphs. */
  function Contents(raw: seq<string>): (cs: seq<string>)
    ensures |cs| == |raw|
  {
    seq(|raw|, k requires 0 <= k < |raw| => Strip(raw[k]))
  }

  /** Where each stripped raw paragraph starts in the normalised text. */
  function Starts(raw: seq<string>): (ss: seq<nat>)
    ensures |ss| == |raw|
  {
    seq(|raw|, k requires 0 <= k < |raw| => ContentStart(raw, k))
  }

  /** The paragraph that raw paragraph `k` yields, given the stripped contents `cs` and
      where they start, `ss`. */
  function Candidate(cs: seq<string>, ss: seq<nat>, k: nat): Paragraph
    requires |cs| == |ss| && k < |cs|
  {
    Paragraph(k, cs[k], Span(ss[k], ss[k] + |cs[k]|), None, None)
  }

  /** The paragraphs that raw paragraphs `0 .. k-1` yield: one per non-blank piece. */
  function ParagraphsUpTo(cs: seq<string>, ss: seq<nat>, k: nat): seq<Paragraph>
    requires |cs| == |ss| && k <= |cs|
  {
    if k == 0 then []
    else ParagraphsUpTo(cs, ss, k - 1) + (if cs[k - 1] == [] then [] else [Candidate(cs, ss, k - 1)])
  }

  /** The paragraphs of a text, each placed where its piece sits in the normalised text. */
  function ParagraphsOf(text: string): seq<Paragraph>
  {
    var raw := RawParagraphs(text);
    ParagraphsUpTo(Contents(raw), Starts(raw), |raw|)
  }

  /** Position `j` of `t` is whitespace, or past the end. */
  predicate SpaceAt(t: string, j: int)
  {
    0 <= j < |t| ==> IsSpace(t[j])
  }

  /** Every character of `t` in `[a, b)` is whitespace. */
  predicate SpaceBetween(t: string, a: nat, b: nat)
  {
    forall j :: a <= j < b ==> SpaceAt(t, j)
  }

  lemma SpaceBetweenJoin(t: string, a: nat, b: nat, c: nat)
    requires a <= b && SpaceBetween(t, a, b) && SpaceBetween(t, b, c)
    ensures SpaceBetween(t, a, c)
  {
  }

  /** A pattern that starts with a non-space is found at its first occurrence after a run
      of whitespace. */
  lemma FindAfterSpace(t: string, pat: string, from: nat, n: nat)
    requires from <= n && MatchAt(t, pat, n)
    requires pat != [] && !IsSpace(pat[0])
    requires SpaceBetween(t, from, n)
    ensures Find(t, pat, from) == Some(n)
  {
    forall q | from <= q < n ensures !MatchAt(t, pat, q) {
      assert SpaceAt(t, q);
      if q + |pat| <= |t| {
        assert t[q..q + |pat|][0] == t[q];
      }
    }
  }

  /** Pieces start no earlier than the pieces before them. */
  lemma {:induction false} PieceStartMono(raw: seq<string>, a: nat, b: nat)
    requires a <= b <= |raw|
    ensures PieceStart(raw, |ParagraphBreak|, a) <= PieceStart(raw, |ParagraphBreak|, b)
    decreases b
  {
    if a < b {
      PieceStartMono(raw, a, b - 1);
    }
  }

  /** The stripped content of a non-blank piece that occurs at `p` occurs after the
      piece's leading whitespace. */
  lemma ContentAt(t: string, r: string, p: nat)
    requires p + |r| <= |t| && t[p..p + |r|] == r && Strip(r) != []
    ensures LeadingSpaces(r) + |Strip(r)| <= |r|
    ensures MatchAt(t, Strip(r), p + LeadingSpaces(r))
  {
    var l := LeadingSpaces(r);
    var c := Strip(r);
    SliceWithin(t, r, p, l, l + |c|);
    assert c == r[l..l + |c|];
    assert t[p + l..p + l + |c|] == c;
  }

  /** Leading whitespace of a piece extends a run of whitespace that reaches the piece. */
  lemma SpaceBeforeContent(t: string, raw: seq<string>, i: nat, from: nat)
    requires i < |raw| && PieceAt(t, raw, ParagraphBreak, i)
    requires SpaceBetween(t, from, PieceStart(raw, |ParagraphBreak|, i))
    ensures SpaceBetween(t, from, ContentStart(raw, i))
  {
    var p := PieceStart(raw, |ParagraphBreak|, i);
    var r := raw[i];
    var l := SkipSpaces(r, 0);
    assert ContentStart(raw, i) == p + l;
    forall j | from <= j < p + l ensures SpaceAt(t, j) {
      if p <= j {
        assert IsSpace(r[j - p]);
        assert t[p..p + |r|][j - p] == t[j];
      }
    }
  }

  /** From offset `k` of piece `i` to the start of piece `i + 1` there is only whitespace
      when the rest of piece `i` is whitespace. */
  lemma SpaceAfterPiece(t: string, raw: seq<string>, i: nat, k: nat)
    requires i < |raw| && PieceAt(t, raw, ParagraphBreak, i) && k <= |raw[i]|
    requires AllSpace(raw[i][k..])
    ensures SpaceBetween(t, PieceStart(raw, |ParagraphBreak|, i) + k, PieceStart(raw, |ParagraphBreak|, i + 1))
  {
    var p := PieceStart(raw, |ParagraphBreak|, i);
    forall j | p + k <= j < PieceStart(raw, |ParagraphBreak|, i + 1) ensures SpaceAt(t, j) {
      if j < p + |raw[i]| {
        assert t[p..p + |raw[i]|][j - p] == t[j];
        assert raw[i][k..][j - p - k] == raw[i][j - p];
      } else if i + 1 < |raw| {
        assert t[p + |raw[i]|..p + |raw[i]| + 2][j - p - |raw[i]|] == t[j];
      }
    }
  }

  /** A blank raw paragraph moves the cursor past its separator. */
  lemma BlankStep(t: string, raw: seq<string>, i: nat, startPos: nat)
    requires t == Join(raw, ParagraphBreak) && i < |raw| && Strip(raw[i]) == []
    requires startPos <= PieceStart(raw, |ParagraphBreak|, i) && SpaceBetween(t, startPos, PieceStart(raw, |ParagraphBreak|, i))
    ensures startPos + 2 <= PieceStart(raw, |ParagraphBreak|, i + 1)
    ensures SpaceBetween(t, startPos + 2, PieceStart(raw, |ParagraphBreak|, i + 1))
  {
    JoinPiece(raw, ParagraphBreak, i);
    assert raw[i][0..] == raw[i];
    SpaceAfterPiece(t, raw, i, 0);
    SpaceBetweenJoin(t, startPos, PieceStart(raw, |ParagraphBreak|, i), PieceStart(raw, |ParagraphBreak|, i + 1));
  }

  /** A non-blank raw paragraph is found exactly where its content sits. */
  lemma ContentFound(t: string, raw: seq<string>, i: nat, startPos: nat)
    requires t == Join(raw, ParagraphBreak) && i < |raw| && Strip(raw[i]) != []
    requires startPos <= PieceStart(raw, |ParagraphBreak|, i) && SpaceBetween(t, startPos, PieceStart(raw, |ParagraphBreak|, i))
    ensures Find(t, Strip(raw[i]), startPos) == Some(ContentStart(raw, i))
  {
    JoinPiece(raw, ParagraphBreak, i);
    ContentAt(t, raw[i], PieceStart(raw, |ParagraphBreak|, i));
    SpaceBeforeContent(t, raw, i, startPos);
    FindAfterSpace(t, Strip(raw[i]), startPos, ContentStart(raw, i));
  }

  /** After a non-blank raw paragraph the cursor sits at the end of its content, and only
      whitespace lies between there and the next piece. */
  lemma ContentEnd(t: string, raw: seq<string>, i: nat)
    requires t == Join(raw, ParagraphBreak) && i < |raw| && Strip(raw[i]) != []
    ensures ContentStart(raw, i) + |Strip(raw[i])| <= PieceStart(raw, |ParagraphBreak|, i + 1)
    ensures SpaceBetween(t, ContentStart(raw, i) + |Strip(raw[i])|, PieceStart(raw, |ParagraphBreak|, i + 1))
  {
    JoinPiece(raw, ParagraphBreak, i);
    SpaceAfterPiece(t, raw, i, LeadingSpaces(raw[i]) + |Strip(raw[i])|);
  }

  /** `split_into_paragraphs`: walks the raw paragraphs with a search cursor, skipping
      blank ones, and records each stripped paragraph with its offsets. */
  method SplitIntoParagraphs(text: string) returns (paragraphs: seq<Paragraph>)
    ensures paragraphs == ParagraphsOf(text)
  {
    var t := ReplaceCrlf(text);
    var raw := Split(t, ParagraphBreak);
    JoinSplit(t, ParagraphBreak);
    paragraphs := LocateParagraphs(t, raw);
  }

  /** The loop of `split_into_paragraphs` over the raw paragraphs of the normalised text `t`. */
  method LocateParagraphs(t: string, raw: seq<string>) returns (paragraphs: seq<Paragraph>)
    requires t == Join(raw, ParagraphBreak)
    ensures paragraphs == ParagraphsUpTo(Contents(raw), Starts(raw), |raw|)
  {
    paragraphs := [];
    var startPos: nat := 0;
    for i := 0 to |raw|
      invariant paragraphs == ParagraphsUpTo(Contents(raw), Starts(raw), i)
      invariant startPos <= PieceStart(raw, |ParagraphBreak|, i)
      invariant SpaceBetween(t, startPos, PieceStart(raw, |ParagraphBreak|, i))
    {
      paragraphs, startPos := LocateParagraph(t, raw, i, paragraphs, startPos);
    }
  }

  /** One pass of that loop: raw paragraph `i` is stripped and skipped when blank;
      otherwise it is searched for from the cursor and recorded, and the cursor moves to
      its end. */
  method LocateParagraph(t: string, raw: seq<string>, i: nat, paragraphs: seq<Paragraph>, startPos: nat)
    returns (paragraphs': seq<Paragraph>, startPos': nat)
    requires t == Join(raw, ParagraphBreak) && i < |raw|
    requires paragraphs == ParagraphsUpTo(Contents(raw), Starts(raw), i)
    requires startPos <= PieceStart(raw, |ParagraphBreak|, i) && SpaceBetween(t, startPos, PieceStart(raw, |ParagraphBreak|, i))
    ensures paragraphs' == ParagraphsUpTo(Contents(raw), Starts(raw), i + 1)
    ensures startPos' <= PieceStart(raw, |ParagraphBreak|, i + 1)
    ensures SpaceBetween(t, startPos', PieceStart(raw, |ParagraphBreak|, i + 1))
  {
    var para := Strip(raw[i]);
    assert Contents(raw)[i] == para;
    if para == [] {
      BlankStep(t, raw, i, startPos);
      paragraphs', startPos' := paragraphs, startPos + 2;
    } else {
      var found := FindParagraph(t, raw, i, startPos);
      match found {
        case None =>
          // `find` never reports -1 here, so the source's `continue` is never taken.
          assert false;
        case Some(paraPos) =>
          var endPos := paraPos + |para|;
          var paragraph := Paragraph(i, para, Span(paraPos, endPos), None, None);
          ContentEnd(t, raw, i);
          assert paragraph == Candidate(Contents(raw), Starts(raw), i);
          paragraphs' := paragraphs + [paragraph];
          startPos' := endPos;
      }
    }
  }

  /** `text.find(para, start_pos)` for a non-blank raw paragraph: it finds the content
      right after the whitespace that follows the cursor. */
  method FindParagraph(t: string, raw: seq<string>, i: nat, startPos: nat) returns (found: Option<nat>)
    requires t == Join(raw, ParagraphBreak) && i < |raw| && Strip(raw[i]) != []
    requires startPos <= PieceStart(raw, |ParagraphBreak|, i) && SpaceBetween(t, startPos, PieceStart(raw, |ParagraphBreak|, i))
    ensures found == Some(ContentStart(raw, i))
  {
    ContentFound(t, raw, i, startPos);
    found := Find(t, Strip(raw[i]), startPos);
  }

  // ---------------------------------------------------------------------------
  // What the paragraphs look like

  /** `p` sits in `t`: its content is `t[start:end]`. */
  predicate Placed(t: string, p: Paragraph)
  {
    p.position.start <= p.position.end <= |t| && t[p.position.start..p.position.end] == p.content
  }

  /** Non-empty, with no whitespace at either end. */
  predicate Trimmed(c: string)
  {
    c != [] && !IsSpace(c[0]) && !IsSpace(c[|c| - 1])
  }

  /** Ranges do not overlap and only move forward; indices strictly increase. */
  predicate InOrder(ps: seq<Paragraph>)
  {
    forall j, k :: 0 <= j < k < |ps| ==>
      ps[j].position.end <= ps[k].position.start && ps[j].index < ps[k].index
  }

  /** Every paragraph is the candidate its index names, for a non-empty content, and
      indices strictly increase. */
  lemma {:induction false} ParagraphsUpToAreCandidates(cs: seq<string>, ss: seq<nat>, k: nat)
    requires |cs| == |ss| && k <= |cs|
    ensures forall j :: 0 <= j < |ParagraphsUpTo(cs, ss, k)| ==>
      var p := ParagraphsUpTo(cs, ss, k)[j];
      p.index < k && cs[p.index] != [] && p == Candidate(cs, ss, p.index)
    ensures forall j, l :: 0 <= j < l < |ParagraphsUpTo(cs, ss, k)| ==>
      ParagraphsUpTo(cs, ss, k)[j].index < ParagraphsUpTo(cs, ss, k)[l].index
  {
    if k > 0 {
      ParagraphsUpToAreCandidates(cs, ss, k - 1);
      var prev := ParagraphsUpTo(cs, ss, k - 1);
      if cs[k - 1] != [] {
        var q := Candidate(cs, ss, k - 1);
        assert ParagraphsUpTo(cs, ss, k) == prev + [q];
        assert forall j :: 0 <= j < |prev| ==> (prev + [q])[j] == prev[j];
      }
    }
  }

  /** The content of a non-blank raw paragraph sits in the text at its start, trimmed. */
  lemma ContentPlaced(t: string, raw: seq<string>, i: nat)
    requires t == Join(raw, ParagraphBreak) && i < |raw| && Strip(raw[i]) != []
    ensures MatchAt(t, Strip(raw[i]), ContentStart(raw, i)) && Trimmed(Strip(raw[i]))
  {
    ContentFound(t, raw, i, PieceStart(raw, |ParagraphBreak|, i));
  }

  /** A paragraph's content ends before a later raw paragraph's content starts. */
  lemma ContentsInOrder(t: string, raw: seq<string>, a: nat, b: nat)
    requires t == Join(raw, ParagraphBreak) && a < b < |raw| && Strip(raw[a]) != []
    ensures ContentStart(raw, a) + |Strip(raw[a])| <= ContentStart(raw, b)
  {
    ContentEnd(t, raw, a);
    PieceStartMono(raw, a + 1, b);
  }

  /** A paragraph made from a non-blank raw paragraph sits in the text, trimmed. */
  lemma CandidatePlaced(t: string, raw: seq<string>, p: Paragraph)
    requires t == Join(raw, ParagraphBreak) && p.index < |raw| && Contents(raw)[p.index] != []
    requires p == Candidate(Contents(raw), Starts(raw), p.index)
    ensures Placed(t, p) && Trimmed(p.content)
  {
    var i := p.index;
    assert Contents(raw)[i] == Strip(raw[i]) && Starts(raw)[i] == ContentStart(raw, i);
    ContentPlaced(t, raw, i);
  }

  /** Of two paragraphs made from raw paragraphs, the one with the smaller index ends
      before the other starts. */
  lemma CandidatesInOrder(t: string, raw: seq<string>, p: Paragraph, q: Paragraph)
    requires t == Join(raw, ParagraphBreak) && p.index < q.index < |raw| && Contents(raw)[p.index] != []
    requires p == Candidate(Contents(raw), Starts(raw), p.index)
    requires q == Candidate(Contents(raw), Starts(raw), q.index)
    ensures p.position.end <= q.position.start
  {
    var a, b := p.index, q.index;
    assert Contents(raw)[a] == Strip(raw[a]) && Starts(raw)[a] == ContentStart(raw, a);
    assert Starts(raw)[b] == ContentStart(raw, b);
    ContentsInOrder(t, raw, a, b);
  }

  /** The paragraphs of a text, against its normalised form: each content is the slice at
      its range, non-empty and trimmed, and ranges and indices increase. */
  lemma ParagraphsOfInOrder(text: string)
    ensures forall j :: 0 <= j < |ParagraphsOf(text)| ==>
      Placed(ReplaceCrlf(text), ParagraphsOf(text)[j]) && Trimmed(ParagraphsOf(text)[j].content)
    ensures InOrder(ParagraphsOf(text))
  {
    var t := ReplaceCrlf(text);
    var raw := RawParagraphs(text);
    var ps := ParagraphsOf(text);
    JoinSplit(t, ParagraphBreak);
    ParagraphsUpToAreCandidates(Contents(raw), Starts(raw), |raw|);
    forall j | 0 <= j < |ps| ensures Placed(t, ps[j]) && Trimmed(ps[j].content) {
      CandidatePlaced(t, raw, ps[j]);
    }
    forall j, l | 0 <= j < l < |ps|
      ensures ps[j].position.end <= ps[l].position.start && ps[j].index < ps[l].index
    {
      CandidatesInOrder(t, raw, ps[j], ps[l]);
    }
  }

  /** A slice of a text without `pat` has no `pat` either. */
  lemma SliceLacks(r: string, pat: string, a: nat, b: nat)
    requires |pat| > 0 && a <= b <= |r| && !Contains(r, pat)
    ensures !Contains(r[a..b], pat)
  {
    ContainsIff(r, pat);
    NoMatchInSlice(r, pat, a, b);
  }

  /** The content of a raw paragraph has no blank line when the raw paragraph has none. */
  lemma ContentLacksBreak(r: string)
    requires !Contains(r, ParagraphBreak)
    ensures !Contains(Strip(r), ParagraphBreak)
  {
    if Strip(r) != [] {
      SliceLacks(r, ParagraphBreak, LeadingSpaces(r), LeadingSpaces(r) + |Strip(r)|);
    }
  }

  /** No paragraph contains a blank line: the text was split at every one. */
  lemma ParagraphsLackBreak(text: string)
    ensures forall j :: 0 <= j < |ParagraphsOf(text)| ==> !Contains(ParagraphsOf(text)[j].content, ParagraphBreak)
  {
    var raw := RawParagraphs(text);
    var ps := ParagraphsOf(text);
    SplitPiecesLackSeparator(ReplaceCrlf(text), ParagraphBreak);
    ParagraphsUpToAreCandidates(Contents(raw), Starts(raw), |raw|);
    forall j | 0 <= j < |ps| ensures !Contains(ps[j].content, ParagraphBreak) {
      var i := ps[j].index;
      assert ps[j].content == Contents(raw)[i] == Strip(raw[i]);
      ContentLacksBreak(raw[i]);
    }
  }

  // ---------------------------------------------------------------------------
  // Sentences

  /** A sentence record; `documentId` is filled in by the document analysis. */
  datatype Sentence = Sentence(index: nat, paragraphIndex: nat, content: string, position: Span,
                               id: string, documentId: Option<int>)

  /** The content id of every sentence: `generate_text_id`. */
  function TextIds(md5: Md5): string -> string
  {
    text => GenerateTextId(md5, text)
  }

  /** The sentence for token `i`, found at offset `pos` of paragraph `p`'s content, with
      the id that `ids` gives its text. */
  function SentenceAt(ids: string -> string, p: Paragraph, token: string, i: nat, pos: nat): Sentence
  {
    var start := p.position.start + pos;
    Sentence(i, p.index, token, Span(start, start + |token|), ids(token), None)
  }

  /** The sentences for tokens `i ..` of paragraph `p`, searching its content from `startPos`:
      a token that is not found is skipped, and a found one moves the search past itself. */
  function SentencesFrom(ids: string -> string, p: Paragraph, tokens: seq<string>, i: nat, startPos: nat): seq<Sentence>
    requires i <= |tokens|
    decreases |tokens| - i
  {
    if i == |tokens| then []
    else match Find(p.content, tokens[i], startPos)
      case None => SentencesFrom(ids, p, tokens, i + 1, startPos)
      case Some(pos) =>
        [SentenceAt(ids, p, tokens[i], i, pos)] + SentencesFrom(ids, p, tokens, i + 1, pos + |tokens[i]|)
  }

  /** The sentences of a paragraph, or the tokenizer's error. */
  function SentencesOf(ids: string -> string, tokenize: Tokenizer, p: Paragraph): Result<seq<Sentence>, string>
  {
    match tokenize(p.content)
    case Failure(e) => Failure(e)
    case Success(tokens) => Success(SentencesFrom(ids, p, tokens, 0, 0))
  }

  /** `s` lies inside paragraph `p`: its content occurs in `p`'s content at its offset from
      the paragraph start, and it carries `p`'s index and its own content id. */
  predicate InParagraph(ids: string -> string, p: Paragraph, s: Sentence)
  {
    p.position.start <= s.position.start &&
    s.position.end == s.position.start + |s.content| &&
    MatchAt(p.content, s.content, s.position.start - p.position.start) &&
    s.paragraphIndex == p.index && s.id == ids(s.content)
  }

  /** Sentences do not overlap and only move forward; token indices strictly increase. */
  predicate SentencesInOrder(ss: seq<Sentence>)
  {
    forall j, l :: 0 <= j < l < |ss| ==>
      ss[j].position.end <= ss[l].position.start && ss[j].index < ss[l].index
  }

  /** Every sentence found from `startPos` on lies in the paragraph past `startPos`, comes
      from a token at or after `i`, and the sentences are in order. */
  lemma {:induction false} SentencesFromInOrder(ids: string -> string, p: Paragraph, tokens: seq<string>, i: nat, startPos: nat)
    requires i <= |tokens|
    ensures forall j :: 0 <= j < |SentencesFrom(ids, p, tokens, i, startPos)| ==>
      var s := SentencesFrom(ids, p, tokens, i, startPos)[j];
      InParagraph(ids, p, s) && p.position.start + startPos <= s.position.start &&
      i <= s.index < |tokens| && s.content == tokens[s.index]
    ensures SentencesInOrder(SentencesFrom(ids, p, tokens, i, startPos))
    decreases |tokens| - i
  {
    if i < |tokens| {
      match Find(p.content, tokens[i], startPos)
      case None =>
        SentencesFromInOrder(ids, p, tokens, i + 1, startPos);
      case Some(pos) =>
        var next := pos + |tokens[i]|;
        SentencesFromInOrder(ids, p, tokens, i + 1, next);
        var rest := SentencesFrom(ids, p, tokens, i + 1, next);
        var s := SentenceAt(ids, p, tokens[i], i, pos);
        assert SentencesFrom(ids, p, tokens, i, startPos) == [s] + rest;
        assert s.position.start - p.position.start == pos;
    }
  }

  /** `split_paragraph_into_sentences`: tokenizes the content and searches each token
      from a cursor that moves past every sentence found; `ids` is `generate_text_id`
      (`TextIds`). A tokenizer failure is passed on as the exception it raises. */
  method SplitParagraphIntoSentences(ids: string -> string, tokenize: Tokenizer, p: Paragraph)
    returns (r: Result<seq<Sentence>, string>)
    ensures r == SentencesOf(ids, tokenize, p)
  {
    var tokenized := tokenize(p.content);
    if tokenized.Failure? {
      return Failure(tokenized.error);
    }
    var sentences := LocateSentences(ids, p, tokenized.value);
    r := Success(sentences);
  }

  /** The loop of `split_paragraph_into_sentences` over the tokens of paragraph `p`. */
  method LocateSentences(ids: string -> string, p: Paragraph, tokens: seq<string>)
    returns (sentences: seq<Sentence>)
    ensures sentences == SentencesFrom(ids, p, tokens, 0, 0)
  {
    sentences := [];
    var startPos: nat := 0;
    for i := 0 to |tokens|
      invariant sentences + SentencesFrom(ids, p, tokens, i, startPos) == SentencesFrom(ids, p, tokens, 0, 0)
    {
      var sentText := tokens[i];
      var found := Find(p.content, sentText, startPos);
      match found {
        case None =>
        case Some(sentPos) =>
          var sentence := SentenceAt(ids, p, sentText, i, sentPos);
          assert SentencesFrom(ids, p, tokens, i, startPos)
              == [sentence] + SentencesFrom(ids, p, tokens, i + 1, sentPos + |sentText|);
          sentences := sentences + [sentence];
          startPos := sentPos + |sentText|;
      }
    }
  }

  /** A sentence inside a paragraph that sits in the text sits in the text too. */
  lemma SentencePlaced(ids: string -> string, t: string, p: Paragraph, s: Sentence)
    requires Placed(t, p) && InParagraph(ids, p, s)
    ensures s.position.start <= s.position.end <= |t|
    ensures t[s.position.start..s.position.end] == s.content
  {
    var a := s.position.start - p.position.start;
    SliceWithin(t, p.content, p.position.start, a, a + |s.content|);
  }

  /** Every sentence of a paragraph lies inside it, and the sentences are in order. */
  lemma SentencesOfInParagraph(ids: string -> string, tokenize: Tokenizer, p: Paragraph)
    ensures SentencesOf(ids, tokenize, p).Success? ==>
      var ss := SentencesOf(ids, tokenize, p).value;
      SentencesInOrder(ss) && forall j :: 0 <= j < |ss| ==> InParagraph(ids, p, ss[j])
  {
    if tokenize(p.content).Success? {
      SentencesFromInOrder(ids, p, tokenize(p.content).value, 0, 0);
    }
  }

  // ---------------------------------------------------------------------------
  // Document analysis

  datatype Statistics = Statistics(paragraphCount: nat, sentenceCount: nat)

  /** The analysis of a document; on failure `error` holds the message and both lists are
      empty. */
  datatype Analysis = Analysis(documentId: int, paragraphs: seq<Paragraph>, sentences: seq<Sentence>,
                               statistics: Option<Statistics>, error: Option<string>)

  /** A paragraph with its content id and document id filled in. */
  function Tagged(ids: string -> string, documentId: int, p: Paragraph): Paragraph
  {
    p.(id := Some(ids(p.content)), documentId := Some(documentId))
  }

  /** The sentences of paragraphs `0 .. k-1`, in paragraph order, or the first
      tokenizer error. */
  function SentencesUpTo(ids: string -> string, tokenize: Tokenizer, ps: seq<Paragraph>, k: nat)
    : Result<seq<Sentence>, string>
    requires k <= |ps|
  {
    if k == 0 then Success([])
    else match SentencesUpTo(ids, tokenize, ps, k - 1)
      case Failure(e) => Failure(e)
      case Success(prev) =>
        match SentencesOf(ids, tokenize, ps[k - 1])
        case Failure(e) => Failure(e)
        case Success(ss) => Success(prev + ss)
  }

  /** What `analyze_document` returns for the paragraphs `ps` of a document. */
  function AnalysisOf(ids: string -> string, tokenize: Tokenizer, documentId: int, ps: seq<Paragraph>): (a: Analysis)
    ensures a.documentId == documentId
    ensures a.error.Some? <==> SentencesUpTo(ids, tokenize, ps, |ps|).Failure?
    ensures a.error.Some? ==> a.paragraphs == [] && a.sentences == [] && a.statistics.None?
    ensures a.error.None? ==> a.statistics == Some(Statistics(|a.paragraphs|, |a.sentences|))
    ensures a.error.None? ==> |a.paragraphs| == |ps|
    ensures forall j :: 0 <= j < |a.paragraphs| ==>
      a.paragraphs[j].documentId == Some(documentId) && a.paragraphs[j].id == Some(ids(a.paragraphs[j].content))
    ensures forall j :: 0 <= j < |a.sentences| ==> a.sentences[j].documentId == Some(documentId)
    ensures a.error.None? ==> forall j :: 0 <= j < |ps| ==>
      a.paragraphs[j] == ps[j].(id := Some(ids(ps[j].content)), documentId := Some(documentId))
    ensures a.error.None? ==> a.sentences == Stamped(documentId, SentencesUpTo(ids, tokenize, ps, |ps|).value)
  {
    match SentencesUpTo(ids, tokenize, ps, |ps|)
    case Failure(e) => Analysis(documentId, [], [], None, Some(e))
    case Success(ss) =>
      var tagged := seq(|ps|, k requires 0 <= k < |ps| => Tagged(ids, documentId, ps[k]));
      var stamped := Stamped(documentId, ss);
      Analysis(documentId, tagged, stamped, Some(Statistics(|tagged|, |stamped|)), None)
  }

  /** The sentences with their document id filled in. */
  function Stamped(documentId: int, ss: seq<Sentence>): (r: seq<Sentence>)
    ensures |r| == |ss| && forall k :: 0 <= k < |ss| ==> r[k] == ss[k].(documentId := Some(documentId))
  {
    seq(|ss|, k requires 0 <= k < |ss| => ss[k].(documentId := Some(documentId)))
  }

  /** The sentences of the first `k` paragraphs begin the sentences of the first `m`. */
  lemma {:induction false} SentencesUpToPrefix(ids: string -> string, tokenize: Tokenizer, ps: seq<Paragraph>, k: nat, m: nat)
    requires k <= m <= |ps| && SentencesUpTo(ids, tokenize, ps, m).Success?
    ensures SentencesUpTo(ids, tokenize, ps, k).Success?
    ensures SentencesUpTo(ids, tokenize, ps, k).value <= SentencesUpTo(ids, tokenize, ps, m).value
    decreases m - k
  {
    if k < m {
      SentencesUpToPrefix(ids, tokenize, ps, k, m - 1);
    }
  }

  /** The sentences of paragraph `j` are exactly those its own tokenization gives,
      and they sit in the document's list right after those of the paragraphs before. */
  lemma {:induction false} ParagraphSentences(ids: string -> string, tokenize: Tokenizer, ps: seq<Paragraph>, j: nat)
    requires j < |ps| && SentencesUpTo(ids, tokenize, ps, |ps|).Success?
    ensures SentencesUpTo(ids, tokenize, ps, j).Success? && SentencesOf(ids, tokenize, ps[j]).Success?
    ensures SentencesUpTo(ids, tokenize, ps, j).value + SentencesOf(ids, tokenize, ps[j]).value
      <= SentencesUpTo(ids, tokenize, ps, |ps|).value
  {
    SentencesUpToPrefix(ids, tokenize, ps, j + 1, |ps|);
    SentencesUpToStep(ids, tokenize, ps, j);
  }

  /** A successful collection up to paragraph `j + 1` adds paragraph `j`'s sentences. */
  lemma {:induction false} SentencesUpToStep(ids: string -> string, tokenize: Tokenizer, ps: seq<Paragraph>, j: nat)
    requires j < |ps| && SentencesUpTo(ids, tokenize, ps, j + 1).Success?
    ensures SentencesUpTo(ids, tokenize, ps, j).Success? && SentencesOf(ids, tokenize, ps[j]).Success?
    ensures SentencesUpTo(ids, tokenize, ps, j + 1).value ==
      SentencesUpTo(ids, tokenize, ps, j).value + SentencesOf(ids, tokenize, ps[j]).value
  {
  }



  /** Every sentence of `ss` slices its content out of `t` and carries its content id. */
  predicate SentencesPlaced(ids: string -> string, t: string, ss: seq<Sentence>)
  {
    forall x :: 0 <= x < |ss| ==>
      ss[x].position.start <= ss[x].position.end <= |t| &&
      t[ss[x].position.start..ss[x].position.end] == ss[x].content && ss[x].id == ids(ss[x].content)
  }

  /** Sentences of `ss` never overlap, and their paragraph indices never decrease. */
  predicate SentencesForward(ss: seq<Sentence>)
  {
    forall x, y :: 0 <= x < y < |ss| ==>
      ss[x].paragraphIndex <= ss[y].paragraphIndex && ss[x].position.end <= ss[y].position.start
  }

  /** Every sentence of `ss` belongs to paragraph `p` or an earlier one, and ends inside `p` or before it. */
  predicate SentencesUpToParagraph(ss: seq<Sentence>, p: Paragraph)
  {
    forall x :: 0 <= x < |ss| ==> ss[x].paragraphIndex <= p.index && ss[x].position.end <= p.position.end
  }

  /** Appending the sentences of a later paragraph keeps the list placed and forward. */
  lemma {:induction false} SentencesAppend(ids: string -> string, tokenize: Tokenizer, t: string, prev: seq<Sentence>, p: Paragraph)
    requires Placed(t, p) && SentencesOf(ids, tokenize, p).Success?
    requires SentencesPlaced(ids, t, prev) && SentencesForward(prev)
    requires forall x :: 0 <= x < |prev| ==> prev[x].paragraphIndex < p.index && prev[x].position.end <= p.position.start
    ensures var all := prev + SentencesOf(ids, tokenize, p).value;
      SentencesPlaced(ids, t, all) && SentencesForward(all) && SentencesUpToParagraph(all, p)
  {
    var own := SentencesOf(ids, tokenize, p).value;
    var all := prev + own;
    SentencesOfInParagraph(ids, tokenize, p);
    forall y | 0 <= y < |own|
      ensures own[y].position.start <= own[y].position.end <= |t| && t[own[y].position.start..own[y].position.end] == own[y].content
      ensures p.position.start <= own[y].position.start && own[y].position.end <= p.position.end
    {
      SentencePlaced(ids, t, p, own[y]);
    }
    assert forall y :: 0 <= y < |own| ==> all[|prev| + y] == own[y];
    assert forall x :: 0 <= x < |prev| ==> all[x] == prev[x];
    assert SentencesForward(all) by {
      forall x, y | 0 <= x < y < |all|
        ensures all[x].paragraphIndex <= all[y].paragraphIndex && all[x].position.end <= all[y].position.start
      {
        if y < |prev| {
        } else if x < |prev| {
          assert all[y] == own[y - |prev|];
        } else {
          assert all[x] == own[x - |prev|] && all[y] == own[y - |prev|];
        }
      }
    }
  }

  /** Across the whole document the sentences come paragraph by paragraph: each
      slices its content out of the text and carries its content id, their paragraph
      indices never decrease and they never overlap. */
  lemma {:induction false} SentencesUpToInOrder(ids: string -> string, tokenize: Tokenizer, t: string, ps: seq<Paragraph>, k: nat)
    requires k <= |ps| && InOrder(ps) && forall j :: 0 <= j < |ps| ==> Placed(t, ps[j])
    ensures SentencesUpTo(ids, tokenize, ps, k).Success? ==>
      var all := SentencesUpTo(ids, tokenize, ps, k).value;
      SentencesPlaced(ids, t, all) && SentencesForward(all) && (k > 0 ==> SentencesUpToParagraph(all, ps[k - 1]))
  {
    if k > 0 && SentencesUpTo(ids, tokenize, ps, k).Success? {
      SentencesUpToInOrder(ids, tokenize, t, ps, k - 1);
      var prev := SentencesUpTo(ids, tokenize, ps, k - 1).value;
      if k > 1 {
        assert ps[k - 2].position.end <= ps[k - 1].position.start && ps[k - 2].index < ps[k - 1].index;
      }
      SentencesAppend(ids, tokenize, t, prev, ps[k - 1]);
    }
  }

  /** The sentences `analyze_document` reports for a text: each one slices its content
      out of the normalised text and carries its content id and the document id; they
      come paragraph by paragraph and never overlap. */
  lemma {:induction false} AnalysisSentences(md5: Md5, tokenize: Tokenizer, documentId: int, text: string)
    ensures var a := AnalysisOf(TextIds(md5), tokenize, documentId, ParagraphsOf(text));
      a.error.None? ==>
        SentencesPlaced(TextIds(md5), ReplaceCrlf(text), a.sentences) && SentencesForward(a.sentences)
  {
    var ps := ParagraphsOf(text);
    var ids := TextIds(md5);
    var a := AnalysisOf(ids, tokenize, documentId, ps);
    ParagraphsOfInOrder(text);
    SentencesUpToInOrder(ids, tokenize, ReplaceCrlf(text), ps, |ps|);
    if a.error.None? {
      StampedKeepsOrder(ids, ReplaceCrlf(text), documentId, SentencesUpTo(ids, tokenize, ps, |ps|).value);
    }
  }

  /** Setting the document id moves no sentence and changes no content. */
  lemma {:induction false} StampedKeepsOrder(ids: string -> string, t: string, documentId: int, ss: seq<Sentence>)
    requires SentencesPlaced(ids, t, ss) && SentencesForward(ss)
    ensures SentencesPlaced(ids, t, Stamped(documentId, ss)) && SentencesForward(Stamped(documentId, ss))
  {
    var r := Stamped(documentId, ss);
    assert forall x :: 0 <= x < |r| ==> r[x] == ss[x].(documentId := Some(documentId));
  }

  /** Once a paragraph's tokenization fails, the analysis keeps that error. */
  lemma {:induction false} FailureSticks(ids: string -> string, tokenize: Tokenizer, ps: seq<Paragraph>, k: nat, m: nat, e: string)
    requires k <= m <= |ps| && SentencesUpTo(ids, tokenize, ps, k) == Failure(e)
    ensures SentencesUpTo(ids, tokenize, ps, m) == Failure(e)
    decreases m - k
  {
    if k < m {
      FailureSticks(ids, tokenize, ps, k + 1, m, e);
    }
  }

  /** `analyze_document`: splits the text into paragraphs, collects the sentences of each
      paragraph in turn while tagging the paragraph with its ids, then stamps every sentence
      with the document id; a tokenizer failure turns the whole result into an error. */
  method AnalyzeDocument(md5: Md5, tokenize: Tokenizer, documentId: int, text: string) returns (a: Analysis)
    ensures a == AnalysisOf(TextIds(md5), tokenize, documentId, ParagraphsOf(text))
  {
    var paragraphs := SplitIntoParagraphs(text);
    a := AnalyzeParagraphs(TextIds(md5), tokenize, documentId, paragraphs);
  }

  /** The body of `analyze_document` after the paragraphs are known. */
  method AnalyzeParagraphs(ids: string -> string, tokenize: Tokenizer, documentId: int, ps: seq<Paragraph>)
    returns (a: Analysis)
    ensures a == AnalysisOf(ids, tokenize, documentId, ps)
  {
    var paragraphs := ps;
    var sentences: seq<Sentence> := [];
    for k := 0 to |ps|
      invariant |paragraphs| == |ps|
      invariant SentencesUpTo(ids, tokenize, ps, k) == Success(sentences)
      invariant forall j :: 0 <= j < k ==> paragraphs[j] == Tagged(ids, documentId, ps[j])
      invariant forall j :: k <= j < |ps| ==> paragraphs[j] == ps[j]
    {
      var r := SplitParagraphIntoSentences(ids, tokenize, paragraphs[k]);
      if r.Failure? {
        FailureSticks(ids, tokenize, ps, k + 1, |ps|, r.error);
        return Analysis(documentId, [], [], None, Some(r.error));
      }
      sentences := sentences + r.value;
      paragraphs := paragraphs[k := Tagged(ids, documentId, paragraphs[k])];
    }
    sentences := StampSentences(documentId, sentences);
    a := Analysis(documentId, paragraphs, sentences, Some(Statistics(|paragraphs|, |sentences|)), None);
  }

  /** The last loop of `analyze_document`: sets `document_id` on every sentence in place. */
  method StampSentences(documentId: int, ss: seq<Sentence>) returns (sentences: seq<Sentence>)
    ensures sentences == Stamped(documentId, ss)
  {
    sentences := ss;
    for j := 0 to |sentences|
      invariant |sentences| == |ss|
      invariant forall l :: 0 <= l < j ==> sentences[l] == ss[l].(documentId := Some(documentId))
      invariant forall l :: j <= l < |sentences| ==> sentences[l] == ss[l]
    {
      sentences := sentences[j := sentences[j].(documentId := Some(documentId))];
    }
  }
}
