/** Turning vector-store search hits into cited results. The store and the
    similarity search are not modelled: the caller supplies whether the store
    exists and what the search returned or raised. */
module QueryEngine {
  import opened Wrappers
  import opened PyStr
  import opened Addressing
  import opened DocumentIndexing
  import TextAnalysis

  /** A search hit: the text and metadata of a stored chunk. */
  datatype Hit = Hit(pageContent: string, metadata: Metadata)

  /** A formatted result, or one of the two system records that stand for the whole answer. */
  datatype Record =
    | Formatted(matchedText: string, filename: MetaValue, citation: string,
                page: Option<MetaValue>, paragraph: Option<MetaValue>)
    | Notice(matchedText: string, filename: MetaValue, citation: string)

  const NoIndexRecord: Record :=
    Notice("No documents have been indexed yet. Please upload documents first.", MStr("System Message"), "System")

  /** The record that replaces the results when anything raises `e`. */
  function ErrorRecord(e: string): (r: Record)
    ensures r.Notice? && r.filename == MStr("System Error") && r.citation == "System"
  {
    Notice("Error querying vector database: " + e + ". Try uploading documents first.", MStr("System Error"), "System")
  }

  /** Python truthiness of a looked-up value: `None`, `0` and `""` are false. */
  predicate Truthy(v: Option<MetaValue>)
  {
    match v
    case None => false
    case Some(MInt(i)) => i != 0
    case Some(MStr(s)) => s != []
  }

  /** `f"{v}"`. */
  function Show(v: MetaValue): string
  {
    match v
    case MInt(i) => IntToString(i)
    case MStr(s) => s
  }

  /** The page of a hit: the `page` metadata when present, else parsed from the text. */
  function PageOf(hit: Hit): Option<MetaValue>
  {
    if "page" in hit.metadata then Some(hit.metadata["page"])
    else match ExtractPageInfo(hit.pageContent)
      case None => None
      case Some(n) => Some(MInt(n))
  }

  /** `extract_paragraph_info(text)` as a function value, for one hash function. */
  function ParagraphNumbers(md5: TextAnalysis.Md5): (ids: string -> nat)
    ensures forall text :: ids(text) == ParagraphId(md5, text)
  {
    text => ParagraphId(md5, text)
  }

  /** The paragraph of a hit: the `paragraph_id` metadata when present, else the
      paragraph number `ids` gives its text. */
  function ParagraphOf(ids: string -> nat, hit: Hit): Option<MetaValue>
  {
    if "paragraph_id" in hit.metadata then Some(hit.metadata["paragraph_id"])
    else Some(MInt(ids(hit.pageContent)))
  }

  /** The citation: the file name, then the page and the paragraph when they are truthy. */
  function Citation(filename: MetaValue, page: Option<MetaValue>, paragraph: Option<MetaValue>): string
  {
    Show(filename) + (if Truthy(page) then ", Page " + Show(page.value) else "") +
    (if Truthy(paragraph) then ", Para " + Show(paragraph.value) else "")
  }

  /** The result for one hit. */
  function FormatHit(ids: string -> nat, hit: Hit): Record
  {
    var filename := FilenameOf(hit.metadata);
    var page := PageOf(hit);
    var paragraph := ParagraphOf(ids, hit);
    Formatted(hit.pageContent, filename, Citation(filename, page, paragraph), page, paragraph)
  }

  /** The results for the hits of a successful search, one per hit. */
  function FormatAll(ids: string -> nat, hits: seq<Hit>): (r: seq<Record>)
    ensures |r| == |hits|
    ensures forall j :: 0 <= j < |hits| ==> r[j] == FormatHit(ids, hits[j])
  {
    seq(|hits|, j requires 0 <= j < |hits| => FormatHit(ids, hits[j]))
  }

  /** What `query_documents` returns, with the paragraph numbers of hits that lack
      one computed by `ids`. */
  function QueryResult(ids: string -> nat, storeExists: bool, search: Result<seq<Hit>, string>): seq<Record>
  {
    if !storeExists then [NoIndexRecord]
    else match search
      case Failure(e) => [ErrorRecord(e)]
      case Success(hits) => FormatAll(ids, hits)
  }

  /** `query_documents`, with the paragraph number of a hit without `paragraph_id`
      computed from its text (see the as-written model below for the source's call). */
  method QueryDocuments(md5: TextAnalysis.Md5, storeExists: bool, search: Result<seq<Hit>, string>)
    returns (records: seq<Record>)
    ensures records == QueryResult(ParagraphNumbers(md5), storeExists, search)
  {
    if !storeExists {
      return [NoIndexRecord];
    }
    match search {
      case Failure(e) =>
        return [ErrorRecord(e)];
      case Success(hits) =>
        records := FormatHits(ParagraphNumbers(md5), hits);
    }
  }

  /** The loop over the hits of a successful search. */
  method FormatHits(ids: string -> nat, hits: seq<Hit>) returns (records: seq<Record>)
    ensures |records| == |hits|
    ensures forall j :: 0 <= j < |hits| ==> records[j] == FormatHit(ids, hits[j])
  {
    records := [];
    for i := 0 to |hits|
      invariant |records| == i
      invariant forall j :: 0 <= j < i ==> records[j] == FormatHit(ids, hits[j])
    {
      var formatted := FormatOne(ids, hits[i]);
      records := records + [formatted];
    }
  }

  /** One pass of that loop: the page, the paragraph and the citation built up piece by piece. */
  method FormatOne(ids: string -> nat, result: Hit) returns (formatted: Record)
    ensures formatted == FormatHit(ids, result)
  {
    var pageNum: Option<MetaValue>;
    if "page" in result.metadata {
      pageNum := Some(result.metadata["page"]);
    } else {
      var parsed := ExtractPageInfo(result.pageContent);
      pageNum := if parsed.Some? then Some(MInt(parsed.value)) else None;
    }
    assert pageNum == PageOf(result);
    var paragraphNum: Option<MetaValue>;
    if "paragraph_id" in result.metadata {
      paragraphNum := Some(result.metadata["paragraph_id"]);
    } else {
      paragraphNum := Some(MInt(ids(result.pageContent)));
    }
    assert paragraphNum == ParagraphOf(ids, result);
    var citation := BuildCitation(FilenameOf(result.metadata), pageNum, paragraphNum);
    formatted := Formatted(result.pageContent, FilenameOf(result.metadata), citation, pageNum, paragraphNum);
  }

  /** The citation string, extended in place with the page and the paragraph. */
  method BuildCitation(filename: MetaValue, pageNum: Option<MetaValue>, paragraphNum: Option<MetaValue>)
    returns (citation: string)
    ensures citation == Citation(filename, pageNum, paragraphNum)
  {
    citation := Show(filename);
    if Truthy(pageNum) {
      citation := citation + (", Page " + Show(pageNum.value));
    }
    assert citation == Show(filename) + (if Truthy(pageNum) then ", Page " + Show(pageNum.value) else "");
    if Truthy(paragraphNum) {
      citation := citation + (", Para " + Show(paragraphNum.value));
    }
  }

  // ---------------------------------------------------------------------------
  // Properties of the results

  /** A missing store gives exactly the one "System Message" record, a search that
      raises exactly one "System Error" record, and a successful search one
      formatted result per hit, in hit order, carrying that hit's text, file name,
      page and paragraph. */
  lemma QueryResultShape(ids: string -> nat, storeExists: bool, search: Result<seq<Hit>, string>)
    ensures var r := QueryResult(ids, storeExists, search);
      (!storeExists ==> r == [NoIndexRecord]) &&
      (storeExists && search.Failure? ==> |r| == 1 && r[0].Notice? && r[0].filename == MStr("System Error")) &&
      (storeExists && search.Success? ==>
        |r| == |search.value| &&
        forall j :: 0 <= j < |r| ==>
          r[j].Formatted? && r[j].matchedText == search.value[j].pageContent &&
          r[j].filename == FilenameOf(search.value[j].metadata) &&
          r[j].page == PageOf(search.value[j]) && r[j].paragraph == ParagraphOf(ids, search.value[j]))
  {
  }

  /** Every formatted citation starts with the file name; it is the bare file name
      exactly when neither page nor paragraph is truthy, and otherwise ends with
      the paragraph part or, without a paragraph, with the page part. */
  lemma CitationParts(filename: MetaValue, page: Option<MetaValue>, paragraph: Option<MetaValue>)
    ensures var c := Citation(filename, page, paragraph);
      StartsWith(c, Show(filename)) &&
      (c == Show(filename) <==> !Truthy(page) && !Truthy(paragraph)) &&
      (Truthy(paragraph) ==> EndsWith(c, ", Para " + Show(paragraph.value))) &&
      (Truthy(page) && !Truthy(paragraph) ==> EndsWith(c, ", Page " + Show(page.value)))
  {
    var c := Citation(filename, page, paragraph);
    var f := Show(filename);
    var pagePart := if Truthy(page) then ", Page " + Show(page.value) else "";
    var paraPart := if Truthy(paragraph) then ", Para " + Show(paragraph.value) else "";
    assert c == f + pagePart + paraPart;
    assert c[..|f|] == f;
    assert Truthy(page) ==> |pagePart| > 0;
    assert Truthy(paragraph) ==> |paraPart| > 0;
    assert c[|c| - |paraPart|..] == paraPart;
    assert paraPart == [] ==> c[|c| - |pagePart|..] == pagePart;
  }

  /** For a chunk the indexer tagged, the page and paragraph reported agree with the
      indexer: the paragraph is the content's paragraph number and the page is the
      page named in the content, when that is a non-zero page. */
  lemma IndexedHitAgrees(md5: TextAnalysis.Md5, m: Metadata, content: string)
    requires "page" !in m
    ensures var hit := Hit(content, ChunkMetadata(ParagraphIds(md5), m, content));
      ParagraphOf(ParagraphNumbers(md5), hit) == Some(MInt(ParagraphId(md5, content))) &&
      (TruthyPage(ExtractPageInfo(content)) ==> PageOf(hit) == Some(MInt(ExtractPageInfo(content).value))) &&
      (Truthy(PageOf(hit)) <==> TruthyPage(ExtractPageInfo(content)))
  {
  }

  // ---------------------------------------------------------------------------
  // The paragraph call as written

  /** What Python raises when the one-parameter `extract_paragraph_info` is called
      with a text and a file name. */
  const ArityError: string := "extract_paragraph_info() takes 1 positional argument but 2 were given"

  /** The paragraph of a hit as the source computes it: a hit without `paragraph_id`
      makes the two-argument call, which raises. */
  function ParagraphOfAsWritten(hit: Hit): Result<Option<MetaValue>, string>
  {
    if "paragraph_id" in hit.metadata then Success(Some(hit.metadata["paragraph_id"]))
    else Failure(ArityError)
  }

  /** The results of a successful search as the source computes them: the first hit
      whose paragraph call raises turns the whole answer into that error. */
  function FormatHitsAsWritten(hits: seq<Hit>): Result<seq<Record>, string>
  {
    if hits == [] then Success([])
    else match ParagraphOfAsWritten(hits[0])
      case Failure(e) => Failure(e)
      case Success(paragraph) =>
        var filename := FilenameOf(hits[0].metadata);
        var page := PageOf(hits[0]);
        var first := Formatted(hits[0].pageContent, filename, Citation(filename, page, paragraph), page, paragraph);
        match FormatHitsAsWritten(hits[1..])
        case Failure(e) => Failure(e)
        case Success(rest) => Success([first] + rest)
  }

  /** `query_documents` as written. */
  function QueryResultAsWritten(storeExists: bool, search: Result<seq<Hit>, string>): seq<Record>
  {
    if !storeExists then [NoIndexRecord]
    else match search
      case Failure(e) => [ErrorRecord(e)]
      case Success(hits) =>
        match FormatHitsAsWritten(hits)
        case Failure(e) => [ErrorRecord(e)]
        case Success(rs) => rs
  }

  /** As written, a single hit without `paragraph_id` replaces every result by one
      "System Error" record, while the one-argument call keeps one result per hit. */
  lemma AsWrittenLosesResults(md5: TextAnalysis.Md5, hits: seq<Hit>, k: nat)
    requires k < |hits| && "paragraph_id" !in hits[k].metadata
    ensures QueryResultAsWritten(true, Success(hits)) == [ErrorRecord(ArityError)]
    ensures |QueryResult(ParagraphNumbers(md5), true, Success(hits))| == |hits|
  {
    AsWrittenFails(hits, k);
  }

  lemma {:induction false} AsWrittenFails(hits: seq<Hit>, k: nat)
    requires k < |hits| && "paragraph_id" !in hits[k].metadata
    ensures FormatHitsAsWritten(hits) == Failure(ArityError)
  {
    if k > 0 && "paragraph_id" in hits[0].metadata {
      AsWrittenFails(hits[1..], k - 1);
    }
  }

  /** When every hit carries `paragraph_id`, the source's call is never reached and
      the results are those of the corrected call. */
  lemma {:induction false} AsWrittenAgreesWhenIndexed(ids: string -> nat, hits: seq<Hit>)
    requires forall j :: 0 <= j < |hits| ==> "paragraph_id" in hits[j].metadata
    ensures FormatHitsAsWritten(hits) == Success(FormatAll(ids, hits))
  {
    if hits != [] {
      IndexedTail(hits);
      AsWrittenAgreesWhenIndexed(ids, hits[1..]);
      HeadAgrees(ids, hits);
      FormatAllCons(ids, hits);
    }
  }

  lemma IndexedTail(hits: seq<Hit>)
    requires hits != [] && forall j :: 0 <= j < |hits| ==> "paragraph_id" in hits[j].metadata
    ensures forall j :: 0 <= j < |hits[1..]| ==> "paragraph_id" in hits[1..][j].metadata
  {
    forall j | 0 <= j < |hits[1..]| ensures "paragraph_id" in hits[1..][j].metadata {
      assert hits[1..][j] == hits[j + 1];
    }
  }

  /** An indexed first hit is formatted as the corrected version formats it. */
  lemma HeadAgrees(ids: string -> nat, hits: seq<Hit>)
    requires hits != [] && "paragraph_id" in hits[0].metadata
    requires FormatHitsAsWritten(hits[1..]) == Success(FormatAll(ids, hits[1..]))
    ensures FormatHitsAsWritten(hits) == Success([FormatHit(ids, hits[0])] + FormatAll(ids, hits[1..]))
  {
    assert ParagraphOfAsWritten(hits[0]) == Success(ParagraphOf(ids, hits[0]));
  }

  lemma FormatAllCons(ids: string -> nat, hits: seq<Hit>)
    requires hits != []
    ensures FormatAll(ids, hits) == [FormatHit(ids, hits[0])] + FormatAll(ids, hits[1..])
  {
    var a := FormatAll(ids, hits);
    var b := FormatAll(ids, hits[1..]);
    forall j | 0 <= j < |b| ensures a[j + 1] == b[j] {
      assert hits[1..][j] == hits[j + 1];
    }
    ConsOf(a, b);
  }

  lemma ConsOf<T>(a: seq<T>, b: seq<T>)
    requires |a| == |b| + 1
    requires forall j :: 0 <= j < |b| ==> a[j + 1] == b[j]
    ensures a == [a[0]] + b
  {
    assert a[1..] == b;
  }
}
