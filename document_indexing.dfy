/** The metadata the indexer attaches to LangChain documents before and after they
    are split into chunks. Loading, splitting and the vector store itself are not
    modelled; the documents they produce arrive as objects. */
module DocumentIndexing {
  import opened Wrappers
  import opened PyStr
  import opened Addressing
  import TextAnalysis

  /** A metadata value: the indexer stores file names and numbers. */
  datatype MetaValue = MStr(s: string) | MInt(i: int)

  type Metadata = map<string, MetaValue>

  /** A LangChain document: its text and the metadata dictionary that is updated in place. */
  class LcDocument {
    const pageContent: string
    var metadata: Metadata

    constructor (content: string, meta: Metadata)
      ensures pageContent == content && metadata == meta
    {
      pageContent := content;
      metadata := meta;
    }
  }

  /** `if page_num:` on what `extract_page_info` returned. */
  predicate TruthyPage(page: Option<nat>)
  {
    page.Some? && page.value != 0
  }

  /** `extract_paragraph_info(text, filename)` of the indexer; the file name is not used. */
  function ExtractParagraphInfo(md5: TextAnalysis.Md5, text: string, filename: MetaValue): (r: nat)
    ensures 1 <= r <= 99
    ensures r == ParagraphId(md5, text)
  {
    ParagraphId(md5, text)
  }

  /** `metadata` after recording a page number (only when it is truthy) and a paragraph number. */
  function WithChunkInfo(m: Metadata, page: Option<nat>, paraId: nat): (r: Metadata)
    ensures r.Keys == m.Keys + {"paragraph_id"} + (if TruthyPage(page) then {"page"} else {})
    ensures r["paragraph_id"] == MInt(paraId)
    ensures TruthyPage(page) ==> r["page"] == MInt(page.value)
    ensures !TruthyPage(page) && "page" in m ==> r["page"] == m["page"]
    ensures forall k :: k in m && k != "page" && k != "paragraph_id" ==> r[k] == m[k]
  {
    var withPage := if TruthyPage(page) then m["page" := MInt(page.value)] else m;
    withPage["paragraph_id" := MInt(paraId)]
  }

  /** `extract_paragraph_info` as a function value, for one hash function. */
  function ParagraphIds(md5: TextAnalysis.Md5): (ids: (string, MetaValue) -> nat)
    ensures forall text, filename :: ids(text, filename) == ParagraphId(md5, text)
  {
    (text, filename) => ExtractParagraphInfo(md5, text, filename)
  }

  /** `doc.metadata.get("filename", "Unknown")`. */
  function FilenameOf(m: Metadata): MetaValue
  {
    if "filename" in m then m["filename"] else MStr("Unknown")
  }

  /** The metadata a chunk ends up with: its page when the chunk names a non-zero
      page, and always the paragraph number `ids` gives its content and file name. */
  function ChunkMetadata(ids: (string, MetaValue) -> nat, m: Metadata, content: string): Metadata
  {
    WithChunkInfo(m, ExtractPageInfo(content), ids(content, FilenameOf(m)))
  }

  /** The paragraph number recorded for a chunk is in 1..99 and depends on its
      content only, not on the file it came from. */
  lemma ChunkParagraphNumber(md5: TextAnalysis.Md5, m: Metadata, content: string)
    ensures var r := ChunkMetadata(ParagraphIds(md5), m, content);
      "paragraph_id" in r && r["paragraph_id"] == MInt(ParagraphId(md5, content)) &&
      1 <= r["paragraph_id"].i <= 99
  {
  }

  /** Tagging a chunk a second time changes nothing. */
  lemma ChunkMetadataIdempotent(ids: (string, MetaValue) -> nat, m: Metadata, content: string)
    ensures ChunkMetadata(ids, ChunkMetadata(ids, m, content), content) == ChunkMetadata(ids, m, content)
  {
    var once := ChunkMetadata(ids, m, content);
    var twice := ChunkMetadata(ids, once, content);
    assert forall k :: k in twice ==> twice[k] == once[k];
  }

  /** The loop that tags every document loaded from one file with that file's name.
      A document listed twice is tagged twice, with the same outcome. */
  method TagWithFilename(documents: seq<LcDocument>, filename: string)
    modifies set d | d in documents
    ensures forall d :: d in documents ==> d.metadata == old(d.metadata)["filename" := MStr(filename)]
  {
    ghost var done: set<LcDocument> := {};
    for i := 0 to |documents|
      invariant forall j :: 0 <= j < i ==> documents[j] in done
      invariant forall d :: d in documents ==>
        d.metadata == if d in done then old(d.metadata)["filename" := MStr(filename)] else old(d.metadata)
    {
      var doc := documents[i];
      doc.metadata := doc.metadata["filename" := MStr(filename)];
      done := done + {doc};
    }
  }

  /** The loop over the split chunks that records each chunk's page and paragraph number. */
  method TagChunks(md5: TextAnalysis.Md5, chunks: seq<LcDocument>)
    modifies set c | c in chunks
    ensures forall c :: c in chunks ==>
      c.metadata == ChunkMetadata(ParagraphIds(md5), old(c.metadata), c.pageContent)
  {
    TagChunksWith(ParagraphIds(md5), chunks);
  }

  /** That loop, for any assignment `ids` of paragraph numbers to texts. */
  method TagChunksWith(ids: (string, MetaValue) -> nat, chunks: seq<LcDocument>)
    modifies set c | c in chunks
    ensures forall c :: c in chunks ==> c.metadata == ChunkMetadata(ids, old(c.metadata), c.pageContent)
  {
    ghost var done: set<LcDocument> := {};
    for i := 0 to |chunks|
      invariant forall j :: 0 <= j < i ==> chunks[j] in done
      invariant forall c :: c in chunks ==>
        c.metadata == if c in done then ChunkMetadata(ids, old(c.metadata), c.pageContent) else old(c.metadata)
    {
      var doc := chunks[i];
      if doc in done {
        ChunkMetadataIdempotent(ids, old(doc.metadata), doc.pageContent);
      }
      TagChunk(ids, doc);
      done := done + {doc};
    }
  }

  /** One pass of that loop: the chunk's `page` and `paragraph_id` entries. */
  method TagChunk(ids: (string, MetaValue) -> nat, doc: LcDocument)
    modifies doc
    ensures doc.metadata == ChunkMetadata(ids, old(doc.metadata), doc.pageContent)
  {
    var pageNum := ExtractPageInfo(doc.pageContent);
    if TruthyPage(pageNum) {
      doc.metadata := doc.metadata["page" := MInt(pageNum.value)];
    }
    var filename := FilenameOf(doc.metadata);
    var paraId := ids(doc.pageContent, filename);
    doc.metadata := doc.metadata["paragraph_id" := MInt(paraId)];
  }
}
