/** `DocumentService`: paging through the `documents` table, one document with its
    text, one fixed-size chunk of that text, and the batch operations. The database
    session is the table and the file system is the files map. */
module DocumentService {
  import opened Wrappers
  import opened PyStr
  import opened Json
  import opened Store

  // ---------------------------------------------------------------------------
  // get_documents
  // ---------------------------------------------------------------------------

  /** SQLite's `OFFSET offset LIMIT limit`: a negative offset counts as zero and a
      negative limit as no limit. */
  function Window(t: seq<Document>, offset: int, limit: int): (r: seq<Document>)
    ensures |r| <= |t|
    ensures limit >= 0 ==> |r| <= limit
  {
    var start := if offset < 0 then 0 else if offset > |t| then |t| else offset;
    var rest := t[start..];
    if limit < 0 || limit >= |rest| then rest else rest[..limit]
  }

  /** The dictionary `get_documents` returns. */
  datatype DocumentsPage = DocumentsPage(documents: seq<Document>, total: nat, page: int, pageSize: int)

  /** Page `page` of `pageSize` rows: rows from offset `(page - 1) * pageSize`, with
      the total row count and the paging arguments echoed. */
  function GetDocuments(t: Table, page: int, pageSize: int): (r: DocumentsPage)
    ensures r.total == |t| && r.page == page && r.pageSize == pageSize
    ensures pageSize >= 0 ==> |r.documents| <= pageSize
    ensures KeyOrdered(r.documents)
  {
    var rows := Window(t, (page - 1) * pageSize, pageSize);
    assert KeyOrdered(rows) by {
      var start := if (page - 1) * pageSize < 0 then 0 else if (page - 1) * pageSize > |t| then |t| else (page - 1) * pageSize;
      assert forall i :: 0 <= i < |rows| ==> rows[i] == t[start + i];
    }
    DocumentsPage(rows, |t|, page, pageSize)
  }

  /** The rows of pages `1..k`, in page order. */
  function PagesUpTo(t: Table, pageSize: int, k: nat): seq<Document>
  {
    if k == 0 then [] else PagesUpTo(t, pageSize, k - 1) + GetDocuments(t, k, pageSize).documents
  }

  function Min(a: int, b: int): int
  {
    if a <= b then a else b
  }

  /** With a positive page size, pages `1..k` are the first `k * pageSize` rows of the
      table, each row once and in key order, so the pages partition the table. */
  lemma {:induction false} PagesTile(t: Table, pageSize: int, k: nat)
    requires pageSize >= 1
    ensures PagesUpTo(t, pageSize, k) == t[..Min(k * pageSize, |t|)]
  {
    if k > 0 {
      PagesTile(t, pageSize, k - 1);
      var lo := Min((k - 1) * pageSize, |t|);
      var hi := Min(k * pageSize, |t|);
      PageIs(t, pageSize, k);
      SplitAt(t, lo, hi);
    }
  }

  /** Page `k` holds the rows from `(k - 1) * pageSize` up to `k * pageSize`. */
  lemma PageIs(t: Table, pageSize: int, k: nat)
    requires pageSize >= 1 && k >= 1
    ensures Min((k - 1) * pageSize, |t|) <= Min(k * pageSize, |t|)
    ensures GetDocuments(t, k, pageSize).documents == t[Min((k - 1) * pageSize, |t|)..Min(k * pageSize, |t|)]
  {
    ChunkStep(k, pageSize);
  }

  lemma SplitAt<T>(t: seq<T>, lo: nat, hi: nat)
    requires lo <= hi <= |t|
    ensures t[..hi] == t[..lo] + t[lo..hi]
  {
  }

  /** A page number below one reads from offset zero, like page one. */
  lemma LowPageIsFirst(t: Table, page: int, pageSize: int)
    requires page <= 1 && pageSize >= 0
    ensures GetDocuments(t, page, pageSize).documents == GetDocuments(t, 1, pageSize).documents
  {
    assert (page - 1) * pageSize <= 0;
  }

  // ---------------------------------------------------------------------------
  // get_document
  // ---------------------------------------------------------------------------

  /** The text `get_document` and `get_document_chunk` work on: the file read in text
      mode when it exists, else the empty string. */
  function StoredText(files: Files, path: string): (s: string)
    ensures path !in files ==> s == ""
    ensures path in files ==> s == UniversalNewlines(files[path])
  {
    match ReadText(files, path)
    case Some(text) => text
    case None => ""
  }

  /** The dictionary `get_document` returns, without `last_modified`. */
  datatype DocumentView = DocumentView(id: int, filename: string, filetype: string, uploadedAt: string,
                                       content: string, size: nat)

  /** `None` for an unknown id; otherwise the row's fields with the file's text and
      byte size, or `""` and 0 when the file does not exist. */
  function GetDocument(t: Table, files: Files, id: int): (r: Option<DocumentView>)
    ensures r.None? <==> forall i :: 0 <= i < |t| ==> t[i].id != id
    ensures r.Some? ==> exists i :: (
      0 <= i < |t| && t[i].id == id &&
      r.value.id == id && r.value.filename == t[i].filename && r.value.filetype == t[i].filetype &&
      r.value.uploadedAt == t[i].uploadedAt &&
      (t[i].contentPath !in files ==> r.value.content == "" && r.value.size == 0) &&
      (t[i].contentPath in files ==>
         r.value.content == UniversalNewlines(files[t[i].contentPath]) && r.value.size == Utf8Size(files[t[i].contentPath])))
  {
    match FindById(t, id)
    case None => None
    case Some(d) =>
      var size := if d.contentPath in files then FileSize(files, d.contentPath) else 0;
      Some(DocumentView(d.id, d.filename, d.filetype, d.uploadedAt, StoredText(files, d.contentPath), size))
  }

  // ---------------------------------------------------------------------------
  // get_document_chunk
  // ---------------------------------------------------------------------------

  /** The chunk of `text` starting at `start`: `None` when it starts at or past the
      end, else up to `size` characters from `start`, with whether it reaches the
      end. Python slicing applies to negative bounds. */
  function ChunkAt(text: string, start: int, size: int): (r: Option<(string, bool)>)
    ensures r.None? <==> start >= |text|
    ensures r.Some? && start >= 0 && size >= 0 ==>
      var piece := r.value.0;
      |piece| <= size && start + |piece| <= |text| && piece == text[start..start + |piece|] &&
      (r.value.1 <==> start + size >= |text|) && (!r.value.1 ==> |piece| == size)
  {
    var end := Min(start + size, |text|);
    if start >= |text| then None else Some((PySlice(text, start, end), end >= |text|))
  }

  /** Chunk `chunkIndex` of `text`, which starts at `chunkIndex * chunkSize`. */
  function ChunkOf(text: string, chunkIndex: int, chunkSize: int): (r: Option<(string, bool)>)
    ensures r.None? <==> chunkIndex * chunkSize >= |text|
    ensures r.Some? && chunkIndex >= 0 && chunkSize >= 0 ==>
      var start := chunkIndex * chunkSize;
      var piece := r.value.0;
      |piece| <= chunkSize && start + |piece| <= |text| && piece == text[start..start + |piece|] &&
      (r.value.1 <==> start + chunkSize >= |text|)
  {
    assert chunkIndex >= 0 && chunkSize >= 0 ==> chunkIndex * chunkSize >= 0;
    ChunkAt(text, chunkIndex * chunkSize, chunkSize)
  }

  /** Where chunk `k` starts and where the next one does. */
  lemma ChunkStep(k: nat, chunkSize: int)
    requires k >= 1 && chunkSize >= 1
    ensures (k - 1) * chunkSize >= 0 && k * chunkSize == (k - 1) * chunkSize + chunkSize
  {
  }

  /** Earlier chunks end no later than later ones start. */
  lemma ChunkOrder(j: nat, k: nat, chunkSize: int)
    requires j < k && chunkSize >= 1
    ensures j * chunkSize + chunkSize <= k * chunkSize
    decreases k - j
  {
    ChunkStep(k, chunkSize);
    if j + 1 < k {
      ChunkOrder(j, k - 1, chunkSize);
    }
  }

  /** The chunk holding the last character of a text of length `n`. */
  lemma LastIndex(n: nat, chunkSize: int)
    requires n >= 1 && chunkSize >= 1
    ensures var k := (n - 1) / chunkSize;
      k * chunkSize <= n - 1 < k * chunkSize + chunkSize
  {
  }

  /** The dictionary `get_document_chunk` returns. */
  datatype Chunk = Chunk(documentId: int, chunkIndex: int, chunkSize: int, content: string, isLastChunk: bool)

  /** `None` for an unknown id or a chunk past the end of the text; otherwise the
      chunk of the document's text, with the arguments echoed. */
  function GetDocumentChunk(t: Table, files: Files, id: int, chunkIndex: int, chunkSize: int): (r: Option<Chunk>)
    ensures (forall i :: 0 <= i < |t| ==> t[i].id != id) ==> r.None?
    ensures FindById(t, id).Some? ==>
      (r.None? <==> ChunkOf(StoredText(files, FindById(t, id).value.contentPath), chunkIndex, chunkSize).None?)
    ensures r.Some? ==> r.value.documentId == id && r.value.chunkIndex == chunkIndex && r.value.chunkSize == chunkSize
    ensures r.Some? ==> exists i :: (
      0 <= i < |t| && t[i].id == id &&
      ChunkOf(StoredText(files, t[i].contentPath), chunkIndex, chunkSize) == Some((r.value.content, r.value.isLastChunk)))
  {
    match FindById(t, id)
    case None => None
    case Some(d) =>
      match ChunkOf(StoredText(files, d.contentPath), chunkIndex, chunkSize)
      case None => None
      case Some(c) => Some(Chunk(d.id, chunkIndex, chunkSize, c.0, c.1))
  }

  /** The text of a chunk; nothing for a missing one. */
  function Piece(c: Option<(string, bool)>): string
  {
    if c.Some? then c.value.0 else ""
  }

  /** The contents of chunks `0..k-1`, in order. */
  function ChunksUpTo(text: string, chunkSize: int, k: nat): string
  {
    if k == 0 then "" else ChunksUpTo(text, chunkSize, k - 1) + Piece(ChunkOf(text, k - 1, chunkSize))
  }

  /** A chunk continues the text exactly where the one before it stopped. */
  lemma ChunkExtends(text: string, start: int, size: int)
    requires start >= 0 && size >= 1
    ensures text[..Min(start, |text|)] + Piece(ChunkAt(text, start, size)) == text[..Min(start + size, |text|)]
  {
    var lo := Min(start, |text|);
    var hi := Min(start + size, |text|);
    if start < |text| {
      assert text[..hi] == text[..lo] + text[lo..hi];
    }
  }

  /** With a positive chunk size, chunks `0..k-1` are the first `k * chunkSize`
      characters of the text. */
  lemma {:induction false} ChunksPrefix(text: string, chunkSize: int, k: nat)
    requires chunkSize >= 1
    ensures ChunksUpTo(text, chunkSize, k) == text[..Min(k * chunkSize, |text|)]
  {
    if k > 0 {
      ChunksPrefix(text, chunkSize, k - 1);
      ChunkStep(k, chunkSize);
      ChunkExtends(text, (k - 1) * chunkSize, chunkSize);
    }
  }

  /** Every chunk before one that starts inside the text exists and is not last. */
  lemma EarlierChunks(text: string, chunkSize: int, k: nat)
    requires chunkSize >= 1 && k * chunkSize < |text|
    ensures forall j :: 0 <= j < k ==> ChunkOf(text, j, chunkSize).Some? && !ChunkOf(text, j, chunkSize).value.1
  {
    forall j | 0 <= j < k
      ensures ChunkOf(text, j, chunkSize).Some? && !ChunkOf(text, j, chunkSize).value.1
    {
      ChunkOrder(j, k, chunkSize);
    }
  }

  /** For a non-empty text and a positive chunk size, chunk `(|text| - 1) / chunkSize`
      is the only one flagged last, every earlier chunk exists, the next one is
      `None`, and the chunks up to the last reconstruct the text. */
  lemma LastChunk(text: string, chunkSize: int)
    requires chunkSize >= 1 && text != []
    ensures var k := (|text| - 1) / chunkSize;
      ChunkOf(text, k, chunkSize).Some? && ChunkOf(text, k, chunkSize).value.1 &&
      ChunkOf(text, k + 1, chunkSize).None?
    ensures var k := (|text| - 1) / chunkSize;
      forall j :: 0 <= j < k ==> ChunkOf(text, j, chunkSize).Some? && !ChunkOf(text, j, chunkSize).value.1
    ensures ChunksUpTo(text, chunkSize, (|text| - 1) / chunkSize + 1) == text
  {
    var k := (|text| - 1) / chunkSize;
    LastFlags(text, chunkSize, k);
    LastIndex(|text|, chunkSize);
    EarlierChunks(text, chunkSize, k);
    ChunksPrefix(text, chunkSize, k + 1);
    ChunkStep(k + 1, chunkSize);
    assert text[..|text|] == text;
  }

  /** The chunk holding the last character is flagged last and the next is `None`. */
  lemma LastFlags(text: string, chunkSize: int, k: nat)
    requires chunkSize >= 1 && text != [] && k == (|text| - 1) / chunkSize
    ensures ChunkOf(text, k, chunkSize).Some? && ChunkOf(text, k, chunkSize).value.1
    ensures ChunkOf(text, k + 1, chunkSize).None?
  {
    LastIndex(|text|, chunkSize);
    ChunkStep(k + 1, chunkSize);
  }

  // ---------------------------------------------------------------------------
  // batch_process_documents
  // ---------------------------------------------------------------------------

  /** What `batch_process_documents` returns. `ThemesPending` is the dictionary whose
      `themes` is the coroutine of the theme-identification call, which is never
      awaited: it records the arguments that call receives. */
  datatype BatchResult =
    | BatchError(error: string)
    | Processed(processed: nat)
    | ThemesPending(documents: seq<DocContent>, maxThemes: Json, relevanceThreshold: Json)

  /** `params.get(key, default) if params else default`: a missing or empty
      dictionary gives the default. */
  function Param(params: Option<seq<(string, Json)>>, key: string, default: Json): (v: Json)
    ensures params.None? || params.value == [] ==> v == default
    ensures params.Some? && params.value != [] && v != default ==> Lookup(params.value, key) == Some(v)
  {
    if params.Some? && params.value != [] then Get(params.value, key, default) else default
  }

  method BatchProcessDocuments(t: Table, files: Files, ids: seq<int>, operation: string,
                               params: Option<seq<(string, Json)>>) returns (r: BatchResult)
    ensures |WithIds(t, ids)| != |ids| ==> r == BatchError("Some document IDs not found")
    ensures |WithIds(t, ids)| == |ids| && operation == "preprocess" ==> r == Processed(|ids|)
    ensures |WithIds(t, ids)| == |ids| && operation == "identify_themes" ==>
      r == ThemesPending(Readable(files, WithIds(t, ids)),
                         Param(params, "max_themes", JInt(5)), Param(params, "relevance_threshold", JFloat(0.7)))
    ensures |WithIds(t, ids)| == |ids| && operation != "preprocess" && operation != "identify_themes" ==>
      r == BatchError("Unsupported operation: " + operation)
  {
    var documents := WithIds(t, ids);
    if |documents| != |ids| {
      return BatchError("Some document IDs not found");
    }
    if operation == "preprocess" {
      return Processed(|documents|);
    } else if operation == "identify_themes" {
      var withContent := ReadContents(files, documents);
      var maxThemes := Param(params, "max_themes", JInt(5));
      var threshold := Param(params, "relevance_threshold", JFloat(0.7));
      return ThemesPending(withContent, maxThemes, threshold);
    }
    return BatchError("Unsupported operation: " + operation);
  }

  predicate Distinct(xs: seq<int>)
  {
    forall i, j :: 0 <= i < j < |xs| ==> xs[i] != xs[j]
  }

  function ValueSet(xs: seq<int>): set<int>
  {
    set x | x in xs
  }

  lemma ValueSetCons(xs: seq<int>)
    requires xs != []
    ensures ValueSet(xs) == {xs[0]} + ValueSet(xs[1..])
  {
    assert xs == [xs[0]] + xs[1..];
  }

  lemma DistinctCons(xs: seq<int>)
    requires xs != []
    ensures Distinct(xs) <==> xs[0] !in xs[1..] && Distinct(xs[1..])
  {
    var rest := xs[1..];
    if Distinct(xs) {
      forall i, j | 0 <= i < j < |rest| ensures rest[i] != rest[j] {
        assert xs[i + 1] == rest[i] && xs[j + 1] == rest[j];
      }
    }
    if xs[0] !in rest && Distinct(rest) {
      forall i, j | 0 <= i < j < |xs| ensures xs[i] != xs[j] {
        assert xs[j] == rest[j - 1];
        if i > 0 {
          assert xs[i] == rest[i - 1];
        }
      }
    }
  }

  lemma {:induction false} ValueSetCard(xs: seq<int>)
    ensures |ValueSet(xs)| <= |xs|
    ensures |ValueSet(xs)| == |xs| <==> Distinct(xs)
  {
    if xs == [] {
      assert ValueSet(xs) == {};
    } else {
      ValueSetCard(xs[1..]);
      ValueSetCons(xs);
      DistinctCons(xs);
    }
  }

  lemma SubsetCard(a: set<int>, b: set<int>)
    requires a <= b
    ensures |a| <= |b| && (|a| == |b| <==> a == b)
  {
    assert b == a + (b - a);
    assert a * (b - a) == {};
  }

  /** Every requested id names a row. */
  predicate AllKnown(t: Table, ids: seq<int>)
  {
    forall i :: 0 <= i < |ids| ==> exists j :: 0 <= j < |t| && t[j].id == ids[i]
  }

  function RowIds(r: seq<Document>): (xs: seq<int>)
    ensures |xs| == |r| && forall k :: 0 <= k < |r| ==> xs[k] == r[k].id
  {
    seq(|r|, k requires 0 <= k < |r| => r[k].id)
  }

  /** The row count equals the number of ids requested exactly when the ids are
      distinct and every one of them names a row: a repeated id, like an unknown
      one, makes the batch fail. */
  lemma BatchFindsAll(t: Table, ids: seq<int>)
    ensures |WithIds(t, ids)| == |ids| <==> Distinct(ids) && AllKnown(t, ids)
  {
    var r := WithIds(t, ids);
    var rowIds := RowIds(r);
    assert Distinct(rowIds);
    ValueSetCard(rowIds);
    ValueSetCard(ids);
    FoundWanted(t, ids);
    SubsetCard(ValueSet(rowIds), ValueSet(ids));
    if AllKnown(t, ids) {
      WantedFound(t, ids);
    } else {
      MissingNotFound(t, ids);
    }
  }

  /** Every row found has a requested id. */
  lemma FoundWanted(t: Table, ids: seq<int>)
    ensures ValueSet(RowIds(WithIds(t, ids))) <= ValueSet(ids)
  {
    var r := WithIds(t, ids);
    forall x | x in ValueSet(RowIds(r)) ensures x in ValueSet(ids) {
      var k :| 0 <= k < |r| && RowIds(r)[k] == x;
      assert r[k].id in ids;
    }
  }

  /** When every id names a row, every id is found. */
  lemma WantedFound(t: Table, ids: seq<int>)
    requires AllKnown(t, ids)
    ensures ValueSet(ids) <= ValueSet(RowIds(WithIds(t, ids)))
  {
    var r := WithIds(t, ids);
    forall x | x in ValueSet(ids) ensures x in ValueSet(RowIds(r)) {
      var i :| 0 <= i < |ids| && ids[i] == x;
      var j :| 0 <= j < |t| && t[j].id == ids[i];
      assert t[j] in r;
      var k :| 0 <= k < |r| && r[k] == t[j];
      assert RowIds(r)[k] == x;
    }
  }

  /** An id that names no row is requested but not found. */
  lemma MissingNotFound(t: Table, ids: seq<int>)
    requires !AllKnown(t, ids)
    ensures ValueSet(RowIds(WithIds(t, ids))) != ValueSet(ids)
  {
    var r := WithIds(t, ids);
    var i :| 0 <= i < |ids| && !(exists j :: 0 <= j < |t| && t[j].id == ids[i]);
    assert ids[i] in ValueSet(ids);
    assert ids[i] !in ValueSet(RowIds(r));
  }
}
