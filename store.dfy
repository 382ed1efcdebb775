/** The `documents` table and the files its rows point to. Files map a path to the
    text stored there. */
module Store {
  import opened Wrappers
  import opened PyStr

  /** A row of `documents`; `uploadedAt` is the stored timestamp. */
  datatype Document = Document(id: int, filename: string, contentPath: string, filetype: string, uploadedAt: string)

  predicate KeyOrdered(rows: seq<Document>)
  {
    forall i, j :: 0 <= i < j < |rows| ==> rows[i].id < rows[j].id
  }

  /** The table: the map from primary key to row, listed in key order, which is the
      order a query without `ORDER BY` returns. */
  type Table = rows: seq<Document> | KeyOrdered(rows) witness []

  /** Path to the raw text of a file. */
  type Files = map<string, string>

  /** The rows of `docs` whose id is in `ids`, in their order. */
  function Having(docs: seq<Document>, ids: seq<int>): (r: seq<Document>)
    ensures |r| <= |docs|
    ensures forall i :: 0 <= i < |r| ==> r[i] in docs && r[i].id in ids
    ensures forall d :: d in docs && d.id in ids ==> d in r
  {
    if docs == [] then []
    else
      var rest := Having(docs[1..], ids);
      assert forall d :: d in docs ==> d == docs[0] || d in docs[1..];
      if docs[0].id in ids then [docs[0]] + rest else rest
  }

  lemma {:induction false} HavingOrdered(docs: seq<Document>, ids: seq<int>)
    requires KeyOrdered(docs)
    ensures KeyOrdered(Having(docs, ids))
  {
    if docs != [] {
      OrderedTail(docs);
      HavingOrdered(docs[1..], ids);
      if docs[0].id in ids {
        var rest := Having(docs[1..], ids);
        HeadBelow(docs, rest);
        OrderedCons(docs[0], rest);
      }
    }
  }

  lemma OrderedTail(docs: seq<Document>)
    requires docs != [] && KeyOrdered(docs)
    ensures KeyOrdered(docs[1..])
  {
    forall i, j | 0 <= i < j < |docs[1..]| ensures docs[1..][i].id < docs[1..][j].id {
      assert docs[1..][i] == docs[i + 1] && docs[1..][j] == docs[j + 1];
    }
  }

  /** The first row's key is below that of every row taken from the others. */
  lemma HeadBelow(docs: seq<Document>, rest: seq<Document>)
    requires docs != [] && KeyOrdered(docs)
    requires forall i :: 0 <= i < |rest| ==> rest[i] in docs[1..]
    ensures forall k :: 0 <= k < |rest| ==> docs[0].id < rest[k].id
  {
    forall k | 0 <= k < |rest| ensures docs[0].id < rest[k].id {
      var j :| 0 <= j < |docs[1..]| && docs[1..][j] == rest[k];
      assert docs[j + 1] == rest[k];
    }
  }

  lemma OrderedCons(d: Document, rest: seq<Document>)
    requires KeyOrdered(rest) && forall k :: 0 <= k < |rest| ==> d.id < rest[k].id
    ensures KeyOrdered([d] + rest)
  {
    var r := [d] + rest;
    forall i, j | 0 <= i < j < |r| ensures r[i].id < r[j].id {
      assert r[j] == rest[j - 1];
      if i > 0 {
        assert r[i] == rest[i - 1];
      }
    }
  }

  /** No row is selected when none has a requested id. */
  lemma {:induction false} HavingNone(docs: seq<Document>, ids: seq<int>)
    requires forall i :: 0 <= i < |docs| ==> docs[i].id !in ids
    ensures Having(docs, ids) == []
  {
    if docs != [] {
      assert forall i :: 1 <= i < |docs| ==> docs[1..][i - 1] == docs[i];
      HavingNone(docs[1..], ids);
    }
  }

  /** `db.query(Document).filter(Document.id.in_(ids)).all()`: each matching row once,
      in key order, however often its id is repeated in `ids`. */
  function WithIds(t: Table, ids: seq<int>): (r: Table)
    ensures |r| <= |t|
    ensures forall i :: 0 <= i < |r| ==> r[i] in t && r[i].id in ids
    ensures forall d :: d in t && d.id in ids ==> d in r
  {
    HavingOrdered(t, ids);
    Having(t, ids)
  }

  /** `db.query(Document).filter(Document.id == id).first()`: keys are unique, so
      this is the row with that key. */
  function FindById(t: Table, id: int): (r: Option<Document>)
    ensures r.None? <==> forall i :: 0 <= i < |t| ==> t[i].id != id
    ensures r.Some? ==> r.value in t && r.value.id == id
  {
    if t == [] then None
    else if t[0].id == id then Some(t[0])
    else
      assert KeyOrdered(t[1..]) by {
        forall i, j | 0 <= i < j < |t[1..]| ensures t[1..][i].id < t[1..][j].id {
          assert t[1..][i] == t[i + 1] && t[1..][j] == t[j + 1];
        }
      }
      var r := FindById(t[1..], id);
      assert forall i :: 1 <= i < |t| ==> t[i] == t[1..][i - 1];
      r
  }

  /** Reading a file in text mode: `None` when it does not exist, else its text with
      line endings translated. */
  function ReadText(files: Files, path: string): (r: Option<string>)
    ensures r.None? <==> path !in files
    ensures r.Some? ==> r.value == UniversalNewlines(files[path])
  {
    if path in files then Some(UniversalNewlines(files[path])) else None
  }

  /** `os.path.getsize`: the number of bytes stored, before any translation. */
  function FileSize(files: Files, path: string): (n: nat)
    requires path in files
    ensures |files[path]| <= n
  {
    Utf8Size(files[path])
  }

  /** A document whose file could be read, with the text read. */
  datatype DocContent = DocContent(doc: Document, content: string)

  /** The documents whose files can be read, in their order, each with its text. */
  function Readable(files: Files, docs: seq<Document>): (r: seq<DocContent>)
    ensures |r| <= |docs|
    ensures forall i :: 0 <= i < |r| ==> r[i].doc in docs && ReadText(files, r[i].doc.contentPath) == Some(r[i].content)
  {
    if docs == [] then []
    else
      var last := docs[|docs| - 1];
      var before := Readable(files, docs[..|docs| - 1]);
      match ReadText(files, last.contentPath)
      case None => before
      case Some(text) => before + [DocContent(last, text)]
  }

  /** No readable document is skipped. */
  lemma {:induction false} ReadableComplete(files: Files, docs: seq<Document>)
    ensures forall d :: d in docs && ReadText(files, d.contentPath).Some? ==>
      exists i :: 0 <= i < |Readable(files, docs)| && Readable(files, docs)[i].doc == d
    decreases |docs|
  {
    if docs != [] {
      var init, last := docs[..|docs| - 1], docs[|docs| - 1];
      ReadableComplete(files, init);
      assert docs == init + [last];
      ReadableSnoc(files, init, last);
      var before := Readable(files, init);
      var r := Readable(files, docs);
      assert forall i :: 0 <= i < |before| ==> r[i] == before[i];
      forall d | d in docs && ReadText(files, d.contentPath).Some? ensures exists i :: 0 <= i < |r| && r[i].doc == d {
        if d == last {
          assert r[|before|].doc == last;
        } else {
          assert d in init;
          var i :| 0 <= i < |before| && before[i].doc == d;
          assert r[i].doc == d;
        }
      }
    }
  }

  /** What one more document adds to the documents read. */
  function ReadOne(files: Files, d: Document): seq<DocContent>
  {
    match ReadText(files, d.contentPath)
    case None => []
    case Some(text) => [DocContent(d, text)]
  }

  lemma {:induction false} ReadableSnoc(files: Files, docs: seq<Document>, d: Document)
    ensures Readable(files, docs + [d]) == Readable(files, docs) + ReadOne(files, d)
  {
    assert (docs + [d])[..|docs|] == docs;
  }

  /** Reading two lists one after the other reads their concatenation, in that order. */
  lemma {:induction false} ReadableAppend(files: Files, a: seq<Document>, b: seq<Document>)
    ensures Readable(files, a + b) == Readable(files, a) + Readable(files, b)
    decreases |b|
  {
    if b == [] {
      assert a + b == a;
    } else {
      var init, last := b[..|b| - 1], b[|b| - 1];
      assert b == init + [last];
      assert a + b == (a + init) + [last];
      calc {
        Readable(files, a + b);
        { ReadableSnoc(files, a + init, last); }
        Readable(files, a + init) + ReadOne(files, last);
        { ReadableAppend(files, a, init); }
        Readable(files, a) + Readable(files, init) + ReadOne(files, last);
        { ReadableSnoc(files, init, last); }
        Readable(files, a) + Readable(files, b);
      }
    }
  }


  /** The loop that reads each document's file, skipping those that cannot be read. */
  method ReadContents(files: Files, docs: seq<Document>) returns (contents: seq<DocContent>)
    ensures contents == Readable(files, docs)
  {
    contents := [];
    for i := 0 to |docs|
      invariant contents == Readable(files, docs[..i])
    {
      assert docs[..i + 1][..i] == docs[..i];
      var read := ReadText(files, docs[i].contentPath);
      if read.Some? {
        contents := contents + [DocContent(docs[i], read.value)];
      }
    }
    assert docs[..|docs|] == docs;
  }
}
