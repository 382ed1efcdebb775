/** Query processing over the stored documents: the keyword search used when no
    OpenAI key is configured, and the post-processing around the OpenAI search
    (documents in groups of five, truncation, response normalisation, relevance
    filter, ranking). The HTTP call is a function from prompt to reply. */
module QueryProcessor {
  import opened Wrappers
  import opened PyStr
  import opened Json
  import opened Store
  import Ranking

  // ---------------------------------------------------------------------------
  // Keyword search

  /** How many of the query terms, counted with multiplicity, occur in `text`. */
  function HitCount(terms: seq<string>, text: string): (n: nat)
    ensures n <= |terms|
  {
    if terms == [] then 0
    else HitCount(terms[..|terms| - 1], text) + (if Contains(text, terms[|terms| - 1]) then 1 else 0)
  }

  /** At least one term occurs exactly when some term occurs. */
  lemma {:induction false} HitsAtLeastOne(terms: seq<string>, text: string)
    ensures HitCount(terms, text) >= 1 <==> exists j :: 0 <= j < |terms| && Contains(text, terms[j])
  {
    if terms != [] {
      var init := terms[..|terms| - 1];
      HitsAtLeastOne(init, text);
      assert forall j :: 0 <= j < |init| ==> init[j] == terms[j];
    }
  }

  /** The relevance threshold of 0.2 is reached exactly when two different
      positions of the query hold terms that occur in the paragraph. */
  lemma {:induction false} HitsAtLeastTwo(terms: seq<string>, text: string)
    ensures HitCount(terms, text) >= 2 <==>
      exists j, k :: 0 <= j < k < |terms| && Contains(text, terms[j]) && Contains(text, terms[k])
  {
    if terms != [] {
      var n := |terms| - 1;
      var init := terms[..n];
      HitsAtLeastTwo(init, text);
      HitsAtLeastOne(init, text);
      assert forall j :: 0 <= j < n ==> init[j] == terms[j];
      if HitCount(terms, text) >= 2 {
        if Contains(text, terms[n]) && HitCount(init, text) == 1 {
          var j :| 0 <= j < n && Contains(text, init[j]);
          assert Contains(text, terms[j]) && Contains(text, terms[n]);
        }
      }
    }
  }

  /** The inner loop of `basic_document_search`: one hit per query term found in the
      lower-cased paragraph. */
  method CountHits(terms: seq<string>, para: string) returns (hits: nat)
    ensures hits == HitCount(terms, Lower(para))
  {
    var lowered := Lower(para);
    hits := 0;
    for k := 0 to |terms|
      invariant hits == HitCount(terms[..k], lowered)
    {
      assert terms[..k + 1][..k] == terms[..k];
      if Contains(lowered, terms[k]) {
        hits := hits + 1;
      }
    }
    assert terms[..|terms|] == terms;
  }

  /** A paragraph reported by the keyword search. The relevance Python reports is
      `min(0.1 * hits, 1.0)`, summed in floating point. */
  datatype KeywordMatch = KeywordMatch(
    id: int, filename: string, matchedText: string, paragraph: nat, hits: nat, citation: string)

  /** The sort key: adding 0.1 in floating point gives strictly increasing sums up
      to ten hits, and from eleven hits on the cap makes every sum 1.0. */
  function RankKey(m: KeywordMatch): real
  {
    (if m.hits >= 11 then 11 else m.hits) as real
  }

  /** The record for paragraph `i` of `doc`, numbered from 1. */
  function ParagraphMatch(doc: Document, para: string, i: nat, hits: nat): (m: KeywordMatch)
    ensures m.paragraph == i + 1 && m.matchedText == para && m.id == doc.id
    ensures m.citation == doc.filename + ", paragraph " + NatToString(i + 1)
  {
    KeywordMatch(doc.id, doc.filename, para, i + 1, hits, doc.filename + ", paragraph " + NatToString(i + 1))
  }

  /** The matches among the first `n` paragraphs. */
  function MatchesUpTo(doc: Document, paras: seq<string>, terms: seq<string>, n: nat): seq<KeywordMatch>
    requires n <= |paras|
  {
    if n == 0 then []
    else
      var hits := HitCount(terms, Lower(paras[n - 1]));
      MatchesUpTo(doc, paras, terms, n - 1) + (if hits >= 2 then [ParagraphMatch(doc, paras[n - 1], n - 1, hits)] else [])
  }

  /** The matches in one document's text, whose paragraphs are separated by blank lines. */
  function DocumentMatches(doc: Document, content: string, terms: seq<string>): seq<KeywordMatch>
  {
    var paras := Split(content, "\n\n");
    MatchesUpTo(doc, paras, terms, |paras|)
  }

  /** A paragraph is reported exactly when at least two query terms occur in it,
      with its 1-based number and its citation. */
  lemma {:induction false} MatchesUpToIff(doc: Document, paras: seq<string>, terms: seq<string>, n: nat, m: KeywordMatch)
    requires n <= |paras|
    ensures m in MatchesUpTo(doc, paras, terms, n) <==>
      exists i :: 0 <= i < n && HitCount(terms, Lower(paras[i])) >= 2 &&
        m == ParagraphMatch(doc, paras[i], i, HitCount(terms, Lower(paras[i])))
  {
    if n > 0 {
      MatchesUpToIff(doc, paras, terms, n - 1, m);
    }
  }

  /** Every match, over every readable document, in document order. */
  function KeywordCandidates(docs: seq<DocContent>, terms: seq<string>): seq<KeywordMatch>
  {
    if docs == [] then []
    else
      var last := docs[|docs| - 1];
      KeywordCandidates(docs[..|docs| - 1], terms) + DocumentMatches(last.doc, last.content, terms)
  }

  /** What `basic_document_search` returns: the ten best matches. */
  function KeywordResult(files: Files, docs: seq<Document>, query: string): seq<KeywordMatch>
  {
    Ranking.Top(RankKey, KeywordCandidates(Readable(files, docs), Words(Lower(query))), 10)
  }

  /** `basic_document_search`. A document whose file cannot be read is skipped. */
  method BasicDocumentSearch(files: Files, docs: seq<Document>, query: string) returns (matches: seq<KeywordMatch>)
    ensures matches == KeywordResult(files, docs, query)
  {
    var terms := Words(Lower(query));
    matches := [];
    for i := 0 to |docs|
      invariant matches == KeywordCandidates(Readable(files, docs[..i]), terms)
    {
      assert docs[..i + 1][..i] == docs[..i];
      var doc := docs[i];
      var read := ReadText(files, doc.contentPath);
      if read.Some? {
        var found := SearchDocument(doc, read.value, terms);
        matches := matches + found;
      }
    }
    assert docs[..|docs|] == docs;
    matches := Ranking.SortDesc(RankKey, matches);
    matches := Prefix(matches, 10);
  }

  /** The paragraph loop of `basic_document_search` for one document. */
  method SearchDocument(doc: Document, content: string, terms: seq<string>) returns (found: seq<KeywordMatch>)
    ensures found == DocumentMatches(doc, content, terms)
  {
    var paragraphs := Split(content, "\n\n");
    found := [];
    for i := 0 to |paragraphs|
      invariant found == MatchesUpTo(doc, paragraphs, terms, i)
    {
      var para := paragraphs[i];
      var hits := CountHits(terms, para);
      if hits >= 2 {
        found := found + [ParagraphMatch(doc, para, i, hits)];
      }
    }
  }

  /** The keyword result is ranked, at most ten long, and keeps the best matches. */
  lemma KeywordResultRanked(files: Files, docs: seq<Document>, query: string)
    ensures var r := KeywordResult(files, docs, query);
      var all := KeywordCandidates(Readable(files, docs), Words(Lower(query)));
      |r| <= 10 && Ranking.SortedDesc(RankKey, r) && multiset(r) <= multiset(all) &&
      forall c, i :: c in all && c !in r && 0 <= i < |r| ==> RankKey(c) <= RankKey(r[i])
  {
    var all := KeywordCandidates(Readable(files, docs), Words(Lower(query)));
    Ranking.TopIsTop(RankKey, all, 10);
  }

  // ---------------------------------------------------------------------------
  // OpenAI search: the reply and its normalisation

  /** How the API call ends: an exception it lets through (a failed request, or an
      unexpected payload shape), a missing key or undecodable JSON (caught, giving
      `[]`), or the decoded JSON. */
  datatype Reply = Raised(error: string) | Undecodable | Decoded(result: Json)

  /** The response-format branch of `call_openai_api`. */
  function Normalise(result: Json): (r: Json)
    ensures result.JObj? && Lookup(result.members, "matches").Some? ==> r == Lookup(result.members, "matches").value
    ensures result.JObj? && Lookup(result.members, "matches").None? && Lookup(result.members, "results").Some? ==>
      r == Lookup(result.members, "results").value
    ensures result.JArr? ==> r == result
    ensures !result.JObj? && !result.JArr? ==> r == JArr([])
    ensures result.JObj? && Lookup(result.members, "matches").None? && Lookup(result.members, "results").None? ==>
      r == JArr([])
  {
    if result.JObj? && Lookup(result.members, "matches").Some? then Lookup(result.members, "matches").value
    else if result.JObj? && Lookup(result.members, "results").Some? then Lookup(result.members, "results").value
    else if result.JArr? then result
    else JArr([])
  }

  /** `call_openai_api` after the HTTP exchange: `Failure` is an exception. */
  function CallResult(reply: Reply): (r: Result<Json, string>)
    ensures r.Failure? <==> reply.Raised?
    ensures reply.Undecodable? ==> r == Success(JArr([]))
  {
    match reply
    case Raised(e) => Failure(e)
    case Undecodable => Success(JArr([]))
    case Decoded(v) => Success(Normalise(v))
  }

  /** `m.get("relevance", 0) >= threshold`, which raises for a match that is not a
      dictionary or whose relevance is not a number. */
  function Passes(m: Json, threshold: real): (r: Result<bool, string>)
    ensures r.Success? <==> m.JObj? && IsNumber(Get(m.members, "relevance", JInt(0)))
    ensures m.JObj? && Lookup(m.members, "relevance").None? ==> r == Success(0.0 >= threshold)
    ensures r.Success? ==> r.value == (NumberValue(Get(m.members, "relevance", JInt(0))) >= threshold)
  {
    if !m.JObj? then Failure("'" + TypeName(m) + "' object has no attribute 'get'")
    else
      var v := Get(m.members, "relevance", JInt(0));
      if IsNumber(v) then Success(NumberValue(v) >= threshold)
      else Failure("'>=' not supported between instances of '" + TypeName(v) + "' and 'float'")
  }

  /** The list comprehension that keeps the relevant matches; the first match that
      raises aborts it. */
  function KeepRelevant(items: seq<Json>, threshold: real): (r: Result<seq<Json>, string>)
    ensures r.Success? <==> forall i :: 0 <= i < |items| ==> Passes(items[i], threshold).Success?
    ensures r.Success? ==> forall m :: m in r.value <==> m in items && Passes(m, threshold) == Success(true)
    ensures r.Success? ==> |r.value| <= |items|
  {
    if items == [] then Success([])
    else
      assert forall i :: 1 <= i < |items| ==> items[i] == items[1..][i - 1];
      assert forall m :: m in items <==> m == items[0] || m in items[1..];
      match Passes(items[0], threshold)
      case Failure(e) => Failure(e)
      case Success(keep) =>
        match KeepRelevant(items[1..], threshold)
        case Failure(e) => Failure(e)
        case Success(rest) => Success(if keep then [items[0]] + rest else rest)
  }

  /** What one group contributes: its relevant matches, or an exception that makes
      the loop skip the group. Iterating over anything but a list also raises
      (a dictionary or string only iterates to keys or characters, which have no
      `get`) unless it is empty. */
  function GroupOutcome(reply: Reply, threshold: real): (r: Result<seq<Json>, string>)
    ensures r.Success? ==> forall m :: m in r.value ==> Passes(m, threshold) == Success(true)
  {
    match CallResult(reply)
    case Failure(e) => Failure(e)
    case Success(v) =>
      match Iterate(v)
      case Failure(e) => Failure(e)
      case Success(items) => KeepRelevant(items, threshold)
  }

  // ---------------------------------------------------------------------------
  // OpenAI search: groups of documents and the prompt

  /** `content` as it is put into the prompt: cut to 8000 characters when longer. */
  function Truncate(content: string): string
  {
    if |content| > 8000 then content[..8000] + "... [content truncated]" else content
  }

  /** Text of at most 8000 characters is sent unchanged; longer text is cut to its
      first 8000 characters followed by the truncation notice, 8023 in all. */
  lemma TruncateShape(content: string)
    ensures |content| <= 8000 ==> Truncate(content) == content
    ensures |content| > 8000 ==>
      |Truncate(content)| == 8023 && Truncate(content)[..8000] == content[..8000] &&
      Truncate(content)[8000..] == "... [content truncated]"
  {
  }

  /** The prompt section of one document. */
  function DocEntry(d: DocContent): string
  {
    "\nDOCUMENT ID: " + IntToString(d.doc.id) + ", FILENAME: " + d.doc.filename + "\n" + Truncate(d.content) + "\n---\n"
  }

  /** `docs_prompt` after the first `n` documents of the group. */
  function PromptUpTo(group: seq<DocContent>, n: nat): string
    requires n <= |group|
  {
    if n == 0 then DocsHeader else PromptUpTo(group, n - 1) + DocEntry(group[n - 1])
  }

  const DocsHeader: string := "\n\nDocuments to search:\n"

  /** `docs_prompt` for one group. */
  function DocsPrompt(group: seq<DocContent>): string
  {
    PromptUpTo(group, |group|)
  }

  /** The loop that builds `docs_prompt`. */
  method BuildDocsPrompt(group: seq<DocContent>) returns (prompt: string)
    ensures prompt == DocsPrompt(group)
  {
    prompt := DocsHeader;
    for k := 0 to |group|
      invariant prompt == PromptUpTo(group, k)
    {
      var entry := BuildEntry(group[k]);
      prompt := prompt + entry;
    }
  }

  /** One pass of that loop: truncate, then format the document's section. */
  method BuildEntry(doc: DocContent) returns (entry: string)
    ensures entry == DocEntry(doc)
  {
    var content := doc.content;
    if |content| > 8000 {
      content := content[..8000] + "... [content truncated]";
    }
    entry := "\nDOCUMENT ID: " + IntToString(doc.doc.id) + ", FILENAME: " + doc.doc.filename + "\n" + content + "\n---\n";
  }

  /** `docs[i:i+5]`, `docs[i+5:i+10]`, ...: consecutive groups of five. */
  function GroupsFrom<T>(docs: seq<T>, i: nat): (gs: seq<seq<T>>)
    decreases |docs| - i
  {
    if i >= |docs| then []
    else [docs[i..if i + 5 <= |docs| then i + 5 else |docs|]] + GroupsFrom(docs, i + 5)
  }

  function Flatten<T>(gs: seq<seq<T>>): seq<T>
  {
    if gs == [] then [] else gs[0] + Flatten(gs[1..])
  }

  /** There are ⌈n/5⌉ groups of one to five documents, and laid end to end they are
      the documents in order, so each document is in exactly one group. */
  lemma {:induction false} GroupsPartition<T>(docs: seq<T>, i: nat)
    requires i <= |docs|
    ensures |GroupsFrom(docs, i)| == (|docs| - i + 4) / 5
    ensures Flatten(GroupsFrom(docs, i)) == docs[i..]
    ensures forall k :: 0 <= k < |GroupsFrom(docs, i)| ==> 1 <= |GroupsFrom(docs, i)[k]| <= 5
    decreases |docs| - i
  {
    if i < |docs| {
      var e := if i + 5 <= |docs| then i + 5 else |docs|;
      GroupsPartition(docs, e);
      var gs := GroupsFrom(docs, i);
      assert gs[1..] == GroupsFrom(docs, e);
      assert docs[i..] == docs[i..e] + docs[e..];
      assert forall k :: 1 <= k < |gs| ==> gs[k] == GroupsFrom(docs, e)[k - 1];
    }
  }

  /** How a reply becomes the matches a group keeps, or the exception that makes
      the loop skip the group. */
  type Outcome = Reply -> Result<seq<Json>, string>

  /** The outcome of `call_openai_api` and the relevance filter for one threshold. */
  function Outcomes(threshold: real): (f: Outcome)
    ensures forall reply :: f(reply) == GroupOutcome(reply, threshold)
  {
    reply => GroupOutcome(reply, threshold)
  }

  /** What one group contributes: the matches kept from the reply to its prompt, or
      nothing when the call or the filter raises. */
  function GroupKept(outcome: Outcome, userPrompt: string, llm: string -> Reply, group: seq<DocContent>): seq<Json>
  {
    match outcome(llm(userPrompt + DocsPrompt(group)))
    case Success(ms) => ms
    case Failure(_) => []
  }

  /** The matches kept from each group, in group order; a group that raises leaves
      the others alone. */
  function Candidates(outcome: Outcome, userPrompt: string, llm: string -> Reply, gs: seq<seq<DocContent>>): seq<Json>
  {
    if gs == [] then [] else GroupKept(outcome, userPrompt, llm, gs[0]) + Candidates(outcome, userPrompt, llm, gs[1..])
  }

  /** Every candidate has a numeric relevance of at least the threshold (a missing
      relevance counting as 0). */
  lemma {:induction false} CandidatesRelevant(userPrompt: string, llm: string -> Reply, gs: seq<seq<DocContent>>, threshold: real)
    ensures forall m :: m in Candidates(Outcomes(threshold), userPrompt, llm, gs) ==> Passes(m, threshold) == Success(true)
  {
    if gs != [] {
      CandidatesRelevant(userPrompt, llm, gs[1..], threshold);
    }
  }

  /** The sort key `x.get("relevance", 0)`, on matches that passed the filter. */
  function RelevanceKey(m: Json): real
  {
    if m.JObj? && IsNumber(Get(m.members, "relevance", JInt(0))) then NumberValue(Get(m.members, "relevance", JInt(0)))
    else 0.0
  }

  /** What `search_with_openai` returns for the documents that could be read. */
  function ModelResult(userPrompt: string, llm: string -> Reply, docs: seq<DocContent>, threshold: real): seq<Json>
  {
    if docs == [] then []
    else Ranking.Top(RelevanceKey, Candidates(Outcomes(threshold), userPrompt, llm, GroupsFrom(docs, 0)), 10)
  }

  /** `search_with_openai`; `userPrompt` is the instruction text built from the query
      and threshold, and `llm` answers a prompt. */
  method SearchWithOpenAi(files: Files, docs: seq<Document>, userPrompt: string, threshold: real, llm: string -> Reply)
    returns (matches: seq<Json>)
    ensures matches == ModelResult(userPrompt, llm, Readable(files, docs), threshold)
  {
    var docContents := ReadContents(files, docs);
    if |docContents| == 0 {
      return [];
    }
    matches := SearchGroups(Outcomes(threshold), userPrompt, llm, docContents);
    matches := Ranking.SortDesc(RelevanceKey, matches);
    matches := Prefix(matches, 10);
  }

  /** The loop over the groups of five, gathering what each group keeps. */
  method SearchGroups(outcome: Outcome, userPrompt: string, llm: string -> Reply, docContents: seq<DocContent>)
    returns (matches: seq<Json>)
    ensures matches == Candidates(outcome, userPrompt, llm, GroupsFrom(docContents, 0))
  {
    matches := [];
    var i := 0;
    while i < |docContents|
      invariant matches + Candidates(outcome, userPrompt, llm, GroupsFrom(docContents, i)) ==
        Candidates(outcome, userPrompt, llm, GroupsFrom(docContents, 0))
      decreases |docContents| - i
    {
      var end := if i + 5 <= |docContents| then i + 5 else |docContents|;
      var chunk := docContents[i..end];
      CandidatesStep(outcome, userPrompt, llm, docContents, i);
      var kept := SearchGroup(outcome, userPrompt, llm, chunk);
      AppendAssoc(matches, kept, Candidates(outcome, userPrompt, llm, GroupsFrom(docContents, i + 5)));
      matches := matches + kept;
      i := i + 5;
    }
  }

  /** The candidates from group `i` on are those of the group at `i`, then the rest. */
  lemma CandidatesStep(outcome: Outcome, userPrompt: string, llm: string -> Reply, docs: seq<DocContent>, i: nat)
    requires i < |docs|
    ensures Candidates(outcome, userPrompt, llm, GroupsFrom(docs, i)) ==
      GroupKept(outcome, userPrompt, llm, docs[i..if i + 5 <= |docs| then i + 5 else |docs|]) +
      Candidates(outcome, userPrompt, llm, GroupsFrom(docs, i + 5))
  {
    assert GroupsFrom(docs, i)[1..] == GroupsFrom(docs, i + 5);
  }

  lemma AppendAssoc<T>(a: seq<T>, b: seq<T>, c: seq<T>)
    ensures a + (b + c) == (a + b) + c
  {
  }

  /** The body of the group loop: build the prompt, call, filter, and swallow an
      exception. */
  method SearchGroup(outcome: Outcome, userPrompt: string, llm: string -> Reply, chunk: seq<DocContent>)
    returns (kept: seq<Json>)
    ensures kept == GroupKept(outcome, userPrompt, llm, chunk)
  {
    var docsPrompt := BuildDocsPrompt(chunk);
    var reply := llm(userPrompt + docsPrompt);
    var result := outcome(reply);
    kept := if result.Success? then result.value else [];
  }

  /** The OpenAI result is at most ten matches, each with a numeric relevance at
      least the threshold, in non-increasing relevance. */
  lemma ModelResultRanked(userPrompt: string, llm: string -> Reply, docs: seq<DocContent>, threshold: real)
    ensures var r := ModelResult(userPrompt, llm, docs, threshold);
      |r| <= 10 && Ranking.SortedDesc(RelevanceKey, r) &&
      forall i :: 0 <= i < |r| ==> Passes(r[i], threshold) == Success(true) && RelevanceKey(r[i]) >= threshold
    ensures var r := ModelResult(userPrompt, llm, docs, threshold);
      var all := Candidates(Outcomes(threshold), userPrompt, llm, GroupsFrom(docs, 0));
      multiset(r) <= multiset(all) &&
      forall c, i :: c in all && c !in r && 0 <= i < |r| ==> RelevanceKey(c) <= RelevanceKey(r[i])
  {
    if docs != [] {
      var all := Candidates(Outcomes(threshold), userPrompt, llm, GroupsFrom(docs, 0));
      var r := ModelResult(userPrompt, llm, docs, threshold);
      Ranking.TopIsTop(RelevanceKey, all, 10);
      CandidatesRelevant(userPrompt, llm, GroupsFrom(docs, 0), threshold);
      forall i | 0 <= i < |r| ensures Passes(r[i], threshold) == Success(true) {
        assert r[i] in multiset(r);
      }
    }
  }

  // ---------------------------------------------------------------------------
  // process_query

  /** One entry of the result: a keyword match or a match as the model wrote it. */
  datatype Found = Keyword(k: KeywordMatch) | FromModel(m: Json)

  function AsKeyword(ms: seq<KeywordMatch>): (r: seq<Found>)
    ensures |r| == |ms| && forall i :: 0 <= i < |ms| ==> r[i] == Keyword(ms[i])
  {
    seq(|ms|, i requires 0 <= i < |ms| => Keyword(ms[i]))
  }

  function AsModel(ms: seq<Json>): (r: seq<Found>)
    ensures |r| == |ms| && forall i :: 0 <= i < |ms| ==> r[i] == FromModel(ms[i])
  {
    seq(|ms|, i requires 0 <= i < |ms| => FromModel(ms[i]))
  }

  /** The documents searched: those with the requested ids when a non-empty id list
      is given, else all of them. */
  function SearchedDocuments(t: Table, documentIds: Option<seq<int>>): Table
  {
    if documentIds.Some? && documentIds.value != [] then WithIds(t, documentIds.value) else t
  }

  /** `process_query`. `hasApiKey` is whether `OPENAI_API_KEY` is set; `userPrompt` is
      the instruction text for the chosen mode. */
  method ProcessQuery(t: Table, files: Files, query: string, documentIds: Option<seq<int>>, threshold: real,
                      hasApiKey: bool, userPrompt: string, llm: string -> Reply)
    returns (found: seq<Found>)
    ensures SearchedDocuments(t, documentIds) == [] ==> found == []
    ensures SearchedDocuments(t, documentIds) != [] && hasApiKey ==>
      found == AsModel(ModelResult(userPrompt, llm, Readable(files, SearchedDocuments(t, documentIds)), threshold))
    ensures SearchedDocuments(t, documentIds) != [] && !hasApiKey ==>
      found == AsKeyword(KeywordResult(files, SearchedDocuments(t, documentIds), query))
  {
    var documents: seq<Document>;
    if documentIds.Some? && documentIds.value != [] {
      documents := WithIds(t, documentIds.value);
      if documents == [] {
        return [];
      }
    } else {
      documents := t;
    }
    if documents == [] {
      return [];
    }
    if hasApiKey {
      var matches := SearchWithOpenAi(files, documents, userPrompt, threshold, llm);
      found := AsModel(matches);
    } else {
      var matches := BasicDocumentSearch(files, documents, query);
      found := AsKeyword(matches);
    }
  }

  /** Asking for ids none of which is stored gives `[]`, whichever search is used. */
  lemma UnknownIdsFindNothing(t: Table, files: Files, ids: seq<int>, query: string, threshold: real,
                              hasApiKey: bool, userPrompt: string, llm: string -> Reply)
    requires ids != [] && forall i :: 0 <= i < |t| ==> t[i].id !in ids
    ensures SearchedDocuments(t, Some(ids)) == []
  {
    HavingNone(t, ids);
  }
}
