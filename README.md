# Redoc document research core, modelled in Dafny

Redoc lets a user upload documents, ask questions against them, and get answers
traced back to a document, a page and a paragraph. It also synthesises themes
across the retrieved evidence. This project models the code that sits around the
language-model, embedding and vector-store calls:

- **Segmentation** (`TextAnalysis`). Text is split into paragraphs and sentences
  with absolute character offsets and content-hash ids. A document analysis
  collects both lists, or returns empty lists and the error.
- **Addressing and citations** (`Ocr`, `Addressing`, `DocumentIndexing`,
  `QueryEngine`):
  - the OCR step writes `--- Page k ---` markers, and the page number is read back from them;
  - a paragraph number in 1..99 comes from a content hash;
  - the indexer tags chunk metadata;
  - search hits are turned into `"<file>, Page p, Para q"` citations.
- **Query processing** (`QueryProcessor`):
  - the keyword fallback search;
  - the bookkeeping around the OpenAI search: groups of five documents, truncation at 8000 characters, the relevance filter, and a stable sort cut to ten results;
  - normalisation of the reply's shape.
- **Themes** (`ThemeService`, `ThemeApi`):
  - preparing the model input;
  - filtering supporting documents the reply invented;
  - choosing key sections;
  - merging themes with similar names;
  - grouping excerpts per file under `DOCnnn` labels;
  - stripping Markdown code fences from the model's reply;
  - shaping the error replies.
- **Document service** (`DocumentService`, `Store`). Paging through the
  `documents` table, reading one document, reading fixed-size chunks of it, and
  batch-operation dispatch.

Python's string, list and JSON behaviour is modelled once, in `PyStr`, `Json` and
`Ranking`, and proved there. Examples are `strip`, `split`, `find`, `lower`,
`str(n)`, slicing, `json.loads` values, `.get`, `len`, iteration and a stable
`sort(reverse=True)`. The database is a key-ordered sequence of rows and the
file system is a map from path to text. MD5, the sentence tokenizer, the model
calls and `json.loads` are function parameters.

Code that changes state step by step is modelled as methods with loops. Each
method is proved against a specification function, and the properties are
proved about that function. This covers the segmentation loops, the citation
built with `+=`, the metadata updates on `LcDocument` objects, the per-group
search loop, the theme filtering and merging loops, the context builder and the
batch loop.

`format_themes` keeps every listed name that is a known document, repeats
included (backend/app/services/theme_identification.py:132).

## Model

| member | source | states |
|---|---|---|
| TextAnalysis.GenerateTextId | backend/app/services/text_analysis.py:13-16 | an id is always 12 lower-case hexadecimal digits |
| TextAnalysis.TextIdIgnoresOuterWhitespace | backend/app/services/text_analysis.py:14 | whitespace around a text does not change its id |
| TextAnalysis.TextIdIgnoresTail | backend/app/services/text_analysis.py:14 | when the first 100 characters neither start nor end with whitespace, nothing appended after them changes the id |
| TextAnalysis.RawParagraphs | backend/app/services/text_analysis.py:22-23 | CRLF is normalised before splitting at blank lines, and there is always at least one raw paragraph |
| TextAnalysis.SplitIntoParagraphs | backend/app/services/text_analysis.py:20-44 | the method computes the paragraph specification `ParagraphsOf`, whose properties follow |
| TextAnalysis.LocateParagraphs | backend/app/services/text_analysis.py:24-42 | the loop over the raw paragraphs yields exactly the paragraphs of the non-blank pieces |
| TextAnalysis.LocateParagraph | backend/app/services/text_analysis.py:25-42 | after each iteration the search cursor is no later than the next raw paragraph, with only whitespace between them |
| TextAnalysis.FindParagraph | backend/app/services/text_analysis.py:30-32 | the search for a non-blank paragraph never returns -1: it finds the content where its own piece holds it |
| TextAnalysis.BlankStep | backend/app/services/text_analysis.py:27-29 | skipping a blank piece by two characters never jumps past the next piece |
| TextAnalysis.ContentFound | backend/app/services/text_analysis.py:30 | `text.find(para, start_pos)` returns the position of the piece's own content, not an earlier copy |
| TextAnalysis.ContentEnd | backend/app/services/text_analysis.py:33-42 | after a paragraph, only whitespace lies between its end and the next piece |
| TextAnalysis.ParagraphsUpToAreCandidates | backend/app/services/text_analysis.py:25-41 | every paragraph comes from a non-blank piece with its index, and indices strictly increase |
| TextAnalysis.ContentPlaced | backend/app/services/text_analysis.py:26-33 | the stripped content of a non-blank piece occurs at its computed start and is trimmed |
| TextAnalysis.ContentsInOrder | backend/app/services/text_analysis.py:30-42 | an earlier piece's content ends before a later piece's content starts |
| TextAnalysis.ParagraphsOfInOrder | backend/app/services/text_analysis.py:20-44 | each paragraph's content is the slice `start:end` of the normalised text, non-empty and trimmed; ranges do not overlap and indices increase |
| TextAnalysis.ParagraphsLackBreak | backend/app/services/text_analysis.py:23-26 | no paragraph contains a blank line |
| TextAnalysis.SentencesFromInOrder | backend/app/services/text_analysis.py:53-69 | each sentence found is its token, sits inside the paragraph after the cursor, carries the paragraph index and its id; sentences do not overlap and token indices increase |
| TextAnalysis.SplitParagraphIntoSentences | backend/app/services/text_analysis.py:47-70 | returns the sentences of the paragraph, or the tokenizer's error |
| TextAnalysis.LocateSentences | backend/app/services/text_analysis.py:52-69 | the loop over the tokens yields the specified sentences |
| TextAnalysis.SentencePlaced | backend/app/services/text_analysis.py:57-58 | a sentence's absolute `start:end` slices its content out of the text |
| TextAnalysis.SentencesOfInParagraph | backend/app/services/text_analysis.py:47-70 | every sentence of a paragraph lies inside it, and the sentences are in order |
| TextAnalysis.AnalysisOf | backend/app/services/text_analysis.py:73-100 | the analysis fails exactly when some paragraph's tokenization fails, and then both lists are empty and there are no statistics; otherwise paragraph `j` is the input paragraph `j` with its content id and the document id, the sentences are those collected paragraph by paragraph with the document id set, and the counts are the list lengths |
| TextAnalysis.Stamped | backend/app/services/text_analysis.py:82-83 | one sentence per input sentence, at the same position, with only its document id set |
| TextAnalysis.SentencesUpToPrefix | backend/app/services/text_analysis.py:76-79 | the sentences collected from the first `k` paragraphs begin those collected from any later count |
| TextAnalysis.SentencesUpToStep | backend/app/services/text_analysis.py:77-79 | collecting one more paragraph appends exactly that paragraph's own sentences |
| TextAnalysis.ParagraphSentences | backend/app/services/text_analysis.py:76-79 | in the document's sentence list, the sentences of paragraph `j` are exactly those of its own tokenization, right after those of the paragraphs before it |
| TextAnalysis.SentencesAppend | backend/app/services/text_analysis.py:76-79 | appending the sentences of a later paragraph keeps every sentence sliced out of the text, paragraph indices non-decreasing and sentences non-overlapping |
| TextAnalysis.SentencesUpToInOrder | backend/app/services/text_analysis.py:73-79 | across the paragraphs, every collected sentence slices its content out of the text with its content id, paragraph indices never decrease and sentences never overlap |
| TextAnalysis.StampedKeepsOrder | backend/app/services/text_analysis.py:82-83 | setting the document id moves no sentence and changes no content |
| TextAnalysis.AnalysisSentences | backend/app/services/text_analysis.py:73-100 | every sentence `analyze_document` reports slices its content out of the normalised text with its content id; their paragraph indices never decrease and they never overlap |
| TextAnalysis.FailureSticks | backend/app/services/text_analysis.py:77-79 | the first tokenization error is the one the analysis reports |
| TextAnalysis.AnalyzeDocument | backend/app/services/text_analysis.py:73-100 | the method computes `AnalysisOf` on the paragraphs of the text |
| TextAnalysis.AnalyzeParagraphs | backend/app/services/text_analysis.py:76-92 | the loop over the paragraphs computes `AnalysisOf` |
| TextAnalysis.StampSentences | backend/app/services/text_analysis.py:82-83 | every sentence gets the document id and nothing else changes |
| ThemeService.Prepared | backend/app/services/theme_identification.py:36-44 | the entries are built exactly when every match is a dictionary, one per match in order, each with the match's cited name and matched text |
| ThemeService.PrepareInputs | backend/app/services/theme_identification.py:36-44 | the loop builds `Prepared`, and `document_ids` lists the entries' names side by side |
| ThemeService.PreparedExtends | backend/app/services/theme_identification.py:39-44 | the first match that is not a dictionary decides the failure of the whole preparation |
| ThemeService.ExcerptIds | backend/app/services/theme_identification.py:37-40 | `document_ids` holds each entry's name, position by position |
| ThemeService.ValidDocs | backend/app/services/theme_identification.py:132 | the kept documents are exactly the listed documents that are known ids, taken from the list |
| ThemeService.ValidDocsOne | backend/app/services/theme_identification.py:132 | one listed document is kept exactly when it is a known id |
| ThemeService.ValidDocsAppend | backend/app/services/theme_identification.py:132 | filtering a concatenation filters each part and keeps them in order, repeats included |
| ThemeService.FormatTheme | backend/app/services/theme_identification.py:122-137 | formatting theme `i` fails exactly when it is not a dictionary or its supporting documents are not iterable; it is dropped exactly when no listed document is known; a kept theme has id `i + 1`, its name or the default `Theme <i+1>`, its summary and evidence or the defaults `No summary provided` and `No evidence provided`, and as documents the known ones of its list, in order |
| ThemeService.Formatter | backend/app/services/theme_identification.py:122-137 | the formatter applies `FormatTheme` at each position |
| ThemeService.FormatterSound | backend/app/services/theme_identification.py:124-137 | every theme the formatter keeps has id `i + 1` and at least one document, all of them known |
| ThemeService.FormatThemes | backend/app/services/theme_identification.py:117-139 | the loop computes `Formatted`: the reply must be iterable and the first failing theme aborts |
| ThemeService.FormattedFails | backend/app/services/theme_identification.py:122-137 | a failure among the first themes is the result for the whole reply |
| ThemeService.FormattedFailsIff | backend/app/services/theme_identification.py:122-137 | formatting fails exactly when some theme cannot be formatted |
| ThemeService.FormattedOrdered | backend/app/services/theme_identification.py:122-139 | kept themes have strictly increasing ids within `1..n`, and each lists at least one document, all known |
| ThemeService.FormattedKeptIff | backend/app/services/theme_identification.py:132-137 | theme `i` appears in the output, under id `i + 1`, exactly when the formatter keeps it |
| ThemeService.IdentifyThemes | backend/app/services/theme_identification.py:21-58 | no matches or no API key give no themes; otherwise the result is `Identified`: a match that is not a dictionary raises, and a failed call or formatting gives no themes |
| ThemeService.IdentifiedCitesMatches | backend/app/services/theme_identification.py:36-58 | identification fails exactly when some match is not a dictionary; otherwise the themes keep increasing ids and cite only names of the given matches |
| ThemeService.KeySections | backend/app/services/theme_identification.py:187-201 | the first section is the first paragraph; the count is one plus `max_sections - 1` of the others, capped by how many there are |
| ThemeService.KeySectionsLongest | backend/app/services/theme_identification.py:194-199 | the sections after the first are other paragraphs, longest first, and no paragraph left out is longer than one kept |
| ThemeService.AsWrittenIgnoresThreshold | backend/app/services/theme_identification.py:279 | as written, for names with any words the threshold plays no part: any shared word makes two names similar |
| ThemeService.SimilarWords | backend/app/services/theme_identification.py:271-279 | the corrected test holds exactly when the shared words are at least the threshold times all words, with similarity 0 for two empty names |
| ThemeService.SimilarSymmetric | backend/app/services/theme_identification.py:276-277 | similarity does not depend on the order of the names |
| ThemeService.SameWordsSimilar | backend/app/services/theme_identification.py:271-279 | the same non-empty word set is similar under any threshold up to 1 |
| ThemeService.DisjointNotSimilar | backend/app/services/theme_identification.py:271-279 | names without a common word are not similar under a positive threshold |
| ThemeService.AsWrittenMergesDissimilar | backend/app/services/theme_identification.py:279 | "a b" and "a c" share one word in three: the code as written calls them similar under 0.8, the corrected test does not |
| ThemeService.Similarity | backend/app/services/theme_identification.py:262 | the merge's name test is the corrected `are_themes_similar` at the given threshold |
| ThemeService.Combine | backend/app/services/theme_identification.py:263-264 | folding keeps the name and description, takes the larger relevance, and appends the evidence on a new line |
| ThemeService.MergeInto | backend/app/services/theme_identification.py:258-265 | the group's theme keeps the leader's name and description; its relevance is the largest of the leader's and those of the themes it takes in, and is one of them; its evidence is the leader's followed by each taken theme's on a new line, in order |
| ThemeService.MergeSimilarThemes | backend/app/services/theme_identification.py:246-269 | the nested loops compute `MergeFrom`: one merged theme per group leader, in order |
| ThemeService.Absorb | backend/app/services/theme_identification.py:255-265 | the inner loop folds in exactly the later themes not yet taken with a similar name, and marks them and the leader as used |
| ThemeService.LeadersIncreasing | backend/app/services/theme_identification.py:251-256 | group leaders come in increasing order, and none was taken before |
| ThemeService.MergedShape | backend/app/services/theme_identification.py:251-267 | one merged theme per leader, with the leader's name and description and at least its relevance |
| ThemeService.LeadersIff | backend/app/services/theme_identification.py:251-265 | a theme leads a group exactly when no earlier leader has a similar name |
| ThemeService.MergedAbsorbs | backend/app/services/theme_identification.py:258-267 | a theme that leads no group is taken in by an earlier leader with a similar name, whose merged theme has at least its relevance |
| ThemeService.GroupsFrom | backend/app/services/theme_identification.py:251-265 | every group is led by a theme at or after the current position |
| ThemeService.GroupsPartition | backend/app/services/theme_identification.py:251-265 | every theme not taken before lies in exactly one group: the groups cover those themes, hold no others, and no two share a theme |
| ThemeService.GroupsCons | backend/app/services/theme_identification.py:251-265 | a new leader's group added in front of the later groups keeps them a partition of the remaining themes |
| ThemeService.ConsMembersFrom | backend/app/services/theme_identification.py:255-265 | the new leader's group and the later groups hold only themes not taken before |
| ThemeService.ConsCovers | backend/app/services/theme_identification.py:255-265 | every theme not taken before is in the new leader's group or in a later group |
| ThemeService.ConsDisjoint | backend/app/services/theme_identification.py:255-265 | the new leader's group shares no theme with a later group |
| ThemeService.GroupsMerged | backend/app/services/theme_identification.py:251-267 | merged theme `k` is the fold of group `k` |
| ThemeService.MergedGroups | backend/app/services/theme_identification.py:246-269 | one merged theme per group, in order; each has the largest relevance of its group's members and is one of theirs, and the leader's evidence followed by each taken member's on a new line |
| ThemeService.FoldOfGroup | backend/app/services/theme_identification.py:258-265 | merging one group gives the largest relevance of its members and the evidence of the leader followed by the taken members' |
| ThemeService.Leaders | backend/app/services/theme_identification.py:251-256 | the themes that open a merged group are positions of the list, at or after the current one |
| ThemeService.ExampleWords | backend/app/services/theme_identification.py:273-274 | `set("a b".lower().split())` is `{"a", "b"}` and that of `"a c"` is `{"a", "c"}` |
| ThemeService.ExampleRatio | backend/app/services/theme_identification.py:276-279 | for these two word sets the expression as written is truthy at threshold 0.8 while the intended test (ratio 1/3 against 0.8) fails |
| ThemeApi.FilenamesComplete | backend/app/api/theme_identification.py:47-51 | the groups are named by distinct file names, exactly the file names of the results |
| ThemeApi.FilenamesFirstAppearance | backend/app/api/theme_identification.py:47-51 | groups come in the order in which their file names first appear, as a dictionary keeps insertion order |
| ThemeApi.TextsOfEmpty | backend/app/api/theme_identification.py:47-49 | a file has texts exactly when it names a group |
| ThemeApi.GroupSizesCount | backend/app/api/theme_identification.py:47-54 | the groups' text lists together hold every result once |
| ThemeApi.GroupByFile | backend/app/api/theme_identification.py:47-49 | the grouping loop yields the groups in first-appearance order, with exactly those keys, each holding that file's texts in result order |
| ThemeApi.Pad3 | backend/app/api/theme_identification.py:52 | `{n:03d}` is at least three digits that read back as `n`, and without padding once `n` needs more than three |
| ThemeApi.DocId | backend/app/api/theme_identification.py:52 | a document label is `DOC` followed by at least three digits |
| ThemeApi.DocIdInjective | backend/app/api/theme_identification.py:52 | different groups get different labels |
| ThemeApi.ExcerptIsWords | backend/app/api/theme_identification.py:55 | a cleaned excerpt is the text's words joined by single spaces |
| ThemeApi.AppendExcerpts | backend/app/api/theme_identification.py:54-56 | the inner loop appends each cleaned text followed by a blank line |
| ThemeApi.AppendGroups | backend/app/api/theme_identification.py:51-56 | the outer loop appends, group by group, the label line and that group's excerpts |
| ThemeApi.PrepareContext | backend/app/api/theme_identification.py:43-58 | the context is the query header followed by every group's section |
| ThemeApi.UnfenceUnfenced | backend/app/api/theme_identification.py:103-104 | a reply without fences is only stripped |
| ThemeApi.StripFencesPlain | backend/app/api/theme_identification.py:103-104 | a stripped reply without fences is left as it is |
| ThemeApi.StripFencesJson | backend/app/api/theme_identification.py:103-104 | a body fenced as "```json" gives back exactly the body |
| ThemeApi.StripFencesBare | backend/app/api/theme_identification.py:103-104 | a body fenced with bare "```" gives back exactly the body |
| ThemeApi.Failed | backend/app/api/theme_identification.py:119-124 | an exception gives a dictionary with an empty theme list and the message |
| ThemeApi.Logged | backend/app/api/theme_identification.py:109 | the logging line succeeds exactly when the parsed reply is a dictionary whose `themes` has a length, and then passes the reply on |
| ThemeApi.Unparsed | backend/app/api/theme_identification.py:111-117 | a reply that does not parse gives an empty theme list, the fixed error and the cleaned reply |
| ThemeApi.GenerateThemes | backend/app/api/theme_identification.py:95-124 | a failed call, a reply that does not parse and a reply that fails the logging line give the matching error dictionary; otherwise the parsed reply |
| ThemeApi.GeneratedShape | backend/app/api/theme_identification.py:95-124 | the result is the model's parsed reply itself, or a dictionary with an empty theme list and an error |
| ThemeApi.IdentifyThemes | backend/app/api/theme_identification.py:24-41 | no results give an empty theme list with the fixed message and no model call; otherwise the themes generated for the prepared context |
| QueryProcessor.HitCount | backend/app/services/vectorstore/query_processor.py:256-259 | a paragraph never scores more hits than there are query terms |
| QueryProcessor.HitsAtLeastOne | backend/app/services/vectorstore/query_processor.py:257-259 | a paragraph scores a hit exactly when some query term occurs in it |
| QueryProcessor.HitsAtLeastTwo | backend/app/services/vectorstore/query_processor.py:256-262 | the 0.2 threshold is reached exactly when terms at two different positions of the query occur in the paragraph |
| QueryProcessor.CountHits | backend/app/services/vectorstore/query_processor.py:256-259 | the inner loop counts the terms found in the lower-cased paragraph |
| QueryProcessor.ParagraphMatch | backend/app/services/vectorstore/query_processor.py:263-270 | a match records the document id, the paragraph text, its 1-based number and the citation `<filename>, paragraph <n>` |
| QueryProcessor.MatchesUpToIff | backend/app/services/vectorstore/query_processor.py:252-270 | a paragraph is reported exactly when it scores at least two hits, with its number and citation |
| QueryProcessor.BasicDocumentSearch | backend/app/services/vectorstore/query_processor.py:240-278 | the keyword search over the readable documents returns the top ten matches by relevance |
| QueryProcessor.SearchDocument | backend/app/services/vectorstore/query_processor.py:252-270 | the loop over one document's paragraphs yields its matches in paragraph order |
| QueryProcessor.KeywordResultRanked | backend/app/services/vectorstore/query_processor.py:274-278 | the keyword result has at most ten matches in non-increasing relevance, all taken from the candidates, and no match left out is more relevant than one kept |
| QueryProcessor.Normalise | backend/app/services/vectorstore/query_processor.py:220-229 | a dictionary gives its `matches`, else its `results`; a list is itself; anything else gives `[]` |
| QueryProcessor.CallResult | backend/app/services/vectorstore/query_processor.py:210-238 | the call raises exactly on a raised reply, which is a failed request or an unexpected payload shape (such as an empty `choices` list); a missing key or undecodable content gives `[]` |
| QueryProcessor.Passes | backend/app/services/vectorstore/query_processor.py:179 | the relevance test succeeds exactly on a dictionary whose relevance is a number, and then compares it (0 when absent) with the threshold |
| QueryProcessor.KeepRelevant | backend/app/services/vectorstore/query_processor.py:179 | the filter succeeds exactly when the relevance of every match can be compared with the threshold, and then keeps exactly the matches that pass |
| QueryProcessor.GroupOutcome | backend/app/services/vectorstore/query_processor.py:173-182 | a group contributes only matches that pass the threshold |
| QueryProcessor.TruncateShape | backend/app/services/vectorstore/query_processor.py:165-167 | text of at most 8000 characters is sent unchanged; longer text becomes its first 8000 characters and the truncation notice |
| QueryProcessor.BuildDocsPrompt | backend/app/services/vectorstore/query_processor.py:162-169 | the loop appends each document's entry to the prompt header |
| QueryProcessor.BuildEntry | backend/app/services/vectorstore/query_processor.py:165-169 | one document's entry carries its id, file name and truncated content |
| QueryProcessor.GroupsPartition | backend/app/services/vectorstore/query_processor.py:156-159 | the documents are cut into ceil(n/5) groups of one to five that together are the documents in order |
| QueryProcessor.Outcomes | backend/app/services/vectorstore/query_processor.py:176-180 | each group's outcome is `GroupOutcome` at the given threshold |
| QueryProcessor.CandidatesRelevant | backend/app/services/vectorstore/query_processor.py:158-182 | every collected match passes the threshold |
| QueryProcessor.SearchWithOpenAi | backend/app/services/vectorstore/query_processor.py:74-188 | the search reads the documents, queries the model group by group, and returns the top ten relevant matches |
| QueryProcessor.SearchGroups | backend/app/services/vectorstore/query_processor.py:158-182 | the loop over groups collects each group's matches in group order, skipping groups whose call raised |
| QueryProcessor.SearchGroup | backend/app/services/vectorstore/query_processor.py:159-182 | one group's prompt is built, the model is called, and its relevant matches are kept |
| QueryProcessor.ModelResultRanked | backend/app/services/vectorstore/query_processor.py:184-188 | the model search returns at most ten matches, each with a numeric relevance of at least the threshold, in non-increasing relevance; they are a sub-multiset of the groups' candidates, and no candidate left out is more relevant than one kept |
| QueryProcessor.ProcessQuery | backend/app/services/vectorstore/query_processor.py:22-72 | no documents to search give `[]`; otherwise the model search when the API key is set, else the keyword search, over the requested or all documents |
| QueryProcessor.UnknownIdsFindNothing | backend/app/services/vectorstore/query_processor.py:47-51 | asking only for ids that are not stored leaves nothing to search |
| QueryEngine.ErrorRecord | backend/app/services/vectorstore/query_engine.py:89-95 | an exception gives one `System Error` record cited as `System` |
| QueryEngine.ParagraphNumbers | backend/app/services/vectorstore/query_engine.py:23-27 | the paragraph number of a text is `extract_paragraph_info` of it |
| QueryEngine.FormatAll | backend/app/services/vectorstore/query_engine.py:50-86 | one result per hit, in hit order, each the formatting of that hit |
| QueryEngine.QueryDocuments | backend/app/services/vectorstore/query_engine.py:29-95 | the method computes `QueryResult` with the one-argument paragraph call |
| QueryEngine.FormatHits | backend/app/services/vectorstore/query_engine.py:50-86 | the loop yields one formatted result per hit, in hit order |
| QueryEngine.FormatOne | backend/app/services/vectorstore/query_engine.py:55-84 | one pass takes the page from the metadata or the text, the paragraph from the metadata or the text, and builds the citation |
| QueryEngine.BuildCitation | backend/app/services/vectorstore/query_engine.py:72-76 | the citation extended in place is the file name followed by the truthy page and paragraph parts |
| QueryEngine.QueryResultShape | backend/app/services/vectorstore/query_engine.py:29-95 | a missing store gives exactly the `System Message` record, a failed search exactly one `System Error` record, and a successful search one result per hit carrying that hit's text, file name, page and paragraph |
| QueryEngine.CitationParts | backend/app/services/vectorstore/query_engine.py:72-76 | a citation starts with the file name; it is the bare file name exactly when neither page nor paragraph is truthy, and otherwise ends with the paragraph part, or the page part when there is no paragraph |
| QueryEngine.IndexedHitAgrees | backend/app/services/vectorstore/query_engine.py:55-70 | for a chunk the indexer tagged, the reported paragraph is the indexer's paragraph number and the reported page the page named in the text |
| QueryEngine.AsWrittenFails | backend/app/services/vectorstore/query_engine.py:67-69 | as written, any hit without `paragraph_id` makes the two-argument call raise |
| QueryEngine.AsWrittenLosesResults | backend/app/services/vectorstore/query_engine.py:67-69 | as written, one hit without `paragraph_id` turns the answer into a single `System Error` record, while the corrected call keeps one result per hit |
| QueryEngine.AsWrittenAgreesWhenIndexed | backend/app/services/vectorstore/query_engine.py:63-70 | when every hit carries `paragraph_id`, the code as written and the corrected call give the same results |
| Addressing.PageMarker | backend/app/services/ocr.py:10 | the marker before page `k` is 15 characters plus the digits of `k` |
| Addressing.SearchMarkerFirst | backend/app/services/vectorstore/query_engine.py:15-19 | the search from a position returns the number of the first marker at or after it, and nothing exactly when there is no such marker |
| Addressing.ExtractPageInfoFirst | backend/app/services/vectorstore/document_indexing.py:17-21 | `extract_page_info` gives the number of the first marker in the text, and `None` exactly when the text has no marker |
| Addressing.MarkerReadsBack | backend/app/services/vectorstore/query_engine.py:15-17 | the pattern matches a written marker and its digit group reads back as the page number |
| Addressing.ExtractPageInfoOfMarker | backend/app/services/vectorstore/document_indexing.py:17-21 | a text that begins with the marker of page `k` is attributed to page `k`, whatever follows |
| Addressing.ParagraphId | backend/app/services/vectorstore/query_engine.py:23-27 | a paragraph number is always between 1 and 99 |
| Addressing.ParagraphIdIgnoresOuterWhitespace | backend/app/services/vectorstore/query_engine.py:24 | whitespace around the text does not change its paragraph number |
| Addressing.ParagraphIdIgnoresTail | backend/app/services/vectorstore/query_engine.py:24 | when the first 50 characters neither start nor end with whitespace, nothing appended after them changes the paragraph number |
| DocumentIndexing.ExtractParagraphInfo | backend/app/services/vectorstore/document_indexing.py:23-28 | the indexer's two-argument form ignores the file name and gives the same number, in 1..99, as the query engine's one-argument form |
| DocumentIndexing.WithChunkInfo | backend/app/services/vectorstore/document_indexing.py:81-87 | the metadata gains `paragraph_id`, and `page` only when the page found is truthy; every other entry is kept |
| DocumentIndexing.ParagraphIds | backend/app/services/vectorstore/document_indexing.py:85-86 | the paragraph number of a chunk depends on its text only |
| DocumentIndexing.ChunkParagraphNumber | backend/app/services/vectorstore/document_indexing.py:85-87 | every tagged chunk records its content's paragraph number, in 1..99 |
| DocumentIndexing.ChunkMetadataIdempotent | backend/app/services/vectorstore/document_indexing.py:80-87 | tagging a chunk a second time changes nothing |
| DocumentIndexing.LcDocument.constructor | backend/app/services/vectorstore/document_indexing.py:58-59 | a loaded document holds its text and its metadata |
| DocumentIndexing.TagWithFilename | backend/app/services/vectorstore/document_indexing.py:61-62 | every document loaded from a file gets that file's name, and nothing else in its metadata changes |
| DocumentIndexing.TagChunks | backend/app/services/vectorstore/document_indexing.py:80-87 | every split chunk ends with its page, when truthy, and its paragraph number recorded in place |
| DocumentIndexing.TagChunksWith | backend/app/services/vectorstore/document_indexing.py:80-87 | the loop tags every chunk once in effect, even when a chunk is listed twice |
| DocumentIndexing.TagChunk | backend/app/services/vectorstore/document_indexing.py:81-87 | one pass updates the chunk's `page` and `paragraph_id` in place |
| Ocr.ExtractTextFromPdf | backend/app/services/ocr.py:6-12 | the loop computes the text of all pages, each preceded by its 1-based marker |
| Ocr.PdfTextLength | backend/app/services/ocr.py:8-11 | the text is exactly as long as the markers and the pages together, and empty for a PDF without pages |
| Ocr.PdfTextPrefix | backend/app/services/ocr.py:9-11 | the text of fewer pages is a prefix of the text of more pages |
| Ocr.PagePlaced | backend/app/services/ocr.py:10-11 | each page sits in the text right after its own marker |
| Ocr.PagesInOrder | backend/app/services/ocr.py:9-11 | pages appear in page order and do not overlap |
| Ocr.PageAttributed | backend/app/services/ocr.py:10 | the text from page `k`'s marker on is attributed to page `k` by `extract_page_info` |
| Ocr.FirstPageIsOne | backend/app/services/ocr.py:9-10 | the text of a PDF with pages starts with the page-1 marker, so it is attributed to page 1 |
| Addressing.ParagraphIdOfPrefix | backend/app/services/vectorstore/document_indexing.py:25-28 | two texts whose stripped 50-character openings agree get the same paragraph number |
| DocumentService.Window | backend/app/services/document_service.py:12-13 | `OFFSET`/`LIMIT` returns no more rows than the table holds, nor more than a non-negative limit |
| DocumentService.GetDocuments | backend/app/services/document_service.py:10-30 | the page echoes `page` and `page_size`, `total` counts every row, and the rows are at most `page_size`, in key order |
| DocumentService.PagesTile | backend/app/services/document_service.py:12-13 | with a positive page size, pages `1..k` laid end to end are the first `k * page_size` rows: no row is skipped or repeated |
| DocumentService.PageIs | backend/app/services/document_service.py:12-13 | page `k` holds the rows from `(k - 1) * page_size` up to `k * page_size` |
| DocumentService.LowPageIsFirst | backend/app/services/document_service.py:12-13 | a page number below one reads from offset zero, like page one |
| DocumentService.StoredText | backend/app/services/document_service.py:38-41 | a missing file gives `""`, an existing one its text as read in text mode |
| DocumentService.GetDocument | backend/app/services/document_service.py:32-53 | `None` exactly when no row has the id; otherwise that row's fields with the file's text and its size in bytes, exactly the UTF-8 length of what is stored, or `""` and 0 for a missing file |
| DocumentService.ChunkAt | backend/app/services/document_service.py:66-77 | there is no chunk exactly when it would start at or past the end; otherwise the text from the start up to the size, flagged last exactly when it reaches the end |
| DocumentService.ChunkOf | backend/app/services/document_service.py:66-77 | chunk `i` starts at `i * chunk_size` and is missing exactly when that is at or past the end |
| DocumentService.GetDocumentChunk | backend/app/services/document_service.py:55-78 | an unknown id gives `None`; for a known id, `None` exactly when the chunk lies past the end of the text; a chunk echoes the id, index and size, and holds that chunk of the document's text |
| DocumentService.ChunkExtends | backend/app/services/document_service.py:66-76 | a chunk continues the text exactly where the one before it stopped |
| DocumentService.ChunksPrefix | backend/app/services/document_service.py:66-76 | with a positive chunk size, chunks `0..k-1` laid end to end are the first `k * chunk_size` characters |
| DocumentService.EarlierChunks | backend/app/services/document_service.py:66-77 | every chunk before one that starts inside the text exists and is not flagged last |
| DocumentService.LastChunk | backend/app/services/document_service.py:66-77 | for a non-empty text, chunk `(len - 1) // chunk_size` is the only one flagged last, the next is `None`, and the chunks up to it rebuild the text |
| DocumentService.LastFlags | backend/app/services/document_service.py:67-77 | the chunk holding the last character is flagged last and the next chunk is `None` |
| DocumentService.Param | backend/app/services/document_service.py:104-105 | a missing or empty `params` gives the default; any other value comes from `params` |
| DocumentService.BatchProcessDocuments | backend/app/services/document_service.py:80-117 | a row count different from the ids requested gives the not-found error; otherwise `preprocess` reports the count, `identify_themes` passes the readable documents and the two parameters on, and any other operation is unsupported |
| DocumentService.ValueSetCard | backend/app/services/document_service.py:82-83 | a list of ids has as many distinct values as entries exactly when it has no repeats |
| DocumentService.BatchFindsAll | backend/app/services/document_service.py:82-84 | the count check passes exactly when the ids have no repeats and every id names a row |
| DocumentService.FoundWanted | backend/app/services/document_service.py:82 | every row found has a requested id |
| DocumentService.WantedFound | backend/app/services/document_service.py:82 | when every id names a row, every id is found |
| DocumentService.MissingNotFound | backend/app/services/document_service.py:82-84 | an id that names no row is requested but not found |
| Store.Having | backend/app/services/document_service.py:82 | the rows selected are rows of the table with a requested id, and every such row is selected |
| Store.HavingOrdered | backend/app/models/document.py:10 | selecting rows keeps them in primary-key order |
| Store.HavingNone | backend/app/services/vectorstore/query_processor.py:48-51 | when no row has a requested id, nothing is selected |
| Store.WithIds | backend/app/services/vectorstore/query_processor.py:48 | `Document.id.in_(ids)` returns each matching row once, in key order, however often its id is repeated |
| Store.FindById | backend/app/services/document_service.py:34 | `None` exactly when no row has the id; otherwise the row with that key |
| Store.ReadText | backend/app/services/document_service.py:39-41 | a missing file cannot be read; an existing one reads as its text with line endings translated |
| Store.FileSize | backend/app/services/document_service.py:50 | the byte size of a file is at least its character count |
| Store.Readable | backend/app/services/vectorstore/query_processor.py:84-98 | only documents of the list whose file can be read, each with the text read from it |
| Store.ReadableComplete | backend/app/services/vectorstore/query_processor.py:84-98 | no document whose file can be read is skipped |
| Store.ReadableSnoc | backend/app/services/vectorstore/query_processor.py:84-98 | one more document adds itself with its text when its file can be read, and nothing otherwise |
| Store.ReadableAppend | backend/app/services/vectorstore/query_processor.py:84-98 | reading two lists one after the other gives the reads of the first followed by those of the second |
| Store.ReadContents | backend/app/services/vectorstore/query_processor.py:84-98 | the loop keeps each readable document with its text and skips the others, in order |
| Ranking.Insert | backend/app/services/vectorstore/query_processor.py:185 | inserting one element adds exactly that element: one more entry, same multiset plus it |
| Ranking.InsertSorted | backend/app/services/vectorstore/query_processor.py:185 | inserting into a list sorted by descending key keeps it sorted, and the new head is the element or the old head |
| Ranking.SortDescSorted | backend/app/services/vectorstore/query_processor.py:185 | `sort(key=..., reverse=True)` leaves the list in descending key order |
| Ranking.SortDescPermutes | backend/app/services/vectorstore/query_processor.py:185 | sorting neither adds, drops nor duplicates an element |
| Ranking.SortDescStable | backend/app/services/vectorstore/query_processor.py:185 | Python's sort is stable: elements with equal keys keep their input order |
| Ranking.Top | backend/app/services/vectorstore/query_processor.py:185-188 | `[:n]` of the sorted list has `n` entries, or all of them when there are fewer |
| Ranking.TopIsTop | backend/app/services/vectorstore/query_processor.py:185-188 | the kept entries are sorted, drawn from the input, and no entry left out has a larger key than any kept one |
| Ranking.KeptDominate | backend/app/services/vectorstore/query_processor.py:188 | in a sorted list every entry past the cut has a key no larger than any before it |
| Ranking.WithKeyAppend | backend/app/services/vectorstore/query_processor.py:185 | the entries with one key in a concatenation are those of each part, in order |
| Ranking.TopStable | backend/app/services/vectorstore/query_processor.py:275-278 | among entries with equal keys, the ones kept are the first ones of the input |
| PyStr.LowerChar | backend/app/services/vectorstore/query_processor.py:244 | `lower` maps an upper-case ASCII letter to a lower-case one and leaves every other character alone |
| PyStr.Lower | backend/app/services/vectorstore/query_processor.py:244 | `lower` keeps the length and lowers each character in place |
| PyStr.LowerKeepsSpaces | backend/app/services/theme_identification.py:273-274 | lowering neither creates nor removes whitespace, so it does not change where `split()` cuts |
| PyStr.SkipSpaces | backend/app/services/text_analysis.py:26 | the first non-whitespace position at or after `k`, with only whitespace skipped |
| PyStr.SkipSpacesBack | backend/app/services/text_analysis.py:26 | the position just after the last non-whitespace character before `k`, with only whitespace skipped |
| PyStr.Strip | backend/app/services/text_analysis.py:26 | `strip()` is empty exactly when the text is all whitespace; otherwise it is the slice left after removing leading and trailing whitespace, starting and ending with non-whitespace |
| PyStr.StripTrimmed | backend/app/services/text_analysis.py:14 | stripping a text that neither starts nor ends with whitespace changes nothing |
| PyStr.StripIdempotent | backend/app/services/text_analysis.py:14 | `s.strip().strip() == s.strip()` |
| PyStr.StripKeepsPrefix | backend/app/services/text_analysis.py:14 | stripping keeps a prefix that starts and ends with non-whitespace |
| PyStr.StripEnclosed | backend/app/api/theme_identification.py:55 | stripping removes exactly the whitespace around a trimmed middle |
| PyStr.StripConcat | backend/app/api/theme_identification.py:55 | stripping a text that starts with non-whitespace only touches its end |
| PyStr.Find | backend/app/services/text_analysis.py:30 | `find(pat, start)` gives the first position at or after `start` where `pat` occurs, or -1 (`None`) when there is none |
| PyStr.ContainsIff | backend/app/services/vectorstore/query_processor.py:258 | `term in text` holds exactly when the term occurs at some position |
| PyStr.NoMatchInSlice | backend/app/services/vectorstore/query_processor.py:258 | a slice without an occurrence inside it does not contain the pattern |
| PyStr.SplitFrom | backend/app/services/text_analysis.py:23 | splitting always gives at least one piece |
| PyStr.Split | backend/app/services/text_analysis.py:23 | `split(sep)` gives at least one piece, even for an empty text |
| PyStr.JoinSplitFrom | backend/app/services/text_analysis.py:23 | joining the pieces from position `k` with the separator gives back the text from `k` |
| PyStr.JoinSplit | backend/app/services/text_analysis.py:23 | `sep.join(s.split(sep)) == s` |
| PyStr.SplitFromPiecesLackSeparator | backend/app/services/text_analysis.py:23 | no piece split from position `k` contains the separator |
| PyStr.SplitPiecesLackSeparator | backend/app/services/theme_identification.py:189 | no piece of `split(sep)` contains the separator |
| PyStr.JoinPieceAt | backend/app/services/text_analysis.py:23-30 | piece `k` sits in the joined text at the sum of the earlier pieces and separators, followed by a separator when more pieces follow |
| PyStr.JoinLength | backend/app/services/text_analysis.py:23 | the joined text is the pieces plus one separator between each pair |
| PyStr.JoinPiece | backend/app/services/text_analysis.py:23-30 | each piece of a join occurs at its own position in the joined text |
| PyStr.WordEnd | backend/app/services/theme_identification.py:273 | the end of the run of non-whitespace starting at `k` |
| PyStr.WordsFrom | backend/app/services/theme_identification.py:273 | every word `split()` gives from position `k` is non-empty and holds no whitespace |
| PyStr.Words | backend/app/services/theme_identification.py:273 | every word `split()` gives is non-empty and holds no whitespace |
| PyStr.CollapseWord | backend/app/api/theme_identification.py:55 | `re.sub(r'\s+', ' ', ...)` copies a run of non-whitespace unchanged |
| PyStr.CollapseOfSpaces | backend/app/api/theme_identification.py:55 | collapsing a trailing run of whitespace leaves only whitespace |
| PyStr.StripCollapseFrom | backend/app/api/theme_identification.py:55 | collapsing whitespace runs and stripping gives the words joined by single spaces |
| PyStr.CleanExcerpt | backend/app/api/theme_identification.py:55 | `re.sub(r'\s+', ' ', text).strip()` is `' '.join(text.split())` |
| PyStr.PyIndex | backend/app/services/text_analysis.py:14 | a slice bound is clamped into the text, and an in-range bound is kept |
| PyStr.PySlice | backend/app/services/document_service.py:69-72 | a Python slice is never longer than the text and is the ordinary slice when its bounds are in range |
| PyStr.Prefix | backend/app/services/text_analysis.py:14 | `s[:n]` is the first `n` characters, or the whole text when it is shorter |
| PyStr.DigitChar | backend/app/services/vectorstore/query_engine.py:72-76 | a digit below ten is written as one decimal digit character |
| PyStr.NatToString | backend/app/services/vectorstore/query_engine.py:72-76 | `str(n)` is a non-empty run of decimal digits, one digit exactly when `n < 10` |
| PyStr.IntToString | backend/app/services/theme_identification.py:40 | `str(i)` is non-empty and is the decimal digits for a non-negative `i` |
| PyStr.ParseNatToString | backend/app/services/vectorstore/query_engine.py:15-17 | reading back the digits `str(n)` wrote gives `n` |
| PyStr.NatToStringInjective | backend/app/services/vectorstore/query_engine.py:72-76 | different numbers are written differently |
| PyStr.DigitRun | backend/app/services/vectorstore/query_engine.py:15 | the longest run of digits at the start of the text, as `\d+` matches |
| PyStr.HexDigitValue | backend/app/services/vectorstore/document_indexing.py:27 | the value of a hexadecimal digit is below 16 |
| PyStr.ReplaceCrlf | backend/app/services/text_analysis.py:22 | translating `\r\n` to `\n` never lengthens the text |
| PyStr.UniversalNewlines | backend/app/services/document_service.py:40-41 | reading in text mode leaves no `\r` and never lengthens the text |
| PyStr.Utf8Width | backend/app/services/document_service.py:50 | a character takes one to four bytes in UTF-8 |
| PyStr.Utf8Size | backend/app/services/document_service.py:50 | a text takes at least one and at most four bytes per character |
| Json.Lookup | backend/app/services/vectorstore/query_processor.py:221-223 | a key is missing exactly when no member has it; otherwise the value is the one stored under its last occurrence, as a later duplicate overwrites an earlier one |
| Json.KeysFrom | backend/app/services/theme_identification.py:132 | the keys met while iterating a dict are distinct and none was seen before |
| Json.Keys | backend/app/services/theme_identification.py:132 | iterating a dict yields no key twice |
| Json.KeysComplete | backend/app/services/theme_identification.py:132 | iterating a dict meets exactly the keys written in it |
| Json.Iterate | backend/app/services/theme_identification.py:122 | iterating fails exactly for a value that is not a list, dict or string; a list yields its items, a string its characters in order as one-character strings, a dict its keys in first-written order |
| Json.Len | backend/app/api/theme_identification.py:109 | `len` succeeds exactly on a list, dict or string |
| Ranking.SortDesc | backend/app/services/vectorstore/query_processor.py:185 | sorting keeps the number of entries |

## Left out

- QueryProcessor.RankKey: relevance is a `real`. The keyword search adds 0.1 per term hit in floating point, capped at 1.0. The model ranks by the hit count capped at 11, which orders matches exactly as those floating-point sums do; the sums themselves are not computed.
- The OpenAI and Gemini HTTP calls, `model.generate_content` and the embedding model are function parameters. Each maps its input to a reply or to the error it raised. The wording of the prompts is not modelled; only the data placed into them is.
- `json.loads` is a parameter that returns a JSON value or nothing. The JSON grammar is not modelled.
- Json.JFloat: holds a `real`, so the `NaN`, `Infinity` and `-Infinity` that `json.loads` accepts in a reply cannot be represented.
- DocumentIndexing.MetaValue: holds strings and integers only. Chroma metadata may also hold floats and booleans, but the indexing code writes only strings and integers.
- ThemeService.Str: the text of `repr` for floats, lists and dictionaries inside f-strings is a parameter.
- Json.PyEq: compares numbers by value and every other value structurally. Python's dictionary equality ignores key order, and that is not modelled.
- PyStr.Lower, PyStr.LowerChar: lower ASCII letters only. Python's full Unicode case mapping is not modelled.
- PyStr.DigitRun: accepts the ASCII digits `0`-`9` only. Python's `\d` and `int()` also accept other Unicode decimal digits, so a marker written with them is not read back.
- PyStr.IsSpace: the fixed set of characters `str.isspace` accepts. `re`'s `\s` is taken to be the same set.
- MD5 and `nltk.sent_tokenize` are function parameters. Only what the code relies on is assumed: MD5 gives 32 lower-case hex digits, and the tokenizer gives strings or raises.
- `identify_themes_across_documents` and `identify_themes_in_text` in `backend/app/services/theme_identification.py` are not modelled. They are built from thread-pool and asyncio concurrency and from parsing free-form model text.
- `batch_process_documents` calls the async `identify_themes_across_documents` without `await`, so its result is a coroutine. `DocumentService.ThemesPending` stands for that value and records the documents and parameters passed to the call.
- DocumentService.GetDocument: does not model `last_modified`, which comes from the file system's clock.
- Decoding errors while reading a file are not modelled. A path exists exactly when the files map holds it, so a directory at that path is not distinguished.
- ThemeApi.Hit: has its `filename` and `matched_text` as strings. A result missing either key raises `KeyError` in the source; that failure is not modelled.
- Constructing `ThemeIdentifier`, which configures the Gemini client, and the module-level `identify_themes` wrapper that delegates to it are not modelled.
- `create_theme_identification_prompt` is not modelled beyond the documents and theme count it receives: its text is prompt wording.
- `extract_text_from_image` and `save_text_to_file` in `backend/app/services/ocr.py` are not modelled: they are image recognition and file output. The PDF reader is not modelled; a PDF arrives as the text of its pages.
- In `build_vector_store`, directory listing, `TextLoader`, the text splitter and Chroma are not modelled. Their outputs arrive as `LcDocument` objects, and only the metadata passes are modelled.
- Similarity search and the Chroma store in `query_documents` are not modelled. The caller supplies whether the store exists and what the search returned or raised.
- Logging, the FastAPI routers, configuration, startup and `TimeoutMiddleware` are not part of this model.
- The SQLAlchemy session is the `documents` table as a sequence of rows in primary-key order. `uploaded_at` is kept as the stored text.

## Findings

| source | as written | input that shows it | evidently intended | confidence | as-written member | corrected member |
|---|---|---|---|---|---|---|
| backend/app/services/vectorstore/query_engine.py:69 | `extract_paragraph_info(result.page_content, filename)` passes two arguments to a function that takes one (line 23). The resulting `TypeError` is caught at line 89, and the whole answer becomes one `System Error` record | any search hit whose metadata has no `paragraph_id` | the paragraph number of the hit's text, `extract_paragraph_info(result.page_content)`, with one result per hit | high; not executed | QueryEngine.AsWrittenLosesResults | QueryEngine.QueryResultShape |
| backend/app/services/theme_identification.py:279 | `intersection / union if union > 0 else 0 >= threshold` parses as `(intersection / union) if union > 0 else (0 >= threshold)`, so any shared word counts as similar whatever the threshold | names `"a b"` and `"a c"` at threshold 0.8: the ratio is 1/3, yet the names are merged | Jaccard similarity `intersection / union >= threshold`, and 0 for two empty names | high; not executed | ThemeService.AsWrittenMergesDissimilar | ThemeService.SimilarWords |
