/** The theme service: it turns search matches into the input of a Gemini call, keeps
    only the themes the reply ties to known documents, picks the key sections of a
    text, and merges themes whose names are alike. The Gemini call is a function
    from its input to a decoded reply or the error it raised. */
module ThemeService {
  import opened Wrappers
  import opened PyStr
  import opened Json
  import Ranking

  // ---------------------------------------------------------------------------
  // identify_themes: input preparation
  // ---------------------------------------------------------------------------

  /** `str(v)` inside an f-string. Floats, lists and dictionaries are rendered by
      `repr`, whose exact text is not modelled. */
  function Str(repr: Json -> string, v: Json): string
  {
    match v
    case JNull => "None"
    case JBool(b) => if b then "True" else "False"
    case JInt(i) => IntToString(i)
    case JStr(s) => s
    case _ => repr(v)
  }

  /** The name a match is cited by: its `filename`, else `Doc <id>`, with `unknown`
      for a match without an id. */
  function DocName(repr: Json -> string, m: seq<(string, Json)>): Json
  {
    Get(m, "filename", JStr("Doc " + Str(repr, Get(m, "id", JStr("unknown")))))
  }

  /** One entry of the model's input: the document's name and the matched text. */
  datatype Excerpt = Excerpt(id: Json, content: Json)

  function ExcerptOf(repr: Json -> string, m: seq<(string, Json)>): Excerpt
  {
    Excerpt(DocName(repr, m), Get(m, "matched_text", JStr("")))
  }

  /** Every match is a dictionary. */
  predicate AllObjects(matches: seq<Json>)
  {
    forall i :: 0 <= i < |matches| ==> matches[i].JObj?
  }

  /** The input entries, one per match in order; the first match that is not a
      dictionary raises `AttributeError`, which is not caught. */
  function Prepared(repr: Json -> string, matches: seq<Json>): (r: Result<seq<Excerpt>, string>)
    ensures r.Success? <==> AllObjects(matches)
    ensures r.Success? ==> |r.value| == |matches|
    ensures r.Success? ==> forall i :: 0 <= i < |matches| ==> r.value[i] == ExcerptOf(repr, matches[i].members)
  {
    if matches == [] then Success([])
    else
      var last := matches[|matches| - 1];
      var before := Prepared(repr, matches[..|matches| - 1]);
      AllObjectsSnoc(matches);
      if before.Failure? then before
      else if !last.JObj? then Failure(NoAttributeGet(last))
      else
        ExcerptsSnoc(repr, matches, before.value);
        Success(before.value + [ExcerptOf(repr, last.members)])
  }

  lemma AllObjectsSnoc(matches: seq<Json>)
    requires matches != []
    ensures AllObjects(matches) <==>
      AllObjects(matches[..|matches| - 1]) && matches[|matches| - 1].JObj?
  {
    assert forall i :: 0 <= i < |matches| - 1 ==> matches[..|matches| - 1][i] == matches[i];
  }

  lemma ExcerptsSnoc(repr: Json -> string, matches: seq<Json>, before: seq<Excerpt>)
    requires matches != [] && matches[|matches| - 1].JObj?
    requires |before| == |matches| - 1
    requires forall i :: 0 <= i < |before| ==>
      matches[..|matches| - 1][i].JObj? && before[i] == ExcerptOf(repr, matches[..|matches| - 1][i].members)
    ensures forall i :: 0 <= i < |matches| ==>
      matches[i].JObj? && (before + [ExcerptOf(repr, matches[|matches| - 1].members)])[i] == ExcerptOf(repr, matches[i].members)
  {
    forall i | 0 <= i < |matches|
      ensures matches[i].JObj? && (before + [ExcerptOf(repr, matches[|matches| - 1].members)])[i] == ExcerptOf(repr, matches[i].members)
    {
      var x := ExcerptOf(repr, matches[|matches| - 1].members);
      if i < |before| {
        assert matches[..|matches| - 1][i] == matches[i];
        assert (before + [x])[i] == before[i];
      } else {
        assert (before + [x])[i] == x;
      }
    }
  }

  function ExcerptIds(xs: seq<Excerpt>): (ids: seq<Json>)
    ensures |ids| == |xs| && forall i :: 0 <= i < |xs| ==> ids[i] == xs[i].id
  {
    seq(|xs|, i requires 0 <= i < |xs| => xs[i].id)
  }

  /** The loop that fills `documents_text` and `document_ids` side by side. */
  method PrepareInputs(repr: Json -> string, matches: seq<Json>)
    returns (r: Result<seq<Excerpt>, string>, documentIds: seq<Json>)
    ensures r == Prepared(repr, matches)
    ensures r.Success? ==> documentIds == ExcerptIds(r.value)
  {
    var texts: seq<Excerpt> := [];
    documentIds := [];
    for i := 0 to |matches|
      invariant Prepared(repr, matches[..i]) == Success(texts)
      invariant documentIds == ExcerptIds(texts)
    {
      var m := matches[i];
      PreparedStep(repr, matches, i);
      if !m.JObj? {
        r := Failure(NoAttributeGet(m));
        PreparedExtends(repr, matches, i + 1);
        return;
      }
      var name := DocName(repr, m.members);
      ExcerptIdsSnoc(texts, Excerpt(name, Get(m.members, "matched_text", JStr(""))));
      documentIds := documentIds + [name];
      texts := texts + [Excerpt(name, Get(m.members, "matched_text", JStr("")))];
    }
    assert matches[..|matches|] == matches;
    r := Success(texts);
  }

  /** One more match: the prefix's entries and the new one, or the prefix's failure,
      or the new match's. */
  lemma PreparedStep(repr: Json -> string, matches: seq<Json>, i: nat)
    requires i < |matches|
    ensures Prepared(repr, matches[..i + 1]) ==
      if Prepared(repr, matches[..i]).Failure? then Prepared(repr, matches[..i])
      else if !matches[i].JObj? then Failure(NoAttributeGet(matches[i]))
      else Success(Prepared(repr, matches[..i]).value + [ExcerptOf(repr, matches[i].members)])
  {
    assert matches[..i + 1][..i] == matches[..i];
  }

  lemma ExcerptIdsSnoc(xs: seq<Excerpt>, x: Excerpt)
    ensures ExcerptIds(xs + [x]) == ExcerptIds(xs) + [x.id]
  {
  }

  /** Once a prefix of the matches fails, so do the matches. */
  lemma {:induction false} PreparedExtends(repr: Json -> string, matches: seq<Json>, n: nat)
    requires n <= |matches| && Prepared(repr, matches[..n]).Failure?
    ensures Prepared(repr, matches) == Prepared(repr, matches[..n])
    decreases |matches| - n
  {
    if n < |matches| {
      PreparedStep(repr, matches, n);
      PreparedExtends(repr, matches, n + 1);
    } else {
      assert matches[..n] == matches;
    }
  }

  // ---------------------------------------------------------------------------
  // format_themes
  // ---------------------------------------------------------------------------

  /** A theme as the API returns it. */
  datatype FormattedTheme = FormattedTheme(id: nat, themeName: Json, summary: Json,
                                           supportingDocuments: seq<Json>, evidence: Json)

  /** The listed documents that are among `ids`, in their listed order. */
  function ValidDocs(docs: seq<Json>, ids: seq<Json>): (r: seq<Json>)
    ensures |r| <= |docs|
    ensures forall k :: 0 <= k < |r| ==> r[k] in docs && PyIn(r[k], ids)
    ensures forall d :: d in docs && PyIn(d, ids) ==> d in r
  {
    if docs == [] then []
    else
      var last := docs[|docs| - 1];
      var before := ValidDocs(docs[..|docs| - 1], ids);
      assert docs == docs[..|docs| - 1] + [last];
      if PyIn(last, ids) then before + [last] else before
  }

  /** One listed document is kept exactly when it is known. */
  lemma {:induction false} ValidDocsOne(x: Json, ids: seq<Json>)
    ensures ValidDocs([x], ids) == if PyIn(x, ids) then [x] else []
  {
    assert [x][..0] == [];
  }

  /** The filter works document by document: the known documents of a concatenation
      are those of each part, in order and with repeats. With `ValidDocsOne` this fixes
      the result for every list. */
  lemma {:induction false} ValidDocsAppend(a: seq<Json>, b: seq<Json>, ids: seq<Json>)
    ensures ValidDocs(a + b, ids) == ValidDocs(a, ids) + ValidDocs(b, ids)
    decreases |b|
  {
    if b == [] {
      assert a + b == a;
    } else {
      var init := b[..|b| - 1];
      var last := b[|b| - 1];
      ValidDocsAppend(a, init, ids);
      assert (a + b)[..|a + b| - 1] == a + init;
      assert (a + b)[|a + b| - 1] == last;
    }
  }

  /** Theme `i` of the reply: it must be a dictionary and its supporting documents
      iterable; it is dropped when none of them is a known document, and otherwise
      gets id `i + 1`, the defaults for missing fields, and only the known
      documents. */
  function FormatTheme(i: nat, theme: Json, ids: seq<Json>): (r: Result<Option<FormattedTheme>, string>)
    ensures r.Failure? <==> !theme.JObj? || Iterate(Get(theme.members, "supporting_documents", JArr([]))).Failure?
    ensures r.Success? ==> var listed := Iterate(Get(theme.members, "supporting_documents", JArr([]))).value;
      (r.value.None? <==> forall d :: d in listed ==> !PyIn(d, ids))
    ensures r.Success? && r.value.Some? ==> var f := r.value.value;
      f.id == i + 1 && f.supportingDocuments != [] &&
      (forall k :: 0 <= k < |f.supportingDocuments| ==> PyIn(f.supportingDocuments[k], ids)) &&
      f.themeName == Get(theme.members, "theme_name", JStr("Theme " + IntToString(i + 1))) &&
      f.summary == Get(theme.members, "summary", JStr("No summary provided")) &&
      f.evidence == Get(theme.members, "evidence", JStr("No evidence provided")) &&
      f.supportingDocuments == ValidDocs(Iterate(Get(theme.members, "supporting_documents", JArr([]))).value, ids)
  {
    if !theme.JObj? then Failure(NoAttributeGet(theme))
    else
      var m := theme.members;
      match Iterate(Get(m, "supporting_documents", JArr([])))
      case Failure(e) => Failure(e)
      case Success(listed) =>
        var valid := ValidDocs(listed, ids);
        if valid == [] then Success(None)
        else
          assert valid[0] in listed && PyIn(valid[0], ids);
          Success(Some(FormattedTheme(i + 1, Get(m, "theme_name", JStr("Theme " + IntToString(i + 1))),
                                      Get(m, "summary", JStr("No summary provided")), valid,
                                      Get(m, "evidence", JStr("No evidence provided")))))
  }

  /** How one theme of the reply is formatted, given its position. */
  type Format = (nat, Json) -> Result<Option<FormattedTheme>, string>

  function Formatter(ids: seq<Json>): (f: Format)
    ensures forall i: nat, theme: Json :: f(i, theme) == FormatTheme(i, theme, ids)
  {
    (i: nat, theme: Json) => FormatTheme(i, theme, ids)
  }

  /** A formatter that numbers a kept theme by its position plus one and keeps it
      only with known documents, at least one. */
  ghost predicate Sound(format: Format, ids: seq<Json>)
  {
    forall i: nat, theme: Json :: format(i, theme).Success? && format(i, theme).value.Some? ==>
      var f := format(i, theme).value.value;
      f.id == i + 1 && f.supportingDocuments != [] && forall d :: d in f.supportingDocuments ==> PyIn(d, ids)
  }

  lemma FormatterSound(ids: seq<Json>)
    ensures Sound(Formatter(ids), ids)
  {
    forall i: nat, theme: Json | Formatter(ids)(i, theme).Success? && Formatter(ids)(i, theme).value.Some?
      ensures var f := Formatter(ids)(i, theme).value.value;
        f.id == i + 1 && f.supportingDocuments != [] && forall d :: d in f.supportingDocuments ==> PyIn(d, ids)
    {
      var f := FormatTheme(i, theme, ids).value.value;
      assert forall d :: d in f.supportingDocuments ==> PyIn(d, ids);
    }
  }

  /** The formatted themes among the first `n` of the reply, in order. */
  function FormattedUpTo(format: Format, items: seq<Json>, n: nat): Result<seq<FormattedTheme>, string>
    requires n <= |items|
  {
    if n == 0 then Success([])
    else
      match FormattedUpTo(format, items, n - 1)
      case Failure(e) => Failure(e)
      case Success(done) =>
        match format(n - 1, items[n - 1])
        case Failure(e) => Failure(e)
        case Success(None) => Success(done)
        case Success(Some(f)) => Success(done + [f])
  }

  /** `format_themes(themes, document_ids)`: the reply must be iterable. */
  function Formatted(themes: Json, ids: seq<Json>): Result<seq<FormattedTheme>, string>
  {
    match Iterate(themes)
    case Failure(e) => Failure(e)
    case Success(items) => FormattedUpTo(Formatter(ids), items, |items|)
  }

  method FormatThemes(themes: Json, ids: seq<Json>) returns (r: Result<seq<FormattedTheme>, string>)
    ensures r == Formatted(themes, ids)
  {
    var iterated := Iterate(themes);
    if iterated.Failure? {
      return Failure(iterated.error);
    }
    var items := iterated.value;
    var format := Formatter(ids);
    var formatted: seq<FormattedTheme> := [];
    for i := 0 to |items|
      invariant FormattedUpTo(format, items, i) == Success(formatted)
    {
      var one := format(i, items[i]);
      if one.Failure? {
        FormattedFails(format, items, i + 1);
        return Failure(one.error);
      }
      if one.value.Some? {
        formatted := formatted + [one.value.value];
      }
    }
    r := Success(formatted);
  }

  /** A failure in the first `n` themes is the result for the whole reply. */
  lemma {:induction false} FormattedFails(format: Format, items: seq<Json>, n: nat)
    requires n <= |items| && FormattedUpTo(format, items, n).Failure?
    ensures FormattedUpTo(format, items, |items|) == FormattedUpTo(format, items, n)
    decreases |items| - n
  {
    if n < |items| {
      FormattedFails(format, items, n + 1);
    }
  }

  /** Formatting fails exactly when one of the themes cannot be formatted. */
  lemma {:induction false} FormattedFailsIff(format: Format, items: seq<Json>, n: nat)
    requires n <= |items|
    ensures FormattedUpTo(format, items, n).Failure? <==> exists i :: 0 <= i < n && format(i, items[i]).Failure?
  {
    if n > 0 {
      FormattedFailsIff(format, items, n - 1);
    }
  }

  /** The kept themes have increasing ids among `1..n` and list only known
      documents, at least one each. */
  lemma {:induction false} FormattedOrdered(format: Format, ids: seq<Json>, items: seq<Json>, n: nat)
    requires Sound(format, ids)
    requires n <= |items| && FormattedUpTo(format, items, n).Success?
    ensures var out := FormattedUpTo(format, items, n).value;
      forall k, l :: 0 <= k < l < |out| ==> out[k].id < out[l].id
    ensures var out := FormattedUpTo(format, items, n).value;
      forall k :: 0 <= k < |out| ==> 1 <= out[k].id <= n && out[k].supportingDocuments != []
    ensures var out := FormattedUpTo(format, items, n).value;
      forall k, d :: 0 <= k < |out| && d in out[k].supportingDocuments ==> PyIn(d, ids)
  {
    if n > 0 {
      FormattedOrdered(format, ids, items, n - 1);
      var prev := FormattedUpTo(format, items, n - 1).value;
      var one := format(n - 1, items[n - 1]);
      if one.value.Some? {
        var out := prev + [one.value.value];
        assert forall k :: 0 <= k < |prev| ==> out[k] == prev[k];
      }
    }
  }

  /** Theme `i` is kept, under id `i + 1`, exactly when the formatter keeps it. */
  lemma {:induction false} FormattedKeptIff(format: Format, ids: seq<Json>, items: seq<Json>, n: nat, i: nat)
    requires Sound(format, ids)
    requires i < n <= |items| && FormattedUpTo(format, items, n).Success?
    ensures format(i, items[i]).Success?
    ensures var out := FormattedUpTo(format, items, n).value;
      (exists k :: 0 <= k < |out| && out[k].id == i + 1) <==> format(i, items[i]).value.Some?
  {
    FormattedOrdered(format, ids, items, n - 1);
    var prev := FormattedUpTo(format, items, n - 1).value;
    var one := format(n - 1, items[n - 1]);
    var out := FormattedUpTo(format, items, n).value;
    assert forall k :: 0 <= k < |prev| ==> out[k] == prev[k];
    if i < n - 1 {
      FormattedKeptIff(format, ids, items, n - 1, i);
      if one.value.Some? {
        assert out[|prev|].id == n;
      }
    } else {
      if one.value.Some? {
        assert out[|prev|].id == i + 1;
      }
    }
  }

  // ---------------------------------------------------------------------------
  // identify_themes
  // ---------------------------------------------------------------------------

  /** The Gemini call on the prepared entries and the requested theme count: the
      decoded reply, or the message of the exception it raised. */
  type ThemeModel = (seq<Excerpt>, int) -> Result<Json, string>

  /** `identify_themes` past its two early returns: a match that is not a
      dictionary raises; an exception of the call or of formatting gives no
      themes. */
  function Identified(repr: Json -> string, matches: seq<Json>, themeCount: int, gemini: ThemeModel)
    : Result<seq<FormattedTheme>, string>
  {
    match Prepared(repr, matches)
    case Failure(e) => Failure(e)
    case Success(texts) =>
      match gemini(texts, themeCount)
      case Failure(_) => Success([])
      case Success(reply) =>
        match Formatted(reply, ExcerptIds(texts))
        case Failure(_) => Success([])
        case Success(themes) => Success(themes)
  }

  /** No matches, or no API key, give no themes without calling the model. */
  method IdentifyThemes(matches: seq<Json>, themeCount: int, hasApiKey: bool, repr: Json -> string,
                        gemini: ThemeModel) returns (r: Result<seq<FormattedTheme>, string>)
    ensures matches == [] || !hasApiKey ==> r == Success([])
    ensures matches != [] && hasApiKey ==> r == Identified(repr, matches, themeCount, gemini)
  {
    if matches == [] || !hasApiKey {
      return Success([]);
    }
    var prepared, documentIds := PrepareInputs(repr, matches);
    if prepared.Failure? {
      return Failure(prepared.error);
    }
    var reply := gemini(prepared.value, themeCount);
    if reply.Failure? {
      return Success([]);
    }
    var formatted := FormatThemes(reply.value, documentIds);
    r := if formatted.Success? then formatted else Success([]);
  }

  /** The themes fail only on a match that is not a dictionary. Every theme
      returned cites only documents named by some match, and the themes keep the
      reply's order. */
  lemma IdentifiedCitesMatches(repr: Json -> string, matches: seq<Json>, themeCount: int, gemini: ThemeModel)
    ensures Identified(repr, matches, themeCount, gemini).Failure? <==>
      exists i :: 0 <= i < |matches| && !matches[i].JObj?
    ensures Identified(repr, matches, themeCount, gemini).Success? ==>
      var out := Identified(repr, matches, themeCount, gemini).value;
      (forall k, l :: 0 <= k < l < |out| ==> out[k].id < out[l].id) &&
      forall k, d :: 0 <= k < |out| && d in out[k].supportingDocuments ==>
        exists i :: 0 <= i < |matches| && matches[i].JObj? && PyEq(d, DocName(repr, matches[i].members))
  {
    var prepared := Prepared(repr, matches);
    if prepared.Success? {
      var texts := prepared.value;
      var ids := ExcerptIds(texts);
      var reply := gemini(texts, themeCount);
      if reply.Success? && Formatted(reply.value, ids).Success? {
        var items := Iterate(reply.value).value;
        FormatterSound(ids);
        FormattedOrdered(Formatter(ids), ids, items, |items|);
        var out := Formatted(reply.value, ids).value;
        assert out == FormattedUpTo(Formatter(ids), items, |items|).value;
        forall k, d | 0 <= k < |out| && d in out[k].supportingDocuments
          ensures exists i :: 0 <= i < |matches| && matches[i].JObj? && PyEq(d, DocName(repr, matches[i].members))
        {
          assert PyIn(d, ids);
          var j :| 0 <= j < |ids| && PyEq(d, ids[j]);
          assert ids[j] == DocName(repr, matches[j].members);
        }
      }
    }
  }

  // ---------------------------------------------------------------------------
  // extract_key_sections
  // ---------------------------------------------------------------------------

  /** The sort key of a paragraph: its length. */
  function LenKey(p: string): real
  {
    |p| as real
  }

  /** The first paragraph, then the longest of the others, at most
      `maxSections - 1` of them under Python's slice rules. */
  function KeySections(content: string, maxSections: int): (r: seq<string>)
    ensures r != [] && r[0] == Split(content, "\n\n")[0]
    ensures |r| <= |Split(content, "\n\n")|
    ensures maxSections >= 1 ==> var others := |Split(content, "\n\n")| - 1;
      |r| == 1 + (if maxSections - 1 <= others then maxSections - 1 else others)
  {
    var paragraphs := Split(content, "\n\n");
    [paragraphs[0]] + PySlice(Ranking.SortDesc(LenKey, paragraphs[1..]), 0, maxSections - 1)
  }

  /** A slice from the start is a prefix. */
  lemma SliceFromStart<T>(s: seq<T>, j: int)
    ensures PySlice(s, 0, j) == s[..|PySlice(s, 0, j)|]
  {
  }

  /** After the first paragraph come paragraphs of the rest, longest first, and no
      paragraph left out is longer than one kept. */
  lemma KeySectionsLongest(content: string, maxSections: int)
    ensures var rest := Split(content, "\n\n")[1..];
      var kept := KeySections(content, maxSections)[1..];
      Ranking.SortedDesc(LenKey, kept) && multiset(kept) <= multiset(rest) &&
      forall p, i :: p in rest && p !in kept && 0 <= i < |kept| ==> |p| <= |kept[i]|
  {
    var paragraphs := Split(content, "\n\n");
    var rest := paragraphs[1..];
    var sorted := Ranking.SortDesc(LenKey, rest);
    var kept := PySlice(sorted, 0, maxSections - 1);
    SliceFromStart(sorted, maxSections - 1);
    assert kept == Ranking.Top(LenKey, rest, |kept|);
    Ranking.TopIsTop(LenKey, rest, |kept|);
    assert KeySections(content, maxSections)[1..] == kept;
    LongerByKey(rest, kept);
  }

  /** The length key orders paragraphs by length. */
  lemma LongerByKey(rest: seq<string>, kept: seq<string>)
    requires forall c, i :: c in rest && c !in kept && 0 <= i < |kept| ==> LenKey(c) <= LenKey(kept[i])
    ensures forall p, i :: p in rest && p !in kept && 0 <= i < |kept| ==> |p| <= |kept[i]|
  {
    forall p, i | p in rest && p !in kept && 0 <= i < |kept| ensures |p| <= |kept[i]| {
      assert LenKey(p) <= LenKey(kept[i]);
    }
  }

  // ---------------------------------------------------------------------------
  // are_themes_similar
  // ---------------------------------------------------------------------------

  /** `set(name.lower().split())`. */
  function WordSet(name: string): set<string>
  {
    set w | w in Words(Lower(name))
  }

  /** `are_themes_similar` as written, on the two word sets: the conditional
      expression binds looser than `>=`, so for names with any words it returns the
      Jaccard ratio itself, and the caller's `if` sees it as true whenever the ratio
      is not zero. */
  function SimilarWordsAsWritten(w1: set<string>, w2: set<string>, threshold: real): (truthy: bool)
  {
    var intersection := |w1 * w2|;
    var union := |w1 + w2|;
    if union > 0 then (intersection as real) / (union as real) != 0.0 else 0.0 >= threshold
  }

  function AreThemesSimilarAsWritten(theme1: string, theme2: string, threshold: real): bool
  {
    SimilarWordsAsWritten(WordSet(theme1), WordSet(theme2), threshold)
  }

  /** As written, the threshold only matters for two names without words: any
      shared word makes two names similar. */
  lemma AsWrittenIgnoresThreshold(w1: set<string>, w2: set<string>, threshold: real)
    requires w1 + w2 != {}
    ensures SimilarWordsAsWritten(w1, w2, threshold) <==> w1 * w2 != {}
  {
    assert |w1 + w2| > 0;
    if w1 * w2 != {} {
      var w :| w in w1 * w2;
      assert |w1 * w2| >= 1 by {
        assert {w} <= w1 * w2;
      }
    }
  }

  /** A ratio with a positive denominator reaches `t` when the numerator reaches
      `t` times the denominator. */
  lemma RatioAtLeast(x: real, u: real, t: real)
    ensures u > 0.0 ==> (x / u >= t <==> x >= t * u)
  {
    if u > 0.0 {
      assert x == (x / u) * u;
    }
  }

  /** The evidently intended test on the two word sets: their Jaccard similarity
      is at least the threshold, with similarity 0 when both are empty. */
  function SimilarWords(w1: set<string>, w2: set<string>, threshold: real): (similar: bool)
    ensures similar <==> if w1 + w2 == {} then 0.0 >= threshold
                         else (|w1 * w2| as real) >= threshold * (|w1 + w2| as real)
  {
    var intersection := |w1 * w2|;
    var union := |w1 + w2|;
    RatioAtLeast(intersection as real, union as real, threshold);
    (if union > 0 then (intersection as real) / (union as real) else 0.0) >= threshold
  }

  /** The corrected `are_themes_similar`, which the merge uses. */
  function AreThemesSimilar(theme1: string, theme2: string, threshold: real): bool
  {
    SimilarWords(WordSet(theme1), WordSet(theme2), threshold)
  }

  /** Similarity does not depend on the order of the two word sets. */
  lemma SimilarSymmetric(w1: set<string>, w2: set<string>, threshold: real)
    ensures SimilarWords(w1, w2, threshold) == SimilarWords(w2, w1, threshold)
  {
    assert w1 * w2 == w2 * w1;
    assert w1 + w2 == w2 + w1;
  }

  /** The same words are similar under any threshold up to 1. */
  lemma SameWordsSimilar(w: set<string>, threshold: real)
    requires w != {} && threshold <= 1.0
    ensures SimilarWords(w, w, threshold)
  {
    assert w * w == w && w + w == w;
    assert (|w| as real) >= threshold * (|w| as real);
  }

  /** Word sets without a common word are not similar under a positive threshold. */
  lemma DisjointNotSimilar(w1: set<string>, w2: set<string>, threshold: real)
    requires w1 * w2 == {} && threshold > 0.0
    ensures !SimilarWords(w1, w2, threshold)
  {
    if w1 + w2 != {} {
      assert |w1 + w2| > 0;
      assert threshold * (|w1 + w2| as real) > 0.0;
    }
  }

  /** A name of two one-letter lower-case words separated by a space. */
  lemma TwoWords(x: char, y: char)
    requires !IsSpace(x) && !IsSpace(y) && LowerChar(x) == x && LowerChar(y) == y
    ensures WordSet([x, ' ', y]) == {[x], [y]}
  {
    var s := [x, ' ', y];
    assert Lower(s) == s;
    assert SkipSpaces(s, 3) == 3;
    assert WordsFrom(s, 3) == [];
    assert SkipSpaces(s, 1) == 2 && WordEnd(s, 2) == 3;
    assert WordsFrom(s, 1) == [s[2..3]] + WordsFrom(s, 3);
    assert SkipSpaces(s, 0) == 0 && WordEnd(s, 0) == 1;
    assert WordsFrom(s, 0) == [s[0..1]] + WordsFrom(s, 1);
    assert s[2..3] == [y] && s[0..1] == [x];
    assert Words(Lower(s)) == WordsFrom(s, 0);
  }

  lemma ExampleWords()
    ensures WordSet("a b") == {"a", "b"} && WordSet("a c") == {"a", "c"}
  {
    TwoWords('a', 'b');
    TwoWords('a', 'c');
  }

  /** One shared word out of three: a Jaccard similarity of 1/3. */
  lemma ExampleRatio()
    ensures SimilarWordsAsWritten({"a", "b"}, {"a", "c"}, 0.8)
    ensures !SimilarWords({"a", "b"}, {"a", "c"}, 0.8)
  {
    var w1: set<string> := {"a", "b"};
    var w2: set<string> := {"a", "c"};
    assert w1 * w2 == {"a"};
    assert w1 + w2 == {"a", "b", "c"};
  }

  /** Two names that share one word out of three differ under threshold 0.8, yet
      the code as written calls them similar. */
  lemma AsWrittenMergesDissimilar()
    ensures AreThemesSimilarAsWritten("a b", "a c", 0.8)
    ensures !AreThemesSimilar("a b", "a c", 0.8)
  {
    ExampleWords();
    ExampleRatio();
  }

  // ---------------------------------------------------------------------------
  // merge_similar_themes
  // ---------------------------------------------------------------------------

  /** A theme the model found in one text. */
  datatype TextTheme = TextTheme(name: string, description: string, relevance: real, evidence: string)

  /** The name test the merge applies: `Similarity(threshold)` is the corrected
      `are_themes_similar`. */
  type Similar = (string, string) -> bool

  function Similarity(threshold: real): (f: Similar)
    ensures forall a, b :: f(a, b) == AreThemesSimilar(a, b, threshold)
  {
    (a: string, b: string) => AreThemesSimilar(a, b, threshold)
  }

  /** Folding `other` into the group's theme: the larger relevance (the current one
      on a tie, as `max` does) and the evidence appended on a new line. */
  function Combine(current: TextTheme, other: TextTheme): (r: TextTheme)
    ensures r.name == current.name && r.description == current.description
    ensures r.relevance >= current.relevance && r.relevance >= other.relevance
    ensures r.relevance == current.relevance || r.relevance == other.relevance
    ensures r.evidence == current.evidence + "\n" + other.evidence
  {
    var relevance := if other.relevance > current.relevance then other.relevance else current.relevance;
    current.(relevance := relevance, evidence := current.evidence + "\n" + other.evidence)
  }

  /** The themes from `j` on that join the group of the theme named `name`: those
      not taken by an earlier group whose name is similar. */
  function Claimed(themes: seq<TextTheme>, similar: Similar, name: string, used: set<int>, j: nat): set<int>
  {
    set k | j <= k < |themes| && k !in used && similar(name, themes[k].name)
  }

  /** The evidence the claimed themes from `j` on add to their group: each one's own,
      after a newline, in increasing position. */
  function ClaimedEvidence(themes: seq<TextTheme>, similar: Similar, name: string, used: set<int>, j: nat): string
    decreases |themes| - j
  {
    if j >= |themes| then ""
    else
      var own := if j !in used && similar(name, themes[j].name) then "\n" + themes[j].evidence else "";
      own + ClaimedEvidence(themes, similar, name, used, j + 1)
  }

  /** The group's theme once the themes from `j` on have been folded in: its relevance
      is the largest among `current` and the claimed themes, and its evidence is that of
      `current` followed by the claimed themes' evidence. */
  function MergeInto(themes: seq<TextTheme>, similar: Similar, name: string, used: set<int>, current: TextTheme, j: nat)
    : (r: TextTheme)
    decreases |themes| - j
    ensures r.name == current.name && r.description == current.description
    ensures r.relevance >= current.relevance
    ensures forall k :: k in Claimed(themes, similar, name, used, j) ==> r.relevance >= themes[k].relevance
    ensures r.relevance == current.relevance ||
      exists k :: k in Claimed(themes, similar, name, used, j) && r.relevance == themes[k].relevance
    ensures r.evidence == current.evidence + ClaimedEvidence(themes, similar, name, used, j)
  {
    if j >= |themes| then current
    else
      var next := if j !in used && similar(name, themes[j].name) then Combine(current, themes[j]) else current;
      var r := MergeInto(themes, similar, name, used, next, j + 1);
      ClaimedStep(themes, similar, name, used, j);
      MergeIntoStep(themes, similar, name, used, current, next, r, j);
      r
  }

  /** The step of `MergeInto` at `j`, given its result from `j + 1` on. */
  lemma {:induction false} MergeIntoStep(themes: seq<TextTheme>, similar: Similar, name: string, used: set<int>,
                      current: TextTheme, next: TextTheme, r: TextTheme, j: nat)
    requires j < |themes|
    requires next == if j !in used && similar(name, themes[j].name) then Combine(current, themes[j]) else current
    requires Claimed(themes, similar, name, used, j) ==
      (if j !in used && similar(name, themes[j].name) then {j} else {}) + Claimed(themes, similar, name, used, j + 1)
    requires r.relevance == next.relevance ||
      exists k :: k in Claimed(themes, similar, name, used, j + 1) && r.relevance == themes[k].relevance
    requires r.evidence == next.evidence + ClaimedEvidence(themes, similar, name, used, j + 1)
    ensures r.relevance == current.relevance ||
      exists k :: k in Claimed(themes, similar, name, used, j) && r.relevance == themes[k].relevance
    ensures r.evidence == current.evidence + ClaimedEvidence(themes, similar, name, used, j)
  {
    var rest := ClaimedEvidence(themes, similar, name, used, j + 1);
    if j !in used && similar(name, themes[j].name) {
      assert j in Claimed(themes, similar, name, used, j);
      assert r.evidence == current.evidence + ("\n" + themes[j].evidence + rest);
    } else {
      assert ClaimedEvidence(themes, similar, name, used, j) == rest;
    }
  }

  /** The merged themes of the groups led by the themes from `i` on. */
  function MergeFrom(themes: seq<TextTheme>, similar: Similar, used: set<int>, i: nat): seq<TextTheme>
    decreases |themes| - i
  {
    if i >= |themes| then []
    else if i in used then MergeFrom(themes, similar, used, i + 1)
    else
      var name := themes[i].name;
      [MergeInto(themes, similar, name, used, themes[i], i + 1)] +
      MergeFrom(themes, similar, used + {i} + Claimed(themes, similar, name, used, i + 1), i + 1)
  }

  /** The themes that lead a group, in order. */
  function Leaders(themes: seq<TextTheme>, similar: Similar, used: set<int>, i: nat): (l: seq<nat>)
    decreases |themes| - i
    ensures forall k :: 0 <= k < |l| ==> i <= l[k] < |themes|
  {
    if i >= |themes| then []
    else if i in used then Leaders(themes, similar, used, i + 1)
    else
      [i] + Leaders(themes, similar, used + {i} + Claimed(themes, similar, themes[i].name, used, i + 1), i + 1)
  }

  /** A group of the merge: its leader and the themes taken before the leader's turn. */
  datatype Group = Group(leader: nat, before: set<int>)

  /** The themes of a group: its leader and the later themes it claims. */
  function Members(themes: seq<TextTheme>, similar: Similar, g: Group): set<int>
  {
    if g.leader < |themes| then {g.leader as int} + Claimed(themes, similar, themes[g.leader].name, g.before, g.leader + 1)
    else {}
  }

  /** The groups formed by the leaders from `i` on, in order. */
  function GroupsFrom(themes: seq<TextTheme>, similar: Similar, used: set<int>, i: nat): (gs: seq<Group>)
    decreases |themes| - i
    ensures forall k :: 0 <= k < |gs| ==> i <= gs[k].leader < |themes|
  {
    if i >= |themes| then []
    else if i in used then GroupsFrom(themes, similar, used, i + 1)
    else
      [Group(i, used)] + GroupsFrom(themes, similar, used + {i} + Claimed(themes, similar, themes[i].name, used, i + 1), i + 1)
  }

  /** Theme `j` is a member of some group of `gs`. */
  predicate InSomeGroup(themes: seq<TextTheme>, similar: Similar, gs: seq<Group>, j: int)
  {
    exists k :: 0 <= k < |gs| && j in Members(themes, similar, gs[k])
  }

  /** No theme is a member of two groups of `gs`. */
  predicate GroupsDisjoint(themes: seq<TextTheme>, similar: Similar, gs: seq<Group>)
  {
    forall k, m, j :: 0 <= k < m < |gs| && j in Members(themes, similar, gs[k]) ==> j !in Members(themes, similar, gs[m])
  }

  /** Every member of a group of `gs` is a theme from `i` on not taken before. */
  predicate MembersFrom(themes: seq<TextTheme>, similar: Similar, gs: seq<Group>, used: set<int>, i: nat)
  {
    forall k, j :: 0 <= k < |gs| && j in Members(themes, similar, gs[k]) ==> i <= j < |themes| && j !in used
  }

  /** Every theme lands in exactly one group: the groups formed from `i` on hold each
      theme from `i` on that was not taken before, and no theme is in two of them. */
  lemma {:induction false} GroupsPartition(themes: seq<TextTheme>, similar: Similar, used: set<int>, i: nat)
    ensures MembersFrom(themes, similar, GroupsFrom(themes, similar, used, i), used, i)
    ensures forall j :: i <= j < |themes| && j !in used ==> InSomeGroup(themes, similar, GroupsFrom(themes, similar, used, i), j)
    ensures GroupsDisjoint(themes, similar, GroupsFrom(themes, similar, used, i))
    decreases |themes| - i
  {
    if i < |themes| {
      if i in used {
        GroupsPartition(themes, similar, used, i + 1);
      } else {
        var claimed := Claimed(themes, similar, themes[i].name, used, i + 1);
        var u := used + {i} + claimed;
        GroupsPartition(themes, similar, u, i + 1);
        GroupsCons(themes, similar, used, i, GroupsFrom(themes, similar, u, i + 1));
      }
    }
  }

  /** The step of `GroupsPartition` for a leader `i`. */
  lemma {:induction false} GroupsCons(themes: seq<TextTheme>, similar: Similar, used: set<int>, i: nat, rest: seq<Group>)
    requires i < |themes| && i !in used
    requires var u := used + {i} + Claimed(themes, similar, themes[i].name, used, i + 1);
      MembersFrom(themes, similar, rest, u, i + 1) &&
      (forall j :: i + 1 <= j < |themes| && j !in u ==> InSomeGroup(themes, similar, rest, j)) &&
      GroupsDisjoint(themes, similar, rest)
    ensures var gs := [Group(i, used)] + rest;
      MembersFrom(themes, similar, gs, used, i) &&
      (forall j :: i <= j < |themes| && j !in used ==> InSomeGroup(themes, similar, gs, j)) &&
      GroupsDisjoint(themes, similar, gs)
  {
    var u := used + {i} + Claimed(themes, similar, themes[i].name, used, i + 1);
    ConsMembersFrom(themes, similar, used, i, rest, u);
    ConsCovers(themes, similar, used, i, rest, u);
    ConsDisjoint(themes, similar, used, i, rest, u);
  }

  lemma {:induction false} ConsMembersFrom(themes: seq<TextTheme>, similar: Similar, used: set<int>, i: nat, rest: seq<Group>, u: set<int>)
    requires i < |themes| && i !in used
    requires u == used + {i} + Claimed(themes, similar, themes[i].name, used, i + 1)
    requires MembersFrom(themes, similar, rest, u, i + 1)
    ensures MembersFrom(themes, similar, [Group(i, used)] + rest, used, i)
  {
    var gs := [Group(i, used)] + rest;
    forall k: int, j: int | 0 <= k < |gs| && j in Members(themes, similar, gs[k]) ensures i <= j < |themes| && j !in used {
      if k > 0 {
        assert gs[k] == rest[k - 1];
        MemberFrom(themes, similar, rest, u, i + 1, k - 1, j);
      } else {
        var claimed := Claimed(themes, similar, themes[i].name, used, i + 1);
        assert Members(themes, similar, gs[0]) == {i as int} + claimed;
        assert j == i || j in claimed;
      }
    }
  }

  /** A member of a group of `gs`, read off `MembersFrom`. */
  lemma {:induction false} MemberFrom(themes: seq<TextTheme>, similar: Similar, gs: seq<Group>, used: set<int>, i: nat, k: int, j: int)
    requires MembersFrom(themes, similar, gs, used, i) && 0 <= k < |gs| && j in Members(themes, similar, gs[k])
    ensures i <= j < |themes| && j !in used
  {
  }

  lemma {:induction false} ConsCovers(themes: seq<TextTheme>, similar: Similar, used: set<int>, i: nat, rest: seq<Group>, u: set<int>)
    requires i < |themes| && i !in used
    requires u == used + {i} + Claimed(themes, similar, themes[i].name, used, i + 1)
    requires forall j :: i + 1 <= j < |themes| && j !in u ==> InSomeGroup(themes, similar, rest, j)
    ensures forall j :: i <= j < |themes| && j !in used ==> InSomeGroup(themes, similar, [Group(i, used)] + rest, j)
  {
    var g := Group(i, used);
    var gs := [g] + rest;
    forall j: int | i <= j < |themes| && j !in used ensures InSomeGroup(themes, similar, gs, j) {
      if j in Members(themes, similar, g) {
        assert gs[0] == g;
      } else {
        assert InSomeGroup(themes, similar, rest, j);
        var k :| 0 <= k < |rest| && j in Members(themes, similar, rest[k]);
        assert gs[k + 1] == rest[k];
      }
    }
  }

  lemma {:induction false} ConsDisjoint(themes: seq<TextTheme>, similar: Similar, used: set<int>, i: nat, rest: seq<Group>, u: set<int>)
    requires i < |themes| && i !in used
    requires u == used + {i} + Claimed(themes, similar, themes[i].name, used, i + 1)
    requires MembersFrom(themes, similar, rest, u, i + 1) && GroupsDisjoint(themes, similar, rest)
    ensures GroupsDisjoint(themes, similar, [Group(i, used)] + rest)
  {
    var gs := [Group(i, used)] + rest;
    forall k: int, m: int, j: int | 0 <= k < m < |gs| && j in Members(themes, similar, gs[k]) ensures j !in Members(themes, similar, gs[m]) {
      assert gs[m] == rest[m - 1];
      if k > 0 {
        assert gs[k] == rest[k - 1];
      } else {
        assert gs[0] == Group(i, used);
        assert j in u;
      }
    }
  }


  /** Merged theme `k` is the fold of group `k`: the leader with every member it
      claims folded in. */
  lemma {:induction false} GroupsMerged(themes: seq<TextTheme>, similar: Similar, used: set<int>, i: nat)
    ensures |GroupsFrom(themes, similar, used, i)| == |MergeFrom(themes, similar, used, i)|
    ensures FoldsGroups(themes, similar, GroupsFrom(themes, similar, used, i), MergeFrom(themes, similar, used, i))
    decreases |themes| - i
  {
    if i < |themes| {
      if i in used {
        GroupsMerged(themes, similar, used, i + 1);
      } else {
        var u := used + {i} + Claimed(themes, similar, themes[i].name, used, i + 1);
        GroupsMerged(themes, similar, u, i + 1);
        var first := MergeInto(themes, similar, themes[i].name, used, themes[i], i + 1);
        assert first == Fold(themes, similar, Group(i, used));
        FoldsGroupsCons(themes, similar, Group(i, used), first, GroupsFrom(themes, similar, u, i + 1), MergeFrom(themes, similar, u, i + 1));
      }
    }
  }

  /** The merged theme of group `g`: its leader with every member it claims folded in. */
  function Fold(themes: seq<TextTheme>, similar: Similar, g: Group): TextTheme
  {
    if g.leader < |themes| then
      MergeInto(themes, similar, themes[g.leader].name, g.before, themes[g.leader], g.leader + 1)
    else TextTheme("", "", 0.0, "")
  }

  /** Each merged theme of `ms` is the fold of the group of `gs` at its position. */
  predicate FoldsGroups(themes: seq<TextTheme>, similar: Similar, gs: seq<Group>, ms: seq<TextTheme>)
  {
    |gs| == |ms| && forall k :: 0 <= k < |gs| ==> ms[k] == Fold(themes, similar, gs[k])
  }

  lemma {:induction false} FoldsGroupsCons(themes: seq<TextTheme>, similar: Similar, g: Group, m: TextTheme, gs: seq<Group>, ms: seq<TextTheme>)
    requires FoldsGroups(themes, similar, gs, ms) && m == Fold(themes, similar, g)
    ensures FoldsGroups(themes, similar, [g] + gs, [m] + ms)
  {
    forall k | 0 <= k < |gs| + 1 ensures ([m] + ms)[k] == Fold(themes, similar, ([g] + gs)[k]) {
      if k > 0 {
        assert ([g] + gs)[k] == gs[k - 1] && ([m] + ms)[k] == ms[k - 1];
      }
    }
  }

  /** `m` is what merging group `g` gives: the largest relevance of its members, and
      the leader's evidence followed by each claimed member's on a new line, in order. */
  predicate MergedFrom(themes: seq<TextTheme>, similar: Similar, g: Group, m: TextTheme)
    requires g.leader < |themes|
  {
    (forall j :: j in Members(themes, similar, g) ==> m.relevance >= themes[j].relevance) &&
    (exists j :: j in Members(themes, similar, g) && m.relevance == themes[j].relevance) &&
    m.evidence == themes[g.leader].evidence + ClaimedEvidence(themes, similar, themes[g.leader].name, g.before, g.leader + 1)
  }

  /** The merged themes of `merge_similar_themes`, one per group and in group order. */
  lemma {:induction false} MergedGroups(themes: seq<TextTheme>, similar: Similar)
    ensures var gs := GroupsFrom(themes, similar, {}, 0);
      var ms := MergeFrom(themes, similar, {}, 0);
      |ms| == |gs| && forall k :: 0 <= k < |ms| ==> MergedFrom(themes, similar, gs[k], ms[k])
  {
    GroupsMerged(themes, similar, {}, 0);
    var gs := GroupsFrom(themes, similar, {}, 0);
    var ms := MergeFrom(themes, similar, {}, 0);
    forall k | 0 <= k < |ms| ensures MergedFrom(themes, similar, gs[k], ms[k]) {
      FoldOfGroup(themes, similar, gs[k]);
    }
  }

  /** Merging one group. */
  lemma {:induction false} FoldOfGroup(themes: seq<TextTheme>, similar: Similar, g: Group)
    requires g.leader < |themes|
    ensures MergedFrom(themes, similar, g, Fold(themes, similar, g))
  {
    var l := g.leader;
    assert Members(themes, similar, g) == {l as int} + Claimed(themes, similar, themes[l].name, g.before, l + 1);
    assert l in Members(themes, similar, g);
  }

  /** Claiming proceeds one theme at a time. */
  lemma ClaimedStep(themes: seq<TextTheme>, similar: Similar, name: string, used: set<int>, j: nat)
    requires j < |themes|
    ensures Claimed(themes, similar, name, used, j) ==
      (if j !in used && similar(name, themes[j].name) then {j} else {}) + Claimed(themes, similar, name, used, j + 1)
  {
  }

  /** `merge_similar_themes`: each theme not yet taken leads a group, takes in every
      later theme not yet taken whose name is similar to its own, and the group's
      merged theme is appended. */
  method MergeSimilarThemes(themes: seq<TextTheme>, similar: Similar) returns (merged: seq<TextTheme>)
    ensures merged == MergeFrom(themes, similar, {}, 0)
  {
    merged := [];
    var used: set<int> := {};
    for i := 0 to |themes|
      invariant merged + MergeFrom(themes, similar, used, i) == MergeFrom(themes, similar, {}, 0)
    {
      if i in used {
        continue;
      }
      var current;
      current, used := Absorb(themes, similar, i, used);
      assert merged + [current] + MergeFrom(themes, similar, used, i + 1) == merged + ([current] + MergeFrom(themes, similar, used, i + 1));
      merged := merged + [current];
    }
  }

  /** The inner loop: theme `i` takes in the later themes not yet taken whose names
      are similar to its own. */
  method Absorb(themes: seq<TextTheme>, similar: Similar, i: nat, before: set<int>)
    returns (current: TextTheme, used: set<int>)
    requires i < |themes|
    ensures current == MergeInto(themes, similar, themes[i].name, before, themes[i], i + 1)
    ensures used == before + {i} + Claimed(themes, similar, themes[i].name, before, i + 1)
  {
    var name := themes[i].name;
    current := themes[i];
    used := before + {i};
    for j := i + 1 to |themes|
      invariant MergeInto(themes, similar, name, before, current, j) == MergeInto(themes, similar, name, before, themes[i], i + 1)
      invariant used + Claimed(themes, similar, name, before, j) == before + {i} + Claimed(themes, similar, name, before, i + 1)
      invariant forall k :: j <= k ==> (k in used <==> k in before)
    {
      ClaimedStep(themes, similar, name, before, j);
      if j in used {
        continue;
      }
      if similar(name, themes[j].name) {
        current := Combine(current, themes[j]);
        used := used + {j};
      }
    }
    assert Claimed(themes, similar, name, before, |themes|) == {};
  }

  /** Leaders come in increasing order, from `i` on, none of them taken before. */
  lemma {:induction false} LeadersIncreasing(themes: seq<TextTheme>, similar: Similar, used: set<int>, i: nat)
    ensures forall k :: 0 <= k < |Leaders(themes, similar, used, i)| ==> Leaders(themes, similar, used, i)[k] !in used
    ensures forall k, m :: 0 <= k < m < |Leaders(themes, similar, used, i)| ==>
      Leaders(themes, similar, used, i)[k] < Leaders(themes, similar, used, i)[m]
    decreases |themes| - i
  {
    if i < |themes| {
      if i in used {
        LeadersIncreasing(themes, similar, used, i + 1);
        assert Leaders(themes, similar, used, i) == Leaders(themes, similar, used, i + 1);
      } else {
        var u := used + {i} + Claimed(themes, similar, themes[i].name, used, i + 1);
        LeadersIncreasing(themes, similar, u, i + 1);
        var rest := Leaders(themes, similar, u, i + 1);
        assert forall k :: 0 <= k < |rest| ==> rest[k] !in u;
        var l := [i] + rest;
        assert Leaders(themes, similar, used, i) == l;
        forall k | 0 <= k < |l| ensures l[k] !in used {
          if k > 0 {
            assert l[k] == rest[k - 1] && rest[k - 1] !in u;
          }
        }
        forall k, m | 0 <= k < m < |l| ensures l[k] < l[m] {
          assert l[m] == rest[m - 1];
          if k > 0 {
            assert l[k] == rest[k - 1];
          }
        }
      }
    }
  }

  /** One merged theme per leader: it keeps the leader's name and description, and
      its relevance is at least the leader's. */
  lemma {:induction false} MergedShape(themes: seq<TextTheme>, similar: Similar, used: set<int>, i: nat)
    ensures |MergeFrom(themes, similar, used, i)| == |Leaders(themes, similar, used, i)|
    ensures var l := Leaders(themes, similar, used, i);
      var m := MergeFrom(themes, similar, used, i);
      forall k :: 0 <= k < |m| ==> (m[k].name == themes[l[k]].name &&
        m[k].description == themes[l[k]].description && m[k].relevance >= themes[l[k]].relevance)
    decreases |themes| - i
  {
    if i < |themes| {
      if i in used {
        MergedShape(themes, similar, used, i + 1);
      } else {
        var u := used + {i} + Claimed(themes, similar, themes[i].name, used, i + 1);
        MergedShape(themes, similar, u, i + 1);
        LeadersIncreasing(themes, similar, u, i + 1);
        var rest := Leaders(themes, similar, u, i + 1);
        var merged := MergeFrom(themes, similar, u, i + 1);
        assert forall k :: 1 <= k <= |rest| ==> ([i] + rest)[k] == rest[k - 1];
        var first := MergeInto(themes, similar, themes[i].name, used, themes[i], i + 1);
        assert forall k :: 1 <= k <= |merged| ==> ([first] + merged)[k] == merged[k - 1];
      }
    }
  }

  /** Some theme of `l` before `j` has a name similar to that of `j`. */
  predicate Covered(themes: seq<TextTheme>, similar: Similar, l: seq<nat>, j: nat)
    requires j < |themes| && forall k :: 0 <= k < |l| ==> l[k] < |themes|
  {
    exists k :: 0 <= k < |l| && l[k] < j && similar(themes[l[k]].name, themes[j].name)
  }

  lemma CoveredCons(themes: seq<TextTheme>, similar: Similar, i: nat, rest: seq<nat>, j: nat)
    requires i < j < |themes| && forall k :: 0 <= k < |rest| ==> rest[k] < |themes|
    ensures Covered(themes, similar, [i] + rest, j) <==>
      similar(themes[i].name, themes[j].name) || Covered(themes, similar, rest, j)
  {
    var l := [i] + rest;
    assert forall k :: 1 <= k <= |rest| ==> l[k] == rest[k - 1];
    if Covered(themes, similar, rest, j) {
      var k :| 0 <= k < |rest| && rest[k] < j && similar(themes[rest[k]].name, themes[j].name);
      assert l[k + 1] == rest[k];
    }
    if Covered(themes, similar, l, j) && !similar(themes[i].name, themes[j].name) {
      var k :| 0 <= k < |l| && l[k] < j && similar(themes[l[k]].name, themes[j].name);
      assert k > 0 && rest[k - 1] == l[k];
    }
  }

  /** A theme not taken before `i` leads a group exactly when no earlier leader has
      a similar name. */
  lemma {:induction false} LeadersIff(themes: seq<TextTheme>, similar: Similar, used: set<int>, i: nat, j: nat)
    requires i <= j < |themes| && j !in used
    ensures j in Leaders(themes, similar, used, i) <==> !Covered(themes, similar, Leaders(themes, similar, used, i), j)
    decreases |themes| - i
  {
    if i in used {
      LeadersIff(themes, similar, used, i + 1, j);
      assert Leaders(themes, similar, used, i) == Leaders(themes, similar, used, i + 1);
    } else if j == i {
      LeaderFirst(themes, similar, used, i);
    } else {
      var claimed := Claimed(themes, similar, themes[i].name, used, i + 1);
      if j in claimed {
        ClaimedNotLeader(themes, similar, used, i, j);
      } else {
        LeadersIff(themes, similar, used + {i} + claimed, i + 1, j);
        UnclaimedStep(themes, similar, used, i, j);
      }
    }
  }

  /** A theme the group of `i` leaves alone leads a group from `i` on exactly when it
      does from `i + 1` on. */
  lemma UnclaimedStep(themes: seq<TextTheme>, similar: Similar, used: set<int>, i: nat, j: nat)
    requires i < j < |themes| && i !in used && j !in used
    requires j !in Claimed(themes, similar, themes[i].name, used, i + 1)
    requires var u := used + {i} + Claimed(themes, similar, themes[i].name, used, i + 1);
      j in Leaders(themes, similar, u, i + 1) <==> !Covered(themes, similar, Leaders(themes, similar, u, i + 1), j)
    ensures j in Leaders(themes, similar, used, i) <==> !Covered(themes, similar, Leaders(themes, similar, used, i), j)
  {
    var u := used + {i} + Claimed(themes, similar, themes[i].name, used, i + 1);
    var rest := Leaders(themes, similar, u, i + 1);
    assert Leaders(themes, similar, used, i) == [i] + rest;
    CoveredCons(themes, similar, i, rest, j);
  }

  /** A theme not taken before leads the first group and is covered by no leader. */
  lemma LeaderFirst(themes: seq<TextTheme>, similar: Similar, used: set<int>, i: nat)
    requires i < |themes| && i !in used
    ensures i in Leaders(themes, similar, used, i) && !Covered(themes, similar, Leaders(themes, similar, used, i), i)
  {
    var l := Leaders(themes, similar, used, i);
    assert l[0] == i;
  }

  /** A theme claimed by the group of `i` leads no later group and is covered by `i`. */
  lemma ClaimedNotLeader(themes: seq<TextTheme>, similar: Similar, used: set<int>, i: nat, j: nat)
    requires i < j < |themes| && i !in used
    requires j in Claimed(themes, similar, themes[i].name, used, i + 1)
    ensures j !in Leaders(themes, similar, used, i) && Covered(themes, similar, Leaders(themes, similar, used, i), j)
  {
    var u := used + {i} + Claimed(themes, similar, themes[i].name, used, i + 1);
    var rest := Leaders(themes, similar, u, i + 1);
    assert Leaders(themes, similar, used, i) == [i] + rest;
    LeadersIncreasing(themes, similar, u, i + 1);
    assert j !in rest;
    CoveredCons(themes, similar, i, rest, j);
  }

  /** Some leader in `l` before `j` has a name similar to that of `j`, and its merged
      theme in `m` has at least the relevance of `j`. */
  predicate Absorbed(themes: seq<TextTheme>, similar: Similar, l: seq<nat>, m: seq<TextTheme>, j: nat)
    requires j < |themes| && forall k :: 0 <= k < |l| ==> l[k] < |themes|
  {
    exists k :: 0 <= k < |l| && k < |m| && l[k] < j && similar(themes[l[k]].name, themes[j].name) &&
      m[k].relevance >= themes[j].relevance
  }

  lemma AbsorbedCons(themes: seq<TextTheme>, similar: Similar, i: nat, rest: seq<nat>, first: TextTheme,
                     merged: seq<TextTheme>, j: nat)
    requires i < j < |themes| && forall k :: 0 <= k < |rest| ==> rest[k] < |themes|
    requires (similar(themes[i].name, themes[j].name) && first.relevance >= themes[j].relevance) ||
      Absorbed(themes, similar, rest, merged, j)
    ensures Absorbed(themes, similar, [i] + rest, [first] + merged, j)
  {
    var l := [i] + rest;
    var m := [first] + merged;
    if !(similar(themes[i].name, themes[j].name) && first.relevance >= themes[j].relevance) {
      var k :| 0 <= k < |rest| && k < |merged| && rest[k] < j && similar(themes[rest[k]].name, themes[j].name) &&
        merged[k].relevance >= themes[j].relevance;
      assert l[k + 1] == rest[k] && m[k + 1] == merged[k];
    } else {
      assert l[0] == i && m[0] == first;
    }
  }

  /** A theme that does not lead is taken in by an earlier leader with a similar
      name, whose merged theme has at least its relevance. */
  lemma {:induction false} MergedAbsorbs(themes: seq<TextTheme>, similar: Similar, used: set<int>, i: nat, j: nat)
    requires i <= j < |themes| && j !in used && j !in Leaders(themes, similar, used, i)
    ensures Absorbed(themes, similar, Leaders(themes, similar, used, i), MergeFrom(themes, similar, used, i), j)
    decreases |themes| - i
  {
    if i in used {
      MergedAbsorbs(themes, similar, used, i + 1, j);
    } else {
      var claimed := Claimed(themes, similar, themes[i].name, used, i + 1);
      var u := used + {i} + claimed;
      var rest := Leaders(themes, similar, u, i + 1);
      var merged := MergeFrom(themes, similar, u, i + 1);
      var first := MergeInto(themes, similar, themes[i].name, used, themes[i], i + 1);
      assert Leaders(themes, similar, used, i) == [i] + rest;
      assert MergeFrom(themes, similar, used, i) == [first] + merged;
      assert j != i;
      if j !in claimed {
        MergedAbsorbs(themes, similar, u, i + 1, j);
      }
      AbsorbedCons(themes, similar, i, rest, first, merged, j);
    }
  }
}
