/**
 * `ThemeIdentifier` of the API layer: the query results are grouped by file into a
 * prompt context, the model's reply is stripped of Markdown code fences and parsed,
 * and every failure becomes a dictionary with an empty theme list.
 */
module ThemeApi {
  import opened Wrappers
  import opened PyStr
  import opened Json

  /** One query result: the file it comes from and the text that matched. */
  datatype Hit = Hit(filename: string, matchedText: string)

  // ---------------------------------------------------------------------------
  // Grouping by file

  /** The keys of the grouping dictionary: each file name once, in the order in
      which it first appears. */
  function Filenames(hits: seq<Hit>): (names: seq<string>)
  {
    if hits == [] then []
    else
      var before := Filenames(hits[..|hits| - 1]);
      var f := hits[|hits| - 1].filename;
      if f in before then before else before + [f]
  }

  /** The list the grouping dictionary holds for file `f`: the matched texts of its
      results, in their order. */
  function TextsOf(hits: seq<Hit>, f: string): seq<string>
  {
    if hits == [] then []
    else
      var last := hits[|hits| - 1];
      TextsOf(hits[..|hits| - 1], f) + (if last.filename == f then [last.matchedText] else [])
  }

  predicate Distinct(names: seq<string>)
  {
    forall k, m :: 0 <= k < m < |names| ==> names[k] != names[m]
  }

  /** Every file of the results is a key, no other, and none twice. */
  lemma {:induction false} FilenamesComplete(hits: seq<Hit>)
    ensures Distinct(Filenames(hits))
    ensures forall f :: f in Filenames(hits) <==> Seen(hits, f, |hits|)
  {
    if hits != [] {
      var p := hits[..|hits| - 1];
      FilenamesComplete(p);
      assert forall i :: 0 <= i < |p| ==> p[i] == hits[i];
      forall f | f in Filenames(hits) ensures exists i :: 0 <= i < |hits| && hits[i].filename == f {
        if f in Filenames(p) {
          var i :| 0 <= i < |p| && p[i].filename == f;
          assert hits[i].filename == f;
        } else {
          assert hits[|hits| - 1].filename == f;
        }
      }
      forall f | exists i :: 0 <= i < |hits| && hits[i].filename == f ensures f in Filenames(hits) {
        var i :| 0 <= i < |hits| && hits[i].filename == f;
        if i < |p| {
          assert p[i].filename == f;
        }
      }
    }
  }

  /** A result of file `f` occurs before position `i`. */
  predicate Seen(hits: seq<Hit>, f: string, i: nat)
    requires i <= |hits|
  {
    exists j :: 0 <= j < i && hits[j].filename == f
  }

  /** The keys come in order of first appearance: before any result of the file with
      key `m`, a result of each file with an earlier key has already appeared. */
  predicate InOrder(hits: seq<Hit>)
  {
    forall k, m, i :: (0 <= k < m < |Filenames(hits)| && 0 <= i < |hits| && hits[i].filename == Filenames(hits)[m]) ==>
      Seen(hits, Filenames(hits)[k], i)
  }

  lemma {:induction false} FilenamesFirstAppearance(hits: seq<Hit>)
    ensures InOrder(hits)
  {
    if hits != [] {
      var p := hits[..|hits| - 1];
      FilenamesFirstAppearance(p);
      FilenamesComplete(p);
      var names := Filenames(hits);
      forall k, m, i | 0 <= k < m < |names| && 0 <= i < |hits| && hits[i].filename == names[m]
        ensures Seen(hits, names[k], i)
      {
        InOrderAt(hits, p, k, m, i);
      }
    }
  }

  /** The step of `FilenamesFirstAppearance` for one pair of keys and one result. */
  lemma InOrderAt(hits: seq<Hit>, p: seq<Hit>, k: nat, m: nat, i: nat)
    requires hits != [] && p == hits[..|hits| - 1] && InOrder(p)
    requires forall f :: f in Filenames(p) <==> Seen(p, f, |p|)
    requires k < m < |Filenames(hits)| && i < |hits| && hits[i].filename == Filenames(hits)[m]
    ensures Seen(hits, Filenames(hits)[k], i)
  {
    var names := Filenames(hits);
    var before := Filenames(p);
    assert names[k] == before[k];
    if i == |p| {
      assert Seen(p, names[k], |p|);
      var j :| 0 <= j < |p| && p[j].filename == names[k];
      assert hits[j] == p[j];
    } else {
      assert hits[i] == p[i];
      assert m < |before| by {
        assert Seen(p, names[m], |p|) by {
          assert p[i].filename == names[m];
        }
      }
      assert names[m] == before[m];
      assert Seen(p, before[k], i);
      var j :| 0 <= j < i && p[j].filename == before[k];
      assert hits[j] == p[j];
    }
  }

  /** A file's list is empty exactly when the file is not a key. */
  lemma {:induction false} TextsOfEmpty(hits: seq<Hit>, f: string)
    ensures TextsOf(hits, f) == [] <==> f !in Filenames(hits)
  {
    if hits != [] {
      TextsOfEmpty(hits[..|hits| - 1], f);
    }
  }

  /** The results land in their groups: the group sizes add up to the number of
      results. */
  function GroupSizes(hits: seq<Hit>, names: seq<string>): nat
  {
    if names == [] then 0 else GroupSizes(hits, names[..|names| - 1]) + |TextsOf(hits, names[|names| - 1])|
  }

  // ---------------------------------------------------------------------------
  // The context

  /** The first two lines of the context. */
  function Header(query: string): string
  {
    "QUERY: " + query + "\n\n" + "DOCUMENT EXCERPTS:\n\n"
  }

  function Zeros(k: nat): (z: string)
    ensures |z| == k && forall i :: 0 <= i < k ==> z[i] == '0'
  {
    seq(k, _ => '0')
  }

  /** Leading zeros do not change a decimal value. */
  lemma {:induction false} ParseZeros(k: nat, s: string)
    requires forall i :: 0 <= i < |s| ==> IsDigit(s[i])
    ensures forall i :: 0 <= i < |Zeros(k) + s| ==> IsDigit((Zeros(k) + s)[i])
    ensures ParseDigits(Zeros(k) + s) == ParseDigits(s)
    decreases |s| + k
  {
    var z := Zeros(k) + s;
    if s == [] {
      if k > 0 {
        assert Zeros(k)[..k - 1] == Zeros(k - 1);
        assert z[..|z| - 1] == Zeros(k - 1) + [];
        ParseZeros(k - 1, []);
      }
    } else {
      assert z[..|z| - 1] == Zeros(k) + s[..|s| - 1];
      ParseZeros(k, s[..|s| - 1]);
    }
  }

  /** `f"{n:03d}"`: the decimal digits of `n`, with leading zeros up to three digits. */
  function Pad3(n: nat): (r: string)
    ensures |r| >= 3
    ensures forall i :: 0 <= i < |r| ==> IsDigit(r[i])
    ensures ParseDigits(r) == n
    ensures |r| > 3 ==> r == NatToString(n)
  {
    var d := NatToString(n);
    var k := if |d| >= 3 then 0 else 3 - |d|;
    ParseNatToString(n);
    ParseZeros(k, d);
    assert |d| >= 3 ==> Zeros(k) + d == d;
    Zeros(k) + d
  }

  /** The label of the `n`-th group, counted from 1: `DOC001`, `DOC002`, ... */
  function DocId(n: nat): (r: string)
    ensures StartsWith(r, "DOC") && |r| >= 6
  {
    "DOC" + Pad3(n)
  }

  /** Different groups get different labels. */
  lemma DocIdInjective(m: nat, n: nat)
    requires DocId(m) == DocId(n)
    ensures m == n
  {
    assert Pad3(m) == DocId(m)[3..];
    assert Pad3(n) == DocId(n)[3..];
  }

  /** The line that opens the group of file `f`, the `k`-th counted from 0. */
  function GroupLine(k: nat, f: string): string
  {
    "--- " + DocId(k + 1) + " (" + f + ") ---\n"
  }

  /** The first `t` texts, each cleaned and followed by a blank line. */
  function Excerpts(texts: seq<string>, t: nat): string
    requires t <= |texts|
  {
    if t == 0 then [] else Excerpts(texts, t - 1) + CleanExcerpt(texts[t - 1]) + "\n\n"
  }

  /** The first `n` groups of `names`, each with its opening line and its texts. */
  function Sections(hits: seq<Hit>, names: seq<string>, n: nat): string
    requires n <= |names|
  {
    if n == 0 then []
    else
      var f := names[n - 1];
      Sections(hits, names, n - 1) + GroupLine(n - 1, f) + Excerpts(TextsOf(hits, f), |TextsOf(hits, f)|)
  }

  /** The context `_prepare_context` returns. */
  function Context(hits: seq<Hit>, query: string): string
  {
    var names := Filenames(hits);
    Header(query) + Sections(hits, names, |names|)
  }

  /** Each cleaned excerpt is its words joined by single spaces. */
  lemma ExcerptIsWords(text: string)
    ensures CleanExcerpt(text) == Join(Words(text), " ")
  {
  }

  /** The first loop of `_prepare_context`: the grouping dictionary, filled in result
      order, as its keys in insertion order and its map from key to list. */
  method GroupByFile(hits: seq<Hit>) returns (names: seq<string>, grouped: map<string, seq<string>>)
    ensures names == Filenames(hits)
    ensures forall f :: f in grouped <==> f in names
    ensures forall f :: f in grouped ==> grouped[f] == TextsOf(hits, f)
  {
    names := [];
    grouped := map[];
    for i := 0 to |hits|
      invariant names == Filenames(hits[..i])
      invariant forall f :: f in grouped <==> f in names
      invariant forall f :: f in grouped ==> grouped[f] == TextsOf(hits[..i], f)
    {
      var f := hits[i].filename;
      TextsOfStep(hits, i);
      if f !in grouped {
        TextsOfEmpty(hits[..i], f);
        names := names + [f];
        grouped := grouped[f := []];
      }
      grouped := grouped[f := grouped[f] + [hits[i].matchedText]];
    }
    assert hits[..|hits|] == hits;
  }

  /** Taking in one more result adds its text to its own file's list only. */
  lemma TextsOfStep(hits: seq<Hit>, i: nat)
    requires i < |hits|
    ensures Filenames(hits[..i + 1]) ==
      Filenames(hits[..i]) + (if hits[i].filename in Filenames(hits[..i]) then [] else [hits[i].filename])
    ensures forall f ::
      TextsOf(hits[..i + 1], f) == TextsOf(hits[..i], f) + (if hits[i].filename == f then [hits[i].matchedText] else [])
  {
    assert hits[..i + 1][..i] == hits[..i];
  }

  /** The cleaned texts, each followed by a blank line, appended to `start`. */
  method AppendExcerpts(start: string, texts: seq<string>) returns (context: string)
    ensures context == start + Excerpts(texts, |texts|)
  {
    context := start;
    for t := 0 to |texts|
      invariant context == start + Excerpts(texts, t)
    {
      Associate(start, Excerpts(texts, t), CleanExcerpt(texts[t]), "\n\n");
      context := context + CleanExcerpt(texts[t]) + "\n\n";
    }
  }

  /** `_prepare_context`: a dictionary from file name to list of texts is filled in
      result order, then each of its entries, in insertion order, adds its opening
      line and its cleaned texts to the context. */
  method PrepareContext(hits: seq<Hit>, query: string) returns (context: string)
    ensures context == Context(hits, query)
  {
    context := "QUERY: " + query + "\n\n";
    context := context + "DOCUMENT EXCERPTS:\n\n";
    var names, grouped := GroupByFile(hits);
    context := AppendGroups(context, hits, names, grouped);
  }

  /** The second loop of `_prepare_context`: each group in turn, numbered from 1. */
  method AppendGroups(start: string, hits: seq<Hit>, names: seq<string>, grouped: map<string, seq<string>>)
    returns (context: string)
    requires forall f :: f in names ==> f in grouped && grouped[f] == TextsOf(hits, f)
    ensures context == start + Sections(hits, names, |names|)
  {
    context := start;
    for k := 0 to |names|
      invariant context == start + Sections(hits, names, k)
    {
      var f := names[k];
      context := AppendExcerpts(context + GroupLine(k, f), grouped[f]);
      SectionsNext(start, hits, names, k);
    }
  }

  lemma SectionsNext(pre: string, hits: seq<Hit>, names: seq<string>, k: nat)
    requires k < |names|
    ensures pre + Sections(hits, names, k + 1) ==
      pre + Sections(hits, names, k) + GroupLine(k, names[k]) + Excerpts(TextsOf(hits, names[k]), |TextsOf(hits, names[k])|)
  {
    var texts := TextsOf(hits, names[k]);
    Associate(pre, Sections(hits, names, k), GroupLine(k, names[k]), Excerpts(texts, |texts|));
  }

  lemma Associate(a: string, b: string, c: string, d: string)
    ensures a + (b + c + d) == a + b + c + d
  {
  }

  /** Each result is counted in exactly one group. */
  lemma {:induction false} GroupSizesCount(hits: seq<Hit>)
    ensures GroupSizes(hits, Filenames(hits)) == |hits|
  {
    if hits != [] {
      var n := |hits| - 1;
      var p := hits[..n];
      var f := hits[n].filename;
      GroupSizesCount(p);
      FilenamesComplete(p);
      assert hits[..n + 1] == hits;
      TextsOfStep(hits, n);
      GroupSizesStep(hits, Filenames(hits));
      if f in Filenames(p) {
        assert multiset(Filenames(p))[f] == 1 by {
          DistinctCount(Filenames(p), f);
        }
      } else {
        var names := Filenames(hits);
        assert names == Filenames(p) + [f];
        assert multiset(names)[f] == 1;
        TextsOfEmpty(p, f);
        GroupSizesSame(hits, Filenames(p));
        assert names[..|names| - 1] == Filenames(p);
      }
    }
  }

  /** A name that occurs once in a list without repetitions. */
  lemma {:induction false} DistinctCount(names: seq<string>, f: string)
    requires Distinct(names) && f in names
    ensures multiset(names)[f] == 1
  {
    var k :| 0 <= k < |names| && names[k] == f;
    assert names == names[..k] + [f] + names[k + 1..];
    assert f !in names[..k] && f !in names[k + 1..] by {
      assert forall j :: 0 <= j < k ==> names[..k][j] == names[j];
      assert forall j :: k + 1 <= j < |names| ==> names[k + 1..][j - k - 1] == names[j];
    }
  }

  /** Adding the last result adds one to the group of its file, as often as that file
      is listed. */
  lemma {:induction false} GroupSizesStep(hits: seq<Hit>, names: seq<string>)
    requires hits != []
    ensures GroupSizes(hits, names) ==
      GroupSizes(hits[..|hits| - 1], names) + multiset(names)[hits[|hits| - 1].filename]
  {
    if names != [] {
      var m := |names| - 1;
      GroupSizesStep(hits, names[..m]);
      assert names == names[..m] + [names[m]];
    }
  }

  /** Lists that do not mention the last result's file have the same sizes. */
  lemma GroupSizesSame(hits: seq<Hit>, names: seq<string>)
    requires hits != [] && hits[|hits| - 1].filename !in names
    ensures GroupSizes(hits, names) == GroupSizes(hits[..|hits| - 1], names)
  {
    GroupSizesStep(hits, names);
  }

  // ---------------------------------------------------------------------------
  // The model's reply

  /** Where the first part of the pattern `^<opening>\s*` stops matching: after the
      opening fence and the whitespace that follows it, or at 0 when the text does
      not start with the fence. */
  function OpenEnd(s: string, opening: string): (a: nat)
    ensures a <= |s|
    ensures !StartsWith(s, opening) ==> a == 0
  {
    if StartsWith(s, opening) then SkipSpaces(s, |opening|) else 0
  }

  /** Where the second part `\s*```$` starts matching in `s[a..]`: at the whitespace
      before a closing fence that ends the text, or at the end when there is none. */
  function CloseStart(s: string, a: nat): (b: nat)
    requires a <= |s|
    ensures a <= b <= |s|
    ensures !(EndsWith(s, "```") && a <= |s| - 3) ==> b == |s|
  {
    if EndsWith(s, "```") && a <= |s| - 3 then
      (if SkipSpacesBack(s, |s| - 3) < a then a else SkipSpacesBack(s, |s| - 3))
    else |s|
  }

  /** One pass of `re.sub(r'^<opening>\s*|\s*```$', '', t.strip())`. The text is
      stripped, so `$` can only match at its very end. */
  function Unfence(t: string, opening: string): (r: string)
  {
    var s := Strip(t);
    var a := OpenEnd(s, opening);
    s[a..CloseStart(s, a)]
  }

  /** Lines 103-104: first a `json` fence, then a bare one. */
  function StripFences(t: string): string
  {
    Unfence(Unfence(t, "```json"), "```")
  }

  /** Text with no fence at either end is only stripped. */
  lemma UnfenceUnfenced(t: string, opening: string)
    requires !StartsWith(Strip(t), opening) && !EndsWith(Strip(t), "```")
    ensures Unfence(t, opening) == Strip(t)
  {
  }

  /** A body without fences of its own is left unchanged. */
  lemma StripFencesPlain(b: string)
    requires Strip(b) == b && !StartsWith(b, "```") && !EndsWith(b, "```")
    ensures StripFences(b) == b
  {
    assert !StartsWith(b, "```json");
    UnfenceUnfenced(b, "```json");
    UnfenceUnfenced(b, "```");
  }

  /** A stripped non-empty string starts and ends with a non-space. */
  lemma StripEnds(b: string)
    requires b != [] && Strip(b) == b
    ensures !IsSpace(b[0]) && !IsSpace(b[|b| - 1])
  {
  }

  /** After an opening fence and a newline, the match stops at the next character
      when that is not whitespace. */
  lemma OpenEndAt(s: string, opening: string)
    requires StartsWith(s, opening) && |opening| + 1 < |s| && s[|opening|] == '\n' && !IsSpace(s[|opening| + 1])
    ensures OpenEnd(s, opening) == |opening| + 1
  {
    SkipSpacesIs(s, |opening|, |opening| + 1);
  }

  /** Before a newline and a closing fence that ends the text, the match starts after
      the last character that is not whitespace. */
  lemma CloseStartAt(s: string, a: nat, e: nat)
    requires 0 < e && a <= e && e + 4 == |s| && !IsSpace(s[e - 1]) && s[e] == '\n' && s[e + 1..] == "```"
    ensures CloseStart(s, a) == e
  {
    assert s[|s| - 3..] == "```";
    SkipSpacesBackIs(s, |s| - 3, |s| - 4);
  }

  /** Where the pieces of a fenced block lie. */
  lemma FencedLayout(opening: string, b: string)
    requires b != []
    ensures var s := opening + "\n" + b + "\n```";
      var n := |opening|;
      |s| == n + |b| + 5 && s[..n] == opening && s[n] == '\n' && s[n + 1] == b[0] &&
      s[n + |b|] == b[|b| - 1] && s[n + |b| + 1] == '\n' && s[n + |b| + 2..] == "```" &&
      s[n + 1..n + |b| + 1] == b && s[|s| - 1] == '`'
  {
    var s := opening + "\n" + b + "\n```";
    var n := |opening|;
    assert s == opening + ("\n" + b + "\n```");
    assert s[n + 1..n + |b| + 1] == b;
  }

  /** A block fenced with `opening` gives back the body between its fences. */
  lemma UnfenceBlock(b: string, opening: string)
    requires b != [] && Strip(b) == b && opening != [] && opening[0] == '`'
    ensures Unfence(opening + "\n" + b + "\n```", opening) == b
  {
    var s := opening + "\n" + b + "\n```";
    var n := |opening|;
    StripEnds(b);
    FencedLayout(opening, b);
    assert s[0] == '`';
    StripTrimmed(s);
    OpenEndAt(s, opening);
    CloseStartAt(s, n + 1, n + |b| + 1);
  }

  /** Where the pieces of text followed by a closing fence lie. */
  lemma ClosedLayout(x: string)
    requires x != []
    ensures var s := x + "\n```";
      |s| == |x| + 4 && s[0] == x[0] && s[|x| - 1] == x[|x| - 1] && s[|x|] == '\n' &&
      s[|x| + 1..] == "```" && s[..|x|] == x && s[|s| - 1] == '`'
  {
  }

  /** Text that ends with a closing fence but does not open with `opening` loses the
      fence and the whitespace before it. */
  lemma UnfenceClosing(x: string, opening: string)
    requires x != [] && Strip(x) == x && !StartsWith(x + "\n```", opening)
    ensures Unfence(x + "\n```", opening) == x
  {
    var s := x + "\n```";
    StripEnds(x);
    ClosedLayout(x);
    StripTrimmed(s);
    CloseStartAt(s, 0, |x|);
  }

  /** Where the pieces of an opening fence followed by text lie. */
  lemma OpenedLayout(opening: string, b: string)
    requires b != []
    ensures var s := opening + "\n" + b;
      var n := |opening|;
      |s| == n + 1 + |b| && s[..n] == opening && s[n] == '\n' && s[n + 1] == b[0] &&
      s[|s| - 1] == b[|b| - 1] && s[n + 1..] == b
  {
    var s := opening + "\n" + b;
    assert s == opening + ("\n" + b);
  }

  /** Text that opens with `opening` and does not end with a fence loses the opening
      fence and the whitespace after it. */
  lemma UnfenceOpening(b: string, opening: string)
    requires b != [] && Strip(b) == b && !EndsWith(b, "```") && opening != [] && opening[0] == '`'
    ensures Unfence(opening + "\n" + b, opening) == b
  {
    var s := opening + "\n" + b;
    var n := |opening|;
    StripEnds(b);
    OpenedLayout(opening, b);
    StripTrimmed(s);
    OpenEndAt(s, opening);
    NoFenceAtEnd(s, b);
  }

  lemma NoFenceAtEnd(s: string, b: string)
    requires b != [] && !EndsWith(b, "```") && |s| >= |b| + 1 && s[|s| - |b|..] == b && s[|s| - |b| - 1] == '\n'
    ensures !EndsWith(s, "```")
  {
    if |b| >= 3 {
      assert s[|s| - 3..] == b[|b| - 3..];
    } else if |s| >= 3 {
      assert s[|s| - |b| - 1] == s[|s| - 3..][3 - |b| - 1];
    }
  }

  /** The model's usual answer, a body in a `json` fence, comes out as the body. */
  lemma StripFencesJson(b: string)
    requires b != [] && Strip(b) == b && !StartsWith(b, "```") && !EndsWith(b, "```")
    ensures StripFences("```json\n" + b + "\n```") == b
  {
    assert "```json\n" + b + "\n```" == "```json" + "\n" + b + "\n```";
    UnfenceBlock(b, "```json");
    StripFencesPlain(b);
  }

  /** A body in a bare fence comes out as the body too. */
  lemma StripFencesBare(b: string)
    requires b != [] && Strip(b) == b && !StartsWith(b, "```") && !EndsWith(b, "```")
    ensures StripFences("```\n" + b + "\n```") == b
  {
    var x := "```\n" + b;
    BareOpened(b);
    StripEnds(b);
    StripTrimmed(x);
    NotJsonFence(x, "\n```");
    UnfenceClosing(x, "```json");
    UnfenceOpening(b, "```");
  }

  lemma BareOpened(b: string)
    requires b != []
    ensures "```\n" + b == "```" + "\n" + b
    ensures ("```\n" + b)[0] == '`' && ("```\n" + b)[3] == '\n' && ("```\n" + b)[|b| + 3] == b[|b| - 1]
  {
  }

  lemma NotJsonFence(x: string, y: string)
    requires |x| >= 4 && x[3] == '\n'
    ensures !StartsWith(x + y, "```json")
  {
    assert (x + y)[3] == x[3];
  }

  // ---------------------------------------------------------------------------
  // Generating the themes

  /** The call to the model: the text of its reply, or the message of the exception
      the call raised. */
  type Model = string -> Result<string, string>

  /** `json.loads`: the parsed value, or `None` for a `JSONDecodeError`. */
  type Loads = string -> Option<Json>

  /** The dictionary returned for a failure, with an empty theme list. */
  function Failed(message: string): (r: Json)
    ensures r.JObj? && Lookup(r.members, "themes") == Some(JArr([]))
    ensures Lookup(r.members, "error") == Some(JStr(message))
  {
    JObj([("themes", JArr([])), ("error", JStr(message))])
  }

  /** The check made by the log line after parsing: the parsed value is a dictionary
      whose `themes` entry, if any, has a length. */
  function Logged(v: Json): (r: Result<Json, string>)
    ensures r.Success? <==> v.JObj? && Len(Get(v.members, "themes", JArr([]))).Success?
    ensures r.Success? ==> r.value == v
  {
    if !v.JObj? then Failure(NoAttributeGet(v))
    else match Len(Get(v.members, "themes", JArr([])))
      case Failure(e) => Failure(e)
      case Success(_) => Success(v)
  }

  /** The dictionary returned when the cleaned reply does not parse. */
  function Unparsed(raw: string): (r: Json)
    ensures r.JObj? && Lookup(r.members, "themes") == Some(JArr([]))
    ensures Lookup(r.members, "error") == Some(JStr("Failed to parse themes from model response"))
    ensures Lookup(r.members, "raw_response") == Some(JStr(raw))
  {
    var m := [("themes", JArr([])), ("error", JStr("Failed to parse themes from model response")),
              ("raw_response", JStr(raw))];
    assert m[..2] == [m[0], m[1]] && m[..2][..1] == [m[0]];
    JObj(m)
  }

  /** `_generate_themes` on the context: the model's reply, stripped of fences and
      parsed; a reply that does not parse gives an error with the cleaned reply, and
      any other failure an error with its message. */
  function GenerateThemes(context: string, model: Model, loads: Loads): (r: Json)
    ensures r.JObj?
    ensures model(context).Failure? ==> r == Failed("Error generating themes: " + model(context).error)
    ensures model(context).Success? && loads(StripFences(model(context).value)).None? ==>
      r == Unparsed(StripFences(model(context).value))
    ensures model(context).Success? && loads(StripFences(model(context).value)).Some? ==>
      var v := loads(StripFences(model(context).value)).value;
      r == if Logged(v).Success? then v else Failed("Error generating themes: " + Logged(v).error)
  {
    match model(context)
    case Failure(e) => Failed("Error generating themes: " + e)
    case Success(text) =>
      var cleaned := StripFences(text);
      match loads(cleaned)
      case None => Unparsed(cleaned)
      case Some(v) =>
        match Logged(v)
        case Failure(e) => Failed("Error generating themes: " + e)
        case Success(themes) => themes
  }

  /** What the reply may be: the model's own dictionary, or a dictionary with an
      empty theme list and an error. */
  lemma GeneratedShape(context: string, model: Model, loads: Loads)
    ensures var r := GenerateThemes(context, model, loads);
      (model(context).Success? && loads(StripFences(model(context).value)) == Some(r)) ||
      (Lookup(r.members, "themes") == Some(JArr([])) && Lookup(r.members, "error").Some?)
  {
  }

  /** `identify_themes`: no results give an empty theme list and a message, without
      calling the model; otherwise the themes generated for the prepared context. */
  method IdentifyThemes(hits: seq<Hit>, query: string, model: Model, loads: Loads) returns (r: Json)
    ensures hits == [] ==>
      r == JObj([("themes", JArr([])), ("message", JStr("No documents found to identify themes."))])
    ensures hits != [] ==> r == GenerateThemes(Context(hits, query), model, loads)
  {
    if hits == [] {
      return JObj([("themes", JArr([])), ("message", JStr("No documents found to identify themes."))]);
    }
    var context := PrepareContext(hits, query);
    r := GenerateThemes(context, model, loads);
  }
}
