/** The summarize route (src/app/api/summarize/route.ts): the POST handler's validation,
    the combined text of the first ten results, and the template summary built from it. */
module Summarize {
  import opened Options
  import opened JsString
  import opened Ranking
  import opened Keywords

  /** One search result as the client posts it. */
  datatype SearchResult = SearchResult(title: string, url: string, content: string)

  // ---------------------------------------------------------------------------
  // the combined text (lines 21-24)

  const MaxSources: nat := 10

  /** Line 23: the title in lenticular brackets, a newline, then the content. */
  function RenderResult(r: SearchResult): string
  {
    "【" + r.title + "】\n" + r.content
  }

  function RenderAll(results: seq<SearchResult>): (rendered: seq<string>)
    ensures |rendered| == |results|
    ensures forall i :: 0 <= i < |rendered| ==> rendered[i] == RenderResult(results[i])
  {
    seq(|results|, i requires 0 <= i < |results| => RenderResult(results[i]))
  }

  /** Lines 21-24: the first ten results, rendered and separated by blank lines. */
  function CombinedContent(results: seq<SearchResult>): (r: string)
    ensures r == "" <==> |results| == 0
    ensures |results| > 0 ==> RenderResult(results[0]) <= r
  {
    JoinEnds(RenderAll(Slice(results, 0, MaxSources)), "\n\n");
    Join(RenderAll(Slice(results, 0, MaxSources)), "\n\n")
  }

  /** Each of the first ten results appears in the combined text, title and content. */
  lemma CombinedContentHasSource(results: seq<SearchResult>, i: nat)
    requires i < Min(|results|, MaxSources)
    ensures IsInfix(RenderResult(results[i]), CombinedContent(results))
  {
    JoinContains(RenderAll(Slice(results, 0, MaxSources)), "\n\n", i);
  }

  /** Results after the tenth are never read. */
  lemma CombinedContentFirstTen(results: seq<SearchResult>, more: seq<SearchResult>)
    requires |results| >= MaxSources
    ensures CombinedContent(results + more) == CombinedContent(results)
  {
    assert Slice(results + more, 0, MaxSources) == Slice(results, 0, MaxSources);
  }

  // ---------------------------------------------------------------------------
  // sentences (lines 49-53)

  /** The class [。！？\n] the text is split on. */
  predicate IsSentenceBreak(c: char)
  {
    c == '。' || c == '！' || c == '？' || c == '\n'
  }

  const MaxSentences: nat := 15

  /** Line 52: a sentence is kept when it is longer than ten code units. */
  predicate IsLongSentence(s: string)
  {
    |s| > 10
  }

  function TrimAll(pieces: seq<string>): (r: seq<string>)
    ensures |r| == |pieces| && forall i :: 0 <= i < |r| ==> r[i] == Trim(pieces[i])
  {
    seq(|pieces|, i requires 0 <= i < |pieces| => Trim(pieces[i]))
  }

  /** The trimmed pieces between sentence breaks. */
  function Phrases(content: string): (ps: seq<string>)
    ensures forall i :: 0 <= i < |ps| ==> IsTrimmed(ps[i]) && NoneOf(ps[i], IsSentenceBreak)
  {
    var pieces := Split(content, IsSentenceBreak);
    forall i | 0 <= i < |pieces| ensures NoneOf(Trim(pieces[i]), IsSentenceBreak) {
      TrimKeepsNoneOf(pieces[i], IsSentenceBreak);
    }
    TrimAll(pieces)
  }

  /** Lines 49-53: at most fifteen sentences, each trimmed, longer than ten code units and
      free of sentence breaks. */
  function Sentences(content: string): (ss: seq<string>)
    ensures |ss| <= MaxSentences
    ensures forall i :: 0 <= i < |ss| ==>
              IsLongSentence(ss[i]) && IsTrimmed(ss[i]) && NoneOf(ss[i], IsSentenceBreak)
  {
    var phrases := Phrases(content);
    var long := Filter(phrases, IsLongSentence);
    FilterPreserves(phrases, IsLongSentence, (x: string) => IsTrimmed(x) && NoneOf(x, IsSentenceBreak));
    Slice(long, 0, MaxSentences)
  }

  /** The sentences keep their order in the text. */
  lemma SentencesInOrder(content: string)
    ensures IsSubsequence(Sentences(content), Phrases(content))
  {
    var long := Filter(Phrases(content), IsLongSentence);
    FilterIsSubsequence(Phrases(content), IsLongSentence);
    SubsequencePrefix(long, Phrases(content), Min(MaxSentences, |long|));
    assert Sentences(content) == long[..Min(MaxSentences, |long|)];
  }

  /** The sentences are the first fifteen long phrases, or all of them when there are
      fewer, with a repeated phrase kept as often as it occurs. */
  lemma SentencesFirstLong(content: string)
    ensures var long := Filter(Phrases(content), IsLongSentence);
            |Sentences(content)| == Min(MaxSentences, |long|)
            && Sentences(content) == long[..|Sentences(content)|]
    ensures var long := Filter(Phrases(content), IsLongSentence);
            |long| <= MaxSentences ==>
              forall p :: multiset(Sentences(content))[p] ==
                            if IsLongSentence(p) then multiset(Phrases(content))[p] else 0
  {
    var long := Filter(Phrases(content), IsLongSentence);
    var ss := Sentences(content);
    assert ss == Slice(long, 0, MaxSentences);
    assert ss == long[..|ss|];
    if |long| <= MaxSentences {
      SliceAll(long, MaxSentences);
      FilterCounts(Phrases(content), IsLongSentence);
    }
  }

  // ---------------------------------------------------------------------------
  // the numbered key points (line 60)

  const MaxPoints: nat := 5
  const ExcerptLength: nat := 150

  /** `sentence.substring(0, 150)`, with "..." when the sentence is longer. */
  function Excerpt(s: string): (e: string)
    ensures |s| <= ExcerptLength ==> e == s
    ensures |s| > ExcerptLength ==>
              |e| == ExcerptLength + 3 && e[..ExcerptLength] == s[..ExcerptLength] && e[ExcerptLength..] == "..."
  {
    Slice(s, 0, ExcerptLength) + (if |s| > ExcerptLength then "..." else "")
  }

  /** Point `i` (from 0): its number from 1, a period, a space and the excerpt. */
  function PointLine(i: nat, s: string): string
  {
    NatToDecimal(i + 1) + ". " + Excerpt(s)
  }

  function PointLines(ss: seq<string>): (lines: seq<string>)
    ensures |lines| == |ss| && forall i :: 0 <= i < |lines| ==> lines[i] == PointLine(i, ss[i])
  {
    seq(|ss|, i requires 0 <= i < |ss| => PointLine(i, ss[i]))
  }

  /** The first five sentences as numbered lines. */
  function KeyPoints(ss: seq<string>): (r: string)
    ensures r == "" <==> |ss| == 0
    ensures |ss| > 0 ==> "1. " <= r
  {
    JoinEnds(PointLines(Slice(ss, 0, MaxPoints)), "\n");
    Join(PointLines(Slice(ss, 0, MaxPoints)), "\n")
  }

  /** The number of digits at the front of `s`. */
  function DigitRun(s: string): (n: nat)
    ensures n <= |s| && AllDigits(s[..n])
    ensures n < |s| ==> !IsDigit(s[n])
  {
    if |s| > 0 && IsDigit(s[0]) then
      var n := 1 + DigitRun(s[1..]);
      assert forall k :: 1 <= k < n ==> s[..n][k] == s[1..][..n - 1][k - 1];
      n
    else 0
  }

  /** Reads a point line back: its index from 0 and its text. */
  function ParsePointLine(line: string): Option<(nat, string)>
  {
    var n := DigitRun(line);
    if n >= 1 && n + 2 <= |line| && line[n..n + 2] == ". " && DecimalValue(line[..n]) >= 1 then
      Some((DecimalValue(line[..n]) - 1, line[n + 2..]))
    else None
  }

  /** ParsePointLine undoes PointLine. */
  lemma PointLineRoundTrip(i: nat, s: string)
    ensures ParsePointLine(PointLine(i, s)) == Some((i, Excerpt(s)))
  {
    var d := NatToDecimal(i + 1);
    var line := PointLine(i, s);
    var t := ". " + Excerpt(s);
    assert line == d + t;
    DigitRunStops(d, t);
    assert line[..|d|] == d;
    assert line[|d|..|d| + 2] == ". ";
    assert line[|d| + 2..] == Excerpt(s);
    DecimalRoundTrip(i + 1);
  }

  lemma {:induction false} DigitRunStops(d: string, t: string)
    requires AllDigits(d) && (t == [] || !IsDigit(t[0]))
    ensures DigitRun(d + t) == |d|
  {
    if |d| > 0 {
      assert (d + t)[0] == d[0];
      assert (d + t)[1..] == d[1..] + t;
      DigitRunStops(d[1..], t);
    } else {
      assert d + t == t;
    }
  }

  predicate IsNewline(c: char)
  {
    c == '\n'
  }

  lemma PointLineHasNoNewline(i: nat, s: string)
    requires NoneOf(s, IsNewline)
    ensures NoneOf(PointLine(i, s), IsNewline)
  {
    var d := NatToDecimal(i + 1);
    assert NoneOf(d, IsNewline) by {
      forall k | 0 <= k < |d| ensures !IsNewline(d[k]) {
        assert IsDigit(d[k]);
      }
    }
    var cut := Slice(s, 0, ExcerptLength);
    assert NoneOf(cut, IsNewline) by {
      forall k | 0 <= k < |cut| ensures !IsNewline(cut[k]) {
        assert cut[k] == s[k];
      }
    }
    var dots: string := if |s| > ExcerptLength then "..." else "";
    assert NoneOf(dots, IsNewline);
    NoneOfConcat(cut, dots, IsNewline);
    assert NoneOf(". ", IsNewline);
    NoneOfConcat(d, ". ", IsNewline);
    NoneOfConcat(d + ". ", Excerpt(s), IsNewline);
  }

  /** The key points are one line per sentence, up to five, each reading back as its
      number and its sentence's excerpt. */
  lemma KeyPointsRoundTrip(ss: seq<string>)
    requires |ss| >= 1
    requires forall i :: 0 <= i < |ss| ==> NoneOf(ss[i], IsNewline)
    ensures |Split(KeyPoints(ss), IsNewline)| == Min(|ss|, MaxPoints)
    ensures forall i :: 0 <= i < Min(|ss|, MaxPoints) ==>
              ParsePointLine(Split(KeyPoints(ss), IsNewline)[i]) == Some((i, Excerpt(ss[i])))
  {
    var lines := PointLines(Slice(ss, 0, MaxPoints));
    forall i | 0 <= i < |lines| ensures NoneOf(lines[i], IsNewline) {
      PointLineHasNoNewline(i, ss[i]);
    }
    SplitJoin(lines, '\n', IsNewline);
    forall i | 0 <= i < Min(|ss|, MaxPoints)
      ensures ParsePointLine(Split(KeyPoints(ss), IsNewline)[i]) == Some((i, Excerpt(ss[i])))
    {
      PointLineRoundTrip(i, ss[i]);
    }
  }

  // ---------------------------------------------------------------------------
  // the keyword line (line 59)

  const KeywordLabel: string := "主要キーワード: "

  predicate IsIdeographicComma(c: char)
  {
    c == '、'
  }

  /** The keywords after their label, separated by ideographic commas, then a blank line;
      nothing when there are no keywords. */
  function KeywordBlock(kws: seq<string>): (r: string)
    ensures r == "" <==> |kws| == 0
    ensures |kws| > 0 ==> KeywordLabel + kws[0] <= r && |r| >= 2 && r[|r| - 2..] == "\n\n"
  {
    JoinEnds(kws, "、");
    if |kws| > 0 then KeywordLabel + Join(kws, "、") + "\n\n" else ""
  }

  /** The block is empty exactly when there are no keywords, and otherwise splits back into
      them. */
  lemma KeywordBlockRoundTrip(kws: seq<string>)
    requires forall i :: 0 <= i < |kws| ==> NoneOf(kws[i], IsIdeographicComma)
    ensures KeywordBlock(kws) == "" <==> kws == []
    ensures kws != [] ==>
              var b := KeywordBlock(kws);
              |KeywordLabel| + 2 <= |b| && b[..|KeywordLabel|] == KeywordLabel
              && Split(b[|KeywordLabel|..|b| - 2], IsIdeographicComma) == kws
  {
    if kws != [] {
      var b := KeywordBlock(kws);
      var j := Join(kws, "、");
      assert b == KeywordLabel + j + "\n\n";
      assert b[..|KeywordLabel|] == KeywordLabel;
      assert b[|KeywordLabel|..|b| - 2] == j;
      SplitJoin(kws, '、', IsIdeographicComma);
    }
  }

  /** The keyword line lists exactly the extracted keywords. */
  lemma SummaryKeywords(query: string, content: string)
    ensures var kws := KeyTerms(query, content);
            var b := KeywordBlock(kws);
            (b == "" <==> kws == [])
            && (kws != [] ==> |KeywordLabel| + 2 <= |b| && Split(b[|KeywordLabel|..|b| - 2], IsIdeographicComma) == kws)
  {
    var kws := KeyTerms(query, content);
    KeyTermsAreWords(query, content);
    forall i | 0 <= i < |kws| ensures NoneOf(kws[i], IsIdeographicComma) {
      assert kws[i] in kws;
      WordHasNoComma(kws[i]);
    }
    KeywordBlockRoundTrip(kws);
  }

  /** 、 is not a word character. */
  lemma WordHasNoComma(w: string)
    requires AllOf(w, IsWordChar)
    ensures NoneOf(w, IsIdeographicComma)
  {
    forall k | 0 <= k < |w| ensures !IsIdeographicComma(w[k]) {
      assert IsWordChar(w[k]);
    }
  }

  // ---------------------------------------------------------------------------
  // further sentences (line 62)

  const OthersLabel: string := "\nその他の関連情報として、"

  predicate IsFullStop(c: char)
  {
    c == '。'
  }

  /** Sentences six to ten after their label, each closed by an ideographic full stop;
      nothing when there are at most five sentences. */
  function OthersBlock(ss: seq<string>): (r: string)
    ensures r == "" <==> |ss| <= MaxPoints
    ensures |ss| > MaxPoints ==> OthersLabel + ss[MaxPoints] <= r && r[|r| - 1] == '。'
  {
    JoinEnds(Slice(ss, MaxPoints, 2 * MaxPoints), "。");
    if |ss| > MaxPoints then OthersLabel + Join(Slice(ss, MaxPoints, 2 * MaxPoints), "。") + "。" else ""
  }

  /** The block is empty exactly when there are at most five sentences, and otherwise
      splits back into sentences six to ten, with the empty piece after the last stop. */
  lemma OthersBlockRoundTrip(ss: seq<string>)
    requires forall i :: 0 <= i < |ss| ==> NoneOf(ss[i], IsFullStop)
    ensures OthersBlock(ss) == "" <==> |ss| <= MaxPoints
    ensures |ss| > MaxPoints ==>
              var b := OthersBlock(ss);
              |OthersLabel| <= |b| && b[..|OthersLabel|] == OthersLabel
              && Split(b[|OthersLabel|..], IsFullStop) == Slice(ss, MaxPoints, 2 * MaxPoints) + [""]
  {
    if |ss| > MaxPoints {
      var more := Slice(ss, MaxPoints, 2 * MaxPoints);
      var b := OthersBlock(ss);
      var j := Join(more, "。");
      assert b == OthersLabel + (j + "。");
      assert b[..|OthersLabel|] == OthersLabel;
      assert b[|OthersLabel|..] == j + "。";
      JoinAppendEmpty(more, "。");
      assert NoneOf("", IsFullStop);
      SplitJoin(more + [""], '。', IsFullStop);
    }
  }

  // ---------------------------------------------------------------------------
  // the summary (lines 57-67)

  function Heading(query: string): string
  {
    "「" + query + "」に関する検索結果のサマリ：\n\n"
  }

  const PointsLabel: string := "重要なポイント:\n"

  function Footer(date: string): string
  {
    "\n\nこの情報は" + date + "時点での検索結果に基づいています。"
  }

  /** Lines 57-64: the template filled in. */
  function Compose(query: string, kws: seq<string>, ss: seq<string>, date: string): (r: string)
    ensures Heading(query) <= r
  {
    Heading(query) + Body(kws, ss, date)
  }

  /** Everything after the heading. */
  function Body(kws: seq<string>, ss: seq<string>, date: string): (r: string)
    ensures KeywordBlock(kws) + PointsLabel <= r
  {
    Middle(kws, ss) + Footer(date)
  }

  /** The keyword block, the numbered points and the further sentences. */
  function Middle(kws: seq<string>, ss: seq<string>): (r: string)
    ensures KeywordBlock(kws) + PointsLabel <= r
  {
    KeywordBlock(kws) + PointsLabel + KeyPoints(ss) + "\n\n" + OthersBlock(ss)
  }

  /** The filled template closes with the line that names the date. */
  lemma ComposeClosesWithDate(query: string, kws: seq<string>, ss: seq<string>, date: string)
    ensures var r, f := Compose(query, kws, ss, date), Footer(date);
            |f| <= |r| && r[|r| - |f|..] == f
  {
    ClosesWith(Heading(query), Middle(kws, ss), Footer(date));
  }

  lemma ClosesWith(h: string, m: string, f: string)
    ensures |f| <= |h + (m + f)| && (h + (m + f))[|h + (m + f)| - |f|..] == f
  {
    assert (h + (m + f))[|h| + |m|..] == f;
  }

  const MaxSummaryLength: nat := 500

  /** Line 67: a text longer than 500 code units is cut to 497 and ends in "...". */
  function Cap(t: string): (r: string)
    ensures |r| <= MaxSummaryLength
    ensures r == t <==> |t| <= MaxSummaryLength
    ensures r[..Min(|r|, MaxSummaryLength - 3)] == t[..Min(|t|, MaxSummaryLength - 3)]
    ensures |t| > MaxSummaryLength ==> |r| == MaxSummaryLength && r[MaxSummaryLength - 3..] == "..."
  {
    if |t| > MaxSummaryLength then t[..MaxSummaryLength - 3] + "..." else t
  }

  /** Capping twice is capping once. */
  lemma CapIdempotent(t: string)
    ensures Cap(Cap(t)) == Cap(t)
  {
  }

  /** `generateSummary(query, content)` on the date `date`. */
  function Summary(query: string, content: string, date: string): string
  {
    Cap(Compose(query, KeyTerms(query, content), Sentences(content), date))
  }

  /** Lines 45-68. */
  method GenerateSummary(query: string, content: string, date: string) returns (summary: string)
    ensures summary == Summary(query, content, date)
  {
    var sentences := Sentences(content);
    var keyTerms := ExtractKeyTerms(query, content);
    summary := Cap(Compose(query, keyTerms, sentences, date));
  }

  /** Capping keeps a prefix that fits before the cut. */
  lemma CapKeepsPrefix(t: string, n: nat)
    requires n <= |t| && n <= MaxSummaryLength - 3
    ensures Cap(t)[..n] == t[..n]
  {
    if |t| > MaxSummaryLength {
      assert Cap(t)[..n] == t[..MaxSummaryLength - 3][..n];
    }
  }

  /** The summary fits in 500 code units and opens with the heading naming the query when
      the heading fits before the cut. */
  lemma SummaryHeading(query: string, content: string, date: string)
    ensures |Summary(query, content, date)| <= MaxSummaryLength
    ensures |Heading(query)| <= MaxSummaryLength - 3 ==>
              Summary(query, content, date)[..|Heading(query)|] == Heading(query)
  {
    var t := Compose(query, KeyTerms(query, content), Sentences(content), date);
    if |Heading(query)| <= MaxSummaryLength - 3 {
      CapKeepsPrefix(t, |Heading(query)|);
    }
  }

  /** Every summary sentence is free of newlines and full stops, so the key points and the
      further sentences read back from the summary's template. */
  lemma SummarySentenceBlocks(content: string)
    ensures var ss := Sentences(content);
            (OthersBlock(ss) == "" <==> |ss| <= MaxPoints)
            && (|ss| >= 1 ==> |Split(KeyPoints(ss), IsNewline)| == Min(|ss|, MaxPoints))
  {
    var ss := Sentences(content);
    forall i | 0 <= i < |ss| ensures NoneOf(ss[i], IsNewline) && NoneOf(ss[i], IsFullStop) {
      forall k | 0 <= k < |ss[i]| ensures !IsNewline(ss[i][k]) && !IsFullStop(ss[i][k]) {
        assert !IsSentenceBreak(ss[i][k]);
      }
    }
    OthersBlockRoundTrip(ss);
    if |ss| >= 1 {
      KeyPointsRoundTrip(ss);
    }
  }

  // ---------------------------------------------------------------------------
  // the POST handler (lines 9-33)

  const MissingInputMessage: string := "クエリと検索結果が必要です"

  /** The JSON the handler answers with. */
  datatype Response =
    | Failure(status: nat, error: string)
    | Summarised(summary: string, query: string, sourceCount: nat)

  /** Line 13: a missing or empty query, or missing or empty results. */
  predicate IsMissingInput(query: Option<string>, results: Option<seq<SearchResult>>)
  {
    query.None? || query.value == "" || results.None? || results.value == []
  }

  /** Lines 9-33, on the parsed body and the date of the request. */
  method Post(query: Option<string>, results: Option<seq<SearchResult>>, date: string) returns (response: Response)
    ensures response.Failure? <==> IsMissingInput(query, results)
    ensures response.Failure? ==> response.status == 400 && response.error == MissingInputMessage
    ensures response.Summarised? ==>
              response.query == query.value
              && response.sourceCount == |results.value|
              && response.summary == Summary(query.value, CombinedContent(results.value), date)
  {
    if IsMissingInput(query, results) {
      return Failure(400, MissingInputMessage);
    }
    var combined := CombinedContent(results.value);
    var summary := GenerateSummary(query.value, combined, date);
    response := Summarised(summary, query.value, |results.value|);
  }
}
