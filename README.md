# Search summariser core, in Dafny

This project models two server routes of a Next.js search application and proves
properties of the model.

- **The summarize route** (`src/app/api/summarize/route.ts`). Its POST handler checks that
  a query and a non-empty list of search results were posted. It joins the first ten
  results into one text, each as `【title】` followed by its content. It then builds a
  template summary from that text:
  - a heading that names the query;
  - up to five keywords: words of three or more word characters that occur more than
    twice, excluding the query's own terms;
  - the first five sentences as numbered points, each cut to 150 code units;
  - sentences six to ten on one line;
  - a line with the date.

  The whole summary is cut to 500 code units.
- **The API-key status route** (`src/app/api/settings/api-key-status/route.ts`). It
  classifies the search-service key found in the environment as one of: absent,
  the shipped placeholder, too short, or valid.

Files:

- `js_string.dfy` (module `JsString`): the String and Array builtins the routes use.
  - `trim`, `split` on a one-character class, `join`, `toLowerCase`, decimal numerals,
    and `slice`/`substring` with clamped bounds.
  - JavaScript strings are sequences of UTF-16 code units, one `char` each.
- `ranking.dfy` (module `Ranking`): `filter` and the stable `sort`, as an insertion sort
  that puts the largest key first.
- `key_terms.dfy` (module `Keywords`): `extractKeyTerms`. The frequency table is a plain
  object, and three object behaviours are modelled explicitly:
  - `Object.entries` lists array-index keys ("2024") first, in ascending numeric order,
    then every other key in creation order.
  - Counting the word "constructor" starts from the inherited `Object` constructor, so
    its value becomes a string and never passes `count > 2`.
  - Assigning to `frequency["__proto__"]` is ignored, so that word never becomes a key.
- `summarize.dfy` (module `Summarize`): the combined text, sentence splitting, the
  template blocks, the 500-unit cap, `generateSummary` and the POST handler.
- `api_key_status.dfy` (module `ApiKeyStatus`): the GET classifier.
- `options.dfy` (module `Options`): an optional value, used for a missing JSON field or
  an unset environment variable.

The counting loop of `extractKeyTerms` (lines 77-80) is modelled as a method with a
`while` loop, `Keywords.CountFrequencies`. Its contract ties the loop's result to two
specification functions: `KeyOrder`, the order in which keys are created, and
`Frequency`, the final table. `generateSummary` and the POST handler are methods because
they call it. Everything else is a function.

A result with no title or content interpolates the missing value, which yields the text
"undefined". The model takes every result field as a string, so this case does not arise
(see "Left out").

Three concepts are defined twice: `KeyTerms` and the method `ExtractKeyTerms`, `Summary`
and the method `GenerateSummary`, and `SortedPool` and `RankedEntries`. This is because
counting is a method (`CountFrequencies`), and a function cannot call a method.
`ExtractKeyTerms` ranks the table the counting method returns, with `RankedEntries`.
`GenerateSummary` calls `ExtractKeyTerms`. The lemmas reason about the function versions
(`KeyTerms`, `Summary` and `SortedPool`), which are built from `KeyOrder` and `Frequency`.
`ExtractKeyTerms` and `GenerateSummary` each promise to equal their function version, and
`RankedEntriesArePool` equates `RankedEntries` with the first five of `SortedPool`.

## Model

| member | source | states |
|---|---|---|
| JsString.Trim | src/app/api/summarize/route.ts:51 | `s.trim()` is the infix of `s` whose ends are not white space and whose margins are all ECMAScript white space or line terminators |
| JsString.Split | src/app/api/summarize/route.ts:50 | splitting on a one-character class gives one more piece than there are separators, and no piece holds a separator |
| JsString.SplitRoundTrip | src/app/api/summarize/route.ts:50 | putting the separators back between the pieces rebuilds the text, so splitting loses nothing |
| JsString.SplitJoin | src/app/api/summarize/route.ts:59-62 | `join` with a one-character separator that no part contains is undone by splitting on that character |
| JsString.JoinContains | src/app/api/summarize/route.ts:21-24 | every part occurs in the joined text |
| JsString.JoinEnds | src/app/api/summarize/route.ts:24 | `join` of no parts is empty; otherwise the joined text opens with the first part and closes with the last |
| JsString.Slice | src/app/api/summarize/route.ts:22 | `slice`/`substring` clamp both bounds to the length and return the elements from `start` on |
| JsString.NatToDecimal | src/app/api/summarize/route.ts:60 | `${index + 1}` is a canonical decimal numeral: digits only, no leading zero |
| JsString.DecimalRoundTrip | src/app/api/summarize/route.ts:60 | the numeral written for a number reads back as that number |
| JsString.ToLower | src/app/api/summarize/route.ts:78 | `toLowerCase` keeps the length and maps each code unit on its own, A-Z to a-z and every other unit to itself |
| JsString.ToLowerIdempotent | src/app/api/summarize/route.ts:78 | a lowercased word has no A-Z left, so lowercasing it again changes nothing |
| Ranking.Filter | src/app/api/summarize/route.ts:52 | `filter` keeps only elements the predicate accepts and adds none (a sub-multiset) |
| Ranking.FilterIsSubsequence | src/app/api/summarize/route.ts:52 | `filter` keeps the elements in their original order |
| Ranking.FilterCounts | src/app/api/summarize/route.ts:52 | `filter` keeps each accepted element as many times as it occurs and drops every other |
| Ranking.SortDescending | src/app/api/summarize/route.ts:84 | the sort with comparator `b - a` returns a permutation of its input, ordered by non-increasing count |
| Ranking.SortStable | src/app/api/summarize/route.ts:84 | the sort is stable: the elements of each count keep their input order |
| Keywords.ContentWords | src/app/api/summarize/route.ts:73 | each matched word is at least three characters of the class `[\u3040-\u309F\u30A0-\u30FF\u4E00-\u9FAF\w]` |
| Keywords.RegexMatches | src/app/api/summarize/route.ts:73 | every match of the global scan is at least three characters of the word class |
| Keywords.ContentWordsMatchRegex | src/app/api/summarize/route.ts:73 | splitting at non-word characters and keeping pieces of length three or more gives exactly what the global match of `[...]{3,}` returns, in order |
| Keywords.QueryTerms | src/app/api/summarize/route.ts:72 | a string is a query term exactly when it is a piece of the query split at white space or ideographic space and is longer than one character; no term contains a separator |
| Keywords.QueryTermsCaseSensitive | src/app/api/summarize/route.ts:83 | exclusion compares exactly: the query "Tokyo" yields the term "Tokyo" and does not exclude the counted word "tokyo" |
| Keywords.KeyOrderSpec | src/app/api/summarize/route.ts:77-80 | the object's own keys are the lowercased words other than "__proto__", each once, in order of first occurrence |
| Keywords.FrequencyStep | src/app/api/summarize/route.ts:79 | one `(frequency[w] \|\| 0) + 1` step updates the table exactly at `w`, and does nothing for "__proto__" |
| Keywords.Incremented | src/app/api/summarize/route.ts:79 | `(frequency[w] \|\| 0) + 1` is a number exactly when the own value is a number, or there is no own value and `w` is neither "constructor" nor "__proto__"; that number is one more than the own value, or 1 |
| Keywords.CountFrequencies | src/app/api/summarize/route.ts:75-80 | the counting loop creates the keys in the order KeyOrder gives and leaves the table Frequency specifies: the occurrence count of each word, a string for "constructor", nothing for "__proto__" |
| Keywords.ArrayIndexIsNumeral | src/app/api/summarize/route.ts:82 | a key is an array index exactly when it is the decimal numeral of an integer below 2^32 - 1 |
| Keywords.IndexKeys | src/app/api/summarize/route.ts:82 | the array-index keys are listed in ascending numeric order |
| Keywords.EnumerationOrder | src/app/api/summarize/route.ts:82 | `Object.entries` lists every own key exactly once |
| Keywords.EnumerationOrderSpec | src/app/api/summarize/route.ts:82 | array-index keys come first, in ascending numeric order; the other keys follow in creation order |
| Keywords.PoolSound | src/app/api/summarize/route.ts:82-83 | every entry that passes the filter is a candidate (counted more than twice, not a query term, neither "constructor" nor "__proto__") and holds its occurrence count |
| Keywords.PoolComplete | src/app/api/summarize/route.ts:82-83 | every candidate passes the filter with its occurrence count |
| Keywords.ExtractKeyTerms | src/app/api/summarize/route.ts:70-87 | returns the words of the first five entries of the candidates, stably sorted by descending count |
| Keywords.KeyTermsSelected | src/app/api/summarize/route.ts:83-85 | at most five keywords are returned, each a candidate |
| Keywords.KeyTermsAreWords | src/app/api/summarize/route.ts:73-78 | every keyword is lowercase and is a run of at least three word characters |
| Keywords.KeyTermsRanked | src/app/api/summarize/route.ts:84 | keywords come in non-increasing order of occurrence count |
| Keywords.KeyTermsTopFive | src/app/api/summarize/route.ts:84-85 | if a candidate is left out, five keywords were returned, each occurring at least as often as it |
| Keywords.KeyTermsTieOrder | src/app/api/summarize/route.ts:82-85 | among keywords with equal counts, the returned ones are the first such candidates in `Object.entries` order |
| Summarize.CombinedContentHasSource | src/app/api/summarize/route.ts:21-24 | each of the first ten results appears in the combined text as `【title】`, a newline and its content |
| Summarize.CombinedContentFirstTen | src/app/api/summarize/route.ts:22 | results after the tenth do not change the combined text |
| Summarize.CombinedContent | src/app/api/summarize/route.ts:21-24 | the combined text is empty exactly when there are no results, and otherwise opens with the first result rendered as `【title】`, a newline and its content |
| Summarize.Sentences | src/app/api/summarize/route.ts:49-53 | at most fifteen sentences, each trimmed, longer than ten code units and free of 。！？ and newlines |
| Summarize.SentencesInOrder | src/app/api/summarize/route.ts:49-53 | the sentences are the trimmed pieces of the text, in text order, some left out |
| Summarize.SentencesFirstLong | src/app/api/summarize/route.ts:49-53 | the sentences are the first min(15, n) of the n long trimmed pieces, in order; when n ≤ 15 each long piece is kept as often as it occurs and nothing else is |
| Summarize.Excerpt | src/app/api/summarize/route.ts:60 | a sentence of at most 150 code units is kept whole; a longer one becomes its first 150 code units followed by "..." |
| Summarize.PointLineRoundTrip | src/app/api/summarize/route.ts:60 | a point line reads back as its index and its sentence's excerpt |
| Summarize.KeyPointsRoundTrip | src/app/api/summarize/route.ts:60 | the key points are one line for each of the first five sentences, line `i` reading back as number `i + 1` and sentence `i`'s excerpt |
| Summarize.KeyPoints | src/app/api/summarize/route.ts:60 | the key points are empty exactly when there are no sentences, and otherwise open with "1. " |
| Summarize.KeywordBlockRoundTrip | src/app/api/summarize/route.ts:59 | the keyword block is empty exactly when there are no keywords; otherwise it opens with its label and splits on 、 back into the keywords |
| Summarize.KeywordBlock | src/app/api/summarize/route.ts:59 | the keyword block is empty exactly when there are no keywords; otherwise it opens with the label and the first keyword and ends with a blank line |
| Summarize.SummaryKeywords | src/app/api/summarize/route.ts:55-59 | the summary's keyword block lists exactly the extracted keywords, since none contains 、 |
| Summarize.OthersBlockRoundTrip | src/app/api/summarize/route.ts:62 | the further-information block is empty exactly when there are at most five sentences; otherwise it splits on 。 back into sentences six to ten, plus the empty piece after the closing 。 |
| Summarize.OthersBlock | src/app/api/summarize/route.ts:62 | the further-information block is empty exactly when there are at most five sentences; otherwise it opens with its label and the sixth sentence and ends with 。 |
| Summarize.SummarySentenceBlocks | src/app/api/summarize/route.ts:60-62 | for the sentences of any text, the points have min(n, 5) lines and the further-information block is empty exactly when n ≤ 5 |
| Summarize.Compose | src/app/api/summarize/route.ts:57-58 | the filled template opens with the heading `「query」に関する検索結果のサマリ：` and a blank line |
| Summarize.ComposeClosesWithDate | src/app/api/summarize/route.ts:62-64 | the filled template closes with the line naming the date, after a blank line |
| Summarize.Body | src/app/api/summarize/route.ts:59 | after the heading come the keyword block, when there is one, and then the points label |
| Summarize.Cap | src/app/api/summarize/route.ts:67 | a text of at most 500 code units is returned unchanged, and only then; a longer one becomes exactly 500 code units, its first 497 followed by "..." |
| Summarize.CapKeepsPrefix | src/app/api/summarize/route.ts:67 | capping keeps every prefix of at most 497 code units |
| Summarize.CapIdempotent | src/app/api/summarize/route.ts:67 | capping a capped text changes nothing |
| Summarize.SummaryHeading | src/app/api/summarize/route.ts:57-67 | the summary has at most 500 code units and opens with the query's heading when that heading fits before the cut |
| Summarize.GenerateSummary | src/app/api/summarize/route.ts:45-68 | returns the capped template filled with the keywords, the sentences and the date |
| Summarize.Post | src/app/api/summarize/route.ts:9-33 | answers status 400 with "クエリと検索結果が必要です" exactly when the query is missing or empty or the results are missing or empty; otherwise it answers the summary of the combined first ten results, the query, and the count of all results |
| ApiKeyStatus.CheckKey | src/app/api/settings/api-key-status/route.ts:5-32 | the key is valid exactly when it is set, differs from "your_tavily_api_key_here" and has at least ten code units; otherwise the message names the first failed check: not set, placeholder, or malformed |
| ApiKeyStatus.PlaceholderPassesLengthCheck | src/app/api/settings/api-key-status/route.ts:14-27 | the placeholder is long enough to pass the length check, so only the explicit comparison rejects it |
| ApiKeyStatus.MessageIdentifiesCase | src/app/api/settings/api-key-status/route.ts:7-32 | the four messages differ, so two keys with the same message get the same answer |

## Left out

- The Next.js request and response objects, JSON parsing and `console.error` logging.
  The handlers take the parsed body fields and return the JSON payload as a datatype.
- Both `catch` branches: the summarize route's 500 answer and the key route's `error`
  status. Exceptions are not modelled. They arise, for example, from an unparsable body,
  a non-string query, or a non-array `results`. The model's query is an optional string
  and its results an optional sequence.
- Result fields that are missing or not strings. In the code these interpolate as
  "undefined" or their string form. The model's `SearchResult` holds three strings. The
  `url` field is never read.
- `new Date().toLocaleDateString('ja-JP')`: the date text is a parameter of
  `Summarize.Summary`, `Summarize.GenerateSummary` and `Summarize.Post`.
- `process.env.TAVILY_API_KEY`: the value is the parameter of `ApiKeyStatus.CheckKey`.
  `None` stands for an unset variable.
- Characters outside the Basic Multilingual Plane, such as emoji and CJK Extension B
  ideographs. JavaScript holds each as two surrogate code units, and a Dafny `char`
  (a Unicode scalar value) can hold neither half. The model's strings therefore stand
  only for text made of Basic Multilingual Plane characters, one `char` per code unit.
  For other text the model does not capture:
  - lengths that count such a character twice;
  - `\w` and the kana/CJK ranges seeing two surrogates, which match neither;
  - `substring(0, 150)` and `substring(0, 497)` cutting a pair in half.
  A lone surrogate cannot be represented either.
- `toLowerCase` is modelled on A-Z only. It is applied only to matched words, whose other
  characters (digits, `_`, kana, CJK ideographs) have no case.
- `split(/[\s　]+/)` is modelled as a split at each separator character. That differs only
  in the empty pieces it yields, and the `length > 1` filter drops those.
- `Array.prototype.sort` is specified to be stable, and the model uses one stable sort.
  Other stable algorithms give the same result, so which algorithm an engine uses does
  not matter.
- The user-interface pages, the search route and the settings storage are not part of
  this model.
