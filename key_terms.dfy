/** `extractKeyTerms` (src/app/api/summarize/route.ts, lines 70-87): the keywords of the
    combined search results, ranked by how often they occur, without the query's own words.

    The frequency table is a plain JavaScript object, and two properties of such objects
    decide what the function returns:
    - `Object.entries` lists array-index keys ("2024", "100") first, in ascending numeric
      order, and every other key after them in the order it was created; the stable sort by
      count keeps that order among equal counts.
    - the object inherits from Object.prototype: reading `frequency["constructor"]` finds
      the Object constructor, so the stored value becomes a string and never passes
      `count > 2`; assigning a number to `frequency["__proto__"]` is ignored, so that word
      never becomes a key at all. */
module Keywords {
  import opened JsString
  import opened Ranking

  // ---------------------------------------------------------------------------
  // the words of the combined text (line 73)

  /** The character class [\u3040-\u309F\u30A0-\u30FF\u4E00-\u9FAF\w]; without the `u`
      flag `\w` is [A-Za-z0-9_]. */
  predicate IsWordChar(c: char)
  {
    || ('\U{3040}' <= c <= '\U{309F}') || ('\U{30A0}' <= c <= '\U{30FF}')
    || ('\U{4E00}' <= c <= '\U{9FAF}')
    || ('A' <= c <= 'Z') || ('a' <= c <= 'z') || ('0' <= c <= '9') || c == '_'
  }

  predicate IsNonWordChar(c: char)
  {
    !IsWordChar(c)
  }

  predicate IsLongWord(w: string)
  {
    |w| >= 3
  }

  /** The maximal runs of word characters that are at least three long, in text order. */
  function ContentWords(content: string): (words: seq<string>)
    ensures forall i :: 0 <= i < |words| ==> |words[i]| >= 3 && AllOf(words[i], IsWordChar)
  {
    var pieces := Split(content, IsNonWordChar);
    var words := Filter(pieces, IsLongWord);
    assert forall i :: 0 <= i < |words| ==> words[i] in multiset(pieces);
    words
  }

  /** The number of word characters at the front of `s`. */
  function RunLength(s: string): (n: nat)
    ensures n <= |s| && AllOf(s[..n], IsWordChar) && (n == |s| || !IsWordChar(s[n]))
  {
    if |s| > 0 && IsWordChar(s[0]) then
      var n := 1 + RunLength(s[1..]);
      assert forall k :: 1 <= k < n ==> s[..n][k] == s[1..][..n - 1][k - 1];
      n
    else 0
  }

  /** What `s.match(/[...]{3,}/g) || []` returns, as the regular-expression engine finds
      it: at each position it tries the greedy match; after a match it resumes where the
      match ended, after a failure one position further on. */
  function RegexMatches(s: string): (ms: seq<string>)
    ensures forall i :: 0 <= i < |ms| ==> |ms[i]| >= 3 && AllOf(ms[i], IsWordChar)
    decreases |s|
  {
    if |s| == 0 then []
    else
      var n := RunLength(s);
      if n >= 3 then [s[..n]] + RegexMatches(s[n..]) else RegexMatches(s[1..])
  }

  /** A failed attempt inside a short run moves the scan to the end of the run. */
  lemma {:induction false} SkipShortRun(s: string)
    requires RunLength(s) < 3
    ensures RegexMatches(s) == RegexMatches(s[RunLength(s)..])
  {
    var n := RunLength(s);
    if n > 0 {
      SkipShortRun(s[1..]);
      assert s[1..][n - 1..] == s[n..];
    } else {
      assert s[0..] == s;
    }
  }

  /** Splitting at non-word characters and keeping the long pieces finds exactly what the
      regular-expression scan finds. */
  lemma {:induction false} ContentWordsMatchRegex(content: string)
    ensures ContentWords(content) == RegexMatches(content)
    decreases |content|
  {
    var s := content;
    if |s| > 0 {
      var n := RunLength(s);
      var rest := s[n..];
      assert s == s[..n] + rest;
      SplitFreePrefix(s[..n], rest, IsNonWordChar);
      var restPieces := Split(rest, IsNonWordChar);
      if n == |s| {
        assert rest == [];
        assert Split(s, IsNonWordChar) == [s[..n] + ""] && s[..n] + "" == s;
        assert RegexMatches(rest) == [];
        assert [s][1..] == [];
        if n < 3 {
          SkipShortRun(s);
          assert RegexMatches(s) == [];
          assert !IsLongWord(s);
          assert Filter([s], IsLongWord) == Filter([s][1..], IsLongWord);
          assert ContentWords(s) == Filter([s], IsLongWord);
        } else {
          assert s[..n] == s && s[n..] == [];
          assert RegexMatches(s) == [s];
          assert ContentWords(s) == Filter([s], IsLongWord);
        }
      } else {
        assert IsNonWordChar(rest[0]);
        assert restPieces == [""] + Split(rest[1..], IsNonWordChar);
        var tail := Split(rest[1..], IsNonWordChar);
        assert Split(s, IsNonWordChar) == [s[..n]] + tail by {
          assert s[..n] + "" == s[..n];
        }
        FilterAppend([s[..n]], tail, IsLongWord);
        ContentWordsMatchRegex(rest[1..]);
        assert RegexMatches(rest) == RegexMatches(rest[1..]);
        if n < 3 {
          SkipShortRun(s);
        }
      }
    }
  }

  // ---------------------------------------------------------------------------
  // the query's own words (line 72)

  /** The class [\s　] (U+3000, the ideographic space, is white space already). */
  predicate IsQuerySeparator(c: char)
  {
    IsWhiteSpace(c) || c == '\U{3000}'
  }

  predicate IsQueryTerm(t: string)
  {
    |t| > 1
  }

  /** `query.split(/[\s　]+/).filter(term => term.length > 1)`. Splitting at each separator
      character rather than at each run of them only adds empty pieces, which the filter
      drops. */
  function QueryTerms(query: string): (terms: seq<string>)
    ensures forall t :: t in terms <==> t in Split(query, IsQuerySeparator) && |t| > 1
    ensures forall i :: 0 <= i < |terms| ==> |terms[i]| > 1 && NoneOf(terms[i], IsQuerySeparator)
  {
    var pieces := Split(query, IsQuerySeparator);
    var terms := Filter(pieces, IsQueryTerm);
    FilterMembers(pieces, IsQueryTerm);
    FilterPreserves(pieces, IsQueryTerm, (t: string) => NoneOf(t, IsQuerySeparator));
    terms
  }

  // ---------------------------------------------------------------------------
  // the frequency table (lines 75-80)

  const ProtoKey: string := "__proto__"
  const ConstructorKey: string := "constructor"

  /** A value held by the `frequency` object: a count, or the string that `+ 1` makes of
      the inherited Object constructor, which compares false with every number. */
  datatype Tally = Count(n: nat) | NotANumber

  /** `(frequency[w] || 0) + 1`: the own value plus one, else what the inherited
      "constructor" or "__proto__" member makes of `+ 1`, else 1. */
  function Incremented(table: map<string, Tally>, w: string): (t: Tally)
    ensures t.Count? <==> if w in table then table[w].Count? else w != ConstructorKey && w != ProtoKey
    ensures t.Count? ==> t.n == (if w in table then table[w].n else 0) + 1
  {
    if w in table then
      match table[w]
      case Count(n) => Count(n + 1)
      case NotANumber => NotANumber
    else if w == ConstructorKey || w == ProtoKey then NotANumber
    else Count(1)
  }

  /** `word.toLowerCase()` for each word. */
  function LowerAll(words: seq<string>): (r: seq<string>)
    ensures |r| == |words| && forall i :: 0 <= i < |r| ==> r[i] == ToLower(words[i])
  {
    seq(|words|, i requires 0 <= i < |words| => ToLower(words[i]))
  }

  /** The own keys of `frequency` after counting `ws`, in the order they were created. */
  function KeyOrder(ws: seq<string>): seq<string>
  {
    if |ws| == 0 then []
    else
      var keys := KeyOrder(ws[..|ws| - 1]);
      var w := ws[|ws| - 1];
      if w == ProtoKey || w in keys then keys else keys + [w]
  }

  /** What `frequency` holds after counting `ws`: every word but "__proto__" is a key, and
      holds its number of occurrences, except "constructor", which holds a string. */
  function Frequency(ws: seq<string>): map<string, Tally>
  {
    map w | w in ws && w != ProtoKey :: if w == ConstructorKey then NotANumber else Count(multiset(ws)[w])
  }

  /** The keys are the words other than "__proto__". */
  lemma {:induction false} KeyOrderMembers(ws: seq<string>)
    ensures forall w :: w in KeyOrder(ws) <==> w in ws && w != ProtoKey
  {
    if |ws| > 0 {
      KeyOrderMembers(ws[..|ws| - 1]);
      assert ws == ws[..|ws| - 1] + [ws[|ws| - 1]];
    }
  }

  /** Every key the table enumerates has a value in it. */
  lemma KeysInTable(ws: seq<string>)
    ensures forall k :: k in KeyOrder(ws) ==> k in Frequency(ws)
    ensures forall k :: k in EnumerationOrder(KeyOrder(ws)) ==> k in Frequency(ws)
  {
    KeyOrderMembers(ws);
    var keys := KeyOrder(ws);
    var order := EnumerationOrder(keys);
    assert multiset(order) == multiset(keys);
    forall k | k in order ensures k in Frequency(ws) {
      assert k in multiset(order);
      assert k in multiset(keys);
      assert k in keys;
      assert k in ws && k != ProtoKey;
    }
  }

  /** No word is a key twice. */
  lemma {:induction false} KeyOrderDistinct(ws: seq<string>)
    ensures forall i, j :: 0 <= i < j < |KeyOrder(ws)| ==> KeyOrder(ws)[i] != KeyOrder(ws)[j]
  {
    if |ws| > 0 {
      KeyOrderDistinct(ws[..|ws| - 1]);
    }
  }

  /** The keys are ordered by the first occurrence of their word. */
  lemma {:induction false} KeyOrderFirstSeen(ws: seq<string>)
    ensures forall u :: u in KeyOrder(ws) ==> u in ws
    ensures forall i, j :: 0 <= i < j < |KeyOrder(ws)| ==>
              FirstIndex(ws, KeyOrder(ws)[i]) < FirstIndex(ws, KeyOrder(ws)[j])
  {
    if |ws| > 0 {
      var init := ws[..|ws| - 1];
      var w := ws[|ws| - 1];
      KeyOrderFirstSeen(init);
      assert ws == init + [w];
      var keys := KeyOrder(init);
      forall u | u in keys ensures FirstIndex(ws, u) == FirstIndex(init, u) < |init| {
        FirstIndexExtend(init, w, u);
      }
      if !(w == ProtoKey || w in keys) {
        KeyOrderMembers(init);
        FirstIndexExtend(init, w, w);
        assert FirstIndex(ws, w) == |init|;
        var ks := keys + [w];
        forall i, j | 0 <= i < j < |ks| ensures FirstIndex(ws, ks[i]) < FirstIndex(ws, ks[j]) {
          if j == |keys| {
            assert ks[i] in keys;
          } else {
            assert ks[i] == keys[i] && ks[j] == keys[j];
          }
        }
      }
    }
  }

  /** The keys are the words other than "__proto__", each once, in order of first occurrence. */
  lemma KeyOrderSpec(ws: seq<string>)
    ensures forall w :: w in KeyOrder(ws) <==> w in ws && w != ProtoKey
    ensures forall i, j :: 0 <= i < j < |KeyOrder(ws)| ==> KeyOrder(ws)[i] != KeyOrder(ws)[j]
    ensures forall i, j :: 0 <= i < j < |KeyOrder(ws)| ==>
              FirstIndex(ws, KeyOrder(ws)[i]) < FirstIndex(ws, KeyOrder(ws)[j])
  {
    KeyOrderMembers(ws);
    KeyOrderDistinct(ws);
    KeyOrderFirstSeen(ws);
  }

  /** The position of the first occurrence of `w` in `ws`. */
  function FirstIndex(ws: seq<string>, w: string): (i: nat)
    requires w in ws
    ensures i < |ws| && ws[i] == w && w !in ws[..i]
  {
    if ws[0] == w then 0
    else
      var i := 1 + FirstIndex(ws[1..], w);
      assert ws[..i] == [ws[0]] + ws[1..][..i - 1];
      i
  }

  lemma {:induction false} FirstIndexExtend(ws: seq<string>, w: string, u: string)
    requires u in ws + [w]
    ensures u in ws ==> FirstIndex(ws + [w], u) == FirstIndex(ws, u)
    ensures u !in ws ==> FirstIndex(ws + [w], u) == |ws|
  {
    var i := FirstIndex(ws + [w], u);
    var ext := ws + [w];
    assert forall k :: 0 <= k < i ==> ext[k] != u by {
      forall k | 0 <= k < i ensures ext[k] != u {
        assert ext[..i][k] == ext[k];
      }
    }
    if u in ws {
      var j := FirstIndex(ws, u);
      assert forall k :: 0 <= k < j ==> ws[k] != u by {
        forall k | 0 <= k < j ensures ws[k] != u {
          assert ws[..j][k] == ws[k];
        }
      }
      assert ext[j] == u;
    } else {
      assert forall k :: 0 <= k < |ws| ==> ws[k] != u;
    }
  }

  /** One step of line 79 on the specification of the table. */
  lemma FrequencyStep(ws: seq<string>, w: string)
    ensures w == ProtoKey ==> Frequency(ws + [w]) == Frequency(ws)
    ensures w != ProtoKey ==> Frequency(ws + [w]) == Frequency(ws)[w := Incremented(Frequency(ws), w)]
  {
    var before, after := Frequency(ws), Frequency(ws + [w]);
    assert multiset(ws + [w]) == multiset(ws) + multiset{w};
    assert forall u :: u in ws + [w] <==> u in ws || u == w;
    if w != ProtoKey {
      var expected := before[w := Incremented(before, w)];
      assert after.Keys == expected.Keys;
      forall u | u in after ensures after[u] == expected[u] {
        if u == w && w !in ws {
          assert multiset(ws)[w] == 0;
        }
      }
    } else {
      assert after.Keys == before.Keys;
    }
  }

  /** Lines 75-80: the loop that counts each lowercased word in the `frequency` object. */
  method CountFrequencies(words: seq<string>) returns (keys: seq<string>, table: map<string, Tally>)
    ensures keys == KeyOrder(LowerAll(words))
    ensures table == Frequency(LowerAll(words))
  {
    ghost var lowered := LowerAll(words);
    keys, table := [], map[];
    var i := 0;
    while i < |words|
      invariant 0 <= i <= |words|
      invariant keys == KeyOrder(lowered[..i])
      invariant table == Frequency(lowered[..i])
    {
      var normalized := ToLower(words[i]);
      var value := Incremented(table, normalized);
      assert lowered[..i + 1] == lowered[..i] + [normalized];
      assert lowered[..i + 1][..i] == lowered[..i];
      KeyOrderMembers(lowered[..i]);
      FrequencyStep(lowered[..i], normalized);
      if normalized != ProtoKey {
        if normalized !in table {
          keys := keys + [normalized];
        }
        table := table[normalized := value];
      }
      i := i + 1;
    }
    assert lowered[..|words|] == lowered;
  }

  // ---------------------------------------------------------------------------
  // Object.entries order (line 82)

  /** An array index: the canonical numeral of an integer below 2^32 - 1. */
  predicate IsArrayIndex(k: string)
  {
    IsCanonicalDecimal(k) && DecimalValue(k) < 0xFFFF_FFFF
  }

  predicate IsPlainKey(k: string)
  {
    !IsArrayIndex(k)
  }

  /** Sort key that puts array indices in ascending numeric order. */
  function IndexRank(k: string): int
  {
    if AllDigits(k) then -(DecimalValue(k) as int) else 0
  }

  /** The array indices are exactly the numerals of the integers 0 .. 2^32 - 2, which is how
      ECMAScript defines them. */
  lemma ArrayIndexIsNumeral(k: string)
    ensures IsArrayIndex(k) <==> exists n: nat :: n < 0xFFFF_FFFF && NatToDecimal(n) == k
  {
    if IsArrayIndex(k) {
      CanonicalDecimalRoundTrip(k);
    }
    if exists n: nat :: n < 0xFFFF_FFFF && NatToDecimal(n) == k {
      var n: nat :| n < 0xFFFF_FFFF && NatToDecimal(n) == k;
      DecimalRoundTrip(n);
    }
  }

  /** The array-index keys, in ascending numeric order. */
  function IndexKeys(keys: seq<string>): (r: seq<string>)
    ensures forall i :: 0 <= i < |r| ==> IsArrayIndex(r[i])
    ensures forall i, j :: 0 <= i < j < |r| ==>
              AllDigits(r[i]) && AllDigits(r[j]) && DecimalValue(r[i]) <= DecimalValue(r[j])
  {
    var indices := Filter(keys, IsArrayIndex);
    var r := SortDescending(indices, IndexRank);
    PermutationPreserves(r, indices, IsArrayIndex);
    forall i, j | 0 <= i < j < |r|
      ensures AllDigits(r[i]) && AllDigits(r[j]) && DecimalValue(r[i]) <= DecimalValue(r[j])
    {
      RankOrder(r[i], r[j]);
    }
    r
  }

  /** Between array indices, a larger rank is a smaller number. */
  lemma RankOrder(x: string, y: string)
    requires IsArrayIndex(x) && IsArrayIndex(y) && IndexRank(x) >= IndexRank(y)
    ensures AllDigits(x) && AllDigits(y) && DecimalValue(x) <= DecimalValue(y)
  {
  }

  /** The other keys, in creation order. */
  function PlainKeys(keys: seq<string>): (r: seq<string>)
    ensures forall i :: 0 <= i < |r| ==> !IsArrayIndex(r[i])
  {
    Filter(keys, IsPlainKey)
  }

  /** The order in which `Object.entries` lists the keys created in the order `keys`. */
  function EnumerationOrder(keys: seq<string>): (r: seq<string>)
    ensures multiset(r) == multiset(keys)
  {
    FilterComplement(keys, IsArrayIndex, IsPlainKey);
    IndexKeys(keys) + PlainKeys(keys)
  }

  /** Past the array indices, no key is an array index. */
  lemma PlainKeysLast(keys: seq<string>)
    ensures forall j :: |IndexKeys(keys)| <= j < |EnumerationOrder(keys)| ==> !IsArrayIndex(EnumerationOrder(keys)[j])
    ensures forall i :: 0 <= i < |IndexKeys(keys)| ==> EnumerationOrder(keys)[i] == IndexKeys(keys)[i]
  {
    var sorted := IndexKeys(keys);
    var plain := PlainKeys(keys);
    var r := EnumerationOrder(keys);
    assert r == sorted + plain;
    ConcatTail(sorted, plain, IsArrayIndex);
  }

  /** Array indices come first, in ascending numeric order; the other keys follow in
      creation order. */
  lemma EnumerationOrderSpec(keys: seq<string>)
    ensures forall i, j :: 0 <= i < j < |EnumerationOrder(keys)| && IsArrayIndex(EnumerationOrder(keys)[j])
              ==> IsArrayIndex(EnumerationOrder(keys)[i])
    ensures forall i, j :: 0 <= i < j < |EnumerationOrder(keys)|
              && IsArrayIndex(EnumerationOrder(keys)[i]) && IsArrayIndex(EnumerationOrder(keys)[j])
              ==> DecimalValue(EnumerationOrder(keys)[i]) <= DecimalValue(EnumerationOrder(keys)[j])
    ensures Filter(EnumerationOrder(keys), IsPlainKey) == Filter(keys, IsPlainKey)
  {
    var sorted := IndexKeys(keys);
    var plain := PlainKeys(keys);
    var r := EnumerationOrder(keys);
    PlainKeysLast(keys);
    forall i, j | 0 <= i < j < |r| && IsArrayIndex(r[j]) ensures IsArrayIndex(r[i]) {
      assert j < |sorted|;
      assert r[i] == sorted[i];
    }
    forall i, j | 0 <= i < j < |r| && IsArrayIndex(r[i]) && IsArrayIndex(r[j])
      ensures DecimalValue(r[i]) <= DecimalValue(r[j])
    {
      assert j < |sorted|;
      assert r[i] == sorted[i] && r[j] == sorted[j];
    }
    assert r == sorted + plain;
    FilterNone(sorted, IsPlainKey);
    FilterAll(plain, IsPlainKey);
    FilterAppend(sorted, plain, IsPlainKey);
  }

  // ---------------------------------------------------------------------------
  // filter, sort, slice, map (lines 82-86)

  /** An `[word, count]` pair of `Object.entries(frequency)`. */
  datatype Entry = Entry(word: string, tally: Tally)

  function Entries(keys: seq<string>, table: map<string, Tally>): (es: seq<Entry>)
    requires forall k :: k in keys ==> k in table
    ensures |es| == |keys| && forall i :: 0 <= i < |es| ==> es[i] == Entry(keys[i], table[keys[i]])
  {
    seq(|keys|, i requires 0 <= i < |keys| => Entry(keys[i], table[keys[i]]))
  }

  /** The count the comparator of line 84 sees. */
  function CountOf(e: Entry): int
  {
    match e.tally
    case Count(n) => n
    case NotANumber => 0
  }

  /** Line 83: `count > 2 && !queryTerms.includes(word)`; a string count compares false. */
  predicate IsEligible(e: Entry, queryTerms: seq<string>)
  {
    e.tally.Count? && e.tally.n > 2 && e.word !in queryTerms
  }

  function Eligible(es: seq<Entry>, queryTerms: seq<string>): seq<Entry>
  {
    Filter(es, e => IsEligible(e, queryTerms))
  }

  /** Lines 82-85: the eligible entries in enumeration order, stably sorted by descending
      count, first five. */
  function RankedEntries(queryTerms: seq<string>, keys: seq<string>, table: map<string, Tally>): seq<Entry>
    requires forall k :: k in keys ==> k in table
  {
    Slice(SortDescending(EligibleEntries(queryTerms, keys, table), CountOf), 0, 5)
  }

  /** Lines 82-83: the entries in enumeration order that pass the filter. */
  function EligibleEntries(queryTerms: seq<string>, keys: seq<string>, table: map<string, Tally>): seq<Entry>
    requires forall k :: k in keys ==> k in table
  {
    var order := EnumerationOrder(keys);
    assert forall k :: k in order ==> k in multiset(keys);
    Eligible(Entries(order, table), queryTerms)
  }

  /** Line 86: `.map(([word]) => word)`. */
  function Words(es: seq<Entry>): (ws: seq<string>)
    ensures |ws| == |es| && forall i :: 0 <= i < |ws| ==> ws[i] == es[i].word
  {
    seq(|es|, i requires 0 <= i < |es| => es[i].word)
  }

  /** The lowercased words of the combined text, as line 78 counts them. */
  function LoweredWords(content: string): seq<string>
  {
    LowerAll(ContentWords(content))
  }

  // ---------------------------------------------------------------------------
  // what extractKeyTerms promises

  /** How often `w` occurs among the lowercased words of `content`. */
  function Occurrences(content: string, w: string): nat
  {
    multiset(LoweredWords(content))[w]
  }

  /** A word the ranking may return: counted more than twice, not a query term, and not one
      of the two names Object.prototype already holds. */
  predicate IsCandidate(query: string, content: string, w: string)
  {
    Occurrences(content, w) > 2 && w !in QueryTerms(query) && w != ConstructorKey && w != ProtoKey
  }

  /** The eligible entries, in enumeration order. */
  function Pool(query: string, content: string): seq<Entry>
  {
    var lowered := LoweredWords(content);
    KeysInTable(lowered);
    EligibleEntries(QueryTerms(query), KeyOrder(lowered), Frequency(lowered))
  }

  /** An entry that passes the filter is one of the entries, and eligible. */
  lemma EligibleSound(es: seq<Entry>, queryTerms: seq<string>, e: Entry)
    requires e in Eligible(es, queryTerms)
    ensures e in es && IsEligible(e, queryTerms)
  {
    var r := Eligible(es, queryTerms);
    assert e in multiset(r);
    var i :| 0 <= i < |r| && r[i] == e;
  }

  /** Every entry that survives the filter is a candidate, holding its count. */
  lemma PoolSound(query: string, content: string, e: Entry)
    requires e in Pool(query, content)
    ensures IsCandidate(query, content, e.word) && e.tally == Count(Occurrences(content, e.word))
  {
    var lowered := LoweredWords(content);
    var qt := QueryTerms(query);
    KeysInTable(lowered);
    var keys := KeyOrder(lowered);
    var order := EnumerationOrder(keys);
    var table := Frequency(lowered);
    var es := Entries(order, table);
    assert Pool(query, content) == Eligible(es, qt);
    EligibleSound(es, qt, e);
    var i :| 0 <= i < |es| && es[i] == e;
    var w := order[i];
    assert e == Entry(w, table[w]);
    OrderedKeyIsWord(lowered, w);
    FrequencyAt(lowered, w);
  }

  /** Every key `Object.entries` lists is a counted word other than "__proto__". */
  lemma OrderedKeyIsWord(ws: seq<string>, w: string)
    requires w in EnumerationOrder(KeyOrder(ws))
    ensures w in ws && w != ProtoKey
  {
    KeyOrderMembers(ws);
    assert w in multiset(EnumerationOrder(KeyOrder(ws)));
  }

  /** The table's value for a counted word. */
  lemma FrequencyAt(ws: seq<string>, w: string)
    requires w in ws && w != ProtoKey
    ensures w in Frequency(ws)
    ensures Frequency(ws)[w] == if w == ConstructorKey then NotANumber else Count(multiset(ws)[w])
  {
  }

  /** Every candidate survives the filter, with its count. */
  lemma PoolComplete(query: string, content: string, w: string)
    requires IsCandidate(query, content, w)
    ensures Entry(w, Count(Occurrences(content, w))) in Pool(query, content)
  {
    var lowered := LoweredWords(content);
    var qt := QueryTerms(query);
    KeyOrderMembers(lowered);
    KeysInTable(lowered);
    var keys := KeyOrder(lowered);
    var order := EnumerationOrder(keys);
    var table := Frequency(lowered);
    var es := Entries(order, table);
    assert Pool(query, content) == Filter(es, x => IsEligible(x, qt));
    assert w in lowered;
    assert w in keys;
    assert w in multiset(order);
    var i :| 0 <= i < |order| && order[i] == w;
    assert es[i] == Entry(w, Count(Occurrences(content, w)));
    FilterKeeps(es, x => IsEligible(x, qt), es[i]);
  }

  /** The entries that survive the filter are exactly the candidates, each with its count. */
  lemma PoolSpec(query: string, content: string)
    ensures forall e :: e in Pool(query, content) ==>
              IsCandidate(query, content, e.word) && e.tally == Count(Occurrences(content, e.word))
    ensures forall w :: IsCandidate(query, content, w) ==>
              Entry(w, Count(Occurrences(content, w))) in Pool(query, content)
  {
    forall e | e in Pool(query, content)
      ensures IsCandidate(query, content, e.word) && e.tally == Count(Occurrences(content, e.word))
    {
      PoolSound(query, content, e);
    }
    forall w | IsCandidate(query, content, w)
      ensures Entry(w, Count(Occurrences(content, w))) in Pool(query, content)
    {
      PoolComplete(query, content, w);
    }
  }

  /** The pool stably sorted by descending count. */
  function SortedPool(query: string, content: string): seq<Entry>
  {
    SortDescending(Pool(query, content), CountOf)
  }

  /** `extractKeyTerms(query, content)`, with the table specified by Frequency: the words
      of the first five entries of the sorted pool. */
  function KeyTerms(query: string, content: string): seq<string>
  {
    Words(Slice(SortedPool(query, content), 0, 5))
  }

  /** Lines 70-87. */
  method ExtractKeyTerms(query: string, content: string) returns (terms: seq<string>)
    ensures terms == KeyTerms(query, content)
  {
    var queryTerms := QueryTerms(query);
    var contentWords := ContentWords(content);
    var keys, table := CountFrequencies(contentWords);
    KeysInTable(LowerAll(contentWords));
    terms := Words(RankedEntries(queryTerms, keys, table));
    RankedEntriesArePool(query, content);
  }

  lemma RankedEntriesArePool(query: string, content: string)
    ensures forall k :: k in KeyOrder(LoweredWords(content)) ==> k in Frequency(LoweredWords(content))
    ensures RankedEntries(QueryTerms(query), KeyOrder(LoweredWords(content)), Frequency(LoweredWords(content)))
              == Slice(SortedPool(query, content), 0, 5)
  {
    KeysInTable(LoweredWords(content));
  }

  /** The keywords are the words of the first entries of the sorted pool. */
  lemma KeyTermsArePoolWords(query: string, content: string)
    ensures |KeyTerms(query, content)| == Min(5, |SortedPool(query, content)|)
    ensures forall i :: 0 <= i < |KeyTerms(query, content)| ==>
              KeyTerms(query, content)[i] == SortedPool(query, content)[i].word
  {
  }

  /** At most five keywords, each a candidate: counted more than twice, not a query term
      (compared exactly, so a query term differing only in case does not exclude it). */
  lemma KeyTermsSelected(query: string, content: string)
    ensures |KeyTerms(query, content)| <= 5
    ensures forall w :: w in KeyTerms(query, content) ==> IsCandidate(query, content, w)
  {
    var terms := KeyTerms(query, content);
    var sorted := SortedPool(query, content);
    forall w | w in terms ensures IsCandidate(query, content, w) {
      var i :| 0 <= i < |terms| && terms[i] == w;
      assert sorted[i] in multiset(Pool(query, content));
      PoolSound(query, content, sorted[i]);
    }
  }

  /** A candidate is a lowercased run of at least three word characters. */
  lemma CandidateIsWord(query: string, content: string, w: string)
    requires IsCandidate(query, content, w)
    ensures |w| >= 3 && AllOf(w, IsWordChar) && ToLower(w) == w
  {
    var lowered := LoweredWords(content);
    assert w in multiset(lowered);
    var i :| 0 <= i < |lowered| && lowered[i] == w;
    var v := ContentWords(content)[i];
    assert w == ToLower(v);
    ToLowerIdempotent(v);
    forall k | 0 <= k < |w| ensures IsWordChar(w[k]) {
      assert IsWordChar(v[k]);
    }
  }

  /** Every keyword is a lowercased run of at least three word characters. */
  lemma KeyTermsAreWords(query: string, content: string)
    ensures forall w :: w in KeyTerms(query, content) ==> |w| >= 3 && AllOf(w, IsWordChar) && ToLower(w) == w
  {
    KeyTermsSelected(query, content);
    forall w | w in KeyTerms(query, content) ensures |w| >= 3 && AllOf(w, IsWordChar) && ToLower(w) == w {
      CandidateIsWord(query, content, w);
    }
  }

  /** The keywords come in non-increasing order of frequency. */
  lemma KeyTermsRanked(query: string, content: string)
    ensures forall i, j :: 0 <= i < j < |KeyTerms(query, content)| ==>
              Occurrences(content, KeyTerms(query, content)[i]) >= Occurrences(content, KeyTerms(query, content)[j])
  {
    var terms := KeyTerms(query, content);
    var sorted := SortedPool(query, content);
    forall i | 0 <= i < |terms| ensures CountOf(sorted[i]) == Occurrences(content, terms[i]) {
      assert sorted[i] in multiset(Pool(query, content));
      PoolSound(query, content, sorted[i]);
    }
  }

  /** Each entry of the sorted pool is a candidate holding its count. */
  lemma SortedPoolSound(query: string, content: string, i: nat)
    requires i < |SortedPool(query, content)|
    ensures IsCandidate(query, content, SortedPool(query, content)[i].word)
    ensures CountOf(SortedPool(query, content)[i]) == Occurrences(content, SortedPool(query, content)[i].word)
  {
    var sorted := SortedPool(query, content);
    assert sorted[i] in multiset(Pool(query, content));
    PoolSound(query, content, sorted[i]);
  }

  /** Each candidate has a place in the sorted pool. */
  lemma SortedPoolComplete(query: string, content: string, w: string) returns (p: nat)
    requires IsCandidate(query, content, w)
    ensures p < |SortedPool(query, content)|
    ensures SortedPool(query, content)[p] == Entry(w, Count(Occurrences(content, w)))
  {
    var sorted := SortedPool(query, content);
    var e := Entry(w, Count(Occurrences(content, w)));
    PoolComplete(query, content, w);
    assert e in multiset(sorted);
    p :| 0 <= p < |sorted| && sorted[p] == e;
  }

  /** An entry whose word is not among the words of the first five sits at position five or
      later, so there are five of them. */
  lemma LeftOutRanksLow(sorted: seq<Entry>, p: nat, w: string)
    requires p < |sorted| && sorted[p].word == w && w !in Words(Slice(sorted, 0, 5))
    ensures 5 <= p && |Words(Slice(sorted, 0, 5))| == 5
  {
  }

  /** No candidate is passed over for a less frequent one: a candidate left out means five
      keywords were returned, each at least as frequent. */
  lemma KeyTermsTopFive(query: string, content: string, w: string)
    requires IsCandidate(query, content, w) && w !in KeyTerms(query, content)
    ensures |KeyTerms(query, content)| == 5
    ensures forall i :: 0 <= i < 5 ==> Occurrences(content, KeyTerms(query, content)[i]) >= Occurrences(content, w)
  {
    var terms := KeyTerms(query, content);
    var sorted := SortedPool(query, content);
    var p := SortedPoolComplete(query, content, w);
    LeftOutRanksLow(sorted, p, w);
    SortedBefore(sorted, CountOf, 5, p);
    forall i | 0 <= i < 5 ensures Occurrences(content, terms[i]) >= Occurrences(content, w) {
      SortedPoolSound(query, content, i);
    }
  }

  /** Ties keep the enumeration order: the keywords of any one count are the first pool
      entries of that count, in the order Object.entries lists them. */
  lemma KeyTermsTieOrder(query: string, content: string, c: int)
    ensures var tied := WithKey(Slice(SortedPool(query, content), 0, 5), CountOf, c);
            var pool := WithKey(Pool(query, content), CountOf, c);
            |tied| <= |pool| && tied == pool[..|tied|]
  {
    var sorted := SortedPool(query, content);
    SortStable(Pool(query, content), CountOf, c);
    var n := if |sorted| < 5 then |sorted| else 5;
    assert Slice(sorted, 0, 5) == sorted[..n];
    WithKeyPrefix(sorted, CountOf, c, n);
  }

  /** The exclusion is case-sensitive: the query "Tokyo" does not exclude the word "tokyo". */
  lemma QueryTermsCaseSensitive()
    ensures QueryTerms("Tokyo") == ["Tokyo"] && "tokyo" !in QueryTerms("Tokyo")
  {
    var query := "Tokyo";
    assert NoneOf(query, IsQuerySeparator) by {
      forall k | 0 <= k < |query| ensures !IsQuerySeparator(query[k]) {
        assert 'A' <= query[k] <= 'z';
      }
    }
    SplitNoSeparator(query, IsQuerySeparator);
    FilterAll([query], IsQueryTerm);
    assert "tokyo"[0] != query[0];
  }
}
