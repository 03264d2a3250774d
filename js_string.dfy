/** The few String.prototype and Array.prototype operations the summariser is built from,
    on JavaScript strings modelled as sequences of UTF-16 code units (one `char` per unit). */
module JsString {

  /** The characters ECMAScript counts as WhiteSpace or LineTerminator: the class `\s`
      of a regular expression and what `String.prototype.trim` strips. */
  predicate IsWhiteSpace(c: char)
  {
    || c == '\t' || c == '\n' || c == '\U{000B}' || c == '\U{000C}' || c == '\r' || c == ' '
    || c == '\U{00A0}' || c == '\U{1680}' || ('\U{2000}' <= c <= '\U{200A}')
    || c == '\U{2028}' || c == '\U{2029}' || c == '\U{202F}' || c == '\U{205F}'
    || c == '\U{3000}' || c == '\U{FEFF}'
  }

  predicate AllOf(s: string, p: char -> bool)
  {
    forall k :: 0 <= k < |s| ==> p(s[k])
  }

  predicate NoneOf(s: string, p: char -> bool)
  {
    forall k :: 0 <= k < |s| ==> !p(s[k])
  }

  /** Neither end of `s` is a character `p` accepts. */
  predicate EndsOutside(s: string, p: char -> bool)
  {
    s == [] || (!p(s[0]) && !p(s[|s| - 1]))
  }

  predicate IsTrimmed(s: string)
  {
    EndsOutside(s, IsWhiteSpace)
  }

  // ---------------------------------------------------------------------------
  // trim

  /** The number of characters at the front of `s` that `p` accepts. */
  function LeadingRun(s: string, p: char -> bool): (n: nat)
    ensures n <= |s|
  {
    if |s| > 0 && p(s[0]) then 1 + LeadingRun(s[1..], p) else 0
  }

  /** The leading run is accepted throughout and ends at a rejected character or the end. */
  lemma {:induction false} LeadingRunSpec(s: string, p: char -> bool)
    ensures forall k :: 0 <= k < LeadingRun(s, p) ==> p(s[k])
    ensures LeadingRun(s, p) < |s| ==> !p(s[LeadingRun(s, p)])
  {
    if |s| > 0 && p(s[0]) {
      LeadingRunSpec(s[1..], p);
    }
  }

  /** The number of characters at the end of `s` that `p` accepts. */
  function TrailingRun(s: string, p: char -> bool): (n: nat)
    ensures n <= |s|
  {
    if |s| > 0 && p(s[|s| - 1]) then 1 + TrailingRun(s[..|s| - 1], p) else 0
  }

  /** The trailing run is accepted throughout and starts after a rejected character or at
      the start. */
  lemma {:induction false} TrailingRunSpec(s: string, p: char -> bool)
    ensures forall k :: |s| - TrailingRun(s, p) <= k < |s| ==> p(s[k])
    ensures TrailingRun(s, p) < |s| ==> !p(s[|s| - TrailingRun(s, p) - 1])
  {
    if |s| > 0 && p(s[|s| - 1]) {
      TrailingRunSpec(s[..|s| - 1], p);
    }
  }

  /** How many white characters `s.trim()` drops from the front of `s`. */
  function LeadingWhite(s: string): nat
  {
    LeadingRun(s, IsWhiteSpace)
  }

  /** `s.trim()`: `s` without its leading and trailing white space. The result is the
      infix of `s` whose margins are all white and whose ends are not. */
  function Trim(s: string): (r: string)
    ensures IsTrimmed(r)
    ensures LeadingWhite(s) + |r| <= |s| && r == s[LeadingWhite(s)..LeadingWhite(s) + |r|]
    ensures AllOf(s[..LeadingWhite(s)], IsWhiteSpace)
    ensures AllOf(s[LeadingWhite(s) + |r|..], IsWhiteSpace)
  {
    var i := LeadingRun(s, IsWhiteSpace);
    var rest := s[i..];
    var n := TrailingRun(rest, IsWhiteSpace);
    LeadingRunSpec(s, IsWhiteSpace);
    TrailingRunSpec(rest, IsWhiteSpace);
    ShiftSuffix(s, i, n, IsWhiteSpace);
    assert i < |s| - n ==> s[i] == rest[0] && s[|s| - n - 1] == rest[|rest| - n - 1];
    StripBounds(s, IsWhiteSpace, i, |s| - n);
    s[i..|s| - n]
  }

  /** A run at the end of `s[i..]` is a run at the end of `s`. */
  lemma ShiftSuffix(s: string, i: nat, n: nat, p: char -> bool)
    requires i <= |s| && n <= |s| - i
    requires forall k :: |s| - i - n <= k < |s| - i ==> p(s[i..][k])
    ensures forall k :: |s| - n <= k < |s| ==> p(s[k])
  {
    forall k | |s| - n <= k < |s| ensures p(s[k]) {
      assert s[k] == s[i..][k - i];
    }
  }

  /** Stripping characters `p` accepts from both ends, up to ones it rejects, leaves an
      infix whose ends `p` rejects. */
  lemma StripBounds(s: string, p: char -> bool, i: nat, e: nat)
    requires i <= e <= |s|
    requires forall k :: 0 <= k < i ==> p(s[k])
    requires forall k :: e <= k < |s| ==> p(s[k])
    requires i < e ==> !p(s[i]) && !p(s[e - 1])
    ensures EndsOutside(s[i..e], p) && AllOf(s[..i], p) && AllOf(s[e..], p)
  {
    assert AllOf(s[..i], p) by {
      forall k | 0 <= k < i ensures p(s[..i][k]) {
        assert s[..i][k] == s[k];
      }
    }
    assert AllOf(s[e..], p) by {
      forall k | 0 <= k < |s| - e ensures p(s[e..][k]) {
        assert s[e..][k] == s[e + k];
      }
    }
    if i < e {
      assert s[i..e][0] == s[i] && s[i..e][e - i - 1] == s[e - 1];
    }
  }

  // ---------------------------------------------------------------------------
  // split and join

  /** `s.split(re)` for a regular expression `re` that matches exactly one character, the
      characters `isSep` accepts: the pieces of `s` between separator characters, empty
      pieces included. */
  function Split(s: string, isSep: char -> bool): (pieces: seq<string>)
    ensures |pieces| == |Separators(s, isSep)| + 1
    ensures forall i :: 0 <= i < |pieces| ==> NoneOf(pieces[i], isSep)
  {
    if |s| == 0 then [""]
    else
      var rest := Split(s[1..], isSep);
      if isSep(s[0]) then [""] + rest
      else
        assert forall i :: 1 <= i < |rest| ==> ([[s[0]] + rest[0]] + rest[1..])[i] == rest[i];
        [[s[0]] + rest[0]] + rest[1..]
  }

  /** The separator characters of `s`, in order. */
  function Separators(s: string, isSep: char -> bool): (seps: string)
    ensures AllOf(seps, isSep)
  {
    if |s| == 0 then []
    else if isSep(s[0]) then [s[0]] + Separators(s[1..], isSep)
    else Separators(s[1..], isSep)
  }

  /** Puts the separators back between the pieces: the inverse of Split. */
  function Interleave(pieces: seq<string>, seps: string): string
    requires |pieces| == |seps| + 1
  {
    if |seps| == 0 then pieces[0]
    else pieces[0] + [seps[0]] + Interleave(pieces[1..], seps[1..])
  }

  /** Splitting loses nothing: the pieces and separators rebuild the string. */
  lemma {:induction false} SplitRoundTrip(s: string, isSep: char -> bool)
    ensures Interleave(Split(s, isSep), Separators(s, isSep)) == s
  {
    if |s| > 0 {
      SplitRoundTrip(s[1..], isSep);
      var rest := Split(s[1..], isSep);
      var seps := Separators(s[1..], isSep);
      if !isSep(s[0]) {
        if |seps| > 0 {
          assert Interleave(rest, seps) == rest[0] + [seps[0]] + Interleave(rest[1..], seps[1..]);
          calc {
            Interleave(Split(s, isSep), Separators(s, isSep));
            ([s[0]] + rest[0]) + [seps[0]] + Interleave(rest[1..], seps[1..]);
            [s[0]] + (rest[0] + [seps[0]] + Interleave(rest[1..], seps[1..]));
            [s[0]] + s[1..];
          }
        }
      }
    }
    assert s == [] ==> s == "";
  }

  /** A separator-free prefix extends the first piece. */
  lemma {:induction false} SplitFreePrefix(a: string, t: string, isSep: char -> bool)
    requires NoneOf(a, isSep)
    ensures Split(a + t, isSep) == [a + Split(t, isSep)[0]] + Split(t, isSep)[1..]
  {
    if |a| > 0 {
      assert (a + t)[1..] == a[1..] + t;
      SplitFreePrefix(a[1..], t, isSep);
      assert [a[0]] + (a[1..] + Split(t, isSep)[0]) == a + Split(t, isSep)[0];
    } else {
      var pieces := Split(t, isSep);
      assert a + t == t && a + pieces[0] == pieces[0];
      assert pieces == [pieces[0]] + pieces[1..];
    }
  }

  /** A string without separators is a single piece. */
  lemma SplitNoSeparator(s: string, isSep: char -> bool)
    requires NoneOf(s, isSep)
    ensures Split(s, isSep) == [s]
  {
    SplitFreePrefix(s, "", isSep);
    assert s + "" == s;
  }

  /** `parts.join(sep)`. */
  function Join(parts: seq<string>, sep: string): string
  {
    if |parts| == 0 then ""
    else if |parts| == 1 then parts[0]
    else parts[0] + sep + Join(parts[1..], sep)
  }

  /** A join is empty when there are no parts; otherwise it opens with the first part and
      closes with the last. */
  lemma {:induction false} JoinEnds(parts: seq<string>, sep: string)
    ensures |parts| == 0 ==> Join(parts, sep) == ""
    ensures |parts| > 0 ==> parts[0] <= Join(parts, sep)
    ensures |parts| > 0 ==> var r, last := Join(parts, sep), parts[|parts| - 1];
              |last| <= |r| && r[|r| - |last|..] == last
  {
    if |parts| > 1 {
      JoinEnds(parts[1..], sep);
      var rest := Join(parts[1..], sep);
      var r := Join(parts, sep);
      assert r == parts[0] + sep + rest;
      assert r[|r| - |rest|..] == rest;
    }
  }

  /** Joining with a one-character separator that no part contains can be undone by
      splitting on that character. */
  lemma {:induction false} SplitJoin(parts: seq<string>, c: char, isSep: char -> bool)
    requires |parts| >= 1
    requires isSep(c) && forall d :: isSep(d) ==> d == c
    requires forall i :: 0 <= i < |parts| ==> NoneOf(parts[i], isSep)
    ensures Split(Join(parts, [c]), isSep) == parts
  {
    if |parts| == 1 {
      SplitFreePrefix(parts[0], "", isSep);
      assert parts[0] + "" == parts[0];
    } else {
      var tail := Join(parts[1..], [c]);
      SplitJoin(parts[1..], c, isSep);
      assert Split([c] + tail, isSep) == [""] + Split(tail, isSep) by {
        assert ([c] + tail)[1..] == tail;
      }
      assert Join(parts, [c]) == parts[0] + ([c] + tail);
      SplitFreePrefix(parts[0], [c] + tail, isSep);
      assert Split([c] + tail, isSep)[0] == "" && Split([c] + tail, isSep)[1..] == parts[1..];
      assert parts[0] + "" == parts[0];
      assert parts == [parts[0]] + parts[1..];
    }
  }

  /** Joining one more, empty, part adds a trailing separator. */
  lemma {:induction false} JoinAppendEmpty(parts: seq<string>, sep: string)
    requires |parts| >= 1
    ensures Join(parts + [""], sep) == Join(parts, sep) + sep
  {
    assert (parts + [""])[0] == parts[0];
    if |parts| == 1 {
      assert (parts + [""])[1..] == [""];
      assert parts[0] + sep + "" == parts[0] + sep;
    } else {
      JoinAppendEmpty(parts[1..], sep);
      assert (parts + [""])[1..] == parts[1..] + [""];
    }
  }

  /** `a` occurs in `b` starting at index `k`. */
  predicate OccursAt(a: string, b: string, k: nat)
  {
    k + |a| <= |b| && b[k..k + |a|] == a
  }

  /** `b.includes(a)`. */
  ghost predicate IsInfix(a: string, b: string)
  {
    exists k: nat :: OccursAt(a, b, k)
  }

  /** Every part survives joining. */
  lemma {:induction false} JoinContains(parts: seq<string>, sep: string, i: nat)
    requires i < |parts|
    ensures IsInfix(parts[i], Join(parts, sep))
  {
    var j := Join(parts, sep);
    if i == 0 {
      assert OccursAt(parts[0], j, 0);
    } else {
      JoinContains(parts[1..], sep, i - 1);
      var rest := Join(parts[1..], sep);
      var k: nat :| OccursAt(parts[i], rest, k);
      var n := |parts[i]|;
      var off := |parts[0]| + |sep|;
      assert j == parts[0] + sep + rest;
      assert j[off + k..off + k + n] == rest[k..k + n];
      assert OccursAt(parts[i], j, off + k);
    }
  }

  /** A concatenation avoids `p` exactly when both halves do. */
  lemma NoneOfConcat(a: string, b: string, p: char -> bool)
    ensures NoneOf(a + b, p) <==> NoneOf(a, p) && NoneOf(b, p)
  {
    if NoneOf(a + b, p) {
      forall k | 0 <= k < |a| ensures !p(a[k]) {
        assert a[k] == (a + b)[k];
      }
      forall k | 0 <= k < |b| ensures !p(b[k]) {
        assert b[k] == (a + b)[|a| + k];
      }
    }
    if NoneOf(a, p) && NoneOf(b, p) {
      forall k | 0 <= k < |a + b| ensures !p((a + b)[k]) {
        if k < |a| {
          assert (a + b)[k] == a[k];
        } else {
          assert (a + b)[k] == b[k - |a|];
        }
      }
    }
  }

  /** Trimming removes characters and adds none. */
  lemma TrimKeepsNoneOf(s: string, p: char -> bool)
    requires NoneOf(s, p)
    ensures NoneOf(Trim(s), p)
  {
    var r := Trim(s);
    var lw := LeadingWhite(s);
    NoneOfSlice(s, p, lw, lw + |r|);
  }

  /** Every infix of a string that avoids `p` avoids `p`. */
  lemma NoneOfSlice(s: string, p: char -> bool, i: nat, j: nat)
    requires NoneOf(s, p) && i <= j <= |s|
    ensures NoneOf(s[i..j], p)
  {
    forall k | 0 <= k < j - i ensures !p(s[i..j][k]) {
      assert s[i..j][k] == s[i + k];
    }
  }

  // ---------------------------------------------------------------------------
  // toLowerCase on the characters the summariser lowercases

  function LowerChar(c: char): char
  {
    if 'A' <= c <= 'Z' then (c as int + 32) as char else c
  }

  /** `s.toLowerCase()` for the characters the summariser applies it to (ASCII word
      characters, kana and CJK ideographs, of which only A-Z have a lower case). */
  function ToLower(s: string): (r: string)
    ensures |r| == |s|
    ensures forall k :: 0 <= k < |s| ==> r[k] == LowerChar(s[k])
  {
    seq(|s|, k requires 0 <= k < |s| => LowerChar(s[k]))
  }

  /** Lowercasing leaves no upper-case ASCII letter behind, so doing it twice changes nothing. */
  lemma ToLowerIdempotent(s: string)
    ensures forall k :: 0 <= k < |s| ==> !('A' <= ToLower(s)[k] <= 'Z')
    ensures ToLower(ToLower(s)) == ToLower(s)
  {
  }

  // ---------------------------------------------------------------------------
  // decimal numerals (Number.prototype.toString on non-negative integers)

  predicate IsDigit(c: char)
  {
    '0' <= c <= '9'
  }

  predicate AllDigits(s: string)
  {
    forall k :: 0 <= k < |s| ==> IsDigit(s[k])
  }

  function DigitChar(d: nat): (c: char)
    requires d < 10
    ensures IsDigit(c)
  {
    ('0' as int + d) as char
  }

  /** Canonical decimal numeral: at least one digit, and no leading zero unless it is "0". */
  predicate IsCanonicalDecimal(s: string)
  {
    |s| >= 1 && AllDigits(s) && (|s| == 1 || s[0] != '0')
  }

  /** The value of a string of decimal digits. */
  function DecimalValue(s: string): nat
    requires AllDigits(s)
  {
    if |s| == 0 then 0
    else DecimalValue(s[..|s| - 1]) * 10 + (s[|s| - 1] as int - '0' as int)
  }

  /** `String(n)` for a non-negative integer `n`. */
  function NatToDecimal(n: nat): (s: string)
    ensures IsCanonicalDecimal(s)
  {
    if n < 10 then [DigitChar(n)]
    else
      var s := NatToDecimal(n / 10) + [DigitChar(n % 10)];
      assert s[0] == NatToDecimal(n / 10)[0];
      s
  }

  /** Reading back the numeral of `n` gives `n`. */
  lemma {:induction false} DecimalRoundTrip(n: nat)
    ensures DecimalValue(NatToDecimal(n)) == n
  {
    if n >= 10 {
      DecimalRoundTrip(n / 10);
      var s := NatToDecimal(n);
      assert s[..|s| - 1] == NatToDecimal(n / 10);
    }
  }

  lemma {:induction false} DecimalValuePositive(s: string)
    requires IsCanonicalDecimal(s) && s[0] != '0'
    ensures DecimalValue(s) >= 1
  {
    if |s| > 1 {
      var p := s[..|s| - 1];
      assert p[0] == s[0];
      DecimalValuePositive(p);
    }
  }

  /** A canonical numeral is the numeral of its value: the other half of the round trip. */
  lemma {:induction false} CanonicalDecimalRoundTrip(s: string)
    requires IsCanonicalDecimal(s)
    ensures NatToDecimal(DecimalValue(s)) == s
  {
    if |s| > 1 {
      var p := s[..|s| - 1];
      assert p[0] == s[0];
      DecimalValuePositive(p);
      CanonicalDecimalRoundTrip(p);
      var d := s[|s| - 1] as int - '0' as int;
      var v := DecimalValue(s);
      assert v == DecimalValue(p) * 10 + d && 0 <= d < 10;
      assert v / 10 == DecimalValue(p) && v % 10 == d;
      assert DigitChar(d) == s[|s| - 1];
      assert s == p + [s[|s| - 1]];
    }
  }

  // ---------------------------------------------------------------------------
  // slice / substring with clamped bounds

  function Min(a: int, b: int): int
  {
    if a <= b then a else b
  }

  /** `a.slice(start, end)` and `s.substring(start, end)` for `0 <= start <= end`: both
      bounds are clamped to the length. */
  function Slice<T>(s: seq<T>, start: nat, end: nat): (r: seq<T>)
    requires start <= end
    ensures |r| == Min(end, |s|) - Min(start, |s|)
    ensures forall k :: 0 <= k < |r| ==> r[k] == s[start + k]
  {
    s[Min(start, |s|)..Min(end, |s|)]
  }

  /** Slicing from the start past the end takes the whole sequence. */
  lemma SliceAll<T>(s: seq<T>, end: nat)
    requires |s| <= end
    ensures Slice(s, 0, end) == s
  {
  }
}
