/** Array.prototype.filter and the stable Array.prototype.sort, on sequences. */
module Ranking {

  /** `s.filter(p)`: the elements `p` accepts, in their order. */
  function Filter<T>(s: seq<T>, p: T -> bool): (r: seq<T>)
    ensures |r| <= |s|
    ensures forall i :: 0 <= i < |r| ==> p(r[i])
    ensures multiset(r) <= multiset(s)
  {
    if |s| == 0 then []
    else
      assert s == [s[0]] + s[1..];
      if p(s[0]) then [s[0]] + Filter(s[1..], p) else Filter(s[1..], p)
  }

  /** Nothing `p` accepts is dropped by Filter. */
  lemma {:induction false} FilterKeeps<T>(s: seq<T>, p: T -> bool, x: T)
    requires x in s && p(x)
    ensures x in Filter(s, p)
  {
    if s[0] != x {
      FilterKeeps(s[1..], p, x);
    }
  }

  /** Filter keeps every accepted element as often as it occurs, and nothing else. */
  lemma {:induction false} FilterCounts<T>(s: seq<T>, p: T -> bool)
    ensures forall x :: multiset(Filter(s, p))[x] == if p(x) then multiset(s)[x] else 0
  {
    if |s| > 0 {
      FilterCounts(s[1..], p);
      assert s == [s[0]] + s[1..];
    }
  }

  /** An element is in the filtered sequence exactly when it is in the input and accepted. */
  lemma FilterMembers<T>(s: seq<T>, p: T -> bool)
    ensures forall x :: x in Filter(s, p) <==> x in s && p(x)
  {
    FilterCounts(s, p);
    forall x ensures x in Filter(s, p) <==> x in s && p(x) {
      assert x in Filter(s, p) <==> multiset(Filter(s, p))[x] > 0;
      assert x in s <==> multiset(s)[x] > 0;
    }
  }

  lemma {:induction false} FilterAppend<T>(a: seq<T>, b: seq<T>, p: T -> bool)
    ensures Filter(a + b, p) == Filter(a, p) + Filter(b, p)
  {
    if |a| > 0 {
      assert (a + b)[1..] == a[1..] + b;
      FilterAppend(a[1..], b, p);
    } else {
      assert a + b == b;
    }
  }

  /** Filtering by a predicate and by its negation partitions the elements. */
  lemma {:induction false} FilterComplement<T>(s: seq<T>, p: T -> bool, q: T -> bool)
    requires forall x :: q(x) == !p(x)
    ensures multiset(Filter(s, p)) + multiset(Filter(s, q)) == multiset(s)
  {
    if |s| > 0 {
      FilterComplement(s[1..], p, q);
      assert s == [s[0]] + s[1..];
    }
  }

  /** Filtering elements that all pass changes nothing. */
  lemma {:induction false} FilterAll<T>(s: seq<T>, p: T -> bool)
    requires forall i :: 0 <= i < |s| ==> p(s[i])
    ensures Filter(s, p) == s
  {
    if |s| > 0 {
      FilterAll(s[1..], p);
      assert s == [s[0]] + s[1..];
    }
  }

  /** Filtering elements that all fail leaves nothing. */
  lemma {:induction false} FilterNone<T>(s: seq<T>, p: T -> bool)
    requires forall i :: 0 <= i < |s| ==> !p(s[i])
    ensures Filter(s, p) == []
  {
    if |s| > 0 {
      FilterNone(s[1..], p);
    }
  }

  /** A property of every element is a property of every element Filter keeps. */
  lemma {:induction false} FilterPreserves<T>(s: seq<T>, p: T -> bool, q: T -> bool)
    requires forall i :: 0 <= i < |s| ==> q(s[i])
    ensures forall i :: 0 <= i < |Filter(s, p)| ==> q(Filter(s, p)[i])
  {
    if |s| > 0 {
      FilterPreserves(s[1..], p, q);
    }
  }

  /** Past the end of `a`, `a + b` holds only the elements of `b`. */
  lemma ConcatTail<T>(a: seq<T>, b: seq<T>, p: T -> bool)
    requires forall k :: 0 <= k < |b| ==> !p(b[k])
    ensures forall j :: |a| <= j < |a + b| ==> !p((a + b)[j])
  {
    forall j | |a| <= j < |a + b| ensures !p((a + b)[j]) {
      assert (a + b)[j] == b[j - |a|];
    }
  }

  /** A rearrangement has every property all the original elements have. */
  lemma PermutationPreserves<T>(a: seq<T>, b: seq<T>, q: T -> bool)
    requires multiset(a) == multiset(b)
    requires forall i :: 0 <= i < |b| ==> q(b[i])
    ensures forall i :: 0 <= i < |a| ==> q(a[i])
  {
    forall i | 0 <= i < |a| ensures q(a[i]) {
      assert a[i] in multiset(b);
    }
  }

  /** `a` is `b` with some elements left out, the rest in the same order. */
  predicate IsSubsequence<T(==)>(a: seq<T>, b: seq<T>)
    decreases |b|
  {
    |a| == 0 || (|b| > 0 && if a[0] == b[0] then IsSubsequence(a[1..], b[1..]) else IsSubsequence(a, b[1..]))
  }

  lemma {:induction false} FilterIsSubsequence<T>(s: seq<T>, p: T -> bool)
    ensures IsSubsequence(Filter(s, p), s)
  {
    if |s| > 0 {
      FilterIsSubsequence(s[1..], p);
      if !p(s[0]) {
        SubsequenceSkip(Filter(s[1..], p), s[1..], s[0]);
      }
    }
  }

  lemma {:induction false} SubsequenceSkip<T>(a: seq<T>, b: seq<T>, x: T)
    requires IsSubsequence(a, b)
    ensures IsSubsequence(a, [x] + b)
    decreases |b|, 1
  {
    if |a| > 0 && a[0] == x {
      assert a[0] == b[0] || IsSubsequence(a, b[1..]);
      if a[0] == b[0] {
        assert IsSubsequence(a[1..], b[1..]);
        SubsequenceSkip(a[1..], b[1..], b[0]);
        assert [b[0]] + b[1..] == b;
      } else {
        SubsequenceSkip(a, b[1..], b[0]);
        assert [b[0]] + b[1..] == b;
        SubsequenceDropFirst(a, b);
      }
    }
    assert ([x] + b)[1..] == b;
  }

  lemma {:induction false} SubsequenceDropFirst<T>(a: seq<T>, b: seq<T>)
    requires |a| > 0 && IsSubsequence(a, b)
    ensures IsSubsequence(a[1..], b)
    decreases |b|, 0
  {
    if a[0] == b[0] {
      SubsequenceSkip(a[1..], b[1..], b[0]);
      assert [b[0]] + b[1..] == b;
    } else {
      SubsequenceDropFirst(a, b[1..]);
      SubsequenceSkip(a[1..], b[1..], b[0]);
      assert [b[0]] + b[1..] == b;
    }
  }

  /** A prefix of a subsequence is a subsequence. */
  lemma {:induction false} SubsequencePrefix<T>(a: seq<T>, b: seq<T>, n: nat)
    requires IsSubsequence(a, b) && n <= |a|
    ensures IsSubsequence(a[..n], b)
    decreases |b|
  {
    if n > 0 {
      assert a[..n][0] == a[0];
      if a[0] == b[0] {
        SubsequencePrefix(a[1..], b[1..], n - 1);
        assert a[..n][1..] == a[1..][..n - 1];
      } else {
        SubsequencePrefix(a, b[1..], n);
      }
    }
  }

  // ---------------------------------------------------------------------------
  // stable sort by a numeric key, largest key first

  predicate SortedDescending<T>(s: seq<T>, key: T -> int)
  {
    forall i, j :: 0 <= i < j < |s| ==> key(s[i]) >= key(s[j])
  }

  /** The elements of `s` whose key is `c`, in their order. */
  function WithKey<T>(s: seq<T>, key: T -> int, c: int): seq<T>
  {
    if |s| == 0 then []
    else if key(s[0]) == c then [s[0]] + WithKey(s[1..], key, c)
    else WithKey(s[1..], key, c)
  }

  /** Cutting a sequence short cuts each key's elements short: they form a prefix. */
  lemma {:induction false} WithKeyPrefix<T>(s: seq<T>, key: T -> int, c: int, n: nat)
    requires n <= |s|
    ensures |WithKey(s[..n], key, c)| <= |WithKey(s, key, c)|
    ensures WithKey(s[..n], key, c) == WithKey(s, key, c)[..|WithKey(s[..n], key, c)|]
  {
    if n > 0 {
      WithKeyPrefix(s[1..], key, c, n - 1);
      assert s[..n][0] == s[0] && s[..n][1..] == s[1..][..n - 1];
    }
  }

  /** In a descending sequence, the elements before position `p` have keys at least as
      large as the one at `p`. */
  lemma SortedBefore<T>(s: seq<T>, key: T -> int, n: nat, p: nat)
    requires SortedDescending(s, key) && n <= p < |s|
    ensures forall i :: 0 <= i < n ==> key(s[i]) >= key(s[p])
  {
  }

  /** Places `x` before the first element whose key is not larger than its own. */
  function Insert<T>(x: T, s: seq<T>, key: T -> int): seq<T>
  {
    if |s| == 0 || key(x) >= key(s[0]) then [x] + s
    else [s[0]] + Insert(x, s[1..], key)
  }

  /** `s.sort((a, b) => key(b) - key(a))` with a stable sort, as Array.prototype.sort
      is required to be: largest key first, equal keys in their original order. */
  function SortDescending<T>(s: seq<T>, key: T -> int): (r: seq<T>)
    ensures multiset(r) == multiset(s)
    ensures SortedDescending(r, key)
  {
    if |s| == 0 then []
    else
      var rest := SortDescending(s[1..], key);
      InsertKeepsOrder(s[0], rest, key);
      assert s == [s[0]] + s[1..];
      Insert(s[0], rest, key)
  }

  lemma {:induction false} InsertKeepsOrder<T>(x: T, s: seq<T>, key: T -> int)
    requires SortedDescending(s, key)
    ensures multiset(Insert(x, s, key)) == multiset([x] + s)
    ensures SortedDescending(Insert(x, s, key), key)
  {
    if |s| > 0 && key(x) < key(s[0]) {
      var rest := s[1..];
      InsertKeepsOrder(x, rest, key);
      var t := Insert(x, rest, key);
      assert s == [s[0]] + rest;
      forall i | 0 <= i < |t| ensures key(s[0]) >= key(t[i]) {
        assert t[i] in multiset([x] + rest);
      }
      SortedCons(s[0], t, key);
    } else {
      SortedCons(x, s, key);
    }
  }

  /** A head no smaller than any element keeps a descending sequence descending. */
  lemma SortedCons<T>(h: T, t: seq<T>, key: T -> int)
    requires SortedDescending(t, key)
    requires forall i :: 0 <= i < |t| ==> key(h) >= key(t[i])
    ensures SortedDescending([h] + t, key)
  {
    var r := [h] + t;
    forall i, j | 0 <= i < j < |r| ensures key(r[i]) >= key(r[j]) {
      assert r[j] == t[j - 1];
      if i > 0 {
        assert r[i] == t[i - 1];
      }
    }
  }

  /** Insert is stable: among elements with equal keys, `x` stays first. */
  lemma {:induction false} InsertStable<T>(x: T, s: seq<T>, key: T -> int, c: int)
    ensures WithKey(Insert(x, s, key), key, c) == WithKey([x] + s, key, c)
  {
    if |s| > 0 && key(x) < key(s[0]) {
      InsertStable(x, s[1..], key, c);
      assert ([s[0]] + Insert(x, s[1..], key))[1..] == Insert(x, s[1..], key);
      assert ([x] + s)[1..] == s && s[1..] == ([x] + s[1..])[1..];
      assert ([s[0]] + s[1..])[1..] == s[1..];
    }
  }

  /** SortDescending is stable: for each key, the elements with that key keep their order. */
  lemma {:induction false} SortStable<T>(s: seq<T>, key: T -> int, c: int)
    ensures WithKey(SortDescending(s, key), key, c) == WithKey(s, key, c)
  {
    if |s| > 0 {
      var rest := SortDescending(s[1..], key);
      SortStable(s[1..], key, c);
      InsertStable(s[0], rest, key, c);
      assert ([s[0]] + rest)[1..] == rest;
    }
  }
}
