/**
 * Sequence operations the component builds on: `Array.prototype.filter`, `map`,
 * `[...new Set(xs)]`, and a stable descending sort by a string key.
 */
module Seqs {
  import opened Text

  /** `s.filter(p)`. */
  function Filter<T>(s: seq<T>, p: T -> bool): (r: seq<T>)
    ensures |r| <= |s|
    ensures forall i :: 0 <= i < |r| ==> p(r[i])
  {
    if s == [] then []
    else if p(s[0]) then [s[0]] + Filter(s[1..], p)
    else Filter(s[1..], p)
  }

  /** `r` can be obtained from `s` by deleting elements, keeping the order of the rest. */
  predicate IsSubsequence<T(==)>(r: seq<T>, s: seq<T>)
    decreases |s|
  {
    |r| <= |s| &&
    (r == [] || (r[0] == s[0] && IsSubsequence(r[1..], s[1..])) || IsSubsequence(r, s[1..]))
  }

  /** The filter keeps the order of what it keeps. */
  lemma {:induction false} FilterIsSubsequence<T>(s: seq<T>, p: T -> bool)
    ensures IsSubsequence(Filter(s, p), s)
  {
    if s != [] {
      FilterIsSubsequence(s[1..], p);
      var r := Filter(s, p);
      if p(s[0]) {
        assert r[0] == s[0] && r[1..] == Filter(s[1..], p);
      }
    }
  }

  /** The filter keeps every copy of an element that passes and no copy of one that fails. */
  lemma {:induction false} FilterCount<T>(s: seq<T>, p: T -> bool, x: T)
    ensures multiset(Filter(s, p))[x] == if p(x) then multiset(s)[x] else 0
  {
    if s != [] {
      FilterCount(s[1..], p, x);
      assert s == [s[0]] + s[1..];
    }
  }

  /** Membership in a filtered sequence. */
  lemma FilterMembership<T>(s: seq<T>, p: T -> bool, x: T)
    ensures x in Filter(s, p) <==> x in s && p(x)
  {
    FilterCount(s, p, x);
    assert x in Filter(s, p) <==> multiset(Filter(s, p))[x] > 0;
    assert x in s <==> multiset(s)[x] > 0;
  }

  /** Filtering a second time with the same predicate changes nothing. */
  lemma {:induction false} FilterIdempotent<T>(s: seq<T>, p: T -> bool)
    ensures Filter(Filter(s, p), p) == Filter(s, p)
  {
    if s != [] {
      FilterIdempotent(s[1..], p);
    }
  }

  /** A filter every element passes returns its input. */
  lemma {:induction false} FilterKeepsAll<T>(s: seq<T>, p: T -> bool)
    requires forall i :: 0 <= i < |s| ==> p(s[i])
    ensures Filter(s, p) == s
  {
    if s != [] {
      FilterKeepsAll(s[1..], p);
      assert s == [s[0]] + s[1..];
    }
  }

  /** Filtering distributes over concatenation. */
  lemma {:induction false} FilterAppend<T>(s: seq<T>, t: seq<T>, p: T -> bool)
    ensures Filter(s + t, p) == Filter(s, p) + Filter(t, p)
  {
    if s != [] {
      assert (s + t)[1..] == s[1..] + t;
      FilterAppend(s[1..], t, p);
    } else {
      assert s + t == t;
    }
  }

  /** `s.map(f)`. */
  function Project<T, U>(s: seq<T>, f: T -> U): (r: seq<U>)
    ensures |r| == |s| && forall i :: 0 <= i < |s| ==> r[i] == f(s[i])
  {
    seq(|s|, i requires 0 <= i < |s| => f(s[i]))
  }

  /** Mapping over one more element appends its image. */
  lemma ProjectSnoc<T, U>(s: seq<T>, x: T, f: T -> U)
    ensures Project(s + [x], f) == Project(s, f) + [f(x)]
  {
  }

  /** Mapping over a prefix gives the prefix of the mapped sequence. */
  lemma ProjectPrefix<T, U>(s: seq<T>, k: nat, f: T -> U)
    requires k <= |s|
    ensures Project(s[..k], f) == Project(s, f)[..k]
  {
  }

  /** No element occurs twice. */
  predicate NoDups<T(==)>(s: seq<T>) {
    forall i, j :: 0 <= i < j < |s| ==> s[i] != s[j]
  }

  /** `[...new Set(s)]`: the distinct elements of `s` in order of first occurrence. */
  function Distinct<T(==)>(s: seq<T>): (r: seq<T>)
    ensures forall i :: 0 <= i < |r| ==> r[i] in s
    ensures forall i :: 0 <= i < |s| ==> s[i] in r
    ensures NoDups(r)
  {
    if s == [] then []
    else
      var d := Distinct(s[..|s| - 1]);
      assert s == s[..|s| - 1] + [s[|s| - 1]];
      if s[|s| - 1] in d then d else d + [s[|s| - 1]]
  }

  /** One more element is appended to the distinct elements exactly when it is new. */
  lemma DistinctSnoc<T>(s: seq<T>, x: T)
    ensures Distinct(s + [x]) == if x in Distinct(s) then Distinct(s) else Distinct(s) + [x]
  {
    assert (s + [x])[..|s|] == s;
  }

  /** The distinct elements of a prefix of `s` are a prefix of the distinct elements of `s`:
      together with the membership clauses of `Distinct`, elements are listed in order of
      first occurrence. */
  lemma {:induction false} DistinctPrefix<T>(s: seq<T>, k: nat)
    requires k <= |s|
    ensures Distinct(s[..k]) <= Distinct(s)
    decreases |s|
  {
    if k == |s| {
      assert s[..k] == s;
    } else {
      var n := |s|;
      DistinctPrefix(s[..n - 1], k);
      assert s[..n - 1][..k] == s[..k];
    }
  }

  /** An element of a duplicate-free sequence occurs once. */
  lemma {:induction false} NoDupsCount<T>(s: seq<T>, x: T)
    requires NoDups(s)
    ensures multiset(s)[x] <= 1
  {
    if s != [] {
      assert s == [s[0]] + s[1..];
      NoDupsCount(s[1..], x);
      if s[0] == x {
        assert x !in s[1..];
      }
    }
  }

  /** A rearrangement of a duplicate-free sequence is duplicate-free. */
  lemma PermutationKeepsNoDups<T>(a: seq<T>, b: seq<T>)
    requires multiset(a) == multiset(b) && NoDups(a)
    ensures NoDups(b)
  {
    forall i, j | 0 <= i < j < |b| ensures b[i] != b[j] {
      if b[i] == b[j] {
        var x := b[i];
        assert b == b[..j] + [b[j]] + b[j + 1..];
        assert x in b[..j];
        assert multiset(b)[x] >= 2;
        NoDupsCount(a, x);
        assert false;
      }
    }
  }

  /** A rearrangement has the same elements. */
  lemma PermutationKeepsMembers<T>(a: seq<T>, b: seq<T>)
    requires multiset(a) == multiset(b)
    ensures forall x :: x in a <==> x in b
  {
    forall x ensures x in a <==> x in b {
      assert x in a <==> multiset(a)[x] > 0;
      assert x in b <==> multiset(b)[x] > 0;
    }
  }

  /** Sorted so that keys never increase. */
  predicate SortedDesc<T>(s: seq<T>, key: T -> string) {
    forall i, j :: 0 <= i < j < |s| ==> LexLe(key(s[j]), key(s[i]))
  }

  /** Inserts `x` before the first element whose key is not greater than its own. */
  function InsertDesc<T>(x: T, s: seq<T>, key: T -> string): (r: seq<T>)
    ensures |r| == |s| + 1
  {
    if s == [] then [x]
    else if LexLe(key(s[0]), key(x)) then [x] + s
    else [s[0]] + InsertDesc(x, s[1..], key)
  }

  lemma {:induction false} InsertDescCount<T>(x: T, s: seq<T>, key: T -> string)
    ensures multiset(InsertDesc(x, s, key)) == multiset(s) + multiset{x}
  {
    if s != [] && !LexLe(key(s[0]), key(x)) {
      InsertDescCount(x, s[1..], key);
      assert s == [s[0]] + s[1..];
    }
  }

  /** Every key in `InsertDesc(x, s)` is bounded by `bound` when `x`'s and `s`'s are. */
  lemma {:induction false} InsertDescBounded<T>(x: T, s: seq<T>, key: T -> string, bound: string)
    requires LexLe(key(x), bound)
    requires forall i :: 0 <= i < |s| ==> LexLe(key(s[i]), bound)
    ensures forall i :: 0 <= i < |s| + 1 ==> LexLe(key(InsertDesc(x, s, key)[i]), bound)
  {
    if s != [] && !LexLe(key(s[0]), key(x)) {
      InsertDescBounded(x, s[1..], key, bound);
    }
  }

  lemma {:induction false} InsertDescSorted<T>(x: T, s: seq<T>, key: T -> string)
    requires SortedDesc(s, key)
    ensures SortedDesc(InsertDesc(x, s, key), key)
  {
    if s == [] {
    } else if LexLe(key(s[0]), key(x)) {
      forall j | 0 <= j < |s| ensures LexLe(key(s[j]), key(x)) {
        if j > 0 {
          LexLeTransitive(key(s[j]), key(s[0]), key(x));
        }
      }
    } else {
      LexLeTotal(key(s[0]), key(x));
      InsertDescSorted(x, s[1..], key);
      InsertDescBounded(x, s[1..], key, key(s[0]));
    }
  }

  /** A stable sort with the greatest key first, as `s.sort((a, b) => key(b) - key(a))`. */
  function SortDesc<T(==)>(s: seq<T>, key: T -> string): (r: seq<T>)
    ensures multiset(r) == multiset(s)
    ensures SortedDesc(r, key)
  {
    if s == [] then []
    else
      var rest := SortDesc(s[1..], key);
      InsertDescCount(s[0], rest, key);
      InsertDescSorted(s[0], rest, key);
      assert s == [s[0]] + s[1..];
      InsertDesc(s[0], rest, key)
  }
}
