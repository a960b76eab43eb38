/** Order-preserving filtering of sequences (JavaScript's `Array.prototype.filter`). */
module Seqs {

  /** The elements of `s` that satisfy `p`, in their original order. */
  function Filter<T(!new)>(s: seq<T>, p: T -> bool): (r: seq<T>)
    ensures |r| <= |s|
    ensures forall x :: x in r <==> x in s && p(x)
    ensures forall x :: multiset(r)[x] == if p(x) then multiset(s)[x] else 0
    decreases |s|
  {
    if |s| == 0 then []
    else
      var rest := Filter(s[..|s| - 1], p);
      assert s == s[..|s| - 1] + [s[|s| - 1]];
      if p(s[|s| - 1]) then rest + [s[|s| - 1]] else rest
  }

  /** `idx` places each element of `r` at a position of `s`, in increasing order. */
  ghost predicate IndexMap<T>(idx: seq<nat>, r: seq<T>, s: seq<T>) {
    && |idx| == |r|
    && (forall i :: 0 <= i < |r| ==> idx[i] < |s| && r[i] == s[idx[i]])
    && (forall i, j :: 0 <= i < j < |r| ==> idx[i] < idx[j])
  }

  /** `r` is `s` with some elements left out and the others kept in their order. */
  ghost predicate SubsequenceOf<T>(r: seq<T>, s: seq<T>) {
    exists idx :: IndexMap(idx, r, s)
  }

  /** Filtering only leaves elements out: what it keeps stays in the input's order. */
  lemma {:induction false} FilterSubsequence<T(!new)>(s: seq<T>, p: T -> bool)
    ensures SubsequenceOf(Filter(s, p), s)
    decreases |s|
  {
    if |s| == 0 {
      var none: seq<nat> := [];
      assert IndexMap(none, Filter(s, p), s);
    } else {
      var q := s[..|s| - 1];
      var f := Filter(q, p);
      assert Filter(s, p) == if p(s[|s| - 1]) then f + [s[|s| - 1]] else f;
      FilterSubsequence(q, p);
      var idx :| IndexMap(idx, f, q);
      if p(s[|s| - 1]) {
        var idx' := IndexMapSnoc(idx, f, s);
      } else {
        IndexMapWiden(idx, f, s);
      }
    }
  }

  /** A placement into all of `s` but its last element is a placement into `s`. */
  lemma IndexMapWiden<T>(idx: seq<nat>, r: seq<T>, s: seq<T>)
    requires |s| > 0 && IndexMap(idx, r, s[..|s| - 1])
    ensures IndexMap(idx, r, s)
  {
  }

  /** A placement into all of `s` but its last element extends by that element. */
  lemma IndexMapSnoc<T>(idx: seq<nat>, r: seq<T>, s: seq<T>) returns (idx': seq<nat>)
    requires |s| > 0 && IndexMap(idx, r, s[..|s| - 1])
    ensures IndexMap(idx', r + [s[|s| - 1]], s)
  {
    IndexMapWiden(idx, r, s);
    idx' := idx + [|s| - 1];
  }

  /** Filtering a concatenation filters each part. */
  lemma {:induction false} FilterAppend<T(!new)>(a: seq<T>, b: seq<T>, p: T -> bool)
    ensures Filter(a + b, p) == Filter(a, p) + Filter(b, p)
    decreases |b|
  {
    if |b| == 0 {
      assert a + b == a;
    } else {
      var b' := b[..|b| - 1];
      assert (a + b)[..|a + b| - 1] == a + b';
      assert (a + b)[|a + b| - 1] == b[|b| - 1];
      FilterAppend(a, b', p);
    }
  }

  /** Filtering keeps the relative order of the elements it keeps. */
  lemma {:induction false} FilterKeepsOrder<T(!new)>(s: seq<T>, p: T -> bool, lt: (T, T) -> bool)
    requires forall i, j :: 0 <= i < j < |s| ==> lt(s[i], s[j])
    ensures forall i, j :: 0 <= i < j < |Filter(s, p)| ==> lt(Filter(s, p)[i], Filter(s, p)[j])
    decreases |s|
  {
    if |s| > 0 {
      var q := s[..|s| - 1];
      var last := s[|s| - 1];
      FilterKeepsOrder(q, p, lt);
      var f := Filter(q, p);
      forall i | 0 <= i < |f| ensures lt(f[i], last) {
        assert f[i] in f;
        var k :| 0 <= k < |q| && q[k] == f[i];
      }
    }
  }

  /** A filter and its complement split the sequence between them. */
  lemma {:induction false} FilterComplement<T(!new)>(s: seq<T>, p: T -> bool, q: T -> bool)
    requires forall x :: q(x) == !p(x)
    ensures |Filter(s, p)| + |Filter(s, q)| == |s|
    decreases |s|
  {
    if |s| > 0 {
      FilterComplement(s[..|s| - 1], p, q);
    }
  }

  /** Rearranging a sequence rearranges what a filter keeps of it. */
  lemma FilterPermutation<T(!new)>(a: seq<T>, b: seq<T>, p: T -> bool)
    requires multiset(a) == multiset(b)
    ensures multiset(Filter(a, p)) == multiset(Filter(b, p))
  {
    assert forall x :: multiset(Filter(a, p))[x] == multiset(Filter(b, p))[x];
  }

  /** A filter no element passes keeps nothing. */
  lemma {:induction false} FilterNone<T(!new)>(s: seq<T>, p: T -> bool)
    requires forall i :: 0 <= i < |s| ==> !p(s[i])
    ensures Filter(s, p) == []
    decreases |s|
  {
    if |s| > 0 {
      FilterNone(s[..|s| - 1], p);
    }
  }

  /** A filter that every element passes keeps the whole sequence. */
  lemma {:induction false} FilterAll<T(!new)>(s: seq<T>, p: T -> bool)
    requires forall i :: 0 <= i < |s| ==> p(s[i])
    ensures Filter(s, p) == s
    decreases |s|
  {
    if |s| > 0 {
      FilterAll(s[..|s| - 1], p);
      assert s == s[..|s| - 1] + [s[|s| - 1]];
    }
  }

  /** The last `n` elements of `s` (all of them when `s` is shorter). */
  function LastN<T>(s: seq<T>, n: nat): (r: seq<T>)
    ensures |r| == if n < |s| then n else |s|
    ensures r == s[|s| - |r|..]
  {
    if n < |s| then s[|s| - n..] else s
  }

  /** `s` in reverse order. */
  function Reverse<T>(s: seq<T>): (r: seq<T>)
    ensures |r| == |s|
    ensures forall i :: 0 <= i < |s| ==> r[i] == s[|s| - 1 - i]
    decreases |s|
  {
    if |s| == 0 then [] else [s[|s| - 1]] + Reverse(s[..|s| - 1])
  }

  /** The last `n` elements of `s`, newest first: `s.slice(-n).reverse()`. */
  function NewestN<T>(s: seq<T>, n: nat): (r: seq<T>)
    ensures |r| == if n < |s| then n else |s|
    ensures forall i :: 0 <= i < |r| ==> r[i] == s[|s| - 1 - i]
  {
    var last := LastN(s, n);
    var r := Reverse(last);
    assert forall i :: 0 <= i < |r| ==> r[i] == last[|last| - 1 - i];
    r
  }

  /** No two elements of `s` share a key. */
  ghost predicate DistinctBy<T, K>(s: seq<T>, key: T -> K) {
    forall i, j :: 0 <= i < j < |s| ==> key(s[i]) != key(s[j])
  }

  lemma {:induction false} DistinctCountAtMostOne<T(!new)>(s: seq<T>, x: T)
    requires forall i, j :: 0 <= i < j < |s| ==> s[i] != s[j]
    ensures multiset(s)[x] <= 1
    decreases |s|
  {
    if |s| > 0 {
      var p := s[..|s| - 1];
      assert s == p + [s[|s| - 1]];
      DistinctCountAtMostOne(p, x);
      if s[|s| - 1] == x {
        assert x !in p;
      }
    }
  }

  lemma RepeatCountsTwice<T>(s: seq<T>, i: nat, j: nat)
    requires i < j < |s| && s[i] == s[j]
    ensures multiset(s)[s[i]] >= 2
  {
    assert s == s[..j] + s[j..];
    assert s[i] in s[..j];
    assert s[j..][0] == s[j];
  }

  /** Rearranging a sequence keeps its keys distinct. */
  lemma DistinctByPermutation<T(!new), K>(a: seq<T>, b: seq<T>, key: T -> K)
    requires multiset(a) == multiset(b)
    requires DistinctBy(a, key)
    ensures DistinctBy(b, key)
  {
    forall i, j | 0 <= i < j < |b| ensures key(b[i]) != key(b[j]) {
      assert b[i] in multiset(a) && b[j] in multiset(a);
      var i' :| 0 <= i' < |a| && a[i'] == b[i];
      var j' :| 0 <= j' < |a| && a[j'] == b[j];
      if b[i] == b[j] {
        RepeatCountsTwice(b, i, j);
        DistinctCountAtMostOne(a, b[i]);
      } else {
        assert i' != j';
      }
    }
  }

  /** Distinct keys that all coincide leave room for one element at most. */
  lemma DistinctBySingleKey<T, K>(s: seq<T>, key: T -> K, k: K)
    requires DistinctBy(s, key)
    requires forall i :: 0 <= i < |s| ==> key(s[i]) == k
    ensures |s| <= 1
  {
    if |s| > 1 {
      FirstTwoDiffer(s, key);
      assert false;
    }
  }

  lemma FirstTwoDiffer<T, K>(s: seq<T>, key: T -> K)
    requires DistinctBy(s, key) && |s| > 1
    ensures key(s[0]) != key(s[1])
  {
  }
}
