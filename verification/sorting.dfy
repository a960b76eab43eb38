/** Stable sorting as JavaScript's `Array.prototype.sort` performs it (stable since
    ECMAScript 2019), written as an insertion sort over an ordering `le`. */
module Sorting {

  /** `le` is total and transitive: a comparator that never contradicts itself. */
  ghost predicate TotalPreorder<T(!new)>(le: (T, T) -> bool) {
    && (forall a, b :: le(a, b) || le(b, a))
    && (forall a, b, c :: le(a, b) && le(b, c) ==> le(a, c))
  }

  ghost predicate Sorted<T>(s: seq<T>, le: (T, T) -> bool) {
    forall i, j :: 0 <= i < j < |s| ==> le(s[i], s[j])
  }

  /** Places `x` after every leading element that is not greater than it, so an
      element inserted later stays behind its equals. */
  function Insert<T>(s: seq<T>, x: T, le: (T, T) -> bool): (r: seq<T>)
    ensures |r| == |s| + 1
    ensures multiset(r) == multiset(s) + multiset{x}
    decreases |s|
  {
    if |s| == 0 then [x]
    else if le(s[0], x) then
      assert s == [s[0]] + s[1..];
      [s[0]] + Insert(s[1..], x, le)
    else [x] + s
  }

  /** Insertion sort: each element, in input order, is inserted into the sorted prefix. */
  function SortBy<T>(s: seq<T>, le: (T, T) -> bool): (r: seq<T>)
    ensures |r| == |s|
    ensures multiset(r) == multiset(s)
    decreases |s|
  {
    if |s| == 0 then []
    else
      assert s == s[..|s| - 1] + [s[|s| - 1]];
      Insert(SortBy(s[..|s| - 1], le), s[|s| - 1], le)
  }

  lemma {:induction false} InsertSorted<T(!new)>(s: seq<T>, x: T, le: (T, T) -> bool)
    requires TotalPreorder(le)
    requires Sorted(s, le)
    ensures Sorted(Insert(s, x, le), le)
    decreases |s|
  {
    if |s| > 0 {
      if le(s[0], x) {
        var tail := Insert(s[1..], x, le);
        InsertSorted(s[1..], x, le);
        forall j | 0 <= j < |tail|
          ensures le(s[0], tail[j])
        {
          assert tail[j] in multiset(tail);
          assert tail[j] in multiset(s[1..]) || tail[j] == x;
          if tail[j] != x {
            var k :| 0 <= k < |s[1..]| && s[1..][k] == tail[j];
            assert s[1..][k] == s[k + 1];
          }
        }
      } else {
        assert le(x, s[0]);
      }
    }
  }

  /** The result of `SortBy` is ordered by `le` and holds the same elements. */
  lemma {:induction false} SortBySorted<T(!new)>(s: seq<T>, le: (T, T) -> bool)
    requires TotalPreorder(le)
    ensures Sorted(SortBy(s, le), le)
    decreases |s|
  {
    if |s| > 0 {
      SortBySorted(s[..|s| - 1], le);
      InsertSorted(SortBy(s[..|s| - 1], le), s[|s| - 1], le);
    }
  }

  /** Inserting an element that no element exceeds appends it. */
  lemma {:induction false} InsertGreatest<T>(s: seq<T>, x: T, le: (T, T) -> bool)
    requires forall i :: 0 <= i < |s| ==> le(s[i], x)
    ensures Insert(s, x, le) == s + [x]
    decreases |s|
  {
    if |s| > 0 {
      InsertGreatest(s[1..], x, le);
      assert s == [s[0]] + s[1..];
    }
  }

  /** Sorting an already sorted sequence changes nothing (stability). */
  lemma {:induction false} SortBySortedIsIdentity<T>(s: seq<T>, le: (T, T) -> bool)
    requires Sorted(s, le)
    ensures SortBy(s, le) == s
    decreases |s|
  {
    if |s| > 0 {
      var p := s[..|s| - 1];
      var x := s[|s| - 1];
      assert s == p + [x];
      assert Sorted(p, le);
      SortBySortedIsIdentity(p, le);
      assert SortBy(s, le) == Insert(SortBy(p, le), x, le);
      assert forall i :: 0 <= i < |p| ==> le(p[i], x) by {
        forall i | 0 <= i < |p| ensures le(p[i], x) {
          assert p[i] == s[i];
        }
      }
      InsertGreatest(p, x, le);
    }
  }

  /** Where `Insert` puts `x`: after the leading run of elements not greater than it. */
  function InsertPos<T>(s: seq<T>, x: T, le: (T, T) -> bool): (k: nat)
    ensures k <= |s|
    ensures forall i :: 0 <= i < k ==> le(s[i], x)
    ensures k < |s| ==> !le(s[k], x)
    decreases |s|
  {
    if |s| == 0 then 0
    else if le(s[0], x) then
      var k := InsertPos(s[1..], x, le);
      assert forall i :: 1 <= i < k + 1 ==> s[i] == s[1..][i - 1];
      1 + k
    else 0
  }

  /** `Insert` leaves every other element where it was, in order. */
  lemma {:induction false} InsertSplits<T>(s: seq<T>, x: T, le: (T, T) -> bool)
    ensures Insert(s, x, le) == s[..InsertPos(s, x, le)] + [x] + s[InsertPos(s, x, le)..]
    decreases |s|
  {
    if |s| > 0 && le(s[0], x) {
      var t := s[1..];
      InsertSplits(t, x, le);
      assert s == [s[0]] + t;
      PrependSplit(s[0], t, InsertPos(t, x, le), x);
    }
  }

  lemma PrependSplit<T>(y: T, t: seq<T>, k: nat, x: T)
    requires k <= |t|
    ensures [y] + (t[..k] + [x] + t[k..]) == ([y] + t)[..k + 1] + [x] + ([y] + t)[k + 1..]
  {
    var s := [y] + t;
    assert s[..k + 1] == [y] + t[..k];
    assert s[k + 1..] == t[k..];
  }

  /** In a sorted sequence every element behind the insertion point is greater than `x`. */
  lemma InsertPosSorted<T(!new)>(s: seq<T>, x: T, le: (T, T) -> bool)
    requires TotalPreorder(le)
    requires Sorted(s, le)
    ensures forall i :: InsertPos(s, x, le) <= i < |s| ==> !le(s[i], x)
  {
    var k := InsertPos(s, x, le);
    forall i | k <= i < |s| ensures !le(s[i], x) {
      if i > k {
        assert le(s[k], s[i]);
      }
    }
  }
}
