/** Grouping a list by a key into a plain object, as both aggregation variants do with
    `reduce` into `groups[key]`: `Object.entries` then lists the groups in the order
    their keys first occur (the keys are day strings, never array indices). */
module Grouping {
  datatype Group<K, T> = Group(key: K, members: seq<T>)

  ghost predicate DistinctKeys<K, T>(gs: seq<Group<K, T>>) {
    forall i, j :: 0 <= i < j < |gs| ==> gs[i].key != gs[j].key
  }

  /** The elements of `xs` whose key is `k`, in input order. */
  function Members<K(==), T>(xs: seq<T>, key: T -> K, k: K): (r: seq<T>)
    ensures forall y :: y in r ==> y in xs && key(y) == k
    ensures forall y :: y in xs && key(y) == k ==> y in r
    decreases |xs|
  {
    if |xs| == 0 then []
    else
      var last := xs[|xs| - 1];
      Members(xs[..|xs| - 1], key, k) + (if key(last) == k then [last] else [])
  }

  lemma MembersSnoc<K, T>(p: seq<T>, x: T, key: T -> K, k: K)
    ensures Members(p + [x], key, k) == Members(p, key, k) + (if key(x) == k then [x] else [])
  {
    assert (p + [x])[..|p|] == p;
  }

  predicate HasKey<K(==), T>(gs: seq<Group<K, T>>, k: K) {
    exists i :: 0 <= i < |gs| && gs[i].key == k
  }

  /** One step of the `reduce`: push `x` onto the group of `k`, creating the group at
      the end when `k` has not been seen. */
  function Place<K(==), T>(gs: seq<Group<K, T>>, k: K, x: T): (r: seq<Group<K, T>>)
    requires DistinctKeys(gs)
    ensures DistinctKeys(r)
    ensures |r| == if HasKey(gs, k) then |gs| else |gs| + 1
    ensures forall i :: 0 <= i < |gs| ==> r[i].key == gs[i].key
    ensures forall i :: 0 <= i < |gs| ==>
      r[i].members == gs[i].members + (if gs[i].key == k then [x] else [])
    ensures !HasKey(gs, k) ==> r[|gs|] == Group(k, [x])
    decreases |gs|
  {
    if |gs| == 0 then [Group(k, [x])]
    else if gs[0].key == k then [Group(k, gs[0].members + [x])] + gs[1..]
    else
      var rest := Place(gs[1..], k, x);
      HasKeyTail(gs, k);
      [gs[0]] + rest
  }

  lemma HasKeyTail<K, T>(gs: seq<Group<K, T>>, k: K)
    requires |gs| > 0 && gs[0].key != k
    ensures HasKey(gs, k) <==> HasKey(gs[1..], k)
  {
    if HasKey(gs, k) {
      var i :| 0 <= i < |gs| && gs[i].key == k;
      assert gs[1..][i - 1].key == k;
    }
    if HasKey(gs[1..], k) {
      var i :| 0 <= i < |gs[1..]| && gs[1..][i].key == k;
      assert gs[i + 1].key == k;
    }
  }

  /** The groups of `xs` by `key`, in first-occurrence order (see `GroupByMembers` and
      `GroupByFirstOccurrence`). */
  function GroupBy<K(==), T>(xs: seq<T>, key: T -> K): (gs: seq<Group<K, T>>)
    ensures DistinctKeys(gs)
    ensures |gs| <= |xs|
    ensures |gs| == 0 <==> |xs| == 0
    decreases |xs|
  {
    if |xs| == 0 then []
    else Place(GroupBy(xs[..|xs| - 1], key), key(xs[|xs| - 1]), xs[|xs| - 1])
  }

  /** What a grouping of `xs` holds: each group is exactly the input elements with its
      key, in input order, and every input element's key has a group. */
  ghost predicate GroupsOf<K, T>(gs: seq<Group<K, T>>, xs: seq<T>, key: T -> K) {
    && (forall i :: 0 <= i < |gs| ==>
          |gs[i].members| > 0 && gs[i].members == Members(xs, key, gs[i].key))
    && (forall j :: 0 <= j < |xs| ==> HasKey(gs, key(xs[j])))
  }

  lemma {:induction false} GroupByMembers<K, T>(xs: seq<T>, key: T -> K)
    ensures GroupsOf(GroupBy(xs, key), xs, key)
    decreases |xs|
  {
    if |xs| > 0 {
      var p := xs[..|xs| - 1];
      var x := xs[|xs| - 1];
      assert xs == p + [x];
      GroupByMembers(p, key);
      var gs := GroupBy(p, key);
      assert GroupBy(xs, key) == Place(gs, key(x), x);
      GroupStep(gs, p, x, key);
    }
  }

  lemma GroupStep<K, T>(gs: seq<Group<K, T>>, p: seq<T>, x: T, key: T -> K)
    requires DistinctKeys(gs)
    requires GroupsOf(gs, p, key)
    ensures GroupsOf(Place(gs, key(x), x), p + [x], key)
  {
    GroupStepMembers(gs, p, x, key);
    GroupStepCover(gs, p, x, key);
  }

  lemma GroupStepMembers<K, T>(gs: seq<Group<K, T>>, p: seq<T>, x: T, key: T -> K)
    requires DistinctKeys(gs)
    requires GroupsOf(gs, p, key)
    ensures forall i :: 0 <= i < |Place(gs, key(x), x)| ==>
      var g := Place(gs, key(x), x)[i];
      |g.members| > 0 && g.members == Members(p + [x], key, g.key)
  {
    var r := Place(gs, key(x), x);
    forall i | 0 <= i < |r|
      ensures |r[i].members| > 0 && r[i].members == Members(p + [x], key, r[i].key)
    {
      if i < |gs| {
        assert gs[i].members == Members(p, key, gs[i].key);
        MembersSnoc(p, x, key, gs[i].key);
      } else {
        assert r[i] == Group(key(x), [x]);
        MembersSnoc(p, x, key, key(x));
        MembersAbsent(gs, p, key, key(x));
      }
    }
  }

  /** A key with no group has no members. */
  lemma MembersAbsent<K, T>(gs: seq<Group<K, T>>, p: seq<T>, key: T -> K, k: K)
    requires forall j :: 0 <= j < |p| ==> HasKey(gs, key(p[j]))
    requires !HasKey(gs, k)
    ensures Members(p, key, k) == []
  {
  }

  lemma GroupStepCover<K, T>(gs: seq<Group<K, T>>, p: seq<T>, x: T, key: T -> K)
    requires DistinctKeys(gs)
    requires forall j :: 0 <= j < |p| ==> HasKey(gs, key(p[j]))
    ensures forall j :: 0 <= j < |p + [x]| ==> HasKey(Place(gs, key(x), x), key((p + [x])[j]))
  {
    var r := Place(gs, key(x), x);
    var xs := p + [x];
    forall j | 0 <= j < |xs| ensures HasKey(r, key(xs[j])) {
      var k := key(xs[j]);
      if j < |p| {
        assert HasKey(gs, k);
        var i :| 0 <= i < |gs| && gs[i].key == k;
        assert r[i].key == k;
      } else if HasKey(gs, k) {
        var i :| 0 <= i < |gs| && gs[i].key == k;
        assert r[i].key == k;
      } else {
        assert r[|gs|].key == k;
      }
    }
  }

  function TotalMembers<K, T>(gs: seq<Group<K, T>>): nat
    decreases |gs|
  {
    if |gs| == 0 then 0 else TotalMembers(gs[..|gs| - 1]) + |gs[|gs| - 1].members|
  }

  lemma {:induction false} TotalMembersAppend<K, T>(gs: seq<Group<K, T>>, g: Group<K, T>)
    ensures TotalMembers(gs + [g]) == TotalMembers(gs) + |g.members|
  {
    assert (gs + [g])[..|gs|] == gs;
  }

  /** Replacing one group by a group with one more member adds one to the total. */
  lemma {:induction false} TotalMembersGrow<K, T>(gs: seq<Group<K, T>>, r: seq<Group<K, T>>, j: nat)
    requires |r| == |gs| && j < |gs|
    requires |r[j].members| == |gs[j].members| + 1
    requires forall i :: 0 <= i < |gs| && i != j ==> |r[i].members| == |gs[i].members|
    ensures TotalMembers(r) == TotalMembers(gs) + 1
    decreases |gs|
  {
    var n := |gs| - 1;
    if j == n {
      TotalMembersSame(gs[..n], r[..n]);
    } else {
      TotalMembersGrow(gs[..n], r[..n], j);
    }
  }

  lemma {:induction false} TotalMembersSame<K, T>(gs: seq<Group<K, T>>, r: seq<Group<K, T>>)
    requires |r| == |gs|
    requires forall i :: 0 <= i < |gs| ==> |r[i].members| == |gs[i].members|
    ensures TotalMembers(r) == TotalMembers(gs)
    decreases |gs|
  {
    if |gs| > 0 {
      TotalMembersSame(gs[..|gs| - 1], r[..|r| - 1]);
    }
  }

  lemma PlaceSize<K, T>(gs: seq<Group<K, T>>, k: K, x: T)
    requires DistinctKeys(gs)
    ensures TotalMembers(Place(gs, k, x)) == TotalMembers(gs) + 1
  {
    if HasKey(gs, k) {
      var j :| 0 <= j < |gs| && gs[j].key == k;
      PlaceHitSizes(gs, k, x, j);
      TotalMembersGrow(gs, Place(gs, k, x), j);
    } else {
      PlaceMissAppends(gs, k, x);
      TotalMembersAppend(gs, Group(k, [x]));
    }
  }

  /** Placing under an existing key grows that key's group by one and no other. */
  lemma PlaceHitSizes<K, T>(gs: seq<Group<K, T>>, k: K, x: T, j: nat)
    requires DistinctKeys(gs) && j < |gs| && gs[j].key == k
    ensures var r := Place(gs, k, x);
      && |r| == |gs|
      && |r[j].members| == |gs[j].members| + 1
      && forall i :: 0 <= i < |gs| && i != j ==> |r[i].members| == |gs[i].members|
  {
    assert HasKey(gs, k);
  }

  /** Placing under a new key appends a one-member group. */
  lemma PlaceMissAppends<K, T>(gs: seq<Group<K, T>>, k: K, x: T)
    requires DistinctKeys(gs) && !HasKey(gs, k)
    ensures Place(gs, k, x) == gs + [Group(k, [x])]
  {
    var r := Place(gs, k, x);
    forall i | 0 <= i < |gs| ensures r[i] == gs[i] {
      assert r[i].members == gs[i].members + [];
    }
  }

  /** Every element lands in exactly one group: the group sizes add up to the input length. */
  lemma {:induction false} GroupBySizes<K, T>(xs: seq<T>, key: T -> K)
    ensures TotalMembers(GroupBy(xs, key)) == |xs|
    decreases |xs|
  {
    if |xs| > 0 {
      var p := xs[..|xs| - 1];
      GroupBySizes(p, key);
      PlaceSize(GroupBy(p, key), key(xs[|xs| - 1]), xs[|xs| - 1]);
    }
  }

  /** A group's key is the key of one of the elements it was built from. */
  lemma GroupKeysBounded<T>(gs: seq<Group<int, T>>, p: seq<T>, key: T -> int, bound: int)
    requires GroupsOf(gs, p, key)
    requires forall j :: 0 <= j < |p| ==> key(p[j]) <= bound
    ensures forall i :: 0 <= i < |gs| ==> gs[i].key <= bound
  {
    forall i | 0 <= i < |gs| ensures gs[i].key <= bound {
      var y := gs[i].members[0];
      assert y in Members(p, key, gs[i].key);
      var j :| 0 <= j < |p| && p[j] == y;
    }
  }

  lemma PlaceKeysIncreasing<T>(gs: seq<Group<int, T>>, k: int, x: T)
    requires DistinctKeys(gs)
    requires forall i, j :: 0 <= i < j < |gs| ==> gs[i].key < gs[j].key
    requires forall i :: 0 <= i < |gs| ==> gs[i].key <= k
    ensures forall i, j :: 0 <= i < j < |Place(gs, k, x)| ==>
      Place(gs, k, x)[i].key < Place(gs, k, x)[j].key
  {
    var r := Place(gs, k, x);
    forall i, j | 0 <= i < j < |r| ensures r[i].key < r[j].key {
      if j < |gs| {
        assert r[i].key == gs[i].key && r[j].key == gs[j].key;
      } else {
        assert !HasKey(gs, k);
        assert r[j].key == k;
        assert r[i].key == gs[i].key;
      }
    }
  }

  /** When the keys never decrease along the input, the groups come out in strictly
      increasing key order. */
  lemma {:induction false} GroupByKeysIncreasing<T>(xs: seq<T>, key: T -> int)
    requires forall i, j :: 0 <= i < j < |xs| ==> key(xs[i]) <= key(xs[j])
    ensures forall i, j :: 0 <= i < j < |GroupBy(xs, key)| ==>
      GroupBy(xs, key)[i].key < GroupBy(xs, key)[j].key
    decreases |xs|
  {
    if |xs| > 0 {
      var p := xs[..|xs| - 1];
      var x := xs[|xs| - 1];
      GroupByKeysIncreasing(p, key);
      GroupByMembers(p, key);
      GroupKeysBounded(GroupBy(p, key), p, key, key(x));
      PlaceKeysIncreasing(GroupBy(p, key), key(x), x);
    }
  }

  /** Key `k1` occurs in `xs` before every occurrence of key `k2`. */
  ghost predicate KeyBefore<K, T>(xs: seq<T>, key: T -> K, k1: K, k2: K) {
    forall b :: 0 <= b < |xs| && key(xs[b]) == k2 ==>
      exists a :: 0 <= a < b && key(xs[a]) == k1
  }

  /** The groups are listed in the order their keys first occur in `xs`. */
  ghost predicate FirstOccurrenceOrder<K, T>(gs: seq<Group<K, T>>, xs: seq<T>, key: T -> K) {
    forall i, j :: 0 <= i < j < |gs| ==> KeyBefore(xs, key, gs[i].key, gs[j].key)
  }

  /** Every group's key occurs in the input it groups. */
  lemma KeyOccurs<K, T>(gs: seq<Group<K, T>>, p: seq<T>, key: T -> K, i: nat) returns (a: nat)
    requires GroupsOf(gs, p, key) && i < |gs|
    ensures a < |p| && key(p[a]) == gs[i].key
  {
    var y := gs[i].members[0];
    assert y in Members(p, key, gs[i].key);
    a :| 0 <= a < |p| && p[a] == y;
  }

  lemma PlaceFirstOccurrence<K, T>(gs: seq<Group<K, T>>, p: seq<T>, x: T, key: T -> K)
    requires DistinctKeys(gs) && GroupsOf(gs, p, key)
    requires FirstOccurrenceOrder(gs, p, key)
    ensures FirstOccurrenceOrder(Place(gs, key(x), x), p + [x], key)
  {
    var r := Place(gs, key(x), x);
    var xs := p + [x];
    forall i, j | 0 <= i < j < |r| ensures KeyBefore(xs, key, r[i].key, r[j].key) {
      forall b | 0 <= b < |xs| && key(xs[b]) == r[j].key
        ensures exists a :: 0 <= a < b && key(xs[a]) == r[i].key
      {
        var ai := KeyOccurs(gs, p, key, i);
        if b == |p| {
          assert xs[ai] == p[ai];
        } else {
          assert xs[b] == p[b];
          assert HasKey(gs, key(p[b]));
          assert j < |gs|;
          assert KeyBefore(p, key, gs[i].key, gs[j].key);
          var a :| 0 <= a < b && key(p[a]) == gs[i].key;
          assert xs[a] == p[a];
        }
      }
    }
  }

  /** `Object.entries` lists the groups in the order their keys first occur in the input. */
  lemma {:induction false} GroupByFirstOccurrence<K, T>(xs: seq<T>, key: T -> K)
    ensures FirstOccurrenceOrder(GroupBy(xs, key), xs, key)
    decreases |xs|
  {
    if |xs| > 0 {
      var p := xs[..|xs| - 1];
      var x := xs[|xs| - 1];
      assert xs == p + [x];
      GroupByFirstOccurrence(p, key);
      GroupByMembers(p, key);
      PlaceFirstOccurrence(GroupBy(p, key), p, x, key);
    }
  }
}
