/** Index sequences, gathering by index (numpy fancy indexing and
    `take_along_axis` on one axis) and an argsort on real keys. */
module Sorting {

  /** The indices 0, 1, ..., n - 1 in order. */
  function Range(n: nat): (r: seq<nat>)
    ensures |r| == n
  {
    if n == 0 then [] else Range(n - 1) + [n - 1]
  }

  lemma {:induction false} RangeIndex(n: nat)
    ensures forall k :: 0 <= k < n ==> Range(n)[k] == k
  {
    if n > 0 {
      RangeIndex(n - 1);
    }
  }

  /** Every index in `order` addresses an element of a sequence of length n. */
  predicate IndicesIn(order: seq<nat>, n: nat)
  {
    forall k :: 0 <= k < |order| ==> order[k] < n
  }

  /** `order` lists each index below n exactly once. */
  predicate IsPermutationOfRange(order: seq<nat>, n: nat)
  {
    multiset(order) == multiset(Range(n))
  }

  /** `s[order]`: the elements of s at the given indices, in the given order. */
  function Gather<T>(s: seq<T>, order: seq<nat>): (r: seq<T>)
    requires IndicesIn(order, |s|)
    ensures |r| == |order|
    ensures forall k :: 0 <= k < |r| ==> r[k] == s[order[k]]
  {
    seq(|order|, k requires 0 <= k < |order| => s[order[k]])
  }

  /** Keys visited in `order` never decrease. */
  predicate SortedBy(keys: seq<real>, order: seq<nat>)
    requires IndicesIn(order, |keys|)
  {
    forall a, b :: 0 <= a < b < |order| ==> keys[order[a]] <= keys[order[b]]
  }

  /** Inserts index i into an order sorted by `keys`, behind every index whose key is not larger. */
  function InsertIndex(keys: seq<real>, i: nat, order: seq<nat>): (r: seq<nat>)
    requires i < |keys|
    requires IndicesIn(order, |keys|)
    requires SortedBy(keys, order)
    ensures |r| == |order| + 1
    ensures multiset(r) == multiset(order) + multiset{i}
    ensures IndicesIn(r, |keys|)
    ensures SortedBy(keys, r)
    decreases |order|
  {
    if |order| == 0 then [i]
    else if keys[i] < keys[order[0]] then
      SmallestFirst(keys, i, order);
      [i] + order
    else
      var tail := order[1..];
      assert order == [order[0]] + tail;
      var rest := InsertIndex(keys, i, tail);
      HeadBelowInsert(keys, i, order, rest);
      [order[0]] + rest
  }

  /** Putting an index whose key is below the first key in front of a sorted order keeps it sorted. */
  lemma {:induction false} SmallestFirst(keys: seq<real>, i: nat, order: seq<nat>)
    requires i < |keys| && |order| > 0
    requires IndicesIn(order, |keys|)
    requires SortedBy(keys, order)
    requires keys[i] < keys[order[0]]
    ensures IndicesIn([i] + order, |keys|)
    ensures SortedBy(keys, [i] + order)
  {
    var r := [i] + order;
    forall a, b | 0 <= a < b < |r|
      ensures keys[r[a]] <= keys[r[b]]
    {
      assert r[b] == order[b - 1];
      if a > 0 {
        assert r[a] == order[a - 1];
      } else if b > 1 {
        assert keys[order[0]] <= keys[order[b - 1]];
      }
    }
  }

  /** The head of a sorted order whose key does not exceed keys[i] stays below
      everything in the insertion of i into the rest of the order. */
  lemma {:induction false} HeadBelowInsert(keys: seq<real>, i: nat, order: seq<nat>, rest: seq<nat>)
    requires i < |keys| && |order| > 0
    requires IndicesIn(order, |keys|) && IndicesIn(rest, |keys|)
    requires SortedBy(keys, order)
    requires keys[order[0]] <= keys[i]
    requires multiset(rest) == multiset(order[1..]) + multiset{i}
    requires SortedBy(keys, rest)
    ensures IndicesIn([order[0]] + rest, |keys|)
    ensures SortedBy(keys, [order[0]] + rest)
  {
    var r := [order[0]] + rest;
    forall k | 0 <= k < |rest|
      ensures keys[order[0]] <= keys[rest[k]]
    {
      assert rest[k] in multiset(rest);
      if rest[k] != i {
        assert rest[k] in multiset(order[1..]);
        var m :| 0 <= m < |order[1..]| && order[1..][m] == rest[k];
        assert order[m + 1] == rest[k];
      }
    }
    forall a, b | 0 <= a < b < |r|
      ensures keys[r[a]] <= keys[r[b]]
    {
      if a > 0 {
        assert r[a] == rest[a - 1] && r[b] == rest[b - 1];
      } else {
        assert r[b] == rest[b - 1];
      }
    }
  }

  /** Argsort of the first n keys. */
  function ArgSortPrefix(keys: seq<real>, n: nat): (order: seq<nat>)
    requires n <= |keys|
    ensures |order| == n
    ensures IndicesIn(order, |keys|)
    ensures IsPermutationOfRange(order, n)
    ensures SortedBy(keys, order)
  {
    if n == 0 then []
    else
      var last: nat := n - 1;
      var prev := ArgSortPrefix(keys, last);
      assert multiset(Range(n)) == multiset(Range(last)) + multiset{last};
      InsertIndex(keys, last, prev)
  }

  /** `np.argsort(keys)`: a permutation of the indices under which the keys never decrease.
      numpy's default sort is not stable, so nothing is promised about the order of equal keys. */
  function ArgSort(keys: seq<real>): (order: seq<nat>)
    ensures |order| == |keys|
    ensures IndicesIn(order, |keys|)
    ensures IsPermutationOfRange(order, |keys|)
    ensures SortedBy(keys, order)
  {
    ArgSortPrefix(keys, |keys|)
  }

  /** An index permutation of the range lists every index below n. */
  lemma {:induction false} PermutationCoversRange(order: seq<nat>, n: nat)
    requires IsPermutationOfRange(order, n)
    ensures |order| == n
    ensures forall i :: 0 <= i < n ==> i in order
  {
    RangeIndex(n);
    assert |multiset(order)| == |multiset(Range(n))|;
    forall i | 0 <= i < n
      ensures i in order
    {
      assert Range(n)[i] == i;
      assert i in multiset(Range(n));
    }
  }

  lemma {:induction false} GatherConcat<T>(s: seq<T>, a: seq<nat>, b: seq<nat>)
    requires IndicesIn(a, |s|) && IndicesIn(b, |s|)
    ensures IndicesIn(a + b, |s|)
    ensures Gather(s, a + b) == Gather(s, a) + Gather(s, b)
  {
  }

  /** Removing position j from an index sequence removes one copy of its index. */
  lemma {:induction false} RemoveAt(o: seq<nat>, j: nat)
    requires j < |o|
    ensures multiset(o[..j] + o[j + 1..]) == multiset(o) - multiset{o[j]}
  {
    assert o == o[..j] + [o[j]] + o[j + 1..];
  }

  /** Removing position j from an index sequence removes one copy of the gathered element. */
  lemma {:induction false} GatherRemoveAt<T>(s: seq<T>, o: seq<nat>, j: nat)
    requires IndicesIn(o, |s|) && j < |o|
    ensures IndicesIn(o[..j] + o[j + 1..], |s|)
    ensures multiset(Gather(s, o)) == multiset(Gather(s, o[..j] + o[j + 1..])) + multiset{s[o[j]]}
  {
    var left, right := o[..j], o[j + 1..];
    assert o == left + [o[j]] + right;
    GatherConcat(s, left, [o[j]]);
    GatherConcat(s, left + [o[j]], right);
    GatherConcat(s, left, right);
  }

  /** Gathering by two index sequences with the same multiset gives the same multiset of elements. */
  lemma {:induction false} GatherSameMultiset<T>(s: seq<T>, o1: seq<nat>, o2: seq<nat>)
    requires IndicesIn(o1, |s|) && IndicesIn(o2, |s|)
    requires multiset(o1) == multiset(o2)
    ensures multiset(Gather(s, o1)) == multiset(Gather(s, o2))
    decreases |o1|
  {
    if |o1| == 0 {
      assert |multiset(o2)| == 0;
    } else {
      var x := o1[0];
      assert x in multiset(o2);
      var j :| 0 <= j < |o2| && o2[j] == x;
      RemoveAt(o2, j);
      assert o1 == [x] + o1[1..];
      assert multiset(o1[1..]) == multiset(o1) - multiset{x};
      GatherSameMultiset(s, o1[1..], o2[..j] + o2[j + 1..]);
      GatherRemoveAt(s, o2, j);
      GatherRemoveAt(s, o1, 0);
      assert o1[..0] + o1[1..] == o1[1..];
    }
  }

  /** Gathering by a permutation of the indices is a permutation of the elements. */
  lemma {:induction false} GatherPermutation<T>(s: seq<T>, order: seq<nat>)
    requires IndicesIn(order, |s|)
    requires IsPermutationOfRange(order, |s|)
    ensures multiset(Gather(s, order)) == multiset(s)
  {
    RangeIndex(|s|);
    assert IndicesIn(Range(|s|), |s|);
    GatherSameMultiset(s, order, Range(|s|));
    assert Gather(s, Range(|s|)) == s;
  }
}
