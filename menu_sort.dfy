/** The in-place sort of one menu's entries by ascending `order`. */
module MenuSort {
  import opened MenuItems

  /** Nondecreasing in `order`. Nothing is said about entries of equal
      `order`: the sort is not promised to be stable. */
  predicate Sorted(s: seq<Item>)
    requires AllOrdered(s)
  {
    forall p, q :: 0 <= p < q < |s| ==> s[p].order.value <= s[q].order.value
  }

  /** Sorting by `order` is sorting by the comparator: no later entry
      compares below an earlier one. */
  lemma SortedByComparator(s: seq<Item>, p: int, q: int)
    requires AllOrdered(s) && Sorted(s)
    requires 0 <= p < q < |s|
    ensures Compare(s[p], s[q]) <= 0 && Compare(s[q], s[p]) >= 0
  {
  }

  /** The sort's result is determined up to entries of equal `order`: any
      two sorted permutations of the same entries carry the same `order` at
      every position, whichever way the engine breaks ties. */
  lemma {:induction false} SortedPermutationsAgree(a: seq<Item>, b: seq<Item>)
    requires AllOrdered(a) && AllOrdered(b) && Sorted(a) && Sorted(b)
    requires multiset(a) == multiset(b)
    ensures |a| == |b|
    ensures forall k :: 0 <= k < |a| ==> a[k].order.value == b[k].order.value
    decreases |a|
  {
    assert |a| == |multiset(a)| == |multiset(b)| == |b|;
    if |a| > 0 {
      var a' := FrontAgrees(a, b);
      SortedPermutationsAgree(a'[1..], b[1..]);
      forall k | 1 <= k < |a| ensures a[k].order.value == b[k].order.value {
        assert a'[1..][k - 1] == a'[k] && b[1..][k - 1] == b[k];
      }
    }
  }

  /** Moving `b[0]` to the front of `a` gives a sorted permutation of `a`
      with the same `order` at every position, whose tail is a permutation
      of `b`'s tail. */
  lemma FrontAgrees(a: seq<Item>, b: seq<Item>) returns (a': seq<Item>)
    requires AllOrdered(a) && AllOrdered(b) && Sorted(a) && Sorted(b)
    requires multiset(a) == multiset(b) && |a| > 0
    ensures |a'| == |a| && a'[0] == b[0]
    ensures AllOrdered(a') && Sorted(a')
    ensures forall k :: 0 <= k < |a| ==> a'[k].order.value == a[k].order.value
    ensures multiset(a'[1..]) == multiset(b[1..])
  {
    assert b[0] in multiset(a) && a[0] in multiset(b);
    var j :| 0 <= j < |a| && a[j] == b[0];
    var i :| 0 <= i < |b| && b[i] == a[0];
    assert b[0].order.value == a[0].order.value;
    a' := SwapFront(a, j);
    SameHeadSameTail(a', b);
  }

  /** Two permutations of each other that start with the same entry are
      permutations of each other after it. */
  lemma SameHeadSameTail(x: seq<Item>, y: seq<Item>)
    requires |x| > 0 && |y| > 0 && x[0] == y[0] && multiset(x) == multiset(y)
    ensures multiset(x[1..]) == multiset(y[1..])
  {
    assert x == [x[0]] + x[1..] && y == [y[0]] + y[1..];
    assert multiset(x) == multiset{x[0]} + multiset(x[1..]);
    assert multiset(y) == multiset{y[0]} + multiset(y[1..]);
    assert multiset(x[1..]) == multiset(x) - multiset{x[0]};
    assert multiset(y[1..]) == multiset(y) - multiset{y[0]};
  }

  /** Exchanging the first entry with an entry of the same `order` keeps the
      entries and the `order` at every position. */
  lemma SwapFront(a: seq<Item>, j: int) returns (a': seq<Item>)
    requires AllOrdered(a) && Sorted(a) && 0 <= j < |a|
    requires a[j].order.value == a[0].order.value
    ensures a' == a[0 := a[j]][j := a[0]]
    ensures multiset(a') == multiset(a)
    ensures forall k :: 0 <= k < |a| ==> a'[k].order.value == a[k].order.value
    ensures AllOrdered(a') && Sorted(a')
  {
    a' := a[0 := a[j]][j := a[0]];
    forall k | 0 <= k < |a| ensures a'[k].order.value == a[k].order.value {
      if k == 0 || k == j { }
    }
  }

  /** Exchanges two adjacent entries. */
  method Swap(a: array<Item>, j: int)
    requires 0 < j < a.Length
    modifies a
    ensures a[j - 1] == old(a[j]) && a[j] == old(a[j - 1])
    ensures forall k :: 0 <= k < a.Length && k != j - 1 && k != j ==> a[k] == old(a[k])
    ensures multiset(a[..]) == multiset(old(a[..]))
  {
    a[j - 1], a[j] := a[j], a[j - 1];
  }

  /** `entries.sort(compare)`: a permutation of the array, nondecreasing in
      `order`, computed by insertion with the comparator. */
  method SortByOrder(a: array<Item>)
    requires AllOrdered(a[..])
    modifies a
    ensures AllOrdered(a[..]) && Sorted(a[..])
    ensures multiset(a[..]) == multiset(old(a[..]))
  {
    var i := 0;
    while i < a.Length
      invariant 0 <= i <= a.Length
      invariant forall k :: 0 <= k < a.Length ==> a[k].order.Some?
      invariant forall p, q :: 0 <= p < q < i ==> a[p].order.value <= a[q].order.value
      invariant multiset(a[..]) == multiset(old(a[..]))
    {
      var j := i;
      while j > 0 && Compare(a[j - 1], a[j]) > 0
        invariant 0 <= j <= i
        invariant forall k :: 0 <= k < a.Length ==> a[k].order.Some?
        invariant forall p, q :: 0 <= p < q <= i && p != j && q != j ==> a[p].order.value <= a[q].order.value
        invariant forall q :: j < q <= i ==> a[j].order.value <= a[q].order.value
        invariant multiset(a[..]) == multiset(old(a[..]))
      {
        Swap(a, j);
        j := j - 1;
      }
      i := i + 1;
    }
  }
}
