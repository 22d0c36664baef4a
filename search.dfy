/** The two searches over arrays: `_.indexOf` (a linear scan by `===`) and
    `_.sortedIndex` (a binary search for the leftmost insertion point). */
module Search {
  import opened Js

  /** Position of the first occurrence of `x` in `a`, or `|a|` when there is none. */
  function FirstIndex(a: seq<Value>, x: Value): (k: nat)
    ensures k <= |a|
    ensures k < |a| <==> x in a
    ensures k < |a| ==> a[k] == x
    ensures x !in a[..k]
  {
    if a == [] then 0
    else if a[0] == x then 0
    else
      var k := 1 + FirstIndex(a[1..], x);
      assert a[..k] == [a[0]] + a[1..][..k - 1];
      k
  }

  /** `_.indexOf(array, item)`: the index of the first element `=== item`, or -1. */
  method IndexOf(list: seq<Value>, item: Value) returns (r: int)
    ensures -1 <= r < |list|
    ensures r == -1 <==> item !in list
    ensures r >= 0 ==> r == FirstIndex(list, item)
  {
    var length := |list|;
    for i := 0 to length
      invariant item !in list[..i]
    {
      if list[i] == item {
        assert list[..i + 1] == list[..i] + [item];
        return i;
      }
      assert list[..i + 1] == list[..i] + [list[i]];
    }
    assert list[..length] == list;
    return -1;
  }

  /** The keys of `list` never decrease. */
  predicate SortedBy(list: seq<Value>, key: Value -> int) {
    forall i, j :: 0 <= i <= j < |list| ==> key(list[i]) <= key(list[j])
  }

  /** `_.sortedIndex(array, obj, iterator)`, with the iterator given as an
      integer-valued key. On a sorted list the result is the leftmost slot
      where `obj` keeps the order: every key before it is smaller than
      `obj`'s, none from it on is. */
  method SortedIndex(list: seq<Value>, obj: Value, key: Value -> int) returns (low: nat)
    ensures low <= |list|
    ensures SortedBy(list, key) ==> forall j :: 0 <= j < low ==> key(list[j]) < key(obj)
    ensures SortedBy(list, key) ==> forall j :: low <= j < |list| ==> key(obj) <= key(list[j])
  {
    low := 0;
    var high := |list|;
    while low < high
      invariant 0 <= low <= high <= |list|
      invariant SortedBy(list, key) ==> forall j :: 0 <= j < low ==> key(list[j]) < key(obj)
      invariant SortedBy(list, key) ==> forall j :: high <= j < |list| ==> key(obj) <= key(list[j])
      decreases high - low
    {
      var mid := (low + high) / 2;
      if key(list[mid]) < key(obj) {
        low := mid + 1;
      } else {
        high := mid;
      }
    }
  }

  /** Inserting `obj` where `SortedIndex` says keeps a sorted list sorted. */
  lemma InsertAtSortedIndex(list: seq<Value>, obj: Value, key: Value -> int, low: nat)
    requires SortedBy(list, key) && low <= |list|
    requires forall j :: 0 <= j < low ==> key(list[j]) < key(obj)
    requires forall j :: low <= j < |list| ==> key(obj) <= key(list[j])
    ensures SortedBy(list[..low] + [obj] + list[low..], key)
  {
    var b := list[..low] + [obj] + list[low..];
    forall i, j | 0 <= i <= j < |b|
      ensures key(b[i]) <= key(b[j])
    {
      if i < low && j > low {
        assert b[i] == list[i] && b[j] == list[j - 1];
      } else if i > low {
        assert b[i] == list[i - 1] && b[j] == list[j - 1];
      }
    }
  }
}
