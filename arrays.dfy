/** The array functions: `first`, `last`, `compact`, `flatten`, `without`,
    `uniq`, `intersect` and `zip`. An array argument is the sequence of its
    elements; the functions that the source writes on top of `select` and
    `inject` call those methods here too. */
module Arrays {
  import opened Js
  import opened Iteration
  import opened Collections
  import Search

  /** No value occurs twice. */
  predicate Distinct(s: seq<Value>) {
    forall i, j :: 0 <= i < j < |s| ==> s[i] != s[j]
  }

  // ---------------------------------------------------------------------
  // first and last

  /** `_.first(array)`: the element at index 0. */
  function First(list: seq<Value>): (r: Value)
    ensures list != [] ==> r == list[0]
    ensures list == [] ==> r == Undef
  {
    GetIndex(list, 0);
    ElementAt(list, IndexString(0))
  }

  /** `_.last(array)`: the element at index length minus one; on an empty
      array that key is "-1", which names no element. */
  function Last(list: seq<Value>): (r: Value)
    ensures list != [] ==> r == list[|list| - 1]
    ensures list == [] ==> r == Undef
  {
    if list != [] then
      GetIndex(list, |list| - 1);
      ElementAt(list, IndexString(|list| - 1))
    else
      assert !IsDigit("-1"[0]);
      ElementAt(list, "-1")
  }

  // ---------------------------------------------------------------------
  // compact

  /** `_.compact(array)`: the truthy elements, in order. */
  method Compact(list: seq<Value>) returns (r: seq<Value>)
    ensures r == Filter(list, (value: Value, index: nat) => Truthy(value))
    ensures forall x :: x in r <==> x in list && Truthy(x)
  {
    var selected := Select(Arr(list), (value: Value, index: nat) => Bool(Truthy(value)));
    r := selected.value;
    FilterAgree(list, Passes((value: Value, index: nat) => Bool(Truthy(value))), (value: Value, index: nat) => Truthy(value));
    forall x {
      FilterMembers(list, (value: Value, index: nat) => Truthy(value), x);
    }
  }

  // ---------------------------------------------------------------------
  // flatten

  /** What `_.flatten(array)` returns: every non-array reached by descending
      through nested arrays, left to right. */
  function Flattened(list: seq<Value>): seq<Value>
    decreases WeightSeq(list), 1
  {
    if list == [] then []
    else
      var n := |list| - 1;
      ElementLighter(list, n);
      Flattened(list[..n]) + FlattenedItem(list[n])
  }

  /** What one element contributes: its own flattening if it is an array,
      otherwise itself. */
  function FlattenedItem(v: Value): seq<Value>
    decreases Weight(v), 0
  {
    if IsArray(v) then
      if v.Pair? then PairLighter(v.key, v.pairValue); Flattened(Elements(v))
      else Flattened(Elements(v))
    else [v]
  }

  function FlattenStep(): (seq<Value>, Value, nat) -> seq<Value> {
    (memo: seq<Value>, value: Value, index: nat) => memo + FlattenedItem(value)
  }

  lemma {:induction false} FlattenFold(list: seq<Value>)
    ensures FoldLeft(FlattenStep(), [], list) == Flattened(list)
    decreases |list|
  {
    if list != [] {
      FlattenFold(list[..|list| - 1]);
    }
  }

  /** `_.flatten(array)`: an `inject` that concatenates the flattening of
      every nested array and pushes everything else. */
  method Flatten(list: seq<Value>) returns (r: seq<Value>)
    ensures r == Flattened(list)
    ensures forall x :: x in r ==> !IsArray(x)
  {
    var injected := Inject(Arr(list), [], FlattenStep());
    FlattenFold(list);
    FlattenedIsFlat(list);
    r := injected.value;
  }

  /** No array is left in the result. */
  lemma {:induction false} FlattenedIsFlat(list: seq<Value>)
    ensures forall x :: x in Flattened(list) ==> !IsArray(x)
    decreases WeightSeq(list), 1
  {
    if list != [] {
      var n := |list| - 1;
      ElementLighter(list, n);
      FlattenedIsFlat(list[..n]);
      FlattenedItemIsFlat(list[n]);
    }
  }

  lemma {:induction false} FlattenedItemIsFlat(v: Value)
    ensures forall x :: x in FlattenedItem(v) ==> !IsArray(x)
    decreases Weight(v), 0
  {
    if IsArray(v) {
      if v.Pair? {
        PairLighter(v.key, v.pairValue);
      }
      FlattenedIsFlat(Elements(v));
    }
  }

  /** An array without nested arrays flattens to itself. */
  lemma {:induction false} FlattenedOfFlat(list: seq<Value>)
    requires forall x :: x in list ==> !IsArray(x)
    ensures Flattened(list) == list
    decreases |list|
  {
    if list != [] {
      var n := |list| - 1;
      var init, last := list[..n], list[n];
      assert list == init + [last];
      assert Flattened(list) == Flattened(init) + FlattenedItem(last);
      assert forall x :: x in init ==> x in list;
      FlattenedOfFlat(init);
      assert FlattenedItem(last) == [last];
    }
  }

  /** Flattening twice is flattening once. */
  lemma FlattenedIdempotent(list: seq<Value>)
    ensures Flattened(Flattened(list)) == Flattened(list)
  {
    FlattenedIsFlat(list);
    FlattenedOfFlat(Flattened(list));
  }

  /** Flattening a concatenation flattens each part. */
  lemma {:induction false} FlattenedAppend(a: seq<Value>, b: seq<Value>)
    ensures Flattened(a + b) == Flattened(a) + Flattened(b)
    decreases |b|
  {
    if b == [] {
      assert a + b == a;
    } else {
      var n := |b| - 1;
      FlattenedAppend(a, b[..n]);
      assert (a + b)[..|a + b| - 1] == a + b[..n];
    }
  }

  // ---------------------------------------------------------------------
  // without

  /** The without test: true for an element that is not among the excluded
      values. */
  function NotIncluded(values: seq<Value>): (Value, nat) -> Value {
    (value: Value, index: nat) => Bool(value !in values)
  }

  /** `_.without(array, *values)`: the elements that are none of `values`,
      in order. The excluded list is built from `arguments`, so it also holds
      the array itself, which no element can be. */
  method Without(list: seq<Value>, values: seq<Value>) returns (r: seq<Value>)
    ensures r == Filter(list, (value: Value, index: nat) => value !in values)
    ensures forall x :: x in r <==> x in list && x !in values
  {
    var excluded := [Arr(list)] + values;
    var selected := Select(Arr(list), NotIncluded(excluded));
    r := selected.value;
    forall j | 0 <= j < |list|
      ensures Passes(NotIncluded(excluded))(list[j], j) == (list[j] !in values)
    {
      assert list[j] in list;
      NotOwnElement(list, list[j]);
      assert list[j] in excluded <==> list[j] in values;
      assert NotIncluded(excluded)(list[j], j) == Bool(list[j] !in excluded);
    }
    FilterAgree(list, Passes(NotIncluded(excluded)), (value: Value, index: nat) => value !in values);
    forall x {
      FilterMembers(list, (value: Value, index: nat) => value !in values, x);
    }
  }

  // ---------------------------------------------------------------------
  // uniq

  /** One uniq step: the first element is always kept; after that an
      element is kept when it differs from the last one kept (sorted hint) or
      has not been kept yet (no hint). */
  function UniqStep(isSorted: bool): (seq<Value>, Value, nat) -> seq<Value> {
    (memo: seq<Value>, el: Value, i: nat) =>
      if i == 0 || (if isSorted then Last(memo) != el else el !in memo) then memo + [el] else memo
  }

  /** What `_.uniq(array, isSorted)` returns. */
  function Uniqued(list: seq<Value>, isSorted: bool): seq<Value> {
    FoldLeft(UniqStep(isSorted), [], list)
  }

  /** Equal elements sit next to each other. */
  predicate Grouped(list: seq<Value>) {
    forall i, j, k :: 0 <= i < j < k < |list| && list[i] == list[k] ==> list[j] == list[i]
  }

  /** The values of `r` appear in the order of their first occurrence in
      `list`. */
  predicate InFirstOccurrenceOrder(list: seq<Value>, r: seq<Value>) {
    forall p, q :: 0 <= p < q < |r| ==> Search.FirstIndex(list, r[p]) < Search.FirstIndex(list, r[q])
  }

  /** Appending an element does not move an earlier first occurrence. */
  lemma {:induction false} FirstIndexAppend(a: seq<Value>, x: Value, y: Value)
    ensures Search.FirstIndex(a + [x], y) == if y in a then Search.FirstIndex(a, y) else if y == x then |a| else |a| + 1
    decreases |a|
  {
    if a != [] && a[0] != y {
      FirstIndexAppend(a[1..], x, y);
      assert (a + [x])[1..] == a[1..] + [x];
    }
  }

  /** Without the sorted hint, `uniq` keeps one copy of every element, in
      order of first occurrence, and nothing else. */
  lemma {:induction false} UniquedSpec(list: seq<Value>)
    ensures var r := Uniqued(list, false);
      && (forall x :: x in r <==> x in list)
      && Distinct(r)
      && InFirstOccurrenceOrder(list, r)
    decreases |list|
  {
    if list != [] {
      var n := |list| - 1;
      var a := list[..n];
      var x := list[n];
      assert list == a + [x];
      UniquedSpec(a);
      var prev := Uniqued(a, false);
      var r := Uniqued(list, false);
      assert r == UniqStep(false)(prev, x, n);
      forall y | y in a
        ensures Search.FirstIndex(list, y) == Search.FirstIndex(a, y)
      {
        FirstIndexAppend(a, x, y);
      }
      if x !in a {
        FirstIndexAppend(a, x, x);
        assert r == prev + [x];
        forall p, q | 0 <= p < q < |r|
          ensures Search.FirstIndex(list, r[p]) < Search.FirstIndex(list, r[q])
        {
          assert r[p] == prev[p] && r[p] in a;
          if q < |prev| {
            assert r[q] == prev[q] && r[q] in a;
          }
        }
      } else {
        assert r == prev;
      }
    }
  }

  /** With the sorted hint, every element of the result comes from the
      input. */
  lemma {:induction false} UniquedSortedSound(list: seq<Value>)
    ensures forall x :: x in Uniqued(list, true) ==> x in list
    decreases |list|
  {
    if list != [] {
      var n := |list| - 1;
      UniquedSortedSound(list[..n]);
      assert list == list[..n] + [list[n]];
    }
  }

  /** On grouped input the last element kept is the input's last element. */
  lemma {:induction false} GroupedLastKept(list: seq<Value>)
    requires Grouped(list) && list != []
    ensures Last(Uniqued(list, false)) == list[|list| - 1]
    decreases |list|
  {
    var n := |list| - 1;
    var a := list[..n];
    var x := list[n];
    UniquedSpec(a);
    if a != [] {
      GroupedLastKept(a);
      GroupedRepeatIsLast(list);
    }
  }

  /** In a grouped array, an element that occurred before occurs right
      before the end. */
  lemma GroupedRepeatIsLast(list: seq<Value>)
    requires Grouped(list) && |list| >= 2
    ensures list[|list| - 1] in list[..|list| - 1] <==> list[|list| - 2] == list[|list| - 1]
  {
    var n := |list| - 1;
    if list[n] in list[..n] {
      var i :| 0 <= i < n && list[..n][i] == list[n];
      if i < n - 1 {
        assert list[i] == list[n];
      }
    }
  }

  /** On grouped input, and so on sorted input, the fast path that only
      compares with the last kept element gives the same result as the
      general one. */
  lemma {:induction false} UniquedSortedAgrees(list: seq<Value>)
    requires Grouped(list)
    ensures Uniqued(list, true) == Uniqued(list, false)
    decreases |list|
  {
    if |list| > 1 {
      var n := |list| - 1;
      var a := list[..n];
      var x := list[n];
      UniquedSortedAgrees(a);
      UniquedSpec(a);
      GroupedLastKept(a);
      GroupedRepeatIsLast(list);
      assert a[n - 1] == list[n - 1];
    } else if |list| == 1 {
      assert list[..0] == [];
      assert FoldLeft(UniqStep(true), [], list) == UniqStep(true)(FoldLeft(UniqStep(true), [], list[..0]), list[0], 0);
      assert FoldLeft(UniqStep(false), [], list) == UniqStep(false)(FoldLeft(UniqStep(false), [], list[..0]), list[0], 0);
      assert UniqStep(true)([], list[0], 0) == [list[0]] == UniqStep(false)([], list[0], 0);
    }
  }

  /** Non-decreasing numbers are grouped. */
  lemma SortedNumbersGrouped(list: seq<Value>)
    requires forall i :: 0 <= i < |list| ==> list[i].Num?
    requires forall i, j :: 0 <= i <= j < |list| ==> list[i].n <= list[j].n
    ensures Grouped(list)
  {
  }

  /** `_.uniq(array, isSorted)`: an `inject` that pushes an element unless
      it is already present, or, with the sorted hint, unless it equals the
      last element pushed. */
  method Uniq(list: seq<Value>, isSorted: bool) returns (r: seq<Value>)
    ensures r == Uniqued(list, isSorted)
    ensures forall x :: x in r ==> x in list
    ensures !isSorted || Grouped(list) ==>
      && (forall x :: x in list ==> x in r)
      && Distinct(r)
      && InFirstOccurrenceOrder(list, r)
  {
    var injected := Inject(Arr(list), [], UniqStep(isSorted));
    r := injected.value;
    UniquedSpec(list);
    UniquedSortedSound(list);
    if isSorted && Grouped(list) {
      UniquedSortedAgrees(list);
    }
  }

  // ---------------------------------------------------------------------
  // intersect

  /** The intersect test: whether the item occurs in every one of the other
      arrays. */
  function InEveryOther(rest: seq<seq<Value>>): (Value, nat) -> Value {
    (item: Value, index: nat) => Bool(forall j :: 0 <= j < |rest| ==> item in rest[j])
  }

  /** Dropping elements keeps a sequence free of duplicates. */
  lemma {:induction false} FilterDistinct(items: seq<Value>, keep: (Value, nat) -> bool)
    requires Distinct(items)
    ensures Distinct(Filter(items, keep))
    decreases |items|
  {
    if items != [] {
      var n := |items| - 1;
      FilterDistinct(items[..n], keep);
      if items[n] in Filter(items[..n], keep) {
        FilterMembers(items[..n], keep, items[n]);
      }
    }
  }

  /** Dropping elements keeps the survivors in the order of their first
      occurrence in `list`. */
  lemma {:induction false} FilterKeepsOrder(list: seq<Value>, items: seq<Value>, keep: (Value, nat) -> bool)
    requires InFirstOccurrenceOrder(list, items)
    ensures InFirstOccurrenceOrder(list, Filter(items, keep))
    decreases |items|
  {
    if items != [] {
      var n := |items| - 1;
      var init := items[..n];
      assert InFirstOccurrenceOrder(list, init) by {
        forall p, q | 0 <= p < q < |init|
          ensures Search.FirstIndex(list, init[p]) < Search.FirstIndex(list, init[q])
        {
          assert init[p] == items[p] && init[q] == items[q];
        }
      }
      FilterKeepsOrder(list, init, keep);
      var before := Filter(init, keep);
      if keep(items[n], n) {
        var r := before + [items[n]];
        forall p, q | 0 <= p < q < |r|
          ensures Search.FirstIndex(list, r[p]) < Search.FirstIndex(list, r[q])
        {
          if q < |before| {
            assert r[p] == before[p] && r[q] == before[q];
          } else {
            assert r[p] == before[p] && r[q] == items[n];
            FilterMembers(init, keep, before[p]);
            var k :| 0 <= k < |init| && init[k] == before[p] && keep(init[k], k);
            assert items[k] == before[p];
          }
        }
      } else {
        assert Filter(items, keep) == before;
      }
    }
  }

  /** `_.intersect(array, *rest)`: the elements of `array` found in every
      other array, once each, in the order they first appear in `array`. */
  method Intersect(list: seq<Value>, rest: seq<seq<Value>>) returns (r: seq<Value>)
    ensures forall x :: x in r <==> x in list && forall j :: 0 <= j < |rest| ==> x in rest[j]
    ensures Distinct(r)
    ensures InFirstOccurrenceOrder(list, r)
  {
    var unique := Uniq(list, false);
    var selected := Select(Arr(unique), InEveryOther(rest));
    r := selected.value;
    FilterDistinct(unique, Passes(InEveryOther(rest)));
    FilterKeepsOrder(list, unique, Passes(InEveryOther(rest)));
    forall x {
      IntersectMember(unique, rest, x);
    }
  }

  /** An element survives the filter exactly when it occurs in every other
      array. */
  lemma IntersectMember(unique: seq<Value>, rest: seq<seq<Value>>, x: Value)
    ensures x in Filter(unique, Passes(InEveryOther(rest))) <==> x in unique && forall j :: 0 <= j < |rest| ==> x in rest[j]
  {
    FilterMembers(unique, Passes(InEveryOther(rest)), x);
    if x in unique && forall j :: 0 <= j < |rest| ==> x in rest[j] {
      var k :| 0 <= k < |unique| && unique[k] == x;
      assert InEveryOther(rest)(unique[k], k) == Bool(true);
      assert Passes(InEveryOther(rest))(unique[k], k);
    }
    if x in Filter(unique, Passes(InEveryOther(rest))) {
      var k :| 0 <= k < |unique| && unique[k] == x && Passes(InEveryOther(rest))(unique[k], k);
      assert Truthy(InEveryOther(rest)(unique[k], k));
    }
  }

  // ---------------------------------------------------------------------
  // zip

  /** The greatest length among the arguments, zero when there are none. */
  function Longest(args: seq<seq<Value>>): (n: nat)
    ensures forall j :: 0 <= j < |args| ==> |args[j]| <= n
    ensures args != [] ==> exists j :: 0 <= j < |args| && |args[j]| == n
    decreases |args|
  {
    if args == [] then 0
    else
      var m := Longest(args[..|args| - 1]);
      var last := |args[|args| - 1]|;
      if m < last then last else m
  }

  /** The arguments as the array of arrays `_.toArray(arguments)`. */
  function ArgumentArray(args: seq<seq<Value>>): Value {
    Arr(seq(|args|, j requires 0 <= j < |args| => Arr(args[j])))
  }

  /** The `i`-th element of every argument, undefined past its end. */
  function Column(args: seq<seq<Value>>, i: nat): (r: seq<Value>)
    ensures |r| == |args|
  {
    seq(|args|, j requires 0 <= j < |args| => if i < |args[j]| then args[j][i] else Undef)
  }

  /** Plucking index `i` from the arguments reads their `i`-th column. */
  lemma PluckColumn(args: seq<seq<Value>>, i: nat)
    ensures Plucked(ArgumentArray(args), IndexString(i)) == Normal(Column(args, i))
  {
    var arrays := ArgumentArray(args).elems;
    PluckArray(arrays, IndexString(i));
    forall j | 0 <= j < |args|
      ensures Get(arrays[j], IndexString(i)) == Normal(if i < |args[j]| then args[j][i] else Undef)
    {
      GetIndex(args[j], i);
    }
    assert Plucked(ArgumentArray(args), IndexString(i)).value == Column(args, i);
  }

  /** `_.zip(*arrays)`: as many rows as the longest argument has elements,
      row `i` holding `arrays[j][i]` for every `j`. With no argument the
      length is `Math.max()`, minus infinity, and `new Array` throws. */
  method Zip(args: seq<seq<Value>>) returns (r: Completion<seq<seq<Value>>>)
    ensures args == [] ==> r == Abrupt(RangeError)
    ensures args != [] ==> r.Normal? && |r.value| == Longest(args)
    ensures args != [] ==> forall i :: 0 <= i < |r.value| ==> |r.value[i]| == |args|
    ensures args != [] ==> forall i, j :: 0 <= i < |r.value| && 0 <= j < |args| ==>
      r.value[i][j] == if i < |args[j]| then args[j][i] else Undef
  {
    if args == [] {
      return Abrupt(RangeError);
    }
    var length := Longest(args);
    var results := new seq<Value>[length];
    for i := 0 to length
      invariant forall k :: 0 <= k < i ==> results[k] == Column(args, k)
    {
      var row := Pluck(ArgumentArray(args), IndexString(i));
      PluckColumn(args, i);
      results[i] := row.value;
    }
    return Normal(results[..]);
  }
}
