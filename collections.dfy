/** The collection functions. Each one runs `_.each` with a callback whose
    closure state is the function's local (`results`, `memo`, `result`,
    `found`), and each is proved against a plain recursive definition of
    what the walk computes. User iterators are pure, total functions of
    `(value, index)`. */
module Collections {
  import opened Js
  import opened Iteration
  import Search

  // ---------------------------------------------------------------------
  // Tests built from an iterator.

  /** The first index at or after `i` whose item passes `test`. */
  function FirstWhere(items: seq<Value>, test: (Value, nat) -> bool, i: nat): (k: Option<nat>)
    ensures k.Some? ==> i <= k.value < |items| && test(items[k.value], k.value)
    ensures k.Some? ==> forall j :: i <= j < k.value ==> !test(items[j], j)
    ensures k.None? ==> forall j :: i <= j < |items| ==> !test(items[j], j)
    decreases |items| - i
  {
    if |items| <= i then None
    else if test(items[i], i) then Some(i)
    else FirstWhere(items, test, i + 1)
  }

  /** The iterator's answer is truthy. */
  function Passes(fn: (Value, nat) -> Value): (Value, nat) -> bool {
    (value: Value, index: nat) => Truthy(fn(value, index))
  }

  /** The iterator's answer is falsy. */
  function Fails(fn: (Value, nat) -> Value): (Value, nat) -> bool {
    (value: Value, index: nat) => !Truthy(fn(value, index))
  }

  /** The items that pass `keep`, in their original order. */
  function Filter(items: seq<Value>, keep: (Value, nat) -> bool): seq<Value>
    decreases |items|
  {
    if items == [] then []
    else
      var n := |items| - 1;
      Filter(items[..n], keep) + (if keep(items[n], n) then [items[n]] else [])
  }

  // ---------------------------------------------------------------------
  // map

  function PushResult(fn: (Value, nat) -> Value): (seq<Value>, Value, nat) -> seq<Value> {
    (results: seq<Value>, value: Value, index: nat) => results + [fn(value, index)]
  }

  /** `_.map(obj, iterator)`: one result per visited item, in visit order. */
  method Map(obj: Value, fn: (Value, nat) -> Value) returns (r: Completion<seq<Value>>)
    ensures Visit(obj).Abrupt? ==> r == Abrupt(TypeError)
    ensures Visit(obj).Normal? ==> r.Normal? && |r.value| == |Visit(obj).value|
    ensures Visit(obj).Normal? ==> forall j :: 0 <= j < |r.value| ==> r.value[j] == fn(Visit(obj).value[j], j)
  {
    var done, results, _ := Each(obj, FoldStep(PushResult(fn)), []);
    if Visit(obj).Abrupt? {
      return Abrupt(TypeError);
    }
    var items := Visit(obj).value;
    WalkFoldFromStart(items, PushResult(fn), []);
    MapFold(items, fn);
    return Normal(results);
  }

  lemma {:induction false} MapFold(items: seq<Value>, fn: (Value, nat) -> Value)
    ensures var r := FoldLeft(PushResult(fn), [], items);
      |r| == |items| && forall j :: 0 <= j < |items| ==> r[j] == fn(items[j], j)
    decreases |items|
  {
    if items != [] {
      var n := |items| - 1;
      MapFold(items[..n], fn);
    }
  }

  // ---------------------------------------------------------------------
  // inject

  /** `_.inject(obj, memo, iterator)`: `memo` threaded through every item in
      visit order, a left fold. */
  method Inject<M>(obj: Value, memo: M, fn: (M, Value, nat) -> M) returns (r: Completion<M>)
    ensures Visit(obj).Abrupt? ==> r == Abrupt(TypeError)
    ensures Visit(obj).Normal? ==> r == Normal(FoldLeft(fn, memo, Visit(obj).value))
    ensures Visit(obj) == Normal([]) ==> r == Normal(memo)
  {
    var done, result, _ := Each(obj, FoldStep(fn), memo);
    if Visit(obj).Abrupt? {
      return Abrupt(TypeError);
    }
    WalkFoldFromStart(Visit(obj).value, fn, memo);
    return Normal(result);
  }

  /** Appending one item to the collection applies the iterator once more to
      the memo reached so far. */
  lemma FoldLeftSnoc<M>(fn: (M, Value, nat) -> M, memo: M, items: seq<Value>, x: Value)
    ensures FoldLeft(fn, memo, items + [x]) == fn(FoldLeft(fn, memo, items), x, |items|)
  {
    assert (items + [x])[..|items|] == items;
  }

  // ---------------------------------------------------------------------
  // detect

  function DetectStep(fn: (Value, nat) -> Value): (Value, Value, nat) -> Step<Value> {
    (result: Value, value: Value, index: nat) =>
      if Truthy(fn(value, index)) then Raise(value, Break) else Continue(result)
  }

  lemma {:induction false} WalkDetect(items: seq<Value>, fn: (Value, nat) -> Value, s: Value, i: nat)
    requires i <= |items|
    ensures Walk(items, DetectStep(fn), s, i) ==
      match FirstWhere(items, Passes(fn), i)
      case Some(k) => Walked(items[k], k + 1, Some(Break))
      case None => Walked(s, |items|, None)
    decreases |items| - i
  {
    if i < |items| && !Truthy(fn(items[i], i)) {
      WalkDetect(items, fn, s, i + 1);
    }
  }

  /** `_.detect(obj, iterator)`: the first item the iterator accepts, or
      undefined; the iterator is not called past that item. */
  method Detect(obj: Value, fn: (Value, nat) -> Value) returns (r: Completion<Value>, calls: nat)
    ensures Visit(obj).Abrupt? ==> r == Abrupt(TypeError) && calls == 0
    ensures Visit(obj).Normal? ==>
      var items := Visit(obj).value;
      match FirstWhere(items, Passes(fn), 0)
      case Some(k) => r == Normal(items[k]) && calls == k + 1
      case None => r == Normal(Undef) && calls == |items|
  {
    var done, result, visited := Each(obj, DetectStep(fn), Undef);
    calls := |visited|;
    if Visit(obj).Abrupt? {
      return Abrupt(TypeError), calls;
    }
    WalkDetect(Visit(obj).value, fn, Undef, 0);
    return Normal(result), calls;
  }

  // ---------------------------------------------------------------------
  // select and reject

  function KeepStep(keep: (Value, nat) -> bool): (seq<Value>, Value, nat) -> seq<Value> {
    (results: seq<Value>, value: Value, index: nat) => if keep(value, index) then results + [value] else results
  }

  lemma {:induction false} FilterFold(items: seq<Value>, keep: (Value, nat) -> bool)
    ensures FoldLeft(KeepStep(keep), [], items) == Filter(items, keep)
    decreases |items|
  {
    if items != [] {
      FilterFold(items[..|items| - 1], keep);
    }
  }

  /** `_.select(obj, iterator)`: the items the iterator accepts, in order. */
  method Select(obj: Value, fn: (Value, nat) -> Value) returns (r: Completion<seq<Value>>)
    ensures Visit(obj).Abrupt? ==> r == Abrupt(TypeError)
    ensures Visit(obj).Normal? ==> r == Normal(Filter(Visit(obj).value, Passes(fn)))
  {
    var done, results, _ := Each(obj, FoldStep(KeepStep(Passes(fn))), []);
    if Visit(obj).Abrupt? {
      return Abrupt(TypeError);
    }
    WalkFoldFromStart(Visit(obj).value, KeepStep(Passes(fn)), []);
    FilterFold(Visit(obj).value, Passes(fn));
    return Normal(results);
  }

  /** `_.reject(obj, iterator)`: the items the iterator turns down, in order. */
  method Reject(obj: Value, fn: (Value, nat) -> Value) returns (r: Completion<seq<Value>>)
    ensures Visit(obj).Abrupt? ==> r == Abrupt(TypeError)
    ensures Visit(obj).Normal? ==> r == Normal(Filter(Visit(obj).value, Fails(fn)))
  {
    var done, results, _ := Each(obj, FoldStep(KeepStep(Fails(fn))), []);
    if Visit(obj).Abrupt? {
      return Abrupt(TypeError);
    }
    WalkFoldFromStart(Visit(obj).value, KeepStep(Fails(fn)), []);
    FilterFold(Visit(obj).value, Fails(fn));
    return Normal(results);
  }

  /** A value survives the filter exactly when some occurrence of it passes. */
  lemma {:induction false} FilterMembers(items: seq<Value>, keep: (Value, nat) -> bool, x: Value)
    ensures x in Filter(items, keep) <==> exists j :: 0 <= j < |items| && items[j] == x && keep(items[j], j)
    decreases |items|
  {
    if items != [] {
      var n := |items| - 1;
      FilterMembers(items[..n], keep, x);
      if x in Filter(items[..n], keep) {
        var j :| 0 <= j < n && items[..n][j] == x && keep(items[..n][j], j);
        assert items[j] == x && keep(items[j], j);
      }
    }
  }

  /** Select and reject split the collection: every item lands in exactly
      one of the two, as often as it occurs. */
  lemma {:induction false} SelectRejectPartition(items: seq<Value>, fn: (Value, nat) -> Value)
    ensures multiset(Filter(items, Passes(fn))) + multiset(Filter(items, Fails(fn))) == multiset(items)
    decreases |items|
  {
    if items != [] {
      var n := |items| - 1;
      SelectRejectPartition(items[..n], fn);
      assert items == items[..n] + [items[n]];
    }
  }

  /** Two tests that agree on every item keep the same items. */
  lemma {:induction false} FilterAgree(items: seq<Value>, k1: (Value, nat) -> bool, k2: (Value, nat) -> bool)
    requires forall j :: 0 <= j < |items| ==> k1(items[j], j) == k2(items[j], j)
    ensures Filter(items, k1) == Filter(items, k2)
    decreases |items|
  {
    if items != [] {
      var n := |items| - 1;
      FilterAgree(items[..n], k1, k2);
    }
  }

  // ---------------------------------------------------------------------
  // all and any

  /** The iterator when one is given, otherwise the identity. */
  function OrIdentity(test: Option<(Value, nat) -> Value>): (Value, nat) -> Value {
    if test.Some? then test.value else (value: Value, index: nat) => value
  }

  function AllStep(fn: (Value, nat) -> Value): (bool, Value, nat) -> Step<bool> {
    (result: bool, value: Value, index: nat) =>
      var r := result && Truthy(fn(value, index));
      if !r then Raise(r, Break) else Continue(r)
  }

  lemma {:induction false} WalkAll(items: seq<Value>, fn: (Value, nat) -> Value, i: nat)
    requires i <= |items|
    ensures Walk(items, AllStep(fn), true, i) ==
      match FirstWhere(items, Fails(fn), i)
      case Some(k) => Walked(false, k + 1, Some(Break))
      case None => Walked(true, |items|, None)
    decreases |items| - i
  {
    if i < |items| && Truthy(fn(items[i], i)) {
      WalkAll(items, fn, i + 1);
    }
  }

  /** `_.all(obj, iterator)`: true exactly when every item passes; the walk
      stops at the first item that fails. */
  method All(obj: Value, test: Option<(Value, nat) -> Value>) returns (r: Completion<bool>, calls: nat)
    ensures Visit(obj).Abrupt? ==> r == Abrupt(TypeError) && calls == 0
    ensures Visit(obj).Normal? ==>
      var items := Visit(obj).value;
      var fn := OrIdentity(test);
      && r.Normal?
      && (r.value <==> forall j :: 0 <= j < |items| ==> Truthy(fn(items[j], j)))
      && calls == match FirstWhere(items, Fails(fn), 0) case Some(k) => k + 1 case None => |items|
  {
    var fn := OrIdentity(test);
    var done, result, visited := Each(obj, AllStep(fn), true);
    calls := |visited|;
    if Visit(obj).Abrupt? {
      return Abrupt(TypeError), calls;
    }
    WalkAll(Visit(obj).value, fn, 0);
    return Normal(result), calls;
  }

  function AnyStep(fn: (Value, nat) -> Value): (bool, Value, nat) -> Step<bool> {
    (result: bool, value: Value, index: nat) =>
      var r := Truthy(fn(value, index));
      if r then Raise(r, Break) else Continue(r)
  }

  lemma {:induction false} WalkAny(items: seq<Value>, fn: (Value, nat) -> Value, i: nat)
    requires i <= |items|
    ensures Walk(items, AnyStep(fn), false, i) ==
      match FirstWhere(items, Passes(fn), i)
      case Some(k) => Walked(true, k + 1, Some(Break))
      case None => Walked(false, |items|, None)
    decreases |items| - i
  {
    if i < |items| && !Truthy(fn(items[i], i)) {
      WalkAny(items, fn, i + 1);
    }
  }

  /** `_.any(obj, iterator)`: true exactly when some item passes; the walk
      stops at the first one that does. */
  method Any(obj: Value, test: Option<(Value, nat) -> Value>) returns (r: Completion<bool>, calls: nat)
    ensures Visit(obj).Abrupt? ==> r == Abrupt(TypeError) && calls == 0
    ensures Visit(obj).Normal? ==>
      var items := Visit(obj).value;
      var fn := OrIdentity(test);
      && r.Normal?
      && (r.value <==> exists j :: 0 <= j < |items| && Truthy(fn(items[j], j)))
      && calls == match FirstWhere(items, Passes(fn), 0) case Some(k) => k + 1 case None => |items|
  {
    var fn := OrIdentity(test);
    var done, result, visited := Each(obj, AnyStep(fn), false);
    calls := |visited|;
    if Visit(obj).Abrupt? {
      return Abrupt(TypeError), calls;
    }
    WalkAny(Visit(obj).value, fn, 0);
    return Normal(result), calls;
  }

  // ---------------------------------------------------------------------
  // include

  /** Whether the item's `value` property is the target. */
  function HasValue(target: Value): (Value, nat) -> bool {
    (pair: Value, index: nat) => Get(pair, "value") == Normal(target)
  }

  function IncludeStep(target: Value): (bool, Value, nat) -> Step<bool> {
    (found: bool, pair: Value, index: nat) =>
      match Get(pair, "value")
      case Abrupt(e) => Raise(found, e)
      case Normal(x) => if x == target then Raise(true, Break) else Continue(found)
  }

  lemma {:induction false} WalkInclude(items: seq<Value>, target: Value, i: nat)
    requires i <= |items|
    requires forall j :: i <= j < |items| ==> Get(items[j], "value").Normal?
    ensures Walk(items, IncludeStep(target), false, i) ==
      match FirstWhere(items, HasValue(target), i)
      case Some(k) => Walked(true, k + 1, Some(Break))
      case None => Walked(false, |items|, None)
    decreases |items| - i
  {
    if i < |items| {
      var here := Get(items[i], "value");
      if here != Normal(target) {
        assert !HasValue(target)(items[i], i);
        assert FirstWhere(items, HasValue(target), i) == FirstWhere(items, HasValue(target), i + 1);
        assert IncludeStep(target)(false, items[i], i) == Continue(false);
        assert Walk(items, IncludeStep(target), false, i) == Walk(items, IncludeStep(target), false, i + 1);
        WalkInclude(items, target, i + 1);
      } else {
        assert HasValue(target)(items[i], i);
        assert IncludeStep(target)(false, items[i], i) == Raise(true, Break);
      }
    }
  }

  /** "value" is not an array index. */
  lemma ValueIsNotIndex()
    ensures ParseIndex("value") == None
  {
    assert !IsDigit("value"[0]);
  }

  /** The items `each` hands over for anything but an array are characters
      and pairs, and reading `.value` off them never throws. */
  lemma NonArrayItemsHaveValue(obj: Value)
    requires !IsArray(obj) && Visit(obj).Normal?
    ensures forall j :: 0 <= j < |Visit(obj).value| ==> Get(Visit(obj).value[j], "value").Normal?
  {
  }

  /** In a record, a pair holds the target exactly when its property does. */
  lemma IncludeRecord(p: seq<Prop>, target: Value)
    ensures FirstWhere(Pairs(p), HasValue(target), 0).Some? <==> exists j :: 0 <= j < |p| && p[j].value == target
  {
    var items := Pairs(p);
    assert forall j :: 0 <= j < |p| ==> (HasValue(target)(items[j], j) <==> p[j].value == target);
    if k :| 0 <= k < |p| && p[k].value == target {
      assert HasValue(target)(items[k], k);
    }
  }

  /** A one-character string has no `value`: it reads as undefined. */
  lemma IncludeString(s: string, target: Value)
    ensures FirstWhere(Chars(s), HasValue(target), 0).Some? <==> s != "" && target == Undef
  {
    ValueIsNotIndex();
    var items := Chars(s);
    assert forall j :: 0 <= j < |s| ==> (HasValue(target)(items[j], j) <==> target == Undef);
    if s != "" && target == Undef {
      assert HasValue(target)(items[0], 0);
    }
  }

  /** `_.include(obj, target)`: for an array, whether some element is
      `=== target`; for a record, whether some property value is; for a
      string, whose characters are walked as items without a `value`,
      whether it is non-empty and the target is undefined. */
  method Include(obj: Value, target: Value) returns (r: Completion<bool>)
    ensures IsArray(obj) ==> r == Normal(target in Elements(obj))
    ensures obj.Undef? || obj.Null? ==> r == Abrupt(TypeError)
    ensures obj.Bool? || obj.Num? ==> r == Normal(false)
    ensures obj.Obj? ==> r == Normal(exists j :: 0 <= j < |obj.props| && obj.props[j].value == target)
    ensures obj.Str? ==> r == Normal(obj.s != "" && target == Undef)
  {
    if IsArray(obj) {
      var index := Search.IndexOf(Elements(obj), target);
      return Normal(index != -1);
    }
    var done, found, _ := Each(obj, IncludeStep(target), false);
    if Visit(obj).Abrupt? {
      return Abrupt(TypeError);
    }
    NonArrayItemsHaveValue(obj);
    WalkInclude(Visit(obj).value, target, 0);
    if obj.Obj? {
      IncludeRecord(obj.props, target);
    } else if obj.Str? {
      IncludeString(obj.s, target);
    }
    return Normal(found);
  }

  // ---------------------------------------------------------------------
  // pluck

  /** `item[key]` for the items from index `i` on. */
  function PluckedFrom(items: seq<Value>, key: string, i: nat): (r: seq<Value>)
    requires i <= |items|
    ensures |r| == |items| - i
    ensures forall j :: i <= j < |items| ==> r[j - i] == Property(items[j], key)
    decreases |items| - i
  {
    if i == |items| then [] else [Property(items[i], key)] + PluckedFrom(items, key, i + 1)
  }

  /** What `_.pluck(obj, key)` returns: the read throws when some item is
      undefined or null. */
  function Plucked(obj: Value, key: string): Completion<seq<Value>> {
    match Visit(obj)
    case Abrupt(e) => Abrupt(e)
    case Normal(items) =>
      if exists j :: 0 <= j < |items| && Get(items[j], key).Abrupt? then Abrupt(TypeError)
      else Normal(PluckedFrom(items, key, 0))
  }

  function PluckStep(key: string): (seq<Value>, Value, nat) -> Step<seq<Value>> {
    (results: seq<Value>, value: Value, index: nat) =>
      match Get(value, key)
      case Normal(x) => Continue(results + [x])
      case Abrupt(e) => Raise(results, e)
  }

  /** The pluck walk stops exactly at an undefined or null item, with the
      TypeError of reading a property of it. */
  lemma {:induction false} WalkPluckStops(items: seq<Value>, key: string, results: seq<Value>, i: nat)
    requires i <= |items|
    ensures var w := Walk(items, PluckStep(key), results, i);
      && (w.stop.None? <==> forall j :: i <= j < |items| ==> !(items[j].Undef? || items[j].Null?))
      && (w.stop.Some? ==> w.stop == Some(TypeError))
    decreases |items| - i
  {
    if i < |items| {
      var here := Get(items[i], key);
      if here.Normal? {
        WalkPluckStops(items, key, results + [here.value], i + 1);
      }
    }
  }

  /** Over items that can all be read, the pluck walk pushes `item[key]`
      for each of them. */
  lemma {:induction false} WalkPluckResults(items: seq<Value>, key: string, results: seq<Value>, i: nat)
    requires i <= |items|
    requires forall j :: i <= j < |items| ==> !(items[j].Undef? || items[j].Null?)
    ensures Walk(items, PluckStep(key), results, i).state == results + PluckedFrom(items, key, i)
    decreases |items| - i
  {
    if i < |items| {
      var here := Get(items[i], key);
      assert here.Normal?;
      assert PluckStep(key)(results, items[i], i) == Continue(results + [here.value]);
      WalkPluckResults(items, key, results + [here.value], i + 1);
      assert results + PluckedFrom(items, key, i) == (results + [here.value]) + PluckedFrom(items, key, i + 1);
    }
  }

  /** `_.pluck(obj, key)`: `item[key]` for every item, in order. */
  method Pluck(obj: Value, key: string) returns (r: Completion<seq<Value>>)
    ensures r == Plucked(obj, key)
  {
    var done, results, _ := Each(obj, PluckStep(key), []);
    var visit := Visit(obj);
    if visit.Abrupt? {
      return Abrupt(TypeError);
    }
    var items := visit.value;
    ghost var w := Walk(items, PluckStep(key), [], 0);
    assert results == w.state && done == Finish(obj, w.stop);
    WalkPluckStops(items, key, [], 0);
    if done.Abrupt? {
      return Abrupt(done.exc);
    }
    WalkPluckResults(items, key, [], 0);
    assert results == [] + PluckedFrom(items, key, 0) == PluckedFrom(items, key, 0);
    return Normal(results);
  }

  /** Plucking from a record reads each `[key, value]` pair. */
  lemma PluckRecord(p: seq<Prop>, key: string)
    ensures key == "key" ==> Plucked(Obj(p), key) == Normal(seq(|p|, j requires 0 <= j < |p| => Str(p[j].name)))
    ensures key == "value" ==> Plucked(Obj(p), key) == Normal(seq(|p|, j requires 0 <= j < |p| => p[j].value))
  {
    var items := Pairs(p);
    assert forall j :: 0 <= j < |items| ==> Get(items[j], key).Normal?;
    var plucked := PluckedFrom(items, key, 0);
    forall j | 0 <= j < |p|
      ensures plucked[j] == Property(Pair(p[j].name, p[j].value), key)
    {
      assert plucked[j - 0] == Property(items[j], key);
    }
    if key == "key" {
      assert PluckedFrom(items, key, 0) == seq(|p|, j requires 0 <= j < |p| => Str(p[j].name));
    } else if key == "value" {
      assert PluckedFrom(items, key, 0) == seq(|p|, j requires 0 <= j < |p| => p[j].value);
    }
  }

  /** Plucking from an array throws exactly when an element is undefined or
      null; otherwise it reads `element[key]` off every element. */
  lemma PluckArray(e: seq<Value>, key: string)
    ensures Plucked(Arr(e), key).Abrupt? <==> exists j :: 0 <= j < |e| && (e[j].Undef? || e[j].Null?)
    ensures Plucked(Arr(e), key).Normal? ==>
      Plucked(Arr(e), key).value == seq(|e|, j requires 0 <= j < |e| => Get(e[j], key).value)
  {
    assert forall j :: 0 <= j < |e| ==> (Get(e[j], key).Abrupt? <==> e[j].Undef? || e[j].Null?);
    if Plucked(Arr(e), key).Normal? {
      assert PluckedFrom(e, key, 0) == seq(|e|, j requires 0 <= j < |e| => Get(e[j], key).value);
    }
  }

  // ---------------------------------------------------------------------
  // max and min

  /** The best item seen so far, with the iterator's result for it. */
  datatype Best = Best(value: Value, computed: int)

  /** `k` is the last item with the greatest key. */
  predicate IsLastMax(items: seq<Value>, fn: (Value, nat) -> int, k: int) {
    && 0 <= k < |items|
    && (forall j :: 0 <= j < |items| ==> fn(items[j], j) <= fn(items[k], k))
    && (forall j :: k < j < |items| ==> fn(items[j], j) < fn(items[k], k))
  }

  /** `k` is the first item with the least key. */
  predicate IsFirstMin(items: seq<Value>, fn: (Value, nat) -> int, k: int) {
    && 0 <= k < |items|
    && (forall j :: 0 <= j < |items| ==> fn(items[k], k) <= fn(items[j], j))
    && (forall j :: 0 <= j < k ==> fn(items[k], k) < fn(items[j], j))
  }

  function MaxStep(fn: (Value, nat) -> int): (Option<Best>, Value, nat) -> Option<Best> {
    (result: Option<Best>, value: Value, index: nat) =>
      var computed := fn(value, index);
      if result.None? || computed >= result.value.computed then Some(Best(value, computed)) else result
  }

  function MinStep(fn: (Value, nat) -> int): (Option<Best>, Value, nat) -> Option<Best> {
    (result: Option<Best>, value: Value, index: nat) =>
      var computed := fn(value, index);
      if result.None? || computed < result.value.computed then Some(Best(value, computed)) else result
  }

  /** One more item: it becomes the maximum when its key is at least the
      current one's, ties going to the later item. */
  lemma LastMaxExtend(items: seq<Value>, fn: (Value, nat) -> int, k: nat)
    requires |items| > 0 && IsLastMax(items[..|items| - 1], fn, k)
    ensures var n := |items| - 1;
      if fn(items[n], n) >= fn(items[k], k) then IsLastMax(items, fn, n) else IsLastMax(items, fn, k)
  {
    var n := |items| - 1;
    assert forall j :: 0 <= j < n ==> items[..n][j] == items[j];
  }

  /** One more item: it becomes the minimum only when its key is strictly
      smaller, ties going to the earlier item. */
  lemma FirstMinExtend(items: seq<Value>, fn: (Value, nat) -> int, k: nat)
    requires |items| > 0 && IsFirstMin(items[..|items| - 1], fn, k)
    ensures var n := |items| - 1;
      if fn(items[n], n) < fn(items[k], k) then IsFirstMin(items, fn, n) else IsFirstMin(items, fn, k)
  {
    var n := |items| - 1;
    assert forall j :: 0 <= j < n ==> items[..n][j] == items[j];
  }

  lemma {:induction false} MaxFold(items: seq<Value>, fn: (Value, nat) -> int)
    ensures var r := FoldLeft(MaxStep(fn), None, items);
      && (r.None? <==> items == [])
      && (r.Some? ==> exists k :: IsLastMax(items, fn, k) && r.value == Best(items[k], fn(items[k], k)))
    decreases |items|
  {
    if items != [] {
      var n := |items| - 1;
      MaxFold(items[..n], fn);
      var prev := FoldLeft(MaxStep(fn), None, items[..n]);
      var r := FoldLeft(MaxStep(fn), None, items);
      assert r == MaxStep(fn)(prev, items[n], n);
      if prev.None? {
        assert IsLastMax(items, fn, 0);
      } else {
        var k :| IsLastMax(items[..n], fn, k) && prev.value == Best(items[..n][k], fn(items[..n][k], k));
        LastMaxExtend(items, fn, k);
        if fn(items[n], n) >= prev.value.computed {
          assert IsLastMax(items, fn, n) && r.value == Best(items[n], fn(items[n], n));
        } else {
          assert IsLastMax(items, fn, k) && r.value == Best(items[k], fn(items[k], k));
        }
      }
    }
  }

  lemma {:induction false} MinFold(items: seq<Value>, fn: (Value, nat) -> int)
    ensures var r := FoldLeft(MinStep(fn), None, items);
      && (r.None? <==> items == [])
      && (r.Some? ==> exists k :: IsFirstMin(items, fn, k) && r.value == Best(items[k], fn(items[k], k)))
    decreases |items|
  {
    if items != [] {
      var n := |items| - 1;
      MinFold(items[..n], fn);
      var prev := FoldLeft(MinStep(fn), None, items[..n]);
      var r := FoldLeft(MinStep(fn), None, items);
      assert r == MinStep(fn)(prev, items[n], n);
      if prev.None? {
        assert IsFirstMin(items, fn, 0);
      } else {
        var k :| IsFirstMin(items[..n], fn, k) && prev.value == Best(items[..n][k], fn(items[..n][k], k));
        FirstMinExtend(items, fn, k);
        if fn(items[n], n) < prev.value.computed {
          assert IsFirstMin(items, fn, n) && r.value == Best(items[n], fn(items[n], n));
        } else {
          assert IsFirstMin(items, fn, k) && r.value == Best(items[k], fn(items[k], k));
        }
      }
    }
  }

  /** `_.max(obj, iterator)`: the last item with the greatest key; reading
      `result.value` when nothing was visited throws. */
  method Max(obj: Value, fn: (Value, nat) -> int) returns (r: Completion<Value>)
    ensures Visit(obj).Abrupt? || Visit(obj) == Normal([]) ==> r == Abrupt(TypeError)
    ensures Visit(obj).Normal? && Visit(obj).value != [] ==>
      r.Normal? && exists k :: IsLastMax(Visit(obj).value, fn, k) && r.value == Visit(obj).value[k]
  {
    var done, result, _ := Each(obj, FoldStep(MaxStep(fn)), None);
    if Visit(obj).Abrupt? {
      return Abrupt(TypeError);
    }
    WalkFoldFromStart(Visit(obj).value, MaxStep(fn), None);
    MaxFold(Visit(obj).value, fn);
    if result.None? {
      return Abrupt(TypeError);
    }
    return Normal(result.value.value);
  }

  /** `_.min(obj, iterator)`: the first item with the least key; reading
      `result.value` when nothing was visited throws. */
  method Min(obj: Value, fn: (Value, nat) -> int) returns (r: Completion<Value>)
    ensures Visit(obj).Abrupt? || Visit(obj) == Normal([]) ==> r == Abrupt(TypeError)
    ensures Visit(obj).Normal? && Visit(obj).value != [] ==>
      r.Normal? && exists k :: IsFirstMin(Visit(obj).value, fn, k) && r.value == Visit(obj).value[k]
  {
    var done, result, _ := Each(obj, FoldStep(MinStep(fn)), None);
    if Visit(obj).Abrupt? {
      return Abrupt(TypeError);
    }
    WalkFoldFromStart(Visit(obj).value, MinStep(fn), None);
    MinFold(Visit(obj).value, fn);
    if result.None? {
      return Abrupt(TypeError);
    }
    return Normal(result.value.value);
  }

  // ---------------------------------------------------------------------
  // sortBy

  /** An item paired with its sort key, as the mapping step builds it. */
  datatype Ranked = Ranked(value: Value, criteria: int)

  predicate SortedByCriteria(rs: seq<Ranked>) {
    forall i, j :: 0 <= i < j < |rs| ==> rs[i].criteria <= rs[j].criteria
  }

  function RankedValues(rs: seq<Ranked>): (r: seq<Value>)
    ensures |r| == |rs|
  {
    seq(|rs|, j requires 0 <= j < |rs| => rs[j].value)
  }

  /** The mapped records `{value, criteria}` of the items. */
  function Ranking(items: seq<Value>, fn: (Value, nat) -> int): (r: seq<Ranked>)
    ensures |r| == |items|
  {
    seq(|items|, j requires 0 <= j < |items| => Ranked(items[j], fn(items[j], j)))
  }

  /** Places `x` after every entry whose criteria is not greater. */
  function InsertRanked(x: Ranked, rs: seq<Ranked>): seq<Ranked>
    decreases |rs|
  {
    if rs == [] then [x]
    else if x.criteria < rs[0].criteria then [x] + rs
    else [rs[0]] + InsertRanked(x, rs[1..])
  }

  /** An insertion sort of the mapped records by criteria: one order the
      host's `sort` may produce with a comparator that puts smaller
      criteria first and calls equal criteria a tie. */
  function SortRanked(rs: seq<Ranked>): seq<Ranked>
    decreases |rs|
  {
    if rs == [] then [] else InsertRanked(rs[|rs| - 1], SortRanked(rs[..|rs| - 1]))
  }

  /** Inserting keeps every record and adds `x`. */
  lemma {:induction false} InsertRankedPermutes(x: Ranked, rs: seq<Ranked>)
    ensures multiset(InsertRanked(x, rs)) == multiset(rs) + multiset{x}
    decreases |rs|
  {
    if rs != [] && rs[0].criteria <= x.criteria {
      InsertRankedPermutes(x, rs[1..]);
      assert rs == [rs[0]] + rs[1..];
    }
  }

  /** Inserting keeps every value and adds `x`'s. */
  lemma {:induction false} InsertRankedValues(x: Ranked, rs: seq<Ranked>)
    ensures multiset(RankedValues(InsertRanked(x, rs))) == multiset(RankedValues(rs)) + multiset{x.value}
    decreases |rs|
  {
    if rs == [] {
    } else if x.criteria < rs[0].criteria {
      assert RankedValues([x] + rs) == [x.value] + RankedValues(rs);
    } else {
      var tail := InsertRanked(x, rs[1..]);
      InsertRankedValues(x, rs[1..]);
      assert RankedValues([rs[0]] + tail) == [rs[0].value] + RankedValues(tail);
      assert RankedValues(rs) == [rs[0].value] + RankedValues(rs[1..]);
    }
  }

  /** A criteria no greater than everything in `rs` and than `x` stays a
      lower bound after the insertion. */
  lemma {:induction false} InsertRankedBound(c: int, x: Ranked, rs: seq<Ranked>)
    requires c <= x.criteria && forall y :: y in rs ==> c <= y.criteria
    ensures forall y :: y in InsertRanked(x, rs) ==> c <= y.criteria
    decreases |rs|
  {
    if rs != [] && rs[0].criteria <= x.criteria {
      InsertRankedBound(c, x, rs[1..]);
    }
  }

  lemma {:induction false} InsertRankedSorted(x: Ranked, rs: seq<Ranked>)
    requires SortedByCriteria(rs)
    ensures SortedByCriteria(InsertRanked(x, rs))
    decreases |rs|
  {
    if rs != [] && rs[0].criteria <= x.criteria {
      var tail := InsertRanked(x, rs[1..]);
      InsertRankedSorted(x, rs[1..]);
      InsertRankedBound(rs[0].criteria, x, rs[1..]);
      var r := [rs[0]] + tail;
      forall i, j | 0 <= i < j < |r|
        ensures r[i].criteria <= r[j].criteria
      {
        if i == 0 {
          assert r[j] in tail;
        } else {
          assert r[i] == tail[i - 1] && r[j] == tail[j - 1];
        }
      }
    }
  }

  /** The sort orders by criteria and is a permutation, values included. */
  lemma {:induction false} SortRankedCorrect(rs: seq<Ranked>)
    ensures SortedByCriteria(SortRanked(rs))
    ensures multiset(SortRanked(rs)) == multiset(rs)
    ensures multiset(RankedValues(SortRanked(rs))) == multiset(RankedValues(rs))
    decreases |rs|
  {
    if rs != [] {
      var n := |rs| - 1;
      var init, last := rs[..n], rs[n];
      var sorted := SortRanked(init);
      assert SortRanked(rs) == InsertRanked(last, sorted);
      SortRankedCorrect(init);
      InsertRankedSorted(last, sorted);
      InsertRankedPermutes(last, sorted);
      InsertRankedValues(last, sorted);
      assert rs == init + [last];
      assert multiset(rs) == multiset(init) + multiset{last};
      assert RankedValues(rs) == RankedValues(init) + [last.value];
      assert multiset(RankedValues(rs)) == multiset(RankedValues(init)) + multiset{last.value};
    }
  }

  /** `_.sortBy(obj, iterator)`: the items reordered so that their criteria
      never decrease; nothing is lost or added. */
  function SortBy(obj: Value, fn: (Value, nat) -> int): (r: Completion<seq<Value>>)
    ensures Visit(obj).Abrupt? ==> r == Abrupt(TypeError)
    ensures Visit(obj).Normal? ==> r.Normal? && multiset(r.value) == multiset(Visit(obj).value)
    ensures Visit(obj).Normal? ==>
      exists rs :: SortedByCriteria(rs) && multiset(rs) == multiset(Ranking(Visit(obj).value, fn)) && r.value == RankedValues(rs)
  {
    match Visit(obj)
    case Abrupt(e) => Abrupt(e)
    case Normal(items) =>
      var rs := SortRanked(Ranking(items, fn));
      SortRankedCorrect(Ranking(items, fn));
      assert RankedValues(Ranking(items, fn)) == items;
      Normal(RankedValues(rs))
  }

  // ---------------------------------------------------------------------
  // toArray and size

  /** `_.toArray(iterable)`: nothing for a falsy value, otherwise exactly the
      items `each` visits. */
  method ToArray(iterable: Value) returns (r: seq<Value>)
    ensures !Truthy(iterable) ==> r == []
    ensures Truthy(iterable) ==> Visit(iterable) == Normal(r)
  {
    if !Truthy(iterable) {
      return [];
    }
    if IsArray(iterable) {
      return Elements(iterable);
    }
    var mapped := Map(iterable, (value: Value, index: nat) => value);
    r := mapped.value;
    assert r == Visit(iterable).value;
  }

  /** `_.size(obj)`: the number of elements, characters or properties. */
  method Size(obj: Value) returns (n: nat)
    ensures obj.Arr? ==> n == |obj.elems|
    ensures obj.Obj? ==> n == |obj.props|
    ensures obj.Str? ==> n == |obj.s|
    ensures obj.Pair? ==> n == 2
    ensures obj.Undef? || obj.Null? || obj.Bool? || obj.Num? ==> n == 0
  {
    var items := ToArray(obj);
    n := |items|;
  }
}
