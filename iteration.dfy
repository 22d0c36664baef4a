/** `_.each`, the one loop every collection function runs on. The callback
    is a state transformer: the state stands for whatever the callback's
    closure captures (a results array, a `memo`, a `found` flag), and a
    callback that throws says so with `Raise`. Throwing the string
    '__break__' is how a callback stops the walk early. */
module Iteration {
  import opened Js

  /** The value a callback throws to leave `each` early. */
  const Break: Exc := Thrown(Str("__break__"))

  /** What `each` hands to the callback, in order: array elements by index,
      string characters by index, a `[key, value]` pair per record property,
      nothing for a number or a boolean; on undefined or null the probe
      `obj.forEach` itself throws a TypeError. */
  function Visit(obj: Value): (items: Completion<seq<Value>>)
    ensures items.Abrupt? <==> obj.Undef? || obj.Null?
    ensures items.Abrupt? ==> items.exc == TypeError
    ensures IsArray(obj) ==> items == Normal(Elements(obj))
    ensures obj.Obj? ==> items == Normal(Pairs(obj.props))
  {
    match obj
    case Undef | Null => Abrupt(TypeError)
    case Bool(_) | Num(_) => Normal([])
    case Str(s) => Normal(Chars(s))
    case Arr(e) => Normal(e)
    case Pair(k, x) => Normal([Str(k), x])
    case Obj(p) => Normal(Pairs(p))
  }

  /** One callback invocation: the closure's new state, and whether it threw. */
  datatype Step<S> = Continue(state: S) | Raise(state: S, exc: Exc)

  /** The end of a walk: final state, number of callback invocations, and
      the exception that stopped it, if any. */
  datatype Walked<S> = Walked(state: S, calls: nat, stop: Option<Exc>)

  /** The walk from index `i` on, with the closure in state `s`. */
  function Walk<S>(items: seq<Value>, callback: (S, Value, nat) -> Step<S>, s: S, i: nat): (w: Walked<S>)
    ensures i <= |items| ==> i <= w.calls <= |items|
    ensures i <= |items| && w.stop.None? ==> w.calls == |items|
    ensures w.stop.Some? ==> i < w.calls
    decreases |items| - i
  {
    if |items| <= i then Walked(s, i, None)
    else match callback(s, items[i], i)
      case Continue(t) => Walk(items, callback, t, i + 1)
      case Raise(t, e) => Walked(t, i + 1, Some(e))
  }

  /** How `each` ends: the '__break__' exception is swallowed, any other is
      rethrown, and otherwise the collection itself is returned. */
  function Finish(obj: Value, stop: Option<Exc>): (r: Completion<Value>)
    ensures r.Normal? <==> stop.None? || stop == Some(Break)
    ensures r.Normal? ==> r.value == obj
    ensures r.Abrupt? ==> Some(r.exc) == stop
  {
    if stop.Some? && stop.value != Break then Abrupt(stop.value) else Normal(obj)
  }

  /** `_.each(obj, callback)`. `visited` lists the indices passed to the
      callback, in call order. */
  method Each<S>(obj: Value, callback: (S, Value, nat) -> Step<S>, init: S)
    returns (r: Completion<Value>, state: S, visited: seq<nat>)
    ensures Visit(obj).Abrupt? ==> r == Abrupt(TypeError) && state == init && visited == []
    ensures Visit(obj).Normal? ==>
      var w := Walk(Visit(obj).value, callback, init, 0);
      && state == w.state
      && r == Finish(obj, w.stop)
      && |visited| == w.calls
      && (forall k :: 0 <= k < |visited| ==> visited[k] == k)
    ensures r.Normal? ==> r.value == obj
  {
    var items := Visit(obj);
    if items.Abrupt? {
      return Abrupt(TypeError), init, [];
    }
    var xs := items.value;
    state, visited := init, [];
    var stop: Option<Exc> := None;
    var i := 0;
    while i < |xs| && stop.None?
      invariant 0 <= i <= |xs|
      invariant |visited| == i && forall k :: 0 <= k < i ==> visited[k] == k
      invariant stop.None? ==> Walk(xs, callback, state, i) == Walk(xs, callback, init, 0)
      invariant stop.Some? ==> Walked(state, i, stop) == Walk(xs, callback, init, 0)
      decreases |xs| - i
    {
      visited := visited + [i];
      match callback(state, xs[i], i) {
        case Continue(t) =>
          state := t;
        case Raise(t, e) =>
          state, stop := t, Some(e);
      }
      i := i + 1;
    }
    r := Finish(obj, stop);
  }

  // ---------------------------------------------------------------------
  // What a walk does.

  /** Without a throw every item is visited; a throw ends the walk right
      after the call that raised it. */
  lemma {:induction false} WalkCalls<S>(items: seq<Value>, callback: (S, Value, nat) -> Step<S>, s: S, i: nat)
    requires i <= |items|
    ensures var w := Walk(items, callback, s, i);
      && i <= w.calls <= |items|
      && (w.stop.None? ==> w.calls == |items|)
      && (w.stop.Some? ==> i < w.calls)
    decreases |items| - i
  {
    if i < |items| && callback(s, items[i], i).Continue? {
      WalkCalls(items, callback, callback(s, items[i], i).state, i + 1);
    }
  }

  /** No callback happens after the throw: the items after the one whose
      call threw are never looked at, so the walk over the items up to that
      one ends the same way. */
  lemma {:induction false} WalkIgnoresRest<S>(items: seq<Value>, callback: (S, Value, nat) -> Step<S>, s: S, i: nat)
    requires i <= |items|
    requires Walk(items, callback, s, i).stop.Some?
    ensures Walk(items, callback, s, i).calls <= |items|
    ensures Walk(items[..Walk(items, callback, s, i).calls], callback, s, i) == Walk(items, callback, s, i)
    decreases |items| - i
  {
    WalkCalls(items, callback, s, i);
    var w := Walk(items, callback, s, i);
    var prefix := items[..w.calls];
    assert prefix[i] == items[i];
    match callback(s, items[i], i)
    case Continue(t) =>
      WalkIgnoresRest(items, callback, t, i + 1);
      assert Walk(items, callback, t, i + 1) == w;
    case Raise(t, e) =>
  }

  // ---------------------------------------------------------------------
  // Callbacks that never throw: the walk is a left fold.

  function FoldStep<S>(f: (S, Value, nat) -> S): (S, Value, nat) -> Step<S> {
    (s: S, v: Value, i: nat) => Continue(f(s, v, i))
  }

  /** `memo := f(memo, value, index)` over the items, first to last. */
  function FoldLeft<S>(f: (S, Value, nat) -> S, memo: S, items: seq<Value>): S
    decreases |items|
  {
    if items == [] then memo
    else f(FoldLeft(f, memo, items[..|items| - 1]), items[|items| - 1], |items| - 1)
  }

  /** A walk with a non-throwing callback, resumed at index `i` in the state
      reached after the first `i` items, ends in the fold of all items. */
  lemma {:induction false} WalkFold<S>(items: seq<Value>, f: (S, Value, nat) -> S, memo: S, i: nat)
    requires i <= |items|
    ensures Walk(items, FoldStep(f), FoldLeft(f, memo, items[..i]), i) == Walked(FoldLeft(f, memo, items), |items|, None)
    decreases |items| - i
  {
    if i == |items| {
      assert items[..i] == items;
    } else {
      var s := FoldLeft(f, memo, items[..i]);
      assert items[..i + 1][..i] == items[..i];
      assert FoldStep(f)(s, items[i], i) == Continue(FoldLeft(f, memo, items[..i + 1]));
      WalkFold(items, f, memo, i + 1);
    }
  }

  lemma WalkFoldFromStart<S>(items: seq<Value>, f: (S, Value, nat) -> S, memo: S)
    ensures Walk(items, FoldStep(f), memo, 0) == Walked(FoldLeft(f, memo, items), |items|, None)
  {
    assert items[..0] == [];
    WalkFold(items, f, memo, 0);
  }
}
