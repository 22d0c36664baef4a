/** The object functions: `keys` and `values` (both `pluck`s over the
    `[key, value]` pairs `each` builds), `extend` and `clone` (property
    assignment in place), and the deep comparison `isEqual`. */
module Objects {
  import opened Js
  import opened Iteration
  import opened Collections

  // ---------------------------------------------------------------------
  // keys and values

  /** For a record without repeated names, a name finds its own property. */
  lemma {:induction false} LookupDistinct(p: seq<Prop>, j: nat)
    requires DistinctNames(p) && j < |p|
    ensures Lookup(p, p[j].name) == p[j].value
    decreases j
  {
    if j > 0 {
      LookupDistinct(p[1..], j - 1);
    }
  }

  /** `_.keys(obj)`: a pluck of the key of every visited item, which for a
      record is its names in order. */
  method Keys(obj: Value) returns (r: Completion<seq<Value>>)
    ensures r == Plucked(obj, "key")
    ensures obj.Obj? ==> r == Normal(seq(|obj.props|, j requires 0 <= j < |obj.props| => Str(obj.props[j].name)))
  {
    r := Pluck(obj, "key");
    if obj.Obj? {
      PluckRecord(obj.props, "key");
    }
  }

  /** `_.values(obj)`: a pluck of the value of every visited item, which for
      a record is its values in order. */
  method Values(obj: Value) returns (r: Completion<seq<Value>>)
    ensures r == Plucked(obj, "value")
    ensures obj.Obj? ==> r == Normal(seq(|obj.props|, j requires 0 <= j < |obj.props| => obj.props[j].value))
  {
    r := Pluck(obj, "value");
    if obj.Obj? {
      PluckRecord(obj.props, "value");
    }
  }

  /** Keys and values line up: on a record without repeated names, reading
      the `j`-th key gives the `j`-th value. */
  lemma KeysValuesAlign(p: seq<Prop>, j: nat)
    requires DistinctNames(p) && j < |p|
    ensures Plucked(Obj(p), "key").Normal? && Plucked(Obj(p), "value").Normal?
    ensures var ks := Plucked(Obj(p), "key").value;
      var vs := Plucked(Obj(p), "value").value;
      |ks| == |vs| == |p| && ks[j].Str? && Get(Obj(p), ks[j].s) == Normal(vs[j])
  {
    PluckRecord(p, "key");
    PluckRecord(p, "value");
    LookupDistinct(p, j);
  }

  // ---------------------------------------------------------------------
  // extend and clone

  /** Assigning a property of a record: overwrite the first property so
      named, or add the name at the end. */
  function Assign(p: seq<Prop>, name: Name, value: Value): seq<Prop>
    decreases |p|
  {
    if p == [] then [Prop(name, value)]
    else if p[0].name == name then [Prop(name, value)] + p[1..]
    else [p[0]] + Assign(p[1..], name, value)
  }

  /** After the assignment the name reads as the new value and every other
      name as before. */
  lemma {:induction false} AssignLookup(p: seq<Prop>, name: Name, value: Value, k: string)
    ensures Lookup(Assign(p, name, value), k) == if k == name then value else Lookup(p, k)
    decreases |p|
  {
    if p != [] && p[0].name != name {
      AssignLookup(p[1..], name, value, k);
    }
  }

  /** A new name is added at the end; an existing one keeps its place, so
      the names do not change. */
  lemma {:induction false} AssignShape(p: seq<Prop>, name: Name, value: Value)
    ensures (forall j :: 0 <= j < |p| ==> p[j].name != name) ==> Assign(p, name, value) == p + [Prop(name, value)]
    ensures (exists j :: 0 <= j < |p| && p[j].name == name) ==> Names(Assign(p, name, value)) == Names(p)
    decreases |p|
  {
    var r := Assign(p, name, value);
    if p != [] && p[0].name == name {
      assert Names(r) == Names(p);
    } else if p != [] {
      var rest := Assign(p[1..], name, value);
      AssignShape(p[1..], name, value);
      assert p == [p[0]] + p[1..];
      if exists j :: 0 <= j < |p| && p[j].name == name {
        var j :| 0 <= j < |p| && p[j].name == name;
        assert p[1..][j - 1].name == name;
        assert Names(r) == [p[0].name] + Names(rest);
        assert Names(p) == [p[0].name] + Names(p[1..]);
      }
    }
  }

  lemma AssignDistinct(p: seq<Prop>, name: Name, value: Value)
    requires DistinctNames(p)
    ensures DistinctNames(Assign(p, name, value))
  {
    AssignShape(p, name, value);
    var r := Assign(p, name, value);
    if exists j :: 0 <= j < |p| && p[j].name == name {
      assert forall j :: 0 <= j < |r| ==> r[j].name == Names(r)[j] == Names(p)[j] == p[j].name;
    }
  }

  /** Copies the source's property under each name of `keys`, in order, onto
      the record `p`. */
  function AssignAll(p: seq<Prop>, source: Value, keys: seq<Name>): (r: seq<Prop>)
    ensures |p| <= |r| <= |p| + |keys|
    ensures forall j :: 0 <= j < |p| ==> r[j].name == p[j].name
    decreases |keys|
  {
    if keys == [] then p
    else
      var n := |keys| - 1;
      var before := AssignAll(p, source, keys[..n]);
      AssignPrefix(before, keys[n], Property(source, keys[n]));
      Assign(before, keys[n], Property(source, keys[n]))
  }

  /** An assignment adds at most one property and leaves the names of the
      existing ones in place. */
  lemma {:induction false} AssignPrefix(p: seq<Prop>, name: Name, value: Value)
    ensures |p| <= |Assign(p, name, value)| <= |p| + 1
    ensures forall j :: 0 <= j < |p| ==> Assign(p, name, value)[j].name == p[j].name
    decreases |p|
  {
    if p != [] && p[0].name != name {
      AssignPrefix(p[1..], name, value);
      var r := Assign(p, name, value);
      forall j | 0 <= j < |p|
        ensures r[j].name == p[j].name
      {
        if j > 0 {
          assert r[j] == Assign(p[1..], name, value)[j - 1];
          assert p[j] == p[1..][j - 1];
        }
      }
    }
  }

  /** After the copy, every copied name reads as in the source and every
      other name as before. */
  lemma {:induction false} LookupAssignAll(p: seq<Prop>, source: Value, keys: seq<Name>, k: string)
    ensures Lookup(AssignAll(p, source, keys), k) == if k in keys then Property(source, k) else Lookup(p, k)
    decreases |keys|
  {
    if keys != [] {
      var n := |keys| - 1;
      LookupAssignAll(p, source, keys[..n], k);
      AssignLookup(AssignAll(p, source, keys[..n]), keys[n], Property(source, keys[n]), k);
      assert keys == keys[..n] + [keys[n]];
    }
  }

  /** Copying keeps a record free of repeated names. */
  lemma {:induction false} AssignAllDistinct(p: seq<Prop>, source: Value, keys: seq<Name>)
    requires DistinctNames(p)
    ensures DistinctNames(AssignAll(p, source, keys))
    decreases |keys|
  {
    if keys != [] {
      var n := |keys| - 1;
      AssignAllDistinct(p, source, keys[..n]);
      AssignDistinct(AssignAll(p, source, keys[..n]), keys[n], Property(source, keys[n]));
    }
  }

  lemma ExtendFacts(p: seq<Prop>, source: Value, keys: seq<Name>)
    requires DistinctNames(p)
    ensures DistinctNames(AssignAll(p, source, keys))
    ensures forall k :: Lookup(AssignAll(p, source, keys), k) == if k in keys then Property(source, k) else Lookup(p, k)
  {
    AssignAllDistinct(p, source, keys);
    forall k {
      LookupAssignAll(p, source, keys, k);
    }
  }

  /** A plain record whose properties the library assigns in place. */
  class JsObject {
    var props: seq<Prop>

    ghost predicate Valid()
      reads this
    {
      DistinctNames(props)
    }

    /** `{}` */
    constructor ()
      ensures props == [] && Valid()
    {
      props := [];
    }

    /** `_.extend(destination, source)` with this object as the destination:
        every enumerable property of `source`, in `for..in` order, is
        assigned onto it; it is returned. */
    method Extend(source: Value) returns (destination: JsObject)
      requires Valid()
      modifies this
      ensures destination == this && Valid()
      ensures props == AssignAll(old(props), source, ForInKeys(source))
      ensures forall k :: Lookup(props, k) == if k in ForInKeys(source) then Property(source, k) else Lookup(old(props), k)
    {
      var keys := ForInKeys(source);
      for i := 0 to |keys|
        invariant props == AssignAll(old(props), source, keys[..i])
      {
        assert keys[..i + 1][..i] == keys[..i] && keys[..i + 1][i] == keys[i];
        props := Assign(props, keys[i], Property(source, keys[i]));
      }
      assert keys[..|keys|] == keys;
      ExtendFacts(old(props), source, keys);
      return this;
    }

    /** `_.clone(obj)`: a new record extended with `obj`. */
    static method Clone(obj: Value) returns (copy: JsObject)
      ensures fresh(copy) && copy.Valid()
      ensures copy.props == AssignAll([], obj, ForInKeys(obj))
      ensures forall k :: Lookup(copy.props, k) == if k in ForInKeys(obj) then Property(obj, k) else Undef
    {
      copy := new JsObject();
      copy := copy.Extend(obj);
    }
  }

  /** Cloning a record without repeated names copies it exactly, order
      included. */
  lemma {:induction false} CloneRecord(p: seq<Prop>, m: nat)
    requires DistinctNames(p) && m <= |p|
    ensures AssignAll([], Obj(p), Names(p)[..m]) == p[..m]
    decreases m
  {
    if m > 0 {
      CloneRecord(p, m - 1);
      assert Names(p)[..m][..m - 1] == Names(p)[..m - 1];
      LookupDistinct(p, m - 1);
      AssignShape(p[..m - 1], p[m - 1].name, p[m - 1].value);
      assert p[..m] == p[..m - 1] + [p[m - 1]];
    }
  }

  /** Cloning an array gives a record keyed by its indices. */
  lemma {:induction false} CloneArray(e: seq<Value>, m: nat)
    requires m <= |e|
    ensures AssignAll([], Arr(e), Indices(|e|)[..m]) == seq(m, i requires 0 <= i < m => Prop(IndexName(i), e[i]))
    decreases m
  {
    if m > 0 {
      CloneArray(e, m - 1);
      assert Indices(|e|)[..m][..m - 1] == Indices(|e|)[..m - 1];
      var prev := seq(m - 1, i requires 0 <= i < m - 1 => Prop(IndexName(i), e[i]));
      forall j | 0 <= j < m - 1
        ensures prev[j].name != IndexName(m - 1)
      {
        if prev[j].name == IndexName(m - 1) {
          IndexStringInjective(j, m - 1);
        }
      }
      GetIndex(e, m - 1);
      AssignShape(prev, IndexName(m - 1), e[m - 1]);
      assert prev + [Prop(IndexName(m - 1), e[m - 1])] == seq(m, i requires 0 <= i < m => Prop(IndexName(i), e[i]));
    }
  }

  // ---------------------------------------------------------------------
  // isEqual

  /** What `_.isEqual(a, b)` returns. `===` and `==` between operands of the
      same type are both structural equality here. */
  function Equal(a: Value, b: Value): (r: Completion<bool>)
    ensures a == b ==> r == Normal(true)
    ensures TypeOf(a) != TypeOf(b) ==> r == Normal(false)
    ensures r.Abrupt? ==> r.exc == TypeError
    decreases Weight(a), 1
  {
    if a == b then Normal(true)
    else if TypeOf(a) != TypeOf(b) then Normal(false)
    // `a.isEqual` reads a property of null.
    else if a.Null? then Abrupt(TypeError)
    else if TypeOf(a) != Object then Normal(false)
    else match Plucked(a, "key")
      case Abrupt(e) => Abrupt(e)
      case Normal(aKeys) =>
        match Plucked(b, "key")
        case Abrupt(e) => Abrupt(e)
        case Normal(bKeys) =>
          if |aKeys| != |bKeys| then Normal(false)
          else EveryKeyEqual(a, b, ForInKeys(a), 0)
  }

  /** The `for (var key in a)` loop of `isEqual` from the `i`-th name on:
      false at the first property that differs. */
  function EveryKeyEqual(a: Value, b: Value, keys: seq<Name>, i: nat): (r: Completion<bool>)
    requires a.Arr? || a.Obj? || a.Pair?
    ensures r.Abrupt? ==> r.exc == TypeError
    decreases Weight(a), 0, |keys| - i
  {
    if |keys| <= i then Normal(true)
    else
      GetLighter(a, keys[i]);
      match Equal(Property(a, keys[i]), Property(b, keys[i]))
      case Abrupt(e) => Abrupt(e)
      case Normal(same) => if same then EveryKeyEqual(a, b, keys, i + 1) else Normal(false)
  }

  /** `_.isEqual(a, b)`: identical values are equal, values of different
      types are not, objects are compared property by property. */
  method IsEqual(a: Value, b: Value) returns (r: Completion<bool>)
    ensures r == Equal(a, b)
    decreases Weight(a)
  {
    if a == b {
      return Normal(true);
    }
    if TypeOf(a) != TypeOf(b) {
      return Normal(false);
    }
    if a.Null? {
      return Abrupt(TypeError);
    }
    if TypeOf(a) != Object {
      return Normal(false);
    }
    var aKeys := Keys(a);
    if aKeys.Abrupt? {
      return Abrupt(aKeys.exc);
    }
    var bKeys := Keys(b);
    if bKeys.Abrupt? {
      return Abrupt(bKeys.exc);
    }
    if |aKeys.value| != |bKeys.value| {
      return Normal(false);
    }
    var keys := ForInKeys(a);
    for i := 0 to |keys|
      invariant EveryKeyEqual(a, b, keys, i) == EveryKeyEqual(a, b, keys, 0)
    {
      GetLighter(a, keys[i]);
      var same := IsEqual(Property(a, keys[i]), Property(b, keys[i]));
      if same.Abrupt? {
        return Abrupt(same.exc);
      }
      if !same.value {
        return Normal(false);
      }
    }
    return Normal(true);
  }

  /** The loop answers true exactly when every property compares equal, and
      it throws only when a comparison does. */
  lemma {:induction false} EveryKeyEqualSpec(a: Value, b: Value, keys: seq<Name>, i: nat)
    requires a.Arr? || a.Obj? || a.Pair?
    ensures EveryKeyEqual(a, b, keys, i) == Normal(true) <==>
      forall j :: i <= j < |keys| ==> Equal(Property(a, keys[j]), Property(b, keys[j])) == Normal(true)
    ensures EveryKeyEqual(a, b, keys, i).Abrupt? ==>
      exists j :: i <= j < |keys| && Equal(Property(a, keys[j]), Property(b, keys[j])).Abrupt?
    decreases |keys| - i
  {
    if i < |keys| {
      var here := Equal(Property(a, keys[i]), Property(b, keys[i]));
      assert EveryKeyEqual(a, b, keys, i) ==
        match here
        case Abrupt(e) => Abrupt(e)
        case Normal(same) => if same then EveryKeyEqual(a, b, keys, i + 1) else Normal(false);
      if here == Normal(true) {
        EveryKeyEqualSpec(a, b, keys, i + 1);
      } else if here.Abrupt? {
        assert i <= i < |keys| && Equal(Property(a, keys[i]), Property(b, keys[i])).Abrupt?;
      }
    }
  }

  /** Every value equals itself. */
  lemma EqualReflexive(a: Value)
    ensures Equal(a, a) == Normal(true)
  {
  }

  /** Values of different `typeof` are never equal, and distinct values of
      a primitive type are not equal either. */
  lemma EqualPrimitives(a: Value, b: Value)
    requires a != b
    requires TypeOf(a) != TypeOf(b) || TypeOf(a) != Object
    ensures Equal(a, b) == Normal(false)
  {
  }

  /** Collections that `each` walks in different numbers of steps are not
      equal, when counting their keys does not throw. */
  lemma EqualSizes(a: Value, b: Value)
    requires Plucked(a, "key").Normal? && Plucked(b, "key").Normal?
    requires Visit(a).Normal? && Visit(b).Normal? && |Visit(a).value| != |Visit(b).value|
    ensures Equal(a, b) == Normal(false)
  {
    PluckedLength(a, "key");
    PluckedLength(b, "key");
  }

  /** Two records with the same names in the same order and equal values
      are equal. */
  lemma EqualRecords(p: seq<Prop>, q: seq<Prop>)
    requires DistinctNames(p) && DistinctNames(q) && |p| == |q|
    requires forall j :: 0 <= j < |p| ==> p[j].name == q[j].name && Equal(p[j].value, q[j].value) == Normal(true)
    ensures Equal(Obj(p), Obj(q)) == Normal(true)
  {
    PluckRecord(p, "key");
    PluckRecord(q, "key");
    if Obj(p) != Obj(q) {
      var keys := ForInKeys(Obj(p));
      forall j | 0 <= j < |keys|
        ensures Equal(Property(Obj(p), keys[j]), Property(Obj(q), keys[j])) == Normal(true)
      {
        LookupDistinct(p, j);
        LookupDistinct(q, j);
      }
      EveryKeyEqualSpec(Obj(p), Obj(q), keys, 0);
    }
  }

  /** The comparison is not symmetric: a property that is undefined in the
      first record matches a missing one in the second, but not the other
      way round. */
  lemma EqualNotSymmetric()
    ensures Equal(Obj([Prop("x", Undef)]), Obj([Prop("y", Num(1))])) == Normal(true)
    ensures Equal(Obj([Prop("y", Num(1))]), Obj([Prop("x", Undef)])) == Normal(false)
  {
    var a := Obj([Prop("x", Undef)]);
    var b := Obj([Prop("y", Num(1))]);
    PluckRecord([Prop("x", Undef)], "key");
    PluckRecord([Prop("y", Num(1))], "key");
    assert Property(b, "x") == Undef;
    assert EveryKeyEqual(a, b, ["x"], 1) == Normal(true);
    assert Property(a, "y") == Undef;
    assert Equal(Num(1), Undef) == Normal(false);
  }

  // ---------------------------------------------------------------------
  // isEqual without the throws

  /** `isEqual` as evidently intended: the same comparison, but null is
      just an object that differs from every other, and the sizes are the
      numbers of items `each` visits instead of a `pluck` of `key` that
      throws on null and undefined elements. */
  function DeepEqual(a: Value, b: Value): (r: bool)
    ensures r ==> TypeOf(a) == TypeOf(b)
    ensures a.Null? || b.Null? ==> (r <==> a == b)
    decreases Weight(a), 1
  {
    if a == b then true
    else if TypeOf(a) != TypeOf(b) then false
    else if a.Null? || b.Null? then false
    else if TypeOf(a) != Object then false
    else if |Visit(a).value| != |Visit(b).value| then false
    else EveryKeyDeepEqual(a, b, ForInKeys(a), 0)
  }

  function EveryKeyDeepEqual(a: Value, b: Value, keys: seq<Name>, i: nat): bool
    requires a.Arr? || a.Obj? || a.Pair?
    decreases Weight(a), 0, |keys| - i
  {
    if |keys| <= i then true
    else
      GetLighter(a, keys[i]);
      DeepEqual(Property(a, keys[i]), Property(b, keys[i])) && EveryKeyDeepEqual(a, b, keys, i + 1)
  }

  /** Plucking succeeds with one entry per visited item. */
  lemma PluckedLength(obj: Value, key: string)
    requires Plucked(obj, key).Normal?
    ensures Visit(obj).Normal? && |Plucked(obj, key).value| == |Visit(obj).value|
  {
  }

  /** The corrected comparison tells collections of different sizes apart
      without any condition on their elements. */
  lemma DeepEqualSizes(a: Value, b: Value)
    requires Visit(a).Normal? && Visit(b).Normal? && |Visit(a).value| != |Visit(b).value|
    ensures !DeepEqual(a, b)
  {
  }

  /** Wherever `isEqual` as written answers, the corrected comparison gives
      the same answer. */
  lemma {:induction false} DeepEqualAgrees(a: Value, b: Value)
    ensures Equal(a, b).Normal? ==> DeepEqual(a, b) == Equal(a, b).value
    decreases Weight(a), 1
  {
    if Equal(a, b).Normal? && a != b && TypeOf(a) == TypeOf(b) && !a.Null? && TypeOf(a) == Object {
      PluckedLength(a, "key");
      PluckedLength(b, "key");
      if |Visit(a).value| == |Visit(b).value| {
        EveryKeyAgrees(a, b, ForInKeys(a), 0);
      }
    }
  }

  lemma {:induction false} EveryKeyAgrees(a: Value, b: Value, keys: seq<Name>, i: nat)
    requires a.Arr? || a.Obj? || a.Pair?
    ensures EveryKeyEqual(a, b, keys, i).Normal? ==> EveryKeyDeepEqual(a, b, keys, i) == EveryKeyEqual(a, b, keys, i).value
    decreases Weight(a), 0, |keys| - i
  {
    if i < |keys| {
      GetLighter(a, keys[i]);
      DeepEqualAgrees(Property(a, keys[i]), Property(b, keys[i]));
      EveryKeyAgrees(a, b, keys, i + 1);
    }
  }

  /** As written, comparing two different arrays that hold null throws:
      `_.keys` reads `key` off every element. The corrected comparison
      says they differ. */
  lemma NullElementThrows()
    ensures Equal(Arr([Null, Num(1)]), Arr([Null, Num(2)])) == Abrupt(TypeError)
    ensures !DeepEqual(Arr([Null, Num(1)]), Arr([Null, Num(2)]))
  {
    var a := Arr([Null, Num(1)]);
    assert Get(a.elems[0], "key").Abrupt?;
    GetIndex(a.elems, 1);
    GetIndex([Null, Num(2)], 1);
    assert Property(a, IndexString(1)) == Num(1);
    assert ForInKeys(a)[1] == IndexString(1);
  }

  /** As written, comparing null with another object throws: `typeof null`
      is "object", so `a.isEqual` is read off null. The corrected comparison
      says they differ. */
  lemma NullOperandThrows()
    ensures Equal(Null, Obj([])) == Abrupt(TypeError)
    ensures !DeepEqual(Null, Obj([]))
  {
  }
}
