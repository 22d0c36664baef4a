/** JavaScript values as Underscore 0.1.0 handles them: primitives, arrays,
    plain records, and the `[key, value]` pair arrays that `each` builds when
    it walks a record; property reads `v[key]`, truthiness, `typeof`, and
    the keys a `for (key in v)` loop enumerates. */
module Js {

  datatype Option<+T> = None | Some(value: T)

  /** Names the library reads off a collection to find a native capability
      (`obj.forEach`, `obj.each`, `obj.length`, `obj.map`, `obj.filter`,
      `obj.every`, `obj.some`, `array.indexOf`, `a.isEqual`). */
  predicate IsProbed(s: string) {
    s in {"forEach", "each", "length", "map", "filter", "every", "some", "indexOf", "isEqual"}
  }

  /** A property name of a plain record. */
  type Name = s: string | !IsProbed(s) witness "key"

  datatype Value =
    | Undef
    | Null
    | Bool(b: bool)
    | Num(n: int)
    | Str(s: string)
    | Arr(elems: seq<Value>)
    | Obj(props: seq<Prop>)
      /** The array `[key, value]` that also carries `.key` and `.value`. */
    | Pair(key: string, pairValue: Value)

  datatype Prop = Prop(name: Name, value: Value)

  /** What a statement can end with besides a normal value. */
  datatype Exc = TypeError | RangeError | Thrown(thrown: Value)

  datatype Completion<+T> = Normal(value: T) | Abrupt(exc: Exc)

  /** `!!v` */
  predicate Truthy(v: Value) {
    match v
    case Undef | Null => false
    case Bool(b) => b
    case Num(n) => n != 0
    case Str(s) => s != ""
    case _ => true
  }

  datatype TypeTag = Undefined | Object | Boolean | Number | String

  /** `typeof v` (`typeof null` is "object"). */
  function TypeOf(v: Value): TypeTag {
    match v
    case Undef => Undefined
    case Bool(_) => Boolean
    case Num(_) => Number
    case Str(_) => String
    case _ => Object
  }

  /** `_.isArray(v)`: a real array, which includes the pairs `each` builds. */
  predicate IsArray(v: Value) {
    v.Arr? || v.Pair?
  }

  /** The indexed elements of an array. */
  function Elements(v: Value): seq<Value>
    requires IsArray(v)
  {
    if v.Arr? then v.elems else [Str(v.key), v.pairValue]
  }

  /** The one-character strings `s[0]`, `s[1]`, ... */
  function Chars(s: string): (r: seq<Value>)
    ensures |r| == |s|
  {
    seq(|s|, i requires 0 <= i < |s| => Str([s[i]]))
  }

  /** The pairs `[key, value]` of a record, in enumeration order. */
  function Pairs(p: seq<Prop>): (r: seq<Value>)
    ensures |r| == |p|
  {
    seq(|p|, j requires 0 <= j < |p| => Pair(p[j].name, p[j].value))
  }

  function Names(p: seq<Prop>): (r: seq<Name>)
    ensures |r| == |p|
  {
    seq(|p|, j requires 0 <= j < |p| => p[j].name)
  }

  predicate DistinctNames(p: seq<Prop>) {
    forall i, j :: 0 <= i < j < |p| ==> p[i].name != p[j].name
  }

  /** The value of the first property called `key`, or undefined. */
  function Lookup(p: seq<Prop>, key: string): Value {
    if p == [] then Undef
    else if p[0].name == key then p[0].value
    else Lookup(p[1..], key)
  }

  // ---------------------------------------------------------------------
  // Array index keys: `String(i)` and the canonical index strings.

  predicate IsDigit(c: char) {
    '0' <= c <= '9'
  }

  function DigitChar(d: nat): (c: char)
    requires d < 10
    ensures IsDigit(c)
  {
    ('0' as int + d) as char
  }

  function DigitOf(c: char): nat {
    if IsDigit(c) then c as int - '0' as int else 0
  }

  /** `String(i)` for a non-negative integer: its decimal digits. */
  function IndexString(i: nat): (s: string)
    ensures |s| > 0
    ensures forall c :: c in s ==> IsDigit(c)
    decreases i
  {
    if i < 10 then [DigitChar(i)] else IndexString(i / 10) + [DigitChar(i % 10)]
  }

  function DigitsValue(s: string): nat
    decreases |s|
  {
    if s == [] then 0 else 10 * DigitsValue(s[..|s| - 1]) + DigitOf(s[|s| - 1])
  }

  /** The index a property name denotes on an array: a canonical decimal
      numeral (no sign, no leading zero except "0" itself). */
  function ParseIndex(s: string): Option<nat> {
    if |s| > 0 && (forall c :: c in s ==> IsDigit(c)) && (s[0] != '0' || |s| == 1)
    then Some(DigitsValue(s))
    else None
  }

  lemma {:induction false} LeadingDigit(i: nat)
    requires i > 0
    ensures IndexString(i)[0] != '0'
    decreases i
  {
    if i >= 10 {
      LeadingDigit(i / 10);
    }
  }

  lemma {:induction false} DigitsOfIndexString(i: nat)
    ensures DigitsValue(IndexString(i)) == i
    decreases i
  {
    var s := IndexString(i);
    if i < 10 {
      assert s[..|s| - 1] == [];
    } else {
      DigitsOfIndexString(i / 10);
      assert s[..|s| - 1] == IndexString(i / 10);
    }
  }

  /** Reading back the name `String(i)` gives the index `i`. */
  lemma ParseIndexString(i: nat)
    ensures ParseIndex(IndexString(i)) == Some(i)
  {
    DigitsOfIndexString(i);
    if i > 0 {
      LeadingDigit(i);
    }
  }

  lemma IndexStringInjective(i: nat, j: nat)
    requires IndexString(i) == IndexString(j)
    ensures i == j
  {
    ParseIndexString(i);
    ParseIndexString(j);
  }

  /** `String(i)` is never one of the names the library probes. */
  lemma IndexStringNotProbed(i: nat)
    ensures !IsProbed(IndexString(i))
  {
    var s := IndexString(i);
    assert s[0] in s;
  }

  /** `["0", "1", ..., String(n - 1)]` */
  function Indices(n: nat): (r: seq<Name>)
    ensures |r| == n
  {
    seq(n, i requires 0 <= i < n => IndexName(i))
  }

  /** `String(i)` as a property name. */
  function IndexName(i: nat): Name {
    IndexStringNotProbed(i);
    IndexString(i)
  }

  // ---------------------------------------------------------------------
  // Property access and enumeration.

  /** `e[key]` on an array whose elements are `e`. */
  function ElementAt(e: seq<Value>, key: string): Value {
    match ParseIndex(key)
    case Some(i) => if i < |e| then e[i] else Undef
    case None => if key == "length" then Num(|e|) else Undef
  }

  /** `v[key]`: reading a property of undefined or null throws a TypeError. */
  function Get(v: Value, key: string): Completion<Value> {
    match v
    case Undef | Null => Abrupt(TypeError)
    case Bool(_) | Num(_) => Normal(Undef)
    case Str(s) => Normal(ElementAt(Chars(s), key))
    case Arr(e) => Normal(ElementAt(e, key))
    case Pair(k, x) =>
      Normal(if key == "key" then Str(k) else if key == "value" then x else ElementAt([Str(k), x], key))
    case Obj(p) => Normal(Lookup(p, key))
  }

  /** `v[key]` where the read does not throw; undefined stands in where it
      does. */
  function Property(v: Value, key: string): Value {
    match Get(v, key)
    case Normal(x) => x
    case Abrupt(_) => Undef
  }

  lemma GetIndex(e: seq<Value>, i: nat)
    ensures Get(Arr(e), IndexString(i)) == Normal(if i < |e| then e[i] else Undef)
  {
    ParseIndexString(i);
  }

  /** The names `for (var key in v)` enumerates, in order. */
  function ForInKeys(v: Value): seq<Name> {
    match v
    case Str(s) => Indices(|s|)
    case Arr(e) => Indices(|e|)
    case Pair(_, _) => Indices(2) + ["key", "value"]
    case Obj(p) => Names(p)
    case _ => []
  }

  // ---------------------------------------------------------------------
  // A size measure: every property read from an array, pair or record is
  // strictly lighter than the container.

  function Weight(v: Value): (w: nat)
    ensures w >= 1
  {
    match v
    case Arr(e) => 2 + WeightSeq(e)
    case Obj(p) => 2 + WeightProps(p)
    case Pair(_, x) => 2 + Weight(x)
    case _ => 1
  }

  function WeightSeq(e: seq<Value>): nat
    decreases e
  {
    if e == [] then 0
    else
      var last := e[|e| - 1];
      assert last in e;
      WeightSeq(e[..|e| - 1]) + Weight(last)
  }

  function WeightProps(p: seq<Prop>): nat
    decreases p
  {
    if p == [] then 0
    else
      var last := p[|p| - 1];
      assert last in p;
      WeightProps(p[..|p| - 1]) + Weight(last.value)
  }

  lemma {:induction false} ElementLighter(e: seq<Value>, i: nat)
    requires i < |e|
    ensures Weight(e[i]) <= WeightSeq(e)
    decreases |e|
  {
    if i < |e| - 1 {
      ElementLighter(e[..|e| - 1], i);
    }
  }

  lemma {:induction false} LookupLighter(p: seq<Prop>, key: string)
    ensures Lookup(p, key) == Undef || Weight(Lookup(p, key)) <= WeightProps(p)
    decreases |p|
  {
    if p != [] && p[0].name != key {
      LookupLighter(p[1..], key);
      var q := p[1..];
      if q != [] {
        WeightPropsCons(p);
      }
    } else if p != [] {
      WeightPropsCons(p);
    }
  }

  lemma {:induction false} WeightPropsCons(p: seq<Prop>)
    requires p != []
    ensures WeightProps(p) == Weight(p[0].value) + WeightProps(p[1..])
    decreases |p|
  {
    if |p| > 1 {
      WeightPropsCons(p[..|p| - 1]);
      assert p[..|p| - 1][1..] == p[1..][..|p[1..]| - 1];
    } else {
      assert p[..|p| - 1] == [] && p[1..] == [];
    }
  }

  /** The elements of a pair weigh less than the pair. */
  lemma PairLighter(k: string, x: Value)
    ensures WeightSeq([Str(k), x]) < Weight(Pair(k, x))
  {
    assert [Str(k), x][..1] == [Str(k)];
    assert [Str(k)][..0] == [];
    assert WeightSeq([Str(k)]) == 1;
    assert WeightSeq([Str(k), x]) == WeightSeq([Str(k)]) + Weight(x);
  }

  /** An array never contains itself. */
  lemma NotOwnElement(e: seq<Value>, x: Value)
    requires x in e
    ensures x != Arr(e)
  {
    var i :| 0 <= i < |e| && e[i] == x;
    ElementLighter(e, i);
  }

  /** A property of an array, pair or record weighs less than its holder. */
  lemma GetLighter(v: Value, key: string)
    requires v.Arr? || v.Obj? || v.Pair?
    ensures Get(v, key).Normal? && Weight(Get(v, key).value) < Weight(v)
  {
    match v
    case Arr(e) =>
      var ix := ParseIndex(key);
      if ix.Some? && ix.value < |e| {
        ElementLighter(e, ix.value);
      }
    case Pair(k, x) =>
    case Obj(p) =>
      LookupLighter(p, key);
  }
}
