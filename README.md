# Underscore.js 0.1.0 in Dafny

This project models the functional core of Underscore.js 0.1.0. The library
is a single object `_`. It holds collection helpers built on `_.each`, array
helpers, object helpers, the deep-equality test `_.isEqual`, and the
`_.uniqueId` counter. The model follows the code of `underscore.js`.

The JavaScript values the library handles are the datatype `Js.Value`:
- `undefined`, `null`, booleans, integers and strings;
- arrays;
- records, as an ordered list of own properties;
- the `{key, value}` pair objects that `each` hands out when it walks a record.

A property read is `Js.Get`. It throws a TypeError on `undefined` and `null`,
and it answers `length` and array indices. An exception is an `Exc`. A call
that may throw returns a `Completion`, which is `Normal(value)` or
`Abrupt(exc)`.

Module layout:
- `Js` (js.dfy): values, property access, `for … in` key order, and the
  decimal index strings that name array slots.
- `Iteration` (iteration.dfy): `_.each`. The callback is a state transformer
  standing for its closure. The walk stops at the first exception. Throwing
  `'__break__'` ends the walk quietly.
- `Search` (search.dfy): `_.indexOf` and `_.sortedIndex`, the two
  hand-written loops.
- `Collections` (collections.dfy): `map` through `size`. `map`, `inject`,
  `detect`, `select`, `reject`, `all`, `any`, `include`, `pluck`, `max` and
  `min` are methods that run `Each` with a closure step. Each of them is
  proved against a recursive specification function (`FoldLeft`,
  `FirstWhere`, `Filter`, `PluckedFrom`). `sortBy` is a function over the
  visited items, built on the insertion sort `SortRanked`. `toArray` and
  `size` are methods over the visited items.
- `Arrays` (arrays.dfy): `first` through `zip`.
- `Objects` (objects.dfy): `keys` and `values` over any value; `extend` and
  `clone` on a class `JsObject` whose properties are updated in place; and
  `isEqual`.
- `Utility` (utility.dfy): the `Underscore` class that holds `_idCounter`,
  and `uniqueId`.

## Model

| member | source | states |
|---|---|---|
| `Iteration.Visit` | underscore.js:17-48 | each throws a TypeError on undefined and null; arrays yield their elements, records yield one key/value pair per property, numbers and booleans yield nothing |
| `Iteration.Finish` | underscore.js:43-47 | the walk returns obj when nothing was thrown or only '__break__' was; any other exception propagates unchanged |
| `Iteration.Walk` | underscore.js:28-45 | the walk from index i calls the callback on the items in order and stops at the first call that throws; the count of items it reaches lies between i and the number of items, equals the number of items when nothing is thrown, and exceeds i when something is |
| `Iteration.Each` | underscore.js:17-48 | the callback sees indices 0, 1, … in order; the final closure state and the outcome are those of the walk over Visit(obj) |
| `Iteration.WalkCalls` | underscore.js:23-42 | the walk calls the callback at most once per item, and once per item when nothing is thrown |
| `Iteration.WalkIgnoresRest` | underscore.js:19-45 | once a callback throws, the items after it have no effect on the walk |
| `Iteration.WalkFold` | underscore.js:63-68 | a walk with a callback that never throws computes the left fold of its step over the items |
| `Collections.FirstWhere` | underscore.js:71-81 | returns the first index at or after i whose item passes the test, or says that none passes |
| `Collections.Map` | underscore.js:52-59 | one result per visited item, in order; result j is the iterator applied to item j and index j |
| `Collections.MapFold` | underscore.js:52-59 | pushing iterator results from an empty array gives the pointwise image of the items |
| `Collections.Inject` | underscore.js:63-68 | the result is the left fold of the iterator from memo over the visited items; an empty collection returns memo |
| `Collections.FoldLeftSnoc` | underscore.js:63-68 | folding one more item applies the iterator once more, to the previous memo and that item's index |
| `Collections.Detect` | underscore.js:71-81 | returns the first item the iterator accepts, after exactly k+1 calls; with no such item it returns undefined after one call per item |
| `Collections.Select` | underscore.js:85-94 | keeps exactly the items whose iterator result is truthy, in their original order |
| `Collections.Reject` | underscore.js:98-104 | keeps exactly the items whose iterator result is falsy, in their original order |
| `Collections.FilterFold` | underscore.js:85-94 | pushing the accepted items one by one builds the filtered sequence |
| `Collections.FilterMembers` | underscore.js:85-94 | x is in the filtered result iff some item equal to x is accepted at its index |
| `Collections.SelectRejectPartition` | underscore.js:85-104 | select and reject with the same iterator split the items: their multisets add up to the input's |
| `Collections.FilterAgree` | underscore.js:85-94 | two tests that agree on every item give the same filtered result |
| `Collections.All` | underscore.js:109-119 | true iff every item's iterator result is truthy, the identity being the default iterator; the walk stops after the first falsy result |
| `Collections.WalkAll` | underscore.js:109-119 | the all-walk ends with the conjunction of truthiness and stops at the first falsy item |
| `Collections.Any` | underscore.js:124-132 | true iff some item's iterator result is truthy; the walk stops after the first truthy result |
| `Collections.WalkAny` | underscore.js:124-132 | the any-walk ends with the disjunction of truthiness and stops at the first truthy item |
| `Collections.Include` | underscore.js:137-147 | arrays: target occurs among the elements; records: some property value equals target; strings: only undefined is found, through the characters' missing value field; numbers and booleans: false; undefined and null: TypeError |
| `Collections.IncludeRecord` | underscore.js:137-147 | on a record, the pair search finds target iff some property holds it |
| `Collections.IncludeString` | underscore.js:137-147 | on a string, the pair search succeeds iff the string is non-empty and target is undefined |
| `Collections.PluckedFrom` | underscore.js:163-167 | one value per item, result j being item j's property under key |
| `Collections.Pluck` | underscore.js:163-167 | agrees with Plucked: a TypeError when the collection or any item is undefined or null, otherwise each item's property under key |
| `Collections.PluckArray` | underscore.js:163-167 | plucking from an array fails iff some element is undefined or null; otherwise result j is element j's property |
| `Collections.PluckRecord` | underscore.js:163-167 | plucking 'key' or 'value' from a record lists its property names or values in property order |
| `Collections.MaxFold` | underscore.js:171-195 | the fold keeps the last item whose computed value is the greatest, and that value |
| `Collections.Max` | underscore.js:171-195 | returns an item whose computed value is maximal, the last such one; an empty or non-walkable collection ends in a TypeError |
| `Collections.MinFold` | underscore.js:199-207 | the fold keeps the first item whose computed value is the least, and that value |
| `Collections.Min` | underscore.js:199-207 | returns an item whose computed value is minimal, the first such one; an empty or non-walkable collection ends in a TypeError |
| `Collections.InsertRankedSorted` | underscore.js:225-228 | inserting into a list sorted by criteria keeps it sorted |
| `Collections.InsertRankedPermutes` | underscore.js:225-228 | insertion adds exactly the inserted entry to the multiset |
| `Collections.SortRankedCorrect` | underscore.js:225-228 | the sort returns a permutation of its input, sorted by criteria |
| `Collections.SortBy` | underscore.js:214-229 | the result is a permutation of the items, listed in ascending order of their computed criteria |
| `Collections.ToArray` | underscore.js:252-256 | a falsy argument gives []; otherwise the values each visits, in order |
| `Collections.Size` | underscore.js:259-262 | the number of elements, properties, characters, or two for a pair; zero otherwise |
| `Search.FirstIndex` | underscore.js:363-369 | the position of the first occurrence of x, or the length when x is absent |
| `Search.IndexOf` | underscore.js:363-369 | -1 iff the item is absent; otherwise the index of its first occurrence |
| `Search.SortedIndex` | underscore.js:234-247 | on a list sorted by key, every element before the result has a smaller key and every element from it on has a key at least as large |
| `Search.InsertAtSortedIndex` | underscore.js:234-247 | inserting obj at that position keeps the list sorted |
| `Arrays.First` | underscore.js:267-269 | element 0, or undefined for an empty array |
| `Arrays.Last` | underscore.js:272-274 | the last element, or undefined for an empty array |
| `Arrays.Compact` | underscore.js:277-280 | keeps exactly the truthy elements, in order |
| `Arrays.Flatten` | underscore.js:284-290 | the elements of nested arrays in left-to-right order, with no array left in the result |
| `Arrays.FlattenFold` | underscore.js:284-290 | the inject loop computes the recursive flattening |
| `Arrays.FlattenedIsFlat` | underscore.js:284-290 | no element of a flattened list is an array |
| `Arrays.FlattenedOfFlat` | underscore.js:284-290 | a list with no array elements flattens to itself |
| `Arrays.FlattenedIdempotent` | underscore.js:284-290 | flattening twice is flattening once |
| `Arrays.FlattenedAppend` | underscore.js:284-290 | flattening distributes over concatenation |
| `Arrays.Without` | underscore.js:294-300 | keeps exactly the elements not among the excluded values, in order |
| `Arrays.Uniq` | underscore.js:306-321 | without the sorted hint, or on grouped input: every element once, in order of first occurrence; results always come from the input |
| `Arrays.UniquedSpec` | underscore.js:306-321 | the unsorted uniq keeps the same members, without repeats, in first-occurrence order |
| `Arrays.UniquedSortedSound` | underscore.js:306-321 | the sorted uniq only returns elements of its input |
| `Arrays.UniquedSortedAgrees` | underscore.js:306-321 | on input where equal elements are adjacent, the sorted and unsorted uniq agree |
| `Arrays.GroupedLastKept` | underscore.js:318 | on grouped input, the last element kept by uniq is the input's last element |
| `Arrays.SortedNumbersGrouped` | underscore.js:306-321 | a list of numbers in ascending order has equal elements adjacent, so the sorted hint applies |
| `Arrays.FilterDistinct` | underscore.js:326-343 | filtering a list without repeats leaves a list without repeats |
| `Arrays.FilterKeepsOrder` | underscore.js:338 | selecting from a list in first-occurrence order keeps the survivors in that order |
| `Arrays.Intersect` | underscore.js:326-343 | x is in the result iff it is in the first array and in every other array; no value appears twice; values come in the order of their first occurrence in the first array |
| `Arrays.IntersectMember` | underscore.js:338-342 | the select over the unique elements keeps exactly those found in every other array |
| `Arrays.Longest` | underscore.js:348-357 | at least the length of every argument, and equal to the length of one of them |
| `Arrays.PluckColumn` | underscore.js:354 | plucking index i from the arguments gives the i-th element of each, undefined where one is short |
| `Arrays.Zip` | underscore.js:348-357 | as many rows as the longest argument; row i holds the i-th element of each argument, undefined where one is short; no arguments gives a RangeError |
| `Objects.Keys` | underscore.js:433-436 | the record's property names, in property order |
| `Objects.Values` | underscore.js:440-442 | the record's property values, in property order |
| `Objects.KeysValuesAlign` | underscore.js:433-442 | keys and values have the same length, and reading key j from the record gives value j |
| `Objects.AssignLookup` | underscore.js:446-449 | after one assignment the name reads the new value and every other name reads as before |
| `Objects.AssignDistinct` | underscore.js:446-449 | an assignment never creates a second property of the same name |
| `Objects.AssignAll` | underscore.js:447 | copying keys one by one adds at most one property per key, and the destination's existing properties keep their names and positions |
| `Objects.LookupAssignAll` | underscore.js:446-449 | after copying keys, each copied key reads the source's value and every other key reads as before |
| `Objects.JsObject.Extend` | underscore.js:446-449 | copies every enumerable source property onto the destination, overwriting same-named ones, and returns the destination itself |
| `Objects.JsObject.Clone` | underscore.js:454-456 | a fresh object whose properties read exactly the source's enumerable properties |
| `Objects.CloneRecord` | underscore.js:454-456 | cloning a record reproduces its properties in the same order |
| `Objects.CloneArray` | underscore.js:454-456 | cloning an array gives a record keyed '0', '1', … holding its elements in order |
| `Objects.Equal` | underscore.js:462-488 | identical values are equal, values of different types are unequal, and the only exception the comparison can throw is a TypeError |
| `Objects.IsEqual` | underscore.js:462-488 | the recursive comparison with its key loop agrees with Equal, exceptions included |
| `Objects.EveryKeyEqualSpec` | underscore.js:485-487 | the key loop answers true iff every key of a compares equal, and throws only when some key's comparison throws |
| `Objects.EqualReflexive` | underscore.js:464 | every value is equal to itself |
| `Objects.EqualPrimitives` | underscore.js:466-477 | different values of different types, or that are not objects, are unequal; this includes null against a non-object |
| `Objects.EqualSizes` | underscore.js:479-481 | arrays, records or pairs that each walks in different numbers of steps are unequal, when plucking their keys does not throw |
| `Objects.EqualRecords` | underscore.js:479-487 | records with the same names in the same order and pairwise equal values are equal |
| `Objects.EqualNotSymmetric` | underscore.js:479-487 | the comparison reads only a's keys: {x: undefined} equals {y: 1} but not the other way round |
| `Objects.NullElementThrows` | underscore.js:479 | arrays holding null make isEqual throw, where the corrected comparison answers false |
| `Objects.NullOperandThrows` | underscore.js:475 | a null first operand with an object second operand makes isEqual throw, where the corrected comparison answers false |
| `Objects.DeepEqual` | underscore.js:462-488 | the corrected comparison: equal values have the same type, and null is equal only to itself |
| `Objects.DeepEqualSizes` | underscore.js:479-481 | the corrected comparison tells collections of different sizes apart, whatever their elements |
| `Objects.DeepEqualAgrees` | underscore.js:462-488 | wherever isEqual answers without throwing, the corrected comparison gives the same answer |
| `Utility.IdsDistinct` | underscore.js:517-520 | ids made from different counter values differ |
| `Utility.Underscore.UniqueId` | underscore.js:517-520 | increments the counter by one and returns the new count, prefixed when a prefix is given |
| `Utility.TwoIdsDiffer` | underscore.js:517-520 | two calls in a row return different ids |

## Left out

- `template`, `delay`, `defer`, `bind`, `bindAll`, `wrap` and `invoke` are not modelled. They build and call JavaScript functions, compile code or use timers.
- `isElement`, `isArray`, `isFunction` and `isUndefined` are not separate members. In the model they are tests on the `Value` constructors.
- The native fast paths (`forEach`, `map`, `filter`, `every`, `some`, `indexOf`) are assumed to behave like the fallback loops beside them. Only the loops are modelled.
- The `context` argument is dropped. Callbacks are pure Dafny functions.
- A callback that throws is modelled only by `Each`, through `Step.Raise`. The combinators take callbacks that return normally.
- `===` is structural equality on values. JavaScript reference identity between two equal-looking objects is not modelled.
- Loose `==` and `>=` coercions are not modelled. `isEqual` only reaches `==` when both operands have the same `typeof`.
- Strings are sequences of Unicode code points. JavaScript counts a string's length and indices in UTF-16 code units, so a character outside the Basic Multilingual Plane is one item here but two in `each`, `size`, `include` and property reads.
- A record value may in principle repeat a property name, which no JavaScript object does. The lemmas that need unique names require `DistinctNames`, and `JsObject` keeps unique names as its invariant `Valid`.
- Numbers are mathematical integers. NaN, infinities and fractions are not modelled.
- Record property names never coincide with the method names `each` probes (`forEach`, `map`, `length`, …). A record holding such a property changes which branch the source takes.
- Objects whose `toString` gives `'__break__'`, cyclic objects, prototype properties and getters are not modelled.
- `Collections.Max`: only the form with an iterator is modelled. The `Math.max` shortcut for a plain array with no iterator is left out. The computed value is an integer.
- `Collections.Min`: only the form with an iterator is modelled, as for `Max`.
- `Collections.SortBy`: the source maps every item to a `{value, criteria}` record with `_.map`, sorts the records and plucks `value`. The model computes the same records and values directly over the visited items, without calling `Map` and `Pluck`. The host `Array.prototype.sort` is a stable insertion sort here. The contract only states what any correct sort guarantees: a permutation in ascending criteria order.
- `Search.SortedIndex`: a key function is required, standing in for the default identity iterator on integer values. The `>> 1` halving is modelled as integer halving, which agrees for lengths below 2^31.
- `Utility.Underscore.UniqueId`: the prefix is a string, and the empty string stands for an absent prefix. Other prefix values are not modelled.
- `Objects.Assign`: `for … in` order is taken to be insertion order, so a new name goes at the end. JavaScript engines list integer-like names first, so `_.keys(_.extend({b: 1}, {"2": 3}))` gives `["2", "b"]` there but `["b", "2"]` in the model.
- `Objects.JsObject.Extend`: the destination is always a record. Extending an array or a primitive is not modelled.
- `Arrays.Zip`: the arguments are arrays. Calling it with `arguments` that are not arrays is not modelled.

## Findings

| source | as written | input that shows it | evidently intended | confidence | as-written member | corrected member |
|---|---|---|---|---|---|---|
| underscore.js:479 | the element count is read with `_.keys`, which plucks `key` from every item of an array | `_.isEqual([null, 1], [null, 2])` throws a TypeError, because reading `key` on the null element fails | the two arrays compare unequal | not executed | `Objects.NullElementThrows` | `Objects.DeepEqual`, `Objects.DeepEqualAgrees` |
| underscore.js:475 | `a.isEqual` is read on a null first operand whose `typeof` is 'object' | `_.isEqual(null, {})` throws a TypeError | the comparison answers false | not executed | `Objects.NullOperandThrows` | `Objects.DeepEqual`, `Objects.DeepEqualAgrees` |
