# underscore-redux collection engine, in Dafny

This project models the collection-transformation core of the underscore-redux
utility library (`src/underscoreredux.js`). The core has:

- the iteration primitive `each`, over arrays and plain objects;
- the search and selection operations `indexOf`, `filter`, `reject` and `uniq`;
- the reduction engine `reduce`, with `contains`, `every` and `some` built on it;
- the transforms `map`, `pluck`, `sortBy`, `zip` and `flatten`;
- the set operations `intersection` and `difference`;
- the leaf utilities `identity`, `first`, `last`, `extend`, `defaults`, `once` and `memoize`.

## How JavaScript is represented

- A collection is `Array(items)` or `Object(entries)`. An object is its list of own
  properties in `for…in` order, and `Values` lists what `each` visits. A property
  read `obj[key]` is `Lookup`. It answers `None` (`undefined`) for a missing
  property.
- JavaScript enumerates an ordinary object's own properties in a fixed order
  (`InEnumerationOrder`). Array-index names such as "0" or "42" come first, in
  ascending numeric order. Every other name follows, in the order it was created.
  An assignment `obj[key] = value` to a new name (`Assigned`) creates the property
  where that order puts it.
- `===` on elements is Dafny equality on an element type `T`.
- A thrown TypeError is the `ThrowTypeError` completion.
- Judgements that depend on JavaScript's dynamic typing are passed in as function parameters:
  - truthiness for `reduce`'s `||` bootstrap (`truthy`);
  - `x === true` for `every`'s default test (`isTrue`);
  - `x == true` for `some`'s default test (`looseTrue`);
  - the string form of a `memoize` argument list (`serialize`).
- Loops that push onto a result array are methods. Each is proved equal to a
  specification function defined by the array's last element, such as
  `FirstIndex`, `Filtered`, `Unique`, `Mapped`, `FoldLeft` or `Leaves`. The lemmas
  about those functions state what the library promises.
- State that the source updates in place is held in classes:
  - `flatten`'s shared `result` array is an `Accumulator` object;
  - the target of `extend`/`defaults` is a `PlainObject`;
  - the closures of `once`/`memoize` are `Once`/`Memoizer` objects, whose `Call` method is the returned function.
- `sortBy`'s pipeline is functional: decorate, stable sort, project. `Array.prototype.sort`
  is required to be stable by section 22.1.3.27 of ECMA-262, 10th edition. It is
  modelled as a stable insertion sort, `SortStable`.

Where the code and the library's written description disagree, the model follows the code:

- `every` without an iterator tests `=== true`, not truthiness.
- `some`'s default test is loose `== true`.
- `uniq` ignores its key function. Its two `isSorted` branches are identical.
- `reduce` on an empty object without a seed returns `undefined` rather than failing.
  On an array without a seed it throws when the first element is missing or falsy.
- `intersection` keeps duplicates of its enumerated argument and throws when every argument is empty.
- `sortBy` records an `index`, but `map` passes the iterator one argument, so the index
  is always `undefined` and is never compared. Ties are kept only because
  the sort is stable.

## Model

| member | source | states |
|---|---|---|
| Collections.LookupMeaning | src/underscoreredux.js:153 | a property read is `undefined` exactly when no property has that name, and otherwise the value of a property with that name |
| Collections.Each | src/underscoreredux.js:50-60 | one iterator call per element; arrays are visited at ascending indices with index keys, objects in property order with name keys; the values are those every other operation folds over |
| Search.IndexOf | src/underscoreredux.js:64-77 | the `each` loop with its `result === -1` guard computes `FirstIndex` |
| Search.FirstIndexMeaning | src/underscoreredux.js:64-77 | the answer lies in -1..length-1; it is -1 exactly when the target is absent; otherwise the element there is the target and no earlier element is |
| Search.Filter | src/underscoreredux.js:80-88 | the pushed elements are the visited values that pass the test, in visiting order |
| Search.Reject | src/underscoreredux.js:91-97 | `reject` is `filter` with the negated test |
| Search.FilteredAppend | src/underscoreredux.js:80-88 | filtering distributes over concatenation, so relative order is kept |
| Search.FilteredCount | src/underscoreredux.js:80-88 | an element passing the test keeps all its occurrences; a failing one keeps none; membership in the result is membership plus passing |
| Search.FilteredAllPass | src/underscoreredux.js:80-88 | every element of the result passes the test |
| Search.FilteredKeepsAll | src/underscoreredux.js:80-88 | when every element passes, the result is the input |
| Search.FilteredAround | src/underscoreredux.js:80-88 | filtering with `x` between two stretches keeps what filtering without `x` keeps, with `x` last when it passes and nothing after it does |
| Search.FilterRejectPartition | src/underscoreredux.js:80-97 | `filter` and `reject` together partition the input: their lengths add up, and their multisets add up to the input's |
| Search.FilterRejectMultiset | src/underscoreredux.js:80-97 | every element of the input goes to `filter` or to `reject`, as often as it occurs |
| Search.Uniq | src/underscoreredux.js:100-127 | both `isSorted` branches compute `Unique`, whatever the flag and key function |
| Search.UniqueElements | src/underscoreredux.js:100-127 | the result has no duplicates and holds exactly the elements of the input |
| Search.UniqueFirstOccurrenceOrder | src/underscoreredux.js:100-127 | the kept elements appear in the order of their first occurrences in the input |
| Search.UniqueOfDistinct | src/underscoreredux.js:100-127 | an input without duplicates is returned unchanged |
| Search.UniqueIdempotent | src/underscoreredux.js:100-127 | `uniq(uniq(s)) == uniq(s)` |
| Reduction.FoldLeftSplit | src/underscoreredux.js:195-203 | a fold over `s + t` continues from where the fold over `s` stopped |
| Reduction.FoldLeftFirst | src/underscoreredux.js:188-203 | a seeded fold over `[x] + s` is the fold over `s` from `reducer(seed, x)` |
| Reduction.ReduceLoop | src/underscoreredux.js:195-203 | the loop from `startingPoint` is the left fold over the remaining values |
| Reduction.Reduce | src/underscoreredux.js:177-206 | with a seed, the fold over all values; without one on an array, the fold from the first element over the rest, or a TypeError if that element is missing or falsy; without one on an object, `undefined` when it is empty, else the fold from property "0" (if truthy) or the first property over the other values |
| Reduction.ReduceSingleton | src/underscoreredux.js:173-192 | a one-element array without a seed reduces to its element, whatever the iterator, when that element is truthy, and throws when it is falsy; the intended bootstrap gives the element in every case |
| Reduction.ReduceIntended | src/underscoreredux.js:189-192 | corrected bootstrap: without a seed, a non-empty array folds from its first element, whatever that element's truthiness; a non-empty object in enumeration order folds from its first property |
| Collections.IndexZeroFirst | src/underscoreredux.js:191 | in enumeration order, a property named "0" is the first property, so `collection[0]` and `collection[objectKeys[0]]` agree when it exists |
| Reduction.ReduceFalsyHead | src/underscoreredux.js:191 | `reduce([0, 1, 2], +)` as written throws, while the corrected bootstrap gives 3 |
| Reduction.FoldContains | src/underscoreredux.js:212-217 | the `wasFound` fold seeded with `false` is membership |
| Reduction.ContainsMeaning | src/underscoreredux.js:209-218 | `contains` holds exactly when the target is among the visited values, and is false on an empty collection |
| Reduction.FoldEvery | src/underscoreredux.js:226-236 | the `allTrue` fold seeded with `true` holds exactly when every element passes the test |
| Reduction.EveryMeaning | src/underscoreredux.js:222-237 | `every` holds exactly when each visited value passes the callback, or is `=== true` without one; it holds on an empty collection |
| Reduction.AnyMeaning | src/underscoreredux.js:241-254 | `some` holds exactly when some visited value passes the callback, or is `== true` without one; it is false on an empty collection |
| Reduction.EveryAnyDuality | src/underscoreredux.js:241-254 | `every(c, p)` holds exactly when `some(c, x => !p(x))` does not |
| Transforms.MappedAt | src/underscoreredux.js:131-137 | `map` keeps the length, and its i-th answer is the iterator applied to the i-th value |
| Transforms.MapIdentity | src/underscoreredux.js:9-11 | mapping `identity` returns the input |
| Transforms.MapCompose | src/underscoreredux.js:131-137 | mapping `f` then `g` is mapping their composition |
| Transforms.Map | src/underscoreredux.js:131-137 | the pushed results are `Mapped` over the visited values |
| Transforms.Pluck | src/underscoreredux.js:148-155 | one answer per visited record, the i-th being that record's `key` property or `undefined` |
| Transforms.MaxLengthMeaning | src/underscoreredux.js:474-477 | the `Math.max` fold is the greatest argument length, attained by some argument, and 0 without arguments |
| Transforms.Zip | src/underscoreredux.js:470-492 | as many rows as the longest argument; each row has one entry per argument; entry `[i][j]` is `args[j][i]`, or `undefined` past that argument's end |
| Sorting.CompareConsistent | src/underscoreredux.js:451-461 | the comparator returns 0 exactly on equal keys, is antisymmetric, transitive and total, and puts a defined key before `undefined` |
| Sorting.InsertPos | src/underscoreredux.js:451-462 | the insertion point follows every element that does not compare greater than the new one and precedes the first that does |
| Sorting.InsertAt | src/underscoreredux.js:451-462 | insertion keeps the other elements in order on both sides of the new one |
| Sorting.InsertSplit | src/underscoreredux.js:451-462 | insertion places the new element after every element no later than it and before every element later than it |
| Sorting.LaterFrom | src/underscoreredux.js:451-462 | in a sorted array, every element from the first one later than `x` on is later than `x` |
| Sorting.OrderedAround | src/underscoreredux.js:451-462 | a sorted array with `x` put between the elements no later than it and those later than it stays sorted |
| Sorting.InsertOrdered | src/underscoreredux.js:451-462 | insertion into a sorted array keeps it sorted under the comparator |
| Sorting.SortStableOrdered | src/underscoreredux.js:451-462 | the stable sort's result is sorted under the comparator |
| Sorting.SortStablePermutation | src/underscoreredux.js:451-462 | the stable sort's result is a permutation of its input |
| Sorting.InsertPermutation | src/underscoreredux.js:451-462 | insertion adds exactly one occurrence of the new element |
| Sorting.InsertKeepsRuns | src/underscoreredux.js:451-462 | insertion appends the new element to the run of elements sharing its key, and leaves other runs alone |
| Sorting.SortStableKeepsTies | src/underscoreredux.js:451-462 | for every key, the elements with that key keep their input order |
| Sorting.InsertDecorated | src/underscoreredux.js:437-462 | sorting decorated values by `valToSort` moves them as sorting the plain values by the criterion does |
| Sorting.SortDecorated | src/underscoreredux.js:437-462 | sorting the decorated values is decorating the sorted values |
| Sorting.ProjectDecorated | src/underscoreredux.js:437-462 | plucking `value` from the decorated values gives the values back |
| Sorting.SortByIsStableSort | src/underscoreredux.js:433-463 | `sortBy` is a stable sort of the visited values by the criterion |
| Sorting.SortByCorrect | src/underscoreredux.js:433-463 | `sortBy` returns a permutation of the values; defined keys are non-decreasing and every `undefined` key comes after them; equal keys keep their input order |
| Sorting.SortByPropertyCorrect | src/underscoreredux.js:433-463 | `sortBy(collection, name)` on records returns a permutation of the records; the defined `name` properties are non-decreasing and records without the property come after them; records with equal values of `name` keep their input order |
| Flattening.Accumulator.constructor | src/underscoreredux.js:499 | a new result array is empty |
| Flattening.Accumulator.Push | src/underscoreredux.js:505 | `push` appends one element and changes nothing else |
| Flattening.FlattenInto | src/underscoreredux.js:498-509 | the recursive walk appends exactly the leaves of the nested array, depth-first and left to right, to the shared accumulator |
| Flattening.Flatten | src/underscoreredux.js:498-509 | `flatten(nested)` answers the leaves of `nested` in depth-first, left-to-right order |
| Flattening.LeavesAppend | src/underscoreredux.js:501-507 | flattening distributes over concatenation |
| Flattening.LeavesOfFlat | src/underscoreredux.js:498-509 | an array without nested arrays flattens to itself |
| Flattening.FlattenIdempotent | src/underscoreredux.js:498-509 | flattening an already flattened array changes nothing |
| Flattening.FlattenLength | src/underscoreredux.js:498-509 | the result has exactly one element per leaf, however deeply nested |
| SetOperations.Longest | src/underscoreredux.js:519-525 | the enumerated argument is absent exactly when every argument is empty; otherwise it is the longest, and strictly longer than every argument before it |
| SetOperations.SharedByAll | src/underscoreredux.js:526-533 | the inner loop with its `break` decides whether `indexOf` finds the element in every argument |
| SetOperations.Intersection | src/underscoreredux.js:513-537 | a TypeError when every argument is empty; otherwise the elements of the first longest argument that `indexOf` finds in every argument, in order |
| SetOperations.IntersectionMembers | src/underscoreredux.js:513-537 | an element is in the intersection exactly when it is in every argument, and then as often as in the enumerated argument |
| SetOperations.InAnotherArray | src/underscoreredux.js:547-556 | the inner loop with its `break` decides whether some other array `contains` the element |
| SetOperations.Difference | src/underscoreredux.js:541-562 | the elements of the first array that no other array `contains`, in order |
| SetOperations.DifferenceMembers | src/underscoreredux.js:541-562 | an element is in the difference exactly when it is in the first array and in no other; with no others the first array is returned |
| Selectors.Resolve | src/underscoreredux.js:35 | a slice position inside the array is kept, one past the end is clamped to the length, and one before the start to 0 |
| Selectors.ResolveFromEnd | src/underscoreredux.js:35 | a negative position `-m` lies `m` places before the end, clamped at the start |
| Selectors.Slice | src/underscoreredux.js:35 | a slice is a run of consecutive elements starting at the resolved start; without an end it runs to the end of the array, otherwise it stops at the resolved end and is empty when that is not after the start |
| Selectors.SliceSplit | src/underscoreredux.js:35 | `slice(0, n)` followed by `slice(n)` gives the array back, for every integer `n` |
| Selectors.First | src/underscoreredux.js:34-36 | without `n`, the first element or `undefined`; otherwise the first `n` elements when `n` is not negative, and all but the last `-n` when it is |
| Selectors.Last | src/underscoreredux.js:40-43 | `[]` for `n` = 0; without `n`, the last element or `undefined`; otherwise the last `n` elements when `n` is positive, and all but the first `-n` when it is negative |
| Selectors.FirstLastSplit | src/underscoreredux.js:34-43 | `first(a, n)` followed by `last(a, a.length - n)` is `a` |
| Selectors.TakeBeyondLength | src/underscoreredux.js:34-43 | counts at or beyond the length return the whole array |
| Objects.Replaced | src/underscoreredux.js:279 | a write to an existing name changes its value in place: every name stays where it was, the written name reads the new value and every other name reads as before |
| Objects.Assigned | src/underscoreredux.js:279 | after `obj[key] = value`, that property reads `value` and every other property reads as before |
| Objects.AssignedKeys | src/underscoreredux.js:279 | an assignment to an existing name keeps the names as they are; a new array-index name is inserted after the array indices below it and before everything else; any other new name is added last |
| Objects.AssignedPlainNames | src/underscoreredux.js:279 | the names that are not array indices keep their order through an assignment, and a new one is added after them |
| Objects.AssignedOrder | src/underscoreredux.js:279 | an assignment keeps the properties in enumeration order: array indices first and ascending |
| Objects.AssignedIndexFirst | src/underscoreredux.js:279 | writing "0" into `{a: 1}` enumerates "0" before "a" |
| Objects.OrderInsert | src/underscoreredux.js:279 | an array-index name placed after the smaller array indices and before everything else keeps enumeration order |
| Collections.NumeralInjective | src/underscoreredux.js:279 | two array-index names with the same numeric value are the same name, so ascending order never ties |
| Objects.AssignedDistinct | src/underscoreredux.js:279 | an assignment never makes a property name occur twice |
| Objects.PlainObject.HasOwnProperty | src/underscoreredux.js:292 | `hasOwnProperty` holds exactly when the name is among the object's properties |
| Objects.PlainObject.constructor | src/underscoreredux.js:275 | a target object with distinct names in enumeration order |
| Objects.PlainObject.Put | src/underscoreredux.js:279 | a write sets the object's properties to the assignment's result, and keeps names distinct and in enumeration order |
| Objects.Extend | src/underscoreredux.js:275-284 | `obj` ends up with every property of every source assigned in argument and property order, stays a valid object, and is returned |
| Objects.CopyAllLookup | src/underscoreredux.js:277-281 | after one source is copied, a property it has holds its value, and any other property is unchanged |
| Objects.ExtendLookupUntouched | src/underscoreredux.js:275-284 | a property no source has keeps its value through `extend` |
| Objects.ExtendLookupLastWins | src/underscoreredux.js:275-284 | a property that source `i` has and no later source has holds source `i`'s value after `extend` |
| Objects.ExtendLookup | src/underscoreredux.js:275-284 | after `extend`, a property some source has holds the value from the last source that has it; any other property keeps its value |
| Objects.ExtendKeepsOrder | src/underscoreredux.js:275-284 | the target's names that are not array indices stay in front of the ones `extend` adds; enumeration order is kept, and no name is duplicated |
| Objects.CopyKeepsOrder | src/underscoreredux.js:277-281 | copying one source keeps the existing names that are not array indices in front of the new ones; enumeration order is kept, and no name is duplicated |
| Objects.Defaults | src/underscoreredux.js:288-299 | `obj` ends up with every source property it did not already own added in argument and property order, stays a valid object, and is returned |
| Objects.CopyMissingLookup | src/underscoreredux.js:290-296 | after one source is copied without overwriting, an owned property keeps its value, otherwise the source's value is taken |
| Objects.DefaultsLookupKept | src/underscoreredux.js:288-299 | an owned property keeps its value through `defaults`, and a property neither the target nor any source has stays absent |
| Objects.DefaultsLookupFirstWins | src/underscoreredux.js:288-299 | a property the target lacks that source `i` has and no earlier source has holds source `i`'s value after `defaults` |
| Objects.DefaultsLookup | src/underscoreredux.js:288-299 | after `defaults`, an owned property keeps its value; otherwise it holds the value from the first source that has it, or stays absent |
| Decorators.Once.constructor | src/underscoreredux.js:312-316 | a new `once` wrapper has not been called and has no result |
| Decorators.Once.Call | src/underscoreredux.js:321-330 | the first call runs `func` and keeps its answer; every later call returns that answer and changes nothing; the answer is always `func` of the first call's arguments |
| Decorators.OnceTwice | src/underscoreredux.js:312-331 | two calls of a `once` wrapper, whatever their arguments, both return `func` of the first call's arguments |
| Decorators.Memoizer.constructor | src/underscoreredux.js:341-344 | a new memoizer has an empty cache |
| Decorators.Memoizer.Call | src/underscoreredux.js:346-355 | a cached key answers from the cache and leaves it unchanged; a new key runs `func` and caches the answer under that key; the answer is always `func` of arguments with the same key, so it is `func(args)` when keys tell arguments apart |
| Decorators.MemoizeTwice | src/underscoreredux.js:341-357 | a second call with the same key as the first returns the first answer; a different key runs `func` |

## Findings

| source | as written | input that shows it | evidently intended | confidence | as-written member | corrected member |
|---|---|---|---|---|---|---|
| src/underscoreredux.js:191 | without a seed, an array's bootstrap is `collection[0] \|\| collection[objectKeys[0]]`. A falsy first element falls through to `objectKeys[0]`, and `objectKeys` is undefined for arrays, so the call throws a TypeError | `reduce([0, 1, 2], (a, b) => a + b)` | the first element starts the fold, as the comment at lines 157-176 describes, giving 3 | not executed; high | Reduction.ReduceFalsyHead | Reduction.ReduceIntended |

## Left out

- `delay` (lines 365-379) is not modelled. It depends on timers.
- `throttle` (569-570) is not modelled. Its body is empty.
- `shuffle` (392-407) is not modelled. It is driven by `Math.random`.
- `invoke` (420-427) is not modelled. It looks up methods by name and applies them to arbitrary receivers.
- The `window._` setup (line 4) is not modelled.
- The `console.log` calls in `difference` are output and have no effect on the result.
- The dead tests in the source are not modelled: `difArgs === undefined` in `difference`, and `collection === []` / `=== {}` in `every` and `some`.
- Runtime shape detection through `.constructor` is not modelled, because inputs are typed:
  - `each` does nothing on a value that is neither an array nor a plain object;
  - `reduce`, and so `contains`, `every` and `some`, treats any value whose `constructor` is not `Object` as array-like, reading `length` and `[i]` (a string is folded character by character, so `contains("abc", "b")` is true). The model covers arrays and plain objects only;
  - `flatten` throws on `null` or `undefined` elements.
- Collections.Each: the iterator's own side effects are not modelled. They belong to each caller, and the model returns the sequence of calls instead.
- Each loop over an object visits its own properties only. `for…in` would also visit enumerable inherited properties.
- Sorting.SortByCorrect: keys are integers or `undefined`. String keys, mixed types and NaN comparisons are not modelled. A `sortBy` by property name is `SortByProperty`, the criterion `PropertyOf(name)`, and `SortByPropertyCorrect` states the same guarantees for it.
- Selectors.First: counts are integers. Fractional or non-numeric counts and their conversion are not modelled.
- Selectors.Last: counts are integers, for the same reason as `First`.
- Objects.Extend: the sources are values, so a call where `obj` is also one of its sources (aliasing during enumeration) is not modelled.
- Objects.Defaults: the sources are values, so aliasing between `obj` and a source is not modelled.
- Objects.ExtendLookup assumes each source has distinct property names, as every JavaScript object does.
- Objects.PlainObject.constructor requires distinct names in enumeration order, as every ordinary JavaScript object has. Targets with other key orders (arrays, proxies, exotic objects) and symbol-named properties are not modelled.
- Decorators.Memoizer.Call: the key is an abstract `serialize` function rather than JavaScript's string conversion of the argument array. The `in` test's view of names inherited from `Object.prototype` (such as "toString") is not modelled.
- Decorators.Once.Call: the `this` binding and multiple arguments are not modelled. A call takes one argument value.
- Decorators.Memoizer.Call: the `this` binding and multiple arguments are not modelled either.
