/**
 * The reduction engine `reduce` and the predicates built on it: `contains`,
 * `every` and `some`.
 */
module Reduction {
  import opened Collections

  /** The left fold: `reducer` applied to the accumulator and each element in turn. */
  function FoldLeft<T, A>(reducer: (A, T) -> A, acc: A, s: seq<T>): A
  {
    if s == [] then acc
    else reducer(FoldLeft(reducer, acc, s[..|s| - 1]), s[|s| - 1])
  }

  /** A fold over `s + t` continues from the accumulator the fold over `s` left. */
  lemma {:induction false} FoldLeftSplit<T, A>(reducer: (A, T) -> A, acc: A, s: seq<T>, t: seq<T>)
    ensures FoldLeft(reducer, acc, s + t) == FoldLeft(reducer, FoldLeft(reducer, acc, s), t)
  {
    if t == [] {
      assert s + t == s;
    } else {
      var t' := t[..|t| - 1];
      assert (s + t)[..|s + t| - 1] == s + t';
      FoldLeftSplit(reducer, acc, s, t');
    }
  }

  /**
   * The first step of a fold: folding `[x] + s` from `acc` is folding `s` from
   * `reducer(acc, x)`. So a seeded reduce equals an unseeded one whose first
   * element is the seed, when that seed is truthy: the bootstrap as written
   * throws on a falsy first element.
   */
  lemma {:induction false} FoldLeftFirst<T, A>(reducer: (A, T) -> A, acc: A, x: T, s: seq<T>)
    ensures FoldLeft(reducer, acc, [x] + s) == FoldLeft(reducer, reducer(acc, x), s)
  {
    FoldLeftSplit(reducer, acc, [x], s);
    assert [x][..0] == [];
  }

  /**
   * The loop of `reduce`: `current = iterator(current, collection[i])` for every
   * index from `startingPoint` on.
   */
  method ReduceLoop<T, A>(values: seq<T>, startingPoint: nat, reducer: (A, T) -> A, current: A)
    returns (result: A)
    requires startingPoint <= |values|
    ensures result == FoldLeft(reducer, current, values[startingPoint..])
  {
    result := current;
    for i := startingPoint to |values|
      invariant result == FoldLeft(reducer, current, values[startingPoint..i])
    {
      assert values[startingPoint..i + 1][..i - startingPoint] == values[startingPoint..i];
      result := reducer(result, values[i]);
    }
    assert values[startingPoint..|values|] == values[startingPoint..];
  }

  /** `a || b` on possibly-undefined values. */
  function Or<T>(a: Option<T>, b: Option<T>, truthy: T -> bool): Option<T>
  {
    if a.Some? && truthy(a.value) then a else b
  }

  /**
   * `reduce(collection, iterator, accumulator)`. A seed is present when it is
   * not `undefined`. Without one, the accumulator starts as
   * `collection[0] || collection[objectKeys[0]]` and the loop starts at 1: on
   * an array whose first element is missing or falsy, `objectKeys` is still
   * undefined and reading `objectKeys[0]` throws; on an object the bootstrap is
   * the property named "0" when that is truthy and the first property otherwise,
   * and an empty object gives `undefined`.
   */
  method Reduce<T>(collection: Collection<T>, reducer: (T, T) -> T, accumulator: Option<T>, truthy: T -> bool)
    returns (r: Completion<Option<T>>)
    ensures accumulator.Some? ==>
      r == Normal(Some(FoldLeft(reducer, accumulator.value, Values(collection))))
    ensures accumulator.None? && collection.Array? ==>
      var s := collection.items;
      r == if s != [] && truthy(s[0]) then Normal(Some(FoldLeft(reducer, s[0], s[1..])))
           else ThrowTypeError
    ensures accumulator.None? && collection.Object? ==>
      var e := collection.entries;
      r == if e == [] then Normal(None)
           else Normal(Some(FoldLeft(reducer, Or(Lookup(e, "0"), Some(e[0].1), truthy).value, Values(collection)[1..])))
  {
    var values := Values(collection);
    var current: T;
    var startingPoint := 0;
    if accumulator.Some? {
      current := accumulator.value;
    } else {
      match collection {
        case Array(s) =>
          if s != [] && truthy(s[0]) {
            current := s[0];
          } else {
            return ThrowTypeError;
          }
        case Object(e) =>
          var first := Or(Lookup(e, "0"), if e == [] then Lookup(e, "undefined") else Lookup(e, e[0].0), truthy);
          if first.None? {
            return Normal(None);
          }
          current := first.value;
      }
      startingPoint := 1;
    }
    var result := ReduceLoop(values, startingPoint, reducer, current);
    return Normal(Some(result));
  }

  /**
   * `reduce` as evidently intended: without a seed, the first element in
   * traversal order is the starting accumulator whatever its truthiness. This
   * is the bootstrap with every value counted as truthy: an object's property
   * "0", when present, comes first in enumeration order, so on an object the
   * fold starts from its first property.
   */
  method ReduceIntended<T>(collection: Collection<T>, reducer: (T, T) -> T, accumulator: Option<T>)
    returns (r: Completion<Option<T>>)
    ensures accumulator.Some? ==>
      r == Normal(Some(FoldLeft(reducer, accumulator.value, Values(collection))))
    ensures accumulator.None? && collection.Array? ==>
      var s := collection.items;
      r == if s != [] then Normal(Some(FoldLeft(reducer, s[0], s[1..]))) else ThrowTypeError
    ensures accumulator.None? && collection.Object? ==>
      var e := collection.entries;
      var first := Lookup(e, "0");
      r == if e == [] then Normal(None)
           else Normal(Some(FoldLeft(reducer, if first.Some? then first.value else e[0].1, Values(collection)[1..])))
    ensures accumulator.None? && collection.Object? && collection.entries != [] ==>
      InEnumerationOrder(collection.entries) ==>
      r == Normal(Some(FoldLeft(reducer, Values(collection)[0], Values(collection)[1..])))
  {
    r := Reduce(collection, reducer, accumulator, _ => true);
    if collection.Object? && Lookup(collection.entries, "0").Some? && InEnumerationOrder(collection.entries) {
      IndexZeroFirst(collection.entries);
    }
  }

  /**
   * A one-element array without a seed: the element is the accumulator and the
   * iterator is never called, so the answer is that element whatever the
   * iterator. As written this holds only for a truthy element; a falsy one
   * throws. The intended bootstrap answers the element in every case.
   */
  method ReduceSingleton<T>(x: T, reducer: (T, T) -> T, truthy: T -> bool)
    returns (asWritten: Completion<Option<T>>, intended: Completion<Option<T>>)
    ensures truthy(x) ==> asWritten == Normal(Some(x))
    ensures !truthy(x) ==> asWritten == ThrowTypeError
    ensures intended == Normal(Some(x))
  {
    asWritten := Reduce(Array([x]), reducer, None, truthy);
    intended := ReduceIntended(Array([x]), reducer, None);
    assert [x][1..] == [];
  }

  /**
   * The bootstrap as written: with no seed and a falsy first element,
   * `reduce([0, 1, 2], (a, b) => a + b)` throws, where the intended answer is 3.
   */
  method ReduceFalsyHead() returns (asWritten: Completion<Option<int>>, intended: Completion<Option<int>>)
    ensures asWritten == ThrowTypeError
    ensures intended == Normal(Some(3))
  {
    var add := (a: int, b: int) => a + b;
    asWritten := Reduce(Array([0, 1, 2]), add, None, x => x != 0);
    intended := ReduceIntended(Array([0, 1, 2]), add, None);
    assert [0, 1, 2][1..] == [1, 2];
    assert [1, 2][..1] == [1];
    assert [1][..0] == [];
  }

  // ---------------------------------------------------------------------------
  // contains
  // ---------------------------------------------------------------------------

  /** The reducer `contains` hands to `reduce`: once found, stays found. */
  function ContainsStep<T(==)>(target: T): (bool, T) -> bool
  {
    (wasFound, item) => if wasFound then true else item == target
  }

  /**
   * `contains(collection, target)`: a reduce seeded with `false`. A seeded
   * reduce is the left fold over the visited values (`Reduce`'s first
   * postcondition, whose loop is the generic `ReduceLoop`); `FoldLeft` is used
   * directly here because this reducer's accumulator is a boolean, not an
   * element, and `Reduce` types its reducer over elements alone.
   */
  function Contains<T(==)>(collection: Collection<T>, target: T): bool
  {
    FoldLeft(ContainsStep(target), false, Values(collection))
  }

  lemma {:induction false} FoldContains<T>(s: seq<T>, target: T)
    ensures FoldLeft(ContainsStep(target), false, s) <==> target in s
  {
    if s != [] {
      var init := s[..|s| - 1];
      FoldContains(init, target);
      assert s == init + [s[|s| - 1]];
    }
  }

  /** `contains` is membership under `===`; in particular it is false on an empty collection. */
  lemma {:induction false} ContainsMeaning<T>(collection: Collection<T>, target: T)
    ensures Contains(collection, target) <==> target in Values(collection)
    ensures Size(collection) == 0 ==> !Contains(collection, target)
  {
    FoldContains(Values(collection), target);
  }

  // ---------------------------------------------------------------------------
  // every and some
  // ---------------------------------------------------------------------------

  /**
   * The reducer `every` hands to `reduce`. Without a callback an element
   * counts only when it is `=== true` (`isTrue`); with one, when the
   * callback's answer is truthy.
   */
  function EveryStep<T>(callback: Option<T -> bool>, isTrue: T -> bool): (bool, T) -> bool
  {
    (allTrue, currentItem) =>
      if callback.None? && allTrue then isTrue(currentItem)
      else if callback.Some? && callback.value(currentItem) && allTrue then true
      else false
  }

  /** The test an element must pass for `every` to hold. */
  function EveryTest<T>(callback: Option<T -> bool>, isTrue: T -> bool): T -> bool
  {
    if callback.Some? then callback.value else isTrue
  }

  /**
   * `every(collection, callback)`: a reduce seeded with `true`, written as the
   * left fold it amounts to, as for `Contains`. The source's early test
   * `collection === []` compares identities and never holds.
   */
  function Every<T>(collection: Collection<T>, callback: Option<T -> bool>, isTrue: T -> bool): bool
  {
    FoldLeft(EveryStep(callback, isTrue), true, Values(collection))
  }

  lemma {:induction false} FoldEvery<T>(s: seq<T>, callback: Option<T -> bool>, isTrue: T -> bool)
    ensures FoldLeft(EveryStep(callback, isTrue), true, s) <==>
      forall i :: 0 <= i < |s| ==> EveryTest(callback, isTrue)(s[i])
  {
    if s != [] {
      FoldEvery(s[..|s| - 1], callback, isTrue);
    }
  }

  /** `every` holds exactly when every visited value passes the test; so it is true on empty input. */
  lemma {:induction false} EveryMeaning<T>(collection: Collection<T>, callback: Option<T -> bool>, isTrue: T -> bool)
    ensures Every(collection, callback, isTrue) <==>
      forall i :: 0 <= i < Size(collection) ==> EveryTest(callback, isTrue)(Values(collection)[i])
    ensures Size(collection) == 0 ==> Every(collection, callback, isTrue)
  {
    FoldEvery(Values(collection), callback, isTrue);
  }

  /** The test `some` uses: the callback, or `r == true` (`looseTrue`) without one. */
  function SomeTest<T>(callback: Option<T -> bool>, looseTrue: T -> bool): T -> bool
  {
    if callback.Some? then callback.value else looseTrue
  }

  /**
   * `some(collection, callback)`: the negation of `every` with the inverted
   * test. (Named `Any` because `Some` is the constructor of `Option`.)
   */
  function Any<T>(collection: Collection<T>, callback: Option<T -> bool>, looseTrue: T -> bool): bool
  {
    var test := SomeTest(callback, looseTrue);
    var inverse := s => !test(s);
    !Every(collection, Some(inverse), looseTrue)
  }

  /** `some` holds exactly when a visited value passes the test; so it is false on empty input. */
  lemma {:induction false} AnyMeaning<T>(collection: Collection<T>, callback: Option<T -> bool>, looseTrue: T -> bool)
    ensures Any(collection, callback, looseTrue) <==>
      exists i :: 0 <= i < Size(collection) && SomeTest(callback, looseTrue)(Values(collection)[i])
    ensures Size(collection) == 0 ==> !Any(collection, callback, looseTrue)
  {
    var test := SomeTest(callback, looseTrue);
    var inverse := s => !test(s);
    EveryMeaning(collection, Some(inverse), looseTrue);
  }

  /** De Morgan: `every(c, p)` holds exactly when `some(c, x => !p(x))` does not. */
  lemma {:induction false} EveryAnyDuality<T>(collection: Collection<T>, p: T -> bool, isTrue: T -> bool, looseTrue: T -> bool)
    ensures Every(collection, Some(p), isTrue) <==> !Any(collection, Some(x => !p(x)), looseTrue)
  {
    EveryMeaning(collection, Some(p), isTrue);
    AnyMeaning(collection, Some(x => !p(x)), looseTrue);
  }
}
