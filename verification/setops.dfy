/**
 * Arrays treated as sets: `intersection` and `difference`. Both keep
 * elements of one argument in their order, tested for membership in the
 * others with `===`; neither removes duplicates.
 */
module SetOperations {
  import opened Collections
  import opened Search
  import opened Reduction

  // ---------------------------------------------------------------------------
  // intersection
  // ---------------------------------------------------------------------------

  /**
   * The argument `intersection` enumerates: the first one strictly longer than
   * everything before it, starting from length 0. `undefined` when every
   * argument is empty.
   */
  function Longest<T>(args: seq<seq<T>>): (largestArg: Option<nat>)
    ensures largestArg.None? <==> forall j :: 0 <= j < |args| ==> |args[j]| == 0
    ensures largestArg.Some? ==>
      && largestArg.value < |args|
      && (forall j :: 0 <= j < |args| ==> |args[j]| <= |args[largestArg.value]|)
      && (forall j :: 0 <= j < largestArg.value ==> |args[j]| < |args[largestArg.value]|)
  {
    if args == [] then None
    else
      var before := Longest(args[..|args| - 1]);
      var maxLength := if before.Some? then |args[before.value]| else 0;
      if |args[|args| - 1]| > maxLength then Some(|args| - 1) else before
  }

  /** The test `intersection` applies: `indexOf` finds the element in every argument. */
  function InEvery<T(==)>(args: seq<seq<T>>): T -> bool
  {
    elt => forall n :: 0 <= n < |args| ==> elt in args[n]
  }

  /**
   * The callback `intersection` runs for each enumerated element: `indexOf`
   * in every argument, stopping at the first that lacks it.
   */
  method SharedByAll<T(==)>(args: seq<seq<T>>, elt: T) returns (shared: bool)
    ensures shared == InEvery(args)(elt)
  {
    shared := true;
    for n := 0 to |args|
      invariant shared ==> forall m :: 0 <= m < n ==> elt in args[m]
      invariant !shared ==> !InEvery(args)(elt)
    {
      var at := IndexOf(args[n], elt);
      FirstIndexMeaning(args[n], elt);
      if at == -1 {
        shared := false;
        break;
      }
    }
  }

  /**
   * `intersection(a1, …, an)`: the elements of the longest argument that occur
   * in every argument, in that argument's order and with its repetitions. When
   * every argument is empty (or there is none) `args[largestArg]` is
   * `undefined` and `each` throws on it.
   */
  method Intersection<T(==)>(args: seq<seq<T>>) returns (r: Completion<seq<T>>)
    ensures Longest(args).None? ==> r == ThrowTypeError
    ensures Longest(args).Some? ==> r == Normal(Filtered(args[Longest(args).value], InEvery(args)))
  {
    var maxLength := 0;
    var largestArg: Option<nat> := None;
    for i := 0 to |args|
      invariant largestArg == Longest(args[..i])
      invariant maxLength == if largestArg.Some? then |args[largestArg.value]| else 0
    {
      assert args[..i + 1][..i] == args[..i];
      if |args[i]| > maxLength {
        maxLength := |args[i]|;
        largestArg := Some(i);
      }
    }
    assert args[..|args|] == args;
    if largestArg.None? {
      return ThrowTypeError;
    }
    var source := args[largestArg.value];
    var newArr := [];
    for e := 0 to |source|
      invariant newArr == Filtered(source[..e], InEvery(args))
    {
      assert source[..e + 1][..e] == source[..e];
      var elt := source[e];
      var shared := SharedByAll(args, elt);
      if shared {
        newArr := newArr + [elt];
      }
    }
    assert source[..|source|] == source;
    return Normal(newArr);
  }

  /**
   * What `intersection` keeps: an element occurs in the answer exactly when it
   * occurs in every argument, as many times as in the enumerated argument.
   */
  lemma {:induction false} IntersectionMembers<T>(args: seq<seq<T>>, x: T)
    requires Longest(args).Some?
    ensures var r := Filtered(args[Longest(args).value], InEvery(args));
      && (x in r <==> forall n :: 0 <= n < |args| ==> x in args[n])
      && (InEvery(args)(x) ==> multiset(r)[x] == multiset(args[Longest(args).value])[x])
  {
    FilteredCount(args[Longest(args).value], InEvery(args), x);
  }

  // ---------------------------------------------------------------------------
  // difference
  // ---------------------------------------------------------------------------

  /** The test `difference` applies: no other array `contains` the element. */
  function InNone<T(==)>(others: seq<seq<T>>): T -> bool
  {
    elt => forall i :: 0 <= i < |others| ==> elt !in others[i]
  }

  /**
   * The callback `difference` runs for each element: `contains` on every
   * other array, stopping at the first that has it.
   */
  method InAnotherArray<T(==)>(others: seq<seq<T>>, elt: T) returns (inAnotherArray: bool)
    ensures inAnotherArray == !InNone(others)(elt)
  {
    inAnotherArray := false;
    for i := 0 to |others|
      invariant !inAnotherArray ==> forall m :: 0 <= m < i ==> elt !in others[m]
      invariant inAnotherArray ==> !InNone(others)(elt)
    {
      ContainsMeaning(Array(others[i]), elt);
      if Contains(Array(others[i]), elt) {
        inAnotherArray := true;
        break;
      }
    }
  }

  /**
   * `difference(array, …others)`: the elements of `array`, in order, that no
   * other argument contains.
   */
  method Difference<T(==)>(arr: seq<T>, others: seq<seq<T>>) returns (whatsLeft: seq<T>)
    ensures whatsLeft == Filtered(arr, InNone(others))
  {
    whatsLeft := [];
    for e := 0 to |arr|
      invariant whatsLeft == Filtered(arr[..e], InNone(others))
    {
      assert arr[..e + 1][..e] == arr[..e];
      var elt := arr[e];
      var inAnotherArray := InAnotherArray(others, elt);
      if !inAnotherArray {
        whatsLeft := whatsLeft + [elt];
      }
    }
    assert arr[..|arr|] == arr;
  }

  /**
   * What `difference` keeps: an element occurs in the answer exactly when it
   * occurs in `array` and in no other argument; with no other arguments the
   * answer is `array` itself.
   */
  lemma {:induction false} DifferenceMembers<T>(arr: seq<T>, others: seq<seq<T>>, x: T)
    ensures x in Filtered(arr, InNone(others)) <==> x in arr && forall i :: 0 <= i < |others| ==> x !in others[i]
    ensures others == [] ==> Filtered(arr, InNone(others)) == arr
  {
    FilteredCount(arr, InNone(others), x);
    if others == [] {
      FilteredKeepsAll(arr, InNone(others));
    }
  }
}
