/**
 * `flatten`: a depth-first walk of a nested array that pushes every
 * non-array element onto one shared result array.
 */
module Flattening {
  import opened Transforms

  /** An element of a nested array: a plain value, or an array of further elements. */
  datatype Nested<T> = Leaf(value: T) | List(items: seq<Nested<T>>)

  /** The leaves of a nested array, depth-first and left to right. */
  function Leaves<T>(xs: seq<Nested<T>>): seq<T>
    decreases xs
  {
    if xs == [] then []
    else Leaves(xs[..|xs| - 1]) + LeavesOf(xs[|xs| - 1])
  }

  function LeavesOf<T>(x: Nested<T>): seq<T>
    decreases x
  {
    match x
    case Leaf(v) => [v]
    case List(items) => Leaves(items)
  }

  /** The array `result` that every recursive call of `flatten` pushes onto. */
  class Accumulator<T> {
    var items: seq<T>

    constructor ()
      ensures items == []
    {
      items := [];
    }

    /** `result.push(x)`. */
    method Push(x: T)
      modifies this
      ensures items == old(items) + [x]
    {
      items := items + [x];
    }
  }

  /**
   * `flatten(nestedArray, result)` with a given `result`: arrays are walked
   * recursively with the same accumulator, every other element is pushed.
   */
  method FlattenInto<T>(nestedArray: seq<Nested<T>>, result: Accumulator<T>)
    modifies result
    ensures result.items == old(result.items) + Leaves(nestedArray)
    decreases nestedArray
  {
    for i := 0 to |nestedArray|
      invariant result.items == old(result.items) + Leaves(nestedArray[..i])
    {
      assert nestedArray[..i + 1][..i] == nestedArray[..i];
      match nestedArray[i] {
        case List(items) =>
          FlattenInto(items, result);
        case Leaf(v) =>
          result.Push(v);
      }
    }
    assert nestedArray[..|nestedArray|] == nestedArray;
  }

  /** `flatten(nestedArray)`: a fresh accumulator, filled by the walk. */
  method Flatten<T>(nestedArray: seq<Nested<T>>) returns (r: seq<T>)
    ensures r == Leaves(nestedArray)
  {
    var result := new Accumulator<T>();
    FlattenInto(nestedArray, result);
    r := result.items;
  }

  /** Flattening distributes over concatenation, so the walk keeps left-to-right order. */
  lemma {:induction false} LeavesAppend<T>(a: seq<Nested<T>>, b: seq<Nested<T>>)
    ensures Leaves(a + b) == Leaves(a) + Leaves(b)
  {
    if b == [] {
      assert a + b == a;
    } else {
      var b' := b[..|b| - 1];
      assert (a + b)[..|a + b| - 1] == a + b';
      LeavesAppend(a, b');
    }
  }

  /** An array with no nested arrays flattens to itself. */
  lemma {:induction false} LeavesOfFlat<T>(s: seq<T>)
    ensures Leaves(Mapped(s, x => Leaf(x))) == s
  {
    if s != [] {
      var init := s[..|s| - 1];
      LeavesOfFlat(init);
      assert Mapped(s, x => Leaf(x)) == Mapped(init, x => Leaf(x)) + [Leaf(s[|s| - 1])];
      MappedAt(s, x => Leaf(x));
      assert Mapped(s, x => Leaf(x))[..|s| - 1] == Mapped(init, x => Leaf(x));
    }
  }

  /** Flattening is idempotent: the flattened array, seen as a nested array, flattens to itself. */
  lemma {:induction false} FlattenIdempotent<T>(xs: seq<Nested<T>>)
    ensures Leaves(Mapped(Leaves(xs), x => Leaf(x))) == Leaves(xs)
  {
    LeavesOfFlat(Leaves(xs));
  }

  /** The number of leaves: one per plain value, however deep. */
  function LeafCount<T>(xs: seq<Nested<T>>): nat
    decreases xs
  {
    if xs == [] then 0
    else LeafCount(xs[..|xs| - 1]) + match xs[|xs| - 1] { case Leaf(_) => 1 case List(items) => LeafCount(items) }
  }

  /** Every leaf is kept, and nothing else: the answer has one element per leaf. */
  lemma {:induction false} FlattenLength<T>(xs: seq<Nested<T>>)
    ensures |Leaves(xs)| == LeafCount(xs)
    decreases xs
  {
    if xs != [] {
      FlattenLength(xs[..|xs| - 1]);
      match xs[|xs| - 1] {
        case Leaf(_) =>
        case List(items) => FlattenLength(items);
      }
    }
  }
}
