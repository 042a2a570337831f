/**
 * Transforms that build a new array from a collection: `map`, `pluck` and
 * `zip`. (`sortBy` and `flatten` have modules of their own.)
 */
module Transforms {
  import opened Collections

  /** `identity(val)`. */
  function Identity<T>(val: T): T
  {
    val
  }

  /** `f` applied to every element, in order. */
  function Mapped<T, U>(s: seq<T>, f: T -> U): seq<U>
  {
    if s == [] then [] else Mapped(s[..|s| - 1], f) + [f(s[|s| - 1])]
  }

  /** `map` keeps the length, and its i-th answer is `f` of the i-th element. */
  lemma {:induction false} MappedAt<T, U>(s: seq<T>, f: T -> U)
    ensures |Mapped(s, f)| == |s|
    ensures forall i :: 0 <= i < |s| ==> Mapped(s, f)[i] == f(s[i])
  {
    if s != [] {
      MappedAt(s[..|s| - 1], f);
    }
  }

  /** Identity law: mapping `identity` returns the input. */
  lemma {:induction false} MapIdentity<T>(s: seq<T>)
    ensures Mapped(s, Identity) == s
  {
    MappedAt(s, Identity);
  }

  /** Mapping twice is mapping the composition once. */
  lemma {:induction false} MapCompose<T, U, V>(s: seq<T>, f: T -> U, g: U -> V)
    ensures Mapped(Mapped(s, f), g) == Mapped(s, x => g(f(x)))
  {
    MappedAt(s, f);
    MappedAt(Mapped(s, f), g);
    MappedAt(s, x => g(f(x)));
  }

  /** `map(collection, iterator)`: pushes `iterator(value)` for every visited value. */
  method Map<T, U>(collection: Collection<T>, f: T -> U) returns (newArr: seq<U>)
    ensures newArr == Mapped(Values(collection), f)
  {
    var values := Values(collection);
    newArr := [];
    for i := 0 to |values|
      invariant newArr == Mapped(values[..i], f)
    {
      assert values[..i + 1][..i] == values[..i];
      newArr := newArr + [f(values[i])];
    }
    assert values[..|values|] == values;
  }

  /** The function `pluck` maps with: read one property of a record. */
  function PropertyOf<V>(key: string): Record<V> -> Option<V>
  {
    item => Lookup(item, key)
  }

  /** `pluck(collection, key)`: the `key` property of every visited record, `undefined` where missing. */
  method Pluck<V>(collection: Collection<Record<V>>, key: string) returns (r: seq<Option<V>>)
    ensures |r| == Size(collection)
    ensures forall i :: 0 <= i < |r| ==> r[i] == Lookup(Values(collection)[i], key)
  {
    r := Map(collection, PropertyOf(key));
    MappedAt(Values(collection), PropertyOf(key));
  }

  // ---------------------------------------------------------------------------
  // zip
  // ---------------------------------------------------------------------------

  /** `Math.max` folded over the lengths, starting from 0. */
  function MaxLength<T>(args: seq<seq<T>>): nat
  {
    if args == [] then 0
    else
      var m := MaxLength(args[..|args| - 1]);
      if |args[|args| - 1]| > m then |args[|args| - 1]| else m
  }

  /** MaxLength is the greatest length, and 0 only when every argument is empty. */
  lemma {:induction false} MaxLengthMeaning<T>(args: seq<seq<T>>)
    ensures forall j :: 0 <= j < |args| ==> |args[j]| <= MaxLength(args)
    ensures args != [] ==> exists j :: 0 <= j < |args| && |args[j]| == MaxLength(args)
    ensures args == [] ==> MaxLength(args) == 0
  {
    if args != [] {
      var init := args[..|args| - 1];
      MaxLengthMeaning(init);
      if init != [] && |args[|args| - 1]| <= MaxLength(init) {
        var j :| 0 <= j < |init| && |init[j]| == MaxLength(init);
        assert args[j] == init[j];
      }
    }
  }

  /** `elt[i]`: the element at `i`, or `undefined` past the end. */
  function At<T>(elt: seq<T>, i: nat): Option<T>
  {
    if i < |elt| then Some(elt[i]) else None
  }

  /**
   * `zip(a1, …, an)`: as many rows as the longest argument, each row holding
   * the i-th element of every argument in argument order, `undefined` where an
   * argument is too short.
   */
  method Zip<T>(args: seq<seq<T>>) returns (zippedArr: seq<seq<Option<T>>>)
    ensures |zippedArr| == MaxLength(args)
    ensures forall i :: 0 <= i < |zippedArr| ==> |zippedArr[i]| == |args|
    ensures forall i, j :: 0 <= i < |zippedArr| && 0 <= j < |args| ==> zippedArr[i][j] == At(args[j], i)
  {
    var maxLength := 0;
    for k := 0 to |args|
      invariant maxLength == MaxLength(args[..k])
    {
      assert args[..k + 1][..k] == args[..k];
      maxLength := if maxLength > |args[k]| then maxLength else |args[k]|;
    }
    assert args[..|args|] == args;

    zippedArr := [];
    for i := 0 to maxLength
      invariant |zippedArr| == i
      invariant forall r :: 0 <= r < i ==> |zippedArr[r]| == |args|
      invariant forall r, j :: 0 <= r < i && 0 <= j < |args| ==> zippedArr[r][j] == At(args[j], r)
    {
      // Row i comes into existence at the first argument and collects `elt[i]` from each.
      var row: seq<Option<T>> := [];
      for j := 0 to |args|
        invariant |row| == j
        invariant forall c :: 0 <= c < j ==> row[c] == At(args[c], i)
      {
        row := row + [At(args[j], i)];
      }
      zippedArr := zippedArr + [row];
    }
  }
}
