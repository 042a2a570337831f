/**
 * The function decorators `once` and `memoize`. Each returns a closure over
 * private state; the model makes that state the fields of an object and the
 * closure its `Call` method. The decorated function is pure here: its
 * arguments are one value of type `A` and `this` plays no part.
 */
module Decorators {
  import opened Collections

  /** The closure `once(func)` returns, with the variables it closes over. */
  class Once<A, R> {
    const func: A -> R
    var alreadyCalled: bool
    /** `result`: `undefined` until the first call. */
    var result: Option<R>
    /** The arguments of the first call, once there has been one. */
    ghost var firstArgs: Option<A>

    /** The cached result always comes from the first call's arguments. */
    ghost predicate Valid()
      reads this
    {
      && alreadyCalled == firstArgs.Some?
      && alreadyCalled == result.Some?
      && (alreadyCalled ==> result.value == func(firstArgs.value))
    }

    /** `once(func)`: nothing called yet. */
    constructor (func: A -> R)
      ensures this.func == func
      ensures !alreadyCalled && result == None
      ensures Valid()
    {
      this.func := func;
      alreadyCalled := false;
      result := None;
      firstArgs := None;
    }

    /**
     * A call of the returned function: the first one calls `func` and keeps
     * its answer, every later one returns that answer and changes nothing.
     */
    method Call(args: A) returns (r: R)
      requires Valid()
      modifies this
      ensures Valid()
      ensures old(alreadyCalled) ==> r == old(result).value && unchanged(this)
      ensures !old(alreadyCalled) ==> r == func(args) && firstArgs == Some(args)
      ensures alreadyCalled && result == Some(r) && r == func(firstArgs.value)
    {
      if !alreadyCalled {
        result := Some(func(args));
        firstArgs := Some(args);
        alreadyCalled := true;
      }
      r := result.value;
    }
  }

  /**
   * Two calls of `once(func)`, with any arguments: both answer `func` of the
   * first call's arguments.
   */
  method OnceTwice<A, R>(func: A -> R, first: A, second: A) returns (r1: R, r2: R)
    ensures r1 == func(first)
    ensures r2 == r1
  {
    var f := new Once(func);
    r1 := f.Call(first);
    r2 := f.Call(second);
  }

  /**
   * The closure `memoize(func)` returns. `alreadyComputed` maps the string
   * form of an argument list (given by `serialize`, JavaScript's conversion
   * of the argument array to a property name) to the answer computed for it.
   */
  class Memoizer<A, R> {
    const func: A -> R
    const serialize: A -> string
    var alreadyComputed: map<string, R>
    /** For every cached key, the arguments whose answer was stored under it. */
    ghost var computedFrom: map<string, A>

    /** Every cached answer is `func` of arguments that have that key. */
    ghost predicate Valid()
      reads this
    {
      && computedFrom.Keys == alreadyComputed.Keys
      && forall key :: key in computedFrom ==>
           serialize(computedFrom[key]) == key && alreadyComputed[key] == func(computedFrom[key])
    }

    /** `memoize(func)`: an empty cache. */
    constructor (func: A -> R, serialize: A -> string)
      ensures this.func == func && this.serialize == serialize
      ensures alreadyComputed == map[]
      ensures Valid()
    {
      this.func := func;
      this.serialize := serialize;
      alreadyComputed := map[];
      computedFrom := map[];
    }

    /**
     * A call of the returned function: a key already in the cache answers
     * from the cache; otherwise `func` is called and its answer stored under
     * the key. So `func` runs at most once per key, and the answer is always
     * `func` of arguments with the same key (of these arguments, when
     * `serialize` tells all arguments apart).
     */
    method Call(args: A) returns (r: R)
      requires Valid()
      modifies this
      ensures Valid()
      ensures serialize(args) in old(alreadyComputed) ==>
        r == old(alreadyComputed)[serialize(args)] && alreadyComputed == old(alreadyComputed)
      ensures serialize(args) !in old(alreadyComputed) ==>
        r == func(args) && alreadyComputed == old(alreadyComputed)[serialize(args) := r]
      ensures serialize(args) in computedFrom && r == func(computedFrom[serialize(args)])
      ensures (forall x, y :: serialize(x) == serialize(y) ==> x == y) ==> r == func(args)
    {
      var key := serialize(args);
      if key !in alreadyComputed {
        r := func(args);
        alreadyComputed := alreadyComputed[key := r];
        computedFrom := computedFrom[key := args];
      } else {
        r := alreadyComputed[key];
      }
    }
  }

  /**
   * Two calls of `memoize(func)`: the second answers from the cache exactly
   * when its arguments have the same key as the first's, even if `func`
   * would have answered differently.
   */
  method MemoizeTwice<A, R>(func: A -> R, serialize: A -> string, first: A, second: A)
    returns (r1: R, r2: R)
    ensures r1 == func(first)
    ensures serialize(second) == serialize(first) ==> r2 == r1
    ensures serialize(second) != serialize(first) ==> r2 == func(second)
  {
    var m := new Memoizer(func, serialize);
    r1 := m.Call(first);
    r2 := m.Call(second);
  }
}
