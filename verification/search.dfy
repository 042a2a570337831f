/**
 * Selection and search: `indexOf`, `filter`, `reject` and `uniq`.
 *
 * Each specification function is defined by the last element of its input,
 * the way the source's loops build their answers one element at a time.
 */
module Search {
  import opened Collections

  // ---------------------------------------------------------------------------
  // indexOf
  // ---------------------------------------------------------------------------

  /** The answer of `indexOf`: the first index holding `target`, or -1. */
  function FirstIndex<T(==)>(s: seq<T>, target: T): int
  {
    if s == [] then -1
    else
      var k := FirstIndex(s[..|s| - 1], target);
      if k != -1 then k
      else if s[|s| - 1] == target then |s| - 1
      else -1
  }

  /** FirstIndex is -1 exactly when `target` is absent, and otherwise the lowest index holding it. */
  lemma {:induction false} FirstIndexMeaning<T>(s: seq<T>, target: T)
    ensures -1 <= FirstIndex(s, target) < |s|
    ensures FirstIndex(s, target) == -1 <==> target !in s
    ensures FirstIndex(s, target) >= 0 ==>
      s[FirstIndex(s, target)] == target && target !in s[..FirstIndex(s, target)]
  {
    if s != [] {
      var init := s[..|s| - 1];
      FirstIndexMeaning(init, target);
      assert s == init + [s[|s| - 1]];
      var k := FirstIndex(init, target);
      if k != -1 {
        assert s[..k] == init[..k];
      } else {
        assert s[..|s| - 1] == init;
      }
    }
  }

  /** `indexOf(array, target)`: one pass in which the first match is recorded and kept. */
  method IndexOf<T(==)>(arr: seq<T>, target: T) returns (result: int)
    ensures result == FirstIndex(arr, target)
  {
    result := -1;
    for index := 0 to |arr|
      invariant result == FirstIndex(arr[..index], target)
    {
      assert arr[..index + 1][..index] == arr[..index];
      if arr[index] == target && result == -1 {
        result := index;
      }
    }
    assert arr[..|arr|] == arr;
  }

  // ---------------------------------------------------------------------------
  // filter and reject
  // ---------------------------------------------------------------------------

  /** The elements of `s` that pass `test`, in their original order. */
  function Filtered<T>(s: seq<T>, test: T -> bool): seq<T>
  {
    if s == [] then []
    else Filtered(s[..|s| - 1], test) + (if test(s[|s| - 1]) then [s[|s| - 1]] else [])
  }

  /** `filter(collection, test)`: the visited values that pass the test, in visiting order. */
  method Filter<T>(collection: Collection<T>, test: T -> bool) returns (yesArray: seq<T>)
    ensures yesArray == Filtered(Values(collection), test)
  {
    var values := Values(collection);
    yesArray := [];
    for i := 0 to |values|
      invariant yesArray == Filtered(values[..i], test)
    {
      assert values[..i + 1][..i] == values[..i];
      if test(values[i]) {
        yesArray := yesArray + [values[i]];
      }
    }
    assert values[..|values|] == values;
  }

  /** The test `reject` hands to `filter`. */
  function Negation<T>(test: T -> bool): T -> bool
  {
    s => !test(s)
  }

  /** `reject(collection, test)`: `filter` with the negated test. */
  method Reject<T>(collection: Collection<T>, test: T -> bool) returns (noArray: seq<T>)
    ensures noArray == Filtered(Values(collection), Negation(test))
  {
    noArray := Filter(collection, Negation(test));
  }

  /** Filtering distributes over concatenation: order is kept and nothing is moved across. */
  lemma {:induction false} FilteredAppend<T>(a: seq<T>, b: seq<T>, test: T -> bool)
    ensures Filtered(a + b, test) == Filtered(a, test) + Filtered(b, test)
  {
    if b != [] {
      var b' := b[..|b| - 1];
      assert (a + b)[..|a + b| - 1] == a + b';
      FilteredAppend(a, b', test);
    } else {
      assert a + b == a;
    }
  }

  /** An element is kept exactly when it occurs in `s` and passes the test, as often as it occurs. */
  lemma {:induction false} FilteredCount<T>(s: seq<T>, test: T -> bool, x: T)
    ensures multiset(Filtered(s, test))[x] == if test(x) then multiset(s)[x] else 0
    ensures x in Filtered(s, test) <==> x in s && test(x)
  {
    if s != [] {
      var init := s[..|s| - 1];
      FilteredCount(init, test, x);
      assert s == init + [s[|s| - 1]];
    }
  }

  /** Every element of the result passes the test. */
  lemma {:induction false} FilteredAllPass<T>(s: seq<T>, test: T -> bool)
    ensures forall i :: 0 <= i < |Filtered(s, test)| ==> test(Filtered(s, test)[i])
  {
    if s != [] {
      FilteredAllPass(s[..|s| - 1], test);
    }
  }

  /** When every element passes, filtering returns the input unchanged. */
  lemma {:induction false} FilteredKeepsAll<T>(s: seq<T>, test: T -> bool)
    requires forall i :: 0 <= i < |s| ==> test(s[i])
    ensures Filtered(s, test) == s
  {
    if s != [] {
      FilteredKeepsAll(s[..|s| - 1], test);
    }
  }

  /** When no element passes, filtering returns nothing. */
  lemma {:induction false} FilteredNone<T>(s: seq<T>, test: T -> bool)
    requires forall i :: 0 <= i < |s| ==> !test(s[i])
    ensures Filtered(s, test) == []
  {
    if s != [] {
      FilteredNone(s[..|s| - 1], test);
    }
  }

  /**
   * Filtering a sequence with `x` placed between `front` and `back`: when `x`
   * passes and nothing in `back` does, `x` lands last among the kept elements;
   * when `x` fails, the result is as if `x` were not there.
   */
  lemma {:induction false} FilteredAround<T>(front: seq<T>, x: T, back: seq<T>, test: T -> bool)
    requires test(x) ==> forall i :: 0 <= i < |back| ==> !test(back[i])
    ensures Filtered(front + [x] + back, test) == Filtered(front + back, test) + (if test(x) then [x] else [])
  {
    assert (front + [x])[..|front|] == front;
    FilteredAppend(front + [x], back, test);
    FilteredAppend(front, back, test);
    if test(x) {
      FilteredNone(back, test);
    }
  }

  /**
   * `filter` and `reject` partition their input: every element goes to exactly
   * one of the two results.
   */
  lemma {:induction false} FilterRejectPartition<T>(s: seq<T>, test: T -> bool)
    ensures |Filtered(s, test)| + |Filtered(s, Negation(test))| == |s|
    ensures multiset(Filtered(s, test)) + multiset(Filtered(s, Negation(test))) == multiset(s)
  {
    FilterRejectMultiset(s, test);
    assert |multiset(Filtered(s, test))| == |Filtered(s, test)|;
    assert |multiset(Filtered(s, Negation(test)))| == |Filtered(s, Negation(test))|;
    assert |multiset(s)| == |s|;
  }

  /** Every element of `s` goes to `filter` or to `reject`, as often as it occurs. */
  lemma {:induction false} FilterRejectMultiset<T>(s: seq<T>, test: T -> bool)
    ensures multiset(Filtered(s, test)) + multiset(Filtered(s, Negation(test))) == multiset(s)
  {
    if s != [] {
      var init, x := s[..|s| - 1], s[|s| - 1];
      FilterRejectMultiset(init, test);
      assert s == init + [x];
      var yes, no := Filtered(init, test), Filtered(init, Negation(test));
      if test(x) {
        assert Filtered(s, test) == yes + [x];
        assert Filtered(s, Negation(test)) == no;
      } else {
        assert Filtered(s, test) == yes;
        assert Filtered(s, Negation(test)) == no + [x];
      }
    }
  }

  // ---------------------------------------------------------------------------
  // uniq
  // ---------------------------------------------------------------------------

  /** The first occurrence of every distinct element, in input order. */
  function Unique<T(==)>(s: seq<T>): seq<T>
  {
    if s == [] then []
    else
      var kept := Unique(s[..|s| - 1]);
      if s[|s| - 1] in kept then kept else kept + [s[|s| - 1]]
  }

  ghost predicate NoDuplicates<T>(s: seq<T>)
  {
    forall i, j :: 0 <= i < j < |s| ==> s[i] != s[j]
  }

  /**
   * `uniq(array, isSorted, iterator)`. Both branches of the source run the
   * same loop and the key function is never used, so the answer depends on
   * the array alone.
   */
  method Uniq<T(==)>(arr: seq<T>, isSorted: bool, keyFn: Option<T -> T>) returns (uniArr: seq<T>)
    ensures uniArr == Unique(arr)
  {
    uniArr := [];
    var used: seq<T> := [];
    for i := 0 to |arr|
      invariant used == uniArr == Unique(arr[..i])
    {
      assert arr[..i + 1][..i] == arr[..i];
      var at := IndexOf(used, arr[i]);
      FirstIndexMeaning(used, arr[i]);
      if at < 0 {
        uniArr := uniArr + [arr[i]];
        used := used + [arr[i]];
      }
    }
    assert arr[..|arr|] == arr;
  }

  /** `uniq` keeps exactly the elements of its input, each once. */
  lemma {:induction false} UniqueElements<T>(s: seq<T>)
    ensures NoDuplicates(Unique(s))
    ensures forall x :: x in Unique(s) <==> x in s
  {
    if s != [] {
      var init := s[..|s| - 1];
      UniqueElements(init);
      assert s == init + [s[|s| - 1]];
    }
  }

  lemma {:induction false} UniqueMember<T>(s: seq<T>, y: T)
    requires y in Unique(s)
    ensures y in s
  {
    UniqueElements(s);
  }

  /** A first occurrence keeps its index when elements are appended. */
  lemma {:induction false} FirstIndexPrefix<T>(s: seq<T>, x: T, target: T)
    requires target in s
    ensures FirstIndex(s + [x], target) == FirstIndex(s, target)
  {
    assert (s + [x])[..|s|] == s;
    FirstIndexMeaning(s, target);
  }

  /** `uniq` lists the first occurrences in the order they appear in the input. */
  lemma {:induction false} UniqueFirstOccurrenceOrder<T>(s: seq<T>)
    ensures forall i, j :: 0 <= i < j < |Unique(s)| ==>
      0 <= FirstIndex(s, Unique(s)[i]) < FirstIndex(s, Unique(s)[j])
  {
    if s != [] {
      var init, x := s[..|s| - 1], s[|s| - 1];
      assert s == init + [x];
      UniqueFirstOccurrenceOrder(init);
      UniqueElements(init);
      var u := Unique(init);
      forall k | 0 <= k < |u|
        ensures 0 <= FirstIndex(s, u[k]) == FirstIndex(init, u[k]) < |init|
      {
        UniqueMember(init, u[k]);
        FirstIndexPrefix(init, x, u[k]);
        FirstIndexMeaning(init, u[k]);
      }
      if x !in u {
        FirstIndexMeaning(init, x);
        assert FirstIndex(s, x) == |init|;
        assert Unique(s) == u + [x];
      } else {
        assert Unique(s) == u;
      }
      forall i, j | 0 <= i < j < |Unique(s)|
        ensures 0 <= FirstIndex(s, Unique(s)[i]) < FirstIndex(s, Unique(s)[j])
      {
        assert Unique(s)[i] == u[i];
        if j < |u| {
          assert Unique(s)[j] == u[j];
        }
      }
    } else {
      assert Unique(s) == [];
    }
  }

  /** A sequence without duplicates is its own `uniq`. */
  lemma {:induction false} UniqueOfDistinct<T>(s: seq<T>)
    requires NoDuplicates(s)
    ensures Unique(s) == s
  {
    if s != [] {
      var init := s[..|s| - 1];
      UniqueOfDistinct(init);
      assert s[|s| - 1] !in init;
    }
  }

  /** Deduplication is idempotent: `uniq(uniq(s)) == uniq(s)`. */
  lemma {:induction false} UniqueIdempotent<T>(s: seq<T>)
    ensures Unique(Unique(s)) == Unique(s)
  {
    UniqueElements(s);
    UniqueOfDistinct(Unique(s));
  }
}
