/**
 * `sortBy`: decorate every value with its sort key, sort the decorated
 * records with the source's comparator, and project the values back out.
 *
 * The sort itself is `Array.prototype.sort`, which section 22.1.3.27 of
 * ECMA-262 10th edition (ES2019) requires to be stable. It is modelled by
 * `SortStable`, an insertion sort that places each element after every
 * element that does not compare greater than it.
 */
module Sorting {
  import opened Collections
  import opened Search
  import opened Transforms

  /**
   * The comparator handed to `sort`: `undefined` keys go after every defined
   * key, defined keys compare with `<` and `>`, and equal keys give 0.
   */
  function Compare(cVal: Option<int>, nVal: Option<int>): int
  {
    if cVal != nVal then
      if cVal.None? then 1
      else if nVal.None? then -1
      else if cVal.value > nVal.value then 1
      else if nVal.value > cVal.value then -1
      else 0
    else 0
  }

  /**
   * The comparator is consistent in the sense `sort` needs: it is a total
   * preorder whose ties are exactly the equal keys.
   */
  lemma {:induction false} CompareConsistent(a: Option<int>, b: Option<int>, c: Option<int>)
    ensures Compare(a, b) == 0 <==> a == b
    ensures Compare(a, b) == -Compare(b, a)
    ensures Compare(a, b) <= 0 && Compare(b, c) <= 0 ==> Compare(a, c) <= 0
    ensures Compare(a, b) <= 0 || Compare(b, a) <= 0
    ensures a.Some? && b.None? ==> Compare(a, b) < 0
  {
  }

  /** `x` goes no later than `y` in a sorted answer. */
  predicate NoLater<X>(key: X -> Option<int>, x: X, y: X)
  {
    Compare(key(x), key(y)) <= 0
  }

  ghost predicate Ordered<X>(s: seq<X>, key: X -> Option<int>)
  {
    forall i, j :: 0 <= i < j < |s| ==> NoLater(key, s[i], s[j])
  }

  /** Insert `x` after every element of `sorted` that does not compare greater than it. */
  function Insert<X>(sorted: seq<X>, x: X, key: X -> Option<int>): seq<X>
  {
    if sorted == [] then [x]
    else if Compare(key(sorted[0]), key(x)) > 0 then [x] + sorted
    else [sorted[0]] + Insert(sorted[1..], x, key)
  }

  /** `Array.prototype.sort` with the comparator `Compare` on `key`. */
  function SortStable<X>(s: seq<X>, key: X -> Option<int>): seq<X>
  {
    if s == [] then []
    else Insert(SortStable(s[..|s| - 1], key), s[|s| - 1], key)
  }

  /** Where Insert puts `x`: after a prefix that is no later than `x`, just before the first element that is later. */
  function InsertPos<X>(sorted: seq<X>, x: X, key: X -> Option<int>): (p: nat)
    ensures p <= |sorted|
    ensures forall i :: 0 <= i < p ==> Compare(key(sorted[i]), key(x)) <= 0
    ensures p < |sorted| ==> Compare(key(sorted[p]), key(x)) > 0
  {
    if sorted == [] || Compare(key(sorted[0]), key(x)) > 0 then 0
    else 1 + InsertPos(sorted[1..], x, key)
  }

  /** Insert leaves `sorted` as it is on both sides of `x`. */
  lemma {:induction false} InsertAt<X>(sorted: seq<X>, x: X, key: X -> Option<int>)
    ensures Insert(sorted, x, key) == sorted[..InsertPos(sorted, x, key)] + [x] + sorted[InsertPos(sorted, x, key)..]
  {
    if sorted != [] && Compare(key(sorted[0]), key(x)) <= 0 {
      var rest := sorted[1..];
      var q := InsertPos(rest, x, key);
      InsertAt(rest, x, key);
      assert Insert(sorted, x, key) == [sorted[0]] + Insert(rest, x, key);
      assert [sorted[0]] + rest == sorted;
      ConsAround(sorted[0], rest, q, x);
    } else {
      assert sorted[..0] == [] && sorted[0..] == sorted;
    }
  }

  /** Putting `x` at `q` in `rest` is putting it at `q + 1` in `[a] + rest`. */
  lemma {:induction false} ConsAround<X>(a: X, rest: seq<X>, q: nat, x: X)
    requires q <= |rest|
    ensures [a] + (rest[..q] + [x] + rest[q..]) == ([a] + rest)[..q + 1] + [x] + ([a] + rest)[q + 1..]
  {
    assert ([a] + rest)[..q + 1] == [a] + rest[..q];
    assert ([a] + rest)[q + 1..] == rest[q..];
  }

  /** InsertPos and InsertAt together. */
  lemma {:induction false} InsertSplit<X>(sorted: seq<X>, x: X, key: X -> Option<int>) returns (p: nat)
    ensures p <= |sorted|
    ensures Insert(sorted, x, key) == sorted[..p] + [x] + sorted[p..]
    ensures forall i :: 0 <= i < p ==> Compare(key(sorted[i]), key(x)) <= 0
    ensures p < |sorted| ==> Compare(key(sorted[p]), key(x)) > 0
  {
    p := InsertPos(sorted, x, key);
    InsertAt(sorted, x, key);
  }

  /** In a sorted sequence, everything from the first element later than `x` on is later than `x`. */
  lemma {:induction false} LaterFrom<X>(sorted: seq<X>, x: X, key: X -> Option<int>, p: nat)
    requires Ordered(sorted, key) && p <= |sorted|
    requires p < |sorted| ==> Compare(key(sorted[p]), key(x)) > 0
    ensures forall i :: p <= i < |sorted| ==> Compare(key(sorted[i]), key(x)) > 0
  {
    forall i | p < i < |sorted|
      ensures Compare(key(sorted[i]), key(x)) > 0
    {
      assert NoLater(key, sorted[p], sorted[i]);
      CompareConsistent(key(sorted[p]), key(sorted[i]), key(x));
    }
  }

  /** Insertion keeps a sorted sequence sorted. */
  lemma {:induction false} InsertOrdered<X>(sorted: seq<X>, x: X, key: X -> Option<int>)
    requires Ordered(sorted, key)
    ensures Ordered(Insert(sorted, x, key), key)
  {
    var p := InsertSplit(sorted, x, key);
    LaterFrom(sorted, x, key, p);
    var front, back := sorted[..p], sorted[p..];
    assert front + back == sorted;
    OrderedAround(front, x, back, key);
  }

  /** A sorted sequence split where `x` belongs stays sorted with `x` put back in the gap. */
  lemma {:induction false} OrderedAround<X>(front: seq<X>, x: X, back: seq<X>, key: X -> Option<int>)
    requires Ordered(front + back, key)
    requires forall i :: 0 <= i < |front| ==> Compare(key(front[i]), key(x)) <= 0
    requires forall i :: 0 <= i < |back| ==> Compare(key(back[i]), key(x)) > 0
    ensures Ordered(front + [x] + back, key)
  {
    var s, r := front + back, front + [x] + back;
    forall i, j | 0 <= i < j < |r|
      ensures NoLater(key, r[i], r[j])
    {
      var n := |front|;
      if j < n {
        assert r[i] == s[i] && r[j] == s[j];
      } else if j == n {
        assert r[i] == front[i] && r[j] == x;
      } else if i < n {
        assert r[i] == s[i] && r[j] == s[j - 1];
      } else if i == n {
        assert r[i] == x && r[j] == back[j - n - 1];
        CompareConsistent(key(x), key(r[j]), key(x));
      } else {
        assert r[i] == s[i - 1] && r[j] == s[j - 1];
      }
    }
  }

  /** `sort` orders its answer by key, `undefined` keys last. */
  lemma {:induction false} SortStableOrdered<X>(s: seq<X>, key: X -> Option<int>)
    ensures Ordered(SortStable(s, key), key)
  {
    if s != [] {
      SortStableOrdered(s[..|s| - 1], key);
      InsertOrdered(SortStable(s[..|s| - 1], key), s[|s| - 1], key);
    }
  }

  /** Insertion adds exactly one occurrence of `x`. */
  lemma {:induction false} InsertPermutation<X>(sorted: seq<X>, x: X, key: X -> Option<int>)
    ensures multiset(Insert(sorted, x, key)) == multiset(sorted) + multiset{x}
  {
    if sorted != [] && Compare(key(sorted[0]), key(x)) <= 0 {
      InsertPermutation(sorted[1..], x, key);
      assert sorted == [sorted[0]] + sorted[1..];
    }
  }

  /** `sort` rearranges its input and neither drops nor duplicates an element. */
  lemma {:induction false} SortStablePermutation<X>(s: seq<X>, key: X -> Option<int>)
    ensures multiset(SortStable(s, key)) == multiset(s)
  {
    if s != [] {
      var init, x := s[..|s| - 1], s[|s| - 1];
      SortStablePermutation(init, key);
      InsertPermutation(SortStable(init, key), x, key);
      assert s == init + [x];
    }
  }

  /** The test that selects the elements whose key is `k`. */
  function HasKey<X>(key: X -> Option<int>, k: Option<int>): X -> bool
  {
    x => key(x) == k
  }

  /** Inserting `x` adds it at the end of its own key's run and leaves every other run alone. */
  lemma {:induction false} InsertKeepsRuns<X>(sorted: seq<X>, x: X, key: X -> Option<int>, k: Option<int>)
    requires Ordered(sorted, key)
    ensures Filtered(Insert(sorted, x, key), HasKey(key, k))
         == Filtered(sorted, HasKey(key, k)) + (if key(x) == k then [x] else [])
  {
    var p := InsertSplit(sorted, x, key);
    var test := HasKey(key, k);
    var front, back := sorted[..p], sorted[p..];
    assert sorted == front + back;
    if test(x) {
      LaterFrom(sorted, x, key, p);
      forall i | 0 <= i < |back|
        ensures !test(back[i])
      {
        assert back[i] == sorted[p + i];
        CompareConsistent(key(back[i]), key(x), key(x));
      }
    }
    FilteredAround(front, x, back, test);
  }

  /** `sort` is stable: the elements that share a key keep their input order. */
  lemma {:induction false} SortStableKeepsTies<X>(s: seq<X>, key: X -> Option<int>, k: Option<int>)
    ensures Filtered(SortStable(s, key), HasKey(key, k)) == Filtered(s, HasKey(key, k))
  {
    if s != [] {
      var init := s[..|s| - 1];
      SortStableKeepsTies(init, key, k);
      SortStableOrdered(init, key);
      InsertKeepsRuns(SortStable(init, key), s[|s| - 1], key, k);
    }
  }

  // ---------------------------------------------------------------------------
  // The decorate, sort, project pipeline
  // ---------------------------------------------------------------------------

  /**
   * The record `sortBy` builds for each value. The source also stores an
   * `index`, but `map` calls its iterator with the value alone, so that index
   * is always `undefined`, and the comparator never reads it.
   */
  datatype Decorated<T> = Decorated(value: T, valToSort: Option<int>)

  function Decorator<T>(criterion: T -> Option<int>): T -> Decorated<T>
  {
    val => Decorated(val, criterion(val))
  }

  function ValToSort<T>(d: Decorated<T>): Option<int>
  {
    d.valToSort
  }

  function ValueOf<T>(d: Decorated<T>): T
  {
    d.value
  }

  /**
   * `sortBy(collection, iterator)` with a key function. The key of a value is
   * `criterion(value)`; `None` stands for an `undefined` key. `criterion` is
   * the guarded key: an `undefined` value gets an `undefined` key without the
   * iterator being called, and any other value gets the iterator's answer.
   */
  function SortBy<T>(collection: Collection<T>, criterion: T -> Option<int>): seq<T>
  {
    Mapped(SortStable(Mapped(Values(collection), Decorator(criterion)), ValToSort), ValueOf)
  }

  /** `sortBy(collection, name)` on records: sort by the property `name`. */
  function SortByProperty(collection: Collection<Record<int>>, name: string): seq<Record<int>>
  {
    SortBy(collection, PropertyOf(name))
  }

  lemma {:induction false} MappedFirst<T, U>(s: seq<T>, f: T -> U)
    requires s != []
    ensures Mapped(s, f) == [f(s[0])] + Mapped(s[1..], f)
  {
    MappedAt(s, f);
    MappedAt(s[1..], f);
  }

  /** Decorating commutes with insertion: the decorated key is the key. */
  lemma {:induction false} InsertDecorated<T>(sorted: seq<T>, x: T, criterion: T -> Option<int>)
    ensures Insert(Mapped(sorted, Decorator(criterion)), Decorator(criterion)(x), ValToSort)
         == Mapped(Insert(sorted, x, criterion), Decorator(criterion))
  {
    var dec := Decorator(criterion);
    if sorted == [] {
      assert Mapped(sorted, dec) == [];
      assert Mapped([x], dec) == Mapped([x][..0], dec) + [dec(x)];
    } else {
      MappedFirst(sorted, dec);
      if Compare(criterion(sorted[0]), criterion(x)) > 0 {
        MappedFirst([x] + sorted, dec);
        assert ([x] + sorted)[1..] == sorted;
      } else {
        InsertDecorated(sorted[1..], x, criterion);
        MappedFirst([sorted[0]] + Insert(sorted[1..], x, criterion), dec);
        assert ([sorted[0]] + Insert(sorted[1..], x, criterion))[1..] == Insert(sorted[1..], x, criterion);
      }
    }
  }

  lemma {:induction false} SortDecorated<T>(s: seq<T>, criterion: T -> Option<int>)
    ensures SortStable(Mapped(s, Decorator(criterion)), ValToSort)
         == Mapped(SortStable(s, criterion), Decorator(criterion))
  {
    var dec := Decorator(criterion);
    if s != [] {
      var init := s[..|s| - 1];
      SortDecorated(init, criterion);
      MappedAt(s, dec);
      assert Mapped(s, dec) == Mapped(init, dec) + [dec(s[|s| - 1])];
      assert Mapped(s, dec)[..|s| - 1] == Mapped(init, dec);
      InsertDecorated(SortStable(init, criterion), s[|s| - 1], criterion);
    }
  }

  lemma {:induction false} ProjectDecorated<T>(s: seq<T>, criterion: T -> Option<int>)
    ensures Mapped(Mapped(s, Decorator(criterion)), ValueOf) == s
  {
    var decorated := Mapped(s, Decorator(criterion));
    MappedAt(s, Decorator(criterion));
    MappedAt(decorated, ValueOf);
    assert forall i :: 0 <= i < |s| ==> Mapped(decorated, ValueOf)[i] == s[i];
  }

  /** The pipeline is the stable sort of the values themselves by their keys. */
  lemma {:induction false} SortByIsStableSort<T>(collection: Collection<T>, criterion: T -> Option<int>)
    ensures SortBy(collection, criterion) == SortStable(Values(collection), criterion)
  {
    SortDecorated(Values(collection), criterion);
    ProjectDecorated(SortStable(Values(collection), criterion), criterion);
  }

  /**
   * `sortBy` returns a rearrangement of the values, in non-decreasing key
   * order with `undefined` keys after every defined key, and values with equal
   * keys keep their input order.
   */
  lemma {:induction false} SortByCorrect<T>(collection: Collection<T>, criterion: T -> Option<int>)
    ensures multiset(SortBy(collection, criterion)) == multiset(Values(collection))
    ensures forall i, j :: 0 <= i < j < |SortBy(collection, criterion)| ==>
      var r := SortBy(collection, criterion);
      (criterion(r[i]).Some? && criterion(r[j]).Some? ==> criterion(r[i]).value <= criterion(r[j]).value) &&
      (criterion(r[i]).None? ==> criterion(r[j]).None?)
    ensures forall k :: Filtered(SortBy(collection, criterion), HasKey(criterion, k))
                     == Filtered(Values(collection), HasKey(criterion, k))
  {
    var vs := Values(collection);
    SortByIsStableSort(collection, criterion);
    SortStablePermutation(vs, criterion);
    SortStableOrdered(vs, criterion);
    forall k {
      SortStableKeepsTies(vs, criterion, k);
    }
  }

  /**
   * `sortBy(collection, name)` on records: a permutation of the records in
   * which the defined `name` properties are non-decreasing, records without
   * the property come last, and records with equal values keep their order.
   */
  lemma {:induction false} SortByPropertyCorrect(collection: Collection<Record<int>>, name: string)
    ensures multiset(SortByProperty(collection, name)) == multiset(Values(collection))
    ensures forall i, j :: 0 <= i < j < |SortByProperty(collection, name)| ==>
      var r := SortByProperty(collection, name);
      (Lookup(r[i], name).Some? && Lookup(r[j], name).Some? ==> Lookup(r[i], name).value <= Lookup(r[j], name).value) &&
      (Lookup(r[i], name).None? ==> Lookup(r[j], name).None?)
    ensures forall k :: Filtered(SortByProperty(collection, name), HasKey(PropertyOf(name), k))
                     == Filtered(Values(collection), HasKey(PropertyOf(name), k))
  {
    SortByCorrect(collection, PropertyOf(name));
  }
}
