/**
 * `extend` and `defaults`: copy the properties of source objects, in
 * argument order and `for…in` order, into a target object that is updated
 * in place.
 */
module Objects {
  import opened Collections
  import opened Search

  /** The property names of a record, in enumeration order. */
  function Keys<V>(r: Record<V>): (ks: seq<string>)
    ensures |ks| == |r|
    ensures forall i :: 0 <= i < |r| ==> ks[i] == r[i].0
  {
    if r == [] then [] else [r[0].0] + Keys(r[1..])
  }

  /** The names that are not array indices: these keep the order they were created in. */
  predicate IsPlainName(name: string)
  {
    !IsArrayIndex(name)
  }

  function PlainNames<V>(r: Record<V>): seq<string>
  {
    Filtered(Keys(r), IsPlainName)
  }

  /** An existing property takes the new value where it stands. */
  function Replaced<V>(r: Record<V>, key: string, value: V): (r': Record<V>)
    ensures |r'| == |r| && forall i :: 0 <= i < |r| ==> r'[i].0 == r[i].0
    ensures Lookup(r, key).Some? ==> Lookup(r', key) == Some(value)
    ensures forall k :: k != key ==> Lookup(r', k) == Lookup(r, k)
  {
    if r == [] then []
    else if r[0].0 == key then
      assert ([(key, value)] + r[1..])[1..] == r[1..];
      [(key, value)] + r[1..]
    else
      var rest := Replaced(r[1..], key, value);
      assert ([r[0]] + rest)[1..] == rest;
      [r[0]] + rest
  }

  /**
   * Where a new array-index name goes: after the leading array-index names
   * whose values are not above its own.
   */
  function IndexSlot<V>(r: Record<V>, key: string): (p: nat)
    requires IsArrayIndex(key)
    ensures p <= |r|
    ensures forall i :: 0 <= i < p ==> IsArrayIndex(r[i].0) && NumeralValue(r[i].0) <= NumeralValue(key)
    ensures p < |r| ==> !IsArrayIndex(r[p].0) || NumeralValue(key) < NumeralValue(r[p].0)
  {
    if r == [] || !IsArrayIndex(r[0].0) || NumeralValue(key) < NumeralValue(r[0].0) then 0
    else 1 + IndexSlot(r[1..], key)
  }

  /** Where a new property goes: an array-index name joins the array indices in ascending order, any other name goes last. */
  function NewSlot<V>(r: Record<V>, key: string): (p: nat)
    ensures p <= |r|
  {
    if IsArrayIndex(key) then IndexSlot(r, key) else |r|
  }

  /** A new property, created at its slot. */
  function Added<V>(r: Record<V>, key: string, value: V): Record<V>
  {
    var p := NewSlot(r, key);
    r[..p] + [(key, value)] + r[p..]
  }

  /** Looking a name up in two records one after the other. */
  lemma {:induction false} LookupAppend<V>(a: Record<V>, b: Record<V>, k: string)
    ensures Lookup(a + b, k) == if Lookup(a, k).Some? then Lookup(a, k) else Lookup(b, k)
  {
    if a != [] {
      assert (a + b)[1..] == a[1..] + b;
      LookupAppend(a[1..], b, k);
    } else {
      assert a + b == b;
    }
  }

  /** A property with a new name, put anywhere, reads its value, and every other property reads as before. */
  lemma {:induction false} LookupInsert<V>(r: Record<V>, p: nat, x: (string, V), k: string)
    requires p <= |r| && Lookup(r, x.0).None?
    ensures Lookup(r[..p] + [x] + r[p..], k) == if k == x.0 then Some(x.1) else Lookup(r, k)
  {
    var front, back := r[..p], r[p..];
    assert r == front + back;
    assert front + [x] + back == front + ([x] + back);
    LookupAppend(front, back, k);
    LookupAppend(front, [x] + back, k);
    assert ([x] + back)[1..] == back;
  }

  /**
   * `obj[key] = value` on an ordinary object: an existing property takes the
   * new value in place; a new one is created where JavaScript enumerates it.
   */
  function Assigned<V>(r: Record<V>, key: string, value: V): (r': Record<V>)
    ensures Lookup(r', key) == Some(value)
    ensures forall k :: k != key ==> Lookup(r', k) == Lookup(r, k)
  {
    if Lookup(r, key).Some? then Replaced(r, key, value)
    else
      var p := NewSlot(r, key);
      forall k
        ensures Lookup(r[..p] + [(key, value)] + r[p..], k) == if k == key then Some(value) else Lookup(r, k)
      {
        LookupInsert(r, p, (key, value), k);
      }
      Added(r, key, value)
  }

  /** The names of a record with `x` put at `p`. */
  lemma {:induction false} KeysInsert<V>(r: Record<V>, p: nat, x: (string, V))
    requires p <= |r|
    ensures Keys(r[..p] + [x] + r[p..]) == Keys(r)[..p] + [x.0] + Keys(r)[p..]
  {
    var r', ks := r[..p] + [x] + r[p..], Keys(r)[..p] + [x.0] + Keys(r)[p..];
    forall i | 0 <= i < |r'|
      ensures Keys(r')[i] == ks[i]
    {
      if i < p {
        assert r'[i] == r[i] && ks[i] == Keys(r)[i];
      } else if i > p {
        assert r'[i] == r[i - 1] && ks[i] == Keys(r)[i - 1];
      }
    }
  }

  /**
   * The names after an assignment: unchanged when the property exists; a new
   * array-index name is inserted at its slot among the array indices; any
   * other new name is added last.
   */
  lemma {:induction false} AssignedKeys<V>(r: Record<V>, key: string, value: V)
    ensures Lookup(r, key).Some? ==> Keys(Assigned(r, key, value)) == Keys(r)
    ensures Lookup(r, key).None? && !IsArrayIndex(key) ==> Keys(Assigned(r, key, value)) == Keys(r) + [key]
    ensures Lookup(r, key).None? && IsArrayIndex(key) ==>
      var p := IndexSlot(r, key);
      Keys(Assigned(r, key, value)) == Keys(r)[..p] + [key] + Keys(r)[p..]
  {
    if Lookup(r, key).Some? {
      var r' := Replaced(r, key, value);
      assert forall i :: 0 <= i < |r| ==> Keys(r')[i] == Keys(r)[i];
    } else {
      var p := NewSlot(r, key);
      KeysInsert(r, p, (key, value));
      assert Keys(r)[..|r|] == Keys(r) && Keys(r)[|r|..] == [];
    }
  }

  /** An array-index name never changes the order of the other names, and a new plain name goes last. */
  lemma {:induction false} AssignedPlainNames<V>(r: Record<V>, key: string, value: V)
    ensures PlainNames(Assigned(r, key, value)) ==
      PlainNames(r) + if Lookup(r, key).None? && IsPlainName(key) then [key] else []
  {
    AssignedKeys(r, key, value);
    var ks := Keys(r);
    if Lookup(r, key).None? {
      if IsArrayIndex(key) {
        PlainNamesAround(ks, IndexSlot(r, key), key);
      } else {
        assert (ks + [key])[..|ks|] == ks;
      }
    }
  }

  /** An array-index name put anywhere among names leaves the plain names as they were. */
  lemma {:induction false} PlainNamesAround(ks: seq<string>, p: nat, key: string)
    requires p <= |ks| && !IsPlainName(key)
    ensures Filtered(ks[..p] + [key] + ks[p..], IsPlainName) == Filtered(ks, IsPlainName)
  {
    assert ks[..p] + ks[p..] == ks;
    FilteredAround(ks[..p], key, ks[p..], IsPlainName);
  }

  /** A record with `x` put at `p` keeps distinct names when `x`'s name is new. */
  lemma {:induction false} DistinctInsert<V>(r: Record<V>, p: nat, x: (string, V))
    requires DistinctKeys(r) && p <= |r|
    requires forall i :: 0 <= i < |r| ==> r[i].0 != x.0
    ensures DistinctKeys(r[..p] + [x] + r[p..])
  {
    var r' := r[..p] + [x] + r[p..];
    forall i, j | 0 <= i < j < |r'|
      ensures r'[i].0 != r'[j].0
    {
      if j < p {
        assert r'[i] == r[i] && r'[j] == r[j];
      } else if j == p {
        assert r'[i] == r[i] && r'[j] == x;
      } else if i < p {
        assert r'[i] == r[i] && r'[j] == r[j - 1];
      } else if i == p {
        assert r'[i] == x && r'[j] == r[j - 1];
      } else {
        assert r'[i] == r[i - 1] && r'[j] == r[j - 1];
      }
    }
  }

  /** An assignment never makes a name occur twice. */
  lemma {:induction false} AssignedDistinct<V>(r: Record<V>, key: string, value: V)
    requires DistinctKeys(r)
    ensures DistinctKeys(Assigned(r, key, value))
  {
    LookupMeaning(r, key);
    if Lookup(r, key).None? {
      DistinctInsert(r, NewSlot(r, key), (key, value));
    }
  }

  /**
   * An array-index name put after the array indices below it and before
   * everything else keeps a record in enumeration order.
   */
  lemma {:induction false} OrderInsert<V>(r: Record<V>, p: nat, x: (string, V))
    requires InEnumerationOrder(r) && IsArrayIndex(x.0) && p <= |r|
    requires forall i :: 0 <= i < p ==> IsArrayIndex(r[i].0) && NumeralValue(r[i].0) < NumeralValue(x.0)
    requires p < |r| ==> !IsArrayIndex(r[p].0) || NumeralValue(x.0) < NumeralValue(r[p].0)
    ensures InEnumerationOrder(r[..p] + [x] + r[p..])
  {
    var r' := r[..p] + [x] + r[p..];
    forall i, j | 0 <= i < j < |r'| && IsArrayIndex(r'[j].0)
      ensures IsArrayIndex(r'[i].0) && NumeralValue(r'[i].0) < NumeralValue(r'[j].0)
    {
      if j < p {
        assert r'[i] == r[i] && r'[j] == r[j];
      } else if j == p {
        assert r'[i] == r[i] && r'[j] == x;
      } else if i < p {
        assert r'[i] == r[i] && r'[j] == r[j - 1];
      } else if i == p {
        assert r'[i] == x && r'[j] == r[j - 1];
        if p < j - 1 {
          assert IsArrayIndex(r[p].0) && NumeralValue(r[p].0) < NumeralValue(r[j - 1].0);
        }
      } else {
        assert r'[i] == r[i - 1] && r'[j] == r[j - 1];
      }
    }
  }

  /** An assignment keeps a record in enumeration order. */
  lemma {:induction false} AssignedOrder<V>(r: Record<V>, key: string, value: V)
    requires InEnumerationOrder(r)
    ensures InEnumerationOrder(Assigned(r, key, value))
  {
    LookupMeaning(r, key);
    var r' := Assigned(r, key, value);
    if Lookup(r, key).Some? {
      assert forall i :: 0 <= i < |r| ==> r'[i].0 == r[i].0;
    } else if IsArrayIndex(key) {
      var p := IndexSlot(r, key);
      forall i | 0 <= i < p
        ensures NumeralValue(r[i].0) < NumeralValue(key)
      {
        if NumeralValue(r[i].0) == NumeralValue(key) {
          NumeralInjective(r[i].0, key);
        }
      }
      OrderInsert(r, p, (key, value));
    } else {
      assert r' == r + [(key, value)];
      assert forall i :: 0 <= i < |r| ==> r'[i] == r[i];
    }
  }

  /** Writing "0" into `{a: 1}` puts the new array index before "a". */
  lemma {:induction false} AssignedIndexFirst()
    ensures Keys(Assigned([("a", 1)], "0", 2)) == ["0", "a"]
  {
    assert !IsArrayIndex("a");
    assert "0"[..0] == [];
    assert IsArrayIndex("0");
    assert IndexSlot([("a", 1)], "0") == 0;
    AssignedKeys([("a", 1)], "0", 2);
  }

  /**
   * A plain object whose own properties the library writes to. Reading and
   * writing go through the record `props`, its properties in enumeration order.
   */
  class PlainObject<V> {
    var props: Record<V>

    /** What holds of every JavaScript object: no name twice, and the enumeration order. */
    ghost predicate Valid()
      reads this
    {
      DistinctKeys(props) && InEnumerationOrder(props)
    }

    constructor (initial: Record<V>)
      requires DistinctKeys(initial) && InEnumerationOrder(initial)
      ensures props == initial
      ensures Valid()
    {
      props := initial;
    }

    /** `obj.hasOwnProperty(key)`. */
    function HasOwnProperty(key: string): (b: bool)
      reads this
      ensures b <==> key in Keys(props)
    {
      LookupMeaning(props, key);
      Lookup(props, key).Some?
    }

    /** `obj[key] = value`. */
    method Put(key: string, value: V)
      requires Valid()
      modifies this
      ensures props == Assigned(old(props), key, value)
      ensures Valid()
    {
      AssignedDistinct(props, key, value);
      AssignedOrder(props, key, value);
      props := Assigned(props, key, value);
    }
  }

  // ---------------------------------------------------------------------------
  // extend
  // ---------------------------------------------------------------------------

  /** One source copied over: every property of `source`, in order, assigned. */
  function CopyAll<V>(props: Record<V>, source: Record<V>): Record<V>
  {
    if source == [] then props
    else
      var last := source[|source| - 1];
      Assigned(CopyAll(props, source[..|source| - 1]), last.0, last.1)
  }

  /** Every source copied over, in argument order. */
  function ExtendAll<V>(props: Record<V>, sources: seq<Record<V>>): Record<V>
  {
    if sources == [] then props
    else CopyAll(ExtendAll(props, sources[..|sources| - 1]), sources[|sources| - 1])
  }

  /**
   * `extend(obj, …sources)`: writes every property of every source into `obj`
   * and returns `obj`. The sources are values: `obj` is never one of them.
   */
  method Extend<V>(obj: PlainObject<V>, sources: seq<Record<V>>) returns (r: PlainObject<V>)
    requires obj.Valid()
    modifies obj
    ensures r == obj && obj.Valid()
    ensures obj.props == ExtendAll(old(obj.props), sources)
  {
    for n := 0 to |sources|
      invariant obj.props == ExtendAll(old(obj.props), sources[..n])
      invariant obj.Valid()
    {
      assert sources[..n + 1][..n] == sources[..n];
      var source := sources[n];
      var before := obj.props;
      for m := 0 to |source|
        invariant obj.props == CopyAll(before, source[..m])
        invariant obj.Valid()
      {
        assert source[..m + 1][..m] == source[..m];
        obj.Put(source[m].0, source[m].1);
      }
      assert source[..|source|] == source;
    }
    assert sources[..|sources|] == sources;
    return obj;
  }

  /** After one source is copied, a property it has holds its value; any other is as before. */
  lemma {:induction false} CopyAllLookup<V>(props: Record<V>, source: Record<V>, k: string)
    requires DistinctKeys(source)
    ensures Lookup(CopyAll(props, source), k) ==
      if Lookup(source, k).Some? then Lookup(source, k) else Lookup(props, k)
  {
    if source != [] {
      var init := source[..|source| - 1];
      assert DistinctKeys(init);
      CopyAllLookup(props, init, k);
      LookupAppend(init, [source[|source| - 1]], k);
      LookupMeaning(init, k);
      assert init + [source[|source| - 1]] == source;
    }
  }

  /** A property no source has keeps its value through `extend`. */
  lemma {:induction false} ExtendLookupUntouched<V>(props: Record<V>, sources: seq<Record<V>>, k: string)
    requires forall i :: 0 <= i < |sources| ==> DistinctKeys(sources[i]) && Lookup(sources[i], k).None?
    ensures Lookup(ExtendAll(props, sources), k) == Lookup(props, k)
  {
    if sources != [] {
      var init, last := sources[..|sources| - 1], sources[|sources| - 1];
      assert forall i :: 0 <= i < |init| ==> init[i] == sources[i];
      ExtendLookupUntouched(props, init, k);
      CopyAllLookup(ExtendAll(props, init), last, k);
    }
  }

  /** A property that source `i` has, and no later source has, holds source `i`'s value after `extend`. */
  lemma {:induction false} ExtendLookupLastWins<V>(props: Record<V>, sources: seq<Record<V>>, k: string, i: nat)
    requires forall n :: 0 <= n < |sources| ==> DistinctKeys(sources[n])
    requires i < |sources| && Lookup(sources[i], k).Some?
    requires forall j :: i < j < |sources| ==> Lookup(sources[j], k).None?
    ensures Lookup(ExtendAll(props, sources), k) == Lookup(sources[i], k)
  {
    var init, last := sources[..|sources| - 1], sources[|sources| - 1];
    CopyAllLookup(ExtendAll(props, init), last, k);
    if i < |init| {
      assert forall n :: 0 <= n < |init| ==> init[n] == sources[n];
      ExtendLookupLastWins(props, init, k, i);
    }
  }

  /**
   * What `extend` leaves in `obj`: a property that some source has holds the
   * value of the last source that has it; any other property keeps its value.
   */
  lemma {:induction false} ExtendLookup<V>(props: Record<V>, sources: seq<Record<V>>, k: string)
    requires forall i :: 0 <= i < |sources| ==> DistinctKeys(sources[i])
    ensures (forall i :: 0 <= i < |sources| ==> Lookup(sources[i], k).None?) ==>
      Lookup(ExtendAll(props, sources), k) == Lookup(props, k)
    ensures forall i :: 0 <= i < |sources| ==>
      Lookup(sources[i], k).Some? && (forall j :: i < j < |sources| ==> Lookup(sources[j], k).None?) ==>
      Lookup(ExtendAll(props, sources), k) == Lookup(sources[i], k)
  {
    if forall i :: 0 <= i < |sources| ==> Lookup(sources[i], k).None? {
      ExtendLookupUntouched(props, sources, k);
    }
    forall i | 0 <= i < |sources| &&
      Lookup(sources[i], k).Some? && (forall j :: i < j < |sources| ==> Lookup(sources[j], k).None?)
      ensures Lookup(ExtendAll(props, sources), k) == Lookup(sources[i], k)
    {
      ExtendLookupLastWins(props, sources, k, i);
    }
  }

  /**
   * `extend` never moves a property the target enumerates among its plain
   * names: those stay in front of the plain names it adds. It keeps the
   * enumeration order, with array indices ascending, and never lists a name
   * twice.
   */
  lemma {:induction false} ExtendKeepsOrder<V>(props: Record<V>, sources: seq<Record<V>>)
    ensures PlainNames(props) <= PlainNames(ExtendAll(props, sources))
    ensures InEnumerationOrder(props) ==> InEnumerationOrder(ExtendAll(props, sources))
    ensures DistinctKeys(props) ==> DistinctKeys(ExtendAll(props, sources))
  {
    if sources != [] {
      ExtendKeepsOrder(props, sources[..|sources| - 1]);
      CopyKeepsOrder(ExtendAll(props, sources[..|sources| - 1]), sources[|sources| - 1]);
    }
  }

  /** Copying one source keeps the plain names in front, the enumeration order and distinct names. */
  lemma {:induction false} CopyKeepsOrder<V>(props: Record<V>, source: Record<V>)
    ensures PlainNames(props) <= PlainNames(CopyAll(props, source))
    ensures InEnumerationOrder(props) ==> InEnumerationOrder(CopyAll(props, source))
    ensures DistinctKeys(props) ==> DistinctKeys(CopyAll(props, source))
  {
    if source != [] {
      var last := source[|source| - 1];
      var before := CopyAll(props, source[..|source| - 1]);
      CopyKeepsOrder(props, source[..|source| - 1]);
      AssignedPlainNames(before, last.0, last.1);
      if InEnumerationOrder(props) {
        AssignedOrder(before, last.0, last.1);
      }
      if DistinctKeys(props) {
        AssignedDistinct(before, last.0, last.1);
      }
    }
  }

  // ---------------------------------------------------------------------------
  // defaults
  // ---------------------------------------------------------------------------

  /** One source copied over, skipping every name the target already owns. */
  function CopyMissing<V>(props: Record<V>, source: Record<V>): Record<V>
  {
    if source == [] then props
    else
      var acc := CopyMissing(props, source[..|source| - 1]);
      var last := source[|source| - 1];
      if Lookup(acc, last.0).Some? then acc else Assigned(acc, last.0, last.1)
  }

  /** Every source copied over without overwriting, in argument order. */
  function DefaultsAll<V>(props: Record<V>, sources: seq<Record<V>>): Record<V>
  {
    if sources == [] then props
    else CopyMissing(DefaultsAll(props, sources[..|sources| - 1]), sources[|sources| - 1])
  }

  /**
   * `defaults(obj, …sources)`: like `extend`, but a property is written only
   * when `obj` does not already own it, including one an earlier source added.
   */
  method Defaults<V>(obj: PlainObject<V>, sources: seq<Record<V>>) returns (r: PlainObject<V>)
    requires obj.Valid()
    modifies obj
    ensures r == obj && obj.Valid()
    ensures obj.props == DefaultsAll(old(obj.props), sources)
  {
    for n := 0 to |sources|
      invariant obj.props == DefaultsAll(old(obj.props), sources[..n])
      invariant obj.Valid()
    {
      assert sources[..n + 1][..n] == sources[..n];
      var source := sources[n];
      var before := obj.props;
      for m := 0 to |source|
        invariant obj.props == CopyMissing(before, source[..m])
        invariant obj.Valid()
      {
        assert source[..m + 1][..m] == source[..m];
        if !obj.HasOwnProperty(source[m].0) {
          obj.Put(source[m].0, source[m].1);
        }
      }
      assert source[..|source|] == source;
    }
    assert sources[..|sources|] == sources;
    return obj;
  }

  /** After one source is copied without overwriting, an owned property wins, else the source's. */
  lemma {:induction false} CopyMissingLookup<V>(props: Record<V>, source: Record<V>, k: string)
    ensures Lookup(CopyMissing(props, source), k) ==
      if Lookup(props, k).Some? then Lookup(props, k) else Lookup(source, k)
  {
    if source != [] {
      var init := source[..|source| - 1];
      CopyMissingLookup(props, init, k);
      LookupAppend(init, [source[|source| - 1]], k);
      assert init + [source[|source| - 1]] == source;
    }
  }

  /** A property `obj` owns keeps its value through `defaults`, and a property nobody has stays absent. */
  lemma {:induction false} DefaultsLookupKept<V>(props: Record<V>, sources: seq<Record<V>>, k: string)
    ensures Lookup(props, k).Some? ==> Lookup(DefaultsAll(props, sources), k) == Lookup(props, k)
    ensures Lookup(props, k).None? && (forall i :: 0 <= i < |sources| ==> Lookup(sources[i], k).None?) ==>
      Lookup(DefaultsAll(props, sources), k).None?
  {
    if sources != [] {
      var init, last := sources[..|sources| - 1], sources[|sources| - 1];
      assert forall i :: 0 <= i < |init| ==> init[i] == sources[i];
      DefaultsLookupKept(props, init, k);
      CopyMissingLookup(DefaultsAll(props, init), last, k);
    }
  }

  /** A property `obj` lacks, that source `i` has and no earlier source has, holds source `i`'s value. */
  lemma {:induction false} DefaultsLookupFirstWins<V>(props: Record<V>, sources: seq<Record<V>>, k: string, i: nat)
    requires Lookup(props, k).None?
    requires i < |sources| && Lookup(sources[i], k).Some?
    requires forall j :: 0 <= j < i ==> Lookup(sources[j], k).None?
    ensures Lookup(DefaultsAll(props, sources), k) == Lookup(sources[i], k)
  {
    var init, last := sources[..|sources| - 1], sources[|sources| - 1];
    assert forall n :: 0 <= n < |init| ==> init[n] == sources[n];
    CopyMissingLookup(DefaultsAll(props, init), last, k);
    if i < |init| {
      DefaultsLookupFirstWins(props, init, k, i);
    } else {
      DefaultsLookupKept(props, init, k);
    }
  }

  /**
   * What `defaults` leaves in `obj`: a property it already had keeps its
   * value; otherwise the property holds the value of the first source that
   * has it, and stays absent when none has.
   */
  lemma {:induction false} DefaultsLookup<V>(props: Record<V>, sources: seq<Record<V>>, k: string)
    ensures Lookup(props, k).Some? ==> Lookup(DefaultsAll(props, sources), k) == Lookup(props, k)
    ensures Lookup(props, k).None? && (forall i :: 0 <= i < |sources| ==> Lookup(sources[i], k).None?) ==>
      Lookup(DefaultsAll(props, sources), k).None?
    ensures Lookup(props, k).None? ==>
      forall i :: 0 <= i < |sources| ==>
        Lookup(sources[i], k).Some? && (forall j :: 0 <= j < i ==> Lookup(sources[j], k).None?) ==>
        Lookup(DefaultsAll(props, sources), k) == Lookup(sources[i], k)
  {
    DefaultsLookupKept(props, sources, k);
    if Lookup(props, k).None? {
      forall i | 0 <= i < |sources| &&
        Lookup(sources[i], k).Some? && (forall j :: 0 <= j < i ==> Lookup(sources[j], k).None?)
        ensures Lookup(DefaultsAll(props, sources), k) == Lookup(sources[i], k)
      {
        DefaultsLookupFirstWins(props, sources, k, i);
      }
    }
  }
}
