/**
 * The shapes every operation of the library works on: the two kinds of
 * collection (arrays and plain objects), property records, JavaScript's
 * `undefined` and thrown errors, and the iteration primitive `each`.
 */
module Collections {

  /** `None` stands for JavaScript's `undefined`. */
  datatype Option<+T> = None | Some(value: T)

  /** How a call ends: normally with a value, or by throwing a TypeError. */
  datatype Completion<+T> = Normal(value: T) | ThrowTypeError

  /** The second argument `each` passes to its iterator: an array index or an object key. */
  datatype Key = Index(i: nat) | Name(name: string)

  /**
   * A collection. An object is given by its own enumerable properties, in the
   * order `for…in` and `Object.keys` enumerate them.
   */
  datatype Collection<T> = Array(items: seq<T>) | Object(entries: seq<(string, T)>)

  /** A plain object used as a record: its properties in enumeration order. */
  type Record<V> = seq<(string, V)>

  /** True when no property name occurs twice, as in every JavaScript object. */
  ghost predicate DistinctKeys<V>(r: Record<V>)
  {
    forall i, j :: 0 <= i < j < |r| ==> r[i].0 != r[j].0
  }

  /** `r[name]`: the value of the first property called `name`, or `undefined`. */
  function Lookup<V>(r: Record<V>, name: string): Option<V>
  {
    if r == [] then None
    else if r[0].0 == name then Some(r[0].1)
    else Lookup(r[1..], name)
  }

  /**
   * A property read answers `undefined` exactly when no property has that
   * name, and otherwise the value of the first property with that name.
   */
  lemma {:induction false} LookupMeaning<V>(r: Record<V>, name: string)
    ensures Lookup(r, name).None? <==> forall i :: 0 <= i < |r| ==> r[i].0 != name
    ensures Lookup(r, name).Some? ==>
      exists i :: 0 <= i < |r| && r[i] == (name, Lookup(r, name).value) && (forall j :: 0 <= j < i ==> r[j].0 != name)
  {
    if r != [] && r[0].0 != name {
      LookupMeaning(r[1..], name);
      if Lookup(r, name).Some? {
        var i :| 0 <= i < |r| - 1 && r[1..][i] == (name, Lookup(r, name).value) &&
          (forall j :: 0 <= j < i ==> r[1..][j].0 != name);
        assert r[i + 1] == (name, Lookup(r, name).value);
      }
    }
  }

  // ---------------------------------------------------------------------------
  // Array-index property names and enumeration order
  // ---------------------------------------------------------------------------

  predicate IsDigit(c: char)
  {
    '0' <= c <= '9'
  }

  /** The decimal value of a string of digits. */
  function NumeralValue(s: string): nat
    requires forall i :: 0 <= i < |s| ==> IsDigit(s[i])
  {
    if s == [] then 0
    else
      assert IsDigit(s[|s| - 1]);
      10 * NumeralValue(s[..|s| - 1]) + (s[|s| - 1] as int - '0' as int)
  }

  /** A canonical decimal numeral: digits only, with no leading zero unless it is "0". */
  predicate IsNumeral(s: string)
  {
    && |s| > 0
    && (forall i :: 0 <= i < |s| ==> IsDigit(s[i]))
    && (s[0] == '0' ==> |s| == 1)
  }

  /** An array index: the canonical numeral of an integer below 2^32 - 1, such as "0" or "42" but not "07". */
  predicate IsArrayIndex(name: string)
  {
    IsNumeral(name) && NumeralValue(name) < 0xFFFF_FFFF
  }

  /**
   * The order in which JavaScript enumerates an ordinary object's own
   * properties (`Object.keys`, `for…in`): the array-index names first, in
   * ascending numeric order, then every other name. Those others come in the
   * order they were created, which is a matter of history a record keeps but
   * cannot check.
   */
  ghost predicate InEnumerationOrder<V>(r: Record<V>)
  {
    forall i, j :: 0 <= i < j < |r| && IsArrayIndex(r[j].0) ==>
      IsArrayIndex(r[i].0) && NumeralValue(r[i].0) < NumeralValue(r[j].0)
  }

  function Pow10(n: nat): nat
  {
    if n == 0 then 1 else 10 * Pow10(n - 1)
  }

  lemma {:induction false} Pow10Monotone(m: nat, n: nat)
    requires m <= n
    ensures Pow10(m) <= Pow10(n)
  {
    if m < n {
      Pow10Monotone(m, n - 1);
    }
  }

  /** A numeral of `n` digits is below `10^n`. */
  lemma {:induction false} NumeralBelow(s: string)
    requires forall i :: 0 <= i < |s| ==> IsDigit(s[i])
    ensures NumeralValue(s) < Pow10(|s|)
  {
    if s != [] {
      NumeralBelow(s[..|s| - 1]);
    }
  }

  /** A numeral whose first digit is not 0 is at least `10^(n-1)`. */
  lemma {:induction false} NumeralAbove(s: string)
    requires |s| > 0 && (forall i :: 0 <= i < |s| ==> IsDigit(s[i])) && s[0] != '0'
    ensures NumeralValue(s) >= Pow10(|s| - 1)
  {
    if |s| > 1 {
      NumeralAbove(s[..|s| - 1]);
    }
  }

  /** Two digit strings of the same length with the same value are the same string. */
  lemma {:induction false} SameLengthNumerals(a: string, b: string)
    requires forall i :: 0 <= i < |a| ==> IsDigit(a[i])
    requires forall i :: 0 <= i < |b| ==> IsDigit(b[i])
    requires |a| == |b| && NumeralValue(a) == NumeralValue(b)
    ensures a == b
  {
    if a != [] {
      var a', b' := a[..|a| - 1], b[..|b| - 1];
      assert NumeralValue(a) == 10 * NumeralValue(a') + (a[|a| - 1] as int - '0' as int);
      assert NumeralValue(b) == 10 * NumeralValue(b') + (b[|b| - 1] as int - '0' as int);
      SameLengthNumerals(a', b');
      assert a == a' + [a[|a| - 1]] && b == b' + [b[|b| - 1]];
    }
  }

  /** Distinct array-index names have distinct numeric values. */
  lemma {:induction false} NumeralInjective(a: string, b: string)
    requires IsNumeral(a) && IsNumeral(b) && NumeralValue(a) == NumeralValue(b)
    ensures a == b
  {
    if |a| < |b| {
      NumeralBelow(a);
      NumeralAbove(b);
      Pow10Monotone(|a|, |b| - 1);
      assert false;
    } else if |b| < |a| {
      NumeralBelow(b);
      NumeralAbove(a);
      Pow10Monotone(|b|, |a| - 1);
      assert false;
    }
    SameLengthNumerals(a, b);
  }

  /** In enumeration order, a property named "0" comes first. */
  lemma {:induction false} IndexZeroFirst<V>(r: Record<V>)
    requires InEnumerationOrder(r) && Lookup(r, "0").Some?
    ensures r[0] == ("0", Lookup(r, "0").value)
  {
    LookupMeaning(r, "0");
    var i :| 0 <= i < |r| && r[i] == ("0", Lookup(r, "0").value) && (forall j :: 0 <= j < i ==> r[j].0 != "0");
    assert "0"[..0] == [];
    assert IsArrayIndex("0") && NumeralValue("0") == 0;
    if i > 0 {
      assert false;
    }
  }

  /** The number of elements `each` visits. */
  function Size<T>(c: Collection<T>): nat
  {
    match c
    case Array(s) => |s|
    case Object(e) => |e|
  }

  /** The values `each` hands to its iterator, in visiting order. */
  function Values<T>(c: Collection<T>): (vs: seq<T>)
    ensures |vs| == Size(c)
  {
    match c
    case Array(s) => s
    case Object(e) => seq(|e|, i requires 0 <= i < |e| => e[i].1)
  }

  /**
   * `each(collection, iterator)`: the model returns the arguments of the
   * iterator calls in the order they are made; the iterator's own effects
   * belong to the caller.
   */
  method Each<T>(collection: Collection<T>) returns (calls: seq<(T, Key)>)
    ensures |calls| == Size(collection)
    ensures collection.Array? ==>
      forall i :: 0 <= i < |calls| ==> calls[i] == (collection.items[i], Index(i))
    ensures collection.Object? ==>
      forall i :: 0 <= i < |calls| ==>
        calls[i] == (collection.entries[i].1, Name(collection.entries[i].0))
    ensures forall i :: 0 <= i < |calls| ==> calls[i].0 == Values(collection)[i]
  {
    calls := [];
    match collection
    case Object(entries) =>
      for k := 0 to |entries|
        invariant |calls| == k
        invariant forall i :: 0 <= i < k ==> calls[i] == (entries[i].1, Name(entries[i].0))
      {
        calls := calls + [(entries[k].1, Name(entries[k].0))];
      }
    case Array(items) =>
      for i := 0 to |items|
        invariant |calls| == i
        invariant forall j :: 0 <= j < i ==> calls[j] == (items[j], Index(j))
      {
        calls := calls + [(items[i], Index(i))];
      }
  }
}
