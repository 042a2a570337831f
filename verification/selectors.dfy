/**
 * `first` and `last`: one element when no count is given, otherwise a slice
 * taken with `Array.prototype.slice`, whose start and end resolve as
 * ECMA-262 prescribes for that method: a negative position counts
 * from the end, and every position is clamped to the array.
 */
module Selectors {
  import opened Collections

  /** What `first` and `last` answer: one element (perhaps `undefined`) or an array. */
  datatype Taken<T> = Element(element: Option<T>) | Elements(elements: seq<T>)

  function Min(a: int, b: int): int { if a < b then a else b }
  function Max(a: int, b: int): int { if a < b then b else a }

  /**
   * A relative slice position resolved against an array of length `len`: a
   * position inside the array is taken as it is, one past the end is clamped
   * to the length, and one before the start (counting from the end) to 0.
   */
  function Resolve(relative: int, len: nat): (k: nat)
    ensures k <= len
    ensures 0 <= relative <= len ==> k == relative
    ensures relative >= len ==> k == len
    ensures relative + len <= 0 ==> k == 0
  {
    if relative < 0 then (if len + relative < 0 then 0 else len + relative)
    else if relative < len then relative else len
  }

  /** A negative position counts from the end: `-m` resolves `m` places before the end. */
  lemma {:induction false} ResolveFromEnd(m: int, len: nat)
    requires m > 0
    ensures Resolve(-m, len) == len - Resolve(m, len)
  {
  }

  /**
   * `a.slice(start, end)`, `end` being `undefined` when absent: the run of
   * elements from the resolved start up to the resolved end, empty when the
   * end does not lie after the start.
   */
  function Slice<T>(a: seq<T>, start: int, end: Option<int>): (r: seq<T>)
    ensures r <= a[Resolve(start, |a|)..]
    ensures end.None? ==> r == a[Resolve(start, |a|)..]
    ensures end.Some? ==> Resolve(start, |a|) + |r| == Max(Resolve(start, |a|), Resolve(end.value, |a|))
  {
    var k := Resolve(start, |a|);
    var f := if end.None? then |a| else Resolve(end.value, |a|);
    if k < f then a[k..f] else []
  }

  /** Slicing at any position `n` splits an array into two parts that together give it back. */
  lemma {:induction false} SliceSplit<T>(a: seq<T>, n: int)
    ensures Slice(a, 0, Some(n)) + Slice(a, n, None) == a
  {
    var k := Resolve(n, |a|);
    assert Slice(a, 0, Some(n)) == a[..k];
    assert a[..k] + a[k..] == a;
  }

  /**
   * `first(array, n)`: without `n`, `array[0]`; with `n`, `array.slice(0, n)`,
   * which is the first `n` elements when `n` is not negative and everything but
   * the last `-n` elements when it is.
   */
  function First<T>(arr: seq<T>, n: Option<int>): (r: Taken<T>)
    ensures n.None? ==> r == Element(if |arr| > 0 then Some(arr[0]) else None)
    ensures n.Some? && n.value >= 0 ==> r == Elements(arr[..Min(n.value, |arr|)])
    ensures n.Some? && n.value < 0 ==> r == Elements(arr[..Max(|arr| + n.value, 0)])
  {
    if n.None? then Element(if |arr| > 0 then Some(arr[0]) else None)
    else Elements(Slice(arr, 0, n))
  }

  /**
   * `last(array, n)`: `[]` when `n` is 0 (where `slice(-0)` would return the
   * whole array); without `n`, `array[array.length - 1]`; otherwise
   * `array.slice(-n)`, which is the last `n` elements when `n` is positive and
   * everything but the first `-n` elements when it is negative.
   */
  function Last<T>(arr: seq<T>, n: Option<int>): (r: Taken<T>)
    ensures n == Some(0) ==> r == Elements([])
    ensures n.None? ==> r == Element(if |arr| > 0 then Some(arr[|arr| - 1]) else None)
    ensures n.Some? && n.value > 0 ==> r == Elements(arr[Max(|arr| - n.value, 0)..])
    ensures n.Some? && n.value < 0 ==> r == Elements(arr[Min(-n.value, |arr|)..])
  {
    if n == Some(0) then Elements([])
    else if n.None? then Element(if |arr| > 0 then Some(arr[|arr| - 1]) else None)
    else
      var tail := Slice(arr, -n.value, None);
      assert tail == arr[Resolve(-n.value, |arr|)..];
      Elements(tail)
  }

  /**
   * `first` and `last` split an array: the first `n` elements followed by the
   * last `length - n` are the array itself, for every `n` from 0 to the length.
   */
  lemma {:induction false} FirstLastSplit<T>(arr: seq<T>, n: nat)
    requires n <= |arr|
    ensures First(arr, Some(n)).elements + Last(arr, Some(|arr| - n)).elements == arr
  {
    if n < |arr| {
      assert arr[..n] + arr[n..] == arr;
    }
  }

  /** Counts beyond the length are clamped: `first` and `last` then return a copy of the array. */
  lemma {:induction false} TakeBeyondLength<T>(arr: seq<T>, n: int)
    requires n >= |arr|
    ensures First(arr, Some(n)) == Elements(arr)
    ensures n > 0 ==> Last(arr, Some(n)) == Elements(arr)
  {
  }
}
