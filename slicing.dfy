/**
 * Slicing as Python's `list[start:end]` and as the store's
 * `cursor.skip(n).limit(m)` perform it.
 */
module Slicing {

  function Min(a: int, b: int): int { if a <= b then a else b }

  /** The first `n` elements, or all of them when there are fewer. */
  function Take<T>(s: seq<T>, n: nat): (r: seq<T>)
    ensures |r| == Min(n, |s|)
    ensures r <= s
  {
    s[..Min(n, |s|)]
  }

  /** All but the first `n` elements. */
  function Drop<T>(s: seq<T>, n: nat): (r: seq<T>)
    ensures |r| == |s| - Min(n, |s|)
    ensures s == s[..Min(n, |s|)] + r
    ensures forall x :: x in r ==> x in s
  {
    s[Min(n, |s|)..]
  }

  /** How Python normalises one bound of a slice of a sequence of length `n`. */
  function SliceBound(i: int, n: nat): (r: nat)
    ensures r <= n
    ensures 0 <= i <= n ==> r == i
    ensures i < -(n as int) ==> r == 0
    ensures -(n as int) <= i < 0 ==> r == i + n
    ensures i > n ==> r == n
  {
    if i < 0 then (if i + n < 0 then 0 else i + n)
    else if i > n then n
    else i
  }

  /** `s[start:end]`, negative bounds counting from the end. */
  function PySlice<T>(s: seq<T>, start: int, end: int): (r: seq<T>)
    ensures |r| <= |s|
    ensures 0 <= start <= end ==> r == s[Min(start, |s|)..Min(end, |s|)]
    ensures 0 <= start <= end ==> |r| <= end - start
    ensures start >= |s| ==> r == []
    ensures forall x :: x in r ==> x in s
  {
    var lo, hi := SliceBound(start, |s|), SliceBound(end, |s|);
    if lo < hi then s[lo..hi] else []
  }

  /**
   * `limit(n)`: zero means no limit, and a negative limit returns at most
   * `-n` documents (in one batch).
   */
  function MongoLimit<T>(s: seq<T>, n: int): (r: seq<T>)
    ensures n == 0 ==> r == s
    ensures n != 0 ==> |r| == Min(if n < 0 then -n else n, |s|)
    ensures r <= s
    ensures forall x :: x in r ==> x in s
  {
    if n == 0 then s else Take(s, if n < 0 then -n else n)
  }
}
