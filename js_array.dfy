/**
 * JavaScript's `Array.prototype.splice(start, 1)` on an integer `start`, as
 * the array it leaves behind (section 23.1.3.31 of ECMA-262).
 */
module JsArray {

  /** The position `splice` starts at: a negative `start` counts from the
      end and is clamped at 0, a large one is clamped at the length. */
  function SpliceStart(len: nat, start: int): (k: nat)
    ensures k <= len
    ensures 0 <= start <= len ==> k == start
    ensures start < 0 && len + start >= 0 ==> k == len + start
    ensures len + start < 0 ==> k == 0
    ensures start > len ==> k == len
  {
    if start < 0 then (if len + start < 0 then 0 else len + start)
    else if start > len then len
    else start
  }

  /** The array after `a.splice(start, 1)`. */
  function SpliceOne<T>(a: seq<T>, start: int): (r: seq<T>)
    ensures |r| == if SpliceStart(|a|, start) < |a| then |a| - 1 else |a|
  {
    var k := SpliceStart(|a|, start);
    if k < |a| then a[..k] + a[k + 1..] else a
  }

  /** For an index inside the array, exactly that element goes: those before
      it keep their place and those after it move down by one. */
  lemma SpliceInRange<T>(a: seq<T>, i: int)
    requires 0 <= i < |a|
    ensures SpliceOne(a, i) == a[..i] + a[i + 1..]
    ensures |SpliceOne(a, i)| == |a| - 1
    ensures forall k :: 0 <= k < i ==> SpliceOne(a, i)[k] == a[k]
    ensures forall k :: i <= k < |a| - 1 ==> SpliceOne(a, i)[k] == a[k + 1]
  {
  }

  /** An index at or past the end removes nothing. */
  lemma SplicePastEnd<T>(a: seq<T>, i: int)
    requires i >= |a|
    ensures SpliceOne(a, i) == a
  {
  }

  /** A negative index `-n` with `n <= |a|` removes the n-th element from the end. */
  lemma SpliceFromEnd<T>(a: seq<T>, i: int)
    requires -|a| <= i < 0
    ensures SpliceOne(a, i) == a[..|a| + i] + a[|a| + i + 1..]
  {
  }

  /** Every element of the result was an element of the array. */
  lemma SpliceSubset<T>(a: seq<T>, start: int)
    ensures forall x :: x in SpliceOne(a, start) ==> x in a
  {
    var k := SpliceStart(|a|, start);
    if k < |a| {
      forall x | x in SpliceOne(a, start) ensures x in a {
        var j :| 0 <= j < |SpliceOne(a, start)| && SpliceOne(a, start)[j] == x;
        if j < k { assert a[j] == x; } else { assert a[j + 1] == x; }
      }
    }
  }
}
