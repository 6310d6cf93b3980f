/** The element-wise <algorithm> calls the vector makes on its buffer (std::fill, std::generate,
    std::copy, std::move), each as an in-place loop over an array of elements. */
module Algorithms {

  /** The value a value-initialised element holds: `Type{}` for the element type `int`. */
  const Default: int := 0

  /** n copies of v. */
  function Repeat(v: int, n: nat): (r: seq<int>)
    ensures |r| == n
    ensures forall k :: 0 <= k < n ==> r[k] == v
  {
    seq(n, _ => v)
  }

  /** std::fill(a + lo, a + hi, v), and std::generate over the same range with a generator that
      always yields v. */
  method Fill(a: array<int>, lo: nat, hi: nat, v: int)
    requires lo <= hi <= a.Length
    modifies a
    ensures a[..lo] == old(a[..lo])
    ensures a[lo..hi] == Repeat(v, hi - lo)
    ensures a[hi..] == old(a[hi..])
  {
    var i := lo;
    while i < hi
      invariant lo <= i <= hi
      invariant forall k :: 0 <= k < a.Length ==> a[k] == if lo <= k < i then v else old(a[k])
    {
      a[i] := v;
      i := i + 1;
    }
    assert forall k :: 0 <= k < hi - lo ==> a[lo..hi][k] == a[lo + k];
  }

  /** std::copy of the values src into a + 0 (and std::move of a live range into a fresh buffer,
      which for int elements copies). */
  method CopyInto(src: seq<int>, a: array<int>)
    requires |src| <= a.Length
    modifies a
    ensures a[..|src|] == src
    ensures a[|src|..] == old(a[|src|..])
  {
    var i := 0;
    while i < |src|
      invariant 0 <= i <= |src|
      invariant forall k :: 0 <= k < a.Length ==> a[k] == if k < i then src[k] else old(a[k])
    {
      a[i] := src[i];
      i := i + 1;
    }
  }

  /** The order-preserving right shift by one slot of a[lo..hi) into a[lo+1..hi+1), as
      std::move_backward(a + lo, a + hi, a + hi + 1) performs it: from the last element down,
      so that no element is overwritten before it has been moved. Slot lo keeps its value. */
  method MoveRight(a: array<int>, lo: nat, hi: nat)
    requires lo <= hi < a.Length
    modifies a
    ensures a[..lo + 1] == old(a[..lo + 1])
    ensures a[lo + 1..hi + 1] == old(a[lo..hi])
    ensures a[hi + 1..] == old(a[hi + 1..])
  {
    var i := hi;
    while i > lo
      invariant lo <= i <= hi
      invariant forall k :: 0 <= k < a.Length ==> a[k] == if i < k <= hi then old(a[k - 1]) else old(a[k])
    {
      a[i] := a[i - 1];
      i := i - 1;
    }
  }

  /** The left shift by one slot of a[lo+1..hi) into a[lo..hi-1), as std::move(a + lo + 1, a + hi,
      a + lo) performs it: from the first element up. Slot hi - 1 keeps its value. */
  method MoveLeft(a: array<int>, lo: nat, hi: nat)
    requires lo < hi <= a.Length
    modifies a
    ensures a[..lo] == old(a[..lo])
    ensures a[lo..hi - 1] == old(a[lo + 1..hi])
    ensures a[hi - 1..] == old(a[hi - 1..])
  {
    var i := lo;
    while i < hi - 1
      invariant lo <= i <= hi - 1
      invariant forall k :: 0 <= k < a.Length ==> a[k] == if lo <= k < i then old(a[k + 1]) else old(a[k])
    {
      a[i] := a[i + 1];
      i := i + 1;
    }
  }
}
