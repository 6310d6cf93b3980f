/** Three places where the vector's source does not do what it evidently means to do, each
    modelled as written, with an input that shows the difference. The corrected behaviour is
    what SimpleVectors uses. */
module Findings {
  import opened Errors
  import opened Algorithms
  import opened SimpleVectors

  /** The copy constructor as written, applied to `SimpleVector(Reserve(4))`: the copy claims
      capacity 4 over a buffer of 0 slots. PushBack on it takes the no-growth path
      (size < capacity) and writes slot 0, which the buffer does not have. */
  method CopyOfReservedVector() returns (copy: SimpleVector)
    ensures copy.Valid() && copy.size == 0 && copy.capacity == 4
    ensures copy.buf.Length == 0 && !copy.Backed()
    ensures copy.size < copy.capacity && copy.size >= copy.buf.Length
  {
    var reserved := new SimpleVector.WithReserve(Reserve(4));
    copy := new SimpleVector.CopyAsWritten(reserved);
  }

  /** Insert's shift as written: std::move(a + lo, a + hi, a + lo + 1), performed as the
      algorithm is defined, one assignment per element in increasing order. The destination
      starts inside the source range, so each assignment reads the slot the previous one has
      just overwritten, and every slot of [lo, hi] ends up holding the old a[lo]. */
  method MoveForwardOverlapping(a: array<int>, lo: nat, hi: nat)
    requires lo <= hi < a.Length
    modifies a
    ensures forall k :: lo <= k <= hi ==> a[k] == old(a[lo])
    ensures a[..lo] == old(a[..lo])
    ensures a[hi + 1..] == old(a[hi + 1..])
  {
    var i := lo;
    while i < hi
      invariant lo <= i <= hi
      invariant forall k :: 0 <= k < a.Length ==> a[k] == if lo <= k <= i then old(a[lo]) else old(a[k])
    {
      a[i + 1] := a[i];
      i := i + 1;
    }
  }

  /** `Insert(begin(), 9)` on {1, 2, 3} with one spare slot, shifting as written: the result
      is {9, 1, 1, 1}, not {9, 1, 2, 3}. */
  method InsertShiftAsWritten() returns (got: seq<int>)
    ensures got == [9, 1, 1, 1]
    ensures got != Inserted([1, 2, 3], 0, 9)
  {
    var a := new int[4](_ => Default);
    a[0], a[1], a[2] := 1, 2, 3;
    MoveForwardOverlapping(a, 0, 3);
    a[0] := 9;
    got := a[..];
    assert Inserted([1, 2, 3], 0, 9)[2] == 2;
  }

  /** The largest size_t. */
  const SizeMax: nat := 0xFFFF_FFFF_FFFF_FFFF

  /** Erase's outcome on the size as written: only pos > size throws, and `--size_` on a
      size_t wraps from 0 to SIZE_MAX. Unlike Erase, whose success carries the position,
      success here carries the size the vector is left with. */
  function SizeAfterEraseAsWritten(size: nat, pos: nat): (r: Result<nat>)
    requires size <= SizeMax
    ensures r.Failure? <==> pos > size
    ensures r.Success? ==> r.value <= SizeMax
  {
    if pos > size then Failure(OverflowError)
    else Success(if size == 0 then SizeMax else size - 1)
  }

  /** Erase at the end position is accepted although no element is there; on an empty vector
      it leaves a size of SIZE_MAX, beyond any capacity. The corrected Erase throws for every
      pos >= size. */
  lemma EraseAtEndAccepted(size: nat)
    requires size <= SizeMax
    ensures SizeAfterEraseAsWritten(size, size).Success?
    ensures size == 0 ==> SizeAfterEraseAsWritten(size, size) == Success(SizeMax)
  {
  }

  /** The corrected Erase on the same inputs: at the end position it throws and leaves the
      vector as it was, also when the vector is empty. */
  method EraseAtEndCorrected(v: SimpleVector) returns (r: Result<nat>)
    requires v.Valid()
    modifies v, v.buf
    ensures r == Failure(OverflowError)
    ensures v.Valid() && v.Elems() == old(v.Elems()) && v.capacity == old(v.capacity)
  {
    r := v.Erase(v.size);
  }
}
