/** What a caller can prove about the vector from the operations' contracts alone: the
    round trips, the growth policy, the independence of a copy, and the worked examples. */
module Scenarios {
  import opened Errors
  import opened Algorithms
  import opened SimpleVectors

  /** Insert at pos, then Erase at the position Insert returns: the elements are as before. */
  method InsertThenErase(v: SimpleVector, pos: nat, x: int)
    requires v.Valid() && v.Backed() && pos <= v.size
    modifies v, v.buf
    ensures v.Valid() && v.Backed() && v.Elems() == old(v.Elems())
  {
    var at := v.Insert(pos, x);
    var r := v.Erase(at);
    RemovedInserted(old(v.Elems()), pos, x);
  }

  /** PushBack then PopBack: the size and all elements are as before. */
  method PushBackThenPopBack(v: SimpleVector, x: int)
    requires v.Valid() && v.Backed()
    modifies v, v.buf
    ensures v.Valid() && v.Backed() && v.Elems() == old(v.Elems())
  {
    v.PushBack(x);
    v.PopBack();
    assert old(v.Elems()) + [x] == v.Elems() + [x];
  }

  /** Reserve(n) and then n appends: the capacity is n throughout, so no append reallocates. */
  method AppendAfterReserve(items: seq<int>) returns (v: SimpleVector)
    ensures v.Valid() && v.Backed()
    ensures v.Elems() == items && v.capacity == |items|
  {
    v := new SimpleVector.WithReserve(Reserve(|items|));
    ghost var storage := v.buf;
    for i := 0 to |items|
      invariant v.Valid() && v.Backed() && v.capacity == |items| && v.size == i
      invariant v.buf == storage
      invariant v.Elems() == items[..i]
    {
      v.PushBack(items[i]);
      assert items[..i + 1] == items[..i] + [items[i]];
    }
  }

  /** A copy is equal to its original, and appending to the copy leaves the original as it
      was: the two share no buffer. */
  method CopyIsIndependent(v: SimpleVector, x: int) returns (copy: SimpleVector, wasEqual: bool)
    requires v.Valid()
    ensures wasEqual
    ensures copy.Valid() && copy.Elems() == v.Elems() + [x]
    ensures v.Valid() && v.Elems() == old(v.Elems())
  {
    copy := new SimpleVector.Copy(v);
    wasEqual := Equal(copy, v);
    copy.PushBack(x);
  }

  /** {1, 2, 3}: Insert(begin + 1, 9) gives {1, 9, 2, 3}; Erase(begin + 1) gives {1, 2, 3}. */
  method InsertEraseExample() returns (inserted: seq<int>, erased: seq<int>)
    ensures inserted == [1, 9, 2, 3] && erased == [1, 2, 3]
  {
    var v := new SimpleVector.FromList([1, 2, 3]);
    var at := v.Insert(1, 9);
    inserted := v.Elems();
    var r := v.Erase(at);
    erased := v.Elems();
  }

  /** An empty vector with Reserve(4): four appends keep capacity 4, the fifth doubles it. */
  method GrowthExample() returns (capacities: seq<nat>)
    ensures capacities == [4, 4, 4, 4, 4, 8]
  {
    var v := new SimpleVector.WithReserve(Reserve(4));
    capacities := [v.capacity];
    for i := 0 to 5
      invariant v.Valid() && v.Backed() && v.size == i && fresh(v.buf)
      invariant |capacities| == i + 1
      invariant capacities == [4, 4, 4, 4, 4, 8][..i + 1]
      invariant v.capacity == if i <= 4 then 4 else 8
    {
      v.PushBack(i);
      capacities := capacities + [v.capacity];
    }
  }

  /** At(5) on a vector of three elements throws out_of_range. */
  method AtExample() returns (r: Result<int>)
    ensures r == Failure(OutOfRange)
  {
    var v := new SimpleVector.FromList([1, 2, 3]);
    r := v.At(5);
  }

  /** Resize(2) on five elements keeps the first two and the capacity; Resize(5) afterwards
      brings back value-initialised elements, not the old ones. */
  method ResizeExample() returns (shrunk: seq<int>, regrown: seq<int>, capacity: nat)
    ensures shrunk == [10, 11] && regrown == [10, 11, Default, Default, Default]
    ensures capacity == 5
  {
    var v := new SimpleVector.FromList([10, 11, 12, 13, 14]);
    v.Resize(2);
    shrunk := v.Elems();
    v.Resize(5);
    regrown := v.Elems();
    capacity := v.capacity;
  }
}
