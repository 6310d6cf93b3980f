/** ArrayPtr: the single owner of one block of value-initialised elements. The owning pointer is
    the field `block`; `null` is the pointer that owns nothing. */
module OwnedBuffer {
  import opened Errors
  import opened Algorithms

  class ArrayPtr {
    var block: array?<int>

    /** The default constructor owns nothing. */
    constructor ()
      ensures block == null
    {
      block := null;
    }

    /** `ArrayPtr(size)` owns a fresh block of `size` value-initialised elements; a block of size
        0 is still a block, not the null pointer. */
    constructor Sized(size: nat)
      ensures block != null && fresh(block)
      ensures block.Length == size
      ensures forall i :: 0 <= i < size ==> block[i] == Default
    {
      block := new int[size](_ => Default);
    }

    /** Move construction exchanges the new object's null pointer with the source's: the new
        object takes over the source's block and the source is left owning nothing. */
    constructor Moved(other: ArrayPtr)
      modifies other
      ensures block == old(other.block)
      ensures other.block == null
    {
      block := other.block;
      new;
      other.block := null;
    }

    /** Move assignment exchanges the two pointers, so the source receives the block this object
        owned before (not null), and no element is touched. */
    method MoveAssign(other: ArrayPtr)
      modifies this, other
      ensures block == old(other.block)
      ensures other.block == old(block)
    {
      var previous := block;
      block := other.block;
      other.block := previous;
    }

    /** `swap` exchanges the two owned blocks and touches no element. */
    method Swap(other: ArrayPtr)
      modifies this, other
      ensures block == old(other.block)
      ensures other.block == old(block)
    {
      block, other.block := other.block, block;
    }

    /** `operator bool`: true exactly when a block is owned. */
    predicate IsOwning()
      reads this
    {
      block != null
    }

    /** `operator[]` for reading: unchecked, so the caller keeps the index inside the block. */
    method Get(index: nat) returns (x: int)
      requires block != null && index < block.Length
      ensures x == block[index]
    {
      x := block[index];
    }

    /** `operator[]` used as a reference for writing: only slot `index` changes. */
    method Set(index: nat, x: int)
      requires block != null && index < block.Length
      modifies block
      ensures block[..] == old(block[..])[index := x]
    {
      block[index] := x;
    }

    /** `operator*`: throws logic_error when nothing is owned, otherwise yields the first element.
        On an owned block of size 0 the dereference reads past the block, which the caller must
        not ask for. */
    method Deref() returns (r: Result<int>)
      requires block != null ==> block.Length > 0
      ensures r.Failure? <==> !IsOwning()
      ensures r.Failure? ==> r.error == LogicError
      ensures r.Success? ==> block != null && r.value == block[0]
    {
      if block == null {
        return Failure(LogicError);
      }
      r := Success(block[0]);
    }
  }

  /** What a client can rely on: a swap hands the two blocks across unchanged, a move hands the
      block over and leaves the source owning nothing. */
  method OwnershipScenario() returns (moved: Result<int>, source: Result<int>)
    ensures moved == Success(7)
    ensures source == Failure(LogicError)
  {
    var p := new ArrayPtr.Sized(3);
    var q := new ArrayPtr();
    p.Set(0, 7);
    p.Swap(q);
    var r := new ArrayPtr.Moved(q);
    moved := r.Deref();
    source := q.Deref();
  }
}
