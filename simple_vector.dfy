/** SimpleVector: a dynamic array that keeps a logical size and a capacity over one owned
    buffer. Slots [0, size) hold the elements; slots [size, capacity) are allocated but not
    part of the vector. Positions (the source's iterators) are indices from the front. */
module SimpleVectors {
  import opened Errors
  import opened Algorithms
  import opened Lexicographic

  /** ReserveProxyObj: a requested capacity, which selects the reserving constructor rather
      than the sized one. */
  datatype ReserveProxyObj = ReserveProxyObj(size: nat)

  /** The free function `Reserve(n)` that builds the request. */
  function Reserve(capacityToReserve: nat): (r: ReserveProxyObj)
    ensures r.size == capacityToReserve
  {
    ReserveProxyObj(capacityToReserve)
  }

  /** The capacity PushBack and Insert grow to when the buffer is full:
      std::max(size_t(1), capacity_ * 2). Growth always makes room for one more element. */
  function GrowthCapacity(capacity: nat): (r: nat)
    ensures r > capacity
  {
    if 1 < capacity * 2 then capacity * 2 else 1
  }

  /** s with v placed at position p, the elements from p on moved one place back. */
  function Inserted(s: seq<int>, p: nat, v: int): (r: seq<int>)
    requires p <= |s|
    ensures |r| == |s| + 1 && r[p] == v
    ensures forall k :: 0 <= k < p ==> r[k] == s[k]
    ensures forall k :: p < k < |r| ==> r[k] == s[k - 1]
  {
    s[..p] + [v] + s[p..]
  }

  /** s without the element at position p, the elements after it moved one place forward. */
  function Removed(s: seq<int>, p: nat): (r: seq<int>)
    requires p < |s|
    ensures |r| == |s| - 1
    ensures forall k :: 0 <= k < p ==> r[k] == s[k]
    ensures forall k :: p <= k < |r| ==> r[k] == s[k + 1]
  {
    s[..p] + s[p + 1..]
  }

  /** Erasing at the position of an insertion undoes it. */
  lemma RemovedInserted(s: seq<int>, p: nat, v: int)
    requires p <= |s|
    ensures Removed(Inserted(s, p, v), p) == s
  {
  }

  class SimpleVector {
    var size: nat
    var capacity: nat
    var buf: array<int>

    /** What every operation keeps: the live prefix is within the capacity and within the
        buffer. */
    ghost predicate Valid()
      reads this
    {
      size <= capacity && size <= buf.Length
    }

    /** The buffer has a slot for every unit of capacity. Every operation except the copy
        constructor as the source writes it keeps this too. */
    ghost predicate Backed()
      reads this
    {
      capacity <= buf.Length
    }

    /** The elements of the vector, front to back. */
    function Elems(): seq<int>
      reads this, buf
      requires Valid()
    {
      buf[..size]
    }

    /** The default constructor: no elements, no capacity, and a buffer that owns nothing
        (here a block of length 0). */
    constructor ()
      ensures Valid() && Backed() && fresh(buf)
      ensures Elems() == [] && capacity == 0
    {
      size, capacity := 0, 0;
      buf := new int[0];
    }

    /** `SimpleVector(size)`: size and capacity n, every element value-initialised. */
    constructor Sized(n: nat)
      ensures Valid() && Backed() && fresh(buf)
      ensures Elems() == Repeat(Default, n) && capacity == n
    {
      size, capacity := n, n;
      buf := new int[n](_ => Default);
    }

    /** `SimpleVector(Reserve(n))`: no elements, capacity n, all n slots value-initialised. */
    constructor WithReserve(request: ReserveProxyObj)
      ensures Valid() && Backed() && fresh(buf)
      ensures Elems() == [] && capacity == request.size
      ensures buf[..] == Repeat(Default, request.size)
    {
      size, capacity := 0, request.size;
      buf := new int[request.size](_ => Default);
    }

    /** `SimpleVector(size, value)`: size and capacity n, every element equal to value. */
    constructor Filled(n: nat, value: int)
      ensures Valid() && Backed() && fresh(buf)
      ensures Elems() == Repeat(value, n) && capacity == n
    {
      size, capacity := n, n;
      buf := new int[n](_ => Default);
      new;
      Fill(buf, 0, n, value);
    }

    /** `SimpleVector(std::initializer_list)`: size and capacity the list's length, the
        elements in list order. */
    constructor FromList(init: seq<int>)
      ensures Valid() && Backed() && fresh(buf)
      ensures Elems() == init && capacity == |init|
    {
      size, capacity := |init|, |init|;
      buf := new int[|init|](_ => Default);
      new;
      CopyInto(init, buf);
    }

    /** The copy constructor as the source writes it: it copies size and capacity, but the
        buffer it allocates has only `other.size` slots. The copy is backed only when the
        original had no spare capacity. */
    constructor CopyAsWritten(other: SimpleVector)
      requires other.Valid()
      ensures Valid() && fresh(buf)
      ensures size == other.size && capacity == other.capacity && Elems() == other.Elems()
      ensures buf.Length == other.size
      ensures Backed() <==> other.size == other.capacity
    {
      size, capacity := other.size, other.capacity;
      buf := new int[other.size](_ => Default);
      new;
      CopyInto(other.Elems(), buf);
    }

    /** The copy constructor with a buffer of `other.capacity` slots: an equal vector, with the
        same capacity, over a buffer of its own. */
    constructor Copy(other: SimpleVector)
      requires other.Valid()
      ensures Valid() && Backed() && fresh(buf)
      ensures size == other.size && capacity == other.capacity && Elems() == other.Elems()
    {
      size, capacity := other.size, other.capacity;
      buf := new int[other.capacity](_ => Default);
      new;
      CopyInto(other.Elems(), buf);
    }

    /** Move construction swaps a default-constructed vector with the source: this vector
        takes over the source's buffer, size and capacity, and the source is left empty with
        no capacity. */
    constructor Moved(other: SimpleVector)
      requires other.Valid()
      modifies other
      ensures Valid() && buf == old(other.buf)
      ensures size == old(other.size) && capacity == old(other.capacity)
      ensures Elems() == old(other.Elems()) && Backed() == old(other.Backed())
      ensures other.Valid() && other.Backed() && fresh(other.buf)
      ensures other.Elems() == [] && other.capacity == 0
    {
      size, capacity, buf := other.size, other.capacity, other.buf;
      new;
      other.size, other.capacity := 0, 0;
      other.buf := new int[0];
    }

    /** `swap` exchanges size, capacity and buffer, and touches no element. */
    method Swap(other: SimpleVector)
      modifies this, other
      ensures size == old(other.size) && other.size == old(size)
      ensures capacity == old(other.capacity) && other.capacity == old(capacity)
      ensures buf == old(other.buf) && other.buf == old(buf)
    {
      size, other.size := other.size, size;
      capacity, other.capacity := other.capacity, capacity;
      buf, other.buf := other.buf, buf;
    }

    /** Copy assignment: copy `rhs`, then swap the copy in. This vector becomes equal to `rhs`
        with its capacity; `rhs` is not changed. */
    method CopyAssign(rhs: SimpleVector)
      requires Valid() && rhs.Valid()
      modifies this
      ensures Valid()
      ensures size == old(rhs.size) && capacity == old(rhs.capacity) && Elems() == old(rhs.Elems())
      ensures rhs != this ==> Backed() && fresh(buf)
      ensures rhs == this ==> buf == old(buf)
    {
      if this == rhs {
        return;
      }
      var copy := new SimpleVector.Copy(rhs);
      Swap(copy);
    }

    /** Move assignment: move-construct from `rhs`, then swap. This vector takes over `rhs`'s
        buffer, size and capacity; `rhs` is left empty with no capacity. */
    method MoveAssign(rhs: SimpleVector)
      requires Valid() && rhs.Valid()
      modifies this, rhs
      ensures Valid() && rhs.Valid()
      ensures buf == old(rhs.buf) && size == old(rhs.size) && capacity == old(rhs.capacity)
      ensures Elems() == old(rhs.Elems())
      ensures rhs != this ==> rhs.Elems() == [] && rhs.capacity == 0
    {
      if this == rhs {
        return;
      }
      var moved := new SimpleVector.Moved(rhs);
      Swap(moved);
    }

    /** IsEmpty: true exactly when there are no elements. */
    function IsEmpty(): (r: bool)
      reads this, buf
      requires Valid()
      ensures r <==> Elems() == []
    {
      size == 0
    }

    /** `operator[]` for reading: unchecked, so the caller keeps the index below the size. */
    method Get(index: nat) returns (x: int)
      requires Valid() && index < size
      ensures x == Elems()[index]
    {
      x := buf[index];
    }

    /** `operator[]` used as a reference for writing: element `index` becomes x, nothing else
        changes. */
    method Set(index: nat, x: int)
      requires Valid() && index < size
      modifies buf
      ensures Valid() && Elems() == old(Elems())[index := x]
      ensures buf[..] == old(buf[..])[index := x]
    {
      buf[index] := x;
    }

    /** `At`: throws out_of_range exactly when index >= size, otherwise yields the element at
        index; the vector does not change either way. */
    method At(index: nat) returns (r: Result<int>)
      requires Valid()
      ensures r.Failure? <==> index >= size
      ensures r.Failure? ==> r.error == OutOfRange
      ensures r.Success? ==> r.value == Elems()[index]
    {
      if index >= size {
        return Failure(OutOfRange);
      }
      r := Success(buf[index]);
    }

    /** `Clear`: no elements; capacity and buffer stay. */
    method Clear()
      requires Valid()
      modifies this
      ensures Valid() && Elems() == []
      ensures capacity == old(capacity) && buf == old(buf)
    {
      size := 0;
    }

    /** `PopBack`: drops the last element, and does nothing on an empty vector; capacity,
        buffer and the remaining elements stay. */
    method PopBack()
      requires Valid()
      modifies this
      ensures Valid() && capacity == old(capacity) && buf == old(buf)
      ensures old(size) == 0 ==> Elems() == []
      ensures old(size) > 0 ==> Elems() == old(Elems())[..old(size) - 1]
    {
      if size > 0 {
        size := size - 1;
      }
    }

    /** `Reserve`: nothing happens unless the request exceeds the capacity; then the capacity
        becomes exactly the request, over a fresh buffer that holds the same elements in the
        same order followed by value-initialised slots. */
    method Reserve(newCapacity: nat)
      requires Valid()
      modifies this
      ensures Valid() && size == old(size) && Elems() == old(Elems())
      ensures capacity == if newCapacity <= old(capacity) then old(capacity) else newCapacity
      ensures newCapacity <= old(capacity) ==> buf == old(buf)
      ensures newCapacity > old(capacity) ==> Backed() && fresh(buf) && buf.Length == newCapacity
      ensures newCapacity > old(capacity) ==> buf[size..] == Repeat(Default, newCapacity - size)
      ensures old(Backed()) ==> Backed()
    {
      if capacity >= newCapacity {
        return;
      }
      var tmp := new int[newCapacity](_ => Default);
      CopyInto(buf[..size], tmp);
      Fill(tmp, size, newCapacity, Default);
      capacity := newCapacity;
      buf := tmp;
    }

    /** `Resize`: afterwards the size is newSize. Shrinking keeps the first newSize elements;
        growing appends value-initialised elements, in place when newSize fits the capacity and
        otherwise after reserving exactly newSize. */
    method Resize(newSize: nat)
      requires Valid()
      requires size < newSize <= capacity ==> newSize <= buf.Length
      modifies this, buf
      ensures Valid() && (old(Backed()) ==> Backed())
      ensures newSize <= old(size) ==> Elems() == old(Elems())[..newSize]
      ensures newSize > old(size) ==> Elems() == old(Elems()) + Repeat(Default, newSize - old(size))
      ensures capacity == if newSize <= old(capacity) then old(capacity) else newSize
      ensures newSize <= old(capacity) ==> buf == old(buf)
      ensures buf == old(buf) || fresh(buf)
    {
      if newSize < size {
        size := newSize;
        return;
      }
      if newSize > size && newSize <= capacity {
        Fill(buf, size, newSize, Default);
        size := newSize;
        return;
      }
      ghost var before := Elems();
      Reserve(newSize);
      size := newSize;
      if newSize > |before| {
        assert buf[..newSize] == buf[..|before|] + buf[|before|..];
      }
    }

    /** `PushBack`: appends item. A full vector first grows to GrowthCapacity(capacity); one
        with spare capacity keeps its capacity and buffer. */
    method PushBack(item: int)
      requires Valid()
      requires size < capacity ==> size < buf.Length
      modifies this, buf
      ensures Valid() && (old(Backed()) ==> Backed())
      ensures Elems() == old(Elems()) + [item]
      ensures capacity == if old(size) < old(capacity) then old(capacity) else GrowthCapacity(old(capacity))
      ensures old(size) < old(capacity) ==> buf == old(buf)
      ensures buf == old(buf) || fresh(buf)
    {
      if size >= capacity {
        Reserve(GrowthCapacity(capacity));
      }
      buf[size] := item;
      size := size + 1;
    }

    /** `Insert`: places value at position pos, the elements from pos on moved one place back,
        and returns pos. A full vector first grows to GrowthCapacity(capacity). */
    method Insert(pos: nat, value: int) returns (r: nat)
      requires Valid() && pos <= size
      requires size < capacity ==> size < buf.Length
      modifies this, buf
      ensures Valid() && (old(Backed()) ==> Backed())
      ensures r == pos
      ensures Elems() == Inserted(old(Elems()), pos, value)
      ensures capacity == if old(size) < old(capacity) then old(capacity) else GrowthCapacity(old(capacity))
      ensures old(size) < old(capacity) ==> buf == old(buf)
      ensures buf == old(buf) || fresh(buf)
    {
      if size < capacity {
        ShiftAndPlace(pos, value);
        return pos;
      }
      Reserve(GrowthCapacity(capacity));
      ShiftAndPlace(pos, value);
      r := pos;
    }

    /** The in-place part of Insert: the tail [pos, size) moves one slot right, value goes into
        slot pos, and the size grows by one. */
    method ShiftAndPlace(pos: nat, value: int)
      requires Valid() && pos <= size && size < capacity && size < buf.Length
      modifies this, buf
      ensures Valid() && buf == old(buf) && capacity == old(capacity)
      ensures Elems() == Inserted(old(Elems()), pos, value)
    {
      MoveRight(buf, pos, size);
      buf[pos] := value;
      size := size + 1;
      assert Elems() == buf[..pos] + [buf[pos]] + buf[pos + 1..size];
    }

    /** `Erase`: removes the element at pos, moving the later ones one place forward, and
        returns pos; a position that holds no element (pos >= size) throws overflow_error and
        leaves the vector unchanged. */
    method Erase(pos: nat) returns (r: Result<nat>)
      requires Valid()
      modifies this, buf
      ensures Valid() && buf == old(buf) && capacity == old(capacity)
      ensures r.Failure? <==> pos >= old(size)
      ensures r.Failure? ==> r.error == OverflowError && Elems() == old(Elems())
      ensures r.Success? ==> r.value == pos && Elems() == Removed(old(Elems()), pos)
    {
      if pos >= size {
        return Failure(OverflowError);
      }
      MoveLeft(buf, pos, size);
      size := size - 1;
      r := Success(pos);
    }
  }

  /** `operator==`: the same elements in the same order. */
  function Equal(lhs: SimpleVector, rhs: SimpleVector): (r: bool)
    reads lhs, lhs.buf, rhs, rhs.buf
    requires lhs.Valid() && rhs.Valid()
    ensures r <==> lhs.Elems() == rhs.Elems()
  {
    RangeEqualIsEquality(lhs.Elems(), rhs.Elems());
    RangeEqual(lhs.Elems(), rhs.Elems())
  }

  /** `operator!=`: the negation of `==`. */
  function NotEqual(lhs: SimpleVector, rhs: SimpleVector): (r: bool)
    reads lhs, lhs.buf, rhs, rhs.buf
    requires lhs.Valid() && rhs.Valid()
    ensures r <==> lhs.Elems() != rhs.Elems()
  {
    !Equal(lhs, rhs)
  }

  /** `operator<`: lexicographic order of the elements. */
  function Less(lhs: SimpleVector, rhs: SimpleVector): (r: bool)
    reads lhs, lhs.buf, rhs, rhs.buf
    requires lhs.Valid() && rhs.Valid()
    ensures r <==> Precedes(lhs.Elems(), rhs.Elems())
  {
    LexicographicalCompareMeaning(lhs.Elems(), rhs.Elems());
    LexicographicalCompare(lhs.Elems(), rhs.Elems())
  }

  /** `operator>`: rhs < lhs. */
  function Greater(lhs: SimpleVector, rhs: SimpleVector): (r: bool)
    reads lhs, lhs.buf, rhs, rhs.buf
    requires lhs.Valid() && rhs.Valid()
    ensures r <==> Precedes(rhs.Elems(), lhs.Elems())
  {
    Less(rhs, lhs)
  }

  /** `operator<=`: !(lhs > rhs), which is "less or equal" because `<` is a strict total
      order. */
  function LessOrEqual(lhs: SimpleVector, rhs: SimpleVector): (r: bool)
    reads lhs, lhs.buf, rhs, rhs.buf
    requires lhs.Valid() && rhs.Valid()
    ensures r <==> Precedes(lhs.Elems(), rhs.Elems()) || lhs.Elems() == rhs.Elems()
  {
    LexicographicalCompareTrichotomous(lhs.Elems(), rhs.Elems());
    LexicographicalCompareAsymmetric(lhs.Elems(), rhs.Elems());
    LexicographicalCompareIrreflexive(lhs.Elems());
    LexicographicalCompareMeaning(lhs.Elems(), rhs.Elems());
    !Greater(lhs, rhs)
  }

  /** `operator>=`: rhs <= lhs. */
  function GreaterOrEqual(lhs: SimpleVector, rhs: SimpleVector): (r: bool)
    reads lhs, lhs.buf, rhs, rhs.buf
    requires lhs.Valid() && rhs.Valid()
    ensures r <==> Precedes(rhs.Elems(), lhs.Elems()) || lhs.Elems() == rhs.Elems()
  {
    LessOrEqual(rhs, lhs)
  }
}
