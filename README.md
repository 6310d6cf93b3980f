# SimpleVector and ArrayPtr in Dafny

A model of a hand-written dynamic array in two layers, with proofs of what each operation does.

- `ArrayPtr` (module `OwnedBuffer`, `array_ptr.dfy`) owns at most one block of
  value-initialised elements. The owning pointer is the field `block: array?<int>`, and `null`
  means that nothing is owned. The model covers the sized constructor, move construction, move
  assignment, `swap`, `operator bool` (the predicate `IsOwning`), the unchecked `operator[]`
  (`Get`/`Set`) and the checked `operator*` (`Deref`).
- `SimpleVector` (module `SimpleVectors`, `simple_vector.dfy`) is a class with the fields
  `size`, `capacity` and `buf: array<int>`. Its elements are `Elems() == buf[..size]`. Every
  operation keeps the invariant `Valid()`: `size <= capacity && size <= buf.Length`. A second
  predicate, `Backed()` (`capacity <= buf.Length`), is established by every constructor except
  `CopyAsWritten` and preserved by every operation. Operations that write into the spare slots
  `[size, capacity)` require only that the slot they write exists. Each mutating method ties the
  new `Elems()` and `capacity` to the old ones.
- The element-wise `<algorithm>` calls are in-place loops over arrays (module `Algorithms`).
  These are `std::fill`/`std::generate` (`Fill`), `std::copy` (`CopyInto`) and the two shifts
  (`MoveRight`, `MoveLeft`).
- The free comparison operators compare the live element sequences. `std::equal` and
  `std::lexicographical_compare` are recursive functions (module `Lexicographic`). They are
  proved equal to sequence equality and to an independent definition of lexicographic order
  (`Precedes`: the first position where the two sequences part). `<` is proved to be a strict
  total order. From this, `<=` and `>=`, which the source derives as `!(rhs < lhs)` and
  `rhs <= lhs`, are proved to mean "less or equal" and "greater or equal".
- Module `Scenarios` holds client methods. They prove from the contracts alone the round
  trips, the growth policy, that a copy is independent of its original, and the worked
  examples.
- Module `Findings` holds three places where the code does not do what it evidently means to do.

Elements are `int`. The value-initialised element `Type{}` is `Default`, which is 0.
Positions are indices from the front. Module `Findings` follows the code as written in three
places where it does not do what it evidently means to do; module `SimpleVectors` uses the
corrected behaviour in each of them. The copy constructor copies `capacity_` but allocates only
`other.size_` slots (simple_vector.h:129-131), so `SimpleVectors.SimpleVector.Copy` allocates
`capacity` slots and `CopyAssign` builds on it. `Insert` shifts its tail with a forward
`std::move` into an overlapping range (simple_vector.h:183), so `Insert` uses the
order-preserving `Algorithms.MoveRight`. `Erase` rejects only `n_pos > size_`
(simple_vector.h:217), so `SimpleVectors.SimpleVector.Erase` rejects every `pos >= size`.
"## Findings" gives an input for each.

## Model

| member | source | states |
|---|---|---|
| `OwnedBuffer.ArrayPtr.constructor` | simple-vector/array_ptr.h:8-10 | the default ArrayPtr owns nothing |
| `OwnedBuffer.ArrayPtr.Sized` | simple-vector/array_ptr.h:12-14 | owns a fresh block of exactly `size` elements, all value-initialised; a block of size 0 is still owned |
| `OwnedBuffer.ArrayPtr.Moved` | simple-vector/array_ptr.h:20-22 | the new object owns the source's former block and the source owns nothing |
| `OwnedBuffer.ArrayPtr.MoveAssign` | simple-vector/array_ptr.h:23-26 | the two blocks are exchanged: the source receives the destination's previous block, not null |
| `OwnedBuffer.ArrayPtr.Swap` | simple-vector/array_ptr.h:28-30 | the two owned blocks are exchanged; no element changes |
| `OwnedBuffer.ArrayPtr.IsOwning` | simple-vector/array_ptr.h:37-39 | `operator bool`: true exactly when a block is owned; `Deref` fails exactly when it is false |
| `OwnedBuffer.ArrayPtr.Get` | simple-vector/array_ptr.h:41-47 | unchecked read: the caller keeps the index inside the block; yields that element and changes nothing |
| `OwnedBuffer.ArrayPtr.Set` | simple-vector/array_ptr.h:41-43 | writing through the returned reference changes exactly that one element |
| `OwnedBuffer.ArrayPtr.Deref` | simple-vector/array_ptr.h:49-54 | throws logic_error exactly when no block is owned, otherwise yields element 0 |
| `OwnedBuffer.OwnershipScenario` | simple-vector/array_ptr.h:20-30 | after a swap and a move, the new owner sees the element written before, and the moved-from pointer throws logic_error on dereference |
| `Algorithms.Fill` | simple-vector/simple_vector.h:94-96 | slots [lo, hi) all hold the value; every other slot is unchanged |
| `Algorithms.CopyInto` | simple-vector/simple_vector.h:229-230 | the slots from 0 up to the length of src hold src in order; the rest are unchanged |
| `Algorithms.MoveRight` | simple-vector/simple_vector.h:183 | the intended shift of Insert: [lo, hi) moves to [lo+1, hi+1) in order; slots before lo+1 and after hi are unchanged |
| `Algorithms.MoveLeft` | simple-vector/simple_vector.h:220 | Erase's shift: [lo+1, hi) moves to [lo, hi-1) in order; the other slots are unchanged |
| `Lexicographic.RangeEqual` | simple-vector/simple_vector.h:245 | the `std::equal` call over two ranges: different lengths are unequal, and a range is equal to itself; the converse, that equal ranges are the same sequence, is `RangeEqualIsEquality` |
| `Lexicographic.LexicographicalCompare` | simple-vector/simple_vector.h:255 | the `std::lexicographical_compare` call: an empty range is less than exactly the non-empty ranges, and nothing is less than an empty range; the full meaning is `LexicographicalCompareMeaning` |
| `Lexicographic.RangeEqualIsEquality` | simple-vector/simple_vector.h:243-246 | std::equal over two ranges holds exactly when the sequences are equal, in both directions |
| `Lexicographic.LexicographicalCompareMeaning` | simple-vector/simple_vector.h:253-256 | std::lexicographical_compare holds exactly when the sequences agree up to some position where the first has ended and the second goes on, or where the first's element is smaller |
| `Lexicographic.LexicographicalCompareIrreflexive` | simple-vector/simple_vector.h:253-256 | no sequence is less than itself |
| `Lexicographic.LexicographicalCompareAsymmetric` | simple-vector/simple_vector.h:263-266 | a < b and b < a never hold together, so `>` is the converse of `<` |
| `Lexicographic.LexicographicalCompareTransitive` | simple-vector/simple_vector.h:253-256 | `<` is transitive |
| `Lexicographic.LexicographicalCompareTrichotomous` | simple-vector/simple_vector.h:258-261 | of two sequences, either one is less than the other or they are equal |
| `Lexicographic.DivergesAtTails` | simple-vector/simple_vector.h:255 | for the reference order `Precedes`: when the first elements agree, two sequences part at position k + 1 exactly when their tails part at k |
| `SimpleVectors.Reserve` | simple-vector/simple_vector.h:239-241 | the request carries exactly the requested capacity |
| `SimpleVectors.GrowthCapacity` | simple-vector/simple_vector.h:166-168 | the grown capacity max(1, 2·capacity) is always larger than the old one, so the append fits |
| `SimpleVectors.Inserted` | simple-vector/simple_vector.h:180-193 | the result of an insertion: one element longer, the value at p, the elements before p in place, the later ones one place back |
| `SimpleVectors.Removed` | simple-vector/simple_vector.h:215-223 | the result of an erasure: one element shorter, the elements before p in place, the later ones one place forward |
| `SimpleVectors.RemovedInserted` | simple-vector/simple_vector.h:180-223 | erasing at the position of an insertion gives back the original sequence |
| `SimpleVectors.SimpleVector.constructor` | simple-vector/simple_vector.h:28 | empty, capacity 0 |
| `SimpleVectors.SimpleVector.Sized` | simple-vector/simple_vector.h:30-32 | size = capacity = n, every element value-initialised |
| `SimpleVectors.SimpleVector.WithReserve` | simple-vector/simple_vector.h:34-36 | size 0, capacity n, all n slots value-initialised |
| `SimpleVectors.SimpleVector.Filled` | simple-vector/simple_vector.h:38-42 | size = capacity = n, every element equal to the value |
| `SimpleVectors.SimpleVector.FromList` | simple-vector/simple_vector.h:44-48 | size = capacity = the list's length, the elements in list order |
| `SimpleVectors.SimpleVector.IsEmpty` | simple-vector/simple_vector.h:58-60 | true exactly when the vector has no elements |
| `SimpleVectors.SimpleVector.Get` | simple-vector/simple_vector.h:62-68 | unchecked read below the size: yields element `index` and changes nothing |
| `SimpleVectors.SimpleVector.Set` | simple-vector/simple_vector.h:62-64 | writing through `operator[]` replaces exactly slot `index` of the buffer; every other slot, live or spare, is unchanged |
| `SimpleVectors.SimpleVector.At` | simple-vector/simple_vector.h:70-82 | throws out_of_range exactly when index >= size, otherwise yields element `index`; the vector does not change |
| `SimpleVectors.SimpleVector.Clear` | simple-vector/simple_vector.h:84-86 | no elements; capacity and buffer unchanged |
| `SimpleVectors.SimpleVector.Resize` | simple-vector/simple_vector.h:88-102 | size becomes n; shrinking keeps the first n elements and the capacity; growing within the capacity appends value-initialised elements in place, keeping the same buffer; growing beyond it sets the capacity to exactly n and keeps the old elements before the value-initialised ones |
| `SimpleVectors.SimpleVector.CopyAsWritten` | simple-vector/simple_vector.h:128-134 | the copy has the original's size, capacity and elements, over a buffer of only `size` slots; it is backed exactly when the original had no spare capacity |
| `SimpleVectors.SimpleVector.Copy` | simple-vector/simple_vector.h:128-134 | the copy has the original's size, capacity and elements, over a fresh buffer of `capacity` slots |
| `SimpleVectors.SimpleVector.CopyAssign` | simple-vector/simple_vector.h:136-143 | this vector takes the size, capacity and elements of rhs, over a fresh backed buffer unless rhs is this vector; rhs is unchanged |
| `SimpleVectors.SimpleVector.Moved` | simple-vector/simple_vector.h:145-149 | takes over the source's buffer, size and capacity without copying; the source is left empty with capacity 0 |
| `SimpleVectors.SimpleVector.MoveAssign` | simple-vector/simple_vector.h:151-158 | this vector takes over rhs's buffer, size and capacity; rhs is left empty with capacity 0 unless it is this vector |
| `SimpleVectors.SimpleVector.Swap` | simple-vector/simple_vector.h:160-164 | size, capacity and buffer are exchanged; no element changes |
| `SimpleVectors.SimpleVector.PushBack` | simple-vector/simple_vector.h:166-178 | the elements become the old ones followed by the item; capacity becomes max(1, 2·capacity) when the vector was full and is otherwise unchanged, with the same buffer |
| `SimpleVectors.SimpleVector.Insert` | simple-vector/simple_vector.h:180-208 | for pos <= size, the elements become old[..pos] + [value] + old[pos..] and pos is returned; the capacity grows to max(1, 2·capacity) only when size == capacity, and otherwise the same buffer is kept |
| `SimpleVectors.SimpleVector.ShiftAndPlace` | simple-vector/simple_vector.h:182-186 | the in-place part of Insert: same buffer and capacity, the elements become the insertion result |
| `SimpleVectors.SimpleVector.PopBack` | simple-vector/simple_vector.h:210-213 | drops the last element when there is one, and does nothing on an empty vector; capacity, buffer and the remaining elements are unchanged |
| `SimpleVectors.SimpleVector.Erase` | simple-vector/simple_vector.h:215-223 | for pos < size, the elements become old[..pos] + old[pos+1..] and pos is returned; pos >= size throws overflow_error and leaves the vector unchanged; capacity and buffer never change |
| `SimpleVectors.SimpleVector.Reserve` | simple-vector/simple_vector.h:225-236 | a no-op when the request does not exceed the capacity; otherwise the capacity becomes exactly the request, over a fresh buffer that holds the same elements in order followed by value-initialised slots; the size is unchanged |
| `SimpleVectors.Equal` | simple-vector/simple_vector.h:243-246 | `==` holds exactly when the two vectors hold the same elements in the same order |
| `SimpleVectors.NotEqual` | simple-vector/simple_vector.h:248-251 | `!=` holds exactly when the element sequences differ |
| `SimpleVectors.Less` | simple-vector/simple_vector.h:253-256 | `<` holds exactly when lhs's elements precede rhs's in lexicographic order |
| `SimpleVectors.LessOrEqual` | simple-vector/simple_vector.h:258-261 | `<=`, written as !(lhs > rhs), holds exactly when lhs precedes rhs or they are equal |
| `SimpleVectors.Greater` | simple-vector/simple_vector.h:263-266 | `>` holds exactly when rhs's elements precede lhs's |
| `SimpleVectors.GreaterOrEqual` | simple-vector/simple_vector.h:268-271 | `>=`, written as rhs <= lhs, holds exactly when rhs precedes lhs or they are equal |
| `Scenarios.InsertThenErase` | simple-vector/simple_vector.h:180-223 | Insert at pos followed by Erase at the returned position leaves the elements as they were |
| `Scenarios.PushBackThenPopBack` | simple-vector/simple_vector.h:166-213 | PushBack followed by PopBack leaves the size and all elements as they were |
| `Scenarios.AppendAfterReserve` | simple-vector/simple_vector.h:166-171 | after Reserve(n), n appends never reallocate: the capacity stays n and the elements are the appended ones |
| `Scenarios.CopyIsIndependent` | simple-vector/simple_vector.h:128-134 | a copy compares equal to its original, and appending to the copy leaves the original unchanged |
| `Scenarios.InsertEraseExample` | simple-vector/simple_vector.h:180-223 | on {1, 2, 3}, Insert(1, 9) gives {1, 9, 2, 3} and Erase(1) gives {1, 2, 3} |
| `Scenarios.GrowthExample` | simple-vector/simple_vector.h:166-171 | after Reserve(4), four appends keep capacity 4 and the fifth doubles it to 8 |
| `Scenarios.AtExample` | simple-vector/simple_vector.h:70-75 | At(5) on three elements throws out_of_range |
| `Scenarios.ResizeExample` | simple-vector/simple_vector.h:88-102 | Resize(2) on five elements keeps the first two and capacity 5; Resize(5) then brings back value-initialised elements, not the old ones |
| `Findings.CopyOfReservedVector` | simple-vector/simple_vector.h:128-134 | copying `SimpleVector(Reserve(4))` as written gives capacity 4 over a buffer of 0 slots, so the next PushBack would write past the buffer |
| `Findings.MoveForwardOverlapping` | simple-vector/simple_vector.h:183 | the forward std::move into an overlapping destination, performed element by element, leaves every slot of [lo, hi] holding the old a[lo] |
| `Findings.InsertShiftAsWritten` | simple-vector/simple_vector.h:180-193 | inserting 9 at the front of {1, 2, 3} with the shift as written gives {9, 1, 1, 1}, not the insertion result |
| `Findings.SizeAfterEraseAsWritten` | simple-vector/simple_vector.h:215-223 | as written, Erase throws exactly when pos > size, and otherwise decrements the size_t size, which wraps from 0 to SIZE_MAX |
| `Findings.EraseAtEndAccepted` | simple-vector/simple_vector.h:217-221 | the guard as written accepts pos == size, and on an empty vector it leaves size SIZE_MAX |
| `Findings.EraseAtEndCorrected` | simple-vector/simple_vector.h:215-223 | with the corrected guard, Erase at pos == size throws overflow_error and leaves the vector unchanged, also on an empty vector |

## Left out

- Heap allocation and release are left out. This covers `new[]`, `delete[]`, both destructors and allocation failure. Dafny arrays are garbage-collected, so a new buffer is just a fresh array.
- Iterators are left out. Raw-pointer iterators (`begin`, `end`, `cbegin`, `cend`) and their pointer arithmetic are replaced by indices. `Insert` and `Erase` take the position as an index.
- A position before `begin()` is not modelled, because positions are natural numbers.
- Duplicate overloads are modelled once each. The const `operator[]` and `At` read the same element as the non-const ones. The rvalue `PushBack` and `Insert` behave like the const-reference ones for `int`.
- Writing through the reference that `At` returns is not modelled separately. After the bounds check it is `Set`.
- `GetSize` and `GetCapacity` are not separate members. They are the fields `size` and `capacity`.
- `ArrayPtr`'s deleted copy constructor and copy assignment are left out, because they are compile-time only.
- The by-value return type of the vector's move assignment is left out. The method changes the two vectors and returns nothing.
- The vector holds its buffer as an `array<int>` field rather than through an `ArrayPtr` object. The buffer swaps in the copy, move and `Reserve` code are reassignments of `buf`. A null buffer, as in a default-constructed vector, is an array of length 0.
- The element type is fixed to `int`, with `Type{}` equal to 0. The comparisons use `int`'s `<`.
- `GrowthCapacity`: `capacity_ * 2` is computed on unbounded naturals. The `size_t` wrap-around would need a capacity of 2^63 slots, which no allocation can provide.
- `SimpleVectors.SimpleVector.PushBack`, `Insert` and `Resize` require only that the slot they write into `[size, capacity)` lies inside the buffer. Under `Backed()` this always holds. Only a vector copied by the copy constructor as written can violate it.
- `SimpleVectors.SimpleVector.Insert` models the order-preserving shift with a backward loop (`Algorithms.MoveRight`), not the forward `std::move` into an overlapping range (see Findings).
- `SimpleVectors.SimpleVector.Erase` rejects `pos >= size`, not only `pos > size` (see Findings).
- `SimpleVectors.SimpleVector.CopyAssign` builds its copy with the corrected copy constructor `Copy` (see Findings). The source's `operator=` builds its temporary with the faulty copy constructor (simple_vector.h:140). So `a = b`, where `b` has spare capacity, leaves `a` with a capacity that its buffer does not have.
- `SimpleVectors.SimpleVector.PushBack` takes the element by value. The source takes `const Type&` (simple_vector.h:166). When that reference points into the vector's own full buffer, `Reserve` frees the old block (simple_vector.h:235, array_ptr.h:32-35) before `my_vector_[size_++] = item` reads it (simple_vector.h:170), e.g. `v = {1}; v.PushBack(v[0])`. That read is undefined, and the model does not capture it.
- `SimpleVectors.SimpleVector.Insert` takes the element by value. The source takes `const Type&` (simple_vector.h:180). When that reference points into the vector's own buffer, the outcome differs. With spare capacity the tail is shifted (simple_vector.h:183) before `value` is read (simple_vector.h:184), so `{1, 2, 3}` with a spare slot and `Insert(begin(), v[1])` gives `{1, 1, 2, 3}`, while the model's `Insert(0, 2)` gives `{2, 1, 2, 3}`. On a full vector `value` is read after `Reserve` has freed the old block (simple_vector.h:188-191), which is undefined. The model does not capture aliasing between the argument and the buffer.

## Findings

| source | as written | input that shows it | evidently intended | confidence | as-written member | corrected member |
|---|---|---|---|---|---|---|
| simple-vector/simple_vector.h:128-134 | the copy constructor copies `capacity_` but allocates only `other.size_` slots | copy `SimpleVector(Reserve(4))`: capacity 4 over 0 slots, then `PushBack(1)` skips the reserve and writes slot 0 past the buffer; `operator=` builds its temporary with the same constructor (:140), so `a = b` with spare capacity in `b` has the same fault | allocate `other.capacity_` slots, or set the copy's capacity to its size | not executed | `Findings.CopyOfReservedVector` | `SimpleVectors.SimpleVector.Copy` |
| simple-vector/simple_vector.h:183 | Insert shifts the tail right with forward `std::move` into a destination that starts inside the source range; the C++ standard forbids that overlap, and an element-by-element forward move copies the first element over the whole tail (the same call is at :189, :198, :204) | {1, 2, 3} with one spare slot, `Insert(begin(), 9)`: {9, 1, 1, 1} instead of {9, 1, 2, 3}; for `int` the library may lower the call to `memmove`, which gives the intended result | an order-preserving right shift (`std::move_backward`) | not executed; depends on how the library lowers the call | `Findings.InsertShiftAsWritten` | `Algorithms.MoveRight` |
| simple-vector/simple_vector.h:217 | Erase rejects only `n_pos > size_`, so `n_pos == size_` goes on to a reversed move range and `--size_` | `Erase(begin())` on an empty vector: accepted, and the size wraps to SIZE_MAX | reject every position that holds no element (`n_pos >= size_`) with overflow_error | not executed | `Findings.EraseAtEndAccepted` | `SimpleVectors.SimpleVector.Erase` |
