# AADS Vectors: a verified model of the growable vector and the allocation tracker

This project models two sequential components of the AADS_Vectors repository in Dafny and proves their
properties.

**The growable vector of `uint64_t` items**, with the interface of `src/include/vector.h`.
- A `Vector_t` owns a buffer of `size` cells. The first `length` cells (`next - items` in C) hold the
  inserted items.
- When the buffer is full, `Vector_Append` enlarges it by exactly `alloc_step` cells.
- The model is the class `Vectors.Vector`:
  - an `array?` buffer, which is null after Clear;
  - the explicit fields `size`, `length` and `allocStep`;
  - a representation invariant `Valid()`;
  - the ghost item sequence `Contents()`.
- Every operation takes a possibly-null vector, as the C functions take a possibly-NULL pointer.
  `Length` is a function; the other operations are methods.
- Remove, Fill and IndexOf are proved against the specification functions `RemoveAt`, `Filled` and
  `FirstIndexFrom`. The properties of those functions are lemmas in `VectorProperties`.
- The other operations state their results on `Contents()` directly.
- The older interface of `src/vector.h` counts free cells instead of keeping `next`. `LegacyVectors`
  models it as the same state read through `free_cells = size - length`.
- `VectorScenarios` restates the unit tests as methods whose postconditions are the tested values.
  - Those in `tests/tests.cpp` exercise the newer interface.
  - Those in `tests/tests.c` exercise the older interface.

**The allocation tracker of `src/mymalloc.c`**, with its `DEBUG` bookkeeping on.
- Every live block is recorded, address to byte size, in a table of 101 buckets indexed by
  `address mod 101`. Each bucket is a chain of records with the newest at the head.
- The running total `alokaceCelkem` sits beside the table.
- The class `AllocTracker.Tracker` keeps the table as an `array` of chains, each chain a sequence of
  records.
- The invariant `Consistent()` holds:
  - every record sits in its key's bucket;
  - there is at most one record per address;
  - NULL has no record;
  - the total equals the sum of the recorded sizes.
- `myMalloc`, `myFree` and `myRealloc` preserve this invariant. The proofs use
  - lemmas about the sums of chains and tables;
  - lemmas saying which address's looked-up size each chain edit changes.

In both components, whatever the C library's `malloc` or `realloc` answers is a parameter of the method.
The vector takes boolean "allocation succeeds" parameters: two for Create and Copy (the structure and
the buffer), one for Append. The tracker takes the returned address.

`src/vector.c` is a skeleton: every body returns NULL, false or SIZE_MAX. The vector operations therefore
follow the contracts documented in `src/include/vector.h` and the values the unit tests check, not the
skeleton's bodies.

## Model

| member | source | states |
|---|---|---|
| Vectors.Vector.Valid | src/include/vector.h:34-46 | the representation invariant: length <= size <= SIZE_MAX / 8, the buffer has exactly `size` cells, and a NULL buffer has size 0 |
| Vectors.Vector.Contents | src/include/vector.h:34-46 | the items are the first `length` cells of the buffer, so length counts inserted items, never more than the allocated `size` |
| Vectors.Vector.constructor | src/include/vector.h:61-74 | a structure with a fresh buffer of `initialSize` cells, no items and the given step |
| Vectors.RemoveAt | src/include/vector.h:114-125 | removal keeps the items before `position`, moves every later item one place left, and is one item shorter |
| Vectors.Filled | src/include/vector.h:168-182 | a fill overwrites exactly the positions from `start` to `end` inclusive that hold an item, keeps every other item, and never changes the length |
| Vectors.FirstIndexFrom | src/include/vector.h:156-166 | the search answer is SIZE_MAX or a position at or after `from`, inside the items, that holds the value |
| Vectors.Create | src/include/vector.h:61-74 | the result is non-null exactly when both allocations succeed and the byte size of `initialSize` cells fits a size_t; it is then fresh, with `initialSize` cells, no items and the step |
| Vectors.Copy | src/include/vector.h:76-84 | the copy is null exactly for a null original or a failed allocation; otherwise it is fresh, has its own buffer, the same items, the same size and the same step |
| Vectors.Clear | src/include/vector.h:86-92 | the buffer is NULL, size and length 0, no items, and the step unchanged; a null vector is left alone |
| Vectors.Length | src/include/vector.h:94-101 | SIZE_MAX exactly for a null vector; otherwise the number of items, at most the allocated size |
| Vectors.At | src/include/vector.h:103-112 | true exactly when the vector, the output slot and the position are valid; then the slot receives the item, otherwise the slot is unchanged |
| Vectors.Remove | src/include/vector.h:114-125 | true exactly for a non-null vector and a position below the length; then the items become RemoveAt of the old items; buffer, size and step stay; otherwise nothing changes |
| Vectors.Append | src/include/vector.h:127-135 | the answer is the old length exactly when there was a free cell or the buffer could grow, and SIZE_MAX otherwise; on success the value is appended, and a full buffer grew by exactly `allocStep` cells; on failure nothing changes |
| Vectors.Set | src/include/vector.h:137-144 | below the length the item at `position` becomes the value and every other cell is kept; at or past the length nothing changes, not even the cell behind the last item |
| Vectors.Contains | src/include/vector.h:146-154 | true exactly for a non-null vector whose items include the value |
| Vectors.IndexOf | src/include/vector.h:156-166 | SIZE_MAX for a null vector, otherwise the first position at or after `from` holding the value, or SIZE_MAX when none does |
| Vectors.Fill | src/include/vector.h:168-182 | the items become Filled of the old items (end clamped to the last item); the length stays, and no cell past the length changes |
| Vectors.Destroy | src/include/vector.h:184-189 | the structure is cleared and the caller's handle becomes null |
| VectorProperties.FirstIndexFromIsFirst | src/include/vector.h:156-166 | the found position is the first match at or after `from`, and SIZE_MAX is answered exactly when nothing from `from` on matches |
| VectorProperties.ContainsIffFoundFromZero | src/include/vector.h:146-166 | Contains and IndexOf from 0 agree: a value is an item exactly when the search from 0 finds it |
| VectorProperties.FirstIndexFromPastEnd | tests/tests.cpp:240-243 | a search starting behind the last item answers SIZE_MAX |
| VectorProperties.RemoveAtKeepsOthers | src/include/vector.h:114-125 | removal deletes one occurrence of the removed item and keeps every other item (as multisets) |
| VectorProperties.RemoveAtUndoesAppend | src/include/vector.h:114-135 | removing the last item undoes an append |
| VectorProperties.FilledOutsideIsNoOp | src/include/vector.h:168-182 | a start behind the last item, or an empty range, changes nothing |
| VectorProperties.FilledClampsEnd | src/include/vector.h:168-182 | an end behind the last item acts as the last item |
| VectorProperties.FilledIdempotent | src/include/vector.h:168-182 | filling a range twice with one value equals filling it once |
| VectorProperties.FilledSingleIsSet | src/include/vector.h:137-182 | a one-position fill of an existing item is a Set of that position |
| LegacyVectors.FreeCells | src/vector.h:15-20 | free_cells is read as size - length, hence free_cells <= size and length = size - free_cells in every valid state |
| LegacyVectors.NullLengthIsUint64Max | src/vector.h:49-55 | the length of a null vector is UINT64_MAX |
| LegacyVectors.Create | src/vector.h:23-31 | as Create, with a 32-bit step; all `initialSize` cells are free |
| LegacyVectors.Append | src/vector.h:74-79 | on success the value is appended and one free cell is used up, after a growth by the step when none was free; on failure nothing changes |
| VectorScenarios.ThreeItems | tests/tests.cpp:38-53 | the full-vector fixture: Create(10, 100) and three appends give the items 123, 321, 123 in 10 cells with step 100 |
| VectorScenarios.OneToTen | tests/tests.cpp:253-255 | the set-up of the fill tests: appending 1..10 to Create(10, 100) gives the items 1..10 in 10 cells |
| VectorScenarios.CreateSmallVector | tests/tests.cpp:59-67 | Create(10, 100) has size 10, no items and step 100 |
| VectorScenarios.CreateBiggestInitialSize | tests/tests.cpp:69-74 | Create(SIZE_MAX, 100) is null whatever the allocator answers |
| VectorScenarios.DestroyVector | tests/tests.cpp:76-82 | Destroy leaves the handle null |
| VectorScenarios.CopyVector | tests/tests.cpp:84-97 | the copy of 123, 321, 123 has the same step and size, its own buffer and the items 123, 321, 123 |
| VectorScenarios.CopyVectorNull | tests/tests.cpp:99-103 | Copy(NULL) is null |
| VectorScenarios.ClearVector | tests/tests.cpp:105-112 | after Clear the step is 100, the size 0, the buffer NULL and the length 0 |
| VectorScenarios.AppendMultipleItems | tests/tests.cpp:126-137 | appending 0..19 to Create(10, 100) stores them in order, and the size is then 110 |
| VectorScenarios.LegacyAppendMultipleItems | tests/tests.c:81-91 | the same 20 appends through the older interface give size 110, 90 free cells, and item i equal to i |
| VectorScenarios.InsertThreeItems | tests/tests.cpp:169-180 | a fresh vector has length 0; three appends answer 0, 1, 2, and the length is then 3 |
| VectorScenarios.GetElement | tests/tests.cpp:144-167 | At(1) reads 321; At out of bounds is false and leaves the slot at 1; no slot, or no vector, gives false |
| VectorScenarios.RemoveFirstItem | tests/tests.cpp:187-208 | Remove(0) on 123, 321, 123 succeeds, leaves 2 items with 321 first and moves `next` back by one; Remove(3) and Remove(NULL) fail |
| VectorScenarios.LegacyRemove | tests/tests.c:120-135 | after Remove(0), Remove(2) fails and the items are 321, 123 |
| VectorScenarios.SearchThreeItems | tests/tests.cpp:210-248 | Contains finds 123, not 111, nothing in NULL; IndexOf(123, 0) = 0, IndexOf(123, 1) = 2, and a missing value, an offset behind the items or NULL give SIZE_MAX |
| VectorScenarios.FillTests | tests/tests.cpp:250-316 | Fill(54321, 0, 4) changes only positions 0-4; ends 10 and 100 cover all ten items; start 50 changes nothing; the length stays 10 |
| VectorScenarios.SetTests | tests/tests.cpp:323-342 | Set(1, 0) is read back by At; Set one past the only item keeps that item and the cell behind it |
| VectorScenarios.LegacyClearVector | tests/tests.c:60-69 | after the older Clear the step is 100, size and free_cells are 0 and the buffer is NULL |
| VectorScenarios.LegacyCopyVector | tests/tests.c:40-53 | the older Copy keeps the step, free_cells, size and the used prefix of the items |
| AllocTracker.HashFn | src/mymalloc.c:14-35 | the bucket is always a valid index below 101, and a key below 101 is its own bucket |
| AllocTracker.ChainLookup | src/mymalloc.c:100-109 | what the findNode walk answers: nothing exactly when no record of the chain has the key, otherwise the size of a record with that key |
| AllocTracker.Find | src/mymalloc.c:77-80 | the chain walk stops at the first record with the key, or finds none when no record has it |
| AllocTracker.FindAgreesWithLookup | src/mymalloc.c:100-120 | the record the walk stops at is the record whose size a lookup answers, and the walk fails exactly when there is nothing to look up |
| AllocTracker.StoredSizeAsWritten | src/mymalloc.c:16-22 | the size stored in a record is cut to 32 bits; sizes below 2^32 are kept |
| AllocTracker.ReallocCaseAsWritten | src/mymalloc.c:165-185 | the source's branch order: the same-pointer branch is taken whenever the answer equals the input, NULL included |
| AllocTracker.ReallocCase | src/mymalloc.c:159-188 | the four outcomes of realloc: failure exactly for a NULL answer, a fresh block for a NULL input, the same block, or a moved block |
| AllocTracker.ChainSumConcat | src/mymalloc.c:127-189 | the bytes recorded in two chains joined are the sum of their bytes |
| AllocTracker.ChainSumRemove | src/mymalloc.c:86-93 | unlinking a record takes exactly its size out of the chain's total |
| AllocTracker.ChainSumReplace | src/mymalloc.c:165-175 | resizing a record changes the chain's total by the new size minus the old one |
| AllocTracker.TableSumUpdate | src/mymalloc.c:127-189 | replacing one bucket changes the table's total by the difference of the two chains' totals |
| AllocTracker.TableSumEmpty | src/mymalloc.c:27 | a table of empty buckets records no bytes |
| AllocTracker.ChainLookupPrepend | src/mymalloc.c:41-60 | after head insertion the new record answers for its key and every other key answers as before |
| AllocTracker.ChainLookupRemoveOther | src/mymalloc.c:68-94 | unlinking a record of another key changes no key's answer |
| AllocTracker.ChainLookupReplaceOther | src/mymalloc.c:165-175 | overwriting a record of another key changes no key's answer |
| AllocTracker.RemoveUniqueLeavesNothing | src/mymalloc.c:68-94 | with at most one record per address, unlinking it leaves no record for the address and keeps the keys unique |
| AllocTracker.Tracker.Valid | src/mymalloc.c:14-27 | the table has 101 buckets and every record sits in the bucket hashFn gives its key |
| AllocTracker.Tracker.Lookup | src/mymalloc.c:100-109 | the size recorded for an address is the answer of the walk along its own bucket |
| AllocTracker.Tracker.LookupSearchesWholeTable | src/mymalloc.c:100-109 | searching only the key's bucket is enough: nothing is recorded exactly when no bucket holds a record for the key |
| AllocTracker.Tracker.Consistent | src/mymalloc.c:27-189 | the bookkeeping invariant: records placed by hashFn, at most one record per address, none for NULL, and the total equal to the sum of the recorded sizes |
| AllocTracker.Tracker.constructor | src/mymalloc.c:27-127 | the zero-initialised globals: all buckets empty, total 0, consistent |
| AllocTracker.Tracker.InsertNode | src/mymalloc.c:41-60 | the record (key, data) is put at the head of bucket hashFn(key), the old chain follows unchanged, and all other buckets are unchanged |
| AllocTracker.Tracker.DeleteNode | src/mymalloc.c:68-94 | the first record with the key is unlinked and its size answered, and the rest keep their order; for an absent key the answer is (unsigned)-1 and nothing changes |
| AllocTracker.Tracker.FindNode | src/mymalloc.c:100-109 | for a tracked key, the size recorded for it |
| AllocTracker.Tracker.FindNodeDataRef | src/mymalloc.c:111-120 | for a tracked key, the bucket and position of the record holding its size |
| AllocTracker.Tracker.MyMalloc | src/mymalloc.c:127-141 | a non-NULL block is recorded with its size at the head of its bucket and the total rises by the size; for NULL nothing changes; no other address's record changes; consistency is kept |
| AllocTracker.Tracker.MyFree | src/mymalloc.c:143-156 | for NULL nothing changes; otherwise the block's record is gone and the total falls by its recorded size; no other address's record changes; consistency is kept |
| AllocTracker.Tracker.MyRealloc | src/mymalloc.c:159-189 | same block: its size becomes newSize and the total moves by newSize - oldSize; fresh block: recorded, total up by newSize; moved block: old record gone, new one recorded, total moves by newSize - oldSize; failure: nothing changes; other addresses keep their records; consistency is kept |
| AllocTracker.Tracker.MallocThenFreeAsWritten | src/mymalloc.c:127-156 | with the record holding the size cut to 32 bits, a malloc and the free of that block leave total = old total + size - (size mod 2^32) |
| AllocTracker.Tracker.MallocThenFree | src/mymalloc.c:127-156 | allocating a block and freeing it again restores the total and every address's record |
| AllocTracker.Tracker.LookupAfterInsert | src/mymalloc.c:41-60 | after insertion only the inserted key's answer changes, to the new size |
| AllocTracker.Tracker.UniqueAfterInsert | src/mymalloc.c:41-60 | inserting an untracked address keeps at most one record per address |
| AllocTracker.Tracker.LookupAfterRemove | src/mymalloc.c:68-94 | after deleting a key, every other key answers as before |
| AllocTracker.Tracker.LookupAfterResize | src/mymalloc.c:165-175 | after resizing a record in place, its key answers the new size and every other key answers as before |
| AllocTracker.ReallocBranchOrderDiffers | src/mymalloc.c:165-185 | the source's branch order and the intended outcome differ exactly when a realloc of NULL fails |
| AllocTracker.NullReallocFailureLooksUpNull | src/mymalloc.c:165-166 | in that case the source takes the same-pointer branch and looks up NULL, which a consistent tracker never records |
| AllocTracker.TruncatedSizeUnbalancesTotal | src/mymalloc.c:127-156 | on a fresh tracker, allocating a block of 2^32 bytes and freeing it as the source does leaves 2^32 in the total |

## Left out

- Terminal I/O, the interactive programs and all `printf` diagnostics: they do not affect the state.
- The `DEBUG` switch: only the debug-on bookkeeping is modelled. With it off, the three functions only pass through to the C library and keep no state.
- The real heap: `malloc`, `realloc` and `free` are not modelled. Their answers are parameters, and releasing memory is not observable in the model.
- The `exit(1)` when a chain node cannot be allocated: node allocation always succeeds in the model.
- Node identity: chains are value sequences, so the model does not capture aliasing of nodes or pointers into them. `findNodeDataRef` answers a bucket and a position instead of a pointer, and `myRealloc` updates the record through them.
- Pointer arithmetic: `next` is the index `length`, and addresses are natural numbers with 0 as NULL.
- Vectors.Create: a request whose byte size overflows a size_t (more than SIZE_MAX / 8 cells) is refused, which is how Create(SIZE_MAX, 100) becomes NULL. Any other failure comes from the allocation parameters alone.
- Vectors.Append: growth fails when the step is 0 or the grown byte size would overflow a size_t. These bounds are sentinels, not 64-bit wrap-around arithmetic.
- Vectors.Destroy: it takes the vector and returns the new handle. The case where the address of the handle is itself NULL is not modelled.
- LegacyVectors.Append: the 32-bit width of the older step is kept only in LegacyVectors.Create's parameter type.
- AllocTracker.Tracker.FindNode: the key must be tracked. The source runs off the end of the chain and dereferences NULL for a missing key.
- AllocTracker.Tracker.FindNodeDataRef: the key must be tracked, for the same reason.
- AllocTracker.Tracker.MyFree: a non-NULL block must be tracked. For an untracked block the source subtracts (unsigned)-1 from the total.
- AllocTracker.Tracker.MyRealloc: a non-NULL input must be tracked, and a moved-to block must be untracked, as the C library guarantees for a live block.
- AllocTracker.Tracker.MyMalloc: a block malloc answers must not be tracked already, as the C library guarantees for a fresh block.
- AllocTracker.Tracker.MyRealloc: the total is an unbounded integer. The source's `size_t` difference that wraps around and converts back to `long` is not modelled; on usual targets it gives the same value.
- AllocTracker.Tracker.MyRealloc: `realloc(ptr, 0)` freeing the block and answering NULL is treated as a failure. The record stays, as in the source.
- Recorded sizes: the corrected model stores the full size (see Findings). The 32-bit cut is modelled only by AllocTracker.StoredSizeAsWritten and AllocTracker.Tracker.MallocThenFreeAsWritten.
- The declarations in `src/mymalloc.h` and `src/include/mymalloc.h` (`long` and `size_t` size parameters) are not part of this model.
- The vector does not allocate through the tracker. The two components are modelled independently.

## Findings

| source | as written | input that shows it | evidently intended | confidence | as-written member | corrected member |
|---|---|---|---|---|---|---|
| src/mymalloc.c:165 | the first test is `tPtr == ptr`, so a failed realloc of NULL takes the same-pointer branch and looks up the record of NULL through findNodeDataRef | myRealloc(NULL, n) where realloc answers NULL | a NULL answer is a failure that changes nothing (the other branches exclude it) | not executed; high | AllocTracker.ReallocCaseAsWritten | AllocTracker.ReallocCase |
| src/mymalloc.c:16 | records store sizes as `unsigned int`, while the total adds and subtracts sizes of type long or size_t | myMalloc(4294967296) succeeding, then myFree of that block: the record holds 0, so 2^32 bytes stay in the total | a record holds the full size, so freeing a block takes off exactly what its allocation added | not executed; medium | AllocTracker.Tracker.MallocThenFreeAsWritten | AllocTracker.Tracker.MallocThenFree |

The counterexamples are AllocTracker.NullReallocFailureLooksUpNull and AllocTracker.TruncatedSizeUnbalancesTotal; the second runs AllocTracker.Tracker.MallocThenFreeAsWritten on a block of 2^32 bytes. AllocTracker.ReallocBranchOrderDiffers shows that the two branch orders agree on every other input.
