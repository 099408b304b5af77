/**
 * The growable vector of unsigned 64-bit integers whose interface is declared
 * in src/include/vector.h (and whose function bodies src/vector.c leaves to be
 * written).
 *
 * A vector owns a buffer of `size` cells, of which the first `length` hold the
 * inserted items; when the buffer is full, Append enlarges it by exactly
 * `allocStep` cells.  Every operation is a free-standing member taking a
 * possibly-null vector, as the C functions take a possibly-NULL pointer, and a
 * null vector is answered with the same sentinel or "nothing done" the C
 * interface promises.  Length is a function; the other operations are
 * methods.  Remove, Fill and IndexOf are proved against the specification
 * functions RemoveAt, Filled and FirstIndexFrom; the others state their
 * results on Contents() directly.  The outcome of each heap allocation is a
 * boolean parameter (two for Create and Copy, one for Append), so both the
 * success and the failure path are part of the model.
 */
module Vectors {
  import opened Wrappers

  /** Vector_DataType_t, that is uint64_t. */
  newtype DataType = x: int | 0 <= x < 0x1_0000_0000_0000_0000

  /** SIZE_MAX on a 64-bit target: the "invalid length" and "invalid position" answer. */
  const SizeMax: nat := 0xFFFF_FFFF_FFFF_FFFF

  /** sizeof(Vector_DataType_t). */
  const CellBytes: nat := 8

  /** The largest cell count whose byte size still fits in a size_t. */
  const MaxCells: nat := SizeMax / CellBytes

  /** Vector_t.  The pointer `next` is represented by the index `length`. */
  class Vector {
    /** The buffer; null when nothing is allocated (after Clear). */
    var items: array?<DataType>
    /** The number of allocated cells. */
    var size: nat
    /** The number of inserted items, `next - items`. */
    var length: nat
    /** The number of cells added whenever the buffer has run full. */
    var allocStep: nat

    /** The representation invariant: 0 <= length <= size, and size is the buffer's cell count. */
    ghost predicate Valid()
      reads this
    {
      && length <= size <= MaxCells
      && (items == null ==> size == 0)
      && (items != null ==> items.Length == size)
    }

    /** The inserted items, in order; cells from `length` on are not part of it. */
    ghost function Contents(): (s: seq<DataType>)
      reads this, items
      requires Valid()
      ensures |s| == length
    {
      if items == null then [] else items[..length]
    }

    /** The freshly allocated structure with a buffer of `initialSize` cells and no items. */
    constructor (initialSize: nat, allocStep: nat)
      requires initialSize <= MaxCells
      ensures Valid() && items != null && fresh(items)
      ensures size == initialSize && length == 0 && this.allocStep == allocStep
    {
      items := new DataType[initialSize];
      size := initialSize;
      length := 0;
      this.allocStep := allocStep;
    }
  }

  /** The buffer of `v`, as a frame. */
  ghost function Buffer(v: Vector?): set<object>
    reads v
  {
    if v == null || v.items == null then {} else {v.items}
  }

  /** The structure and the buffer of `v`, as a frame. */
  ghost function Footprint(v: Vector?): set<object>
    reads v
  {
    (if v == null then {} else {v}) + Buffer(v)
  }

  /** Whether an Append on `v` can store its value: there is a free cell, or the buffer can grow. */
  ghost predicate AppendSucceeds(v: Vector, allocOk: bool)
    reads v
  {
    v.length < v.size || (v.allocStep > 0 && v.size + v.allocStep <= MaxCells && allocOk)
  }

  // ---------------------------------------------------------------------------
  // Specification functions on the item sequence

  /** The items left after deleting the one at `position`: the later ones move one place left. */
  function RemoveAt(s: seq<DataType>, position: nat): (r: seq<DataType>)
    requires position < |s|
    ensures |r| == |s| - 1
    ensures forall k :: 0 <= k < position ==> r[k] == s[k]
    ensures forall k :: position <= k < |r| ==> r[k] == s[k + 1]
  {
    s[..position] + s[position + 1..]
  }

  /**
   * The items after overwriting positions start, start + 1, ... with `x`,
   * stopping after `end` or at the last item, whichever comes first.
   */
  function Filled(s: seq<DataType>, x: DataType, start: nat, end: nat): (r: seq<DataType>)
    ensures |r| == |s|
    ensures forall k :: 0 <= k < |s| ==> r[k] == if start <= k <= end then x else s[k]
    decreases |s| - start
  {
    if start >= |s| || end < start then s else Filled(s[start := x], x, start + 1, end)
  }

  /** The first position at or after `from` that holds `x`, or SizeMax when there is none. */
  function FirstIndexFrom(s: seq<DataType>, x: DataType, from: nat): (r: nat)
    ensures r == SizeMax || (from <= r < |s| && s[r] == x)
    decreases |s| - from
  {
    if from >= |s| then SizeMax
    else if s[from] == x then from
    else FirstIndexFrom(s, x, from + 1)
  }

  // ---------------------------------------------------------------------------
  // The operations of src/include/vector.h

  /** Vector_Create: a vector with `initialSize` cells, no items and the given step, or null. */
  method Create(initialSize: nat, allocStep: nat, structOk: bool, itemsOk: bool) returns (v: Vector?)
    ensures v != null <==> structOk && itemsOk && initialSize <= MaxCells
    ensures v != null ==> fresh(v) && v.items != null && fresh(v.items) && v.Valid()
    ensures v != null ==> v.size == initialSize && v.Contents() == [] && v.allocStep == allocStep
  {
    // A buffer of more than MaxCells cells has a byte size no size_t can hold,
    // so its allocation fails whatever the allocator would do; the structure
    // allocated before it is released again.
    if !structOk || initialSize > MaxCells || !itemsOk {
      return null;
    }
    v := new Vector(initialSize, allocStep);
  }

  /** Vector_Copy: an independent vector with the same size, step and items, or null. */
  method Copy(original: Vector?, structOk: bool, itemsOk: bool) returns (c: Vector?)
    requires original != null ==> original.Valid()
    ensures c != null <==> original != null && structOk && itemsOk
    ensures c != null ==> fresh(c) && c.items != null && fresh(c.items) && c.Valid()
    ensures c != null ==> c.Contents() == original.Contents()
    ensures c != null ==> c.size == original.size && c.allocStep == original.allocStep
  {
    if original == null || !structOk || !itemsOk {
      return null;
    }
    c := new Vector(original.size, original.allocStep);
    var i := 0;
    while i < original.length
      invariant i <= original.length
      invariant forall k :: 0 <= k < i ==> c.items[k] == original.items[k]
      modifies c.items
    {
      c.items[i] := original.items[i];
      i := i + 1;
    }
    c.length := original.length;
  }

  /** Vector_Clear: releases the buffer; size and length become 0, the step is kept. */
  method Clear(v: Vector?)
    requires v != null ==> v.Valid()
    modifies v
    ensures v != null ==> v.Valid() && v.items == null && v.size == 0 && v.Contents() == []
    ensures v != null ==> v.allocStep == old(v.allocStep)
  {
    if v != null {
      v.items := null;
      v.size := 0;
      v.length := 0;
    }
  }

  /** Vector_Length: the number of inserted items, or SizeMax for a null vector. */
  function Length(v: Vector?): (n: nat)
    reads v
    requires v != null ==> v.Valid()
    ensures v == null <==> n == SizeMax
    ensures v != null ==> n <= v.size
  {
    if v == null then SizeMax else v.length
  }

  /**
   * Vector_At.  `value` is the output slot: None for a NULL pointer, otherwise
   * what it holds before the call; `written` is what it holds afterwards.
   */
  method At(v: Vector?, position: nat, value: Option<DataType>) returns (found: bool, written: Option<DataType>)
    requires v != null ==> v.Valid()
    ensures found <==> v != null && value.Some? && position < |v.Contents()|
    ensures found ==> written == Some(v.Contents()[position])
    ensures !found ==> written == value
  {
    if v == null || value.None? || position >= v.length {
      return false, value;
    }
    return true, Some(v.items[position]);
  }

  /** Vector_Remove: deletes the item at `position`, moving the later ones one cell left. */
  method Remove(v: Vector?, position: nat) returns (ok: bool)
    requires v != null ==> v.Valid()
    modifies Footprint(v)
    ensures ok <==> v != null && position < old(v.length)
    ensures v != null ==> v.Valid() && v.items == old(v.items)
    ensures v != null ==> v.size == old(v.size) && v.allocStep == old(v.allocStep)
    ensures v != null ==> v.Contents() == if ok then RemoveAt(old(v.Contents()), position) else old(v.Contents())
  {
    if v == null || position >= v.length {
      return false;
    }
    var a := v.items;
    var i := position;
    while i + 1 < v.length
      invariant position <= i < v.length
      invariant forall k :: 0 <= k < position ==> a[k] == old(a[k])
      invariant forall k :: position <= k < i ==> a[k] == old(a[k + 1])
      invariant forall k :: i <= k < a.Length ==> a[k] == old(a[k])
      modifies a
    {
      a[i] := a[i + 1];
      i := i + 1;
    }
    v.length := v.length - 1;
    ok := true;
  }

  /**
   * Vector_Append: stores `value` after the last item and returns its index.
   * A full buffer is first enlarged by exactly allocStep cells; when that is
   * impossible (a zero step, a size no size_t can hold, or a failed
   * reallocation) the vector is left as it was and SizeMax is returned.
   */
  method Append(v: Vector?, value: DataType, allocOk: bool) returns (index: nat)
    requires v != null ==> v.Valid()
    modifies Footprint(v)
    ensures v == null ==> index == SizeMax
    ensures v != null ==> v.Valid() && v.allocStep == old(v.allocStep)
    ensures v != null ==> (index != SizeMax <==> old(AppendSucceeds(v, allocOk)))
    ensures v != null && index != SizeMax ==>
              index == old(v.length) && v.Contents() == old(v.Contents()) + [value]
    ensures v != null && index != SizeMax ==>
              v.size == if old(v.length == v.size) then old(v.size) + v.allocStep else old(v.size)
    ensures v != null && index == SizeMax ==>
              v.items == old(v.items) && v.size == old(v.size) && v.Contents() == old(v.Contents())
    ensures v != null && old(v.length < v.size) ==> v.items == old(v.items)
    ensures v != null && old(v.length == v.size) && index != SizeMax ==> fresh(v.items)
  {
    if v == null {
      return SizeMax;
    }
    if v.length == v.size {
      if v.allocStep == 0 || v.size + v.allocStep > MaxCells || !allocOk {
        return SizeMax;
      }
      // realloc: a larger buffer holding the same items.
      var grown := new DataType[v.size + v.allocStep];
      var i := 0;
      while i < v.length
        invariant i <= v.length
        invariant forall k :: 0 <= k < i ==> grown[k] == v.items[k]
        modifies grown
      {
        grown[i] := v.items[i];
        i := i + 1;
      }
      v.items := grown;
      v.size := v.size + v.allocStep;
    }
    v.items[v.length] := value;
    index := v.length;
    v.length := v.length + 1;
  }

  /** Vector_Set: overwrites the item at `position` when there is one; otherwise nothing changes. */
  method Set(v: Vector?, position: nat, value: DataType)
    requires v != null ==> v.Valid()
    modifies Buffer(v)
    ensures v != null ==> v.Valid()
    ensures v != null && position < old(v.length) ==> v.Contents() == old(v.Contents())[position := value]
    ensures v != null && position >= old(v.length) ==> v.Contents() == old(v.Contents())
    ensures v != null && v.items != null ==>
              forall k :: 0 <= k < v.size && k != position ==> v.items[k] == old(v.items[k])
    ensures v != null && v.items != null && position >= v.length ==> v.items[..] == old(v.items[..])
  {
    if v != null && position < v.length {
      v.items[position] := value;
    }
  }

  /** Vector_Contains: whether `value` is one of the items; false for a null vector. */
  method Contains(v: Vector?, value: DataType) returns (found: bool)
    requires v != null ==> v.Valid()
    ensures found <==> v != null && value in v.Contents()
  {
    if v == null {
      return false;
    }
    var i := 0;
    while i < v.length
      invariant i <= v.length
      invariant value !in v.Contents()[..i]
    {
      if v.items[i] == value {
        assert v.Contents()[i] == value;
        return true;
      }
      assert v.Contents()[..i + 1] == v.Contents()[..i] + [v.items[i]];
      i := i + 1;
    }
    assert v.Contents()[..i] == v.Contents();
    return false;
  }

  /** Vector_IndexOf: the first position at or after `from` holding `value`, or SizeMax. */
  method IndexOf(v: Vector?, value: DataType, from: nat) returns (index: nat)
    requires v != null ==> v.Valid()
    ensures index == if v == null then SizeMax else FirstIndexFrom(v.Contents(), value, from)
    ensures v != null && index != SizeMax ==>
              from <= index < |v.Contents()| && v.Contents()[index] == value
  {
    if v == null {
      return SizeMax;
    }
    var i := from;
    while i < v.length
      invariant from <= i
      invariant FirstIndexFrom(v.Contents(), value, i) == FirstIndexFrom(v.Contents(), value, from)
      decreases v.length - i
    {
      if v.items[i] == value {
        return i;
      }
      i := i + 1;
    }
    return SizeMax;
  }

  /**
   * Vector_Fill: overwrites positions start..end inclusive, clamping `end` to
   * the last item; nothing changes when `start` is past the last item.  The
   * structure itself is not written (the C argument is a const vector).
   */
  method Fill(v: Vector?, value: DataType, start: nat, end: nat)
    requires v != null ==> v.Valid()
    modifies Buffer(v)
    ensures v != null ==> v.Valid() && v.Contents() == Filled(old(v.Contents()), value, start, end)
    ensures v != null && v.items != null ==>
              forall k :: v.length <= k < v.size ==> v.items[k] == old(v.items[k])
  {
    if v == null || start >= v.length || end < start {
      return;
    }
    var last := if end < v.length then end else v.length - 1;
    var a := v.items;
    var i := start;
    while i <= last
      invariant start <= i <= last + 1
      invariant forall k :: 0 <= k < a.Length ==> a[k] == if start <= k < i then value else old(a[k])
      modifies a
    {
      a[i] := value;
      i := i + 1;
    }
  }

  /**
   * Vector_Destroy: releases the buffer and the structure; the result is the
   * new value of the caller's handle, which is always null.
   */
  method Destroy(v: Vector?) returns (handle: Vector?)
    requires v != null ==> v.Valid()
    modifies v
    ensures handle == null
    ensures v != null ==> v.Valid() && v.items == null && v.size == 0 && v.Contents() == []
  {
    Clear(v);
    handle := null;
  }
}
