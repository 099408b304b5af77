/**
 * The older vector interface of src/vector.h.  Its structure counts the unused
 * cells (`free_cells`) instead of pointing at the next free one, takes a 32-bit
 * allocation step, answers UINT64_MAX for a null vector and returns nothing
 * from Append.  It is the same abstract state as the Vectors model under the
 * rule length = size - free_cells.
 */
module LegacyVectors {
  import Vectors

  /** uint32_t, the type of the older alloc_step. */
  newtype Uint32 = x: int | 0 <= x < 0x1_0000_0000

  /** UINT64_MAX, the older "invalid" answer. */
  const Uint64Max: nat := 0xFFFF_FFFF_FFFF_FFFF

  /** Vector_t.free_cells: the cells of the buffer that hold no item. */
  function FreeCells(v: Vectors.Vector): (free: nat)
    reads v
    requires v.Valid()
    ensures free <= v.size
    ensures Vectors.Length(v) == v.size - free
  {
    v.size - v.length
  }

  /** The null-vector answer of the older Vector_Length is the same number as SIZE_MAX. */
  lemma NullLengthIsUint64Max()
    ensures Vectors.Length(null) == Uint64Max
  {
  }

  /** Vector_Create of the older interface: a 32-bit step, and no cell is free yet but all of them. */
  method Create(initialSize: nat, allocStep: Uint32, structOk: bool, itemsOk: bool) returns (v: Vectors.Vector?)
    ensures v != null <==> structOk && itemsOk && initialSize <= Vectors.MaxCells
    ensures v != null ==> fresh(v) && v.items != null && fresh(v.items) && v.Valid()
    ensures v != null ==> v.size == initialSize && FreeCells(v) == initialSize
    ensures v != null ==> v.Contents() == [] && v.allocStep == allocStep as nat
  {
    v := Vectors.Create(initialSize, allocStep as nat, structOk, itemsOk);
  }

  /**
   * Vector_Append of the older interface: the same growth policy, no result.
   * A successful append uses up one free cell (after the growth, if any).
   */
  method Append(v: Vectors.Vector?, value: Vectors.DataType, allocOk: bool)
    requires v != null ==> v.Valid()
    modifies Vectors.Footprint(v)
    ensures v != null ==> v.Valid() && v.allocStep == old(v.allocStep)
    ensures v != null && old(Vectors.AppendSucceeds(v, allocOk)) ==>
              v.Contents() == old(v.Contents()) + [value] &&
              FreeCells(v) == (if old(v.length == v.size) then v.allocStep else old(FreeCells(v))) - 1
    ensures v != null && !old(Vectors.AppendSucceeds(v, allocOk)) ==>
              v.Contents() == old(v.Contents()) && v.size == old(v.size) && v.items == old(v.items)
    ensures v != null && v.items != old(v.items) ==> v.items != null && fresh(v.items)
  {
    var _ := Vectors.Append(v, value, allocOk);
  }
}
