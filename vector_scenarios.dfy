/**
 * The behaviour the unit tests of tests/tests.cpp and tests/tests.c pin down,
 * proved of the model.  Every allocation in these runs succeeds except where a
 * scenario says otherwise; each result is stated as the test states it.
 */
module VectorScenarios {
  import opened Wrappers
  import opened Vectors
  import LegacyVectors

  /** The items 0, 1, ..., n - 1. */
  function Naturals(n: nat): (s: seq<DataType>)
    requires n <= 1000
  {
    seq(n, k requires 0 <= k < n => k as DataType)
  }

  /** The fixture of the search and removal tests: Create(10, 100), then 123, 321, 123 appended. */
  method ThreeItems() returns (v: Vector)
    ensures fresh(v) && v.items != null && fresh(v.items) && v.Valid()
    ensures v.Contents() == [123, 321, 123] && v.size == 10 && v.allocStep == 100
  {
    var w := Create(10, 100, true, true);
    var _ := Append(w, 123, true);
    var _ := Append(w, 321, true);
    var _ := Append(w, 123, true);
    v := w;
  }

  /** The fixture of the fill tests: Create(10, 100), then 1, 2, ..., 10 appended. */
  method OneToTen() returns (v: Vector)
    ensures fresh(v) && v.items != null && fresh(v.items) && v.Valid()
    ensures v.Contents() == [1, 2, 3, 4, 5, 6, 7, 8, 9, 10] && v.size == 10
  {
    v := Create(10, 100, true, true);
    var i := 0;
    while i < 10
      invariant i <= 10
      invariant v.Valid() && v.items != null && fresh(v.items) && v.size == 10
      invariant v.Contents() == seq(i, k requires 0 <= k < i => (k + 1) as DataType)
    {
      var _ := Append(v, (i + 1) as DataType, true);
      i := i + 1;
    }
  }

  /** Create(10, 100): ten cells, no item, step 100. */
  method CreateSmallVector() returns (size: nat, length: nat, allocStep: nat)
    ensures size == 10 && length == 0 && allocStep == 100
  {
    var v := Create(10, 100, true, true);
    size, length, allocStep := v.size, Length(v), v.allocStep;
  }

  /** Create(SIZE_MAX, 100) is null, whatever the allocator answers. */
  method CreateBiggestInitialSize(structOk: bool, itemsOk: bool) returns (isNull: bool)
    ensures isNull
  {
    var v := Create(SizeMax, 100, structOk, itemsOk);
    isNull := v == null;
  }

  /** Destroy leaves the caller's handle null. */
  method DestroyVector() returns (isNull: bool)
    ensures isNull
  {
    var v := Create(10, 100, true, true);
    v := Destroy(v);
    isNull := v == null;
  }

  /** A copy of the three-item vector: same step and size, its own buffer, the same items. */
  method CopyVector() returns (sameStep: bool, sameSize: bool, separate: bool, copied: seq<DataType>)
    ensures sameStep && sameSize && separate && copied == [123, 321, 123]
  {
    var v := ThreeItems();
    var c := Copy(v, true, true);
    sameStep, sameSize := c.allocStep == v.allocStep, c.size == v.size;
    separate := c.items != v.items;
    copied := c.items[..Length(c)];
  }

  /** Copy(NULL) is null. */
  method CopyVectorNull(structOk: bool, itemsOk: bool) returns (isNull: bool)
    ensures isNull
  {
    var c := Copy(null, structOk, itemsOk);
    isNull := c == null;
  }

  /** Clear keeps the step 100 and leaves size 0 and no buffer. */
  method ClearVector() returns (allocStep: nat, size: nat, itemsNull: bool, length: nat)
    ensures allocStep == 100 && size == 0 && itemsNull && length == 0
  {
    var v := Create(10, 100, true, true);
    Clear(v);
    allocStep, size, itemsNull, length := v.allocStep, v.size, v.items == null, Length(v);
  }

  /** Appending 0..19 to Create(10, 100) stores them in order after exactly one growth, to 110 cells. */
  method AppendMultipleItems() returns (cells: seq<DataType>, size: nat)
    ensures cells == Naturals(20) && size == 110
  {
    var v := Create(10, 100, true, true);
    var i := 0;
    while i < 20
      invariant i <= 20
      invariant v.Valid() && v.items != null && fresh(v.items) && v.allocStep == 100
      invariant v.Contents() == Naturals(i)
      invariant v.size == if i <= 10 then 10 else 110
    {
      var _ := Append(v, i as DataType, true);
      assert Naturals(i + 1) == Naturals(i) + [i as DataType];
      i := i + 1;
    }
    cells, size := v.items[..20], v.size;
  }

  /** The older interface after the same 20 appends: 110 cells of which 90 are free, item i is i. */
  method LegacyAppendMultipleItems() returns (cells: seq<DataType>, size: nat, freeCells: nat)
    ensures cells == Naturals(20) && size == 110 && freeCells == 90
  {
    var v := LegacyVectors.Create(10, 100, true, true);
    var i := 0;
    while i < 20
      invariant i <= 20
      invariant v.Valid() && v.items != null && fresh(v.items) && v.allocStep == 100
      invariant v.Contents() == Naturals(i)
      invariant v.size == if i <= 10 then 10 else 110
    {
      LegacyVectors.Append(v, i as DataType, true);
      assert Naturals(i + 1) == Naturals(i) + [i as DataType];
      i := i + 1;
    }
    cells, size, freeCells := v.items[..20], v.size, LegacyVectors.FreeCells(v);
  }

  /** Successive appends answer 0, 1 and 2; a fresh vector has length 0 and then 3. */
  method InsertThreeItems() returns (emptyLength: nat, first: nat, second: nat, third: nat, length: nat)
    ensures emptyLength == 0 && first == 0 && second == 1 && third == 2 && length == 3
  {
    var v := Create(10, 100, true, true);
    emptyLength := Length(v);
    first := Append(v, 123, true);
    second := Append(v, 123, true);
    third := Append(v, 123, true);
    length := Length(v);
  }

  /**
   * At on the three-item vector reads 321 at position 1; out of bounds it
   * answers false and leaves the slot as it was; with no slot, or no vector,
   * it answers false.
   */
  method GetElement() returns (found: bool, value: Option<DataType>, outFound: bool, untouched: Option<DataType>,
                               noSlotFound: bool, noVectorFound: bool)
    ensures found && value == Some(321)
    ensures !outFound && untouched == Some(1)
    ensures !noSlotFound && !noVectorFound
  {
    var full := ThreeItems();
    found, value := At(full, 1, Some(0));
    var empty := Create(10, 100, true, true);
    outFound, untouched := At(empty, 5, Some(1));
    var noSlot, _ := At(empty, 5, None);
    noSlotFound := noSlot;
    var noVector, _ := At(null, 1, Some(0));
    noVectorFound := noVector;
  }

  /**
   * Removing position 0 of 123, 321, 123 succeeds, leaves 2 items with 321
   * first and moves `next` back by one; position 3 and a null vector fail.
   */
  method RemoveFirstItem() returns (ok: bool, length: nat, first: Option<DataType>, nextMoved: bool,
                                    outOfBounds: bool, noVector: bool)
    ensures ok && length == 2 && first == Some(321) && nextMoved
    ensures !outOfBounds && !noVector
  {
    var v := ThreeItems();
    var oldNext := v.length;
    ok := Remove(v, 0);
    length := Length(v);
    var _, slot := At(v, 0, Some(0));
    first := slot;
    nextMoved := v.length == oldNext - 1;
    var w := ThreeItems();
    outOfBounds := Remove(w, 3);
    noVector := Remove(null, 0);
  }

  /** The older test: after removing position 0, position 2 is out of bounds and the items are 321, 123. */
  method LegacyRemove() returns (ok: bool, secondOk: bool, items: seq<DataType>)
    ensures ok && !secondOk && items == [321, 123]
  {
    var v := ThreeItems();
    ok := Remove(v, 0);
    secondOk := Remove(v, 2);
    items := v.items[..Length(v)];
  }

  /** Contains and IndexOf on 123, 321, 123. */
  method SearchThreeItems() returns (has123: bool, has111: bool, nullHas: bool,
                                     at0: nat, at1: nat, missing: nat, behind: nat, nullIndex: nat)
    ensures has123 && !has111 && !nullHas
    ensures at0 == 0 && at1 == 2
    ensures missing == SizeMax && behind == SizeMax && nullIndex == SizeMax
  {
    var v := ThreeItems();
    has123 := Contains(v, 123);
    has111 := Contains(v, 111);
    nullHas := Contains(null, 123);
    at0 := IndexOf(v, 123, 0);
    at1 := IndexOf(v, 123, 1);
    missing := IndexOf(v, 111, 0);
    behind := IndexOf(v, 123, 10);
    nullIndex := IndexOf(null, 123, 0);
  }

  /**
   * The four fill tests, each on 1..10: positions 0-4 only; an end of 10 and
   * an end of 100 cover all ten items; a start of 50 changes nothing.  The
   * length stays 10 throughout.
   */
  method FillTests() returns (partial: seq<DataType>, whole: seq<DataType>, behind: seq<DataType>,
                              clamped: seq<DataType>, length: nat)
    ensures partial == [54321, 54321, 54321, 54321, 54321, 6, 7, 8, 9, 10]
    ensures whole == seq(10, _ => 12345)
    ensures behind == [1, 2, 3, 4, 5, 6, 7, 8, 9, 10]
    ensures clamped == seq(10, _ => 1)
    ensures length == 10
  {
    var a := OneToTen();
    Fill(a, 54321, 0, 4);
    partial := a.items[..Length(a)];
    var b := OneToTen();
    Fill(b, 12345, 0, 10);
    whole := b.items[..Length(b)];
    var c := OneToTen();
    Fill(c, 0, 50, 5);
    behind := c.items[..Length(c)];
    var d := OneToTen();
    Fill(d, 1, 0, 100);
    clamped := d.items[..Length(d)];
    length := Length(d);
  }

  /**
   * Set at position 1 of the three-item vector is read back by At; Set one
   * past the only item leaves that cell of the buffer as it was.
   */
  method SetTests() returns (readBack: Option<DataType>, kept: Option<DataType>, cellKept: bool)
    ensures readBack == Some(0) && kept == Some(1) && cellKept
  {
    var v := ThreeItems();
    Set(v, 1, 0);
    var _, slot := At(v, 1, Some(10));
    readBack := slot;
    var w := Create(10, 100, true, true);
    var index := Append(w, 1, true);
    var afterInserted := w.items[index + 1];
    Set(w, index + 1, if afterInserted == 0 then 1 else 0);
    var _, slot' := At(w, index, Some(10));
    kept := slot';
    cellKept := w.items[index + 1] == afterInserted;
  }

  /** The older Clear: the step 100 is kept, size and free_cells are 0 and there is no buffer. */
  method LegacyClearVector() returns (allocStep: nat, size: nat, freeCells: nat, itemsNull: bool)
    ensures allocStep == 100 && size == 0 && freeCells == 0 && itemsNull
  {
    var v := LegacyVectors.Create(10, 100, true, true);
    Clear(v);
    allocStep, size, freeCells, itemsNull := v.allocStep, v.size, LegacyVectors.FreeCells(v), v.items == null;
  }

  /** The older Copy of Create(10, 100): the same step, free_cells and size, and the same used prefix. */
  method LegacyCopyVector() returns (sameStep: bool, sameFree: bool, sameSize: bool, samePrefix: bool)
    ensures sameStep && sameFree && sameSize && samePrefix
  {
    var v := LegacyVectors.Create(10, 100, true, true);
    var c := Copy(v, true, true);
    sameStep, sameSize := c.allocStep == v.allocStep, c.size == v.size;
    sameFree := LegacyVectors.FreeCells(c) == LegacyVectors.FreeCells(v);
    samePrefix := c.items[..Length(c)] == v.items[..Length(v)];
  }
}
