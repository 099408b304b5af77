/**
 * Properties of the specification functions the vector operations are proved
 * against: what a search answers, what a removal keeps, and how a fill is
 * bounded by the items that exist.
 */
module VectorProperties {
  import opened Vectors

  /**
   * The search answer is the FIRST match at or after `from`, and SizeMax
   * exactly when no item from `from` on equals `x`.
   */
  lemma {:induction false} FirstIndexFromIsFirst(s: seq<DataType>, x: DataType, from: nat)
    requires |s| < SizeMax
    ensures FirstIndexFrom(s, x, from) != SizeMax ==>
              forall j :: from <= j < FirstIndexFrom(s, x, from) ==> s[j] != x
    ensures FirstIndexFrom(s, x, from) == SizeMax <==> forall j :: from <= j < |s| ==> s[j] != x
    decreases |s| - from
  {
    if from < |s| && s[from] != x {
      FirstIndexFromIsFirst(s, x, from + 1);
    }
  }

  /** Contains and IndexOf from 0 agree: a value is an item exactly when the search from 0 finds it. */
  lemma {:induction false} ContainsIffFoundFromZero(s: seq<DataType>, x: DataType)
    requires |s| < SizeMax
    ensures x in s <==> FirstIndexFrom(s, x, 0) != SizeMax
  {
    FirstIndexFromIsFirst(s, x, 0);
  }

  /** A search starting past the last item finds nothing. */
  lemma FirstIndexFromPastEnd(s: seq<DataType>, x: DataType, from: nat)
    requires from >= |s|
    ensures FirstIndexFrom(s, x, from) == SizeMax
  {
  }

  /** Removal deletes exactly one occurrence of the removed item and keeps all the others. */
  lemma RemoveAtKeepsOthers(s: seq<DataType>, position: nat)
    requires position < |s|
    ensures multiset(RemoveAt(s, position)) + multiset{s[position]} == multiset(s)
  {
    assert s == s[..position] + [s[position]] + s[position + 1..];
  }

  /** Removing the last item undoes an Append. */
  lemma RemoveAtUndoesAppend(s: seq<DataType>, x: DataType)
    ensures RemoveAt(s + [x], |s|) == s
  {
  }

  /** A fill whose start is past the last item, or whose range is empty, changes nothing. */
  lemma FilledOutsideIsNoOp(s: seq<DataType>, x: DataType, start: nat, end: nat)
    requires start >= |s| || end < start
    ensures Filled(s, x, start, end) == s
  {
  }

  /** An end past the last item acts as the last item: the fill is clamped. */
  lemma FilledClampsEnd(s: seq<DataType>, x: DataType, start: nat, end: nat)
    requires 0 < |s| <= end
    ensures Filled(s, x, start, end) == Filled(s, x, start, |s| - 1)
  {
  }

  /** Filling a range twice with the same value is the same as filling it once. */
  lemma FilledIdempotent(s: seq<DataType>, x: DataType, start: nat, end: nat)
    ensures Filled(Filled(s, x, start, end), x, start, end) == Filled(s, x, start, end)
  {
  }

  /** A one-position fill is a Set of that position. */
  lemma FilledSingleIsSet(s: seq<DataType>, x: DataType, position: nat)
    requires position < |s|
    ensures Filled(s, x, position, position) == s[position := x]
  {
  }
}
