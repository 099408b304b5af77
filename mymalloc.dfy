/**
 * The allocation tracker of src/mymalloc.c, with its debugging bookkeeping
 * switched on.  Every live heap block is recorded, address to byte size, in a
 * fixed hash table of HASH_TABLE_SIZE buckets keyed by `address mod 101`; each
 * bucket is a chain of records with the newest first.  A running total of the
 * bytes attributed to live blocks is kept beside it.
 *
 * Addresses are natural numbers, with 0 as NULL.  What the underlying malloc
 * and realloc answer is a parameter of each operation, so every outcome the C
 * library may produce is covered.  The chains are modelled as sequences of
 * records, head first.
 */
module AllocTracker {
  import opened Wrappers

  /** HASH_TABLE_SIZE: the number of buckets, a prime. */
  const HashTableSize: nat := 101

  /** A block address; Null is the NULL pointer. */
  type Address = nat

  const Null: Address := 0

  /** What deleteNode answers for an absent key: (unsigned int)-1. */
  const MissingData: nat := 0xFFFF_FFFF

  /** tHTableNode without its link: a block address and the size recorded for it. */
  datatype Node = Node(key: Address, data: nat)

  /** hashFn: the bucket of a key, its residue modulo HASH_TABLE_SIZE. */
  function HashFn(key: Address): (index: nat)
    ensures index < HashTableSize
    ensures key < HashTableSize ==> index == key
  {
    key % HashTableSize
  }

  // ---------------------------------------------------------------------------
  // Specification functions on chains and tables

  /** The position of the first record of `chain` with key `key`, if any. */
  function Find(chain: seq<Node>, key: Address): (r: Option<nat>)
    ensures r.Some? ==> r.value < |chain| && chain[r.value].key == key
    ensures r.Some? ==> forall j :: 0 <= j < r.value ==> chain[j].key != key
    ensures r.None? ==> forall j :: 0 <= j < |chain| ==> chain[j].key != key
  {
    if chain == [] then None
    else if chain[0].key == key then Some(0)
    else match Find(chain[1..], key)
      case None => None
      case Some(i) => Some(i + 1)
  }

  /**
   * The size a chain records for `key`, as the walk of findNode answers it:
   * nothing exactly when no record has the key, and otherwise the size of a
   * record with that key (the first one).
   */
  function ChainLookup(chain: seq<Node>, key: Address): (r: Option<nat>)
    ensures r.None? <==> forall j :: 0 <= j < |chain| ==> chain[j].key != key
    ensures r.Some? ==> exists j :: 0 <= j < |chain| && chain[j] == Node(key, r.value)
  {
    if chain == [] then None
    else if chain[0].key == key then Some(chain[0].data)
    else ChainLookup(chain[1..], key)
  }

  /** At most one record per address. */
  ghost predicate UniqueKeys(chain: seq<Node>)
  {
    forall i, j :: 0 <= i < j < |chain| ==> chain[i].key != chain[j].key
  }

  /** The bytes recorded in a chain. */
  ghost function ChainSum(chain: seq<Node>): int
  {
    if chain == [] then 0 else chain[0].data + ChainSum(chain[1..])
  }

  /** The bytes recorded in a whole table. */
  ghost function TableSum(table: seq<seq<Node>>): int
  {
    if table == [] then 0 else ChainSum(table[0]) + TableSum(table[1..])
  }

  /** The branch of myRealloc's bookkeeping. */
  datatype ReallocOutcome = SameBlock | FreshBlock | MovedBlock | Failed

  /**
   * The branch myRealloc takes, with its conditions tested in the source's
   * order: same pointer first, then NULL input, then any non-NULL answer.
   */
  function ReallocCaseAsWritten(ptr: Address, result: Address): (c: ReallocOutcome)
    ensures c == SameBlock <==> result == ptr
    ensures c == Failed <==> result == Null && ptr != Null
  {
    if result == ptr then SameBlock
    else if ptr == Null && result != Null then FreshBlock
    else if result != Null then MovedBlock
    else Failed
  }

  /**
   * The branch realloc's answer calls for: a NULL answer is a failure that
   * leaves everything as it was, even when the input pointer was NULL too.
   */
  function ReallocCase(ptr: Address, result: Address): (c: ReallocOutcome)
    ensures c == Failed <==> result == Null
    ensures c == FreshBlock <==> ptr == Null && result != Null
    ensures c == SameBlock <==> ptr != Null && result == ptr
    ensures c == MovedBlock <==> ptr != Null && result != Null && result != ptr
  {
    if result == Null then Failed
    else if ptr == Null then FreshBlock
    else if result == ptr then SameBlock
    else MovedBlock
  }

  /**
   * The size insertHTableNode stores for a block of `size` bytes: tHTableData
   * is unsigned int, so the size is cut to 32 bits.
   */
  function StoredSizeAsWritten(size: nat): (stored: nat)
    ensures stored < 0x1_0000_0000
    ensures size < 0x1_0000_0000 ==> stored == size
  {
    size % 0x1_0000_0000
  }

  // ---------------------------------------------------------------------------
  // Lemmas on chains and tables

  lemma {:induction false} ChainSumConcat(a: seq<Node>, b: seq<Node>)
    ensures ChainSum(a + b) == ChainSum(a) + ChainSum(b)
  {
    if a == [] {
      assert a + b == b;
    } else {
      assert (a + b)[1..] == a[1..] + b;
      ChainSumConcat(a[1..], b);
    }
  }

  /** Unlinking the record at `i` takes exactly its size out of the chain's total. */
  lemma {:induction false} ChainSumRemove(chain: seq<Node>, i: nat)
    requires i < |chain|
    ensures ChainSum(chain[..i] + chain[i + 1..]) == ChainSum(chain) - chain[i].data
  {
    assert chain == chain[..i] + ([chain[i]] + chain[i + 1..]);
    ChainSumConcat(chain[..i], [chain[i]] + chain[i + 1..]);
    ChainSumConcat(chain[..i], chain[i + 1..]);
    assert ([chain[i]] + chain[i + 1..])[1..] == chain[i + 1..];
  }

  /** Overwriting the record at `i` changes the chain's total by the difference of the sizes. */
  lemma {:induction false} ChainSumReplace(chain: seq<Node>, i: nat, n: Node)
    requires i < |chain|
    ensures ChainSum(chain[i := n]) == ChainSum(chain) - chain[i].data + n.data
  {
    var updated := chain[i := n];
    assert updated == chain[..i] + ([n] + chain[i + 1..]);
    assert chain == chain[..i] + ([chain[i]] + chain[i + 1..]);
    ChainSumConcat(chain[..i], [n] + chain[i + 1..]);
    ChainSumConcat(chain[..i], [chain[i]] + chain[i + 1..]);
    assert ([n] + chain[i + 1..])[1..] == chain[i + 1..];
    assert ([chain[i]] + chain[i + 1..])[1..] == chain[i + 1..];
  }

  /** Replacing one bucket changes the table's total by the difference of the two chains' totals. */
  lemma {:induction false} TableSumUpdate(table: seq<seq<Node>>, b: nat, chain: seq<Node>)
    requires b < |table|
    ensures TableSum(table[b := chain]) == TableSum(table) - ChainSum(table[b]) + ChainSum(chain)
  {
    if b == 0 {
      assert table[b := chain][1..] == table[1..];
    } else {
      assert table[b := chain][1..] == table[1..][b - 1 := chain];
      TableSumUpdate(table[1..], b - 1, chain);
    }
  }

  /** A table of empty buckets records nothing. */
  lemma {:induction false} TableSumEmpty(table: seq<seq<Node>>)
    requires forall b :: 0 <= b < |table| ==> table[b] == []
    ensures TableSum(table) == 0
  {
    if table != [] {
      TableSumEmpty(table[1..]);
    }
  }

  /** The position Find reports is the record ChainLookup reads. */
  lemma {:induction false} FindAgreesWithLookup(chain: seq<Node>, key: Address)
    ensures Find(chain, key).None? <==> ChainLookup(chain, key).None?
    ensures Find(chain, key).Some? ==> ChainLookup(chain, key) == Some(chain[Find(chain, key).value].data)
  {
    if chain != [] && chain[0].key != key {
      FindAgreesWithLookup(chain[1..], key);
    }
  }

  /** Head insertion: the new record answers for its key and hides nothing else. */
  lemma ChainLookupPrepend(chain: seq<Node>, n: Node, key: Address)
    ensures ChainLookup([n] + chain, key) == if n.key == key then Some(n.data) else ChainLookup(chain, key)
  {
  }

  /** Unlinking a record of another key changes no answer for `key`. */
  lemma {:induction false} ChainLookupRemoveOther(chain: seq<Node>, i: nat, key: Address)
    requires i < |chain| && chain[i].key != key
    ensures ChainLookup(chain[..i] + chain[i + 1..], key) == ChainLookup(chain, key)
  {
    if i > 0 {
      var rest := chain[1..];
      assert chain[..i] + chain[i + 1..] == [chain[0]] + (rest[..i - 1] + rest[i..]);
      ChainLookupPrepend(rest[..i - 1] + rest[i..], chain[0], key);
      if chain[0].key != key {
        ChainLookupRemoveOther(rest, i - 1, key);
      }
    } else {
      assert chain[..i] + chain[i + 1..] == chain[1..];
    }
  }

  /** Overwriting a record of another key changes no answer for `key`. */
  lemma {:induction false} ChainLookupReplaceOther(chain: seq<Node>, i: nat, n: Node, key: Address)
    requires i < |chain| && chain[i].key != key && n.key != key
    ensures ChainLookup(chain[i := n], key) == ChainLookup(chain, key)
  {
    if i > 0 {
      assert chain[i := n][1..] == chain[1..][i - 1 := n];
      ChainLookupReplaceOther(chain[1..], i - 1, n, key);
    } else {
      assert chain[i := n][1..] == chain[1..];
    }
  }

  /** After unlinking the only record of a key, nothing is recorded for it. */
  lemma RemoveUniqueLeavesNothing(chain: seq<Node>, i: nat)
    requires UniqueKeys(chain) && i < |chain|
    ensures ChainLookup(chain[..i] + chain[i + 1..], chain[i].key) == None
    ensures UniqueKeys(chain[..i] + chain[i + 1..])
  {
  }

  // ---------------------------------------------------------------------------
  // The tracker's state and operations

  class Tracker {
    /** hashTable: bucket b holds the chain of records whose key hashes to b, newest first. */
    var hashTable: array<seq<Node>>
    /** alokaceCelkem: the running total of bytes attributed to live blocks. */
    var total: int

    /** The table has HASH_TABLE_SIZE buckets and every record sits in the bucket of its key. */
    ghost predicate Valid()
      reads this, hashTable
    {
      && hashTable.Length == HashTableSize
      && forall b, j :: 0 <= b < hashTable.Length && 0 <= j < |hashTable[b]| ==> HashFn(hashTable[b][j].key) == b
    }

    /** The size recorded for a block, if it is tracked: the answer of the walk along its bucket. */
    ghost function Lookup(key: Address): Option<nat>
      reads this, hashTable
      requires Valid()
    {
      ChainLookup(hashTable[HashFn(key)], key)
    }

    /**
     * Only the key's own bucket is searched, yet the answer is nothing exactly
     * when no bucket of the table holds a record for the key.
     */
    lemma LookupSearchesWholeTable(key: Address)
      requires Valid()
      ensures Lookup(key).None? <==>
                forall b, j :: 0 <= b < hashTable.Length && 0 <= j < |hashTable[b]| ==> hashTable[b][j].key != key
    {
    }

    /**
     * The bookkeeping invariant: at most one record per address, no record
     * for NULL, and the total is the sum of the recorded sizes.
     */
    ghost predicate Consistent()
      reads this, hashTable
    {
      && Valid()
      && (forall b :: 0 <= b < hashTable.Length ==> UniqueKeys(hashTable[b]))
      && Lookup(Null) == None
      && total == TableSum(hashTable[..])
    }

    /** The zero-initialised global state: empty buckets and a zero total. */
    constructor ()
      ensures Consistent() && fresh(hashTable)
      ensures forall b :: 0 <= b < HashTableSize ==> hashTable[b] == []
      ensures total == 0
    {
      hashTable := new seq<Node>[HashTableSize](_ => []);
      total := 0;
      new;
      TableSumEmpty(hashTable[..]);
    }

    /** insertHTableNode: puts the record (key, data) at the head of the key's bucket. */
    method InsertNode(key: Address, data: nat)
      requires Valid()
      modifies hashTable
      ensures Valid()
      ensures hashTable[..] == old(hashTable[..])[HashFn(key) := [Node(key, data)] + old(hashTable[HashFn(key)])]
    {
      var index := HashFn(key);
      hashTable[index] := [Node(key, data)] + hashTable[index];
    }

    /**
     * deleteNode: unlinks the first record with key `key` and answers its
     * size; the other records keep their order.  For an absent key nothing
     * changes and the answer is (unsigned int)-1, with `found` false.
     */
    method DeleteNode(key: Address) returns (found: bool, data: nat)
      requires Valid()
      modifies hashTable
      ensures Valid()
      ensures found == Find(old(hashTable[HashFn(key)]), key).Some?
      ensures found ==> var chain, i := old(hashTable[HashFn(key)]), Find(old(hashTable[HashFn(key)]), key).value;
                data == chain[i].data &&
                hashTable[..] == old(hashTable[..])[HashFn(key) := chain[..i] + chain[i + 1..]]
      ensures !found ==> data == MissingData && hashTable[..] == old(hashTable[..])
    {
      var index := HashFn(key);
      var chain := hashTable[index];
      var act := 0;
      while act < |chain| && chain[act].key != key
        invariant act <= |chain|
        invariant forall j :: 0 <= j < act ==> chain[j].key != key
      {
        act := act + 1;
      }
      if act == |chain| {
        return false, MissingData;
      }
      hashTable[index] := chain[..act] + chain[act + 1..];
      found, data := true, chain[act].data;
      forall j | 0 <= j < |hashTable[index]|
        ensures HashFn(hashTable[index][j].key) == index
      {
        assert hashTable[index][j] == if j < act then chain[j] else chain[j + 1];
      }
    }

    /** findNode: the size recorded for a tracked key. */
    method FindNode(key: Address) returns (data: nat)
      requires Valid() && Lookup(key).Some?
      ensures Lookup(key) == Some(data)
    {
      var chain := hashTable[HashFn(key)];
      var uk := 0;
      FindAgreesWithLookup(chain, key);
      while uk < |chain| && chain[uk].key != key
        invariant uk <= |chain|
        invariant forall j :: 0 <= j < uk ==> chain[j].key != key
      {
        uk := uk + 1;
      }
      data := chain[uk].data;
    }

    /**
     * findNodeDataRef: where the size of a tracked key is stored, as the
     * bucket and the position of its record in the chain.
     */
    method FindNodeDataRef(key: Address) returns (bucket: nat, position: nat)
      requires Valid() && Lookup(key).Some?
      ensures bucket == HashFn(key) && Find(hashTable[bucket], key) == Some(position)
      ensures Lookup(key) == Some(hashTable[bucket][position].data)
    {
      bucket := HashFn(key);
      var chain := hashTable[bucket];
      FindAgreesWithLookup(chain, key);
      position := 0;
      while position < |chain| && chain[position].key != key
        invariant position <= |chain|
        invariant forall j :: 0 <= j < position ==> chain[j].key != key
      {
        position := position + 1;
      }
    }

    /**
     * myMalloc: `block` is what malloc answered.  A non-NULL block is recorded
     * with its size at the head of its bucket and the total rises by `size`;
     * for NULL nothing is recorded.  A block malloc hands out is not live, so
     * it is not tracked yet.
     */
    method MyMalloc(size: nat, block: Address) returns (p: Address)
      requires Consistent()
      requires block != Null ==> Lookup(block).None?
      modifies this, hashTable
      ensures Consistent() && hashTable == old(hashTable) && p == block
      ensures block == Null ==> total == old(total) && hashTable[..] == old(hashTable[..])
      ensures block != Null ==> total == old(total) + size
      ensures block != Null ==>
                hashTable[..] == old(hashTable[..])[HashFn(block) := [Node(block, size)] + old(hashTable[HashFn(block)])]
      ensures block != Null ==> Lookup(block) == Some(size)
      ensures forall k :: k != block ==> Lookup(k) == old(Lookup(k))
    {
      p := block;
      if block != Null {
        ghost var before := hashTable[..];
        ghost var h := HashFn(block);
        InsertNode(block, size);
        total := total + size;
        TableSumUpdate(before, h, hashTable[h]);
        LookupAfterInsert(before, block, size);
        UniqueAfterInsert(before[h], block, size);
      }
    }

    /**
     * myFree: for NULL nothing changes; otherwise the block's record is
     * removed and its recorded size taken off the total.  The block must be
     * tracked.
     */
    method MyFree(block: Address)
      requires Consistent()
      requires block != Null ==> Lookup(block).Some?
      modifies this, hashTable
      ensures Consistent() && hashTable == old(hashTable)
      ensures block == Null ==> total == old(total) && hashTable[..] == old(hashTable[..])
      ensures block != Null ==> total == old(total) - old(Lookup(block)).value && Lookup(block) == None
      ensures forall k :: k != block ==> Lookup(k) == old(Lookup(k))
    {
      if block != Null {
        ghost var before := hashTable[..];
        ghost var h := HashFn(block);
        FindAgreesWithLookup(before[h], block);
        var found, size := DeleteNode(block);
        total := total - size;
        ghost var i := Find(before[h], block).value;
        ChainSumRemove(before[h], i);
        TableSumUpdate(before, h, hashTable[h]);
        RemoveUniqueLeavesNothing(before[h], i);
        LookupAfterRemove(before, block, i);
      }
    }

    /**
     * myRealloc: `result` is what realloc answered for (ptr, newSize).  The
     * bookkeeping follows ReallocCase: the same block has its record resized
     * in place; a fresh block (ptr NULL) is recorded; a moved block has the
     * old record removed and a new one recorded; a failure changes nothing.
     * In the first and third case the total moves by newSize minus the old
     * recorded size, which is negative when the block shrank.
     */
    method MyRealloc(ptr: Address, newSize: nat, result: Address) returns (p: Address)
      requires Consistent()
      requires ptr != Null ==> Lookup(ptr).Some?
      requires result != Null && result != ptr ==> Lookup(result).None?
      modifies this, hashTable
      ensures Consistent() && hashTable == old(hashTable) && p == result
      ensures ReallocCase(ptr, result) == Failed ==>
                total == old(total) && hashTable[..] == old(hashTable[..])
      ensures ReallocCase(ptr, result) == SameBlock ==>
                total == old(total) + newSize - old(Lookup(ptr)).value && Lookup(ptr) == Some(newSize)
      ensures ReallocCase(ptr, result) == FreshBlock ==>
                total == old(total) + newSize && Lookup(result) == Some(newSize)
      ensures ReallocCase(ptr, result) == MovedBlock ==>
                total == old(total) + newSize - old(Lookup(ptr)).value &&
                Lookup(ptr) == None && Lookup(result) == Some(newSize)
      ensures forall k :: k != ptr && k != result ==> Lookup(k) == old(Lookup(k))
    {
      p := result;
      match ReallocCase(ptr, result)
      case Failed =>
      case SameBlock =>
        var bucket, position := FindNodeDataRef(ptr);
        ghost var before := hashTable[..];
        var chain := hashTable[bucket];
        total := total + newSize - chain[position].data;
        hashTable[bucket] := chain[position := Node(ptr, newSize)];
        ChainSumReplace(chain, position, Node(ptr, newSize));
        TableSumUpdate(before, bucket, hashTable[bucket]);
        LookupAfterResize(before, ptr, position, newSize);
      case FreshBlock =>
        p := MyMalloc(newSize, result);
      case MovedBlock =>
        MyFree(ptr);
        p := MyMalloc(newSize, result);
    }

    /**
     * The bookkeeping a malloc followed by the free of the same block leaves:
     * exactly what it was before.
     */
    method MallocThenFree(size: nat, block: Address)
      requires Consistent() && block != Null && Lookup(block).None?
      modifies this, hashTable
      ensures Consistent() && hashTable == old(hashTable)
      ensures total == old(total)
      ensures forall k :: Lookup(k) == old(Lookup(k))
    {
      var p := MyMalloc(size, block);
      MyFree(p);
    }

    /**
     * A malloc followed by the free of the same block as the source keeps the
     * books: the record holds the size cut to 32 bits while the total adds the
     * full size, and the free takes off only what the record holds.
     */
    method MallocThenFreeAsWritten(size: nat, block: Address)
      requires Valid() && block != Null && Lookup(block).None?
      modifies this, hashTable
      ensures Valid()
      ensures total == old(total) + size - StoredSizeAsWritten(size)
    {
      InsertNode(block, StoredSizeAsWritten(size));
      total := total + size;
      var _, data := DeleteNode(block);
      total := total - data;
    }

    // -------------------------------------------------------------------------
    // Preservation lemmas for the table

    /** After head insertion of (key, data), only key's answer changes. */
    lemma LookupAfterInsert(before: seq<seq<Node>>, key: Address, data: nat)
      requires Valid() && |before| == HashTableSize
      requires hashTable[..] == before[HashFn(key) := [Node(key, data)] + before[HashFn(key)]]
      ensures Lookup(key) == Some(data)
      ensures forall k :: k != key ==> Lookup(k) == ChainLookup(before[HashFn(k)], k)
    {
    }

    /** Inserting an absent key keeps the keys of a chain unique. */
    static lemma UniqueAfterInsert(chain: seq<Node>, key: Address, data: nat)
      requires UniqueKeys(chain) && ChainLookup(chain, key) == None
      ensures UniqueKeys([Node(key, data)] + chain)
    {
      FindAgreesWithLookup(chain, key);
    }

    /** After unlinking the record of `key` at position i, only key's answer changes. */
    lemma LookupAfterRemove(before: seq<seq<Node>>, key: Address, i: nat)
      requires Valid() && |before| == HashTableSize
      requires i < |before[HashFn(key)]| && before[HashFn(key)][i].key == key
      requires hashTable[..] == before[HashFn(key) := before[HashFn(key)][..i] + before[HashFn(key)][i + 1..]]
      ensures forall k :: k != key ==> Lookup(k) == ChainLookup(before[HashFn(k)], k)
    {
      var h := HashFn(key);
      forall k | k != key
        ensures Lookup(k) == ChainLookup(before[HashFn(k)], k)
      {
        if HashFn(k) == h {
          ChainLookupRemoveOther(before[h], i, k);
        }
      }
    }

    /** After resizing the record of `key` at position i, key answers the new size and nothing else changes. */
    lemma LookupAfterResize(before: seq<seq<Node>>, key: Address, i: nat, newSize: nat)
      requires Valid() && |before| == HashTableSize
      requires Find(before[HashFn(key)], key) == Some(i)
      requires hashTable[..] == before[HashFn(key) := before[HashFn(key)][i := Node(key, newSize)]]
      ensures Lookup(key) == Some(newSize)
      ensures forall k :: k != key ==> Lookup(k) == ChainLookup(before[HashFn(k)], k)
    {
      var h := HashFn(key);
      var chain := before[h];
      var updated := hashTable[h];
      assert updated[i].key == key;
      assert forall j :: 0 <= j < i ==> updated[j] == chain[j];
      assert Find(updated, key) == Some(i);
      FindAgreesWithLookup(updated, key);
      forall k | k != key
        ensures Lookup(k) == ChainLookup(before[HashFn(k)], k)
      {
        if HashFn(k) == h {
          ChainLookupReplaceOther(chain, i, Node(key, newSize), k);
        }
      }
    }
  }

  // ---------------------------------------------------------------------------
  // Properties of the model, and the two places where the source departs from it

  /**
   * The source's branch order and ReallocCase differ exactly when a realloc of
   * NULL fails: the source then takes the same-pointer branch.
   */
  lemma ReallocBranchOrderDiffers(ptr: Address, result: Address)
    ensures ReallocCaseAsWritten(ptr, result) != ReallocCase(ptr, result) <==> ptr == Null && result == Null
  {
  }

  /**
   * In that case the source looks up the size of NULL (findNodeDataRef), and
   * a consistent tracker has no record for it: the lookup runs off the end of
   * the chain and dereferences a NULL node.
   */
  lemma NullReallocFailureLooksUpNull(t: Tracker)
    requires t.Consistent()
    ensures ReallocCaseAsWritten(Null, Null) == SameBlock && ReallocCase(Null, Null) == Failed
    ensures t.Lookup(Null) == None
  {
  }

  /**
   * A block of 4 GiB allocated and freed again on a fresh tracker, as the
   * source keeps the books: 4 GiB stay in the total although no block is live.
   */
  method TruncatedSizeUnbalancesTotal() returns (leftover: int)
    ensures leftover == 0x1_0000_0000
  {
    var t := new Tracker();
    t.MallocThenFreeAsWritten(0x1_0000_0000, 1);
    leftover := t.total;
  }
}
