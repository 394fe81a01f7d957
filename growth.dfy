/**
 * The size bookkeeping of priorityQ<Type>::insert (lander.h:215-236), cut
 * down to three numbers: the recorded capacity, the number of stored items
 * and the length of the allocated array.
 *
 * As written, a full heap allocates capacity*2 slots but leaves `capacity`
 * unchanged. While the queue only grows, `items == capacity` never holds
 * again, and the insert after 2 * capacity stored items writes past the end
 * of the doubled array. (Deletes can bring `items` back to `capacity`; the
 * next insert then reallocates another capacity*2 slots.) The corrected bookkeeping doubles
 * the recorded capacity with the array; PriorityQueues.PriorityQ follows it.
 */
module Growth {

  datatype Buffer = Buffer(capacity: nat, items: nat, length: nat)

  /** priorityQ(capacity): no items, capacity + 1 slots allocated. */
  function Fresh(capacity: nat): Buffer {
    Buffer(capacity, 0, capacity + 1)
  }

  // ---------------------------------------------------------------- as written

  /** The reallocation step of insert as written: the array doubles, `capacity` does not. */
  function AsWrittenGrow(b: Buffer): Buffer {
    if b.items == b.capacity then b.(length := b.capacity * 2) else b
  }

  /** Whether insert's store into heapArray[items] lands inside the (possibly new) array. */
  predicate AsWrittenStoreFits(b: Buffer) {
    b.items < AsWrittenGrow(b).length
  }

  function AsWrittenInsert(b: Buffer): Buffer {
    var g := AsWrittenGrow(b);
    g.(items := g.items + 1)
  }

  /** The bookkeeping after k inserts as written. */
  function AsWrittenInserts(b: Buffer, k: nat): Buffer
    decreases k
  {
    if k == 0 then b else AsWrittenInsert(AsWrittenInserts(b, k - 1))
  }

  lemma {:induction false} AsWrittenLayout(capacity: nat, k: nat)
    requires k <= 2 * capacity
    ensures AsWrittenInserts(Fresh(capacity), k)
         == Buffer(capacity, k, if k <= capacity then capacity + 1 else 2 * capacity)
    decreases k
  {
    if k > 0 {
      AsWrittenLayout(capacity, k - 1);
    }
  }

  /**
   * Starting from priorityQ(capacity), the first 2*capacity inserts store in
   * bounds and the next one stores past the end of the array (for the default
   * capacity 10: the 21st insert writes slot 20 of a 20-slot array; for
   * capacity 0 already the first insert overruns).
   */
  lemma AsWrittenOverrun(capacity: nat)
    ensures forall k :: 0 <= k < 2 * capacity ==> AsWrittenStoreFits(AsWrittenInserts(Fresh(capacity), k))
    ensures !AsWrittenStoreFits(AsWrittenInserts(Fresh(capacity), 2 * capacity))
  {
    forall k | 0 <= k < 2 * capacity
      ensures AsWrittenStoreFits(AsWrittenInserts(Fresh(capacity), k))
    {
      AsWrittenLayout(capacity, k);
    }
    AsWrittenLayout(capacity, 2 * capacity);
  }

  // ----------------------------------------------------------------- corrected

  /** Bookkeeping the heap keeps: a positive capacity that fits the array, and no more items than capacity. */
  predicate Sound(b: Buffer) {
    1 <= b.capacity <= b.length && b.items <= b.capacity
  }

  /** The reallocation step with the recorded capacity doubled along with the array. */
  function CorrectedGrow(b: Buffer): Buffer {
    if b.items == b.capacity then Buffer(b.capacity * 2, b.items, b.capacity * 2) else b
  }

  /** insert with corrected growth: the store always fits and the bookkeeping stays sound. */
  function CorrectedInsert(b: Buffer): (r: Buffer)
    requires Sound(b)
    ensures b.items < CorrectedGrow(b).length
    ensures Sound(r) && r.items == b.items + 1 && b.capacity <= r.capacity
  {
    var g := CorrectedGrow(b);
    g.(items := g.items + 1)
  }

  function CorrectedInserts(b: Buffer, k: nat): (r: Buffer)
    requires Sound(b)
    ensures Sound(r) && r.items == b.items + k
    decreases k
  {
    if k == 0 then b else CorrectedInsert(CorrectedInserts(b, k - 1))
  }

  /** With corrected growth, no number of inserts into priorityQ(capacity), capacity >= 1, ever stores out of bounds. */
  lemma {:induction false} CorrectedNeverOverruns(capacity: nat, k: nat)
    requires 1 <= capacity
    ensures CorrectedInserts(Fresh(capacity), k).items < CorrectedGrow(CorrectedInserts(Fresh(capacity), k)).length
  {
    var b := CorrectedInserts(Fresh(capacity), k);
    assert Sound(b);
  }
}
