/** queue/mutex_mpmc.go: the bounded ring under a lock. Every method runs under the mutex, so each is
    one atomic operation on the object. The cursors are uint64 words and wrap. */
module MutexMpmcs {
  import opened Arithmetic
  import opened BoundedFifo

  const BOUNDED_QUEUE_SIZE: nat := 1024

  /** The cell of the i-th element. */
  function Cell(head: nat, i: nat): (c: nat)
    ensures c < BOUNDED_QUEUE_SIZE
  {
    (head + i) % BOUNDED_QUEUE_SIZE
  }

  /** The `length` cells of the ring from the head on. */
  function Window(a: seq<Value>, head: nat, length: nat): seq<Value>
    requires |a| == BOUNDED_QUEUE_SIZE
  {
    seq(length, i requires 0 <= i => a[Cell(head, i)])
  }

  lemma WindowPush(a: seq<Value>, head: nat, length: nat, v: Value)
    requires |a| == BOUNDED_QUEUE_SIZE && length < BOUNDED_QUEUE_SIZE
    ensures Window(a[Cell(head, length) := v], head, length + 1) == Window(a, head, length) + [v]
  {
    forall i | 0 <= i < length ensures Cell(head, i) != Cell(head, length) {
      if Cell(head, i) == Cell(head, length) { SameResidue(head + i, head + length, BOUNDED_QUEUE_SIZE); }
    }
  }

  /** Moving the head on, with or without wrapping, renumbers the cells. */
  lemma NextCell(head: nat, i: nat)
    requires head < W64 && i < BOUNDED_QUEUE_SIZE - 1
    ensures Cell((head + 1) % W64, i) == Cell(head, i + 1) != Cell(head, 0)
  {
    if Cell(head, i + 1) == Cell(head, 0) { SameResidue(head, head + i + 1, BOUNDED_QUEUE_SIZE); }
    if head + 1 == W64 {
      ModAddMultiple(i, W64 / BOUNDED_QUEUE_SIZE, BOUNDED_QUEUE_SIZE);
    } else {
      DivModUnique(head + 1, W64, 0, head + 1);
    }
  }

  lemma WindowPop(a: seq<Value>, head: nat, length: nat, head': nat, z: Value)
    requires |a| == BOUNDED_QUEUE_SIZE && 0 < length <= BOUNDED_QUEUE_SIZE
    requires head < W64 && head' == (head + 1) % W64
    ensures Window(a[Cell(head, 0) := z], head', length - 1) == Window(a, head, length)[1..]
  {
    var w := Window(a[Cell(head, 0) := z], head', length - 1);
    forall i | 0 <= i < length - 1 ensures w[i] == Window(a, head, length)[i + 1] {
      NextCell(head, i);
    }
  }

  /** The count of elements, from the words, as the cursors move. */
  lemma CountMoves(tail: nat, head: nat)
    requires tail < W64 && head < W64
    ensures (tail - head) % W64 < BOUNDED_QUEUE_SIZE ==> ((tail + 1) % W64 - head) % W64 == (tail - head) % W64 + 1
    ensures (tail - head) % W64 > 0 ==> (tail - (head + 1) % W64) % W64 == (tail - head) % W64 - 1
  {
  }

  lemma TailCell(tail: nat, head: nat)
    requires tail < W64 && head < W64
    ensures Cell(head, (tail - head) % W64) == tail % BOUNDED_QUEUE_SIZE
  {
  }

  class MutexMPMC {
    const arr: array<Value>
    const zero: Value
    var tail: nat
    var head: nat

    ghost predicate Valid()
      reads this
    {
      arr.Length == BOUNDED_QUEUE_SIZE && tail < W64 && head < W64 && (tail - head) % W64 <= BOUNDED_QUEUE_SIZE
    }

    ghost function Contents(): seq<Value>
      reads this, arr
      requires Valid()
    {
      Window(arr[..], head, (tail - head) % W64)
    }

    /** NewMutexMPMC, :12-14. */
    constructor (zero: Value)
      ensures Valid() && fresh(arr) && Contents() == []
    {
      this.zero, arr, tail, head := zero, new Value[BOUNDED_QUEUE_SIZE](i => zero), 0, 0;
    }

    /** Enqueue, :16-30. */
    method Enqueue(v: Value) returns (ok: bool)
      requires Valid()
      modifies this, arr
      ensures Valid() && Contents() == Left(BOUNDED_QUEUE_SIZE, old(Contents()), Op.Enqueue(v))
      ensures (if ok then Enqueued else Refused) == Answer(BOUNDED_QUEUE_SIZE, old(Contents()), Op.Enqueue(v))
    {
      if (tail - head) % W64 == BOUNDED_QUEUE_SIZE {
        return false;
      }
      var pos := tail % BOUNDED_QUEUE_SIZE;
      CountMoves(tail, head);
      TailCell(tail, head);
      WindowPush(arr[..], head, (tail - head) % W64, v);
      ghost var a := arr[..];
      arr[pos] := v;
      assert arr[..] == a[pos := v];
      tail := (tail + 1) % W64;
      return true;
    }

    /** Dequeue, :32-48. */
    method Dequeue() returns (v: Value, ok: bool)
      requires Valid()
      modifies this, arr
      ensures Valid() && Contents() == Left(BOUNDED_QUEUE_SIZE, old(Contents()), Op.Dequeue)
      ensures (if ok then Dequeued(v) else Drained) == Answer(BOUNDED_QUEUE_SIZE, old(Contents()), Op.Dequeue)
      ensures !ok ==> v == zero
    {
      if (tail - head) % W64 == 0 {
        return zero, false;
      }
      var pos := head % BOUNDED_QUEUE_SIZE;
      CountMoves(tail, head);
      WindowPop(arr[..], head, (tail - head) % W64, (head + 1) % W64, zero);
      ghost var a := arr[..];
      v := arr[pos];
      arr[pos] := zero;
      assert arr[..] == a[pos := zero];
      head := (head + 1) % W64;
      return v, true;
    }
  }
}
