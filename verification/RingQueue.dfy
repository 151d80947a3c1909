/** syncx/channel.go: the growable ring behind OrderedChannel, and the mediator loop itself. */
module RingQueues {
  import opened Arithmetic
  import opened Bits

  type Value(==, 0, !new)

  const DEFAULT_BUFF_SIZE := 1024

  /** The ring read once around, starting at the head. */
  function Rotated(a: seq<Value>, head: nat): seq<Value>
    requires head <= |a|
  {
    a[head..] + a[..head]
  }

  /** Position i of the ring seen from the head. */
  function Cell(head: nat, i: nat, n: nat): nat {
    if head + i < n then head + i else head + i - n
  }

  /** Moving an index on by one under the mask wraps it at the end of the array. */
  lemma NextCell(i: nat, k: nat)
    requires i < Pow2(k)
    ensures And(i + 1, Pow2(k) - 1) == Cell(i, 1, Pow2(k))
  {
    MaskIsMod(i + 1, k);
    DivModUnique(i + 1, Pow2(k), if i + 1 < Pow2(k) then 0 else 1, Cell(i, 1, Pow2(k)));
  }

  /** The queue is the first `size` cells from the head on; the cells after them are zero. */
  ghost predicate Cleared(a: seq<Value>, head: nat, size: nat, z: Value)
    requires head < |a|
  {
    forall i :: size <= i < |a| ==> Rotated(a, head)[i] == z
  }

  /** Storing at the tail appends. */
  lemma RotatedPush(a: seq<Value>, head: nat, size: nat, v: Value, z: Value)
    requires head < |a| && size < |a| && Cleared(a, head, size, z)
    ensures var a' := a[Cell(head, size, |a|) := v];
            && Rotated(a', head)[..size + 1] == Rotated(a, head)[..size] + [v]
            && Cleared(a', head, size + 1, z)
    ensures Cell(Cell(head, size, |a|), 1, |a|) == Cell(head, size + 1, |a|) < |a|
  {
    var a' := a[Cell(head, size, |a|) := v];
    assert Rotated(a', head) == Rotated(a, head)[size := v];
  }

  /** Clearing the head cell and moving on drops the oldest. */
  lemma RotatedPop(a: seq<Value>, head: nat, size: nat, z: Value)
    requires head < |a| && 0 < size <= |a| && Cleared(a, head, size, z)
    ensures var a', head' := a[head := z], Cell(head, 1, |a|);
            && head' < |a| && Rotated(a', head')[..size - 1] == Rotated(a, head)[..size][1..]
            && Cleared(a', head', size - 1, z)
            && Cell(head', size - 1, |a|) == Cell(head, size, |a|)
    ensures Rotated(a, head)[..size][0] == a[head]
  {
    var a', head' := a[head := z], Cell(head, 1, |a|);
    assert Rotated(a', head') == Rotated(a, head)[1..] + [z];
  }

  /** What the fields of a RingQueue say about each other. */
  ghost predicate RingOk(a: seq<Value>, head: nat, tail: nat, size: nat, mask: nat, bits: nat, z: Value) {
    && |a| == Pow2(bits) >= DEFAULT_BUFF_SIZE && mask == |a| - 1
    && size <= |a| && head < |a| && tail == Cell(head, size, |a|) < |a|
    && Cleared(a, head, size, z)
  }

  /** The stores of :56-58. */
  lemma NewestGoesOn(a: seq<Value>, head: nat, tail: nat, size: nat, mask: nat, bits: nat, v: Value, z: Value)
    requires RingOk(a, head, tail, size, mask, bits, z) && size < |a|
    ensures RingOk(a[tail := v], head, And(tail + 1, mask), size + 1, mask, bits, z)
    ensures Rotated(a[tail := v], head)[..size + 1] == Rotated(a, head)[..size] + [v]
  {
    RotatedPush(a, head, size, v, z);
    NextCell(tail, bits);
  }

  /** The stores of :75-77. */
  lemma OldestComesOff(a: seq<Value>, head: nat, tail: nat, size: nat, mask: nat, bits: nat, z: Value)
    requires RingOk(a, head, tail, size, mask, bits, z) && size > 0
    ensures RingOk(a[head := z], And(head + 1, mask), tail, size - 1, mask, bits, z)
    ensures Rotated(a, head)[..size] == [a[head]] + Rotated(a[head := z], And(head + 1, mask))[..size - 1]
  {
    RotatedPop(a, head, size, z);
    NextCell(head, bits);
    var contents := Rotated(a, head)[..size];
    assert contents == [contents[0]] + contents[1..];
  }

  /** What Go's copy of src[lo..hi] to dst[at..] leaves in dst. */
  function Overwritten(dst: seq<Value>, at: nat, src: seq<Value>, lo: nat, hi: nat): seq<Value>
    requires lo <= hi <= |src| && at + hi - lo <= |dst|
  {
    dst[..at] + src[lo..hi] + dst[at + hi - lo..]
  }

  /** The two copies of grow unroll a ring into the first half of a blank array. */
  lemma TwoCopies(a: seq<Value>, head: nat, blank: seq<Value>, half: seq<Value>, full: seq<Value>, z: Value)
    requires head < |a| && |blank| == 2 * |a| && (forall i :: 0 <= i < |blank| ==> blank[i] == z)
    requires half == Overwritten(blank, 0, a, head, |a|)
    requires full == Overwritten(half, |a| - head, a, 0, head)
    ensures full == Rotated(a, head) + seq(|a|, i => z)
  {
    assert half == a[head..] + blank[|a| - head..];
    assert full == a[head..] + a[..head] + blank[|a|..];
    assert blank[|a|..] == seq(|a|, i => z);
  }

  class RingQueue {
    var arr: array<Value>
    var head: nat
    var tail: nat
    var size: nat
    var mask: nat
    const zero: Value

    ghost var bits: nat
    /** Pushes, and elements moved by grow, since the queue was made. */
    ghost var pushes: nat
    ghost var copies: nat

    ghost predicate Valid()
      reads this, arr
    {
      && RingOk(arr[..], head, tail, size, mask, bits, zero)
      && size <= pushes && copies == arr.Length - DEFAULT_BUFF_SIZE
      && (arr.Length > DEFAULT_BUFF_SIZE ==> arr.Length <= 2 * pushes)
    }

    ghost function Contents(): seq<Value>
      reads this, arr
      requires Valid()
    {
      Rotated(arr[..], head)[..size]
    }

    /** NewRingQueue, :43-48. */
    constructor (zero: Value)
      ensures Valid() && fresh(arr) && Contents() == [] && pushes == 0
    {
      this.zero, arr := zero, new Value[DEFAULT_BUFF_SIZE](i => zero);
      head, tail, size, mask := 0, 0, 0, DEFAULT_BUFF_SIZE - 1;
      bits, pushes, copies := 10, 0, 0;
      new;
      assert Pow2(10) == 1024;
    }

    static method Copy(dst: array<Value>, at: nat, src: array<Value>, lo: nat, hi: nat)
      requires dst != src && lo <= hi <= src.Length && at + hi - lo <= dst.Length
      modifies dst
      ensures dst[..] == Overwritten(old(dst[..]), at, src[..], lo, hi)
    {
      var i := lo;
      while i < hi
        invariant lo <= i <= hi
        invariant forall j :: at <= j < at + i - lo ==> dst[j] == src[j - at + lo]
        invariant forall j :: 0 <= j < dst.Length && !(at <= j < at + i - lo) ==> dst[j] == old(dst[j])
      {
        dst[at + i - lo] := src[i];
        i := i + 1;
      }
    }

    /** An array twice as long, with the contents of a full ring at its start: :82-85. */
    method Unroll() returns (newData: array<Value>)
      requires head == tail < arr.Length
      modifies `copies
      ensures fresh(newData) && newData.Length == 2 * arr.Length
      ensures newData[..] == Rotated(arr[..], head) + seq(arr.Length, i => zero)
      ensures copies == old(copies) + arr.Length
    {
      newData := new Value[arr.Length * 2](i => zero);
      var n := arr.Length - head;
      ghost var blank := newData[..];
      Copy(newData, 0, arr, head, arr.Length);
      ghost var half := newData[..];
      Copy(newData, n, arr, 0, tail);
      TwoCopies(arr[..], head, blank, half, newData[..], zero);
      copies := copies + n + tail;
    }

    /** grow, :81-90, which Push calls on a full ring only. */
    method Grow()
      requires Valid() && size == arr.Length
      modifies this
      ensures Valid() && fresh(arr) && size < arr.Length
      ensures Contents() == old(Contents()) && pushes == old(pushes)
    {
      var newData := Unroll();
      assert Pow2(bits + 1) == 2 * Pow2(bits);
      assert Rotated(newData[..], 0) == newData[..];
      arr, head, tail, mask, bits := newData, 0, size, newData.Length - 1, bits + 1;
    }

    /** The store of :56-58, for a ring with room. */
    method Store(v: Value)
      requires Valid() && size < arr.Length
      modifies this, arr
      ensures Valid() && arr == old(arr)
      ensures Contents() == old(Contents()) + [v]
      ensures pushes == old(pushes) + 1
    {
      ghost var a := arr[..];
      NewestGoesOn(a, head, tail, size, mask, bits, v, zero);
      arr[tail] := v;
      assert arr[..] == a[tail := v];
      tail := And(tail + 1, mask);
      size := size + 1;
      pushes := pushes + 1;
    }

    /** Push, :52-59. All copying done by grow is paid for by the pushes, at most two elements each. */
    method Push(v: Value)
      requires Valid()
      modifies this, arr
      ensures Valid() && (arr == old(arr) || fresh(arr))
      ensures Contents() == old(Contents()) + [v]
      ensures pushes == old(pushes) + 1 && copies <= 2 * pushes
    {
      if size == arr.Length {
        Grow();
      }
      Store(v);
    }

    /** Peek, :61-67. */
    method Peek() returns (v: Value, ok: bool)
      requires Valid()
      ensures ok <==> Contents() != []
      ensures v == if ok then Contents()[0] else zero
    {
      if size == 0 {
        return zero, false;
      }
      return arr[head], true;
    }

    /** The second half of Pop, :74-78, for a queue with elements. */
    method TakeOldest() returns (v: Value)
      requires Valid() && size > 0
      modifies this, arr
      ensures Valid() && arr == old(arr) && pushes == old(pushes)
      ensures old(Contents()) == [v] + Contents()
    {
      ghost var a := arr[..];
      OldestComesOff(a, head, tail, size, mask, bits, zero);
      v := arr[head];
      arr[head] := zero;
      assert arr[..] == a[head := zero];
      head := And(head + 1, mask);
      size := size - 1;
    }

    /** Pop, :69-79. */
    method Pop() returns (v: Value, ok: bool)
      requires Valid()
      modifies this, arr
      ensures Valid() && arr == old(arr) && pushes == old(pushes)
      ensures ok <==> old(Contents()) != []
      ensures v == if ok then old(Contents())[0] else zero
      ensures Contents() == if ok then old(Contents())[1..] else []
    {
      if size == 0 {
        return zero, false;
      }
      v := TakeOldest();
      return v, true;
    }
  }

  /** One pass of the mediator's select, :100-120. `receive` says which ready case is taken; with an
      empty buffer the send case is a nil channel and never ready. */
  method Select(buff: RingQueue, input: seq<Value>, got: nat, sent: seq<Value>, receive: bool)
    returns (got': nat, sent': seq<Value>, closed: bool)
    requires buff.Valid() && got <= |input| && sent + buff.Contents() == input[..got]
    modifies buff, buff.arr
    ensures buff.Valid() && (buff.arr == old(buff.arr) || fresh(buff.arr))
    ensures got <= got' <= |input| && sent' + buff.Contents() == input[..got']
    ensures closed ==> got' == |input|
    ensures !closed ==> got' > got || (got' == got && |buff.Contents()| < |old(buff.Contents())|)
  {
    got', sent', closed := got, sent, false;
    var first, sending := buff.Peek();
    if receive || !sending {
      if got == |input| {
        closed := true;
      } else {
        buff.Push(input[got]);
        got' := got + 1;
        assert input[..got'] == input[..got] + [input[got]];
      }
    } else {
      sent' := sent + [first];
      var _, _ := buff.Pop();
    }
  }

  /** :92-132. The channel `in` delivers `input` and is then closed; which ready case select takes,
      and how fast the receiver drains `out`, is arbitrary. */
  method OrderedChannel(input: seq<Value>, zero: Value) returns (out: seq<Value>)
    ensures out == input
  {
    var buff := new RingQueue(zero);
    var received, closed := 0, false;
    out := [];
    while !closed
      invariant buff.Valid() && fresh(buff) && fresh(buff.arr)
      invariant received <= |input| && out + buff.Contents() == input[..received]
      invariant closed ==> received == |input|
      decreases !closed, |input| - received, |buff.Contents()|
    {
      var receive: bool := *;
      received, out, closed := Select(buff, input, received, out, receive);
    }
    while true
      invariant buff.Valid() && fresh(buff) && fresh(buff.arr)
      invariant out + buff.Contents() == input
      decreases |buff.Contents()|
    {
      var v, ok := buff.Pop();
      if !ok {
        break;
      }
      out := out + [v];
    }
  }
}
