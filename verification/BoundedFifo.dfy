/** The bounded FIFO that the rings of queue/ implement: what each operation answers and leaves. */
module BoundedFifo {
  import opened Wrappers
  import opened Linearizability

  type Value(==, 0, !new)

  datatype Op = Enqueue(v: Value) | Dequeue
  datatype Res = Enqueued | Refused | Dequeued(v: Value) | Drained

  type Queue = Object<seq<Value>, Op, Res>

  function Answer(n: nat, q: seq<Value>, op: Op): Res {
    match op
    case Enqueue(_) => if |q| >= n then Refused else Enqueued
    case Dequeue => if q == [] then Drained else Dequeued(q[0])
  }

  function Left(n: nat, q: seq<Value>, op: Op): seq<Value> {
    match op
    case Enqueue(v) => if |q| >= n then q else q + [v]
    case Dequeue => if q == [] then q else q[1..]
  }

  /** An Enqueue is refused exactly when the queue is full, a Dequeue comes back empty exactly when
      it is empty. */
  function ExactSpec(n: nat): Spec<seq<Value>, Op, Res> {
    Spec((o: Queue, t: nat, res: Res) =>
           t < |o.status| && o.status[t].Called? && res == Answer(n, o.value, o.status[t].op),
         (q: seq<Value>, op: Op, res: Res) => Left(n, q, op))
  }

  /** A pending operation can take effect at any time, with the one answer the value allows. */
  lemma TakesEffect(n: nat, o: Queue, t: nat, op: Op) returns (effects: seq<Event<Op, Res>>, o': Queue)
    requires t < |o.status| && o.status[t] == Called(op)
    ensures effects == [Effect(t, Answer(n, o.value, op))] && Visible(effects) == []
    ensures Play(ExactSpec(n), o, effects) == Some(o')
    ensures o' == Object(Left(n, o.value, op), o.status[t := Answered(Answer(n, o.value, op))])
  {
    effects := [Effect(t, Answer(n, o.value, op))];
    PlayOne(ExactSpec(n), o, effects[0]);
    o' := Apply(ExactSpec(n), o, effects[0]).value;
  }
}
