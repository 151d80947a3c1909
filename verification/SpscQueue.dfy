/** queue/lockfree_spsc.go: both single-producer single-consumer rings, the plain one and the one
    with cached cursors (`cached`).
    A uint64 cell is represented by an unbounded count whose remainder modulo 2^64 is the word it
    holds. Every test and every index below is computed from words, so wrap-around is part of the
    model. The ring size N = |arr| divides 2^64 and is smaller, as any power of two below 2^64;
    `t & queueMask` is Word(t) % N (see Bits.MaskIsMod). */
module SpscQueue {
  import opened Wrappers
  import opened Schedules
  import opened Linearizability
  import opened Arithmetic
  import opened BoundedFifo

  datatype Producer =
    | PIdle
    | PStart(v: Value)               // :20, :71-72
    | PLoad(v: Value, t: nat)        // :21, :73
    | PWrite(v: Value, t: nat)       // :27, :78
    | PAdvance(v: Value, t: nat)     // :79
    | PPublish(v: Value, t: nat)     // :28, :80
    | PReturn(res: Res)

  datatype Consumer =
    | CIdle
    | CStart                         // :34, :85-87
    | CLoad(h: nat)                  // :35, :88
    | CRead(h: nat)                  // :41, :95
    | CAdvance(h: nat, v: Value)     // :96
    | CPublish(h: nat, v: Value)     // :42, :97
    | CReturn(res: Res)

  /** tail and head are producerTail and consumerHead, which the plain ring does not have; in the
      plain ring cachedHead and cachedTail stand for the results of the cross loads. */
  datatype State = State(
    cached: bool, arr: seq<Value>, tail: nat, cachedHead: nat, head: nat, cachedTail: nat,
    publishedHead: nat, publishedTail: nat, producer: Producer, consumer: Consumer, trace: seq<Event<Op, Res>>)

  /** Which of the two threads moves, and the argument of its next call. */
  datatype Action = Produce(v: Value) | Consume

  const PRODUCER: nat := 0
  const CONSUMER: nat := 1

  predicate SizeOk(n: nat) {
    0 < n < W64 && W64 % n == 0
  }

  /** An empty ring whose cursors have already counted `start` elements. */
  function Init(cached: bool, n: nat, start: nat, zero: Value): State {
    State(cached, seq(n, i => zero), start, start, start, start, start, start, PIdle, CIdle, [])
  }

  function Word(x: nat): nat {
    x % W64
  }

  /** uint64 subtraction of the words in two cells. */
  function Diff(x: nat, y: nat): nat {
    (Word(x) - Word(y)) % W64
  }

  function Index(s: State, t: nat): nat
    requires |s.arr| > 0
  {
    Word(t) % |s.arr|
  }

  // ---------------------------------------------------------------- the machine

  function Step(s: State, a: Action): State {
    if |s.arr| == 0 then s else if a.Produce? then StepProducer(s, a.v) else StepConsumer(s)
  }

  function StepProducer(s: State, arg: Value): State
    requires |s.arr| > 0
  {
    match s.producer
    case PIdle => s.(producer := PStart(arg), trace := s.trace + [Call(PRODUCER, Enqueue(arg))])
    case PStart(v) =>
      var t := if s.cached then s.tail else s.publishedTail;
      s.(producer := if s.cached && Diff(t, s.cachedHead) < |s.arr| then PWrite(v, t) else PLoad(v, t))
    case PLoad(v, t) =>
      s.(cachedHead := s.publishedHead,
         producer := if Diff(t, s.publishedHead) >= |s.arr| then PReturn(Refused) else PWrite(v, t))
    case PWrite(v, t) =>
      s.(arr := s.arr[Index(s, t) := v], producer := if s.cached then PAdvance(v, t) else PPublish(v, t))
    case PAdvance(v, t) => s.(tail := t + 1, producer := PPublish(v, t))
    case PPublish(v, t) => s.(publishedTail := t + 1, producer := PReturn(Enqueued))
    case PReturn(res) => s.(producer := PIdle, trace := s.trace + [Return(PRODUCER, res)])
  }

  function StepConsumer(s: State): State
    requires |s.arr| > 0
  {
    match s.consumer
    case CIdle => s.(consumer := CStart, trace := s.trace + [Call(CONSUMER, Dequeue)])
    case CStart =>
      var h := if s.cached then s.head else s.publishedHead;
      s.(consumer := if s.cached && Diff(s.cachedTail, h) != 0 then CRead(h) else CLoad(h))
    case CLoad(h) =>
      s.(cachedTail := s.publishedTail,
         consumer := if Diff(s.publishedTail, h) == 0 then CReturn(Drained) else CRead(h))
    case CRead(h) =>
      var v := s.arr[Index(s, h)];
      s.(consumer := if s.cached then CAdvance(h, v) else CPublish(h, v))
    case CAdvance(h, v) => s.(head := h + 1, consumer := CPublish(h, v))
    case CPublish(h, v) => s.(publishedHead := h + 1, consumer := CReturn(Dequeued(v)))
    case CReturn(res) => s.(consumer := CIdle, trace := s.trace + [Return(CONSUMER, res)])
  }

  // ---------------------------------------------------------------- words and counts

  /** Counts at most N apart are told apart by their words. */
  lemma DiffExact(x: nat, y: nat)
    requires y <= x < y + W64
    ensures Diff(x, y) == x - y
  {
  }

  lemma WordMod(x: nat, n: nat)
    requires SizeOk(n)
    ensures Word(x) % n == x % n
  {
    var m: int := x / W64;
    assert x == Word(x) + W64 * m;
    assert W64 == n * (W64 / n) + W64 % n;
    assert W64 * m == n * (W64 / n) * m == n * (W64 / n * m);
    ModAddMultiple(Word(x), W64 / n * m, n);
  }

  // ---------------------------------------------------------------- the simulation

  /** What each side knows. The queue is log[publishedHead..publishedTail]. */
  ghost predicate CursorsOk(s: State) {
    && s.cachedHead <= s.publishedHead <= s.publishedTail <= s.cachedHead + |s.arr|
    && (s.cached ==> s.publishedHead <= s.head <= s.cachedTail)
    && s.cachedTail <= s.publishedTail
  }

  ghost predicate ProducerOk(s: State, st: Status<Op, Res>)
    requires |s.arr| > 0
  {
    match s.producer
    case PIdle => st == Resting && AtRest(s)
    case PStart(v) => st == Called(Enqueue(v)) && AtRest(s)
    case PLoad(v, t) => st == Called(Enqueue(v)) && t == s.publishedTail && AtRest(s)
    case PWrite(v, t) => st == Called(Enqueue(v)) && t == s.publishedTail < s.cachedHead + |s.arr| && AtRest(s)
    case PAdvance(v, t) => st == Called(Enqueue(v)) && Written(s, v, t) && AtRest(s) && s.cached
    case PPublish(v, t) => st == Called(Enqueue(v)) && Written(s, v, t) && (s.cached ==> s.tail == t + 1)
    case PReturn(res) => st == Answered(res) && AtRest(s)
  }

  ghost predicate AtRest(s: State) { s.cached ==> s.tail == s.publishedTail }

  ghost predicate Written(s: State, v: Value, t: nat)
    requires |s.arr| > 0
  {
    t == s.publishedTail < s.cachedHead + |s.arr| && s.arr[t % |s.arr|] == v
  }

  ghost predicate ConsumerOk(s: State, st: Status<Op, Res>, log: seq<Value>)
    requires |log| == s.publishedTail
  {
    var settled := s.cached ==> s.head == s.publishedHead;
    match s.consumer
    case CIdle => st == Resting && settled
    case CStart => st == Called(Dequeue) && settled
    case CLoad(h) => st == Called(Dequeue) && h == s.publishedHead && settled
    case CRead(h) => st == Called(Dequeue) && Ahead(s, h) && settled
    case CAdvance(h, v) => st == Called(Dequeue) && Ahead(s, h) && v == log[h] && settled && s.cached
    case CPublish(h, v) => st == Called(Dequeue) && Ahead(s, h) && v == log[h] && (s.cached ==> s.head == h + 1)
    case CReturn(res) => st == Answered(res) && settled
  }

  ghost predicate Ahead(s: State, h: nat) { h == s.publishedHead < s.cachedTail <= s.publishedTail }

  ghost predicate Sim(s: State, o: Queue, log: seq<Value>) {
    && SizeOk(|s.arr|) && |o.status| == 2 && CursorsOk(s)
    && |log| == s.publishedTail && o.value == log[s.publishedHead..]
    && (forall k :: s.publishedHead <= k < s.publishedTail ==> s.arr[k % |s.arr|] == log[k])
    && ProducerOk(s, o.status[PRODUCER]) && ConsumerOk(s, o.status[CONSUMER], log)
  }

  ghost predicate Simulates(s: State, o: Queue, s': State, effects: seq<Event<Op, Res>>, o': Queue) {
    && Play(ExactSpec(|s.arr|), o, effects) == Some(o')
    && s'.trace == s.trace + Visible(effects) && |s'.arr| == |s.arr|
    && exists log' :: Sim(s', o', log')
  }

  /** Calls, returns and single effects. */
  lemma OneEvent(n: nat, o: Queue, e: Event<Op, Res>) returns (o': Queue)
    requires Apply(ExactSpec(n), o, e).Some?
    ensures Play(ExactSpec(n), o, [e]) == Some(o') == Apply(ExactSpec(n), o, e)
    ensures Visible([e]) == if e.Effect? then [] else [e]
  {
    PlayOne(ExactSpec(n), o, e);
    o' := Apply(ExactSpec(n), o, e).value;
  }

  lemma SimulateCallOrReturn(s: State, o: Queue, log: seq<Value>, a: Action)
    returns (effects: seq<Event<Op, Res>>, o': Queue)
    requires Sim(s, o, log)
    requires if a.Produce? then s.producer.PIdle? || s.producer.PReturn? else s.consumer.CIdle? || s.consumer.CReturn?
    ensures Simulates(s, o, Step(s, a), effects, o')
  {
    effects := [
      if a.Produce? then
        if s.producer.PIdle? then Call(PRODUCER, Enqueue(a.v)) else Return(PRODUCER, s.producer.res)
      else
        if s.consumer.CIdle? then Call(CONSUMER, Dequeue) else Return(CONSUMER, s.consumer.res)];
    o' := OneEvent(|s.arr|, o, effects[0]);
    assert Sim(Step(s, a), o', log);
  }

  /** The cross load that finds the ring full. */
  predicate FindsFull(s: State) {
    s.producer.PLoad? && Diff(s.producer.t, s.publishedHead) >= |s.arr|
  }

  /** The cross load that finds the ring empty. */
  predicate FindsEmpty(s: State) {
    s.consumer.CLoad? && Diff(s.publishedTail, s.consumer.h) == 0
  }

  lemma SimulateRefused(s: State, o: Queue, log: seq<Value>)
    returns (effects: seq<Event<Op, Res>>, o': Queue)
    requires Sim(s, o, log) && FindsFull(s)
    ensures Simulates(s, o, StepProducer(s, s.producer.v), effects, o')
  {
    DiffExact(s.producer.t, s.publishedHead);
    assert |o.value| == s.publishedTail - s.publishedHead;
    effects, o' := TakesEffect(|s.arr|, o, PRODUCER, Enqueue(s.producer.v));
    assert Sim(StepProducer(s, s.producer.v), o', log);
  }

  lemma SimulateEnqueue(s: State, o: Queue, log: seq<Value>)
    returns (effects: seq<Event<Op, Res>>, o': Queue)
    requires Sim(s, o, log) && s.producer.PPublish?
    ensures Simulates(s, o, StepProducer(s, s.producer.v), effects, o')
  {
    assert |o.value| == s.publishedTail - s.publishedHead < |s.arr|;
    effects, o' := TakesEffect(|s.arr|, o, PRODUCER, Enqueue(s.producer.v));
    assert o'.value == (log + [s.producer.v])[s.publishedHead..];
    assert Sim(StepProducer(s, s.producer.v), o', log + [s.producer.v]);
  }

  lemma SimulateDrained(s: State, o: Queue, log: seq<Value>)
    returns (effects: seq<Event<Op, Res>>, o': Queue)
    requires Sim(s, o, log) && FindsEmpty(s)
    ensures Simulates(s, o, StepConsumer(s), effects, o')
  {
    DiffExact(s.publishedTail, s.consumer.h);
    assert |o.value| == s.publishedTail - s.publishedHead;
    effects, o' := TakesEffect(|s.arr|, o, CONSUMER, Dequeue);
    assert Sim(StepConsumer(s), o', log);
  }

  lemma SimulateDequeue(s: State, o: Queue, log: seq<Value>)
    returns (effects: seq<Event<Op, Res>>, o': Queue)
    requires Sim(s, o, log) && s.consumer.CPublish?
    ensures Simulates(s, o, StepConsumer(s), effects, o')
  {
    assert o.value != [] && o.value[0] == s.consumer.v;
    effects, o' := TakesEffect(|s.arr|, o, CONSUMER, Dequeue);
    assert o'.value == log[StepConsumer(s).publishedHead..];
    assert Sim(StepConsumer(s), o', log);
  }

  /** Moves of the producer that nobody outside can tell. */
  lemma ProducerGoesOn(s: State, o: Queue, log: seq<Value>)
    requires Sim(s, o, log) && !FindsFull(s)
    requires s.producer.PStart? || s.producer.PLoad? || s.producer.PAdvance?
    ensures Sim(StepProducer(s, s.producer.v), o, log)
  {
    if s.producer.PStart? { DiffExact(s.publishedTail, s.cachedHead); }
    if s.producer.PLoad? { DiffExact(s.producer.t, s.publishedHead); }
  }

  lemma ConsumerGoesOn(s: State, o: Queue, log: seq<Value>)
    requires Sim(s, o, log) && !FindsEmpty(s)
    requires s.consumer.CStart? || s.consumer.CLoad? || s.consumer.CRead? || s.consumer.CAdvance?
    ensures Sim(StepConsumer(s), o, log)
  {
    if s.consumer.CStart? && s.cached { DiffExact(s.cachedTail, s.head); }
    if s.consumer.CLoad? { DiffExact(s.publishedTail, s.consumer.h); }
    if s.consumer.CRead? { WordMod(s.consumer.h, |s.arr|); }
  }

  /** The cell of the next ticket holds none of the queue's elements. */
  lemma SimulateWrite(s: State, o: Queue, log: seq<Value>)
    requires Sim(s, o, log) && s.producer.PWrite?
    ensures Sim(StepProducer(s, s.producer.v), o, log)
  {
    var n, t := |s.arr|, s.producer.t;
    WordMod(t, n);
    forall k | s.publishedHead <= k < s.publishedTail ensures k % n != t % n {
      if k % n == t % n { SameResidue(k, t, n); }
    }
  }

  lemma SimulateStep(s: State, o: Queue, log: seq<Value>, a: Action)
    returns (effects: seq<Event<Op, Res>>, o': Queue)
    requires Sim(s, o, log)
    ensures Simulates(s, o, Step(s, a), effects, o')
  {
    effects, o' := [], o;
    if a.Produce? {
      if s.producer.PIdle? || s.producer.PReturn? { effects, o' := SimulateCallOrReturn(s, o, log, a); }
      else if FindsFull(s) { effects, o' := SimulateRefused(s, o, log); }
      else if s.producer.PPublish? { effects, o' := SimulateEnqueue(s, o, log); }
      else if s.producer.PWrite? { SimulateWrite(s, o, log); }
      else { ProducerGoesOn(s, o, log); }
    } else {
      if s.consumer.CIdle? || s.consumer.CReturn? { effects, o' := SimulateCallOrReturn(s, o, log, a); }
      else if FindsEmpty(s) { effects, o' := SimulateDrained(s, o, log); }
      else if s.consumer.CPublish? { effects, o' := SimulateDequeue(s, o, log); }
      else { ConsumerGoesOn(s, o, log); }
    }
  }

  // ---------------------------------------------------------------- main results

  ghost predicate Inv(s: State, n: nat) {
    |s.arr| == n && exists history, o, log ::
      Explains(ExactSpec(n), Fresh([], 2), history, s.trace, o) && Sim(s, o, log)
  }

  lemma StepKeepsInv(s: State, a: Action, n: nat)
    requires Inv(s, n)
    ensures Inv(Step(s, a), n)
  {
    var history, o, log :| Explains(ExactSpec(n), Fresh([], 2), history, s.trace, o) && Sim(s, o, log);
    var effects, o' := SimulateStep(s, o, log, a);
    Chain(ExactSpec(n), Fresh([], 2), history, s.trace, o, effects, o');
  }

  lemma InvStarts(cached: bool, n: nat, start: nat, zero: Value)
    requires SizeOk(n)
    ensures Inv(Init(cached, n, start, zero), n)
  {
    var init := Init(cached, n, start, zero);
    var o := Fresh<seq<Value>, Op, Res>([], 2);
    var before := seq(start, i => zero);
    assert before[start..] == [];
    assert Explains(ExactSpec(n), o, [], init.trace, o) && Sim(init, o, before);
  }

  lemma InvHolds(cached: bool, n: nat, start: nat, zero: Value, schedule: seq<Action>)
    requires SizeOk(n)
    ensures Inv(Exec(Step, Init(cached, n, start, zero), schedule), n)
  {
    InvStarts(cached, n, start, zero);
    forall s, a | Inv(s, n) ensures Inv(Step(s, a), n) { StepKeepsInv(s, a, n); }
    Always(Step, s => Inv(s, n), Init(cached, n, start, zero), schedule);
  }

  /** Both rings, in every run and from every position of the cursors, are the exact bounded FIFO:
      false answers included, and however often the counters wrap. */
  lemma QueueIsExact(cached: bool, n: nat, start: nat, zero: Value, schedule: seq<Action>)
    requires SizeOk(n)
    ensures Linearizable(ExactSpec(n), Fresh([], 2), Exec(Step, Init(cached, n, start, zero), schedule).trace)
  {
    InvHolds(cached, n, start, zero, schedule);
  }

  /** However stale the cached cursors, both sides never touch one array cell. */
  lemma CellsAreExclusive(cached: bool, n: nat, start: nat, zero: Value, schedule: seq<Action>)
    requires SizeOk(n)
    ensures var s := Exec(Step, Init(cached, n, start, zero), schedule);
            |s.arr| == n &&
            (s.producer.PWrite? && s.consumer.CRead? ==> Index(s, s.producer.t) != Index(s, s.consumer.h))
  {
    InvHolds(cached, n, start, zero, schedule);
    var s := Exec(Step, Init(cached, n, start, zero), schedule);
    if s.producer.PWrite? && s.consumer.CRead? {
      var t, h := s.producer.t, s.consumer.h;
      WordMod(t, n);
      WordMod(h, n);
      if h % n == t % n { SameResidue(h, t, n); }
    }
  }
}
