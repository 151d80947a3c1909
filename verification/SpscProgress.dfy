/** What a call on the rings of queue/lockfree_spsc.go answers, and in how many of its own moves,
    wherever the other side has stopped: the cached ring makes the cross-side load only when its
    cached cursor shows no room (no element). */
module SpscProgress {
  import opened Wrappers
  import opened Schedules
  import opened Linearizability
  import opened Arithmetic
  import opened BoundedFifo
  import opened SpscQueue

  predicate ByProducer(moves: seq<Action>) { forall i :: 0 <= i < |moves| ==> moves[i].Produce? }
  predicate ByConsumer(moves: seq<Action>) { forall i :: 0 <= i < |moves| ==> moves[i].Consume? }

  ghost predicate Ends(s: State, moves: seq<Action>, events: seq<Event<Op, Res>>) {
    EndedBy(s, Exec(Step, s, moves), events)
  }

  /** A call has ended; the other side has not moved, and all the trace has gained is `events`. */
  predicate EndedBy(s: State, end: State, events: seq<Event<Op, Res>>) {
    && end.trace == s.trace + events
    && if events != [] && events[|events| - 1].tid == PRODUCER then end.producer.PIdle? && end.consumer == s.consumer
       else end.consumer.CIdle? && end.producer == s.producer
  }

  lemma EndedLater(s: State, s': State, end: State, events: seq<Event<Op, Res>>, e: Event<Op, Res>)
    requires s'.trace == s.trace + events && EndedBy(s', end, [e])
    requires if e.tid == PRODUCER then s'.consumer == s.consumer else s'.producer == s.producer
    ensures EndedBy(s, end, events + [e])
  {
    assert s.trace + (events + [e]) == s.trace + events + [e];
  }

  lemma MoveThenEnds(s: State, moves: seq<Action>, events: seq<Event<Op, Res>>, e: Event<Op, Res>)
    requires moves != []
    requires
      var s' := Step(s, moves[0]);
      && s'.trace == s.trace + events && Ends(s', moves[1..], [e])
      && if e.tid == PRODUCER then s'.consumer == s.consumer else s'.producer == s.producer
    ensures Ends(s, moves, events + [e])
  {
    ExecHead(Step, s, moves);
    EndedLater(s, Step(s, moves[0]), Exec(Step, s, moves), events, e);
  }

  lemma QuietThenEnds(s: State, moves: seq<Action>, e: Event<Op, Res>)
    requires moves != []
    requires
      var s' := Step(s, moves[0]);
      && s'.trace == s.trace + [] && Ends(s', moves[1..], [e])
      && if e.tid == PRODUCER then s'.consumer == s.consumer else s'.producer == s.producer
    ensures Ends(s, moves, [e])
  {
    assert [] + [e] == [e];
    MoveThenEnds(s, moves, [], e);
  }

  // ---------------------------------------------------------------- the producer

  lemma PReturn1(s: State, moves: seq<Action>, res: Res)
    requires |s.arr| > 0 && s.producer == PReturn(res) && ByProducer(moves) && |moves| == 1
    ensures Ends(s, moves, [Return(PRODUCER, res)])
  {
    ExecHead(Step, s, moves);
    assert moves[1..] == [];
  }

  lemma PPublish2(s: State, moves: seq<Action>)
    requires |s.arr| > 0 && s.producer.PPublish? && ByProducer(moves) && |moves| == 2
    ensures Ends(s, moves, [Return(PRODUCER, Enqueued)])
  {
    PReturn1(Step(s, moves[0]), moves[1..], Enqueued);
    QuietThenEnds(s, moves, Return(PRODUCER, Enqueued));
  }

  /** From the plain write on. */
  lemma PWriteEnds(s: State, moves: seq<Action>)
    requires |s.arr| > 0 && s.producer.PWrite? && ByProducer(moves) && |moves| == if s.cached then 4 else 3
    ensures Ends(s, moves, [Return(PRODUCER, Enqueued)])
  {
    var s1, rest := Step(s, moves[0]), moves[1..];
    if s.cached {
      PPublish2(Step(s1, rest[0]), rest[1..]);
      QuietThenEnds(s1, rest, Return(PRODUCER, Enqueued));
    } else {
      PPublish2(s1, rest);
    }
    QuietThenEnds(s, moves, Return(PRODUCER, Enqueued));
  }

  lemma PLoadEnds(s: State, moves: seq<Action>)
    requires |s.arr| > 0 && s.producer.PLoad? && ByProducer(moves)
    requires |moves| == if FindsFull(s) then 2 else if s.cached then 5 else 4
    ensures Ends(s, moves, [Return(PRODUCER, if FindsFull(s) then Refused else Enqueued)])
  {
    if FindsFull(s) {
      PReturn1(Step(s, moves[0]), moves[1..], Refused);
    } else {
      PWriteEnds(Step(s, moves[0]), moves[1..]);
    }
    QuietThenEnds(s, moves, Return(PRODUCER, if FindsFull(s) then Refused else Enqueued));
  }

  predicate Full(s: State) { s.publishedTail == s.publishedHead + |s.arr| }

  /** The cached cursor shows room. */
  predicate SeesRoom(s: State) { s.cached && s.tail < s.cachedHead + |s.arr| }

  function EnqueueMoves(s: State): nat {
    if Full(s) then 4 else if s.cached && !SeesRoom(s) then 7 else 6
  }

  lemma EnqueueEnds(s: State, o: Queue, log: seq<Value>, moves: seq<Action>)
    requires Sim(s, o, log) && s.producer.PIdle? && ByProducer(moves) && |moves| == EnqueueMoves(s)
    ensures Ends(s, moves, [Call(PRODUCER, Enqueue(moves[0].v)),
                            Return(PRODUCER, if Full(s) then Refused else Enqueued)])
  {
    var res := if Full(s) then Refused else Enqueued;
    DiffExact(s.publishedTail, s.cachedHead);
    DiffExact(s.publishedTail, s.publishedHead);
    var s1, rest := Step(s, moves[0]), moves[1..];
    if SeesRoom(s) { PWriteEnds(Step(s1, rest[0]), rest[1..]); } else { PLoadEnds(Step(s1, rest[0]), rest[1..]); }
    QuietThenEnds(s1, rest, Return(PRODUCER, res));
    MoveThenEnds(s, moves, [Call(PRODUCER, Enqueue(moves[0].v))], Return(PRODUCER, res));
  }

  // ---------------------------------------------------------------- the consumer

  lemma CReturn1(s: State, moves: seq<Action>, res: Res)
    requires |s.arr| > 0 && s.consumer == CReturn(res) && ByConsumer(moves) && |moves| == 1
    ensures Ends(s, moves, [Return(CONSUMER, res)])
  {
    ExecHead(Step, s, moves);
    assert moves[1..] == [];
  }

  lemma CPublish2(s: State, moves: seq<Action>)
    requires |s.arr| > 0 && s.consumer.CPublish? && ByConsumer(moves) && |moves| == 2
    ensures Ends(s, moves, [Return(CONSUMER, Dequeued(s.consumer.v))])
  {
    CReturn1(Step(s, moves[0]), moves[1..], Dequeued(s.consumer.v));
    QuietThenEnds(s, moves, Return(CONSUMER, Dequeued(s.consumer.v)));
  }

  /** From the plain read on. */
  lemma CReadEnds(s: State, moves: seq<Action>)
    requires |s.arr| > 0 && s.consumer.CRead? && ByConsumer(moves) && |moves| == if s.cached then 4 else 3
    ensures Ends(s, moves, [Return(CONSUMER, Dequeued(s.arr[Index(s, s.consumer.h)]))])
  {
    var s1, rest := Step(s, moves[0]), moves[1..];
    var e: Event<Op, Res> := Return(CONSUMER, Dequeued(s.arr[Index(s, s.consumer.h)]));
    if s.cached {
      CPublish2(Step(s1, rest[0]), rest[1..]);
      QuietThenEnds(s1, rest, e);
    } else {
      CPublish2(s1, rest);
    }
    QuietThenEnds(s, moves, e);
  }

  function LoadAnswer(s: State): Res
    requires |s.arr| > 0 && s.consumer.CLoad?
  {
    if FindsEmpty(s) then Drained else Dequeued(s.arr[Index(s, s.consumer.h)])
  }

  lemma CLoadEnds(s: State, moves: seq<Action>)
    requires |s.arr| > 0 && s.consumer.CLoad? && ByConsumer(moves)
    requires |moves| == if FindsEmpty(s) then 2 else if s.cached then 5 else 4
    ensures Ends(s, moves, [Return(CONSUMER, LoadAnswer(s))])
  {
    if FindsEmpty(s) {
      CReturn1(Step(s, moves[0]), moves[1..], Drained);
    } else {
      CReadEnds(Step(s, moves[0]), moves[1..]);
    }
    QuietThenEnds(s, moves, Return(CONSUMER, LoadAnswer(s)));
  }

  predicate Vacant(s: State) { s.publishedTail == s.publishedHead }

  predicate SeesElement(s: State) { s.cached && s.head < s.cachedTail }

  function DequeueMoves(s: State): nat {
    if Vacant(s) then 4 else if s.cached && !SeesElement(s) then 7 else 6
  }

  lemma DequeueEnds(s: State, o: Queue, log: seq<Value>, moves: seq<Action>)
    requires Sim(s, o, log) && s.consumer.CIdle? && ByConsumer(moves) && |moves| == DequeueMoves(s)
    ensures !Vacant(s) ==> o.value != []
    ensures Ends(s, moves, [Call(CONSUMER, Dequeue),
                            Return(CONSUMER, if Vacant(s) then Drained else Dequeued(o.value[0]))])
  {
    var res := if Vacant(s) then Drained else Dequeued(o.value[0]);
    if s.cached { DiffExact(s.cachedTail, s.head); }
    DiffExact(s.publishedTail, s.publishedHead);
    WordMod(s.publishedHead, |s.arr|);
    var s1, rest := Step(s, moves[0]), moves[1..];
    if SeesElement(s) { CReadEnds(Step(s1, rest[0]), rest[1..]); } else { CLoadEnds(Step(s1, rest[0]), rest[1..]); }
    QuietThenEnds(s1, rest, Return(CONSUMER, res));
    MoveThenEnds(s, moves, [Call(CONSUMER, Dequeue)], Return(CONSUMER, res));
  }

  // ---------------------------------------------------------------- in every run

  /** In every run an Enqueue left alone answers false after four moves if the ring is full, and
      otherwise true after six, or after seven when the cached ring has to look across. */
  lemma EnqueueAlone(cached: bool, n: nat, start: nat, zero: Value, schedule: seq<Action>, moves: seq<Action>)
    requires SizeOk(n) && ByProducer(moves)
    ensures
      var s := Exec(Step, Init(cached, n, start, zero), schedule);
      s.producer.PIdle? && |moves| == EnqueueMoves(s) ==>
        Ends(s, moves, [Call(PRODUCER, Enqueue(moves[0].v)), Return(PRODUCER, if Full(s) then Refused else Enqueued)])
  {
    InvHolds(cached, n, start, zero, schedule);
    var s := Exec(Step, Init(cached, n, start, zero), schedule);
    var history, o, log :| Explains(ExactSpec(n), Fresh([], 2), history, s.trace, o) && Sim(s, o, log);
    if s.producer.PIdle? && |moves| == EnqueueMoves(s) { EnqueueEnds(s, o, log, moves); }
  }

  /** And a Dequeue answers the oldest element of a queue that explains the run. */
  lemma DequeueAlone(cached: bool, n: nat, start: nat, zero: Value, schedule: seq<Action>, moves: seq<Action>)
    returns (history: seq<Event<Op, Res>>, o: Queue)
    requires SizeOk(n) && ByConsumer(moves)
    ensures
      var s := Exec(Step, Init(cached, n, start, zero), schedule);
      && Explains(ExactSpec(n), Fresh([], 2), history, s.trace, o)
      && (s.consumer.CIdle? && |moves| == DequeueMoves(s) ==>
            && (!Vacant(s) ==> o.value != [])
            && Ends(s, moves, [Call(CONSUMER, Dequeue),
                               Return(CONSUMER, if Vacant(s) then Drained else Dequeued(o.value[0]))]))
  {
    InvHolds(cached, n, start, zero, schedule);
    var s := Exec(Step, Init(cached, n, start, zero), schedule);
    var log;
    history, o, log :| Explains(ExactSpec(n), Fresh([], 2), history, s.trace, o) && Sim(s, o, log);
    if s.consumer.CIdle? && |moves| == DequeueMoves(s) { DequeueEnds(s, o, log, moves); }
  }

  /** At the cross-side load: false is what the next two moves answer if and only if the ring is
      full (empty) then; otherwise the call goes on and succeeds. */
  lemma FalseIffFullOrEmpty(cached: bool, n: nat, start: nat, zero: Value, schedule: seq<Action>,
                            produce: seq<Action>, consume: seq<Action>)
    requires SizeOk(n) && ByProducer(produce) && ByConsumer(consume)
    ensures
      var s := Exec(Step, Init(cached, n, start, zero), schedule);
      && (s.producer.PLoad? && |produce| == (if Full(s) then 2 else if cached then 5 else 4) ==>
            Ends(s, produce, [Return(PRODUCER, if Full(s) then Refused else Enqueued)]))
      && (s.consumer.CLoad? && |consume| == (if Vacant(s) then 2 else if cached then 5 else 4) ==>
            exists res :: (Vacant(s) <==> res == Drained) && Ends(s, consume, [Return(CONSUMER, res)]))
  {
    InvHolds(cached, n, start, zero, schedule);
    CachedStays(cached, n, start, zero, schedule);
    var s := Exec(Step, Init(cached, n, start, zero), schedule);
    DiffExact(s.publishedTail, s.publishedHead);
    if s.producer.PLoad? && |produce| == if Full(s) then 2 else if cached then 5 else 4 { PLoadEnds(s, produce); }
    if s.consumer.CLoad? && |consume| == if Vacant(s) then 2 else if cached then 5 else 4 { CLoadEnds(s, consume); }
  }

  lemma CachedStays(cached: bool, n: nat, start: nat, zero: Value, schedule: seq<Action>)
    ensures Exec(Step, Init(cached, n, start, zero), schedule).cached == cached
  {
    Always(Step, (s: State) => s.cached == cached, Init(cached, n, start, zero), schedule);
  }
}
