/** What a call on the ring of queue/lockfree_mpmc.go answers, and in how many of its own moves,
    wherever the other threads have stopped. */
module MpmcProgress {
  import opened Wrappers
  import opened Schedules
  import opened Linearizability
  import opened Arithmetic
  import opened BoundedFifo
  import opened MpmcRing

  predicate By(t: nat, moves: seq<Action>) { forall i :: 0 <= i < |moves| ==> moves[i].tid == t }

  /** Thread t has ended its call; all the trace has gained is `events`. */
  predicate EndedBy(s: State, end: State, t: nat, events: seq<Event<Op, Res>>) {
    t < |s.threads| && end.threads == s.threads[t := Outside] && end.trace == s.trace + events
  }

  /** With these moves thread t ends its call. */
  ghost predicate Ends(s: State, t: nat, moves: seq<Action>, events: seq<Event<Op, Res>>) {
    EndedBy(s, Exec(Step, s, moves), t, events)
  }

  /** State s' is s after a move of thread t that shows `events`. */
  predicate Shows(s: State, s': State, t: nat, events: seq<Event<Op, Res>>) {
    && t < |s.threads| == |s'.threads| && s'.threads == s.threads[t := s'.threads[t]]
    && s'.trace == s.trace + events
  }

  lemma EndedLater(s: State, s': State, end: State, t: nat, events: seq<Event<Op, Res>>, more: seq<Event<Op, Res>>)
    requires Shows(s, s', t, events) && EndedBy(s', end, t, more)
    ensures EndedBy(s, end, t, events + more)
  {
    assert s.trace + (events + more) == s.trace + events + more;
  }

  /** One move ahead of an ending. */
  lemma MoveThenEnds(s: State, t: nat, moves: seq<Action>, events: seq<Event<Op, Res>>, more: seq<Event<Op, Res>>)
    requires moves != [] && Shows(s, Step(s, moves[0]), t, events) && Ends(Step(s, moves[0]), t, moves[1..], more)
    ensures Ends(s, t, moves, events + more)
  {
    ExecHead(Step, s, moves);
    EndedLater(s, Step(s, moves[0]), Exec(Step, s, moves), t, events, more);
  }

  lemma QuietThenEnds(s: State, t: nat, moves: seq<Action>, more: seq<Event<Op, Res>>)
    requires moves != [] && Shows(s, Step(s, moves[0]), t, []) && Ends(Step(s, moves[0]), t, moves[1..], more)
    ensures Ends(s, t, moves, more)
  {
    assert [] + more == more;
    MoveThenEnds(s, t, moves, [], more);
  }

  lemma Return1(s: State, t: nat, moves: seq<Action>, res: Res)
    requires |s.slots| > 0 && t < |s.threads| && s.threads[t] == Returning(res) && By(t, moves) && |moves| == 1
    ensures Ends(s, t, moves, [Return(t, res)])
  {
    ExecHead(Step, s, moves);
    assert moves[1..] == [];
  }

  // ---------------------------------------------------------------- Enqueue

  lemma Publish2(s: State, t: nat, moves: seq<Action>)
    requires |s.slots| > 0 && t < |s.threads| && s.threads[t].EnqPublish? && By(t, moves) && |moves| == 2
    ensures Ends(s, t, moves, [Return(t, Enqueued)])
  {
    Return1(Step(s, moves[0]), t, moves[1..], Enqueued);
    QuietThenEnds(s, t, moves, [Return(t, Enqueued)]);
  }

  lemma Write3(s: State, t: nat, moves: seq<Action>)
    requires |s.slots| > 0 && t < |s.threads| && s.threads[t].EnqWrite? && By(t, moves) && |moves| == 3
    ensures Ends(s, t, moves, [Return(t, Enqueued)])
  {
    Publish2(Step(s, moves[0]), t, moves[1..]);
    QuietThenEnds(s, t, moves, [Return(t, Enqueued)]);
  }

  lemma EnqCas4(s: State, t: nat, moves: seq<Action>)
    requires |s.slots| > 0 && t < |s.threads| && s.threads[t].EnqCas? && By(t, moves) && |moves| == 4
    requires s.threads[t].ticket == s.tail
    ensures Ends(s, t, moves, [Return(t, Enqueued)])
  {
    Write3(Step(s, moves[0]), t, moves[1..]);
    QuietThenEnds(s, t, moves, [Return(t, Enqueued)]);
  }

  /** Two moves if the look refuses, five if it finds the slot free. */
  lemma EnqLookEnds(s: State, t: nat, moves: seq<Action>)
    requires |s.slots| > 0 && t < |s.threads| && s.threads[t].EnqLook? && By(t, moves)
    requires s.threads[t].ticket == s.tail >= SlotAt(s, s.tail).seqno
    requires |moves| == if SlotAt(s, s.tail).seqno < s.tail then 2 else 5
    ensures Ends(s, t, moves, [Return(t, if SlotAt(s, s.tail).seqno < s.tail then Refused else Enqueued)])
  {
    if SlotAt(s, s.tail).seqno < s.tail {
      Return1(Step(s, moves[0]), t, moves[1..], Refused);
      QuietThenEnds(s, t, moves, [Return(t, Refused)]);
    } else {
      EnqCas4(Step(s, moves[0]), t, moves[1..]);
      QuietThenEnds(s, t, moves, [Return(t, Enqueued)]);
    }
  }

  lemma EnqueueEnds(s: State, t: nat, moves: seq<Action>, v: Value)
    requires |s.slots| > 0 && t < |s.threads| && s.threads[t].Outside? && By(t, moves)
    requires s.tail >= SlotAt(s, s.tail).seqno
    requires |moves| == (if SlotAt(s, s.tail).seqno < s.tail then 4 else 7) && moves[0].op == Enqueue(v)
    ensures
      var res := if SlotAt(s, s.tail).seqno < s.tail then Refused else Enqueued;
      Ends(s, t, moves, [Call(t, Enqueue(v)), Return(t, res)])
  {
    var res := if SlotAt(s, s.tail).seqno < s.tail then Refused else Enqueued;
    var s1 := Step(s, moves[0]);
    var rest := moves[1..];
    EnqLookEnds(Step(s1, rest[0]), t, rest[1..]);
    QuietThenEnds(s1, t, rest, [Return(t, res)]);
    MoveThenEnds(s, t, moves, [Call(t, Enqueue(v))], [Return(t, res)]);
  }

  // ---------------------------------------------------------------- Dequeue

  lemma Free2(s: State, t: nat, moves: seq<Action>)
    requires |s.slots| > 0 && t < |s.threads| && s.threads[t].DeqFree? && By(t, moves) && |moves| == 2
    ensures Ends(s, t, moves, [Return(t, Dequeued(s.threads[t].v))])
  {
    Return1(Step(s, moves[0]), t, moves[1..], Dequeued(s.threads[t].v));
    QuietThenEnds(s, t, moves, [Return(t, Dequeued(s.threads[t].v))]);
  }

  lemma Clear3(s: State, t: nat, moves: seq<Action>)
    requires |s.slots| > 0 && t < |s.threads| && s.threads[t].DeqClear? && By(t, moves) && |moves| == 3
    ensures Ends(s, t, moves, [Return(t, Dequeued(s.threads[t].v))])
  {
    Free2(Step(s, moves[0]), t, moves[1..]);
    QuietThenEnds(s, t, moves, [Return(t, Dequeued(s.threads[t].v))]);
  }

  lemma Read4(s: State, t: nat, moves: seq<Action>)
    requires |s.slots| > 0 && t < |s.threads| && s.threads[t].DeqRead? && By(t, moves) && |moves| == 4
    ensures Ends(s, t, moves, [Return(t, Dequeued(SlotAt(s, s.threads[t].ticket).val))])
  {
    Clear3(Step(s, moves[0]), t, moves[1..]);
    QuietThenEnds(s, t, moves, [Return(t, Dequeued(SlotAt(s, s.threads[t].ticket).val))]);
  }

  lemma DeqCas5(s: State, t: nat, moves: seq<Action>)
    requires |s.slots| > 0 && t < |s.threads| && s.threads[t].DeqCas? && By(t, moves) && |moves| == 5
    requires s.threads[t].ticket == s.head
    ensures Ends(s, t, moves, [Return(t, Dequeued(SlotAt(s, s.head).val))])
  {
    Read4(Step(s, moves[0]), t, moves[1..]);
    QuietThenEnds(s, t, moves, [Return(t, Dequeued(SlotAt(s, s.head).val))]);
  }

  function DequeueAnswer(s: State): Res
    requires |s.slots| > 0
  {
    if SlotAt(s, s.head).seqno < s.head + 1 then Drained else Dequeued(SlotAt(s, s.head).val)
  }

  lemma DeqLookEnds(s: State, t: nat, moves: seq<Action>)
    requires |s.slots| > 0 && t < |s.threads| && s.threads[t].DeqLook? && By(t, moves)
    requires s.threads[t].ticket == s.head >= SlotAt(s, s.head).seqno - 1
    requires |moves| == if SlotAt(s, s.head).seqno < s.head + 1 then 2 else 6
    ensures Ends(s, t, moves, [Return(t, DequeueAnswer(s))])
  {
    if SlotAt(s, s.head).seqno < s.head + 1 {
      Return1(Step(s, moves[0]), t, moves[1..], Drained);
      QuietThenEnds(s, t, moves, [Return(t, Drained)]);
    } else {
      DeqCas5(Step(s, moves[0]), t, moves[1..]);
      QuietThenEnds(s, t, moves, [Return(t, DequeueAnswer(s))]);
    }
  }

  lemma DequeueEnds(s: State, t: nat, moves: seq<Action>)
    requires |s.slots| > 0 && t < |s.threads| && s.threads[t].Outside? && By(t, moves)
    requires s.head >= SlotAt(s, s.head).seqno - 1
    requires |moves| == (if SlotAt(s, s.head).seqno < s.head + 1 then 4 else 8) && moves[0].op == Dequeue
    ensures Ends(s, t, moves, [Call(t, Dequeue), Return(t, DequeueAnswer(s))])
  {
    var s1 := Step(s, moves[0]);
    var rest := moves[1..];
    DeqLookEnds(Step(s1, rest[0]), t, rest[1..]);
    QuietThenEnds(s1, t, rest, [Return(t, DequeueAnswer(s))]);
    MoveThenEnds(s, t, moves, [Call(t, Dequeue)], [Return(t, DequeueAnswer(s))]);
  }

  // ---------------------------------------------------------------- in every run

  /** The ring is full, or the slot of the next ticket is still being emptied. */
  ghost predicate NoRoom(s: State) { s.tail == s.head + |s.slots| || BeingEmptied(s, s.tail - |s.slots|) }

  /** The ring is empty, or its oldest element is still being written. */
  ghost predicate NothingReady(s: State) { s.tail == s.head || BeingFilled(s, s.head) }

  lemma LooksAtTail(s: State, o: Queue, log: seq<Value>)
    requires Sim(s, o, log)
    ensures SlotAt(s, s.tail).seqno <= s.tail && (SlotAt(s, s.tail).seqno < s.tail <==> NoRoom(s))
  {
    var k, n := s.tail, |s.slots|;
    SeqnoOf(s, o, log, k);
    if k < s.head + n { assert SlotOk(s, log, k); }
    if BeingEmptied(s, k - n) {
      var u :| Empties(s, u, k - n);
      assert ThreadOk(s, o, log, u);
      ModAddMultiple(k, -1, n);
    }
  }

  lemma LooksAtHead(s: State, o: Queue, log: seq<Value>)
    requires Sim(s, o, log)
    ensures SlotAt(s, s.head).seqno <= s.head + 1 && (SlotAt(s, s.head).seqno < s.head + 1 <==> NothingReady(s))
    ensures !NothingReady(s) ==> o.value != [] && SlotAt(s, s.head).val == o.value[0]
  {
    var k := s.head;
    assert SlotOk(s, log, k);
    if BeingFilled(s, k) {
      var u :| Fills(s, u, k);
      assert ThreadOk(s, o, log, u);
    }
  }

  /** In every run an Enqueue that is begun and left alone answers true after seven moves, or, if
      there is no room, false after four. */
  lemma EnqueueAlone(threads: nat, n: nat, zero: Value, schedule: seq<Action>, t: nat, v: Value, moves: seq<Action>)
    requires n >= 2 && t < threads && By(t, moves)
    ensures
      var s := Exec(Step, Init(threads, n, zero), schedule);
      |moves| == (if NoRoom(s) then 4 else 7) && moves[0].op == Enqueue(v) &&
      t < |s.threads| && s.threads[t].Outside? ==>
        Ends(s, t, moves, [Call(t, Enqueue(v)), Return(t, if NoRoom(s) then Refused else Enqueued)])
  {
    InvHolds(threads, n, zero, schedule);
    var s := Exec(Step, Init(threads, n, zero), schedule);
    var history, o, log :| Explains(FifoSpec(n), Fresh([], threads), history, s.trace, o) && Sim(s, o, log);
    LooksAtTail(s, o, log);
    if |moves| == (if NoRoom(s) then 4 else 7) && moves[0].op == Enqueue(v) &&
       t < |s.threads| && s.threads[t].Outside? {
      EnqueueEnds(s, t, moves, v);
    }
  }

  /** A Dequeue left alone answers the oldest element of a queue that explains the run after eight
      moves, or, if nothing is ready, false after four. */
  lemma DequeueAlone(threads: nat, n: nat, zero: Value, schedule: seq<Action>, t: nat, moves: seq<Action>)
    returns (history: seq<Event<Op, Res>>, o: Queue)
    requires n >= 2 && t < threads && By(t, moves)
    ensures
      var s := Exec(Step, Init(threads, n, zero), schedule);
      && Explains(FifoSpec(n), Fresh([], threads), history, s.trace, o)
      && (!NothingReady(s) ==> o.value != [])
      && (|moves| == (if NothingReady(s) then 4 else 8) && moves[0].op == Dequeue &&
          t < |s.threads| && s.threads[t].Outside? ==>
            Ends(s, t, moves, [Call(t, Dequeue), Return(t, if NothingReady(s) then Drained else Dequeued(o.value[0]))]))
  {
    InvHolds(threads, n, zero, schedule);
    var s := Exec(Step, Init(threads, n, zero), schedule);
    var log;
    history, o, log :| Explains(FifoSpec(n), Fresh([], threads), history, s.trace, o) && Sim(s, o, log);
    LooksAtHead(s, o, log);
    if |moves| == (if NothingReady(s) then 4 else 8) && moves[0].op == Dequeue &&
       t < |s.threads| && s.threads[t].Outside? {
      DequeueEnds(s, t, moves);
    }
  }

  /** False is what a justified call answers with its next two moves, and no other call does. */
  lemma FalseIffJustified(threads: nat, n: nat, zero: Value, schedule: seq<Action>, t: nat, moves: seq<Action>)
    requires n >= 2 && By(t, moves) && |moves| == 2
    ensures
      var s := Exec(Step, Init(threads, n, zero), schedule);
      t < |s.threads| ==>
        (Justified(s, t) <==> Ends(s, t, moves, [Return(t, Refused)]) || Ends(s, t, moves, [Return(t, Drained)]))
  {
    InvHolds(threads, n, zero, schedule);
    var s := Exec(Step, Init(threads, n, zero), schedule);
    var history, o, log :| Explains(FifoSpec(n), Fresh([], threads), history, s.trace, o) && Sim(s, o, log);
    if t < |s.threads| {
      RefusesIffJustified(s, o, log, t);
      if Refuses(s, t) {
        var res := if s.threads[t].EnqLook? then Refused else Drained;
        Return1(Step(s, moves[0]), t, moves[1..], res);
        QuietThenEnds(s, t, moves, [Return(t, res)]);
      } else {
        OthersAnswerOtherwise(s, t, moves);
      }
    }
  }

  /** What the outside sees of the next move. */
  function Adds(s: State, a: Action): seq<Event<Op, Res>>
    requires a.tid < |s.threads|
  {
    match s.threads[a.tid]
    case Outside => [Call(a.tid, a.op)]
    case Returning(res) => [Return(a.tid, res)]
    case _ => []
  }

  lemma MoveAdds(s: State, a: Action)
    requires |s.slots| > 0 && a.tid < |s.threads|
    ensures Step(s, a).trace == s.trace + Adds(s, a) && |Step(s, a).slots| == |s.slots|
    ensures |Step(s, a).threads| == |s.threads|
    ensures s.threads[a.tid].Returning? ==> Step(s, a).threads[a.tid].Outside?
  {
  }

  lemma OthersAnswerOtherwise(s: State, t: nat, moves: seq<Action>)
    requires |s.slots| > 0 && t < |s.threads| && By(t, moves) && |moves| == 2 && !Refuses(s, t)
    ensures !Ends(s, t, moves, [Return(t, Refused)]) && !Ends(s, t, moves, [Return(t, Drained)])
  {
    var s1 := Step(s, moves[0]);
    ExecHead(Step, s, moves);
    ExecHead(Step, s1, moves[1..]);
    assert moves[1..][1..] == [];
    MoveAdds(s, moves[0]);
    MoveAdds(s1, moves[1]);
    var seen := Adds(s, moves[0]) + Adds(s1, moves[1]);
    assert Exec(Step, s, moves).trace == s.trace + seen;
    AddsNoRefusal(s, moves[0], moves[1]);
    forall res | res == Refused || res == Drained ensures s.trace + seen != s.trace + [Return(t, res)] {
      assert (s.trace + seen)[|s.trace|..] == seen && (s.trace + [Return(t, res)])[|s.trace|..] == [Return(t, res)];
    }
  }

  lemma AddsNoRefusal(s: State, a: Action, b: Action)
    requires |s.slots| > 0 && a.tid == b.tid < |s.threads| == |Step(s, a).threads| && !Refuses(s, a.tid)
    ensures var seen := Adds(s, a) + Adds(Step(s, a), b);
            seen != [Return(a.tid, Refused)] && seen != [Return(a.tid, Drained)]
  {
    var seen := Adds(s, a) + Adds(Step(s, a), b);
    if s.threads[a.tid].Outside? {
      assert seen[0].Call?;
    } else if s.threads[a.tid].Returning? {
      assert |seen| == 2;
    } else {
      assert seen == Adds(Step(s, a), b);
    }
  }

  // ---------------------------------------------------------------- from anywhere inside a call

  /** Moves the thread needs at most when nobody else moves. */
  function Rank(s: State, t: nat): nat {
    if t >= |s.threads| then 0 else
    match s.threads[t]
    case Outside => 0
    case Returning(_) => 1
    case EnqPublish(_, _) => 2
    case EnqWrite(_, _) => 3
    case EnqCas(_, k, _) => if k == s.tail then 4 else 7
    case EnqLook(_, k, _) => if k == s.tail then 5 else 8
    case EnqLoad(_, _) => 6
    case DeqFree(_, _) => 2
    case DeqClear(_, _) => 3
    case DeqRead(_) => 4
    case DeqCas(k, _) => if k == s.head then 5 else 8
    case DeqLook(k, _) => if k == s.head then 6 else 9
    case DeqLoad(_) => 7
  }

  lemma MoveLowersRank(s: State, o: Queue, log: seq<Value>, a: Action)
    requires Sim(s, o, log) && a.tid < |s.threads| && !s.threads[a.tid].Outside?
    ensures Rank(Step(s, a), a.tid) < Rank(s, a.tid)
  {
    LooksAtTail(s, o, log);
    LooksAtHead(s, o, log);
    assert ThreadOk(s, o, log, a.tid);
  }

  lemma AloneMoves(s: State, a: Action, threads: nat, n: nat)
    requires Inv(s, threads, n) && a.tid < |s.threads| && !s.threads[a.tid].Outside?
    ensures Rank(Step(s, a), a.tid) < Rank(s, a.tid) && |Step(s, a).threads| == |s.threads|
  {
    var history, o, log :| Explains(FifoSpec(n), Fresh([], threads), history, s.trace, o) && Sim(s, o, log);
    MoveLowersRank(s, o, log, a);
  }

  lemma RankIsBounded(s: State, t: nat)
    ensures Rank(s, t) <= 9
  {
  }

  lemma {:induction false} ReturnsByRank(s: State, t: nat, moves: seq<Action>, threads: nat, n: nat)
    requires Inv(s, threads, n) && t < |s.threads| && By(t, moves) && Rank(s, t) <= |moves|
    ensures exists m: nat :: m <= |moves| && m <= Rank(s, t) && AtRest(Exec(Step, s, moves[..m]), t)
    decreases Rank(s, t)
  {
    if s.threads[t].Outside? {
      assert AtRest(Exec(Step, s, moves[..0]), t);
    } else {
      var s' := Step(s, moves[0]);
      AloneMoves(s, moves[0], threads, n);
      StepKeepsInv(s, moves[0], threads, n);
      ReturnsByRank(s', t, moves[1..], threads, n);
      var m: nat :| m <= |moves[1..]| && m <= Rank(s', t) && AtRest(Exec(Step, s', moves[1..][..m]), t);
      ExecHeadPrefix(Step, s, moves, m);
      assert AtRest(Exec(Step, s, moves[..m + 1]), t);
    }
  }

  predicate AtRest(s: State, t: nat) { t < |s.threads| && s.threads[t].Outside? }

  lemma ThreadsStay(threads: nat, n: nat, zero: Value, schedule: seq<Action>)
    ensures |Exec(Step, Init(threads, n, zero), schedule).threads| == threads
  {
    Always(Step, (s: State) => |s.threads| == threads, Init(threads, n, zero), schedule);
  }

  /** Wherever all threads have stopped, any one of them, left alone, returns within nine moves. */
  lemma AloneReturns(threads: nat, n: nat, zero: Value, schedule: seq<Action>, t: nat, moves: seq<Action>)
    requires n >= 2 && t < threads && By(t, moves) && |moves| >= 9
    ensures exists m: nat :: m <= 9 && AtRest(Exec(Step, Exec(Step, Init(threads, n, zero), schedule), moves[..m]), t)
  {
    InvHolds(threads, n, zero, schedule);
    ThreadsStay(threads, n, zero, schedule);
    var s := Exec(Step, Init(threads, n, zero), schedule);
    RankIsBounded(s, t);
    ReturnsByRank(s, t, moves, threads, n);
    var m: nat :| m <= |moves| && m <= Rank(s, t) && AtRest(Exec(Step, s, moves[..m]), t);
    assert m <= 9 && AtRest(Exec(Step, s, moves[..m]), t);
  }

  // ---------------------------------------------------------------- rounds are retries

  /** The move sends its call back to its first load. */
  predicate GoesRound(s: State, a: Action) {
    && a.tid < |s.threads| && LoopOf(s.threads[a.tid]).Some? && a.tid < |Step(s, a).threads|
    && (|| (!s.threads[a.tid].EnqLoad? && Step(s, a).threads[a.tid].EnqLoad?)
        || (!s.threads[a.tid].DeqLoad? && Step(s, a).threads[a.tid].DeqLoad?))
  }

  /** How often the last call of thread t has gone round. */
  function Rounds(init: State, schedule: seq<Action>, t: nat): nat {
    if schedule == [] then 0
    else
      var front, a := schedule[..|schedule| - 1], schedule[|schedule| - 1];
      var s := Exec(Step, init, front);
      if a.tid == t && AtRest(s, t) then 0
      else Rounds(init, front, t) + if a.tid == t && GoesRound(s, a) then 1 else 0
  }

  /** What the counter it competes for was when it began. */
  function CounterAtCall(init: State, schedule: seq<Action>, t: nat): nat {
    if schedule == [] then 0
    else
      var front, a := schedule[..|schedule| - 1], schedule[|schedule| - 1];
      var s := Exec(Step, init, front);
      if a.tid == t && AtRest(s, t) then if a.op.Enqueue? then s.tail else s.head
      else CounterAtCall(init, front, t)
  }

  /** The bookkeeping of thread t's call says this. */
  predicate LoopFits(s: State, t: nat, start: nat, rounds: nat) {
    && |s.slots| > 0 && t < |s.threads|
    && (LoopOf(s.threads[t]).Some? ==> LoopOf(s.threads[t]) == Some(Loop(start, rounds)))
  }

  lemma LoopMove(s: State, a: Action, t: nat, start: nat, rounds: nat)
    requires LoopFits(s, t, start, rounds)
    ensures if a.tid == t && AtRest(s, t) then LoopFits(Step(s, a), t, if a.op.Enqueue? then s.tail else s.head, 0)
            else LoopFits(Step(s, a), t, start, rounds + if a.tid == t && GoesRound(s, a) then 1 else 0)
  {
  }

  lemma {:induction false} LoopsAreRounds(threads: nat, n: nat, zero: Value, schedule: seq<Action>, t: nat)
    requires n >= 2 && t < threads
    ensures
      var i := Init(threads, n, zero);
      LoopFits(Exec(Step, i, schedule), t, CounterAtCall(i, schedule, t), Rounds(i, schedule, t))
    decreases |schedule|
  {
    if schedule != [] {
      var front, i := schedule[..|schedule| - 1], Init(threads, n, zero);
      LoopsAreRounds(threads, n, zero, front, t);
      LoopMove(Exec(Step, i, front), schedule[|schedule| - 1], t, CounterAtCall(i, front, t), Rounds(i, front, t));
    }
  }

  /** Lock-freedom: a call never goes round more often than other calls have won the counter it
      competes for since it began. */
  lemma RoundsAreBounded(threads: nat, n: nat, zero: Value, schedule: seq<Action>, t: nat)
    requires n >= 2 && t < threads
    ensures
      var i, s := Init(threads, n, zero), Exec(Step, Init(threads, n, zero), schedule);
      t < |s.threads| && LoopOf(s.threads[t]).Some? ==>
        Rounds(i, schedule, t) <=
        (if IsEnqueue(s.threads[t]) then s.tail else s.head) - CounterAtCall(i, schedule, t)
  {
    LoopsAreRounds(threads, n, zero, schedule, t);
    RetriesAreBounded(threads, n, zero, schedule, t);
  }
}
