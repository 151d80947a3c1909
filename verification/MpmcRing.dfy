/** queue/lockfree_mpmc.go: a bounded ring shared by any number of producers and consumers.
    `tail` and `head` hand out tickets by CAS; the sequence number of a slot says whose turn it is.
    The ring size N = |slots| is arbitrary; the index `ticket & queueMask` is `ticket % N` (see
    Bits.MaskIsMod). Bookkeeping that no step reads: `Slot.user`, the thread that has claimed the
    slot, and `Loop`, which counts the retries of the call in progress. */
module MpmcRing {
  import opened Wrappers
  import opened Schedules
  import opened Linearizability
  import opened Arithmetic
  import opened BoundedFifo

  datatype Slot = Slot(seqno: int, val: Value, user: Option<nat>)

  /** Value of the counter when the call began, and the retries so far. */
  datatype Loop = Loop(start: nat, retries: nat)

  datatype Thread =
    | Outside
    | EnqLoad(v: Value, loop: Loop)                       // :26
    | EnqLook(v: Value, ticket: nat, loop: Loop)          // :28
    | EnqCas(v: Value, ticket: nat, loop: Loop)           // :37
    | EnqWrite(v: Value, ticket: nat)                     // :43
    | EnqPublish(v: Value, ticket: nat)                   // :44
    | DeqLoad(loop: Loop)                                 // :56
    | DeqLook(ticket: nat, loop: Loop)                    // :58
    | DeqCas(ticket: nat, loop: Loop)                     // :67
    | DeqRead(ticket: nat)                                // :68
    | DeqClear(ticket: nat, v: Value)                     // :69
    | DeqFree(ticket: nat, v: Value)                      // :70
    | Returning(res: Res)

  datatype State = State(
    head: nat, tail: nat, slots: seq<Slot>, threads: seq<Thread>, zero: Value, trace: seq<Event<Op, Res>>)

  datatype Action = Action(tid: nat, op: Op)

  function Init(threads: nat, n: nat, zero: Value): State {
    State(0, 0, seq(n, i => Slot(i, zero, None)), seq(threads, i => Outside), zero, [])
  }

  // ---------------------------------------------------------------- the machine

  function SlotAt(s: State, ticket: nat): Slot
    requires |s.slots| > 0
  {
    s.slots[ticket % |s.slots|]
  }

  function Goto(s: State, t: nat, th: Thread): State
    requires t < |s.threads|
  {
    s.(threads := s.threads[t := th])
  }

  function SetSlot(s: State, ticket: nat, slot: Slot): State
    requires |s.slots| > 0
  {
    s.(slots := s.slots[ticket % |s.slots| := slot])
  }

  function Again(loop: Loop): Loop {
    loop.(retries := loop.retries + 1)
  }

  function Step(s: State, a: Action): State {
    if a.tid < |s.threads| && |s.slots| > 0 then
      if s.threads[a.tid].Outside? || s.threads[a.tid].Returning? then StepInterface(s, a)
      else if IsEnqueue(s.threads[a.tid]) then StepEnqueue(s, a.tid)
      else StepDequeue(s, a.tid)
    else s
  }

  predicate IsEnqueue(th: Thread) {
    th.EnqLoad? || th.EnqLook? || th.EnqCas? || th.EnqWrite? || th.EnqPublish?
  }

  predicate IsDequeue(th: Thread) {
    !IsEnqueue(th) && !th.Outside? && !th.Returning?
  }

  function StepInterface(s: State, a: Action): State
    requires a.tid < |s.threads| && (s.threads[a.tid].Outside? || s.threads[a.tid].Returning?)
  {
    var t := a.tid;
    match s.threads[t]
    case Outside =>
      Goto(s.(trace := s.trace + [Call(t, a.op)]), t,
           if a.op.Enqueue? then EnqLoad(a.op.v, Loop(s.tail, 0)) else DeqLoad(Loop(s.head, 0)))
    case Returning(res) => Goto(s.(trace := s.trace + [Return(t, res)]), t, Outside)
  }

  function StepEnqueue(s: State, t: nat): State
    requires t < |s.threads| && |s.slots| > 0 && IsEnqueue(s.threads[t])
  {
    match s.threads[t]
    case EnqLoad(v, loop) => Goto(s, t, EnqLook(v, s.tail, loop))
    case EnqLook(v, k, loop) =>
      if SlotAt(s, k).seqno < k then Goto(s, t, Returning(Refused))
      else if SlotAt(s, k).seqno == k then Goto(s, t, EnqCas(v, k, loop))
      else Goto(s, t, EnqLoad(v, Again(loop)))
    case EnqCas(v, k, loop) =>
      if s.tail == k
      then Goto(SetSlot(s.(tail := k + 1), k, SlotAt(s, k).(user := Some(t))), t, EnqWrite(v, k))
      else Goto(s, t, EnqLoad(v, Again(loop)))
    case EnqWrite(v, k) => Goto(SetSlot(s, k, SlotAt(s, k).(val := v)), t, EnqPublish(v, k))
    case EnqPublish(v, k) =>
      Goto(SetSlot(s, k, SlotAt(s, k).(seqno := k + 1, user := None)), t, Returning(Enqueued))
  }

  function StepDequeue(s: State, t: nat): State
    requires t < |s.threads| && |s.slots| > 0 && IsDequeue(s.threads[t])
  {
    match s.threads[t]
    case DeqLoad(loop) => Goto(s, t, DeqLook(s.head, loop))
    case DeqLook(k, loop) =>
      if SlotAt(s, k).seqno < k + 1 then Goto(s, t, Returning(Drained))
      else if SlotAt(s, k).seqno == k + 1 then Goto(s, t, DeqCas(k, loop))
      else Goto(s, t, DeqLoad(Again(loop)))
    case DeqCas(k, loop) =>
      if s.head == k
      then Goto(SetSlot(s.(head := k + 1), k, SlotAt(s, k).(user := Some(t))), t, DeqRead(k))
      else Goto(s, t, DeqLoad(Again(loop)))
    case DeqRead(k) => Goto(s, t, DeqClear(k, SlotAt(s, k).val))
    case DeqClear(k, v) => Goto(SetSlot(s, k, SlotAt(s, k).(val := s.zero)), t, DeqFree(k, v))
    case DeqFree(k, v) =>
      Goto(SetSlot(s, k, SlotAt(s, k).(seqno := k + |s.slots|, user := None)), t, Returning(Dequeued(v)))
  }

  // ---------------------------------------------------------------- the specification

  /** A FIFO of capacity n. An Enqueue is refused only when the queue is full or some Dequeue has
      taken its element but not returned; a Dequeue comes back empty only when the queue is empty
      or some Enqueue has added its element but not returned. */
  function FifoSpec(n: nat): Spec<seq<Value>, Op, Res> {
    Spec((o: Queue, t: nat, res: Res) => t < |o.status| && o.status[t].Called? && Allowed(n, o, o.status[t].op, res),
         (q: seq<Value>, op: Op, res: Res) =>
           match res
           case Enqueued => if op.Enqueue? then q + [op.v] else q
           case Dequeued(v) => if q != [] then q[1..] else q
           case _ => q)
  }

  predicate Allowed(n: nat, o: Queue, op: Op, res: Res) {
    match op
    case Enqueue(v) =>
      || (res == Enqueued && |o.value| < n)
      || (res == Refused && (|o.value| == n || exists u :: 0 <= u < |o.status| && Leaving(o.status[u])))
    case Dequeue =>
      || (o.value != [] && res == Dequeued(o.value[0]))
      || (res == Drained && (o.value == [] || exists u :: 0 <= u < |o.status| && Entering(o.status[u])))
  }

  predicate Leaving(st: Status<Op, Res>) { st.Answered? && st.res.Dequeued? }
  predicate Entering(st: Status<Op, Res>) { st.Answered? && st.res.Enqueued? }

  // ---------------------------------------------------------------- the simulation

  /** Slot k % N as seen by ticket k, the one ticket of head..head+N-1 that maps to it. `log` is
      the value of every ticket handed out so far. */
  ghost predicate SlotOk(s: State, log: seq<Value>, k: nat)
    requires |s.slots| > 0 && |log| == s.tail
  {
    var c := SlotAt(s, k);
    if k < s.tail then
      if c.seqno == k then c.user.Some? && Fills(s, c.user.value, k)
      else c.seqno == k + 1 && c.user.None? && c.val == log[k]
    else
      if c.seqno == k then c.user.None?
      else c.seqno == k - |s.slots| + 1 && c.user.Some? && k >= |s.slots| && Empties(s, c.user.value, k - |s.slots|)
  }

  predicate Fills(s: State, u: nat, k: nat) {
    && u < |s.threads|
    && ((s.threads[u].EnqWrite? && s.threads[u].ticket == k) || (s.threads[u].EnqPublish? && s.threads[u].ticket == k))
  }

  predicate Empties(s: State, u: nat, k: nat) {
    && u < |s.threads|
    && (|| (s.threads[u].DeqRead? && s.threads[u].ticket == k)
        || (s.threads[u].DeqClear? && s.threads[u].ticket == k)
        || (s.threads[u].DeqFree? && s.threads[u].ticket == k))
  }

  ghost predicate ThreadOk(s: State, o: Queue, log: seq<Value>, t: nat)
    requires |s.slots| > 0 && t < |s.threads| == |o.status| && |log| == s.tail
  {
    match s.threads[t]
    case Outside => o.status[t] == Resting
    case EnqLoad(v, loop) => o.status[t] == Called(Enqueue(v)) && loop.start + loop.retries <= s.tail
    case EnqLook(v, k, loop) => o.status[t] == Called(Enqueue(v)) && loop.start + loop.retries <= k <= s.tail
    case EnqCas(v, k, loop) =>
      o.status[t] == Called(Enqueue(v)) && loop.start + loop.retries <= k <= s.tail && SlotAt(s, k).seqno >= k
    case EnqWrite(v, k) => o.status[t] == Answered(Enqueued) && Filling(s, log, t, k) && log[k] == v
    case EnqPublish(v, k) =>
      o.status[t] == Answered(Enqueued) && Filling(s, log, t, k) && log[k] == v && SlotAt(s, k).val == v
    case DeqLoad(loop) => o.status[t] == Called(Dequeue) && loop.start + loop.retries <= s.head
    case DeqLook(k, loop) => o.status[t] == Called(Dequeue) && loop.start + loop.retries <= k <= s.head
    case DeqCas(k, loop) =>
      o.status[t] == Called(Dequeue) && loop.start + loop.retries <= k <= s.head && SlotAt(s, k).seqno >= k + 1
    case DeqRead(k) =>
      Emptying(s, t, k) && o.status[t] == Answered(Dequeued(log[k])) && SlotAt(s, k).val == log[k]
    case DeqClear(k, v) => Emptying(s, t, k) && v == log[k] && o.status[t] == Answered(Dequeued(v))
    case DeqFree(k, v) => Emptying(s, t, k) && v == log[k] && o.status[t] == Answered(Dequeued(v))
    case Returning(res) => o.status[t] == Answered(res)
  }

  ghost predicate Filling(s: State, log: seq<Value>, t: nat, k: nat)
    requires |s.slots| > 0
  {
    s.head <= k < s.tail && SlotAt(s, k).user == Some(t) && SlotAt(s, k).seqno == k
  }

  ghost predicate Emptying(s: State, t: nat, k: nat)
    requires |s.slots| > 0
  {
    k < s.head && k < s.tail <= k + |s.slots| && SlotAt(s, k).user == Some(t) && SlotAt(s, k).seqno == k + 1
  }

  ghost predicate Sim(s: State, o: Queue, log: seq<Value>) {
    && |s.slots| >= 2 && |s.threads| == |o.status| && |log| == s.tail
    && s.head <= s.tail <= s.head + |s.slots|
    && o.value == log[s.head..]
    && (forall k :: s.head <= k < s.head + |s.slots| ==> SlotOk(s, log, k))
    && (forall t :: 0 <= t < |s.threads| ==> ThreadOk(s, o, log, t))
  }

  ghost predicate Simulates(s: State, o: Queue, s': State, effects: seq<Event<Op, Res>>, o': Queue) {
    && Play(FifoSpec(|s.slots|), o, effects) == Some(o')
    && s'.trace == s.trace + Visible(effects) && |s'.slots| == |s.slots|
    && exists log' :: Sim(s', o', log')
  }

  /** What seqno a slot can show, in terms of the current window of tickets. */
  lemma SeqnoOf(s: State, o: Queue, log: seq<Value>, k: nat)
    requires Sim(s, o, log) && k <= s.tail
    ensures k < s.head ==> SlotAt(s, k).seqno > k
    ensures s.head <= k < s.tail ==> SlotAt(s, k).seqno >= k
    ensures k == s.tail < s.head + |s.slots| ==>
              SlotAt(s, k).seqno <= k && (SlotAt(s, k).seqno == k ==> SlotAt(s, k).user.None?)
    ensures k == s.tail == s.head + |s.slots| ==> SlotAt(s, k).seqno < k
  {
    var r := InWindow(k, s.head, |s.slots|);
    assert SlotOk(s, log, r);
    if s.head <= k < s.head + |s.slots| {
      if k <= r { SameResidue(k, r, |s.slots|); } else { SameResidue(r, k, |s.slots|); }
    } else if k >= s.head {
      ModAddMultiple(s.head, 1, |s.slots|);
      SameResidue(s.head, r, |s.slots|);
    }
  }

  /** Nothing thread u relies on differs between s and s'. */
  ghost predicate Undisturbed(s: State, log: seq<Value>, s': State, log': seq<Value>, u: nat)
  {
    && u < |s.threads| == |s'.threads| && s'.threads[u] == s.threads[u]
    && |s.slots| == |s'.slots| && |log| == s.tail && |log'| == s'.tail
    && s.head <= s'.head <= s.head + 1 && s.tail <= s'.tail <= s.tail + 1
    && |s.slots| > 0
    && (s'.head != s.head ==> SlotAt(s, s.head).user == None)
    && (s'.tail != s.tail ==> SlotAt(s, s.tail).user == None)
    && log <= log'
    && (forall j :: 0 <= j < |s.slots| ==> s.slots[j].seqno <= s'.slots[j].seqno)
    && (forall j :: 0 <= j < |s.slots| && s.slots[j].user == Some(u) ==> s'.slots[j] == s.slots[j])
  }

  lemma Frame(s: State, o: Queue, log: seq<Value>, s': State, o': Queue, log': seq<Value>, u: nat)
    requires Undisturbed(s, log, s', log', u)
    requires |s.threads| == |o.status| == |o'.status| && o'.status[u] == o.status[u]
    requires ThreadOk(s, o, log, u)
    ensures ThreadOk(s', o', log', u)
  {
    if s.threads[u].DeqRead? || s.threads[u].DeqClear? || s.threads[u].DeqFree? {
      ModAddMultiple(s.threads[u].ticket, 1, |s.slots|);
    }
  }

  /** A move of thread t that touches at most the slot of ticket k. */
  ghost predicate Local(s: State, log: seq<Value>, s': State, log': seq<Value>, t: nat, k: nat) {
    && t < |s.threads| == |s'.threads| && s'.threads == s.threads[t := s'.threads[t]]
    && |s.slots| == |s'.slots| > 0 && |log| == s.tail && |log'| == s'.tail && log <= log'
    && s.head <= s'.head <= s.head + 1 && s.tail <= s'.tail <= s.tail + 1
    && s'.head <= s'.tail <= s'.head + |s.slots|
    && (s'.head != s.head ==> s.head % |s.slots| == k % |s.slots| && SlotAt(s, k).user == None)
    && (s'.tail != s.tail ==> s.tail % |s.slots| == k % |s.slots| && SlotAt(s, k).user == None)
    && s'.slots == s.slots[k % |s.slots| := SlotAt(s', k)]
    && SlotAt(s, k).seqno <= SlotAt(s', k).seqno
    && (SlotAt(s', k) != SlotAt(s, k) ==> SlotAt(s, k).user == None || SlotAt(s, k).user == Some(t))
    && (forall j :: 0 <= j < |s.slots| && s.slots[j].user == Some(t) ==>
          j == k % |s.slots| || s'.threads[t] == s.threads[t])
  }

  lemma SimulateLocal(s: State, o: Queue, log: seq<Value>, s': State, o': Queue, log': seq<Value>, t: nat, k: nat)
    requires Sim(s, o, log) && Local(s, log, s', log', t, k)
    requires |o'.status| == |o.status| && o'.status == o.status[t := o'.status[t]]
    requires o'.value == log'[s'.head..]
    requires s'.head <= k < s'.head + |s.slots| && SlotOk(s', log', k)
    requires ThreadOk(s', o', log', t)
    ensures Sim(s', o', log')
  {
    var n := |s.slots|;
    forall u | 0 <= u < |s'.threads| ensures ThreadOk(s', o', log', u) {
      if u != t { Frame(s, o, log, s', o', log', u); }
    }
    forall r | s'.head <= r < s'.head + n ensures SlotOk(s', log', r) {
      if r % n == k % n {
        if r <= k { SameResidue(r, k, n); } else { SameResidue(k, r, n); }
      } else {
        ModAddMultiple(s.head, 1, n);
        assert SlotOk(s, log, r);
      }
    }
  }

  predicate InFlight(th: Thread) {
    th.EnqWrite? || th.EnqPublish? || th.DeqRead? || th.DeqClear? || th.DeqFree?
  }

  /** A claimed slot belongs to the thread in the middle of filling or emptying it. */
  lemma OwnSlot(s: State, o: Queue, log: seq<Value>, t: nat)
    requires Sim(s, o, log) && t < |s.threads|
    ensures forall j :: 0 <= j < |s.slots| && s.slots[j].user == Some(t) ==>
              InFlight(s.threads[t]) && j == s.threads[t].ticket % |s.slots|
  {
    forall j | 0 <= j < |s.slots| && s.slots[j].user == Some(t)
      ensures InFlight(s.threads[t]) && j == s.threads[t].ticket % |s.slots|
    {
      DivModUnique(j, |s.slots|, 0, j);
      var k := InWindow(j, s.head, |s.slots|);
      assert SlotOk(s, log, k);
      ModAddMultiple(k, -1, |s.slots|);
    }
  }

  /** A move that changes nothing but the thread itself. */
  lemma SimulateStay(s: State, o: Queue, log: seq<Value>, s': State, o': Queue, t: nat)
    requires Sim(s, o, log) && t < |s.threads| == |s'.threads| && s'.threads == s.threads[t := s'.threads[t]]
    requires s'.slots == s.slots && s'.head == s.head && s'.tail == s.tail
    requires !InFlight(s.threads[t])
    requires |o'.status| == |o.status| && o'.status == o.status[t := o'.status[t]] && o'.value == o.value
    requires ThreadOk(s', o', log, t)
    ensures Sim(s', o', log)
  {
    OwnSlot(s, o, log, t);
    assert SlotOk(s, log, s.head);
    assert SlotOk(s', log, s.head);
    SimulateLocal(s, o, log, s', o', log, t, s.head);
  }

  lemma SimulateCall(s: State, o: Queue, log: seq<Value>, a: Action)
    returns (effects: seq<Event<Op, Res>>, o': Queue)
    requires Sim(s, o, log) && a.tid < |s.threads| && s.threads[a.tid].Outside?
    ensures Simulates(s, o, StepInterface(s, a), effects, o')
  {
    assert ThreadOk(s, o, log, a.tid);
    effects := [Call(a.tid, a.op)];
    PlayOne(FifoSpec(|s.slots|), o, effects[0]);
    o' := Apply(FifoSpec(|s.slots|), o, effects[0]).value;
    SimulateStay(s, o, log, StepInterface(s, a), o', a.tid);
  }

  lemma SimulateReturn(s: State, o: Queue, log: seq<Value>, a: Action)
    returns (effects: seq<Event<Op, Res>>, o': Queue)
    requires Sim(s, o, log) && a.tid < |s.threads| && s.threads[a.tid].Returning?
    ensures Simulates(s, o, StepInterface(s, a), effects, o')
  {
    assert ThreadOk(s, o, log, a.tid);
    effects := [Return(a.tid, s.threads[a.tid].res)];
    PlayOne(FifoSpec(|s.slots|), o, effects[0]);
    o' := Apply(FifoSpec(|s.slots|), o, effects[0]).value;
    SimulateStay(s, o, log, StepInterface(s, a), o', a.tid);
  }

  /** Thread t is about to return false from Enqueue, or to come back empty from Dequeue. */
  predicate Refuses(s: State, t: nat)
    requires |s.slots| > 0
  {
    && t < |s.threads|
    && (|| (s.threads[t].EnqLook? && SlotAt(s, s.threads[t].ticket).seqno < s.threads[t].ticket)
        || (s.threads[t].DeqLook? && SlotAt(s, s.threads[t].ticket).seqno < s.threads[t].ticket + 1))
  }

  /** Some Dequeue of this ticket is between its CAS and its seq store (Enqueue: likewise). */
  ghost predicate BeingEmptied(s: State, k: int) { k >= 0 && exists u :: Empties(s, u, k) }
  ghost predicate BeingFilled(s: State, k: nat) { exists u :: Fills(s, u, k) }

  /** The ticket is still the current one, and the ring is full (empty) or the slot's previous
      user is not done with it. */
  ghost predicate Justified(s: State, t: nat)
    requires t < |s.threads|
  {
    match s.threads[t]
    case EnqLook(_, k, _) => s.tail == k && (s.tail == s.head + |s.slots| || BeingEmptied(s, k - |s.slots|))
    case DeqLook(k, _) => s.head == k && (s.tail == s.head || BeingFilled(s, k))
    case _ => false
  }

  lemma RefusesIffJustified(s: State, o: Queue, log: seq<Value>, t: nat)
    requires Sim(s, o, log) && t < |s.threads|
    ensures Refuses(s, t) <==> Justified(s, t)
  {
    assert ThreadOk(s, o, log, t);
    if s.threads[t].EnqLook? || s.threads[t].DeqLook? {
      var k, n := s.threads[t].ticket, |s.slots|;
      SeqnoOf(s, o, log, k);
      if s.head <= k < s.head + n { assert SlotOk(s, log, k); }
      if Justified(s, t) {
        if s.threads[t].EnqLook? && BeingEmptied(s, k - n) {
          var u :| Empties(s, u, k - n);
          assert ThreadOk(s, o, log, u);
          ModAddMultiple(k, -1, n);
        } else if s.threads[t].DeqLook? && BeingFilled(s, k) {
          var u :| Fills(s, u, k);
          assert ThreadOk(s, o, log, u);
        }
      }
    }
  }

  lemma SimulateRefused(s: State, o: Queue, log: seq<Value>, t: nat)
    returns (effects: seq<Event<Op, Res>>, o': Queue)
    requires Sim(s, o, log) && Refuses(s, t) && s.threads[t].EnqLook?
    ensures Simulates(s, o, StepEnqueue(s, t), effects, o')
  {
    assert ThreadOk(s, o, log, t);
    RefusesIffJustified(s, o, log, t);
    var n := |s.slots|;
    if s.tail - s.head != n {
      var u: nat :| Empties(s, u, s.threads[t].ticket - n);
      assert ThreadOk(s, o, log, u) && Leaving(o.status[u]);
    }
    assert Allowed(n, o, o.status[t].op, Refused);
    effects := [Effect(t, Refused)];
    PlayOne(FifoSpec(n), o, effects[0]);
    o' := Apply(FifoSpec(n), o, effects[0]).value;
    SimulateStay(s, o, log, StepEnqueue(s, t), o', t);
  }

  lemma SimulateDrained(s: State, o: Queue, log: seq<Value>, t: nat)
    returns (effects: seq<Event<Op, Res>>, o': Queue)
    requires Sim(s, o, log) && Refuses(s, t) && s.threads[t].DeqLook?
    ensures Simulates(s, o, StepDequeue(s, t), effects, o')
  {
    assert ThreadOk(s, o, log, t);
    RefusesIffJustified(s, o, log, t);
    var n := |s.slots|;
    if s.tail != s.head {
      var u: nat :| Fills(s, u, s.threads[t].ticket);
      assert ThreadOk(s, o, log, u) && Entering(o.status[u]);
    }
    assert Allowed(n, o, o.status[t].op, Drained);
    effects := [Effect(t, Drained)];
    PlayOne(FifoSpec(n), o, effects[0]);
    o' := Apply(FifoSpec(n), o, effects[0]).value;
    SimulateStay(s, o, log, StepDequeue(s, t), o', t);
  }

  /** Loads, looks that go on, and failed CASes. */
  lemma SimulateEnqLoop(s: State, o: Queue, log: seq<Value>, t: nat)
    requires Sim(s, o, log) && t < |s.threads| && !Refuses(s, t)
    requires s.threads[t].EnqLoad? || s.threads[t].EnqLook? || (s.threads[t].EnqCas? && s.tail != s.threads[t].ticket)
    ensures Sim(StepEnqueue(s, t), o, log)
  {
    assert ThreadOk(s, o, log, t);
    if !s.threads[t].EnqLoad? { SeqnoOf(s, o, log, s.threads[t].ticket); }
    SimulateStay(s, o, log, StepEnqueue(s, t), o, t);
  }

  lemma SimulateDeqLoop(s: State, o: Queue, log: seq<Value>, t: nat)
    requires Sim(s, o, log) && t < |s.threads| && !Refuses(s, t)
    requires s.threads[t].DeqLoad? || s.threads[t].DeqLook? || (s.threads[t].DeqCas? && s.head != s.threads[t].ticket)
    ensures Sim(StepDequeue(s, t), o, log)
  {
    assert ThreadOk(s, o, log, t);
    if !s.threads[t].DeqLoad? {
      var k := s.threads[t].ticket;
      SeqnoOf(s, o, log, k);
      if k == s.head { assert SlotOk(s, log, k); }
    }
    SimulateStay(s, o, log, StepDequeue(s, t), o, t);
  }

  lemma SimulateEnqCas(s: State, o: Queue, log: seq<Value>, t: nat)
    returns (effects: seq<Event<Op, Res>>, o': Queue)
    requires Sim(s, o, log) && t < |s.threads| && s.threads[t].EnqCas? && s.tail == s.threads[t].ticket
    ensures Simulates(s, o, StepEnqueue(s, t), effects, o')
  {
    assert ThreadOk(s, o, log, t);
    var n, k, v := |s.slots|, s.tail, s.threads[t].v;
    SeqnoOf(s, o, log, k);
    OwnSlot(s, o, log, t);
    var s', log' := StepEnqueue(s, t), log + [v];
    effects := [Effect(t, Enqueued)];
    PlayOne(FifoSpec(n), o, effects[0]);
    o' := Apply(FifoSpec(n), o, effects[0]).value;
    assert o'.value == log'[s'.head..];
    assert SlotOk(s, log, k) && SlotOk(s', log', k);
    SimulateLocal(s, o, log, s', o', log', t, k);
  }

  lemma SimulateDeqCas(s: State, o: Queue, log: seq<Value>, t: nat)
    returns (effects: seq<Event<Op, Res>>, o': Queue)
    requires Sim(s, o, log) && t < |s.threads| && s.threads[t].DeqCas? && s.head == s.threads[t].ticket
    ensures Simulates(s, o, StepDequeue(s, t), effects, o')
  {
    assert ThreadOk(s, o, log, t);
    var n, k := |s.slots|, s.head;
    SeqnoOf(s, o, log, k);
    OwnSlot(s, o, log, t);
    assert SlotOk(s, log, k);
    var s' := StepDequeue(s, t);
    effects := [Effect(t, Dequeued(log[k]))];
    PlayOne(FifoSpec(n), o, effects[0]);
    o' := Apply(FifoSpec(n), o, effects[0]).value;
    assert o'.value == log[s'.head..];
    ModAddMultiple(k, 1, n);
    assert SlotOk(s', log, k + n);
    SimulateLocal(s, o, log, s', o', log, t, k + n);
  }

  /** The moves of a thread that owns a slot: plain accesses, then the seq store. */
  lemma SimulateFill(s: State, o: Queue, log: seq<Value>, t: nat)
    requires Sim(s, o, log) && t < |s.threads| && (s.threads[t].EnqWrite? || s.threads[t].EnqPublish?)
    ensures Sim(StepEnqueue(s, t), o, log)
  {
    assert ThreadOk(s, o, log, t);
    OwnSlot(s, o, log, t);
    var k := s.threads[t].ticket;
    assert SlotOk(s, log, k) && SlotOk(StepEnqueue(s, t), log, k);
    SimulateLocal(s, o, log, StepEnqueue(s, t), o, log, t, k);
  }

  lemma SimulateDrain(s: State, o: Queue, log: seq<Value>, t: nat)
    requires Sim(s, o, log) && t < |s.threads|
    requires s.threads[t].DeqRead? || s.threads[t].DeqClear? || s.threads[t].DeqFree?
    ensures Sim(StepDequeue(s, t), o, log)
  {
    assert ThreadOk(s, o, log, t);
    OwnSlot(s, o, log, t);
    var n := |s.slots|;
    ModAddMultiple(s.threads[t].ticket, 1, n);
    var k := InWindow(s.threads[t].ticket + n, s.head, n);
    SameSlot(s, o, log, t, k);
    assert SlotOk(s, log, k) && SlotOk(StepDequeue(s, t), log, k);
    SimulateLocal(s, o, log, StepDequeue(s, t), o, log, t, k);
  }

  /** The slot a dequeuer empties serves ticket + N next. */
  lemma SameSlot(s: State, o: Queue, log: seq<Value>, t: nat, k: nat)
    requires Sim(s, o, log) && t < |s.threads|
    requires s.threads[t].DeqRead? || s.threads[t].DeqClear? || s.threads[t].DeqFree?
    requires s.head <= k < s.head + |s.slots| && k % |s.slots| == s.threads[t].ticket % |s.slots|
    ensures k == s.threads[t].ticket + |s.slots|
  {
    assert ThreadOk(s, o, log, t) && SlotOk(s, log, k);
  }

  // ---------------------------------------------------------------- main results

  ghost predicate Inv(s: State, threads: nat, n: nat) {
    |s.slots| == n && exists history, o, log ::
      Explains(FifoSpec(n), Fresh([], threads), history, s.trace, o) && Sim(s, o, log)
  }

  lemma SimulateStep(s: State, o: Queue, log: seq<Value>, a: Action)
    returns (effects: seq<Event<Op, Res>>, o': Queue)
    requires Sim(s, o, log) && a.tid < |s.threads|
    ensures Simulates(s, o, Step(s, a), effects, o')
  {
    var t := a.tid;
    var th := s.threads[t];
    effects, o' := [], o;
    if th.Outside? { effects, o' := SimulateCall(s, o, log, a); }
    else if th.Returning? { effects, o' := SimulateReturn(s, o, log, a); }
    else if Refuses(s, t) && th.EnqLook? { effects, o' := SimulateRefused(s, o, log, t); }
    else if Refuses(s, t) { effects, o' := SimulateDrained(s, o, log, t); }
    else if th.EnqCas? && s.tail == th.ticket { effects, o' := SimulateEnqCas(s, o, log, t); }
    else if th.DeqCas? && s.head == th.ticket { effects, o' := SimulateDeqCas(s, o, log, t); }
    else if th.EnqWrite? || th.EnqPublish? { SimulateFill(s, o, log, t); }
    else if IsEnqueue(th) { SimulateEnqLoop(s, o, log, t); }
    else if th.DeqLoad? || th.DeqLook? || th.DeqCas? { SimulateDeqLoop(s, o, log, t); }
    else { SimulateDrain(s, o, log, t); }
  }

  lemma StepKeepsInv(s: State, a: Action, threads: nat, n: nat)
    requires Inv(s, threads, n)
    ensures Inv(Step(s, a), threads, n)
  {
    var history, o, log :|
      Explains(FifoSpec(n), Fresh([], threads), history, s.trace, o) && Sim(s, o, log);
    if a.tid < |s.threads| {
      var effects, o' := SimulateStep(s, o, log, a);
      Chain(FifoSpec(n), Fresh([], threads), history, s.trace, o, effects, o');
    }
  }

  lemma SimStarts(threads: nat, n: nat, zero: Value, o: Queue)
    requires n >= 2 && o == Object([], seq(threads, i => Resting))
    ensures Sim(Init(threads, n, zero), o, [])
  {
    var init := Init(threads, n, zero);
    forall k | 0 <= k < n ensures SlotOk(init, [], k) { DivModUnique(k, n, 0, k); }
    forall t | 0 <= t < threads ensures ThreadOk(init, o, [], t) { assert init.threads[t] == Outside; }
  }

  lemma InvStarts(threads: nat, n: nat, zero: Value)
    requires n >= 2
    ensures Inv(Init(threads, n, zero), threads, n)
  {
    var o := Fresh<seq<Value>, Op, Res>([], threads);
    SimStarts(threads, n, zero, o);
    assert Explains(FifoSpec(n), o, [], [], o);
  }

  lemma InvHolds(threads: nat, n: nat, zero: Value, schedule: seq<Action>)
    requires n >= 2
    ensures Inv(Exec(Step, Init(threads, n, zero), schedule), threads, n)
  {
    InvStarts(threads, n, zero);
    forall s, a | Inv(s, threads, n) ensures Inv(Step(s, a), threads, n) { StepKeepsInv(s, a, threads, n); }
    Always(Step, s => Inv(s, threads, n), Init(threads, n, zero), schedule);
  }

  /** Every run is linearizable to the FIFO of capacity N. */
  lemma RingIsLinearizable(threads: nat, n: nat, zero: Value, schedule: seq<Action>)
    requires n >= 2
    ensures Linearizable(FifoSpec(n), Fresh([], threads), Exec(Step, Init(threads, n, zero), schedule).trace)
  {
    InvHolds(threads, n, zero, schedule);
  }

  lemma OneOwner(s: State, o: Queue, log: seq<Value>, t: nat, u: nat)
    requires Sim(s, o, log) && t < |s.threads| && u < |s.threads| && t != u
    requires InFlight(s.threads[t]) && InFlight(s.threads[u])
    ensures s.threads[t].ticket % |s.slots| != s.threads[u].ticket % |s.slots|
  {
    assert ThreadOk(s, o, log, t) && ThreadOk(s, o, log, u);
  }

  /** A slot's plain val is only touched by the one thread that has claimed the slot. */
  lemma ValIsOwned(threads: nat, n: nat, zero: Value, schedule: seq<Action>, t: nat, u: nat)
    requires n >= 2 && t != u
    ensures
      var s := Exec(Step, Init(threads, n, zero), schedule);
      t < |s.threads| && u < |s.threads| && InFlight(s.threads[t]) && InFlight(s.threads[u]) ==>
        s.threads[t].ticket % n != s.threads[u].ticket % n
  {
    InvHolds(threads, n, zero, schedule);
    var s := Exec(Step, Init(threads, n, zero), schedule);
    var history, o, log :| Explains(FifoSpec(n), Fresh([], threads), history, s.trace, o) && Sim(s, o, log);
    if t < |s.threads| && u < |s.threads| && InFlight(s.threads[t]) && InFlight(s.threads[u]) {
      OneOwner(s, o, log, t, u);
    }
  }

  /** In every reachable state: never more than N elements, and a call is about to report failure
      exactly when that is justified. */
  lemma RefusalsInRuns(threads: nat, n: nat, zero: Value, schedule: seq<Action>, t: nat)
    requires n >= 2
    ensures
      var s := Exec(Step, Init(threads, n, zero), schedule);
      && |s.slots| == n && s.head <= s.tail <= s.head + n
      && (t < |s.threads| ==> (Refuses(s, t) <==> Justified(s, t)))
  {
    InvHolds(threads, n, zero, schedule);
    var s := Exec(Step, Init(threads, n, zero), schedule);
    var history, o, log :| Explains(FifoSpec(n), Fresh([], threads), history, s.trace, o) && Sim(s, o, log);
    if t < |s.threads| { RefusesIffJustified(s, o, log, t); }
  }

  function LoopOf(th: Thread): Option<Loop> {
    match th
    case EnqLoad(_, loop) => Some(loop)
    case EnqLook(_, _, loop) => Some(loop)
    case EnqCas(_, _, loop) => Some(loop)
    case DeqLoad(loop) => Some(loop)
    case DeqLook(_, loop) => Some(loop)
    case DeqCas(_, loop) => Some(loop)
    case _ => None
  }

  /** Lock-freedom: a call never retries more often than other calls have completed their CAS on
      the same counter since it began. */
  lemma RetriesAreBounded(threads: nat, n: nat, zero: Value, schedule: seq<Action>, t: nat)
    requires n >= 2
    ensures
      var s := Exec(Step, Init(threads, n, zero), schedule);
      t < |s.threads| && LoopOf(s.threads[t]).Some? ==>
        var loop := LoopOf(s.threads[t]).value;
        loop.retries <= (if IsEnqueue(s.threads[t]) then s.tail else s.head) - loop.start
  {
    InvHolds(threads, n, zero, schedule);
    var s := Exec(Step, Init(threads, n, zero), schedule);
    var history, o, log :| Explains(FifoSpec(n), Fresh([], threads), history, s.trace, o) && Sim(s, o, log);
    if t < |s.threads| { assert ThreadOk(s, o, log, t); }
  }

  // Why N must be at least 2: a ring of one slot reads "filled for ticket 0" as "free for ticket 1".

  lemma Moves(init: State, s: State, a: Action, expected: State) returns (r: State)
    requires Reachable(Step, init, s) && Step(s, a) == expected
    ensures r == expected && Reachable(Step, init, r)
  {
    ReachableStep(Step, init, s, a);
    r := expected;
  }

  /** With one slot whose sequence number is the tail, an Enqueue gets its ticket. */
  lemma TakesTicket(init: State, s: State, v: Value) returns (r: State)
    requires Reachable(Step, init, s) && |s.slots| == 1 && |s.threads| == 1 && s.threads[0] == Outside
    requires s.slots[0].seqno == s.tail
    ensures Reachable(Step, init, r)
    ensures r == s.(tail := s.tail + 1, slots := [s.slots[0].(user := Some(0))], threads := [EnqWrite(v, s.tail)],
                    trace := s.trace + [Call(0, Enqueue(v))])
  {
    var a, loop, k := Action(0, Enqueue(v)), Loop(s.tail, 0), s.tail;
    DivModUnique(k, 1, k, 0);
    var called := s.(trace := s.trace + [Call(0, Enqueue(v))]);
    var s1 := Moves(init, s, a, called.(threads := [EnqLoad(v, loop)]));
    s1 := Moves(init, s1, a, called.(threads := [EnqLook(v, k, loop)]));
    s1 := Moves(init, s1, a, called.(threads := [EnqCas(v, k, loop)]));
    var claimed := [s.slots[0].(user := Some(0))];
    r := Moves(init, s1, a, called.(tail := k + 1, slots := claimed, threads := [EnqWrite(v, k)]));
  }

  /** A ring of size 1 takes a second element while it holds the first. */
  lemma SizeOneOverfills(zero: Value, v: Value, w: Value)
    ensures exists s :: Reachable(Step, Init(1, 1, zero), s) && |s.slots| == 1 && s.tail == s.head + 2
  {
    var init, a := Init(1, 1, zero), Action(0, Enqueue(v));
    ReachableInit(Step, init);
    var s := TakesTicket(init, init, v);
    s := Moves(init, s, a, s.(slots := [Slot(0, v, Some(0))], threads := [EnqPublish(v, 0)]));
    s := Moves(init, s, a, s.(slots := [Slot(1, v, None)], threads := [Returning(Enqueued)]));
    s := Moves(init, s, a, s.(threads := [Outside], trace := s.trace + [Return(0, Enqueued)]));
    s := TakesTicket(init, s, w);
  }
}
