/** queue/lockfree_mpsc.go: producers share the tail by CAS, the one consumer keeps its head in a plain
    field. Thread 0 is the consumer. N = |slots| is arbitrary from 2 on; `ticket & queueMask` is
    ticket % N (see Bits.MaskIsMod). `Slot.user` names the producer that has claimed the slot; no
    step reads it. */
module MpscRing {
  import opened Wrappers
  import opened Schedules
  import opened Linearizability
  import opened Arithmetic
  import opened BoundedFifo

  datatype Slot = Slot(seqno: int, val: Value, user: Option<nat>)

  datatype Thread =
    | Outside
    | EnqLoad(v: Value)                      // :27
    | EnqLook(v: Value, ticket: nat)         // :29
    | EnqCas(v: Value, ticket: nat)          // :38
    | EnqWrite(v: Value, ticket: nat)        // :39
    | EnqPublish(v: Value, ticket: nat)      // :40
    | DeqLook                                // :51
    | DeqRead                                // :56
    | DeqClear(v: Value)                     // :57
    | DeqFree(v: Value)                      // :59
    | DeqAdvance(v: Value)                   // :60
    | Returning(res: Res)

  datatype State = State(
    head: nat, tail: nat, slots: seq<Slot>, threads: seq<Thread>, zero: Value, trace: seq<Event<Op, Res>>)

  /** Which thread moves, and the value its next Enqueue brings. */
  datatype Action = Action(tid: nat, v: Value)

  const CONSUMER: nat := 0

  function Init(threads: nat, n: nat, zero: Value): State {
    State(0, 0, seq(n, i => Slot(i, zero, None)), seq(threads, i => Outside), zero, [])
  }

  function SlotAt(s: State, ticket: nat): Slot
    requires |s.slots| > 0
  {
    s.slots[ticket % |s.slots|]
  }

  function Goto(s: State, t: nat, th: Thread): State
    requires t < |s.threads|
  {
    s.(threads := s.threads[t := th])
  }

  function SetSlot(s: State, ticket: nat, slot: Slot): State
    requires |s.slots| > 0
  {
    s.(slots := s.slots[ticket % |s.slots| := slot])
  }

  // ---------------------------------------------------------------- the machine

  function Step(s: State, a: Action): State {
    if a.tid < |s.threads| && |s.slots| > 0 then
      if s.threads[a.tid].Outside? || s.threads[a.tid].Returning? then StepInterface(s, a)
      else if IsEnqueue(s.threads[a.tid]) then StepEnqueue(s, a.tid)
      else StepDequeue(s, a.tid)
    else s
  }

  predicate IsEnqueue(th: Thread) {
    th.EnqLoad? || th.EnqLook? || th.EnqCas? || th.EnqWrite? || th.EnqPublish?
  }

  predicate IsDequeue(th: Thread) {
    !IsEnqueue(th) && !th.Outside? && !th.Returning?
  }

  function OpOf(a: Action): Op {
    if a.tid == CONSUMER then Dequeue else Enqueue(a.v)
  }

  function StepInterface(s: State, a: Action): State
    requires a.tid < |s.threads| && (s.threads[a.tid].Outside? || s.threads[a.tid].Returning?)
  {
    var t := a.tid;
    match s.threads[t]
    case Outside =>
      Goto(s.(trace := s.trace + [Call(t, OpOf(a))]), t, if t == CONSUMER then DeqLook else EnqLoad(a.v))
    case Returning(res) => Goto(s.(trace := s.trace + [Return(t, res)]), t, Outside)
  }

  function StepEnqueue(s: State, t: nat): State
    requires t < |s.threads| && |s.slots| > 0 && IsEnqueue(s.threads[t])
  {
    match s.threads[t]
    case EnqLoad(v) => Goto(s, t, EnqLook(v, s.tail))
    case EnqLook(v, k) =>
      if SlotAt(s, k).seqno < k then Goto(s, t, Returning(Refused))
      else if SlotAt(s, k).seqno == k then Goto(s, t, EnqCas(v, k))
      else Goto(s, t, EnqLoad(v))
    case EnqCas(v, k) =>
      if s.tail == k
      then Goto(SetSlot(s.(tail := k + 1), k, SlotAt(s, k).(user := Some(t))), t, EnqWrite(v, k))
      else Goto(s, t, EnqLoad(v))
    case EnqWrite(v, k) => Goto(SetSlot(s, k, SlotAt(s, k).(val := v)), t, EnqPublish(v, k))
    case EnqPublish(v, k) =>
      Goto(SetSlot(s, k, SlotAt(s, k).(seqno := k + 1, user := None)), t, Returning(Enqueued))
  }

  function StepDequeue(s: State, t: nat): State
    requires t < |s.threads| && |s.slots| > 0 && IsDequeue(s.threads[t])
  {
    var k := s.head;
    match s.threads[t]
    case DeqLook => Goto(s, t, if SlotAt(s, k).seqno != k + 1 then Returning(Drained) else DeqRead)
    case DeqRead => Goto(s, t, DeqClear(SlotAt(s, k).val))
    case DeqClear(v) => Goto(SetSlot(s, k, SlotAt(s, k).(val := s.zero)), t, DeqFree(v))
    case DeqFree(v) => Goto(SetSlot(s, k, SlotAt(s, k).(seqno := k + |s.slots|)), t, DeqAdvance(v))
    case DeqAdvance(v) => Goto(s.(head := k + 1), t, Returning(Dequeued(v)))
  }

  // ---------------------------------------------------------------- the specification

  /** Exact, but that a Dequeue may also come back empty while some Enqueue has added its element
      and not yet returned. */
  function RingSpec(n: nat): Spec<seq<Value>, Op, Res> {
    Spec((o: Queue, t: nat, res: Res) => t < |o.status| && o.status[t].Called? && Allowed(n, o, o.status[t].op, res),
         (q: seq<Value>, op: Op, res: Res) => if res.Drained? then q else Left(n, q, op))
  }

  predicate Allowed(n: nat, o: Queue, op: Op, res: Res) {
    || res == Answer(n, o.value, op)
    || (op == Dequeue && res == Drained && exists u :: 0 <= u < |o.status| && Entering(o.status[u]))
  }

  predicate Entering(st: Status<Op, Res>) { st.Answered? && st.res.Enqueued? }

  // ---------------------------------------------------------------- the simulation

  /** Elements dequeued: a Dequeue takes effect when it frees the slot, before it moves the head. */
  function Freed(s: State): nat {
    if s.threads != [] && s.threads[CONSUMER].DeqAdvance? then s.head + 1 else s.head
  }

  /** Slot k % N as seen by ticket k, the one ticket of the window that maps to it. */
  ghost predicate SlotOk(s: State, log: seq<Value>, k: nat)
    requires |s.slots| > 0 && |s.threads| > 0 && |log| == s.tail
  {
    var c := SlotAt(s, k);
    if k >= s.tail then c.seqno == k && c.user.None?
    else if c.seqno == k then c.user.Some? && Fills(s, c.user.value, k)
    else c.seqno == k + 1 && c.user.None? && (c.val == log[k] || (s.threads[CONSUMER].DeqFree? && k == s.head))
  }

  predicate Fills(s: State, u: nat, k: nat) {
    && u < |s.threads|
    && ((s.threads[u].EnqWrite? && s.threads[u].ticket == k) || (s.threads[u].EnqPublish? && s.threads[u].ticket == k))
  }

  ghost predicate Filling(s: State, log: seq<Value>, t: nat, k: nat, v: Value)
    requires |s.slots| > 0 && |log| == s.tail
  {
    Freed(s) <= k < s.tail && SlotAt(s, k).user == Some(t) && SlotAt(s, k).seqno == k && log[k] == v
  }

  /** The head's slot is filled and published. */
  predicate Ready(s: State)
    requires |s.slots| > 0
  {
    s.head < s.tail && SlotAt(s, s.head).seqno == s.head + 1
  }

  ghost predicate ThreadOk(s: State, o: Queue, log: seq<Value>, t: nat)
    requires |s.slots| > 0 && t < |s.threads| == |o.status| && |log| == s.tail
  {
    var st := o.status[t];
    && (IsDequeue(s.threads[t]) ==> t == CONSUMER) && (IsEnqueue(s.threads[t]) ==> t != CONSUMER)
    && match s.threads[t]
       case Outside => st == Resting
       case EnqLoad(v) => st == Called(Enqueue(v))
       case EnqLook(v, k) => st == Called(Enqueue(v)) && k <= s.tail
       case EnqCas(v, k) => st == Called(Enqueue(v)) && k <= s.tail && SlotAt(s, k).seqno >= k
       case EnqWrite(v, k) => st == Answered(Enqueued) && Filling(s, log, t, k, v)
       case EnqPublish(v, k) => st == Answered(Enqueued) && Filling(s, log, t, k, v) && SlotAt(s, k).val == v
       case DeqLook => st == Called(Dequeue)
       case DeqRead => st == Called(Dequeue) && Ready(s)
       case DeqClear(v) => st == Called(Dequeue) && Ready(s) && v == log[s.head]
       case DeqFree(v) => st == Called(Dequeue) && Ready(s) && v == log[s.head]
       case DeqAdvance(v) => st == Answered(Dequeued(v)) && s.head < s.tail
       case Returning(res) => st == Answered(res)
  }

  ghost predicate Sim(s: State, o: Queue, log: seq<Value>) {
    && |s.slots| >= 2 && |s.threads| == |o.status| > 0 && |log| == s.tail
    && Freed(s) <= s.tail <= Freed(s) + |s.slots|
    && o.value == log[Freed(s)..]
    && (forall k :: Freed(s) <= k < Freed(s) + |s.slots| ==> SlotOk(s, log, k))
    && (forall t :: 0 <= t < |s.threads| ==> ThreadOk(s, o, log, t))
  }

  ghost predicate Simulates(s: State, o: Queue, s': State, effects: seq<Event<Op, Res>>, o': Queue) {
    && Play(RingSpec(|s.slots|), o, effects) == Some(o')
    && s'.trace == s.trace + Visible(effects) && |s'.slots| == |s.slots|
    && exists log' :: Sim(s', o', log')
  }

  lemma OneEvent(n: nat, o: Queue, e: Event<Op, Res>) returns (effects: seq<Event<Op, Res>>, o': Queue)
    requires Apply(RingSpec(n), o, e).Some?
    ensures effects == [e] && Visible([e]) == if e.Effect? then [] else [e]
    ensures Play(RingSpec(n), o, effects) == Some(o') == Apply(RingSpec(n), o, e)
  {
    effects := [e];
    PlayOne(RingSpec(n), o, e);
    o' := Apply(RingSpec(n), o, e).value;
  }

  /** What seqno a producer can find. */
  lemma SeqnoOf(s: State, o: Queue, log: seq<Value>, k: nat)
    requires Sim(s, o, log) && k <= s.tail
    ensures k < s.tail ==> SlotAt(s, k).seqno >= k
    ensures k == s.tail < Freed(s) + |s.slots| ==> SlotAt(s, k).seqno == k
    ensures k == s.tail == Freed(s) + |s.slots| ==> SlotAt(s, k).seqno < k
  {
    var r := InWindow(k, Freed(s), |s.slots|);
    assert SlotOk(s, log, r);
    if Freed(s) <= k < Freed(s) + |s.slots| {
      if k <= r { SameResidue(k, r, |s.slots|); } else { SameResidue(r, k, |s.slots|); }
    } else if k >= Freed(s) {
      ModAddMultiple(Freed(s), 1, |s.slots|);
      SameResidue(Freed(s), r, |s.slots|);
    }
  }

  /** Nothing thread u relies on differs between s and s'. */
  ghost predicate Undisturbed(s: State, log: seq<Value>, s': State, log': seq<Value>, u: nat) {
    && u < |s.threads| == |s'.threads| && s'.threads[u] == s.threads[u]
    && |s.slots| == |s'.slots| > 0 && |log| == s.tail <= s'.tail == |log'| && log <= log'
    && (Freed(s') != Freed(s) ==> Freed(s') == Freed(s) + 1 && SlotAt(s, Freed(s)).user == None)
    && (forall j :: 0 <= j < |s.slots| ==> s.slots[j].seqno <= s'.slots[j].seqno)
    && (forall j :: 0 <= j < |s.slots| && s.slots[j].user == Some(u) ==> s'.slots[j] == s.slots[j])
    && (u == CONSUMER ==> s'.head == s.head && (Ready(s) ==> SlotAt(s', s.head) == SlotAt(s, s.head)))
  }

  lemma Frame(s: State, o: Queue, log: seq<Value>, s': State, o': Queue, log': seq<Value>, u: nat)
    requires Undisturbed(s, log, s', log', u)
    requires |s.threads| == |o.status| == |o'.status| && o'.status[u] == o.status[u]
    requires ThreadOk(s, o, log, u)
    ensures ThreadOk(s', o', log', u)
  {
  }

  /** A move of thread t that touches at most the slot of ticket k. */
  ghost predicate Local(s: State, log: seq<Value>, s': State, log': seq<Value>, t: nat, k: nat) {
    && t < |s.threads| == |s'.threads| && s'.threads == s.threads[t := s'.threads[t]]
    && |s.slots| == |s'.slots| > 0 && |log| == s.tail <= s'.tail == |log'| && log <= log'
    && Freed(s') <= s'.tail <= Freed(s') + |s.slots|
    && (t != CONSUMER ==> s'.head == s.head)
    && (Freed(s') == Freed(s) || (Freed(s') == Freed(s) + 1 == s.head + 1 && k == Freed(s) + |s.slots| && Ready(s)))
    && (s'.tail == s.tail || (s'.tail == s.tail + 1 && s.tail == k))
    && s'.slots == s.slots[k % |s.slots| := SlotAt(s', k)]
    && SlotAt(s, k).seqno <= SlotAt(s', k).seqno
    && (SlotAt(s', k) != SlotAt(s, k) ==>
          (SlotAt(s, k).user == None || SlotAt(s, k).user == Some(t)) && (t == CONSUMER || SlotAt(s, k).seqno == k))
    && (forall j :: 0 <= j < |s.slots| && s.slots[j].user == Some(t) ==>
          j == k % |s.slots| || s'.threads[t] == s.threads[t])
    && (t == CONSUMER && s.threads[t].DeqFree? ==> s.head % |s.slots| == k % |s.slots|)
  }

  lemma UndisturbedByLocal(s: State, o: Queue, log: seq<Value>, s': State, log': seq<Value>, t: nat, k: nat, u: nat)
    requires Sim(s, o, log) && Local(s, log, s', log', t, k) && u < |s.threads| && u != t
    ensures Undisturbed(s, log, s', log', u)
  {
    if Ready(s) {
      if Freed(s) == s.head { assert SlotOk(s, log, s.head); }
      if k == s.head + 1 && k % |s.slots| == s.head % |s.slots| { SameResidue(s.head, k, |s.slots|); }
    }
  }

  lemma SimulateLocal(s: State, o: Queue, log: seq<Value>, s': State, o': Queue, log': seq<Value>, t: nat, k: nat)
    requires Sim(s, o, log) && Local(s, log, s', log', t, k)
    requires |o'.status| == |o.status| && o'.status == o.status[t := o'.status[t]]
    requires o'.value == log'[Freed(s')..]
    requires Freed(s') <= k < Freed(s') + |s.slots| && SlotOk(s', log', k)
    requires ThreadOk(s', o', log', t)
    ensures Sim(s', o', log')
  {
    var n := |s.slots|;
    forall u | 0 <= u < |s'.threads| ensures ThreadOk(s', o', log', u) {
      if u != t {
        UndisturbedByLocal(s, o, log, s', log', t, k, u);
        Frame(s, o, log, s', o', log', u);
      }
    }
    forall r | Freed(s') <= r < Freed(s') + n ensures SlotOk(s', log', r) {
      if r % n == k % n {
        if r <= k { SameResidue(r, k, n); } else { SameResidue(k, r, n); }
      } else {
        assert SlotOk(s, log, r);
      }
    }
  }

  predicate InFlight(th: Thread) {
    th.EnqWrite? || th.EnqPublish?
  }

  /** A claimed slot belongs to the producer in the middle of filling it. */
  lemma OwnSlot(s: State, o: Queue, log: seq<Value>, t: nat)
    requires Sim(s, o, log) && t < |s.threads|
    ensures forall j :: 0 <= j < |s.slots| && s.slots[j].user == Some(t) ==>
              InFlight(s.threads[t]) && j == s.threads[t].ticket % |s.slots|
  {
    forall j | 0 <= j < |s.slots| && s.slots[j].user == Some(t)
      ensures InFlight(s.threads[t]) && j == s.threads[t].ticket % |s.slots|
    {
      DivModUnique(j, |s.slots|, 0, j);
      var k := InWindow(j, Freed(s), |s.slots|);
      assert SlotOk(s, log, k);
    }
  }

  /** A move that changes nothing but the thread itself. */
  lemma SimulateStay(s: State, o: Queue, log: seq<Value>, s': State, o': Queue, t: nat)
    requires Sim(s, o, log) && t < |s.threads| == |s'.threads| && s'.threads == s.threads[t := s'.threads[t]]
    requires s'.slots == s.slots && s'.tail == s.tail && Freed(s') == Freed(s) && (t == CONSUMER || s'.head == s.head)
    requires !InFlight(s.threads[t]) && !s.threads[t].DeqFree?
    requires |o'.status| == |o.status| && o'.status == o.status[t := o'.status[t]] && o'.value == o.value
    requires ThreadOk(s', o', log, t)
    ensures Sim(s', o', log)
  {
    OwnSlot(s, o, log, t);
    var k := Freed(s);
    assert SlotOk(s, log, k);
    assert SlotOk(s', log, k);
    SimulateLocal(s, o, log, s', o', log, t, k);
  }

  lemma SimulateCall(s: State, o: Queue, log: seq<Value>, a: Action)
    returns (effects: seq<Event<Op, Res>>, o': Queue)
    requires Sim(s, o, log) && a.tid < |s.threads| && s.threads[a.tid].Outside?
    ensures Simulates(s, o, StepInterface(s, a), effects, o')
  {
    assert ThreadOk(s, o, log, a.tid);
    effects, o' := OneEvent(|s.slots|, o, Call(a.tid, OpOf(a)));
    SimulateStay(s, o, log, StepInterface(s, a), o', a.tid);
  }

  lemma SimulateReturn(s: State, o: Queue, log: seq<Value>, a: Action)
    returns (effects: seq<Event<Op, Res>>, o': Queue)
    requires Sim(s, o, log) && a.tid < |s.threads| && s.threads[a.tid].Returning?
    ensures Simulates(s, o, StepInterface(s, a), effects, o')
  {
    assert ThreadOk(s, o, log, a.tid);
    effects, o' := OneEvent(|s.slots|, o, Return(a.tid, s.threads[a.tid].res));
    SimulateStay(s, o, log, StepInterface(s, a), o', a.tid);
  }

  // ---------------------------------------------------------------- refusals

  /** Thread t is about to return false. */
  predicate Refuses(s: State, t: nat)
    requires |s.slots| > 0
  {
    && t < |s.threads|
    && (|| (s.threads[t].EnqLook? && SlotAt(s, s.threads[t].ticket).seqno < s.threads[t].ticket)
        || (s.threads[t].DeqLook? && SlotAt(s, s.head).seqno != s.head + 1))
  }

  ghost predicate BeingFilled(s: State, k: nat) { exists u :: Fills(s, u, k) }

  /** An Enqueue is refused by a full ring only; a Dequeue comes back empty from an empty ring, or
      from one whose oldest element is still being written. */
  ghost predicate Justified(s: State, t: nat)
    requires t < |s.threads|
  {
    match s.threads[t]
    case EnqLook(_, k) => s.tail == k == Freed(s) + |s.slots|
    case DeqLook => s.tail == s.head || BeingFilled(s, s.head)
    case _ => false
  }

  lemma RefusesIffJustified(s: State, o: Queue, log: seq<Value>, t: nat)
    requires Sim(s, o, log) && t < |s.threads|
    ensures Refuses(s, t) <==> Justified(s, t)
  {
    assert ThreadOk(s, o, log, t);
    if s.threads[t].EnqLook? {
      SeqnoOf(s, o, log, s.threads[t].ticket);
    } else if s.threads[t].DeqLook? {
      assert SlotOk(s, log, s.head);
      if BeingFilled(s, s.head) {
        var u :| Fills(s, u, s.head);
        assert ThreadOk(s, o, log, u);
      }
    }
  }

  lemma SimulateRefused(s: State, o: Queue, log: seq<Value>, t: nat)
    returns (effects: seq<Event<Op, Res>>, o': Queue)
    requires Sim(s, o, log) && Refuses(s, t) && s.threads[t].EnqLook?
    ensures Simulates(s, o, StepEnqueue(s, t), effects, o')
  {
    assert ThreadOk(s, o, log, t);
    RefusesIffJustified(s, o, log, t);
    assert Allowed(|s.slots|, o, o.status[t].op, Refused);
    effects, o' := OneEvent(|s.slots|, o, Effect(t, Refused));
    SimulateStay(s, o, log, StepEnqueue(s, t), o', t);
  }

  lemma SimulateDrained(s: State, o: Queue, log: seq<Value>, t: nat)
    returns (effects: seq<Event<Op, Res>>, o': Queue)
    requires Sim(s, o, log) && Refuses(s, t) && s.threads[t].DeqLook?
    ensures Simulates(s, o, StepDequeue(s, t), effects, o')
  {
    assert ThreadOk(s, o, log, t);
    RefusesIffJustified(s, o, log, t);
    if s.tail != s.head {
      var u: nat :| Fills(s, u, s.head);
      assert ThreadOk(s, o, log, u) && Entering(o.status[u]);
    }
    assert Allowed(|s.slots|, o, o.status[t].op, Drained);
    effects, o' := OneEvent(|s.slots|, o, Effect(t, Drained));
    SimulateStay(s, o, log, StepDequeue(s, t), o', t);
  }

  // ---------------------------------------------------------------- the other moves

  /** Loads, looks that go on, and failed CASes. */
  lemma SimulateEnqLoop(s: State, o: Queue, log: seq<Value>, t: nat)
    requires Sim(s, o, log) && t < |s.threads| && !Refuses(s, t)
    requires s.threads[t].EnqLoad? || s.threads[t].EnqLook? || (s.threads[t].EnqCas? && s.tail != s.threads[t].ticket)
    ensures Sim(StepEnqueue(s, t), o, log)
  {
    assert ThreadOk(s, o, log, t);
    SimulateStay(s, o, log, StepEnqueue(s, t), o, t);
  }

  lemma SimulateEnqCas(s: State, o: Queue, log: seq<Value>, t: nat)
    returns (effects: seq<Event<Op, Res>>, o': Queue)
    requires Sim(s, o, log) && t < |s.threads| && s.threads[t].EnqCas? && s.tail == s.threads[t].ticket
    ensures Simulates(s, o, StepEnqueue(s, t), effects, o')
  {
    assert ThreadOk(s, o, log, t);
    var n, k, v := |s.slots|, s.tail, s.threads[t].v;
    SeqnoOf(s, o, log, k);
    OwnSlot(s, o, log, t);
    var s', log' := StepEnqueue(s, t), log + [v];
    assert Allowed(n, o, o.status[t].op, Enqueued);
    effects, o' := OneEvent(n, o, Effect(t, Enqueued));
    assert o'.value == log'[Freed(s')..];
    assert SlotOk(s, log, k) && SlotOk(s', log', k);
    SimulateLocal(s, o, log, s', o', log', t, k);
  }

  lemma SimulateFill(s: State, o: Queue, log: seq<Value>, t: nat)
    requires Sim(s, o, log) && t < |s.threads| && InFlight(s.threads[t])
    ensures Sim(StepEnqueue(s, t), o, log)
  {
    assert ThreadOk(s, o, log, t);
    OwnSlot(s, o, log, t);
    var k := s.threads[t].ticket;
    assert SlotOk(s, log, k) && SlotOk(StepEnqueue(s, t), log, k);
    SimulateLocal(s, o, log, StepEnqueue(s, t), o, log, t, k);
  }

  /** The consumer's look that finds an element, its plain read, and its final move of the head. */
  lemma SimulateDeqStay(s: State, o: Queue, log: seq<Value>, t: nat)
    requires Sim(s, o, log) && t < |s.threads| && !Refuses(s, t)
    requires s.threads[t].DeqLook? || s.threads[t].DeqRead? || s.threads[t].DeqAdvance?
    ensures Sim(StepDequeue(s, t), o, log)
  {
    assert ThreadOk(s, o, log, t);
    if Freed(s) == s.head { assert SlotOk(s, log, s.head); }
    SimulateStay(s, o, log, StepDequeue(s, t), o, t);
  }

  lemma SimulateDeqClear(s: State, o: Queue, log: seq<Value>, t: nat)
    requires Sim(s, o, log) && t < |s.threads| && s.threads[t].DeqClear?
    ensures Sim(StepDequeue(s, t), o, log)
  {
    assert ThreadOk(s, o, log, t);
    OwnSlot(s, o, log, t);
    assert SlotOk(s, log, s.head) && SlotOk(StepDequeue(s, t), log, s.head);
    SimulateLocal(s, o, log, StepDequeue(s, t), o, log, t, s.head);
  }

  lemma SimulateDeqFree(s: State, o: Queue, log: seq<Value>, t: nat)
    returns (effects: seq<Event<Op, Res>>, o': Queue)
    requires Sim(s, o, log) && t < |s.threads| && s.threads[t].DeqFree?
    ensures Simulates(s, o, StepDequeue(s, t), effects, o')
  {
    assert ThreadOk(s, o, log, t);
    OwnSlot(s, o, log, t);
    var n, k := |s.slots|, s.head;
    assert SlotOk(s, log, k);
    var s' := StepDequeue(s, t);
    assert Allowed(n, o, o.status[t].op, Dequeued(s.threads[t].v));
    effects, o' := OneEvent(n, o, Effect(t, Dequeued(s.threads[t].v)));
    assert o'.value == log[Freed(s')..];
    ModAddMultiple(k, 1, n);
    assert SlotOk(s', log, k + n);
    SimulateLocal(s, o, log, s', o', log, t, k + n);
  }

  // ---------------------------------------------------------------- main results

  ghost predicate Inv(s: State, threads: nat, n: nat) {
    |s.slots| == n && exists history, o, log ::
      Explains(RingSpec(n), Fresh([], threads), history, s.trace, o) && Sim(s, o, log)
  }

  lemma SimulateStep(s: State, o: Queue, log: seq<Value>, a: Action)
    returns (effects: seq<Event<Op, Res>>, o': Queue)
    requires Sim(s, o, log) && a.tid < |s.threads|
    ensures Simulates(s, o, Step(s, a), effects, o')
  {
    var t := a.tid;
    var th := s.threads[t];
    effects, o' := [], o;
    if th.Outside? { effects, o' := SimulateCall(s, o, log, a); }
    else if th.Returning? { effects, o' := SimulateReturn(s, o, log, a); }
    else if Refuses(s, t) && th.EnqLook? { effects, o' := SimulateRefused(s, o, log, t); }
    else if Refuses(s, t) { effects, o' := SimulateDrained(s, o, log, t); }
    else if th.EnqCas? && s.tail == th.ticket { effects, o' := SimulateEnqCas(s, o, log, t); }
    else if InFlight(th) { SimulateFill(s, o, log, t); }
    else if IsEnqueue(th) { SimulateEnqLoop(s, o, log, t); }
    else if th.DeqFree? { effects, o' := SimulateDeqFree(s, o, log, t); }
    else if th.DeqClear? { SimulateDeqClear(s, o, log, t); }
    else { SimulateDeqStay(s, o, log, t); }
  }

  lemma StepKeepsInv(s: State, a: Action, threads: nat, n: nat)
    requires Inv(s, threads, n)
    ensures Inv(Step(s, a), threads, n)
  {
    var history, o, log :|
      Explains(RingSpec(n), Fresh([], threads), history, s.trace, o) && Sim(s, o, log);
    if a.tid < |s.threads| {
      var effects, o' := SimulateStep(s, o, log, a);
      Chain(RingSpec(n), Fresh([], threads), history, s.trace, o, effects, o');
    }
  }

  lemma SimStarts(threads: nat, n: nat, zero: Value, o: Queue)
    requires n >= 2 && threads >= 1 && o == Object([], seq(threads, i => Resting))
    ensures Sim(Init(threads, n, zero), o, [])
  {
    var init := Init(threads, n, zero);
    forall k | 0 <= k < n ensures SlotOk(init, [], k) { DivModUnique(k, n, 0, k); }
    forall t | 0 <= t < threads ensures ThreadOk(init, o, [], t) { assert init.threads[t] == Outside; }
  }

  lemma InvStarts(threads: nat, n: nat, zero: Value)
    requires n >= 2 && threads >= 1
    ensures Inv(Init(threads, n, zero), threads, n)
  {
    var o := Fresh<seq<Value>, Op, Res>([], threads);
    SimStarts(threads, n, zero, o);
    assert Explains(RingSpec(n), o, [], [], o);
  }

  lemma InvHolds(threads: nat, n: nat, zero: Value, schedule: seq<Action>)
    requires n >= 2 && threads >= 1
    ensures Inv(Exec(Step, Init(threads, n, zero), schedule), threads, n)
  {
    InvStarts(threads, n, zero);
    forall s, a | Inv(s, threads, n) ensures Inv(Step(s, a), threads, n) { StepKeepsInv(s, a, threads, n); }
    Always(Step, s => Inv(s, threads, n), Init(threads, n, zero), schedule);
  }

  /** With any number of producers, every run is linearizable to the bounded FIFO: Enqueues by
      ticket at their CAS, Dequeues at their seq store. */
  lemma RingIsLinearizable(threads: nat, n: nat, zero: Value, schedule: seq<Action>)
    requires n >= 2 && threads >= 1
    ensures Linearizable(RingSpec(n), Fresh([], threads), Exec(Step, Init(threads, n, zero), schedule).trace)
  {
    InvHolds(threads, n, zero, schedule);
  }

  /** Thread t stands before a plain access to the val of this ticket's slot. */
  predicate Touches(s: State, t: nat, k: nat) {
    && t < |s.threads|
    && (|| (s.threads[t].EnqWrite? && s.threads[t].ticket == k)
        || ((s.threads[t].DeqRead? || s.threads[t].DeqClear?) && s.head == k))
  }

  /** In every reachable state: never more than N elements, a call is about to report failure
      exactly when that is justified, and no two threads touch one val. */
  lemma RefusalsAndOwnership(threads: nat, n: nat, zero: Value, schedule: seq<Action>, t: nat, u: nat, j: nat, k: nat)
    requires n >= 2 && threads >= 1
    ensures
      var s := Exec(Step, Init(threads, n, zero), schedule);
      && |s.slots| == n && Freed(s) <= s.tail <= Freed(s) + n
      && (t < |s.threads| ==> (Refuses(s, t) <==> Justified(s, t)))
      && (t != u && Touches(s, t, j) && Touches(s, u, k) ==> j % n != k % n)
  {
    InvHolds(threads, n, zero, schedule);
    var s := Exec(Step, Init(threads, n, zero), schedule);
    var history, o, log :| Explains(RingSpec(n), Fresh([], threads), history, s.trace, o) && Sim(s, o, log);
    if t < |s.threads| { RefusesIffJustified(s, o, log, t); }
    if t != u && Touches(s, t, j) && Touches(s, u, k) { OneOwner(s, o, log, t, u, j, k); }
  }

  lemma OneOwner(s: State, o: Queue, log: seq<Value>, t: nat, u: nat, j: nat, k: nat)
    requires Sim(s, o, log) && t != u && Touches(s, t, j) && Touches(s, u, k)
    ensures j % |s.slots| != k % |s.slots|
  {
    assert ThreadOk(s, o, log, t) && ThreadOk(s, o, log, u);
    assert SlotOk(s, log, j) && SlotOk(s, log, k);
  }
}
