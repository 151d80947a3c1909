/** Consequences for runs of the elimination stack: values are conserved, and what can go wrong when a
    Pop gives up its second wait (stack/elimination_backoff_mpmc.go:181-182). */
module EliminationStackRuns {
  import opened Wrappers
  import opened Schedules
  import opened Linearizability
  import opened EliminationStack

  // Conservation, one value at a time.

  function Pushes(e: Event<Op, Res>, v: Value): nat {
    if e == Call(e.tid, Push(v)) then 1 else 0
  }

  function Pops(e: Event<Op, Res>, v: Value): nat {
    if e == Return(e.tid, Popped(v)) then 1 else 0
  }

  function TimesPushed(trace: seq<Event<Op, Res>>, v: Value): nat
    decreases |trace|
  {
    if trace == [] then 0 else TimesPushed(trace[..|trace| - 1], v) + Pushes(trace[|trace| - 1], v)
  }

  function TimesPopped(trace: seq<Event<Op, Res>>, v: Value): nat
    decreases |trace|
  {
    if trace == [] then 0 else TimesPopped(trace[..|trace| - 1], v) + Pops(trace[|trace| - 1], v)
  }

  function Holding(status: Status<Op, Res>, v: Value): nat {
    if status == Called(Push(v)) || status == Answered(Popped(v)) then 1 else 0
  }

  /** Copies of v inside calls: still to be pushed, or popped and not yet returned. */
  function InFlight(status: seq<Status<Op, Res>>, v: Value): nat {
    if status == [] then 0 else Holding(status[0], v) + InFlight(status[1..], v)
  }

  lemma {:induction false} InFlightUpdate(status: seq<Status<Op, Res>>, t: nat, st: Status<Op, Res>, v: Value)
    requires t < |status|
    ensures InFlight(status[t := st], v) + Holding(status[t], v) == InFlight(status, v) + Holding(st, v)
  {
    if t == 0 {
      assert status[t := st][1..] == status[1..];
    } else {
      InFlightUpdate(status[1..], t - 1, st, v);
      assert status[t := st][1..] == status[1..][t - 1 := st];
    }
  }

  lemma {:induction false} InFlightAtRest(status: seq<Status<Op, Res>>, v: Value)
    requires forall t :: 0 <= t < |status| ==> status[t] == Resting
    ensures InFlight(status, v) == 0
  {
    if status != [] {
      InFlightAtRest(status[1..], v);
    }
  }

  lemma ApplyConserves(o: Stack, e: Event<Op, Res>, v: Value)
    requires Apply(StackSpec(), o, e).Some?
    ensures
      var o' := Apply(StackSpec(), o, e).value;
      Pushes(e, v) + multiset(o.value)[v] + InFlight(o.status, v) ==
      Pops(e, v) + multiset(o'.value)[v] + InFlight(o'.status, v)
  {
    var o' := Apply(StackSpec(), o, e).value;
    InFlightUpdate(o.status, e.tid, o'.status[e.tid], v);
    if e.Effect? && o.status[e.tid].op.Pop? && o.value != [] {
      assert o.value == [o.value[0]] + o.value[1..];
    }
  }

  /** What was pushed has been popped, is on the stack, or is in flight; each copy exactly once. */
  lemma {:induction false} Conservation(n: nat, history: seq<Event<Op, Res>>, trace: seq<Event<Op, Res>>,
                                        o: Stack, v: Value)
    requires Explains(StackSpec(), Fresh([], n), history, trace, o)
    ensures TimesPushed(trace, v) == TimesPopped(trace, v) + multiset(o.value)[v] + InFlight(o.status, v)
    decreases |history|
  {
    if history == [] {
      InFlightAtRest(o.status, v);
    } else {
      var front, e := history[..|history| - 1], history[|history| - 1];
      var before := Play(StackSpec(), Fresh([], n), front).value;
      Conservation(n, front, Visible(front), before, v);
      ApplyConserves(before, e, v);
      if !e.Effect? { assert trace[..|trace| - 1] == Visible(front); }
    }
  }

  /** No value is returned more often than it was pushed, and when no call is in progress the
      values pushed are exactly those returned and those still linked from head. */
  lemma NothingLostNothingTwice(threads: nat, slots: nat, spinLimit: nat, zero: Value, schedule: seq<Action>)
    ensures
      var s := Exec(CarefulStep, Init(threads, slots, spinLimit, zero), schedule);
      && (forall v :: TimesPopped(s.trace, v) <= TimesPushed(s.trace, v))
      && ((forall t :: 0 <= t < |s.threads| ==> s.threads[t].Outside?) ==>
            exists o, spine :: HeapOk(s, o, spine) &&
              forall v :: TimesPushed(s.trace, v) == TimesPopped(s.trace, v) + multiset(o.value)[v])
  {
    var s := Exec(CarefulStep, Init(threads, slots, spinLimit, zero), schedule);
    InvHolds(threads, slots, spinLimit, zero, schedule);
    var history, o, spine :| Explains(StackSpec(), Fresh([], threads), history, s.trace, o) && Sim(s, o, spine);
    forall v ensures TimesPushed(s.trace, v) == TimesPopped(s.trace, v) + multiset(o.value)[v] + InFlight(o.status, v) {
      Conservation(threads, history, s.trace, o, v);
    }
    if forall t :: 0 <= t < |s.threads| ==> s.threads[t].Outside? {
      forall t | 0 <= t < |s.threads| ensures o.status[t] == Resting { assert ThreadOk(s, o, t); }
      forall v ensures InFlight(o.status, v) == 0 { InFlightAtRest(o.status, v); }
      assert HeapOk(s, o, spine);
    }
  }

  // Giving up the second wait.

  /** The second wait of a Pop (:181) runs out of spins before its partner has signalled. */
  predicate GivesUpEarly(s: State, a: Action) {
    && a.tid < |s.threads|
    && s.threads[a.tid].AwaitMatch? && s.threads[a.tid].c.Popper?
    && s.threads[a.tid].spins >= s.spinLimit
    && s.threads[a.tid].mine < |s.offers| && !s.offers[s.threads[a.tid].mine].done
  }

  /** A Pop that gives up its second wait before its partner signals returns the partner's value
      if and only if the partner's plain store :129 has happened (or stores the zero value). */
  lemma EarlyReturn(s: State, o: Stack, spine: seq<nat>, a: Action)
    requires Sim(s, o, spine) && GivesUpEarly(s, a)
    ensures
      var t, x := a.tid, s.threads[a.tid].mine;
      && s.offers[x].phase.Taken? && s.offers[x].phase.taker < |s.threads|
      && var partner := s.threads[s.offers[x].phase.taker];
      && Step(Step(s, a), a).threads[t] == Returning(Popped(s.offers[x].value))
      && (o.status[t] == Answered(Popped(s.offers[x].value)) <==>
          partner.Signal? || (partner.Exchange? && partner.c.Pusher? && partner.c.v == s.zero))
  {
    var t, x := a.tid, s.threads[a.tid].mine;
    assert ThreadOk(s, o, t) && OfferOk(s, x);
    assert ThreadOk(s, o, s.offers[x].phase.taker);
  }

  // The run in which that goes wrong: one slot, a Pop (0) and two Pushes (1, 2).

  /** Thread tid in its wait, n spins on. */
  function Spun(s: State, tid: nat, n: nat): State {
    if tid < |s.threads| && (s.threads[tid].Await? || s.threads[tid].AwaitMatch?)
    then Goto(s, tid, s.threads[tid].(spins := n)) else s
  }

  lemma SpinOnce(s: State, a: Action, n: nat)
    requires a.tid < |s.threads| && (s.threads[a.tid].Await? || s.threads[a.tid].AwaitMatch?)
    requires RefsOk(s, s.threads[a.tid])
    requires !s.offers[s.threads[a.tid].mine].done && n < s.spinLimit
    ensures Step(Spun(s, a.tid, n), a) == Spun(s, a.tid, n + 1)
  {
    var before := Spun(s, a.tid, n);
    assert before.threads[a.tid := s.threads[a.tid].(spins := n + 1)] == Spun(s, a.tid, n + 1).threads;
  }

  /** Thread tid can spin on until the limit. */
  predicate Spins(s: State, tid: nat) {
    && tid < |s.threads| && (s.threads[tid].Await? || s.threads[tid].AwaitMatch?) && RefsOk(s, s.threads[tid])
    && !s.offers[s.threads[tid].mine].done && s.threads[tid].spins == 0
  }

  lemma SpinAwait(init: State, s: State, a: Action, n: nat)
    requires Reachable(Step, init, s) && Spins(s, a.tid) && n <= s.spinLimit
    ensures Reachable(Step, init, Spun(s, a.tid, n))
  {
    NotSpunYet(s, a.tid);
    forall k: nat | k < n ensures Step(Spun(s, a.tid, k), a) == Spun(s, a.tid, k + 1) { SpinOnce(s, a, k); }
    ReachableAlong(Step, init, k => Spun(s, a.tid, k), a, n);
  }

  lemma NotSpunYet(s: State, tid: nat)
    requires Spins(s, tid)
    ensures Spun(s, tid, 0) == s
  {
    assert s.threads[tid := s.threads[tid]] == s.threads;
  }

  lemma Move(init: State, s: State, a: Action, r: State)
    requires Reachable(Step, init, s) && r == Step(s, a)
    ensures Reachable(Step, init, r)
  {
    ReachableStep(Step, init, s, a);
  }

  /** A Pop on an empty stack with a free slot 0 installs its offer there. */
  lemma PopOffers(init: State, s: State, a: Action) returns (r: State)
    requires Reachable(Step, init, s) && a.tid < |s.threads| && a.op == Pop && a.slot == 0
    requires s.threads[a.tid] == Outside && s.head == None && |s.slots| == 1 && s.slots[0] == None
    ensures Reachable(Step, init, r)
    ensures r == Goto(s.(trace := s.trace + [Call(a.tid, Pop)], slots := [Some(|s.offers|)],
                         offers := s.offers + [Offer(false, s.zero, false, a.tid, Offered(0))]),
                      a.tid, Await(Popper(true), 0, 0, |s.offers|, 0))
  {
    var t := a.tid;
    var s1 := Goto(s.(trace := s.trace + [Call(t, Pop)]), t, LoadHead(Popper(false)));
    Move(init, s, a, s1);
    var s2 := Goto(s1, t, Pick(Popper(true), 0));
    Move(init, s1, a, s2);
    r := PopInstalls(init, s2, a);
  }

  lemma PopInstalls(init: State, s: State, a: Action) returns (r: State)
    requires Reachable(Step, init, s) && a.tid < |s.threads| && a.slot == 0
    requires s.threads[a.tid] == Pick(Popper(true), 0) && |s.slots| == 1 && s.slots[0] == None
    ensures Reachable(Step, init, r)
    ensures r == Goto(s.(slots := [Some(|s.offers|)],
                         offers := s.offers + [Offer(false, s.zero, false, a.tid, Offered(0))]),
                      a.tid, Await(Popper(true), 0, 0, |s.offers|, 0))
  {
    var t, m := a.tid, |s.offers|;
    var offer := Offer(false, s.zero, false, t, Private);
    var s3 := Goto(s.(offers := s.offers + [offer]), t, Visit(Popper(true), 0, 0, m));
    Move(init, s, a, s3);
    var s4 := Goto(s3, t, Install(Popper(true), 0, 0, m));
    Move(init, s3, a, s4);
    r := Goto(s4.(slots := s4.slots[0 := Some(m)], offers := s4.offers[m := offer.(phase := Offered(0))]),
              t, Await(Popper(true), 0, 0, m, 0));
    Move(init, s4, a, r);
  }

  lemma PushPrepares(init: State, s: State, a: Action) returns (r: State)
    requires Reachable(Step, init, s) && a.tid < |s.threads| && a.op.Push? && s.threads[a.tid] == Outside
    ensures Reachable(Step, init, r)
    ensures r == s.(trace := s.trace + [Call(a.tid, a.op)],
                    heap := s.heap + [Node(a.op.v, s.head, Some(a.tid))],
                    threads := s.threads[a.tid := CasPush(a.op.v, |s.heap|, s.head)])
  {
    var t, v, n := a.tid, a.op.v, |s.heap|;
    var s1 := Goto(s.(trace := s.trace + [Call(t, a.op)], heap := s.heap + [Node(v, None, Some(t))]),
                   t, LoadHead(Pusher(v, n)));
    Move(init, s, a, s1);
    var s2 := Goto(s1, t, Link(v, n, s.head));
    Move(init, s1, a, s2);
    r := Goto(s2.(heap := s.heap + [Node(v, s.head, Some(t))]), t, CasPush(v, n, s.head));
    assert r.heap == s2.heap[n := s2.heap[n].(next := s.head)];
    Move(init, s2, a, r);
  }

  /** A Push whose head CAS succeeds. */
  lemma PushLands(init: State, s: State, a: Action) returns (r: State)
    requires Reachable(Step, init, s) && a.tid < |s.threads| && s.threads[a.tid].CasPush?
    requires s.threads[a.tid].node < |s.heap| && s.head == s.threads[a.tid].prev
    ensures Reachable(Step, init, r)
    ensures
      var n := s.threads[a.tid].node;
      r == Goto(s.(head := Some(n), heap := s.heap[n := s.heap[n].(owner := None)]), a.tid, Returning(Pushed))
  {
    var n := s.threads[a.tid].node;
    r := Goto(s.(head := Some(n), heap := s.heap[n := s.heap[n].(owner := None)]), a.tid, Returning(Pushed));
    Move(init, s, a, r);
  }

  /** The Pop has offered itself in the slot; push 1 has loaded head. */
  predicate PopIsOffered(s: State, limit: nat, zero: Value, v: Value) {
    && |s.threads| == 3 && s.spinLimit == limit && s.slots == [Some(0)] && |s.heap| >= 1
    && s.threads[0] == Await(Popper(true), 0, 0, 0, 0) && s.threads[1] == CasPush(v, 0, None)
    && s.offers == [Offer(false, zero, false, 0, Offered(0))]
  }

  lemma PopOffersFirst(limit: nat, zero: Value, v: Value) returns (s: State)
    ensures Reachable(Step, Init(3, 1, limit, zero), s) && PopIsOffered(s, limit, zero, v)
    ensures s.threads[2] == Outside && s.head == None && |s.heap| == 1
    ensures s.trace == [Call(0, Pop), Call(1, Push(v))]
  {
    var init := Init(3, 1, limit, zero);
    ReachableInit(Step, init);
    s := PopOffers(init, init, Action(0, Pop, 0));
    s := PushPrepares(init, s, Action(1, Push(v), 0));
  }

  /** Push 2 goes through. */
  lemma OtherPushLands(init: State, s: State, limit: nat, zero: Value, v: Value, w: Value) returns (r: State)
    requires Reachable(Step, init, s) && PopIsOffered(s, limit, zero, v)
    requires s.threads[2] == Outside && s.head == None && |s.heap| == 1
    ensures Reachable(Step, init, r) && PopIsOffered(r, limit, zero, v) && r.head == Some(1)
    ensures r.trace == s.trace + [Call(2, Push(w))]
  {
    r := PushPrepares(init, s, Action(2, Push(w), 0));
    r := PushLands(init, r, Action(2, Push(w), 0));
  }

  /** And push 1 has taken the offer and is about to store its value. */
  lemma PopIsTaken(limit: nat, zero: Value, v: Value, w: Value) returns (s: State)
    ensures Reachable(Step, Init(3, 1, limit, zero), s)
    ensures |s.threads| == 3 && s.spinLimit == limit && s.slots == [None] && |s.offers| == 2
    ensures s.threads[0] == Await(Popper(true), 0, 0, 0, 0)
    ensures s.offers[0] == Offer(false, zero, false, 0, Taken(1))
    ensures s.trace == [Call(0, Pop), Call(1, Push(v)), Call(2, Push(w))]
  {
    var init := Init(3, 1, limit, zero);
    s := PopOffersFirst(limit, zero, v);
    s := OtherPushLands(init, s, limit, zero, v, w);
    s := PushTakes(init, s, Action(1, Push(v), 0));
  }

  /** A Push whose CAS fails finds a Pop in slot 0 and takes it. */
  lemma PushTakes(init: State, s: State, a: Action) returns (r: State)
    requires Reachable(Step, init, s) && a.tid < |s.threads| && a.slot == 0
    requires s.threads[a.tid].CasPush? && s.threads[a.tid].node < |s.heap| && s.head != s.threads[a.tid].prev
    requires |s.slots| == 1 && |s.offers| == 1 && s.slots[0] == Some(0) && !s.offers[0].isPush
    ensures Reachable(Step, init, r)
    ensures
      var th := s.threads[a.tid];
      r == Goto(s.(slots := [None],
                   offers := [s.offers[0].(phase := Taken(a.tid)), Offer(true, th.v, false, a.tid, Private)]),
                a.tid, Exchange(Pusher(th.v, th.node), 0))
  {
    var t, v := a.tid, s.threads[a.tid].v;
    var c := Pusher(v, s.threads[t].node);
    var s1 := Goto(s, t, Pick(c, 0));
    Move(init, s, a, s1);
    var s2 := Goto(s1.(offers := s.offers + [Offer(true, v, false, t, Private)]), t, Visit(c, 0, 0, 1));
    Move(init, s1, a, s2);
    r := VisitorTakes(init, s2, a, c);
  }

  lemma VisitorTakes(init: State, s: State, a: Action, c: Caller) returns (r: State)
    requires Reachable(Step, init, s) && a.tid < |s.threads| && s.threads[a.tid] == Visit(c, 0, 0, 1) && c.Pusher?
    requires |s.slots| == 1 && |s.offers| == 2 && s.slots[0] == Some(0) && !s.offers[0].isPush
    ensures Reachable(Step, init, r)
    ensures r == Goto(s.(slots := [None], offers := s.offers[0 := s.offers[0].(phase := Taken(a.tid))]),
                      a.tid, Exchange(c, 0))
  {
    var t := a.tid;
    var s1 := Goto(s, t, Take(c, 0, 0, 1, 0));
    Move(init, s, a, s1);
    r := Goto(s1.(slots := s.slots[0 := None], offers := s.offers[0 := s.offers[0].(phase := Taken(t))]),
              t, Exchange(c, 0));
    Move(init, s1, a, r);
  }

  /** Without patience the code is not linearizable, whatever the spin limit: a Pop can return the
      zero value although only other values were ever pushed. */
  lemma ImpatientPopIsNotLinearizable(limit: nat, zero: Value, v: Value, w: Value)
    requires v != zero && w != zero
    ensures exists s :: Reachable(Step, Init(3, 1, limit, zero), s) &&
                        !Linearizable(StackSpec(), Fresh([], 3), s.trace)
  {
    var init, pop := Init(3, 1, limit, zero), Action(0, Pop, 0);
    var s := PopIsTaken(limit, zero, v, w);
    s := PopGivesUp(init, s, pop);
    var calls: seq<Event<Op, Res>> := [Call(0, Pop), Call(1, Push(v)), Call(2, Push(w))];
    assert s.trace == calls + [Return(0, Popped(zero))];
    OnlyPushes(zero, v, w);
    assert s.trace[..3] == calls;
    if Linearizable(StackSpec(), Fresh([], 3), s.trace) {
      var history, o :| Explains(StackSpec(), Fresh([], 3), history, s.trace, o);
      Conservation(3, history, s.trace, o, zero);
    }
  }

  lemma PopGivesUp(init: State, s: State, pop: Action) returns (r: State)
    requires Reachable(Step, init, s) && pop.tid == 0
    requires |s.threads| == 3 && s.slots == [None] && |s.offers| == 2
    requires s.threads[0] == Await(Popper(true), 0, 0, 0, 0) && !s.offers[0].done
    ensures Reachable(Step, init, r)
    ensures r.trace == s.trace + [Return(0, Popped(s.offers[0].value))]
  {
    SpinAwait(init, s, pop, s.spinLimit);
    r := PopWithdraws(init, Spun(s, 0, s.spinLimit), pop);
  }

  /** The first wait is over, but the withdrawal comes too late. */
  lemma PopWithdraws(init: State, s: State, pop: Action) returns (r: State)
    requires Reachable(Step, init, s) && pop.tid == 0
    requires |s.threads| == 3 && s.slots == [None] && |s.offers| == 2
    requires s.threads[0] == Await(Popper(true), 0, 0, 0, s.spinLimit) && !s.offers[0].done
    ensures Reachable(Step, init, r)
    ensures r.trace == s.trace + [Return(0, Popped(s.offers[0].value))]
  {
    var s1 := Goto(s, 0, Withdraw(Popper(true), 0, 0, 0));
    Move(init, s, pop, s1);
    var s2 := Goto(s1, 0, AwaitMatch(Popper(true), 0, 0));
    Move(init, s1, pop, s2);
    r := PopGivesUpAgain(init, s2, pop);
  }

  lemma PopGivesUpAgain(init: State, s: State, pop: Action) returns (r: State)
    requires Reachable(Step, init, s) && pop.tid == 0 && |s.threads| == 3 && |s.offers| == 2
    requires s.threads[0] == AwaitMatch(Popper(true), 0, 0) && !s.offers[0].done
    ensures Reachable(Step, init, r)
    ensures r.trace == s.trace + [Return(0, Popped(s.offers[0].value))]
  {
    SpinAwait(init, s, pop, s.spinLimit);
    var s1 := Spun(s, 0, s.spinLimit);
    var s2 := Goto(s1, 0, Collect(0));
    Move(init, s1, pop, s2);
    r := PopReturns(init, s2, pop);
  }

  lemma PopReturns(init: State, s: State, pop: Action) returns (r: State)
    requires Reachable(Step, init, s) && pop.tid == 0 && |s.threads| == 3 && |s.offers| == 2
    requires s.threads[0] == Collect(0)
    ensures Reachable(Step, init, r)
    ensures r.trace == s.trace + [Return(0, Popped(s.offers[0].value))]
  {
    var s1 := Goto(s, 0, Returning(Popped(s.offers[0].value)));
    Move(init, s, pop, s1);
    r := Goto(s1.(trace := s.trace + [Return(0, Popped(s.offers[0].value))]), 0, Outside);
    Move(init, s1, pop, r);
  }

  lemma OnlyPushes(zero: Value, v: Value, w: Value)
    requires v != zero && w != zero
    ensures TimesPushed([Call(0, Pop), Call(1, Push(v)), Call(2, Push(w))], zero) == 0
  {
    var one: seq<Event<Op, Res>> := [Call(0, Pop)];
    var two: seq<Event<Op, Res>> := [Call(0, Pop), Call(1, Push(v))];
    var three: seq<Event<Op, Res>> := [Call(0, Pop), Call(1, Push(v)), Call(2, Push(w))];
    assert one[..0] == [] && two[..1] == one && three[..2] == two;
    assert TimesPushed(one, zero) == 0;
    assert TimesPushed(two, zero) == 0;
  }
}
