/** Exactly which runs of the elimination stack are linearizable
    (stack/elimination_backoff_mpmc.go:45-193), and in which its plain accesses are race free. */
module EliminationExact {
  import opened Schedules
  import opened Linearizability
  import opened EliminationStack
  import opened EliminationOffers
  import opened EliminationStackRuns

  /** Action number k of the run fetches a value before it has been stored. */
  ghost predicate EarlyAt(init: State, schedule: seq<Action>, k: nat) {
    k < |schedule| && CollectsEarly(Exec(Step, init, schedule[..k]), schedule[k])
  }

  ghost predicate CollectedEarly(init: State, schedule: seq<Action>, t: nat) {
    exists k: nat :: EarlyAt(init, schedule, k) && schedule[k].tid == t
  }

  /** Some Pop has collected early and then gone on, which is to return. */
  ghost predicate ReturnsEarly(init: State, schedule: seq<Action>) {
    exists k: nat, j: nat ::
      EarlyAt(init, schedule, k) && k < j < |schedule| && schedule[j].tid == schedule[k].tid
  }

  // ---------------------------------------------------------------- runs in which nobody does

  /** In the run that reached s thread t has collected early; in r it still stands before that. */
  ghost predicate Late(init: State, schedule: seq<Action>, s: State, r: State, t: nat) {
    && t < |s.threads| == |r.threads| && r.threads[t].Collect? && s.threads[t].Returning?
    && CollectedEarly(init, schedule, t)
  }

  ghost predicate Agrees(init: State, schedule: seq<Action>, s: State, r: State) {
    && r == s.(threads := r.threads) && |r.threads| == |s.threads|
    && forall t :: 0 <= t < |s.threads| ==> r.threads[t] == s.threads[t] || Late(init, schedule, s, r, t)
  }

  lemma EarlyInFront(init: State, front: seq<Action>, a: Action, k: nat)
    requires k < |front|
    ensures EarlyAt(init, front + [a], k) <==> EarlyAt(init, front, k)
    ensures (front + [a])[k] == front[k]
  {
    assert (front + [a])[..k] == front[..k];
  }

  lemma CollectedStays(init: State, front: seq<Action>, a: Action, t: nat)
    requires CollectedEarly(init, front, t)
    ensures CollectedEarly(init, front + [a], t)
    ensures a.tid == t ==> ReturnsEarly(init, front + [a])
  {
    var k: nat :| EarlyAt(init, front, k) && front[k].tid == t;
    EarlyInFront(init, front, a, k);
    assert (front + [a])[|front|] == a;
  }

  lemma ReturnedStays(init: State, front: seq<Action>, a: Action)
    requires ReturnsEarly(init, front)
    ensures ReturnsEarly(init, front + [a])
  {
    var k: nat, j: nat :| EarlyAt(init, front, k) && k < j < |front| && front[j].tid == front[k].tid;
    EarlyInFront(init, front, a, k);
    EarlyInFront(init, front, a, j);
  }

  /** A step depends on no other thread's program counter, and changes none. */
  lemma StepIgnoresOthers(s: State, r: State, a: Action)
    requires r == s.(threads := r.threads) && |r.threads| == |s.threads| && a.tid < |s.threads|
    requires r.threads[a.tid] == s.threads[a.tid]
    ensures |Step(s, a).threads| == |s.threads|
    ensures Step(r, a) == Step(s, a).(threads := r.threads[a.tid := Step(s, a).threads[a.tid]])
  {
    assert r.threads[a.tid := r.threads[a.tid]] == r.threads;
    if RefsOk(s, s.threads[a.tid]) && IsSlotMove(s.threads[a.tid]) { SlotMoveIgnoresOthers(s, r, a); }
  }

  lemma SlotMoveIgnoresOthers(s: State, r: State, a: Action)
    requires r == s.(threads := r.threads) && |r.threads| == |s.threads| && a.tid < |s.threads|
    requires r.threads[a.tid] == s.threads[a.tid] && RefsOk(s, s.threads[a.tid]) && IsSlotMove(s.threads[a.tid])
    ensures |StepSlot(s, a.tid, a.slot).threads| == |s.threads|
    ensures StepSlot(r, a.tid, a.slot) ==
            StepSlot(s, a.tid, a.slot).(threads := r.threads[a.tid := StepSlot(s, a.tid, a.slot).threads[a.tid]])
  {
    if s.threads[a.tid].Pick? { assert r.threads[a.tid := r.threads[a.tid]] == r.threads; }
  }

  lemma OthersStay(s: State, a: Action)
    ensures |Step(s, a).threads| == |s.threads|
    ensures forall u :: 0 <= u < |s.threads| && u != a.tid ==> Step(s, a).threads[u] == s.threads[u]
  {
  }

  /** Same memory, and threads that differ only in having collected or not. */
  ghost predicate Apart(s: State, r: State) {
    && r == s.(threads := r.threads) && |r.threads| == |s.threads|
    && forall t :: 0 <= t < |s.threads| && r.threads[t] != s.threads[t] ==>
         r.threads[t].Collect? && s.threads[t].Returning?
  }

  lemma CarefulFollows(s: State, r: State, a: Action)
    requires Apart(s, r) && a.tid < |s.threads| && r.threads[a.tid] == s.threads[a.tid]
    ensures
      var s', r' := Step(s, a), CarefulStep(r, a);
      && |s'.threads| == |s.threads| == |r'.threads| && r' == s'.(threads := r'.threads)
      && (forall u :: 0 <= u < |s.threads| && u != a.tid ==>
            s'.threads[u] == s.threads[u] && r'.threads[u] == r.threads[u])
      && if CollectsEarly(s, a) then r'.threads[a.tid].Collect? && s'.threads[a.tid].Returning?
         else r'.threads[a.tid] == s'.threads[a.tid]
  {
    OthersStay(s, a);
    if CollectsEarly(s, a) {
      var u := s.offers[s.threads[a.tid].mine].phase.taker;
      assert r.threads[u] == s.threads[u];
    } else {
      assert !CollectsEarly(r, a);
      StepIgnoresOthers(s, r, a);
    }
  }

  lemma CollectedNow(init: State, front: seq<Action>, a: Action)
    requires CollectsEarly(Exec(Step, init, front), a)
    ensures CollectedEarly(init, front + [a], a.tid)
  {
    assert (front + [a])[..|front|] == front && EarlyAt(init, front + [a], |front|);
  }

  lemma AgreementStep(init: State, front: seq<Action>, a: Action, s: State, r: State)
    requires s == Exec(Step, init, front) && Agrees(init, front, s, r)
    requires !CollectedEarly(init, front, a.tid)
    ensures Agrees(init, front + [a], Step(s, a), CarefulStep(r, a))
  {
    var s', r', schedule := Step(s, a), CarefulStep(r, a), front + [a];
    if a.tid < |s.threads| {
      CarefulFollows(s, r, a);
      if CollectsEarly(s, a) { CollectedNow(init, front, a); }
    }
    forall u | 0 <= u < |s'.threads| && r'.threads[u] != s'.threads[u] ensures CollectedEarly(init, schedule, u) {
      if u != a.tid { CollectedStays(init, front, a, u); }
    }
  }

  lemma {:induction false} Agreement(init: State, schedule: seq<Action>)
    requires !ReturnsEarly(init, schedule)
    ensures Agrees(init, schedule, Exec(Step, init, schedule), Exec(CarefulStep, init, schedule))
    decreases |schedule|
  {
    if schedule != [] {
      var front, a := schedule[..|schedule| - 1], schedule[|schedule| - 1];
      assert front + [a] == schedule;
      if ReturnsEarly(init, front) { ReturnedStays(init, front, a); }
      if CollectedEarly(init, front, a.tid) { CollectedStays(init, front, a, a.tid); }
      Agreement(init, front);
      AgreementStep(init, front, a, Exec(Step, init, front), Exec(CarefulStep, init, front));
    }
  }

  /** Every run of the code in which no Pop returns what it collected early is linearizable: waits may
      be given up, offers fetched between the partner's store and its signal, and Pops may stand
      anywhere in between. */
  lemma LinearizableUnlessReturnedEarly(
    threads: nat, slots: nat, spinLimit: nat, zero: Value, schedule: seq<Action>)
    requires !ReturnsEarly(Init(threads, slots, spinLimit, zero), schedule)
    ensures Linearizable(StackSpec(), Fresh([], threads),
                         Exec(Step, Init(threads, slots, spinLimit, zero), schedule).trace)
  {
    Agreement(Init(threads, slots, spinLimit, zero), schedule);
    StackIsLinearizable(threads, slots, spinLimit, zero, schedule);
  }

  // ---------------------------------------------------------------- runs in which somebody does

  lemma ZeroStays(threads: nat, slots: nat, spinLimit: nat, zero: Value, schedule: seq<Action>)
    ensures
      var s := Exec(Step, Init(threads, slots, spinLimit, zero), schedule);
      s.zero == zero && |s.threads| == threads
  {
    var same := (s: State) => s.zero == zero && |s.threads| == threads;
    Always(Step, same, Init(threads, slots, spinLimit, zero), schedule);
  }

  /** What has been collected early is the zero value. */
  lemma EarlyAnswerIsZero(s: State, a: Action)
    requires Shape(s) && CollectsEarly(s, a)
    ensures Step(s, a).threads[a.tid] == Returning(Popped(s.zero))
  {
    assert ThreadShape(s, a.tid) && OfferOk(s, s.threads[a.tid].mine);
  }

  /** Nothing popped is taken back; and a thread about to return zero does so with its next move. */
  lemma StepPops(s: State, a: Action)
    ensures TimesPopped(Step(s, a).trace, s.zero) >= TimesPopped(s.trace, s.zero)
    ensures a.tid < |s.threads| && s.threads[a.tid] == Returning(Popped(s.zero)) ==>
              TimesPopped(Step(s, a).trace, s.zero) >= 1
  {
    TraceGrows(s, a);
    if Step(s, a).trace != s.trace {
      PopsAppend(s.trace, Step(s, a).trace[|s.trace|], s.zero);
    }
  }

  lemma PopsAppend(trace: seq<Event<Op, Res>>, e: Event<Op, Res>, v: Value)
    ensures TimesPopped(trace + [e], v) == TimesPopped(trace, v) + Pops(e, v)
  {
    assert (trace + [e])[..|trace|] == trace;
  }

  lemma TraceGrows(s: State, a: Action)
    ensures Step(s, a).trace == s.trace ||
            (|Step(s, a).trace| == |s.trace| + 1 && Step(s, a).trace == s.trace + [Step(s, a).trace[|s.trace|]])
  {
  }

  /** Thread t has zero in hand, or zero has been popped. */
  ghost predicate ZeroOut(s: State, t: nat) {
    t < |s.threads| && (s.threads[t] == Returning(Popped(s.zero)) || TimesPopped(s.trace, s.zero) >= 1)
  }

  ghost predicate MovesIn(schedule: seq<Action>, t: nat) {
    exists j :: 0 <= j < |schedule| && schedule[j].tid == t
  }

  lemma StepKeepsZero(s: State, a: Action)
    ensures Step(s, a).zero == s.zero
  {
  }

  /** With its next move, whenever that comes, the thread returns zero. */
  lemma {:induction false} ZeroStaysOut(s: State, rest: seq<Action>, t: nat)
    requires ZeroOut(s, t)
    ensures Exec(Step, s, rest).zero == s.zero && ZeroOut(Exec(Step, s, rest), t)
    ensures MovesIn(rest, t) ==> TimesPopped(Exec(Step, s, rest).trace, s.zero) >= 1
    decreases |rest|
  {
    if rest != [] {
      var front, a := rest[..|rest| - 1], rest[|rest| - 1];
      var mid := Exec(Step, s, front);
      ZeroStaysOut(s, front, t);
      StepKeepsZero(mid, a);
      StepPops(mid, a);
      OthersStay(mid, a);
      if a.tid != t && MovesIn(rest, t) {
        var j :| 0 <= j < |rest| && rest[j].tid == t;
        assert front[j].tid == t;
      }
    }
  }

  lemma EarlyThenReturned(threads: nat, slots: nat, spinLimit: nat, zero: Value,
                          front: seq<Action>, a: Action, rest: seq<Action>)
    requires CollectsEarly(Exec(Step, Init(threads, slots, spinLimit, zero), front), a) && MovesIn(rest, a.tid)
    ensures TimesPopped(Exec(Step, Init(threads, slots, spinLimit, zero), front + [a] + rest).trace, zero) >= 1
  {
    var init := Init(threads, slots, spinLimit, zero);
    var s := Exec(Step, init, front);
    ShapeHolds(threads, slots, spinLimit, zero, front);
    ZeroStays(threads, slots, spinLimit, zero, front);
    EarlyAnswerIsZero(s, a);
    StepKeepsZero(s, a);
    OthersStay(s, a);
    assert (front + [a])[..|front|] == front;
    assert Exec(Step, init, front + [a]) == Step(s, a);
    ZeroStaysOut(Step(s, a), rest, a.tid);
    ExecSplits(Step, init, front + [a], rest);
  }

  /** If zero was never pushed, such a run is not linearizable: it has returned a value nobody pushed. */
  lemma NotLinearizableIfReturnedEarly(
    threads: nat, slots: nat, spinLimit: nat, zero: Value, schedule: seq<Action>)
    requires ReturnsEarly(Init(threads, slots, spinLimit, zero), schedule)
    requires TimesPushed(Exec(Step, Init(threads, slots, spinLimit, zero), schedule).trace, zero) == 0
    ensures !Linearizable(StackSpec(), Fresh([], threads),
                          Exec(Step, Init(threads, slots, spinLimit, zero), schedule).trace)
  {
    var init := Init(threads, slots, spinLimit, zero);
    var trace := Exec(Step, init, schedule).trace;
    ReturnedZero(threads, slots, spinLimit, zero, schedule);
    if Linearizable(StackSpec(), Fresh([], threads), trace) {
      var history, o :| Explains(StackSpec(), Fresh([], threads), history, trace, o);
      Conservation(threads, history, trace, o, zero);
    }
  }

  lemma ReturnedZero(threads: nat, slots: nat, spinLimit: nat, zero: Value, schedule: seq<Action>)
    requires ReturnsEarly(Init(threads, slots, spinLimit, zero), schedule)
    ensures TimesPopped(Exec(Step, Init(threads, slots, spinLimit, zero), schedule).trace, zero) >= 1
  {
    var init := Init(threads, slots, spinLimit, zero);
    var k: nat, j: nat :| EarlyAt(init, schedule, k) && k < j < |schedule| && schedule[j].tid == schedule[k].tid;
    CutAround(schedule, k, j);
    EarlyThenReturned(threads, slots, spinLimit, zero, schedule[..k], schedule[k], schedule[k + 1..]);
  }

  lemma CutAround(schedule: seq<Action>, k: nat, j: nat)
    requires k < j < |schedule| && schedule[j].tid == schedule[k].tid
    ensures schedule[..k] + [schedule[k]] + schedule[k + 1..] == schedule
    ensures MovesIn(schedule[k + 1..], schedule[k].tid)
  {
    assert schedule[k + 1..][j - k - 1] == schedule[j];
  }

  /** So in runs that never push the zero value the condition is exact, for all schedules. */
  lemma LinearizableIff(threads: nat, slots: nat, spinLimit: nat, zero: Value, schedule: seq<Action>)
    requires TimesPushed(Exec(Step, Init(threads, slots, spinLimit, zero), schedule).trace, zero) == 0
    ensures
      var init := Init(threads, slots, spinLimit, zero);
      Linearizable(StackSpec(), Fresh([], threads), Exec(Step, init, schedule).trace) <==>
      !ReturnsEarly(init, schedule)
  {
    if ReturnsEarly(Init(threads, slots, spinLimit, zero), schedule) {
      NotLinearizableIfReturnedEarly(threads, slots, spinLimit, zero, schedule);
    } else {
      LinearizableUnlessReturnedEarly(threads, slots, spinLimit, zero, schedule);
    }
  }

  // ---------------------------------------------------------------- race freedom

  /** The machine in which no Pop gives up its second wait before `done`. */
  function PatientStep(s: State, a: Action): State {
    if GivesUpEarly(s, a) then s else Step(s, a)
  }

  /** Such a run fetches values from finished exchanges only. */
  ghost predicate Patient(s: State, threads: nat) {
    && Inv(s, threads) && Shape(s)
    && forall t :: 0 <= t < |s.threads| && s.threads[t].Collect? ==>
         s.threads[t].mine < |s.offers| && s.offers[s.threads[t].mine].phase.Finished?
  }

  lemma StepStaysPatient(s: State, a: Action, threads: nat)
    requires Patient(s, threads)
    ensures Patient(PatientStep(s, a), threads)
  {
    if !GivesUpEarly(s, a) && a.tid < |s.threads| {
      var s' := Step(s, a);
      assert !CollectsEarly(s, a) && CarefulStep(s, a) == s';
      EliminationStack.StepKeepsInv(s, a, threads);
      StepKeepsShape(s, a);
      forall t | 0 <= t < |s'.threads| && s'.threads[t].Collect?
        ensures s'.threads[t].mine < |s'.offers| && s'.offers[s'.threads[t].mine].phase.Finished?
      {
        StaysFinished(s, a, t);
      }
    }
  }

  lemma StaysFinished(s: State, a: Action, t: nat)
    requires Shape(s) && a.tid < |s.threads| && !GivesUpEarly(s, a)
    requires t < |Step(s, a).threads| && Step(s, a).threads[t].Collect?
    requires t < |s.threads| && s.threads[t].Collect? ==>
      s.threads[t].mine < |s.offers| && s.offers[s.threads[t].mine].phase.Finished?
    ensures var m := Step(s, a).threads[t].mine;
            m < |Step(s, a).offers| && Step(s, a).offers[m].phase.Finished?
  {
    if t != a.tid {
      OthersStay(s, a);
      FinishedStays(s, a, s.threads[t].mine);
    } else if s.threads[t].Collect? {
      FinishedStays(s, a, s.threads[t].mine);
    } else {
      assert ThreadShape(s, t);
      if s.threads[t].Await? || s.threads[t].AwaitMatch? { assert OfferOk(s, s.threads[t].mine); }
    }
  }

  /** When every Pop waits for `done`, the plain accesses are race free in every state: no two threads
      are about to touch one node's next or one offer's value. */
  lemma PatientRunsAreRaceFree(threads: nat, slots: nat, spinLimit: nat, zero: Value, schedule: seq<Action>,
                               t: nat, u: nat)
    requires t != u
    ensures var s := Exec(PatientStep, Init(threads, slots, spinLimit, zero), schedule);
            t < |s.threads| && u < |s.threads| ==> Separate(s, t, u)
  {
    var init := Init(threads, slots, spinLimit, zero);
    EliminationStack.InvHolds(threads, slots, spinLimit, zero, []);
    ShapeHolds(threads, slots, spinLimit, zero, []);
    forall s, a | Patient(s, threads) ensures Patient(PatientStep(s, a), threads) { StepStaysPatient(s, a, threads); }
    Always(PatientStep, s => Patient(s, threads), init, schedule);
    var s := Exec(PatientStep, init, schedule);
    var history, o, spine :| Explains(StackSpec(), Fresh([], threads), history, s.trace, o) && Sim(s, o, spine);
    if t < |s.threads| && u < |s.threads| { SimSeparates(s, o, spine, t, u); }
  }
}
