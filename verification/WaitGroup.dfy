/** syncx/latch.go, WaitGroup: counter (high half) and waiters (low half) packed into one 64-bit
    word. Any number of threads call Add and Wait; the runtime semaphore is a counter whose
    acquire blocks at zero. `zeros` counts how often the counter has come down to zero and `since`
    is its value when the waiter registered; no step reads them. */
module WaitGroup {
  import opened Schedules
  import opened Counting
  import opened Arithmetic

  const HALF := 0x1_0000_0000
  const MAX_INT32 := 0x7fff_ffff
  const MIN_INT32 := -0x8000_0000

  datatype Panic = NegativeCounter | AddRacedWait | ReusedTooEarly

  datatype Thread =
    | Outside
    | AddWord(delta: int)            // :252-266
    | AddReload(seen: int)           // :268
    | AddStore(waiters: nat)         // :272
    | AddRelease(waiters: nat)       // :273-274
    | WaitLoad                       // :284-288
    | WaitCas(seen: int)             // :290
    | WaitSleep(since: nat)          // :291
    | WaitVerify(since: nat)         // :293
    | Panicked(why: Panic)

  datatype State = State(word: int, permits: nat, threads: seq<Thread>, zeros: nat)

  datatype Action = Add(tid: nat, delta: int) | Wait(tid: nat)

  function Init(threads: nat): State {
    State(0, 0, seq(threads, i => Outside), 0)
  }

  function Signed32(x: int): int {
    var low := x % HALF;
    if low > MAX_INT32 then low - HALF else low
  }

  function Counter(word: int): int { Signed32(word / HALF) }

  function Waiters(word: int): nat { word % HALF }

  /** state.Add(uint64(delta) << 32). */
  function AddWordTo(word: int, delta: int): int {
    (word + (delta % W64) * HALF % W64) % W64
  }

  function Goto(s: State, t: nat, th: Thread): State
    requires t < |s.threads|
  {
    s.(threads := s.threads[t := th])
  }

  function Step(s: State, a: Action): State {
    if a.tid < |s.threads| then
      match s.threads[a.tid]
      case Outside => Goto(s, a.tid, if a.Add? then AddWord(a.delta) else WaitLoad)
      case AddWord(delta) => StepAdd(s, a.tid, delta)
      case AddReload(seen) =>
        Goto(s, a.tid, if s.word != seen then Panicked(AddRacedWait) else AddStore(Waiters(seen)))
      case AddStore(w) => Goto(s.(word := 0), a.tid, AddRelease(w))
      case AddRelease(w) =>
        if w == 0 then Goto(s, a.tid, Outside) else Goto(s.(permits := s.permits + 1), a.tid, AddRelease(w - 1))
      case WaitLoad => Goto(s, a.tid, if Counter(s.word) == 0 then Outside else WaitCas(s.word))
      case WaitCas(seen) =>
        if s.word == seen then Goto(s.(word := (seen + 1) % W64), a.tid, WaitSleep(s.zeros))
        else Goto(s, a.tid, WaitLoad)
      case WaitSleep(since) =>
        if s.permits > 0 then Goto(s.(permits := s.permits - 1), a.tid, WaitVerify(since)) else s
      case WaitVerify(since) => Goto(s, a.tid, if s.word != 0 then Panicked(ReusedTooEarly) else Outside)
      case Panicked(_) => s
    else s
  }

  function StepAdd(s: State, t: nat, delta: int): State
    requires t < |s.threads|
  {
    var word := AddWordTo(s.word, delta);
    var counter, waiters := Counter(word), Waiters(word);
    var added := s.(word := word, zeros := if counter == 0 && Counter(s.word) != 0 then s.zeros + 1 else s.zeros);
    if counter < 0 then Goto(added, t, Panicked(NegativeCounter))
    else if waiters != 0 && delta > 0 && counter == Signed32(delta) then Goto(added, t, Panicked(AddRacedWait))
    else if counter > 0 || waiters == 0 then Goto(added, t, Outside)
    else Goto(added, t, AddReload(word))
  }

  // ---------------------------------------------------------------- the rules of use

  predicate InWait(th: Thread) {
    th.WaitLoad? || th.WaitCas? || th.WaitSleep? || th.WaitVerify?
  }

  /** The thread has registered as a waiter and its Wait has not returned. */
  predicate Registered(th: Thread) {
    th.WaitSleep? || th.WaitVerify?
  }

  /** Add must keep the counter within 0..2^31-1. At counter zero, a positive Add must not meet a
      registered waiter, and an Add(0) must not meet one that has not been released. */
  predicate Permitted(s: State, delta: int) {
    var c := Counter(s.word);
    && 0 <= c + delta <= MAX_INT32
    && (c == 0 && delta > 0 ==> forall t :: 0 <= t < |s.threads| ==> !Registered(s.threads[t]))
    && (c == 0 && delta == 0 ==> Waiters(s.word) == 0)
  }

  /** The machine in which every Add keeps the rules: one that would not, does not happen. */
  function RuledStep(s: State, a: Action): State {
    if a.tid < |s.threads| && s.threads[a.tid].AddWord? && !Permitted(s, s.threads[a.tid].delta)
    then s else Step(s, a)
  }

  // ---------------------------------------------------------------- the invariant

  function Asleep(th: Thread): nat { if th.WaitSleep? then 1 else 0 }

  function Owed(th: Thread): nat { if th.AddRelease? then th.waiters else 0 }

  function Closing(th: Thread): nat { if th.AddReload? || th.AddStore? then 1 else 0 }

  ghost predicate ThreadOk(s: State, t: nat)
    requires t < |s.threads|
  {
    match s.threads[t]
    case AddReload(seen) => seen == s.word
    case AddStore(w) => w == Waiters(s.word)
    case WaitCas(seen) => Counter(seen) != 0
    case WaitSleep(since) => since <= s.zeros && (Counter(s.word) == 0 ==> since < s.zeros)
    case WaitVerify(since) => since < s.zeros && s.word == 0
    case Panicked(_) => false
    case _ => true
  }

  ghost predicate Inv(s: State) {
    && |s.threads| < HALF
    && 0 <= s.word < W64 && Counter(s.word) >= 0
    && Waiters(s.word) + Sum(Owed, s.threads) + s.permits == Sum(Asleep, s.threads)
    && Sum(Closing, s.threads) == (if Counter(s.word) == 0 && Waiters(s.word) > 0 then 1 else 0)
    && (Sum(Owed, s.threads) + s.permits > 0 ==> s.word == 0)
    && (forall t :: 0 <= t < |s.threads| ==> ThreadOk(s, t))
  }

  lemma Unpack(c: int, n: int)
    requires 0 <= c <= MAX_INT32 && 0 <= n < HALF
    ensures Counter(c * HALF + n) == c && Waiters(c * HALF + n) == n && 0 <= c * HALF + n < W64
  {
  }

  lemma Pack(word: int)
    requires 0 <= word < W64 && Counter(word) >= 0
    ensures word == Counter(word) * HALF + Waiters(word)
  {
  }

  /** uint64(delta) << 32 keeps the low half of delta. */
  lemma ShiftKeepsLowHalf(delta: int)
    ensures (delta % W64) * HALF % W64 == (delta % HALF) * HALF
  {
    var k, q, r := delta / W64, delta / HALF, delta % HALF;
    assert delta == W64 * k + delta % W64;
    assert delta == HALF * q + r;
    assert (delta % W64) * HALF == W64 * (q - k * HALF) + r * HALF;
    DivModUnique((delta % W64) * HALF, W64, q - k * HALF, r * HALF);
  }

  /** The 64-bit addition adds delta to the high half modulo 2^32; the low half is not touched. */
  lemma AddInHighHalf(word: int, delta: int)
    requires 0 <= word < W64
    ensures AddWordTo(word, delta) == ((word / HALF + delta) % HALF) * HALF + word % HALF
  {
    var h, n, r := word / HALF, word % HALF, delta % HALF;
    assert word == HALF * h + n;
    ShiftKeepsLowHalf(delta);
    var e: int := if h + r < HALF then 0 else 1;
    assert delta == HALF * (delta / HALF) + r;
    DivModUnique(h + delta, HALF, delta / HALF + e, h + r - HALF * e);
    DivModUnique(word + r * HALF, W64, e, (h + r - HALF * e) * HALF + n);
  }

  lemma HighHalfOf(h: int, n: int)
    requires 0 <= n < HALF
    ensures (h * HALF + n) / HALF == h && (h * HALF + n) % HALF == n
  {
    DivModUnique(h * HALF + n, HALF, h, n);
  }

  lemma AddMovesCounter(word: int, delta: int)
    requires 0 <= word < W64 && Counter(word) >= 0 && 0 <= Counter(word) + delta <= MAX_INT32
    ensures AddWordTo(word, delta) == (Counter(word) + delta) * HALF + Waiters(word)
    ensures delta > 0 ==> Signed32(delta) == delta
  {
    Pack(word);
    HighHalfOf(Counter(word), Waiters(word));
    AddInHighHalf(word, delta);
  }

  /** An Add of 32 bits that leaves the range of the counter turns it negative. */
  lemma AddOutOfRange(word: int, delta: int)
    requires 0 <= word < W64 && Counter(word) >= 0 && MIN_INT32 <= delta <= MAX_INT32
    requires !(0 <= Counter(word) + delta <= MAX_INT32)
    ensures Counter(AddWordTo(word, delta)) < 0
  {
    Pack(word);
    HighHalfOf(Counter(word), Waiters(word));
    AddInHighHalf(word, delta);
    HighHalfOf((Counter(word) + delta) % HALF, Waiters(word));
  }

  lemma SumsMove(s: State, t: nat, th: Thread)
    requires t < |s.threads|
    ensures
      var threads := s.threads[t := th];
      && Sum(Asleep, threads) + Asleep(s.threads[t]) == Sum(Asleep, s.threads) + Asleep(th)
      && Sum(Owed, threads) + Owed(s.threads[t]) == Sum(Owed, s.threads) + Owed(th)
      && Sum(Closing, threads) + Closing(s.threads[t]) == Sum(Closing, s.threads) + Closing(th)
  {
    SumUpdate(Asleep, s.threads, t, th);
    SumUpdate(Owed, s.threads, t, th);
    SumUpdate(Closing, s.threads, t, th);
  }

  lemma NobodyWaits(s: State)
    requires Inv(s) && forall t :: 0 <= t < |s.threads| ==> !Registered(s.threads[t])
    ensures Waiters(s.word) == Sum(Owed, s.threads) == s.permits == 0
  {
    SumZero(Asleep, s.threads);
  }

  /** A closing thread saw the counter at zero with waiters registered; it is the only one. */
  lemma OneCloser(s: State, t: nat)
    requires Inv(s) && t < |s.threads| && Closing(s.threads[t]) == 1
    ensures Counter(s.word) == 0 && Waiters(s.word) > 0 && s.word == Waiters(s.word)
    ensures forall u :: 0 <= u < |s.threads| && u != t ==> Closing(s.threads[u]) == 0
  {
    SumAtLeast(Closing, s.threads, t);
    forall u | 0 <= u < |s.threads| && u != t ensures Closing(s.threads[u]) == 0 {
      if u < t { SumAtLeastTwo(Closing, s.threads, u, t); } else { SumAtLeastTwo(Closing, s.threads, t, u); }
    }
    Pack(s.word);
  }

  /** What a permitted Add does, in terms of the two halves. */
  lemma AddInHalves(s: State, t: nat)
    requires Inv(s) && t < |s.threads| && s.threads[t].AddWord? && Permitted(s, s.threads[t].delta)
    ensures
      var delta := s.threads[t].delta;
      var s', c, n := StepAdd(s, t, delta), Counter(s.word) + delta, Waiters(s.word);
      && s'.word == c * HALF + n && Counter(s'.word) == c && Waiters(s'.word) == n && 0 <= s'.word < W64
      && s' == s.(word := s'.word, zeros := if c == 0 && Counter(s.word) != 0 then s.zeros + 1 else s.zeros,
                  threads := s.threads[t := if c > 0 || n == 0 then Outside else AddReload(s'.word)])
  {
    var delta := s.threads[t].delta;
    AddMovesCounter(s.word, delta);
    Unpack(Counter(s.word) + delta, Waiters(s.word));
    Pack(s.word);
    if delta > 0 && Counter(s.word) == 0 { NobodyWaits(s); }
  }

  lemma AddKeepsInv(s: State, t: nat)
    requires Inv(s) && t < |s.threads| && s.threads[t].AddWord? && Permitted(s, s.threads[t].delta)
    ensures Inv(StepAdd(s, t, s.threads[t].delta))
  {
    var delta := s.threads[t].delta;
    var s' := StepAdd(s, t, delta);
    AddInHalves(s, t);
    Pack(s.word);
    SumsMove(s, t, s'.threads[t]);
    if Counter(s.word) == 0 && delta > 0 {
      NobodyWaits(s);
    }
    SumZero(Closing, s.threads);
    forall u | 0 <= u < |s'.threads| ensures ThreadOk(s', u) {
      assert ThreadOk(s, u);
      assert Closing(s.threads[u]) == 0;
    }
  }

  lemma CloseKeepsInv(s: State, t: nat)
    requires Inv(s) && t < |s.threads| && (s.threads[t].AddReload? || s.threads[t].AddStore?)
    ensures Inv(Step(s, Wait(t)))
  {
    assert ThreadOk(s, t);
    OneCloser(s, t);
    var s' := Step(s, Wait(t));
    SumsMove(s, t, s'.threads[t]);
    forall u | 0 <= u < |s'.threads| ensures ThreadOk(s', u) { assert ThreadOk(s, u); }
  }

  /** A waiter registers: the low half grows by one and does not overflow into the counter. */
  lemma RegisterInHalves(s: State, t: nat)
    requires Inv(s) && t < |s.threads| && s.threads[t].WaitCas? && s.word == s.threads[t].seen
    ensures
      var s' := Step(s, Wait(t));
      && s' == s.(word := s.word + 1, threads := s.threads[t := WaitSleep(s.zeros)])
      && Counter(s'.word) == Counter(s.word) > 0 && Waiters(s'.word) == Waiters(s.word) + 1 && s'.word < W64
  {
    assert ThreadOk(s, t);
    var c, n := Counter(s.word), Waiters(s.word);
    Pack(s.word);
    SumUpdate(Asleep, s.threads, t, WaitSleep(s.zeros));
    FewSleepers(s.(threads := s.threads[t := WaitSleep(s.zeros)]));
    Unpack(c, n + 1);
  }

  lemma RegisterKeepsInv(s: State, t: nat)
    requires Inv(s) && t < |s.threads| && s.threads[t].WaitCas? && s.word == s.threads[t].seen
    ensures Inv(Step(s, Wait(t)))
  {
    var s' := Step(s, Wait(t));
    RegisterInHalves(s, t);
    SumZero(Closing, s.threads);
    SumsMove(s, t, s'.threads[t]);
    forall u | 0 <= u < |s'.threads| ensures ThreadOk(s', u) {
      assert ThreadOk(s, u);
      assert Closing(s.threads[u]) == 0;
    }
  }

  lemma FewSleepers(s: State)
    ensures Sum(Asleep, s.threads) <= |s.threads|
  {
    CountAll(Asleep, s.threads);
  }

  /** Passing permits on: a release stores one, a sleeper takes one. */
  lemma PermitKeepsInv(s: State, t: nat)
    requires Inv(s) && t < |s.threads| && (s.threads[t].AddRelease? || s.threads[t].WaitSleep?)
    ensures Inv(Step(s, Wait(t)))
  {
    var s' := Step(s, Wait(t));
    assert ThreadOk(s, t);
    SumsMove(s, t, s'.threads[t]);
    SumAtLeast(Owed, s.threads, t);
    forall u | 0 <= u < |s'.threads| ensures ThreadOk(s', u) { assert ThreadOk(s, u); }
  }

  lemma OtherKeepsInv(s: State, a: Action)
    requires Inv(s) && a.tid < |s.threads|
    requires
      var th := s.threads[a.tid];
      th.Outside? || th.WaitLoad? || th.WaitVerify? || th.Panicked? || (th.WaitCas? && s.word != th.seen)
    ensures Inv(Step(s, a))
  {
    var t, s' := a.tid, Step(s, a);
    assert ThreadOk(s, t);
    SumsMove(s, t, s'.threads[t]);
    forall u | 0 <= u < |s'.threads| ensures ThreadOk(s', u) { assert ThreadOk(s, u); }
  }

  lemma RuledStepKeepsInv(s: State, a: Action)
    requires Inv(s)
    ensures Inv(RuledStep(s, a))
  {
    if a.tid < |s.threads| {
      var th := s.threads[a.tid];
      if th.AddWord? { if Permitted(s, th.delta) { AddKeepsInv(s, a.tid); } }
      else if Closing(th) == 1 { CloseKeepsInv(s, a.tid); }
      else if th.WaitCas? && s.word == th.seen { RegisterKeepsInv(s, a.tid); }
      else if th.AddRelease? || th.WaitSleep? { PermitKeepsInv(s, a.tid); }
      else { OtherKeepsInv(s, a); }
    }
  }

  lemma InvHolds(threads: nat, schedule: seq<Action>)
    requires threads < HALF
    ensures Inv(Exec(RuledStep, Init(threads), schedule))
  {
    var init := Init(threads);
    SumZero(Asleep, init.threads); SumZero(Owed, init.threads); SumZero(Closing, init.threads);
    forall s, a | Inv(s) ensures Inv(RuledStep(s, a)) { RuledStepKeepsInv(s, a); }
    Always(RuledStep, Inv, init, schedule);
  }

  // ---------------------------------------------------------------- main results

  /** Used by the rules, no thread ever panics, and at every step the waiters registered and not
      yet woken are those in the word, plus the releases still owed, plus the stored permits. */
  lemma NoPanicAndConservation(threads: nat, schedule: seq<Action>)
    requires threads < HALF
    ensures
      var s := Exec(RuledStep, Init(threads), schedule);
      && (forall t :: 0 <= t < |s.threads| ==> !s.threads[t].Panicked?)
      && Sum(Asleep, s.threads) == Waiters(s.word) + Sum(Owed, s.threads) + s.permits
  {
    InvHolds(threads, schedule);
    var s := Exec(RuledStep, Init(threads), schedule);
    forall t | 0 <= t < |s.threads| ensures !s.threads[t].Panicked? { assert ThreadOk(s, t); }
  }

  /** Wait returns only after the counter was zero during the call: either the load that makes it
      return sees zero, or the counter has come down to zero since the waiter registered. */
  lemma WaitReturnsAfterZero(threads: nat, schedule: seq<Action>, a: Action)
    requires threads < HALF
    ensures
      var s := Exec(RuledStep, Init(threads), schedule);
      a.tid < |s.threads| && InWait(s.threads[a.tid]) && RuledStep(s, a).threads[a.tid].Outside? ==>
        || (s.threads[a.tid].WaitLoad? && Counter(s.word) == 0)
        || (s.threads[a.tid].WaitVerify? && s.threads[a.tid].since < s.zeros)
  {
    InvHolds(threads, schedule);
    var s := Exec(RuledStep, Init(threads), schedule);
    if a.tid < |s.threads| { assert ThreadOk(s, a.tid); }
  }

  /** No waiter is stranded: while the counter is zero and someone sleeps, someone can move. */
  lemma NoStrandedWaiter(threads: nat, schedule: seq<Action>)
    requires threads < HALF
    ensures
      var s := Exec(RuledStep, Init(threads), schedule);
      Counter(s.word) == 0 && (exists t :: 0 <= t < |s.threads| && s.threads[t].WaitSleep?) ==>
        exists u :: 0 <= u < |s.threads| && RuledStep(s, Wait(u)) != s &&
                    (s.threads[u].WaitSleep? || Closing(s.threads[u]) == 1 || Owed(s.threads[u]) > 0)
  {
    InvHolds(threads, schedule);
    var s := Exec(RuledStep, Init(threads), schedule);
    if t :| Counter(s.word) == 0 && 0 <= t < |s.threads| && s.threads[t].WaitSleep? {
      SumAtLeast(Asleep, s.threads, t);
      if s.permits > 0 {
        assert RuledStep(s, Wait(t)).permits != s.permits;
      } else if Waiters(s.word) > 0 {
        SumZero(Closing, s.threads);
        var u :| 0 <= u < |s.threads| && Closing(s.threads[u]) != 0;
        assert ThreadOk(s, u);
        assert RuledStep(s, Wait(u)).threads[u] != s.threads[u];
      } else {
        SumZero(Owed, s.threads);
        var u :| 0 <= u < |s.threads| && Owed(s.threads[u]) != 0;
        assert RuledStep(s, Wait(u)).permits != s.permits;
      }
    }
  }

  predicate Waits(t: nat, moves: seq<Action>) { forall i :: 0 <= i < |moves| ==> moves[i] == Wait(t) }

  lemma OneWait(s: State, t: nat, moves: seq<Action>)
    requires Waits(t, moves) && |moves| == 1
    ensures Exec(Step, s, moves) == Step(s, Wait(t))
  {
    ExecHead(Step, s, moves);
    assert moves[1..] == [];
  }

  /** Left alone, from every state: a Wait that finds the counter at zero returns with its second
      move; any other has registered one waiter, and sleeps, after its third. */
  lemma WaitAlone(s: State, t: nat, moves: seq<Action>)
    requires t < |s.threads| && s.threads[t].Outside? && Waits(t, moves)
    requires |moves| == if Counter(s.word) == 0 then 2 else 3
    ensures Exec(Step, s, moves) ==
            if Counter(s.word) == 0 then s else Goto(s.(word := (s.word + 1) % W64), t, WaitSleep(s.zeros))
  {
    ExecHead(Step, s, moves);
    var s1, rest := Goto(s, t, WaitLoad), moves[1..];
    if Counter(s.word) == 0 {
      OneWait(s1, t, rest);
      assert s.threads[t := WaitLoad][t := Outside] == s.threads;
    } else {
      ExecHead(Step, s1, rest);
      OneWait(Goto(s, t, WaitCas(s.word)), t, rest[1..]);
      assert s.threads[t := WaitLoad][t := WaitCas(s.word)] == s.threads[t := WaitCas(s.word)];
      assert s.threads[t := WaitCas(s.word)][t := WaitSleep(s.zeros)] == s.threads[t := WaitSleep(s.zeros)];
    }
  }

  /** A thread that owes w releases stores them one by one and returns. */
  lemma {:induction false} ReleasesAll(s: State, t: nat, w: nat, moves: seq<Action>)
    requires t < |s.threads| && s.threads[t] == AddRelease(w) && Waits(t, moves) && |moves| == w + 1
    ensures Exec(Step, s, moves) == Goto(s.(permits := s.permits + w), t, Outside)
    decreases w
  {
    if w == 0 {
      OneWait(s, t, moves);
    } else {
      ExecHead(Step, s, moves);
      var s1 := Goto(s.(permits := s.permits + 1), t, AddRelease(w - 1));
      ReleasesAll(s1, t, w - 1, moves[1..]);
      assert s.threads[t := AddRelease(w - 1)][t := Outside] == s.threads[t := Outside];
    }
  }

  /** The waiters in the word get their permits, and thread t returns. */
  predicate HasClosed(s: State, end: State, t: nat) {
    t < |s.threads| && end == Goto(s.(word := 0, permits := s.permits + Waiters(s.word)), t, Outside)
  }

  lemma ClosingReleasesAll(s: State, t: nat, moves: seq<Action>)
    requires Inv(s) && t < |s.threads| && s.threads[t].AddReload? && Waits(t, moves) && |moves| == Waiters(s.word) + 3
    ensures HasClosed(s, Exec(Step, s, moves), t)
  {
    assert ThreadOk(s, t);
    var w := Waiters(s.word);
    ExecHead(Step, s, moves);
    var s1, rest := Goto(s, t, AddStore(w)), moves[1..];
    ExecHead(Step, s1, rest);
    ReleasesAll(Goto(s.(word := 0), t, AddRelease(w)), t, w, rest[1..]);
    assert s.threads[t := AddStore(w)][t := AddRelease(w)] == s.threads[t := AddRelease(w)];
    assert s.threads[t := AddRelease(w)][t := Outside] == s.threads[t := Outside];
  }

  lemma WokenReturns(s: State, t: nat, moves: seq<Action>)
    requires Inv(s) && t < |s.threads| && s.threads[t].WaitSleep? && s.permits > 0 && Waits(t, moves) && |moves| == 2
    ensures Exec(Step, s, moves) == Goto(s.(permits := s.permits - 1), t, Outside)
  {
    ExecHead(Step, s, moves);
    OneWait(Goto(s.(permits := s.permits - 1), t, WaitVerify(s.threads[t].since)), t, moves[1..]);
    assert s.threads[t := WaitVerify(s.threads[t].since)][t := Outside] == s.threads[t := Outside];
  }

  /** In every run that keeps the rules the Add that brings the counter to zero, left alone, wakes
      exactly the waiters in the word and returns. */
  lemma CloserAlone(threads: nat, schedule: seq<Action>, t: nat, moves: seq<Action>)
    requires threads < HALF && Waits(t, moves)
    ensures
      var s := Exec(RuledStep, Init(threads), schedule);
      t < |s.threads| && s.threads[t].AddReload? && |moves| == Waiters(s.word) + 3 ==>
        HasClosed(s, Exec(Step, s, moves), t)
  {
    InvHolds(threads, schedule);
    var s := Exec(RuledStep, Init(threads), schedule);
    if t < |s.threads| && s.threads[t].AddReload? {
      if |moves| == Waiters(s.word) + 3 { ClosingReleasesAll(s, t, moves); }
    }
  }

  /** And a waiter with a permit stored returns in two moves. */
  lemma WokenAlone(threads: nat, schedule: seq<Action>, t: nat, moves: seq<Action>)
    requires threads < HALF && Waits(t, moves) && |moves| == 2
    ensures
      var s := Exec(RuledStep, Init(threads), schedule);
      t < |s.threads| && s.threads[t].WaitSleep? && s.permits > 0 ==>
        Exec(Step, s, moves) == Goto(s.(permits := s.permits - 1), t, Outside)
  {
    InvHolds(threads, schedule);
    var s := Exec(RuledStep, Init(threads), schedule);
    if t < |s.threads| && s.threads[t].WaitSleep? && s.permits > 0 { WokenReturns(s, t, moves); }
  }

  lemma AddEnds(s: State, t: nat, delta: int, moves: seq<Action>)
    requires Inv(s) && t < |s.threads| && s.threads[t].Outside? && Permitted(s, delta)
    requires |moves| == 2 && moves[0] == Add(t, delta) && moves[1].tid == t
    ensures
      var end, c, n := Exec(Step, s, moves), Counter(s.word) + delta, Waiters(s.word);
      && Counter(end.word) == c && Waiters(end.word) == n && end.permits == s.permits
      && end.threads == s.threads[t := if c > 0 || n == 0 then Outside else AddReload(end.word)]
  {
    ExecHead(Step, s, moves);
    var s1, rest := Goto(s, t, AddWord(delta)), moves[1..];
    ExecHead(Step, s1, rest);
    assert rest[1..] == [];
    OtherKeepsInv(s, moves[0]);
    AddInHalves(s1, t);
    var end := StepAdd(s1, t, delta);
    assert Step(s1, moves[1]) == end;
    assert end.threads == s.threads[t := end.threads[t]];
  }

  /** In every run that keeps the rules a further Add that keeps them, left alone, has moved the
      counter by delta after two moves and returned, unless it must release the waiters. */
  lemma AddAlone(threads: nat, schedule: seq<Action>, t: nat, delta: int, moves: seq<Action>)
    requires threads < HALF && |moves| == 2 && moves[0] == Add(t, delta) && moves[1].tid == t
    ensures
      var s := Exec(RuledStep, Init(threads), schedule);
      var end, c, n := Exec(Step, s, moves), Counter(s.word) + delta, Waiters(s.word);
      t < |s.threads| && s.threads[t].Outside? && Permitted(s, delta) ==>
        && Counter(end.word) == c && Waiters(end.word) == n && end.permits == s.permits
        && end.threads == s.threads[t := if c > 0 || n == 0 then Outside else AddReload(end.word)]
  {
    InvHolds(threads, schedule);
    var s := Exec(RuledStep, Init(threads), schedule);
    if t < |s.threads| && s.threads[t].Outside? && Permitted(s, delta) { AddEnds(s, t, delta, moves); }
  }

  /** The deltas of the Adds the run has made. */
  function Added(init: State, schedule: seq<Action>): int {
    if schedule == [] then 0
    else
      var front, a := schedule[..|schedule| - 1], schedule[|schedule| - 1];
      Added(init, front) + AddedBy(Exec(RuledStep, init, front), a)
  }

  /** An Add has passed :252. */
  function AddedBy(s: State, a: Action): int {
    var s' := RuledStep(s, a);
    if a.tid < |s.threads| && s.threads[a.tid].AddWord? && a.tid < |s'.threads| && !s'.threads[a.tid].AddWord?
    then s.threads[a.tid].delta else 0
  }

  lemma CounterMoves(s: State, a: Action)
    requires Inv(s)
    ensures Counter(RuledStep(s, a).word) == Counter(s.word) + AddedBy(s, a)
  {
    if a.tid < |s.threads| {
      var th := s.threads[a.tid];
      assert ThreadOk(s, a.tid);
      if th.AddWord? && Permitted(s, th.delta) { AddInHalves(s, a.tid); }
      else if th.AddStore? { OneCloser(s, a.tid); }
      else if th.WaitCas? && s.word == th.seen { CounterMovesNot(s, a); }
    }
  }

  lemma CounterMovesNot(s: State, a: Action)
    requires Inv(s) && a.tid < |s.threads| && s.threads[a.tid].WaitCas? && s.word == s.threads[a.tid].seen
    ensures Counter(RuledStep(s, a).word) == Counter(s.word)
  {
    RegisterInHalves(s, a.tid);
  }

  /** The counter is the sum of the deltas added, in every run that keeps the rules. */
  lemma {:induction false} CounterIsSum(threads: nat, schedule: seq<Action>)
    requires threads < HALF
    ensures Counter(Exec(RuledStep, Init(threads), schedule).word) == Added(Init(threads), schedule)
    decreases |schedule|
  {
    if schedule != [] {
      var front := schedule[..|schedule| - 1];
      CounterIsSum(threads, front);
      InvHolds(threads, front);
      CounterMoves(Exec(RuledStep, Init(threads), front), schedule[|schedule| - 1]);
    }
  }

  /** The move brings the counter down to zero. */
  predicate FallsToZero(s: State, a: Action) {
    Counter(s.word) != 0 && Counter(RuledStep(s, a).word) == 0
  }

  lemma ZerosMove(s: State, a: Action)
    requires Inv(s)
    ensures RuledStep(s, a).zeros == s.zeros + if FallsToZero(s, a) then 1 else 0
  {
    CounterMoves(s, a);
  }

  /** `zeros` is how often the run has brought the counter down to zero. */
  lemma {:induction false} ZerosCount(threads: nat, schedule: seq<Action>)
    requires threads < HALF
    ensures Exec(RuledStep, Init(threads), schedule).zeros == Tally(RuledStep, Init(threads), schedule, FallsToZero)
    decreases |schedule|
  {
    if schedule != [] {
      var front := schedule[..|schedule| - 1];
      ZerosCount(threads, front);
      InvHolds(threads, front);
      ZerosMove(Exec(RuledStep, Init(threads), front), schedule[|schedule| - 1]);
    }
  }

  // The rule about Add(0).

  lemma Moves(init: State, s: State, a: Action, expected: State) returns (r: State)
    requires Reachable(Step, init, s) && Step(s, a) == expected
    ensures r == expected && Reachable(Step, init, r)
  {
    ReachableStep(Step, init, s, a);
    r := expected;
  }

  lemma CounterIsOne() returns (s: State)
    ensures Reachable(Step, Init(3), s) && s == State(HALF, 0, [Outside, WaitLoad, Outside], 0)
  {
    var init := Init(3);
    ReachableInit(Step, init);
    s := Moves(init, init, Add(0, 1), State(0, 0, [AddWord(1), Outside, Outside], 0));
    s := Moves(init, s, Wait(0), State(HALF, 0, [Outside, Outside, Outside], 0));
    s := Moves(init, s, Wait(1), State(HALF, 0, [Outside, WaitLoad, Outside], 0));
  }

  lemma WaiterRegisters() returns (s: State)
    ensures Reachable(Step, Init(3), s) && s == State(HALF + 1, 0, [Outside, WaitSleep(0), Outside], 0)
  {
    var init := Init(3);
    s := CounterIsOne();
    s := Moves(init, s, Wait(1), State(HALF, 0, [Outside, WaitCas(HALF), Outside], 0));
    s := Moves(init, s, Wait(1), State(HALF + 1, 0, [Outside, WaitSleep(0), Outside], 0));
  }

  /** A waiter has registered and the closing Add is about to reload the word. */
  lemma AboutToClose() returns (s: State)
    ensures Reachable(Step, Init(3), s) && s == State(1, 0, [AddReload(1), WaitSleep(0), Outside], 1)
  {
    var init := Init(3);
    s := WaiterRegisters();
    s := Moves(init, s, Add(0, -1), State(HALF + 1, 0, [AddWord(-1), WaitSleep(0), Outside], 0));
    Unpack(1, 1); AddMovesCounter(HALF + 1, -1);
    s := Moves(init, s, Wait(0), State(1, 0, [AddReload(1), WaitSleep(0), Outside], 1));
  }

  /** Keeping only positive Adds away from Waits is not enough: an Add(0) that meets a closing Add
      reloads a word that has changed and panics. */
  lemma AddZeroCanPanic()
    ensures exists s :: Reachable(Step, Init(3), s) && |s.threads| == 3 && s.threads[2] == Panicked(AddRacedWait)
  {
    var init := Init(3);
    var s := AboutToClose();
    s := Moves(init, s, Add(2, 0), State(1, 0, [AddReload(1), WaitSleep(0), AddWord(0)], 1));
    s := Moves(init, s, Wait(2), State(1, 0, [AddReload(1), WaitSleep(0), AddReload(1)], 1));
    s := Moves(init, s, Wait(0), State(1, 0, [AddStore(1), WaitSleep(0), AddReload(1)], 1));
    s := Moves(init, s, Wait(0), State(0, 0, [AddRelease(1), WaitSleep(0), AddReload(1)], 1));
    s := Moves(init, s, Wait(2), State(0, 0, [AddRelease(1), WaitSleep(0), Panicked(AddRacedWait)], 1));
  }
}
