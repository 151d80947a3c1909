/** The rules of use of syncx/latch.go, WaitGroup, are exact: an Add that keeps them is safe, and after
    one that breaks them the calls already in progress can panic on their own. */
module WaitGroupRules {
  import opened Schedules
  import opened Counting
  import opened Arithmetic
  import opened WaitGroup

  /** No new call begins and no further Add changes the word; calls past that point go on. */
  function FinishStep(s: State, a: Action): State {
    if a.tid < |s.threads| && (s.threads[a.tid].Outside? || s.threads[a.tid].AddWord?) then s else Step(s, a)
  }

  ghost predicate SomePanic(s: State) {
    exists u :: 0 <= u < |s.threads| && s.threads[u].Panicked?
  }

  ghost predicate CanPanic(s: State) {
    exists more :: SomePanic(Exec(FinishStep, s, more))
  }

  lemma PanickedCanPanic(s: State, u: nat)
    requires u < |s.threads| && s.threads[u].Panicked?
    ensures CanPanic(s)
  {
    assert Exec(FinishStep, s, []) == s;
    assert SomePanic(Exec(FinishStep, s, []));
  }

  lemma CanPanicLater(s: State, a: Action)
    requires CanPanic(FinishStep(s, a))
    ensures CanPanic(s)
  {
    var more :| SomePanic(Exec(FinishStep, FinishStep(s, a), more));
    ExecPrepends(FinishStep, s, a, more);
    assert SomePanic(Exec(FinishStep, s, [a] + more));
  }

  // ---------------------------------------------------------------- who panics when the word is not zero

  lemma VerifierPanics(s: State, u: nat)
    requires u < |s.threads| && s.threads[u].WaitVerify? && s.word != 0
    ensures CanPanic(s)
  {
    PanickedCanPanic(FinishStep(s, Wait(u)), u);
    CanPanicLater(s, Wait(u));
  }

  lemma SleeperPanics(s: State, u: nat)
    requires u < |s.threads| && s.threads[u].WaitSleep? && s.permits > 0 && s.word != 0
    ensures CanPanic(s)
  {
    VerifierPanics(FinishStep(s, Wait(u)), u);
    CanPanicLater(s, Wait(u));
  }

  lemma OwedSleeperPanics(s: State, u: nat, v: nat)
    requires u < |s.threads| && s.threads[u].WaitSleep? && s.word != 0
    requires v < |s.threads| && s.threads[v].AddRelease? && s.threads[v].waiters > 0
    ensures CanPanic(s)
  {
    SleeperPanics(FinishStep(s, Wait(v)), u);
    CanPanicLater(s, Wait(v));
  }

  /** Waiters registered, the counter at zero: each of them is released already or about to be, and
      any positive Add in between is his undoing. */
  lemma PositiveAddPanics(s: State, t: nat, u: nat)
    requires Inv(s) && t < |s.threads| && s.threads[t].AddWord? && 0 < s.threads[t].delta <= MAX_INT32
    requires Counter(s.word) == 0 && u < |s.threads| && Registered(s.threads[u])
    ensures CanPanic(Step(s, Wait(t)))
  {
    var s' := Step(s, Wait(t));
    var delta, n := s.threads[t].delta, Waiters(s.word);
    AddMovesCounter(s.word, delta);
    Unpack(delta, n);
    if n > 0 {
      PanickedCanPanic(s', t);
    } else if s.threads[u].WaitVerify? {
      VerifierPanics(s', u);
    } else {
      SumAtLeast(Asleep, s.threads, u);
      SumZero(Owed, s.threads);
      if s.permits > 0 {
        SleeperPanics(s', u);
      } else {
        var v :| 0 <= v < |s.threads| && Owed(s.threads[v]) != 0;
        OwedSleeperPanics(s', u, v);
      }
    }
  }

  lemma ReloaderPanics(s: State, t: nat)
    requires t < |s.threads| && s.threads[t].AddReload? && s.threads[t].seen != s.word
    ensures CanPanic(s)
  {
    PanickedCanPanic(FinishStep(s, Wait(t)), t);
    CanPanicLater(s, Wait(t));
  }

  /** Two threads closing the same round: the first zeroes the word the second is about to reload. */
  lemma TwoClosersPanic(s: State, t: nat, u: nat)
    requires t < |s.threads| && u < |s.threads| && t != u && s.word != 0
    requires s.threads[t] == AddReload(s.word)
    requires s.threads[u].AddStore? || s.threads[u] == AddReload(s.word)
    ensures CanPanic(s)
  {
    var s1 := if s.threads[u].AddStore? then s else FinishStep(s, Wait(u));
    ReloaderPanics(FinishStep(s1, Wait(u)), t);
    CanPanicLater(s1, Wait(u));
    if s1 != s { CanPanicLater(s, Wait(u)); }
  }

  lemma ZeroAddPanics(s: State, t: nat)
    requires Inv(s) && t < |s.threads| && s.threads[t] == AddWord(0)
    requires Counter(s.word) == 0 && Waiters(s.word) > 0
    ensures CanPanic(Step(s, Wait(t)))
  {
    AddMovesCounter(s.word, 0);
    Pack(s.word);
    SumZero(Closing, s.threads);
    var u :| 0 <= u < |s.threads| && Closing(s.threads[u]) != 0;
    assert ThreadOk(s, u);
    TwoClosersPanic(Step(s, Wait(t)), t, u);
  }

  lemma OutOfRangePanics(s: State, t: nat)
    requires Inv(s) && t < |s.threads| && s.threads[t].AddWord? && MIN_INT32 <= s.threads[t].delta <= MAX_INT32
    requires !(0 <= Counter(s.word) + s.threads[t].delta <= MAX_INT32)
    ensures CanPanic(Step(s, Wait(t)))
  {
    AddOutOfRange(s.word, s.threads[t].delta);
    PanickedCanPanic(Step(s, Wait(t)), t);
  }

  lemma BreakingAddPanics(s: State, t: nat)
    requires Inv(s) && t < |s.threads| && s.threads[t].AddWord? && MIN_INT32 <= s.threads[t].delta <= MAX_INT32
    requires !Permitted(s, s.threads[t].delta)
    ensures CanPanic(Step(s, Wait(t)))
  {
    var delta := s.threads[t].delta;
    if !(0 <= Counter(s.word) + delta <= MAX_INT32) {
      OutOfRangePanics(s, t);
    } else if delta == 0 {
      ZeroAddPanics(s, t);
    } else {
      var u :| 0 <= u < |s.threads| && Registered(s.threads[u]);
      PositiveAddPanics(s, t, u);
    }
  }

  // ---------------------------------------------------------------- main result

  lemma InvCannotPanic(s: State)
    requires Inv(s)
    ensures !CanPanic(s)
  {
    forall x, a | Inv(x) ensures Inv(FinishStep(x, a)) { RuledStepKeepsInv(x, a); }
    forall more ensures !SomePanic(Exec(FinishStep, s, more)) {
      Always(FinishStep, Inv, s, more);
      var end := Exec(FinishStep, s, more);
      forall u | 0 <= u < |end.threads| ensures !end.threads[u].Panicked? { assert ThreadOk(end, u); }
    }
  }

  /** The rules are exact. In every run that has kept them so far, an Add of 32 bits keeps them if and
      only if the calls in progress cannot panic once it has changed the word. */
  lemma AddIsSafeIffPermitted(threads: nat, schedule: seq<Action>, t: nat)
    requires threads < HALF
    ensures
      var s := Exec(RuledStep, Init(threads), schedule);
      t < |s.threads| && s.threads[t].AddWord? && MIN_INT32 <= s.threads[t].delta <= MAX_INT32 ==>
        (Permitted(s, s.threads[t].delta) <==> !CanPanic(Step(s, Wait(t))))
  {
    InvHolds(threads, schedule);
    var s := Exec(RuledStep, Init(threads), schedule);
    if t < |s.threads| && s.threads[t].AddWord? && MIN_INT32 <= s.threads[t].delta <= MAX_INT32 {
      if Permitted(s, s.threads[t].delta) {
        AddKeepsInv(s, t);
        InvCannotPanic(Step(s, Wait(t)));
      } else {
        BreakingAddPanics(s, t);
      }
    }
  }
}
