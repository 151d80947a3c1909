/** syncx/lock.go, MutexLock, over park/park.go, Parker: a three-state word and a counting
    semaphore. A parked thread is one at `Parked` while no permit is stored; its action then
    changes nothing. Unlock is only called by the thread whose Lock returned. */
module MutexLock {
  import opened Counting
  import opened Schedules

  const UNLOCKED := 0
  const LOCKED_NO_WAIT := 1
  const LOCKED_WAIT := 2

  datatype Thread =
    | Outside
    | FastCas          // lock.go:156
    | SwapWait         // lock.go:162
    | Parked           // lock.go:165, park.go:94
    | Holding          // Lock has returned
    | UnlockFast       // lock.go:170
    | UnlockSlow       // lock.go:174
    | Unparking        // lock.go:175, park.go:98

  datatype State = State(word: int, permits: nat, threads: seq<Thread>)

  function Init(threads: nat): State {
    State(UNLOCKED, 0, seq(threads, i => Outside))
  }

  function Goto(s: State, t: nat, th: Thread): State
    requires t < |s.threads|
  {
    s.(threads := s.threads[t := th])
  }

  function Step(s: State, t: nat): State {
    if t < |s.threads| then
      match s.threads[t]
      case Outside => Goto(s, t, FastCas)
      case FastCas =>
        if s.word == UNLOCKED then Goto(s.(word := LOCKED_NO_WAIT), t, Holding) else Goto(s, t, SwapWait)
      case SwapWait => Goto(s.(word := LOCKED_WAIT), t, if s.word == UNLOCKED then Holding else Parked)
      case Parked => if s.permits > 0 then Goto(s.(permits := s.permits - 1), t, SwapWait) else s
      case Holding => Goto(s, t, UnlockFast)
      case UnlockFast =>
        if s.word == LOCKED_NO_WAIT then Goto(s.(word := UNLOCKED), t, Outside) else Goto(s, t, UnlockSlow)
      case UnlockSlow =>
        if s.word == LOCKED_WAIT then Goto(s.(word := UNLOCKED), t, Unparking) else Goto(s, t, Outside)
      case Unparking => Goto(s.(permits := s.permits + 1), t, Outside)
    else s
  }

  /** The lock belongs to the thread: Lock has returned and Unlock's CAS has not succeeded yet. */
  predicate Owns(th: Thread) {
    th.Holding? || th.UnlockFast? || th.UnlockSlow?
  }

  /** A wakeup is on its way: somebody will store a permit, or mark the word, before stopping. */
  predicate Rousing(th: Thread) {
    th.Unparking? || th.SwapWait?
  }

  ghost predicate Inv(s: State) {
    && UNLOCKED <= s.word <= LOCKED_WAIT
    && (s.word == UNLOCKED <==> forall t :: 0 <= t < |s.threads| ==> !Owns(s.threads[t]))
    && (forall t, u :: 0 <= t < |s.threads| && 0 <= u < |s.threads| && Owns(s.threads[t]) && Owns(s.threads[u]) ==>
          t == u)
    && (forall t :: 0 <= t < |s.threads| && s.threads[t].UnlockSlow? ==> s.word == LOCKED_WAIT)
    && NoLostWakeup(s)
  }

  /** If a thread sleeps with no permit stored, the next Unlock will see it, or a wakeup is under way. */
  ghost predicate NoLostWakeup(s: State) {
    (exists t :: 0 <= t < |s.threads| && s.threads[t].Parked?) && s.permits == 0 ==>
      s.word == LOCKED_WAIT || exists u :: 0 <= u < |s.threads| && Rousing(s.threads[u])
  }

  lemma StepKeepsInv(s: State, t: nat)
    requires Inv(s)
    ensures Inv(Step(s, t))
  {
    if t < |s.threads| {
      var s' := Step(s, t);
      forall u | 0 <= u < |s.threads| && u != t ensures s'.threads[u] == s.threads[u] {}
      if s.word != UNLOCKED {
        var u :| 0 <= u < |s.threads| && Owns(s.threads[u]);
        assert u != t ==> Owns(s'.threads[u]);
      }
      assert s'.word != UNLOCKED && !Owns(s'.threads[t]) ==> s.word != UNLOCKED;
      WakeupKept(s, t);
    }
  }

  lemma WakeupKept(s: State, t: nat)
    requires Inv(s) && t < |s.threads|
    ensures NoLostWakeup(Step(s, t))
  {
    var s' := Step(s, t);
    if p :| 0 <= p < |s'.threads| && s'.threads[p].Parked? && s'.permits == 0 && s'.word != LOCKED_WAIT {
      if s'.threads[t].SwapWait? {
        assert Rousing(s'.threads[t]);
      } else {
        assert s.threads[p].Parked? && s.permits == 0;
        var u :| 0 <= u < |s.threads| && (Rousing(s.threads[u]) || s.word == LOCKED_WAIT);
        if s.word == LOCKED_WAIT {
          assert Rousing(s'.threads[t]);
        } else {
          assert Rousing(s'.threads[u]);
        }
      }
    }
  }

  lemma InvHolds(threads: nat, schedule: seq<nat>)
    ensures Inv(Exec(Step, Init(threads), schedule))
  {
    forall s, t: nat | Inv(s) ensures Inv(Step(s, t)) { StepKeepsInv(s, t); }
    Always(Step, Inv, Init(threads), schedule);
  }

  /** Mutual exclusion; the word is 0 exactly when the lock is free; no wakeup is lost. */
  lemma MutexIsSound(threads: nat, schedule: seq<nat>, t: nat, u: nat)
    ensures
      var s := Exec(Step, Init(threads), schedule);
      && (t < |s.threads| && u < |s.threads| && Owns(s.threads[t]) && Owns(s.threads[u]) ==> t == u)
      && (s.word == UNLOCKED <==> forall v :: 0 <= v < |s.threads| ==> !Owns(s.threads[v]))
      && NoLostWakeup(s)
  {
    InvHolds(threads, schedule);
  }

  /** No run ends with the lock free and a thread asleep: someone inside Lock or Unlock can move. */
  lemma NoSleepOnFreeLock(threads: nat, schedule: seq<nat>)
    ensures
      var s := Exec(Step, Init(threads), schedule);
      s.word == UNLOCKED && (exists t :: 0 <= t < |s.threads| && s.threads[t].Parked?) ==>
        exists u :: 0 <= u < |s.threads| && !s.threads[u].Outside? && Step(s, u) != s
  {
    InvHolds(threads, schedule);
    var s := Exec(Step, Init(threads), schedule);
    if s.word == UNLOCKED && exists t :: 0 <= t < |s.threads| && s.threads[t].Parked? {
      var t :| 0 <= t < |s.threads| && s.threads[t].Parked?;
      if s.permits > 0 {
        assert Step(s, t).permits != s.permits;
      } else {
        var u :| 0 <= u < |s.threads| && Rousing(s.threads[u]);
        assert Step(s, u).threads[u] != s.threads[u];
      }
    }
  }

  lemma Moves(init: State, s: State, t: nat, expected: State) returns (r: State)
    requires Reachable(Step, init, s) && Step(s, t) == expected
    ensures r == expected && Reachable(Step, init, r)
  {
    ReachableStep(Step, init, s, t);
    r := expected;
  }

  // The comments read the word 1 as "held, nobody parked". WordOneIsTrueIff says which runs keep
  // that, for either reading of parked: inside Park, or inside it with no permit stored.

  function InPark(th: Thread): nat { if th.Parked? then 1 else 0 }

  /** With no permits set aside: somebody is inside Park. With those stored: somebody sleeps there. */
  predicate Sleeps(s: State, aside: nat) {
    Sum(InPark, s.threads) > aside
  }

  lemma SomebodyInPark(s: State)
    ensures Sleeps(s, 0) <==> exists t :: 0 <= t < |s.threads| && s.threads[t].Parked?
  {
    SumZero(InPark, s.threads);
  }

  function Aside(s: State, stored: bool): nat {
    if stored then s.permits else 0
  }

  predicate WordOneLies(s: State, stored: bool) {
    s.word == LOCKED_NO_WAIT && Sleeps(s, Aside(s, stored))
  }

  /** The fast path :156 of Lock is about to succeed although somebody is parked. */
  predicate Barges(s: State, t: nat, stored: bool) {
    t < |s.threads| && s.threads[t].FastCas? && s.word == UNLOCKED && Sleeps(s, Aside(s, stored))
  }

  lemma StepLiesIff(s: State, t: nat, stored: bool)
    requires !WordOneLies(s, stored)
    ensures WordOneLies(Step(s, t), stored) <==> Barges(s, t, stored)
  {
    if t < |s.threads| {
      SumUpdate(InPark, s.threads, t, Step(s, t).threads[t]);
    }
  }

  predicate LiesAt(threads: nat, schedule: seq<nat>, stored: bool, k: nat) {
    k <= |schedule| && WordOneLies(Exec(Step, Init(threads), schedule[..k]), stored)
  }

  predicate BargesAt(threads: nat, schedule: seq<nat>, stored: bool, k: nat) {
    k < |schedule| && Barges(Exec(Step, Init(threads), schedule[..k]), schedule[k], stored)
  }

  lemma LiesNextIff(threads: nat, schedule: seq<nat>, stored: bool, k: nat)
    requires k < |schedule| && !LiesAt(threads, schedule, stored, k)
    ensures LiesAt(threads, schedule, stored, k + 1) <==> BargesAt(threads, schedule, stored, k)
  {
    PrefixStep(Step, Init(threads), schedule, k);
    StepLiesIff(Exec(Step, Init(threads), schedule[..k]), schedule[k], stored);
  }

  lemma {:induction false} LieComesFromBarging(threads: nat, schedule: seq<nat>, stored: bool, k: nat)
    requires LiesAt(threads, schedule, stored, k)
    ensures exists j: nat :: BargesAt(threads, schedule, stored, j)
  {
    if k > 0 {
      if LiesAt(threads, schedule, stored, k - 1) {
        LieComesFromBarging(threads, schedule, stored, k - 1);
      } else {
        LiesNextIff(threads, schedule, stored, k - 1);
      }
    }
  }

  /** Throughout a run the word 1 means that nobody is parked if and only if no Lock takes the fast
      path while somebody is. */
  lemma WordOneIsTrueIff(threads: nat, schedule: seq<nat>, stored: bool)
    ensures (forall k: nat :: !LiesAt(threads, schedule, stored, k)) <==>
            (forall k: nat :: !BargesAt(threads, schedule, stored, k))
  {
    if k: nat :| LiesAt(threads, schedule, stored, k) {
      LieComesFromBarging(threads, schedule, stored, k);
    }
    if k: nat :| BargesAt(threads, schedule, stored, k) {
      if !LiesAt(threads, schedule, stored, k) { LiesNextIff(threads, schedule, stored, k); }
    }
  }

  lemma SleeperBehindHolder() returns (s: State)
    ensures Reachable(Step, Init(3), s) && s == State(2, 0, [Holding, Parked, Outside])
  {
    var init := Init(3);
    ReachableInit(Step, init);
    s := Moves(init, init, 0, State(0, 0, [FastCas, Outside, Outside]));
    s := Moves(init, s, 0, State(1, 0, [Holding, Outside, Outside]));
    s := Moves(init, s, 1, State(1, 0, [Holding, FastCas, Outside]));
    s := Moves(init, s, 1, State(1, 0, [Holding, SwapWait, Outside]));
    s := Moves(init, s, 1, State(2, 0, [Holding, Parked, Outside]));
  }

  /** Some run does not keep it: a thread takes the fast path between an Unlock's CAS and its
      Unpark and leaves 1 beside a sleeper. */
  lemma WordOneBesideASleeper()
    ensures exists s :: Reachable(Step, Init(3), s) && s.word == LOCKED_NO_WAIT && s.permits == 0 &&
                        |s.threads| == 3 && s.threads[1].Parked? && s.threads[2].Holding?
  {
    var init := Init(3);
    var s := SleeperBehindHolder();
    s := Moves(init, s, 0, State(2, 0, [UnlockFast, Parked, Outside]));
    s := Moves(init, s, 0, State(2, 0, [UnlockSlow, Parked, Outside]));
    s := Moves(init, s, 0, State(0, 0, [Unparking, Parked, Outside]));
    s := Moves(init, s, 2, State(0, 0, [Unparking, Parked, FastCas]));
    s := Moves(init, s, 2, State(1, 0, [Unparking, Parked, Holding]));
  }

  // ---------------------------------------------------------------- calls left alone

  predicate By(t: nat, moves: seq<nat>) { forall i :: 0 <= i < |moves| ==> moves[i] == t }

  lemma One(s: State, t: nat, moves: seq<nat>)
    requires By(t, moves) && |moves| == 1
    ensures Exec(Step, s, moves) == Step(s, t)
  {
    ExecHead(Step, s, moves);
    assert moves[1..] == [];
  }

  lemma Two(s: State, t: nat, moves: seq<nat>)
    requires By(t, moves) && |moves| == 2
    ensures Exec(Step, s, moves) == Step(Step(s, t), t)
  {
    ExecHead(Step, s, moves);
    One(Step(s, t), t, moves[1..]);
  }

  /** From every state: left alone, Lock takes a free lock in two moves and marks it 1; it is parked after
      three, and the word 2, when the lock is held. */
  lemma LockAlone(s: State, t: nat, moves: seq<nat>)
    requires t < |s.threads| && s.threads[t].Outside? && By(t, moves)
    requires |moves| == if s.word == UNLOCKED then 2 else 3
    ensures Exec(Step, s, moves) ==
            if s.word == UNLOCKED then Goto(s.(word := LOCKED_NO_WAIT), t, Holding)
            else Goto(s.(word := LOCKED_WAIT), t, Parked)
  {
    ExecHead(Step, s, moves);
    var s1, rest := Goto(s, t, FastCas), moves[1..];
    if s.word == UNLOCKED {
      One(s1, t, rest);
      assert s.threads[t := FastCas][t := Holding] == s.threads[t := Holding];
    } else {
      Two(s1, t, rest);
      assert s.threads[t := FastCas][t := SwapWait] == s.threads[t := SwapWait];
      assert s.threads[t := SwapWait][t := Parked] == s.threads[t := Parked];
    }
  }

  /** From every state: Unlock frees a lock marked 1 in two moves and wakes nobody; one marked 2 in
      four, and stores a permit. */
  lemma UnlockAlone(s: State, t: nat, moves: seq<nat>)
    requires t < |s.threads| && s.threads[t].Holding? && By(t, moves)
    requires (s.word == LOCKED_NO_WAIT && |moves| == 2) || (s.word == LOCKED_WAIT && |moves| == 4)
    ensures Exec(Step, s, moves) ==
            Goto(s.(word := UNLOCKED, permits := s.permits + if s.word == LOCKED_WAIT then 1 else 0), t, Outside)
  {
    ExecHead(Step, s, moves);
    var s1, rest := Goto(s, t, UnlockFast), moves[1..];
    if s.word == LOCKED_NO_WAIT {
      One(s1, t, rest);
      assert s.threads[t := UnlockFast][t := Outside] == s.threads[t := Outside];
    } else {
      ExecHead(Step, s1, rest);
      assert s.threads[t := UnlockFast][t := UnlockSlow] == s.threads[t := UnlockSlow];
      SlowUnlock(Goto(s, t, UnlockSlow), t, rest[1..]);
      assert s.threads[t := UnlockSlow][t := Outside] == s.threads[t := Outside];
    }
  }

  lemma SlowUnlock(s: State, t: nat, moves: seq<nat>)
    requires t < |s.threads| && s.threads[t].UnlockSlow? && s.word == LOCKED_WAIT && By(t, moves) && |moves| == 2
    ensures Exec(Step, s, moves) == Goto(s.(word := UNLOCKED, permits := s.permits + 1), t, Outside)
  {
    Two(s, t, moves);
    assert s.threads[t := Unparking][t := Outside] == s.threads[t := Outside];
  }

  /** From every state: a parked thread with a permit stored takes it and, two moves on, holds the lock
      if it is free and is parked again if not; the word is 2 either way. */
  lemma WokenAlone(s: State, t: nat, moves: seq<nat>)
    requires t < |s.threads| && s.threads[t].Parked? && s.permits > 0 && By(t, moves) && |moves| == 2
    ensures Exec(Step, s, moves) ==
            Goto(s.(word := LOCKED_WAIT, permits := s.permits - 1), t, if s.word == UNLOCKED then Holding else Parked)
  {
    Two(s, t, moves);
    var th := if s.word == UNLOCKED then Holding else Parked;
    assert s.threads[t := SwapWait][t := th] == s.threads[t := th];
  }

  predicate Stores(s: State, t: nat) {
    t < |s.threads| && s.threads[t].Unparking? && t < |Step(s, t).threads| && !Step(s, t).threads[t].Unparking?
  }

  predicate Wakens(s: State, t: nat) {
    t < |s.threads| && s.threads[t].Parked? && t < |Step(s, t).threads| && !Step(s, t).threads[t].Parked?
  }

  /** Stored permits are the Unparks made less the Parks that have returned. */
  lemma {:induction false} PermitsCount(threads: nat, schedule: seq<nat>)
    ensures
      var i := Init(threads);
      Exec(Step, i, schedule).permits == Tally(Step, i, schedule, Stores) - Tally(Step, i, schedule, Wakens)
    decreases |schedule|
  {
    if schedule != [] {
      PermitsCount(threads, schedule[..|schedule| - 1]);
    }
  }
}
