/** syncx/semaphore.go, RuntimeSemaphore: a counter that goes negative by one for every blocked
    Acquire, over the runtime semaphore (a count whose acquire blocks at zero). Release may come
    from any thread at any time; the code does not check. No step reads the bookkeeping: `held`, the
    permits callers hold, and `over`, the Releases made while none was held. */
module RuntimeSemaphore {
  import opened Schedules
  import opened Counting

  datatype Thread =
    | Outside
    | AcquireLoad                // :334
    | AcquireCas(seen: int)      // :335
    | Asleep                     // :337
    | ReleaseAdd                 // :345
    | ReleaseWake                // :346

  datatype State = State(permits: int, sema: nat, threads: seq<Thread>, held: nat, over: nat)

  datatype Action = Acquire(tid: nat) | Release(tid: nat)

  function Init(threads: nat, init: nat): State {
    State(init, 0, seq(threads, i => Outside), 0, 0)
  }

  function Goto(s: State, t: nat, th: Thread): State
    requires t < |s.threads|
  {
    s.(threads := s.threads[t := th])
  }

  function Step(s: State, a: Action): State {
    if a.tid < |s.threads| then
      if s.threads[a.tid].ReleaseAdd? || s.threads[a.tid].ReleaseWake? then StepRelease(s, a.tid)
      else StepAcquire(s, a)
    else s
  }

  function StepAcquire(s: State, a: Action): State
    requires a.tid < |s.threads| && !s.threads[a.tid].ReleaseAdd? && !s.threads[a.tid].ReleaseWake?
  {
    match s.threads[a.tid]
    case Outside => Goto(s, a.tid, if a.Acquire? then AcquireLoad else ReleaseAdd)
    case AcquireLoad => Goto(s, a.tid, AcquireCas(s.permits))
    case AcquireCas(seen) =>
      if s.permits != seen then Goto(s, a.tid, AcquireLoad)
      else if seen <= 0 then Goto(s.(permits := seen - 1), a.tid, Asleep)
      else Goto(s.(permits := seen - 1, held := s.held + 1), a.tid, Outside)
    case Asleep => if s.sema > 0 then Goto(s.(sema := s.sema - 1, held := s.held + 1), a.tid, Outside) else s
  }

  function StepRelease(s: State, t: nat): State
    requires t < |s.threads| && (s.threads[t].ReleaseAdd? || s.threads[t].ReleaseWake?)
  {
    match s.threads[t]
    case ReleaseAdd =>
      var added := s.(permits := s.permits + 1, held := if s.held == 0 then 0 else s.held - 1,
                      over := if s.held == 0 then s.over + 1 else s.over);
      Goto(added, t, if s.permits + 1 <= 0 then ReleaseWake else Outside)
    case ReleaseWake => Goto(s.(sema := s.sema + 1), t, Outside)
  }

  function Sleeping(th: Thread): nat { if th.Asleep? then 1 else 0 }

  function Waking(th: Thread): nat { if th.ReleaseWake? then 1 else 0 }

  function Positive(x: int): nat { if x > 0 then x else 0 }

  /** Every permit, and every one invented by a Release too many, is held, free, stored in sema or
      about to be stored; every sleeper is counted below zero or has a wakeup stored or coming. */
  ghost predicate Inv(s: State, init: nat) {
    && s.held + Positive(s.permits) + s.sema + Sum(Waking, s.threads) == init + s.over
    && Sum(Sleeping, s.threads) == Positive(-s.permits) + s.sema + Sum(Waking, s.threads)
  }

  /** What thread t's move adds to one place it takes from another. */
  ghost predicate Balanced(s: State, s': State, t: nat) {
    && t < |s.threads| == |s'.threads| && s'.threads == s.threads[t := s'.threads[t]]
    && var th, th' := s.threads[t], s'.threads[t];
       && s'.held + Positive(s'.permits) + s'.sema + Waking(th') + s.over ==
          s.held + Positive(s.permits) + s.sema + Waking(th) + s'.over
       && Sleeping(th') + Positive(-s.permits) + s.sema + Waking(th)
          == Sleeping(th) + Positive(-s'.permits) + s'.sema + Waking(th')
       && s.over <= s'.over
  }

  lemma AcquireBalances(s: State, a: Action)
    requires a.tid < |s.threads| && !s.threads[a.tid].ReleaseAdd? && !s.threads[a.tid].ReleaseWake?
    ensures Balanced(s, StepAcquire(s, a), a.tid)
  {
  }

  lemma ReleaseBalances(s: State, t: nat)
    requires t < |s.threads| && (s.threads[t].ReleaseAdd? || s.threads[t].ReleaseWake?)
    ensures Balanced(s, StepRelease(s, t), t)
  {
  }

  lemma StepBalances(s: State, a: Action)
    requires a.tid < |s.threads|
    ensures Balanced(s, Step(s, a), a.tid)
  {
    if s.threads[a.tid].ReleaseAdd? || s.threads[a.tid].ReleaseWake? {
      ReleaseBalances(s, a.tid);
    } else {
      AcquireBalances(s, a);
    }
  }

  lemma StepKeepsInv(s: State, a: Action, init: nat)
    requires Inv(s, init)
    ensures Inv(Step(s, a), init)
  {
    if a.tid < |s.threads| {
      StepBalances(s, a);
      var th' := Step(s, a).threads[a.tid];
      SumUpdate(Waking, s.threads, a.tid, th');
      SumUpdate(Sleeping, s.threads, a.tid, th');
    }
  }

  lemma InvHolds(threads: nat, init: nat, schedule: seq<Action>)
    ensures Inv(Exec(Step, Init(threads, init), schedule), init)
  {
    SumZero(Waking, Init(threads, init).threads);
    SumZero(Sleeping, Init(threads, init).threads);
    forall s, a | Inv(s, init) ensures Inv(Step(s, a), init) { StepKeepsInv(s, a, init); }
    Always(Step, s => Inv(s, init), Init(threads, init), schedule);
  }

  // What the fields mean is told by the moves of the run.

  /** An Acquire's CAS has gone through: the call returns or falls asleep. */
  predicate Claims(s: State, a: Action) {
    var s' := Step(s, a);
    && a.tid < |s.threads| && s.threads[a.tid].AcquireCas?
    && a.tid < |s'.threads| && (s'.threads[a.tid].Outside? || s'.threads[a.tid].Asleep?)
  }

  predicate Acquires(s: State, a: Action) {
    var s' := Step(s, a);
    && a.tid < |s.threads| && (s.threads[a.tid].AcquireCas? || s.threads[a.tid].Asleep?)
    && a.tid < |s'.threads| && s'.threads[a.tid].Outside?
  }

  /** A Release has passed its Add. */
  predicate Releases(s: State, a: Action) {
    var s' := Step(s, a);
    && a.tid < |s.threads| && s.threads[a.tid].ReleaseAdd?
    && a.tid < |s'.threads| && !s'.threads[a.tid].ReleaseAdd?
  }

  /** A Release has passed its wakeup. */
  predicate Wakes(s: State, a: Action) {
    var s' := Step(s, a);
    && a.tid < |s.threads| && s.threads[a.tid].ReleaseWake?
    && a.tid < |s'.threads| && !s'.threads[a.tid].ReleaseWake?
  }

  predicate Wakens(s: State, a: Action) {
    var s' := Step(s, a);
    a.tid < |s.threads| && s.threads[a.tid].Asleep? && a.tid < |s'.threads| && !s'.threads[a.tid].Asleep?
  }

  function One(b: bool): int { if b then 1 else 0 }

  lemma PermitsMove(s: State, a: Action)
    ensures Step(s, a).permits == s.permits - One(Claims(s, a)) + One(Releases(s, a))
  {
  }

  lemma HeldMoves(s: State, a: Action)
    ensures Step(s, a).held - Step(s, a).over == s.held - s.over + One(Acquires(s, a)) - One(Releases(s, a))
  {
  }

  lemma SemaMoves(s: State, a: Action)
    ensures Step(s, a).sema == s.sema + One(Wakes(s, a)) - One(Wakens(s, a))
  {
  }

  lemma {:induction false} FieldsCount(threads: nat, init: nat, schedule: seq<Action>)
    ensures
      var i, s := Init(threads, init), Exec(Step, Init(threads, init), schedule);
      && s.permits == init - Tally(Step, i, schedule, Claims) + Tally(Step, i, schedule, Releases)
      && s.held - s.over == Tally(Step, i, schedule, Acquires) - Tally(Step, i, schedule, Releases)
      && s.sema == Tally(Step, i, schedule, Wakes) - Tally(Step, i, schedule, Wakens)
    decreases |schedule|
  {
    if schedule != [] {
      var front, a := schedule[..|schedule| - 1], schedule[|schedule| - 1];
      FieldsCount(threads, init, front);
      PermitsMove(Exec(Step, Init(threads, init), front), a);
      HeldMoves(Exec(Step, Init(threads, init), front), a);
      SemaMoves(Exec(Step, Init(threads, init), front), a);
    }
  }

  /** Acquires that have returned, less the Releases that have given a permit back. */
  function Outstanding(threads: nat, init: nat, schedule: seq<Action>): int {
    Tally(Step, Init(threads, init), schedule, Acquires) - Tally(Step, Init(threads, init), schedule, Releases)
  }

  /** The counter is init, less the Acquires through their CAS, plus the Releases. The permits
      outstanding are exactly those missing elsewhere, hence at most init; and `held` differs from
      them by the Releases made while none was held. So there are at most init holders exactly as
      long as every invented permit is unclaimed, and always when nobody released without holding. */
  lemma HoldersAreBounded(threads: nat, init: nat, schedule: seq<Action>)
    ensures
      var i, s := Init(threads, init), Exec(Step, Init(threads, init), schedule);
      var out, unclaimed := Outstanding(threads, init, schedule), Positive(s.permits) + s.sema + Sum(Waking, s.threads);
      && s.permits == init - Tally(Step, i, schedule, Claims) + Tally(Step, i, schedule, Releases)
      && s.sema == Tally(Step, i, schedule, Wakes) - Tally(Step, i, schedule, Wakens)
      && out == init - unclaimed && s.held == out + s.over
      && (s.held <= init <==> s.over <= unclaimed)
      && (s.over == 0 ==> s.held <= init)
  {
    InvHolds(threads, init, schedule);
    FieldsCount(threads, init, schedule);
  }

  /** A thread sleeps with no wakeup stored or coming only while as many Acquires as init have
      returned without a Release. */
  lemma SleepersMeanExhausted(threads: nat, init: nat, schedule: seq<Action>, t: nat)
    ensures
      var s := Exec(Step, Init(threads, init), schedule);
      var blocked := t < |s.threads| && s.threads[t].Asleep? && s.sema == 0;
      blocked && (forall u :: 0 <= u < |s.threads| ==> !s.threads[u].ReleaseWake?) ==>
        Outstanding(threads, init, schedule) == init && s.held == init + s.over
  {
    HoldersAreBounded(threads, init, schedule);
    InvHolds(threads, init, schedule);
    var s := Exec(Step, Init(threads, init), schedule);
    SumZero(Waking, s.threads);
    if t < |s.threads| { SumAtLeast(Sleeping, s.threads, t); }
  }

  predicate All(a: Action, moves: seq<Action>) { forall i :: 0 <= i < |moves| ==> moves[i] == a }

  lemma OneMove(s: State, a: Action, moves: seq<Action>)
    requires All(a, moves) && |moves| == 1
    ensures Exec(Step, s, moves) == Step(s, a)
  {
    ExecHead(Step, s, moves);
    assert moves[1..] == [];
  }

  /** Left alone, an Acquire takes a free permit and returns, or goes to sleep, in three moves, from
      every state; and a sleeper with a wakeup stored returns with its next move. */
  lemma AcquireAlone(s: State, t: nat, moves: seq<Action>)
    requires t < |s.threads| && All(Acquire(t), moves) && |moves| == 3
    ensures s.threads[t].Outside? ==>
              Exec(Step, s, moves) ==
              if s.permits > 0 then s.(permits := s.permits - 1, held := s.held + 1)
              else Goto(s.(permits := s.permits - 1), t, Asleep)
    ensures s.threads[t].Asleep? && s.sema > 0 ==> Step(s, Acquire(t)).threads[t].Outside?
  {
    if s.threads[t].Outside? {
      var cas := AcquireCas(s.permits);
      ExecHead(Step, s, moves);
      ExecHead(Step, Goto(s, t, AcquireLoad), moves[1..]);
      OneMove(Goto(s, t, cas), Acquire(t), moves[1..][1..]);
      assert s.threads[t := AcquireLoad][t := cas] == s.threads[t := cas];
      assert s.threads[t := cas][t := Outside] == s.threads;
      assert s.threads[t := cas][t := Asleep] == s.threads[t := Asleep];
    }
  }

  /** A Release returns in two moves, or in three with a wakeup stored when somebody is counted as
      asleep, from every state. */
  lemma ReleaseAlone(s: State, t: nat, moves: seq<Action>)
    requires t < |s.threads| && s.threads[t].Outside? && All(Release(t), moves)
    requires |moves| == if s.permits >= 0 then 2 else 3
    ensures
      var end := Exec(Step, s, moves);
      && end.permits == s.permits + 1 && end.threads == s.threads
      && end.sema == s.sema + if s.permits >= 0 then 0 else 1
  {
    var s1, rest := Goto(s, t, ReleaseAdd), moves[1..];
    ExecHead(Step, s, moves);
    if s.permits >= 0 {
      OneMove(s1, Release(t), rest);
      assert s1.threads[t := Outside] == s.threads;
    } else {
      ExecHead(Step, s1, rest);
      OneMove(Step(s1, Release(t)), Release(t), rest[1..]);
      assert s1.threads[t := ReleaseWake][t := Outside] == s.threads;
    }
  }

  // ---------------------------------------------------------------- Release without Acquire

  /** Runs on in which nobody calls Release any more. */
  function AcquireStep(s: State, a: Action): State {
    if a.tid < |s.threads| && s.threads[a.tid].Outside? && a.Release? then s else Step(s, a)
  }

  ghost predicate CanExceed(s: State, init: nat) {
    exists more :: Exec(AcquireStep, s, more).held > init
  }

  lemma CanExceedLater(s: State, init: nat, a: Action)
    requires CanExceed(AcquireStep(s, a), init)
    ensures CanExceed(s, init)
  {
    var more :| Exec(AcquireStep, AcquireStep(s, a), more).held > init;
    ExecPrepends(AcquireStep, s, a, more);
    assert Exec(AcquireStep, s, [a] + more).held > init;
  }

  predicate NoneReleasing(s: State) {
    forall t :: 0 <= t < |s.threads| ==> !s.threads[t].ReleaseAdd?
  }

  /** Moves left until this thread claims a free permit. */
  function Rank(th: Thread, permits: int): nat {
    match th
    case AcquireCas(seen) => if seen == permits then 0 else 2
    case AcquireLoad => 1
    case _ => 2
  }

  lemma MoveOn(s: State, init: nat, a: Action)
    requires Inv(s, init) && NoneReleasing(s) && a.Acquire? && a.tid < |s.threads|
    ensures var s' := AcquireStep(s, a);
            Inv(s', init) && NoneReleasing(s') && s'.over == s.over && s'.held >= s.held && |s'.threads| == |s.threads|
  {
    StepKeepsInv(s, a, init);
  }

  /** An unclaimed permit gets claimed: a stored one by a sleeper, a free one by thread 0. */
  lemma OverReleaseExceeds(s: State, init: nat)
    requires Inv(s, init) && NoneReleasing(s) && s.over > 0 && |s.threads| > 0
    ensures CanExceed(s, init)
    decreases init + 1 - Positive(s.held), Sum(Waking, s.threads), Rank(s.threads[0], s.permits)
  {
    SumZero(Waking, s.threads);
    SumZero(Sleeping, s.threads);
    if s.held > init {
      assert Exec(AcquireStep, s, []).held > init;
    } else {
      var a := NextClaim(s, init);
      MoveOn(s, init, a);
      OverReleaseExceeds(AcquireStep(s, a), init);
      CanExceedLater(s, init, a);
    }
  }

  lemma NextClaim(s: State, init: nat) returns (a: Action)
    requires Inv(s, init) && NoneReleasing(s) && s.over > 0 && |s.threads| > 0 && s.held <= init
    ensures a.Acquire? && a.tid < |s.threads|
    ensures var s' := AcquireStep(s, a);
            && |s'.threads| == |s.threads|
            && (|| s'.held > s.held
                || (s'.held == s.held && Sum(Waking, s'.threads) < Sum(Waking, s.threads))
                || (s'.held == s.held && Sum(Waking, s'.threads) == Sum(Waking, s.threads)
                    && Rank(s'.threads[0], s'.permits) < Rank(s.threads[0], s.permits)))
  {
    SumZero(Waking, s.threads);
    SumZero(Sleeping, s.threads);
    if s.sema > 0 {
      var u :| 0 <= u < |s.threads| && Sleeping(s.threads[u]) != 0;
      a := Acquire(u);
    } else if Sum(Waking, s.threads) > 0 {
      var u :| 0 <= u < |s.threads| && Waking(s.threads[u]) != 0;
      a := Acquire(u);
      SumUpdate(Waking, s.threads, u, Outside);
    } else {
      a := Acquire(0);
      assert Sleeping(s.threads[0]) == 0 && Waking(s.threads[0]) == 0;
      SumUpdate(Waking, s.threads, 0, AcquireStep(s, a).threads[0]);
    }
  }

  lemma NoneOverNeverExceeds(s: State, init: nat)
    requires Inv(s, init) && NoneReleasing(s) && s.over == 0
    ensures !CanExceed(s, init)
  {
    var inv := (x: State) => Inv(x, init) && NoneReleasing(x) && x.over == 0;
    forall x, a | inv(x) ensures inv(AcquireStep(x, a)) { StepKeepsInv(x, a, init); }
    forall more ensures Exec(AcquireStep, s, more).held <= init { Always(AcquireStep, inv, s, more); }
  }

  /** Without noticing, one Release too many lets the holders exceed init: in every run, whenever no
      Release is about to add its permit, the callers can come to hold more than init by Acquires
      alone if and only if some Release was made while no permit was held. */
  lemma ExceedsIffOverReleased(threads: nat, init: nat, schedule: seq<Action>)
    requires threads > 0
    ensures
      var s := Exec(Step, Init(threads, init), schedule);
      NoneReleasing(s) ==> (CanExceed(s, init) <==> s.over > 0)
  {
    InvHolds(threads, init, schedule);
    ThreadsStay(threads, init, schedule);
    var s := Exec(Step, Init(threads, init), schedule);
    if NoneReleasing(s) {
      if s.over > 0 { OverReleaseExceeds(s, init); } else { NoneOverNeverExceeds(s, init); }
    }
  }

  lemma ThreadsStay(threads: nat, init: nat, schedule: seq<Action>)
    ensures |Exec(Step, Init(threads, init), schedule).threads| == threads
  {
    Always(Step, (s: State) => |s.threads| == threads, Init(threads, init), schedule);
  }

  /** The input: a Release on a fresh semaphore returns as any other, and is one too many. */
  lemma ReleaseGoesUnnoticed(init: nat)
    ensures
      var s := Exec(Step, Init(1, init), [Release(0), Release(0)]);
      s.threads == [Outside] && s.over == 1 && s.held == 0 && s.permits == init + 1
  {
    var one: seq<Action> := [Release(0)];
    var two: seq<Action> := [Release(0), Release(0)];
    assert one[..0] == [] && two[..1] == one;
    assert Exec(Step, Init(1, init), one) == State(init, 0, [ReleaseAdd], 0, 0);
  }
}
