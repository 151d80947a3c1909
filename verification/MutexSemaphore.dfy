/** syncx/semaphore.go, MutexSemaphore: a counter under a mutex, and one locked gate for every waiter
    in arrival order. Each critical section is one move. No step reads the bookkeeping: `arrivals`,
    the threads in the order their Acquire got the mutex; `grants`, in the order a permit was
    assigned to them; `released`, the Releases that went through. */
module MutexSemaphore {
  import opened Counting
  import opened Schedules

  datatype Thread = Outside | Gate(open: bool) | Panicked

  datatype State = State(
    count: int, max: int, waiters: seq<nat>, threads: seq<Thread>,
    arrivals: seq<nat>, grants: seq<nat>, released: nat)

  /** A waiting thread moves with either action: it tries its gate. */
  datatype Action = Acquire(tid: nat) | Release(tid: nat)

  function Init(threads: nat, init: int): State {
    State(0, init, [], seq(threads, i => Outside), [], [], 0)
  }

  function Step(s: State, a: Action): State {
    if a.tid < |s.threads| then
      match s.threads[a.tid]
      case Outside => if a.Acquire? then AcquireLocked(s, a.tid) else ReleaseLocked(s, a.tid)
      case Gate(open) => if open then s.(threads := s.threads[a.tid := Outside]) else s
      case Panicked => s
    else s
  }

  /** Acquire under the mutex, :101-113. */
  function AcquireLocked(s: State, t: nat): State
    requires t < |s.threads|
  {
    var arrived := s.(arrivals := s.arrivals + [t]);
    if s.count < s.max then arrived.(count := s.count + 1, grants := s.grants + [t])
    else arrived.(waiters := s.waiters + [t], threads := s.threads[t := Gate(false)])
  }

  /** Release under the mutex, :118-132. */
  function ReleaseLocked(s: State, t: nat): State
    requires t < |s.threads|
  {
    if s.count == 0 then s.(threads := s.threads[t := Panicked])
    else if s.waiters != [] && s.waiters[0] < |s.threads| then
      var g := s.waiters[0];
      s.(waiters := s.waiters[1..], threads := s.threads[g := Gate(true)],
         grants := s.grants + [g], released := s.released + 1)
    else s.(count := s.count - 1, released := s.released + 1)
  }

  ghost predicate Queued(q: seq<nat>, t: nat) { exists i :: 0 <= i < |q| && q[i] == t }

  ghost predicate Inv(s: State) {
    && s.arrivals == s.grants + s.waiters
    && s.count == |s.grants| - s.released
    && 0 <= s.count && (s.max >= 0 ==> s.count <= s.max)
    && (s.waiters != [] ==> s.count >= s.max)
    && (forall i :: 0 <= i < |s.waiters| ==> s.waiters[i] < |s.threads| && s.threads[s.waiters[i]] == Gate(false))
    && (forall i, j :: 0 <= i < j < |s.waiters| ==> s.waiters[i] != s.waiters[j])
    && (forall t {:trigger Queued(s.waiters, t)} :: 0 <= t < |s.threads| && s.threads[t] == Gate(false) ==>
          Queued(s.waiters, t))
  }

  lemma AcquireKeepsInv(s: State, t: nat)
    requires Inv(s) && t < |s.threads| && s.threads[t].Outside?
    ensures Inv(AcquireLocked(s, t))
  {
    var s' := AcquireLocked(s, t);
    assert s'.arrivals == s'.grants + s'.waiters;
    forall u | 0 <= u < |s'.threads| && s'.threads[u] == Gate(false) ensures Queued(s'.waiters, u) {
      if s'.waiters != s.waiters {
        if u == t {
          assert s'.waiters[|s.waiters|] == t;
        } else {
          assert Queued(s.waiters, u);
          var i :| 0 <= i < |s.waiters| && s.waiters[i] == u;
          assert s'.waiters[i] == u;
        }
      } else {
        assert Queued(s.waiters, u);
      }
    }
  }

  /** The oldest waiter's gate is opened and the permit is his; the count stays. */
  lemma HandoffKeepsInv(s: State, t: nat)
    requires Inv(s) && t < |s.threads| && s.threads[t].Outside? && s.waiters != [] && s.count != 0
    ensures Inv(ReleaseLocked(s, t))
  {
    var s', g := ReleaseLocked(s, t), s.waiters[0];
    assert s.threads[g] == Gate(false);
    assert s'.arrivals == s'.grants + s'.waiters;
    assert forall i :: 0 <= i < |s'.waiters| ==> s'.waiters[i] == s.waiters[i + 1] && s'.waiters[i] != g;
    forall u | 0 <= u < |s'.threads| && s'.threads[u] == Gate(false) ensures Queued(s'.waiters, u) {
      assert Queued(s.waiters, u);
      var i :| 0 <= i < |s.waiters| && s.waiters[i] == u;
      assert s'.waiters[i - 1] == u;
    }
  }

  lemma ReleaseKeepsInv(s: State, t: nat)
    requires Inv(s) && t < |s.threads| && s.threads[t].Outside?
    ensures Inv(ReleaseLocked(s, t))
  {
    if s.waiters != [] && s.count != 0 {
      HandoffKeepsInv(s, t);
    } else {
      var s' := ReleaseLocked(s, t);
      forall u | 0 <= u < |s'.threads| && s'.threads[u] == Gate(false) ensures Queued(s'.waiters, u) {
        assert Queued(s.waiters, u);
      }
    }
  }

  lemma StepKeepsInv(s: State, a: Action)
    requires Inv(s)
    ensures Inv(Step(s, a))
  {
    if a.tid < |s.threads| {
      if s.threads[a.tid].Outside? {
        if a.Acquire? { AcquireKeepsInv(s, a.tid); } else { ReleaseKeepsInv(s, a.tid); }
      } else {
        var s' := Step(s, a);
        forall u | 0 <= u < |s'.threads| && s'.threads[u] == Gate(false) ensures Queued(s'.waiters, u) {
          assert Queued(s.waiters, u);
        }
      }
    }
  }

  lemma InvHolds(threads: nat, init: int, schedule: seq<Action>)
    ensures Inv(Exec(Step, Init(threads, init), schedule))
  {
    forall s, a | Inv(s) ensures Inv(Step(s, a)) { StepKeepsInv(s, a); }
    Always(Step, Inv, Init(threads, init), schedule);
  }

  lemma {:induction false} MaxIsFixed(threads: nat, init: int, schedule: seq<Action>)
    ensures Exec(Step, Init(threads, init), schedule).max == init
  {
    Always(Step, (s: State) => s.max == init, Init(threads, init), schedule);
  }

  /** Permits are granted strictly in order of arrival, nobody barges in, at most init of them are
      out at any time, and a thread waits at a closed gate only while all of them are. */
  lemma FairAndBounded(threads: nat, init: nat, schedule: seq<Action>, t: nat)
    ensures
      var s := Exec(Step, Init(threads, init), schedule);
      && s.grants <= s.arrivals && s.arrivals == s.grants + s.waiters
      && 0 <= |s.grants| - s.released <= init
      && (t < |s.threads| && s.threads[t] == Gate(false) ==> Queued(s.waiters, t) && |s.grants| - s.released == init)
  {
    InvHolds(threads, init, schedule);
    MaxIsFixed(threads, init, schedule);
    var s := Exec(Step, Init(threads, init), schedule);
    if t < |s.threads| && s.threads[t] == Gate(false) { assert Queued(s.waiters, t); }
  }

  /** A Release panics exactly when every permit ever granted has been given back. */
  lemma PanicsIffNoneOut(threads: nat, init: int, schedule: seq<Action>, t: nat)
    ensures
      var s := Exec(Step, Init(threads, init), schedule);
      t < |s.threads| && s.threads[t].Outside? ==>
        (Step(s, Release(t)).threads[t].Panicked? <==> |s.grants| == s.released)
  {
    InvHolds(threads, init, schedule);
    var s := Exec(Step, Init(threads, init), schedule);
    if t < |s.threads| && s.threads[t].Outside? && s.waiters != [] {
      assert s.threads[s.waiters[0]] == Gate(false);
    }
  }

  // What the logs mean is told by the moves of the run.

  /** A thread enters Acquire and gets the mutex. */
  predicate Enters(s: State, a: Action) {
    a.tid < |s.threads| && s.threads[a.tid].Outside? && a.Acquire?
  }

  /** Who entered Acquire, in order. */
  function Entered(init: State, schedule: seq<Action>): seq<nat> {
    if schedule == [] then []
    else
      var front, a := schedule[..|schedule| - 1], schedule[|schedule| - 1];
      Entered(init, front) + if Enters(Exec(Step, init, front), a) then [a.tid] else []
  }

  /** An Acquire returns: at once, or through its gate. */
  predicate Returns(s: State, a: Action) {
    && a.tid < |s.threads| && (Enters(s, a) || s.threads[a.tid].Gate?)
    && a.tid < |Step(s, a).threads| && Step(s, a).threads[a.tid].Outside?
  }

  /** A Release goes through. */
  predicate Releases(s: State, a: Action) {
    && a.tid < |s.threads| && s.threads[a.tid].Outside? && a.Release?
    && a.tid < |Step(s, a).threads| && Step(s, a).threads[a.tid].Outside?
  }

  function Leaving(th: Thread): nat { if th == Gate(true) then 1 else 0 }

  function One(b: bool): nat { if b then 1 else 0 }

  lemma AcquireCounts(s: State, t: nat)
    requires Inv(s) && t < |s.threads| && s.threads[t].Outside?
    ensures
      var s' := AcquireLocked(s, t);
      && s'.arrivals == s.arrivals + [t] && s'.released == s.released
      && |s'.grants| + Sum(Leaving, s.threads) == |s.grants| + Sum(Leaving, s'.threads) + One(Returns(s, Acquire(t)))
  {
    SumUpdate(Leaving, s.threads, t, AcquireLocked(s, t).threads[t]);
  }

  lemma ReleaseCounts(s: State, t: nat)
    requires Inv(s) && t < |s.threads| && s.threads[t].Outside?
    ensures
      var s' := ReleaseLocked(s, t);
      && s'.arrivals == s.arrivals && s'.released == s.released + One(Releases(s, Release(t)))
      && |s'.grants| + Sum(Leaving, s.threads) == |s.grants| + Sum(Leaving, s'.threads)
  {
    SumUpdate(Leaving, s.threads, t, Panicked);
    if s.waiters != [] {
      assert s.threads[s.waiters[0]] == Gate(false);
      SumUpdate(Leaving, s.threads, s.waiters[0], Gate(true));
    }
  }

  lemma StepCounts(s: State, a: Action)
    requires Inv(s)
    ensures
      var s' := Step(s, a);
      && s'.arrivals == s.arrivals + (if Enters(s, a) then [a.tid] else [])
      && s'.released == s.released + One(Releases(s, a))
      && |s'.grants| + Sum(Leaving, s.threads) == |s.grants| + Sum(Leaving, s'.threads) + One(Returns(s, a))
  {
    if a.tid < |s.threads| {
      if s.threads[a.tid].Outside? {
        if a.Acquire? { AcquireCounts(s, a.tid); } else { ReleaseCounts(s, a.tid); }
      } else {
        SumUpdate(Leaving, s.threads, a.tid, Step(s, a).threads[a.tid]);
      }
    }
  }

  /** The logs are the calls of the run: arrivals are the Acquires in the order in which they got the
      mutex; permits granted are the Acquires that have returned and those whose gate is open, who
      return with their next move; `released` are the Releases that went through. So at most init
      Acquires have returned without a Release. */
  lemma {:induction false} LogsAreCalls(threads: nat, init: nat, schedule: seq<Action>, t: nat)
    ensures
      var i, s := Init(threads, init), Exec(Step, Init(threads, init), schedule);
      var returned, released := Tally(Step, i, schedule, Returns), Tally(Step, i, schedule, Releases);
      && s.arrivals == Entered(i, schedule) && s.released == released
      && |s.grants| == returned + Sum(Leaving, s.threads)
      && returned - released <= init
      && (t < |s.threads| && s.threads[t] == Gate(true) ==> Step(s, Acquire(t)).threads[t].Outside?)
    decreases |schedule|
  {
    FairAndBounded(threads, init, schedule, t);
    if schedule == [] {
      SumZero(Leaving, Init(threads, init).threads);
    } else {
      var front := schedule[..|schedule| - 1];
      LogsAreCalls(threads, init, front, t);
      InvHolds(threads, init, front);
      StepCounts(Exec(Step, Init(threads, init), front), schedule[|schedule| - 1]);
    }
  }

  /** An Acquire that finds a permit free returns at once, in every run; otherwise it waits. */
  lemma AcquireAlone(threads: nat, init: nat, schedule: seq<Action>, t: nat)
    ensures
      var i, s := Init(threads, init), Exec(Step, Init(threads, init), schedule);
      t < |s.threads| && s.threads[t].Outside? ==>
        (Step(s, Acquire(t)).threads[t].Outside? <==>
         Tally(Step, i, schedule, Returns) + Sum(Leaving, s.threads) < init + Tally(Step, i, schedule, Releases))
  {
    LogsAreCalls(threads, init, schedule, t);
    InvHolds(threads, init, schedule);
    MaxIsFixed(threads, init, schedule);
  }
}
