/** Runs of a step machine.
    A machine is a total function from a state and an action to the next state. An action names
    the thread that moves and carries whatever that thread reads from its environment (arguments,
    a random slot, the clock); a blocked thread leaves the state as it is. A run is therefore
    nothing but a sequence of actions, and "in every run" means "for every schedule". */
module Schedules {
  function Exec<S, A>(step: (S, A) -> S, init: S, schedule: seq<A>): S
    decreases |schedule|
  {
    if schedule == [] then init
    else step(Exec(step, init, schedule[..|schedule| - 1]), schedule[|schedule| - 1])
  }

  ghost predicate Reachable<S(!new), A(!new)>(step: (S, A) -> S, init: S, s: S) {
    exists schedule :: Exec(step, init, schedule) == s
  }

  /** An inductive invariant holds after every schedule, hence in every state of every run. */
  lemma {:induction false} Always<S(!new), A(!new)>(step: (S, A) -> S, inv: S -> bool, init: S, schedule: seq<A>)
    requires inv(init)
    requires forall s, a :: inv(s) ==> inv(step(s, a))
    ensures inv(Exec(step, init, schedule))
    decreases |schedule|
  {
    if schedule == [] {
    } else {
      Always(step, inv, init, schedule[..|schedule| - 1]);
    }
  }

  lemma ReachableInit<S(!new), A(!new)>(step: (S, A) -> S, init: S)
    ensures Reachable(step, init, init)
  {
    assert Exec(step, init, []) == init;
  }

  lemma ReachableStep<S(!new), A(!new)>(step: (S, A) -> S, init: S, s: S, a: A)
    requires Reachable(step, init, s)
    ensures Reachable(step, init, step(s, a))
  {
    var schedule :| Exec(step, init, schedule) == s;
    assert (schedule + [a])[..|schedule|] == schedule;
    assert Exec(step, init, schedule + [a]) == step(s, a);
  }

  /** The same action again and again leads along a path. */
  lemma {:induction false} ReachableAlong<S(!new), A(!new)>(step: (S, A) -> S, init: S, path: nat -> S, a: A, n: nat)
    requires Reachable(step, init, path(0))
    requires forall k: nat :: k < n ==> step(path(k), a) == path(k + 1)
    ensures Reachable(step, init, path(n))
  {
    if n > 0 {
      ReachableAlong(step, init, path, a, n - 1);
      ReachableStep(step, init, path(n - 1), a);
    }
  }

  /** A run can be cut anywhere. */
  lemma {:induction false} ExecSplits<S, A>(step: (S, A) -> S, init: S, front: seq<A>, rest: seq<A>)
    ensures Exec(step, init, front + rest) == Exec(step, Exec(step, init, front), rest)
    decreases |rest|
  {
    if rest == [] {
      assert front + rest == front;
    } else {
      ExecSplits(step, init, front, rest[..|rest| - 1]);
      assert (front + rest)[..|front + rest| - 1] == front + rest[..|rest| - 1];
    }
  }

  /** The state after k + 1 actions is one step from the state after k. */
  lemma PrefixStep<S, A>(step: (S, A) -> S, init: S, schedule: seq<A>, k: nat)
    requires k < |schedule|
    ensures Exec(step, init, schedule[..k + 1]) == step(Exec(step, init, schedule[..k]), schedule[k])
  {
    assert schedule[..k + 1][..k] == schedule[..k];
  }

  lemma ExecPrepends<S, A>(step: (S, A) -> S, init: S, a: A, schedule: seq<A>)
    ensures Exec(step, init, [a] + schedule) == Exec(step, step(init, a), schedule)
  {
    assert [a][..0] == [];
    ExecSplits(step, init, [a], schedule);
  }

  /** How many moves of the run are of this kind. */
  function Tally<S, A>(step: (S, A) -> S, init: S, schedule: seq<A>, kind: (S, A) -> bool): nat
    decreases |schedule|
  {
    if schedule == [] then 0
    else
      var front, a := schedule[..|schedule| - 1], schedule[|schedule| - 1];
      Tally(step, init, front, kind) + if kind(Exec(step, init, front), a) then 1 else 0
  }

  /** Those moves themselves, in order. */
  function Log<S, A>(step: (S, A) -> S, init: S, schedule: seq<A>, kind: (S, A) -> bool): seq<A>
    decreases |schedule|
  {
    if schedule == [] then []
    else
      var front, a := schedule[..|schedule| - 1], schedule[|schedule| - 1];
      Log(step, init, front, kind) + if kind(Exec(step, init, front), a) then [a] else []
  }

  // ---------------------------------------------------------------- runs of one thread alone

  lemma ExecHead<S, A>(step: (S, A) -> S, s: S, moves: seq<A>)
    requires moves != []
    ensures Exec(step, s, moves) == Exec(step, step(s, moves[0]), moves[1..])
  {
    assert moves == [moves[0]] + moves[1..];
    ExecPrepends(step, s, moves[0], moves[1..]);
  }

  lemma ExecHeadPrefix<S, A>(step: (S, A) -> S, s: S, moves: seq<A>, m: nat)
    requires m < |moves|
    ensures Exec(step, s, moves[..m + 1]) == Exec(step, step(s, moves[0]), moves[1..][..m])
  {
    assert moves[..m + 1] == [moves[0]] + moves[1..][..m];
    ExecPrepends(step, s, moves[0], moves[1..][..m]);
  }

  lemma ReachableRun<S(!new), A(!new)>(step: (S, A) -> S, init: S, s: S, moves: seq<A>)
    requires Reachable(step, init, s)
    ensures Reachable(step, init, Exec(step, s, moves))
  {
    var schedule :| Exec(step, init, schedule) == s;
    ExecSplits(step, init, schedule, moves);
  }
}
