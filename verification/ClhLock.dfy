/** syncx/lock.go, CLHLock: each locker swaps its node into the tail and spins on the node it got
    back. Same conventions as McsLock; `Node.user`, `swaps` and `grants` are bookkeeping. */
module ClhLock {
  import opened Wrappers
  import opened Schedules

  datatype Node = Node(released: bool, user: nat)

  datatype Thread =
    | Outside
    | SwapTail(mine: nat)                  // :326
    | Spin(mine: nat, prev: nat)           // :328
    | Holding(mine: nat)                   // Lock has returned
    | Release(mine: nat)                   // :339

  datatype State = State(tail: Option<nat>, nodes: seq<Node>, threads: seq<Thread>, swaps: seq<nat>, grants: seq<nat>)

  function Init(threads: nat): State {
    State(None, [], seq(threads, i => Outside), [], [])
  }

  function Goto(s: State, t: nat, th: Thread): State
    requires t < |s.threads|
  {
    s.(threads := s.threads[t := th])
  }

  predicate RefsOk(s: State, th: Thread) {
    match th
    case Spin(_, p) => p < |s.nodes|
    case Release(n) => n < |s.nodes|
    case _ => true
  }

  function Step(s: State, t: nat): State {
    if t < |s.threads| && RefsOk(s, s.threads[t]) then
      match s.threads[t]
      case Outside => Goto(s.(nodes := s.nodes + [Node(false, t)]), t, SwapTail(|s.nodes|))
      case SwapTail(n) =>
        var swapped := s.(tail := Some(n), swaps := s.swaps + [t]);
        if s.tail.Some? then Goto(swapped, t, Spin(n, s.tail.value))
        else Goto(swapped.(grants := s.grants + [t]), t, Holding(n))
      case Spin(n, p) => if s.nodes[p].released then Goto(s.(grants := s.grants + [t]), t, Holding(n)) else s
      case Holding(n) => Goto(s, t, Release(n))
      case Release(n) => Goto(s.(nodes := s.nodes[n := s.nodes[n].(released := true)]), t, Outside)
    else s
  }

  predicate Queued(th: Thread) { th.Spin? || Owns(th) }

  predicate Owns(th: Thread) { th.Holding? || th.Release? }

  /** q: the threads between their swap and their release, in order. */
  ghost predicate InQueue(s: State, q: seq<nat>) {
    && (forall i :: 0 <= i < |q| ==> q[i] < |s.threads| && Queued(s.threads[q[i]]))
    && (forall i, j :: 0 <= i < j < |q| ==> q[i] != q[j])
    && (forall t {:trigger Listed(q, t)} :: 0 <= t < |s.threads| && Queued(s.threads[t]) ==> Listed(q, t))
  }

  predicate Listed(q: seq<nat>, t: nat) { t in q }

  ghost predicate PlaceOk(s: State, q: seq<nat>, i: nat)
    requires InQueue(s, q) && i < |q|
  {
    var th := s.threads[q[i]];
    && th.mine < |s.nodes|
    && (th.Spin? ==> th.prev < |s.nodes|)
    && (i > 0 ==> th.Spin? && th.prev == s.threads[q[i - 1]].mine)
    && (i == 0 && th.Spin? ==> s.nodes[th.prev].released)
  }

  ghost predicate ThreadOk(s: State, t: nat)
    requires t < |s.threads|
  {
    var th := s.threads[t];
    !th.Outside? ==> th.mine < |s.nodes| && s.nodes[th.mine] == Node(false, t)
  }

  ghost predicate Ok(s: State, q: seq<nat>) {
    && InQueue(s, q)
    && (if q == [] then s.tail.Some? ==> s.tail.value < |s.nodes| && s.nodes[s.tail.value].released
        else s.tail == Some(s.threads[q[|q| - 1]].mine))
    && (forall i :: 0 <= i < |q| ==> PlaceOk(s, q, i))
    && (forall t :: 0 <= t < |s.threads| ==> ThreadOk(s, t))
  }

  /** The last |q| swaps are those of the queue; all earlier ones have been granted and are gone,
      and so has the front of the queue been if it owns the lock. */
  ghost predicate LogsOk(s: State, q: seq<nat>)
    requires InQueue(s, q)
  {
    && |q| <= |s.swaps|
    && (forall i :: 0 <= i < |q| ==> s.swaps[|s.swaps| - |q| + i] == q[i])
    && s.grants == s.swaps[..|s.swaps| - |q| + if q != [] && Owns(s.threads[q[0]]) then 1 else 0]
  }

  ghost predicate Inv(s: State) {
    exists q :: Ok(s, q) && LogsOk(s, q)
  }

  lemma OwnerIsFront(s: State, q: seq<nat>, t: nat)
    requires Ok(s, q) && t < |s.threads| && Owns(s.threads[t])
    ensures q != [] && q[0] == t
  {
    assert Listed(q, t);
    var i :| 0 <= i < |q| && q[i] == t;
    assert PlaceOk(s, q, i);
  }

  lemma SwapKeepsOk(s: State, q: seq<nat>, t: nat)
    requires Ok(s, q) && t < |s.threads| && s.threads[t].SwapTail?
    ensures Ok(Step(s, t), q + [t])
  {
    var s', q' := Step(s, t), q + [t];
    assert ThreadOk(s, t);
    if q != [] { assert PlaceOk(s, q, |q| - 1); }
    assert InQueue(s', q') by {
      forall u | 0 <= u < |s'.threads| && Queued(s'.threads[u]) ensures Listed(q', u) {
        if u != t { assert Listed(q, u); } else { assert q'[|q|] == t; }
      }
    }
    forall u | 0 <= u < |s'.threads| ensures ThreadOk(s', u) { assert ThreadOk(s, u); }
    forall j | 0 <= j < |q'| ensures PlaceOk(s', q', j) { if j < |q| { assert PlaceOk(s, q, j); } }
  }

  lemma ReleaseKeepsOk(s: State, q: seq<nat>, t: nat)
    requires Ok(s, q) && q != [] && q[0] == t && s.threads[t].Release?
    ensures Ok(Step(s, t), q[1..])
  {
    assert ThreadOk(s, t) && PlaceOk(s, q, |q| - 1);
    var s', q' := Step(s, t), q[1..];
    assert InQueue(s', q') by {
      forall u | 0 <= u < |s'.threads| && Queued(s'.threads[u]) ensures Listed(q', u) {
        assert Listed(q, u);
        var i :| 0 <= i < |q| && q[i] == u;
        assert q'[i - 1] == u;
      }
    }
    forall u | 0 <= u < |s'.threads| ensures ThreadOk(s', u) { assert ThreadOk(s, u); }
    forall j | 0 <= j < |q'| ensures PlaceOk(s', q', j) {
      assert PlaceOk(s, q, j + 1) && q'[j] == q[j + 1];
      if j > 0 { assert q'[j - 1] == q[j]; }
    }
  }

  lemma OtherKeepsOk(s: State, q: seq<nat>, t: nat)
    requires Ok(s, q) && t < |s.threads| && !s.threads[t].SwapTail? && !s.threads[t].Release?
    ensures RefsOk(s, s.threads[t]) && Ok(Step(s, t), q)
    ensures s.threads[t].Spin? && Step(s, t).threads[t].Holding? ==> q != [] && q[0] == t
  {
    var s' := Step(s, t);
    if Queued(s.threads[t]) {
      assert Listed(q, t);
      var i :| 0 <= i < |q| && q[i] == t;
      assert PlaceOk(s, q, i);
      if i > 0 { assert PlaceOk(s, q, i - 1) && ThreadOk(s, q[i - 1]); }
    }
    assert InQueue(s', q);
    forall u | 0 <= u < |s'.threads| ensures ThreadOk(s', u) { assert ThreadOk(s, u); }
    forall j | 0 <= j < |q| ensures PlaceOk(s', q, j) { assert PlaceOk(s, q, j); }
  }

  predicate Moved(s: State, s': State, t: nat) {
    && t < |s.threads| == |s'.threads|
    && (forall u :: 0 <= u < |s.threads| && u != t ==> s'.threads[u] == s.threads[u])
    && s'.swaps == s.swaps + (if s.threads[t].SwapTail? then [t] else [])
    && s'.grants == s.grants + (if !Owns(s.threads[t]) && Owns(s'.threads[t]) then [t] else [])
    && (Owns(s.threads[t]) && !s.threads[t].Release? ==> Owns(s'.threads[t]))
    && (s.threads[t].Release? ==> !Owns(s'.threads[t]))
  }

  lemma LogsAfterSwap(s: State, q: seq<nat>, s': State, t: nat)
    requires Ok(s, q) && Ok(s', q + [t]) && LogsOk(s, q) && Moved(s, s', t) && s.threads[t].SwapTail?
    ensures LogsOk(s', q + [t])
  {
    if q != [] {
      assert PlaceOk(s', q + [t], |q|);
      assert (q + [t])[0] == q[0] && q[0] != t;
    }
  }

  lemma LogsAfterRelease(s: State, q: seq<nat>, s': State, t: nat)
    requires Ok(s, q) && q != [] && q[0] == t && Ok(s', q[1..]) && LogsOk(s, q) && Moved(s, s', t)
    requires s.threads[t].Release?
    ensures LogsOk(s', q[1..])
  {
    if |q| > 1 { assert PlaceOk(s, q, 1); }
  }

  lemma LogsAfterOther(s: State, q: seq<nat>, s': State, t: nat)
    requires Ok(s, q) && Ok(s', q) && LogsOk(s, q) && Moved(s, s', t)
    requires !s.threads[t].SwapTail? && !s.threads[t].Release?
    ensures LogsOk(s', q)
  {
    if Owns(s.threads[t]) { OwnerIsFront(s, q, t); }
    if Owns(s'.threads[t]) { OwnerIsFront(s', q, t); }
  }

  lemma StepMoves(s: State, t: nat)
    requires t < |s.threads| && RefsOk(s, s.threads[t])
    ensures Moved(s, Step(s, t), t)
  {
  }

  lemma StepKeepsInv(s: State, t: nat)
    requires Inv(s)
    ensures Inv(Step(s, t))
  {
    if t < |s.threads| {
      var q :| Ok(s, q) && LogsOk(s, q);
      var q' := StepKeepsOk(s, q, t);
    }
  }

  lemma StepKeepsOk(s: State, q: seq<nat>, t: nat) returns (q': seq<nat>)
    requires Ok(s, q) && LogsOk(s, q) && t < |s.threads|
    ensures Ok(Step(s, t), q') && LogsOk(Step(s, t), q')
  {
    assert ThreadOk(s, t);
    if s.threads[t].SwapTail? {
      q' := q + [t];
      SwapKeepsOk(s, q, t);
      StepMoves(s, t);
      LogsAfterSwap(s, q, Step(s, t), t);
    } else if s.threads[t].Release? {
      OwnerIsFront(s, q, t);
      q' := q[1..];
      ReleaseKeepsOk(s, q, t);
      StepMoves(s, t);
      LogsAfterRelease(s, q, Step(s, t), t);
    } else {
      q' := q;
      OtherKeepsOk(s, q, t);
      StepMoves(s, t);
      LogsAfterOther(s, q, Step(s, t), t);
    }
  }

  lemma InvHolds(threads: nat, schedule: seq<nat>)
    ensures Inv(Exec(Step, Init(threads), schedule))
  {
    var init := Init(threads);
    assert Ok(init, []) && LogsOk(init, []);
    forall s, t: nat | Inv(s) ensures Inv(Step(s, t)) { StepKeepsInv(s, t); }
    Always(Step, Inv, init, schedule);
  }

  /** Mutual exclusion, and Lock returns in the order of the tail swaps. */
  lemma ExclusiveAndFifo(threads: nat, schedule: seq<nat>, t: nat, u: nat)
    ensures
      var s := Exec(Step, Init(threads), schedule);
      && s.grants <= s.swaps
      && (t < |s.threads| && u < |s.threads| && Owns(s.threads[t]) && Owns(s.threads[u]) ==> t == u)
  {
    InvHolds(threads, schedule);
    var s := Exec(Step, Init(threads), schedule);
    var q :| Ok(s, q) && LogsOk(s, q);
    if t < |s.threads| && u < |s.threads| && Owns(s.threads[t]) && Owns(s.threads[u]) {
      OwnerIsFront(s, q, t);
      OwnerIsFront(s, q, u);
    }
  }

  /** While anyone is in the queue, the front can move: a released lock is never left waiting. */
  lemma NeverStuck(threads: nat, schedule: seq<nat>)
    ensures
      var s := Exec(Step, Init(threads), schedule);
      (exists t :: 0 <= t < |s.threads| && Queued(s.threads[t])) ==>
        exists u :: 0 <= u < |s.threads| && Queued(s.threads[u]) && Step(s, u) != s
  {
    InvHolds(threads, schedule);
    var s := Exec(Step, Init(threads), schedule);
    var q :| Ok(s, q) && LogsOk(s, q);
    if exists t :: 0 <= t < |s.threads| && Queued(s.threads[t]) {
      var t :| 0 <= t < |s.threads| && Queued(s.threads[t]);
      assert Listed(q, t);
      assert PlaceOk(s, q, 0) && ThreadOk(s, q[0]) && Queued(s.threads[q[0]]);
      assert Step(s, q[0]).threads[q[0]] != s.threads[q[0]];
    }
  }

  // ---------------------------------------------------------------- calls left alone

  predicate By(t: nat, moves: seq<nat>) { forall i :: 0 <= i < |moves| ==> moves[i] == t }

  lemma One(s: State, t: nat, moves: seq<nat>)
    requires By(t, moves) && |moves| == 1
    ensures Exec(Step, s, moves) == Step(s, t)
  {
    ExecHead(Step, s, moves);
    assert moves[1..] == [];
  }

  lemma Two(s: State, t: nat, moves: seq<nat>)
    requires By(t, moves) && |moves| == 2
    ensures Exec(Step, s, moves) == Step(Step(s, t), t)
  {
    ExecHead(Step, s, moves);
    One(Step(s, t), t, moves[1..]);
  }

  /** Nobody is ahead: the tail is nil, or its node has been released. */
  predicate Free(s: State) {
    s.tail.Some? ==> s.tail.value < |s.nodes| && s.nodes[s.tail.value].released
  }

  /** From every state: left alone, Lock takes a free lock in two moves, or three when it has to look at
      a predecessor's node. */
  lemma LockAlone(s: State, t: nat, moves: seq<nat>)
    requires t < |s.threads| && s.threads[t].Outside? && Free(s) && By(t, moves)
    requires |moves| == if s.tail.Some? then 3 else 2
    ensures Exec(Step, s, moves) == State(Some(|s.nodes|), s.nodes + [Node(false, t)],
              s.threads[t := Holding(|s.nodes|)], s.swaps + [t], s.grants + [t])
  {
    var n := |s.nodes|;
    ExecHead(Step, s, moves);
    var s1, rest := Goto(s.(nodes := s.nodes + [Node(false, t)]), t, SwapTail(n)), moves[1..];
    if s.tail.None? {
      One(s1, t, rest);
      assert s.threads[t := SwapTail(n)][t := Holding(n)] == s.threads[t := Holding(n)];
    } else {
      Two(s1, t, rest);
      assert s.threads[t := SwapTail(n)][t := Spin(n, s.tail.value)] == s.threads[t := Spin(n, s.tail.value)];
      assert s.threads[t := Spin(n, s.tail.value)][t := Holding(n)] == s.threads[t := Holding(n)];
    }
  }

  /** From every state: Unlock is done in two moves, and the thread that spins on the holder's node, if
      any, has the lock with its next. */
  lemma UnlockAlone(s: State, t: nat, u: nat, moves: seq<nat>)
    requires t < |s.threads| && s.threads[t].Holding? && s.threads[t].mine < |s.nodes| && By(t, moves) && |moves| == 2
    ensures
      var n, end := s.threads[t].mine, Exec(Step, s, moves);
      && end == Goto(s.(nodes := s.nodes[n := s.nodes[n].(released := true)]), t, Outside)
      && (u < |s.threads| && s.threads[u].Spin? && s.threads[u].prev == n ==>
            Step(end, u) == Goto(end.(grants := end.grants + [u]), u, Holding(s.threads[u].mine)))
  {
    Two(s, t, moves);
    var n := s.threads[t].mine;
    assert s.threads[t := Release(n)][t := Outside] == s.threads[t := Outside];
  }

  // ---------------------------------------------------------------- the logs are the moves of the run

  predicate Swaps(s: State, t: nat) {
    t < |s.threads| && s.threads[t].SwapTail? && t < |Step(s, t).threads| && !Step(s, t).threads[t].SwapTail?
  }

  /** Lock returns. */
  predicate Enters(s: State, t: nat) {
    t < |s.threads| && !s.threads[t].Holding? && t < |Step(s, t).threads| && Step(s, t).threads[t].Holding?
  }

  lemma {:induction false} LogsAreMoves(threads: nat, schedule: seq<nat>)
    ensures
      var i, s := Init(threads), Exec(Step, Init(threads), schedule);
      s.swaps == Log(Step, i, schedule, Swaps) && s.grants == Log(Step, i, schedule, Enters)
    decreases |schedule|
  {
    if schedule != [] {
      LogsAreMoves(threads, schedule[..|schedule| - 1]);
      LogMove(Exec(Step, Init(threads), schedule[..|schedule| - 1]), schedule[|schedule| - 1]);
    }
  }

  lemma LogMove(s: State, t: nat)
    ensures Step(s, t).swaps == s.swaps + if Swaps(s, t) then [t] else []
    ensures Step(s, t).grants == s.grants + if Enters(s, t) then [t] else []
  {
  }
}
