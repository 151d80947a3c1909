/** syncx/lock.go, MCSLock: a queue lock whose waiters spin on their own node.
    Any number of threads alternate Lock and Unlock; each action is one shared access. Nodes are
    numbered in allocation order. Bookkeeping that no step reads: `Node.user`, `mine` (the node of
    the Lock call being undone), and the two logs `swaps` (order of the tail swaps) and `grants`
    (order in which Lock returned). */
module McsLock {
  import opened Wrappers
  import opened Schedules

  datatype Node = Node(next: Option<nat>, locked: bool, user: nat)

  datatype Thread =
    | Outside
    | SwapTail(mine: nat)                                // :377
    | LinkPrev(mine: nat, prev: nat)                     // :379
    | Spin(mine: nat)                                    // :380
    | SetOwner(mine: nat)                                // :383
    | Holding(mine: nat)                                 // Lock has returned
    | LoadOwner(mine: nat)                               // :387
    | LoadNext(mine: nat, node: nat)                     // :392
    | CasTail(mine: nat, node: nat)                      // :394
    | ClearOwnerLast(mine: nat)                          // :395
    | SpinNext(mine: nat, node: nat)                     // :399
    | ClearOwner(mine: nat, succ: nat)                   // :403
    | Grant(mine: nat, succ: nat)                        // :404
    | Panicked(mine: nat)                                // :389

  datatype State = State(
    tail: Option<nat>, owner: Option<nat>, nodes: seq<Node>, threads: seq<Thread>,
    swaps: seq<nat>, grants: seq<nat>)

  function Init(threads: nat): State {
    State(None, None, [], seq(threads, i => Outside), [], [])
  }

  function Goto(s: State, t: nat, th: Thread): State
    requires t < |s.threads|
  {
    s.(threads := s.threads[t := th])
  }

  /** Node references held by a thread exist (they always do: see Ok). */
  predicate RefsOk(s: State, th: Thread) {
    match th
    case LinkPrev(_, p) => p < |s.nodes|
    case Spin(n) => n < |s.nodes|
    case LoadNext(_, n) => n < |s.nodes|
    case SpinNext(_, n) => n < |s.nodes|
    case Grant(_, n) => n < |s.nodes|
    case _ => true
  }

  function Step(s: State, t: nat): State {
    if t < |s.threads| && RefsOk(s, s.threads[t])
    then if Locking(s.threads[t]) then StepLock(s, t) else StepUnlock(s, t)
    else s
  }

  predicate Locking(th: Thread) {
    th.Outside? || th.SwapTail? || th.LinkPrev? || th.Spin? || th.SetOwner?
  }

  function StepLock(s: State, t: nat): State
    requires t < |s.threads| && RefsOk(s, s.threads[t]) && Locking(s.threads[t])
  {
    match s.threads[t]
    case Outside => Goto(s.(nodes := s.nodes + [Node(None, true, t)]), t, SwapTail(|s.nodes|))
    case SwapTail(n) =>
      Goto(s.(tail := Some(n), swaps := s.swaps + [t]), t,
           if s.tail.Some? then LinkPrev(n, s.tail.value) else SetOwner(n))
    case LinkPrev(n, p) => Goto(s.(nodes := s.nodes[p := s.nodes[p].(next := Some(n))]), t, Spin(n))
    case Spin(n) => if s.nodes[n].locked then s else Goto(s, t, SetOwner(n))
    case SetOwner(n) => Goto(s.(owner := Some(n), grants := s.grants + [t]), t, Holding(n))
  }

  function StepUnlock(s: State, t: nat): State
    requires t < |s.threads| && RefsOk(s, s.threads[t]) && !Locking(s.threads[t])
  {
    match s.threads[t]
    case Holding(m) => Goto(s, t, LoadOwner(m))
    case LoadOwner(m) => Goto(s, t, if s.owner.None? then Panicked(m) else LoadNext(m, s.owner.value))
    case LoadNext(m, n) =>
      Goto(s, t, if s.nodes[n].next.None? then CasTail(m, n) else ClearOwner(m, s.nodes[n].next.value))
    case CasTail(m, n) =>
      if s.tail == Some(n) then Goto(s.(tail := None), t, ClearOwnerLast(m)) else Goto(s, t, SpinNext(m, n))
    case ClearOwnerLast(m) => Goto(s.(owner := None), t, Outside)
    case SpinNext(m, n) => if s.nodes[n].next.None? then s else Goto(s, t, ClearOwner(m, s.nodes[n].next.value))
    case ClearOwner(m, x) => Goto(s.(owner := None), t, Grant(m, x))
    case Grant(m, x) => Goto(s.(nodes := s.nodes[x := s.nodes[x].(locked := false)]), t, Outside)
    case Panicked(m) => s
  }

  // ---------------------------------------------------------------- the invariant

  /** Between the tail swap of Lock and the last shared access of Unlock. */
  predicate Queued(th: Thread) {
    !th.Outside? && !th.SwapTail? && !th.ClearOwnerLast?
  }

  /** The lock is the thread's: Lock has nothing left to wait for and Unlock has not let go. */
  predicate Owns(th: Thread) {
    Queued(th) && !th.LinkPrev? && !th.Spin?
  }

  predicate Granted(th: Thread) {
    Owns(th) && !th.SetOwner?
  }

  function Mine(s: State, t: nat): nat
    requires t < |s.threads| && !s.threads[t].Outside?
  {
    s.threads[t].mine
  }

  ghost predicate InQueue(s: State, q: seq<nat>) {
    && (forall i :: 0 <= i < |q| ==> q[i] < |s.threads| && Queued(s.threads[q[i]]) && Mine(s, q[i]) < |s.nodes|)
    && (forall i, j :: 0 <= i < j < |q| ==> q[i] != q[j])
    && (forall t {:trigger Listed(q, t)} :: 0 <= t < |s.threads| && Queued(s.threads[t]) ==> Listed(q, t))
  }

  predicate Listed(q: seq<nat>, t: nat) { t in q }

  /** The place of the i-th thread of the queue, and its link to the one behind it. */
  ghost predicate PlaceOk(s: State, q: seq<nat>, i: nat)
    requires InQueue(s, q) && i < |q|
  {
    var th := s.threads[q[i]];
    && (i > 0 ==> (th.LinkPrev? || th.Spin?) && s.nodes[th.mine].locked)
    && (i == 0 ==> !th.LinkPrev? && (th.Spin? ==> !s.nodes[th.mine].locked))
    && (i + 1 == |q| ==> s.nodes[th.mine].next == None)
    && (i + 1 < |q| ==>
          var behind := s.threads[q[i + 1]];
          if behind.LinkPrev? then behind.prev == th.mine && s.nodes[th.mine].next == None
          else s.nodes[th.mine].next == Some(behind.mine))
  }

  /** What a thread's program counter says about its own node and about the owner word. */
  ghost predicate ThreadOk(s: State, q: seq<nat>, t: nat)
    requires t < |s.threads| && InQueue(s, q)
  {
    var th := s.threads[t];
    && (!th.Outside? ==> th.mine < |s.nodes| && s.nodes[th.mine].user == t)
    && match th
       case SwapTail(m) => s.nodes[m].next == None && s.nodes[m].locked
       case Holding(m) => s.owner == None || s.owner == Some(m)
       case LoadOwner(m) => s.owner == None || s.owner == Some(m)
       case LoadNext(m, n) => n == m
       case CasTail(m, n) => n == m
       case SpinNext(m, n) => n == m && |q| >= 2
       case ClearOwner(m, x) => |q| >= 2 && s.nodes[m].next == Some(x)
       case Grant(m, x) => |q| >= 2 && s.nodes[m].next == Some(x)
       case _ => true
  }

  ghost predicate Ok(s: State, q: seq<nat>) {
    && InQueue(s, q)
    && s.tail == (if q == [] then None else Some(Mine(s, q[|q| - 1])))
    && (forall i :: 0 <= i < |q| ==> PlaceOk(s, q, i))
    && (forall t :: 0 <= t < |s.threads| ==> ThreadOk(s, q, t))
  }

  /** Everyone who swapped and left has been granted; then comes the thread in front, if granted. */
  ghost predicate LogsOk(s: State, q: seq<nat>, gone: seq<nat>)
    requires InQueue(s, q)
  {
    && s.swaps == gone + q
    && s.grants == gone + (if q != [] && Granted(s.threads[q[0]]) then [q[0]] else [])
  }

  function NextQueue(s: State, q: seq<nat>, t: nat): seq<nat> {
    if t < |s.threads| && s.threads[t].SwapTail? then q + [t]
    else if t < |s.threads| && q != [] &&
            (s.threads[t].Grant? || (s.threads[t].CasTail? && s.tail == Some(s.threads[t].node)))
    then q[1..]
    else q
  }

  /** Whoever owns the lock is in front. */
  lemma OwnerIsFront(s: State, q: seq<nat>, t: nat)
    requires Ok(s, q) && t < |s.threads| && Owns(s.threads[t])
    ensures q != [] && q[0] == t
  {
    assert Listed(q, t);
    var i :| 0 <= i < |q| && q[i] == t;
    assert PlaceOk(s, q, i);
  }

  /** A move of thread t that leaves the queue as it is and writes at most node n, which belongs to
      `user`; what is left to show is what changed. */
  lemma KeepsOk(s: State, q: seq<nat>, s': State, t: nat, n: nat, user: nat)
    requires Ok(s, q) && t < |s.threads| == |s'.threads| && s'.threads == s.threads[t := s'.threads[t]]
    requires Queued(s'.threads[t]) <==> Queued(s.threads[t])
    requires !s.threads[t].Outside? && !s'.threads[t].Outside? ==> s'.threads[t].mine == s.threads[t].mine
    requires |s.nodes| <= |s'.nodes|
    requires forall m :: 0 <= m < |s.nodes| && m != n ==> s'.nodes[m] == s.nodes[m]
    requires n < |s.nodes| ==> s.nodes[n].user == s'.nodes[n].user == user
    requires s'.tail == s.tail
    requires
      || s'.owner == None || s'.owner == s.owner
      || (q != [] && q[0] == t && !s.threads[t].Holding? && !s.threads[t].LoadOwner?)
    requires InQueue(s', q) ==> ThreadOk(s', q, t)
    requires user < |s.threads| && user != t && InQueue(s', q) ==> ThreadOk(s', q, user)
    requires forall i :: 0 <= i < |q| && (q[i] == t || q[i] == user || (i + 1 < |q| && q[i + 1] == t)) ==>
               InQueue(s', q) ==> PlaceOk(s', q, i)
    ensures Ok(s', q)
  {
    assert InQueue(s', q);
    forall u | 0 <= u < |s'.threads| ensures ThreadOk(s', q, u) {
      assert ThreadOk(s, q, u);
      if u != t && (s.threads[u].Holding? || s.threads[u].LoadOwner?) { OwnerIsFront(s, q, u); }
    }
    forall j | 0 <= j < |q| ensures PlaceOk(s', q, j) {
      assert PlaceOk(s, q, j) && ThreadOk(s, q, q[j]);
      if j + 1 < |q| { assert ThreadOk(s, q, q[j + 1]); }
    }
  }

  /** Entering Lock, the end of the spin, and the store of the owner. */
  lemma LockKeepsOk(s: State, q: seq<nat>, t: nat)
    requires Ok(s, q) && t < |s.threads| && (s.threads[t].Outside? || s.threads[t].Spin? || s.threads[t].SetOwner?)
    ensures RefsOk(s, s.threads[t]) && Ok(StepLock(s, t), q)
  {
    assert ThreadOk(s, q, t);
    if s.threads[t].Outside? {
      assert !Listed(q, t);
    } else {
      assert Listed(q, t);
      var i :| 0 <= i < |q| && q[i] == t;
      LockKeepsPlaces(s, q, i);
    }
    KeepsOk(s, q, StepLock(s, t), t, |s.nodes|, |s.threads|);
  }

  lemma LockKeepsPlaces(s: State, q: seq<nat>, i: nat)
    requires Ok(s, q) && i < |q| && (s.threads[q[i]].Spin? || s.threads[q[i]].SetOwner?)
    ensures RefsOk(s, s.threads[q[i]])
    ensures InQueue(StepLock(s, q[i]), q) ==> ThreadOk(StepLock(s, q[i]), q, q[i]) && PlaceOk(StepLock(s, q[i]), q, i)
    ensures InQueue(StepLock(s, q[i]), q) && i > 0 ==> PlaceOk(StepLock(s, q[i]), q, i - 1)
    ensures s.threads[q[i]].SetOwner? ==> i == 0
  {
    assert ThreadOk(s, q, q[i]) && PlaceOk(s, q, i);
    if i > 0 { assert PlaceOk(s, q, i - 1); }
  }

  lemma LinkKeepsPlace(s: State, q: seq<nat>, i: nat, j: nat)
    requires Ok(s, q) && 0 < i < |q| && j < |q| && s.threads[q[i]].LinkPrev?
    requires s.threads[q[i]].prev == Mine(s, q[i - 1]) && InQueue(StepLock(s, q[i]), q)
    ensures PlaceOk(StepLock(s, q[i]), q, j)
  {
    assert PlaceOk(s, q, j);
    assert ThreadOk(s, q, q[j]);
    assert ThreadOk(s, q, q[i - 1]);
    if j + 1 < |q| { assert ThreadOk(s, q, q[j + 1]); }
  }

  lemma LinkKeepsOk(s: State, q: seq<nat>, t: nat)
    requires Ok(s, q) && t < |s.threads| && s.threads[t].LinkPrev?
    ensures RefsOk(s, s.threads[t]) && Ok(StepLock(s, t), q)
  {
    assert ThreadOk(s, q, t);
    assert Listed(q, t);
    var i :| 0 <= i < |q| && q[i] == t;
    assert PlaceOk(s, q, i);
    assert PlaceOk(s, q, i - 1);
    assert ThreadOk(s, q, q[i - 1]);
    assert InQueue(StepLock(s, t), q);
    forall j | 0 <= j < |q| ensures PlaceOk(StepLock(s, t), q, j) { LinkKeepsPlace(s, q, i, j); }
    KeepsOk(s, q, StepLock(s, t), t, s.threads[t].prev, q[i - 1]);
  }

  lemma SwapKeepsOk(s: State, q: seq<nat>, t: nat)
    requires Ok(s, q) && t < |s.threads| && s.threads[t].SwapTail?
    ensures Ok(StepLock(s, t), q + [t])
  {
    var s', q' := StepLock(s, t), q + [t];
    assert ThreadOk(s, q, t);
    assert InQueue(s', q') by {
      forall u | 0 <= u < |s'.threads| && Queued(s'.threads[u]) ensures Listed(q', u) {
        if u != t { assert Listed(q, u); } else { assert q'[|q|] == t; }
      }
    }
    forall u | 0 <= u < |s'.threads| ensures ThreadOk(s', q', u) {
      assert ThreadOk(s, q, u);
      if u != t && (s.threads[u].Holding? || s.threads[u].LoadOwner?) { OwnerIsFront(s, q, u); }
    }
    forall j | 0 <= j < |q'| ensures PlaceOk(s', q', j) {
      if j < |q| { assert PlaceOk(s, q, j); }
    }
  }

  lemma UnlockKeepsOk(s: State, q: seq<nat>, t: nat)
    requires Ok(s, q) && t < |s.threads| && !Locking(s.threads[t]) && NextQueue(s, q, t) == q
    requires !s.threads[t].ClearOwnerLast?
    ensures RefsOk(s, s.threads[t]) && Ok(StepUnlock(s, t), q)
  {
    assert ThreadOk(s, q, t);
    OwnerIsFront(s, q, t);
    assert PlaceOk(s, q, 0);
    if |q| > 1 { assert PlaceOk(s, q, 1); }
    KeepsOk(s, q, StepUnlock(s, t), t, |s.nodes|, |s.threads|);
  }

  lemma ClearKeepsOk(s: State, q: seq<nat>, t: nat)
    requires Ok(s, q) && t < |s.threads| && s.threads[t].ClearOwnerLast?
    ensures Ok(StepUnlock(s, t), q)
  {
    KeepsOk(s, q, StepUnlock(s, t), t, |s.nodes|, |s.threads|);
  }

  /** Handing over: the front leaves, by the CAS when it is alone and by the grant when it is not. */
  lemma LastLeaves(s: State, q: seq<nat>, t: nat)
    requires Ok(s, q) && t < |s.threads| && s.threads[t].CasTail? && s.tail == Some(s.threads[t].node)
    ensures q == [t] && Ok(StepUnlock(s, t), [])
  {
    assert ThreadOk(s, q, t);
    OwnerIsFront(s, q, t);
    assert ThreadOk(s, q, q[|q| - 1]);
    var s' := StepUnlock(s, t);
    forall u | 0 <= u < |s.threads| && Queued(s.threads[u]) ensures u == t { assert Listed(q, u); }
    assert InQueue(s', []);
    forall u | 0 <= u < |s'.threads| ensures ThreadOk(s', [], u) { assert ThreadOk(s, q, u); }
  }

  lemma GrantKeepsQueue(s: State, q: seq<nat>, t: nat)
    requires Ok(s, q) && t < |s.threads| && s.threads[t].Grant?
    ensures RefsOk(s, s.threads[t]) && |q| >= 2 && q[0] == t && s.threads[t].succ == Mine(s, q[1])
    ensures s.threads[q[1]].Spin? && InQueue(StepUnlock(s, t), q[1..])
  {
    assert ThreadOk(s, q, t);
    OwnerIsFront(s, q, t);
    assert PlaceOk(s, q, 0) && PlaceOk(s, q, 1);
    var s', q' := StepUnlock(s, t), q[1..];
    forall u | 0 <= u < |s'.threads| && Queued(s'.threads[u]) ensures Listed(q', u) {
      assert Listed(q, u);
      var i :| 0 <= i < |q| && q[i] == u;
      assert q'[i - 1] == u;
    }
  }

  lemma GrantKeepsPlace(s: State, q: seq<nat>, t: nat, j: nat)
    requires Ok(s, q) && t < |s.threads| && s.threads[t].Grant? && RefsOk(s, s.threads[t]) && |q| >= 2 && q[0] == t
    requires s.threads[t].succ == Mine(s, q[1]) && s.threads[q[1]].Spin?
    requires InQueue(StepUnlock(s, t), q[1..]) && j + 1 < |q|
    ensures PlaceOk(StepUnlock(s, t), q[1..], j)
  {
    assert PlaceOk(s, q, j + 1) && ThreadOk(s, q, q[j + 1]) && ThreadOk(s, q, q[1]);
  }

  lemma GrantKeepsOk(s: State, q: seq<nat>, t: nat)
    requires Ok(s, q) && t < |s.threads| && s.threads[t].Grant?
    ensures RefsOk(s, s.threads[t]) && q != [] && q[0] == t && Ok(StepUnlock(s, t), q[1..])
  {
    GrantKeepsQueue(s, q, t);
    var s', q' := StepUnlock(s, t), q[1..];
    assert ThreadOk(s, q, q[1]);
    forall u | 0 <= u < |s'.threads| ensures ThreadOk(s', q', u) {
      assert ThreadOk(s, q, u);
      if u != t && Owns(s.threads[u]) { OwnerIsFront(s, q, u); }
    }
    forall j | 0 <= j < |q'| ensures PlaceOk(s', q', j) { GrantKeepsPlace(s, q, t, j); }
  }

  // ---------------------------------------------------------------- main results

  ghost predicate Inv(s: State) {
    exists q, gone :: Ok(s, q) && LogsOk(s, q, gone)
  }

  lemma StepKeepsOk(s: State, q: seq<nat>, t: nat)
    requires Ok(s, q) && t < |s.threads|
    ensures RefsOk(s, s.threads[t]) && Ok(Step(s, t), NextQueue(s, q, t))
  {
    var th := s.threads[t];
    if th.SwapTail? { SwapKeepsOk(s, q, t); }
    else if th.LinkPrev? { LinkKeepsOk(s, q, t); }
    else if Locking(th) { LockKeepsOk(s, q, t); }
    else { LeavingKeepsOk(s, q, t); }
  }

  lemma LeavingKeepsOk(s: State, q: seq<nat>, t: nat)
    requires Ok(s, q) && t < |s.threads| && !Locking(s.threads[t])
    ensures RefsOk(s, s.threads[t]) && Ok(StepUnlock(s, t), NextQueue(s, q, t))
  {
    var th := s.threads[t];
    if th.Grant? { GrantKeepsOk(s, q, t); }
    else if th.CasTail? && s.tail == Some(th.node) { LastLeaves(s, q, t); assert q[1..] == []; }
    else if th.ClearOwnerLast? { ClearKeepsOk(s, q, t); }
    else { UnlockKeepsOk(s, q, t); }
  }

  /** A thread that is granted stays granted until it leaves; logs grow only by the mover. */
  lemma LogsAfter(s: State, t: nat)
    requires t < |s.threads| && RefsOk(s, s.threads[t])
    ensures Step(s, t).swaps == s.swaps + (if s.threads[t].SwapTail? then [t] else [])
    ensures Step(s, t).grants == s.grants + (if s.threads[t].SetOwner? then [t] else [])
    ensures |Step(s, t).threads| == |s.threads|
    ensures Granted(Step(s, t).threads[t]) <==>
              s.threads[t].SetOwner? ||
              (Granted(s.threads[t]) && !s.threads[t].Grant? &&
               !(s.threads[t].CasTail? && s.tail == Some(s.threads[t].node)))
    ensures forall u :: 0 <= u < |s.threads| && u != t ==> Step(s, t).threads[u] == s.threads[u]
  {
  }

  predicate Leaves(s: State, t: nat)
    requires t < |s.threads|
  {
    s.threads[t].Grant? || (s.threads[t].CasTail? && s.tail == Some(s.threads[t].node))
  }

  lemma StayKeepsLogs(s: State, q: seq<nat>, gone: seq<nat>, t: nat)
    requires Ok(s, q) && LogsOk(s, q, gone) && t < |s.threads| && !Leaves(s, t)
    ensures Ok(Step(s, t), NextQueue(s, q, t)) && LogsOk(Step(s, t), NextQueue(s, q, t), gone)
  {
    StepKeepsOk(s, q, t);
    LogsAfter(s, t);
    if Owns(s.threads[t]) { OwnerIsFront(s, q, t); }
    if q != [] { assert PlaceOk(s, q, 0); }
  }

  lemma LeaveKeepsLogs(s: State, q: seq<nat>, gone: seq<nat>, t: nat)
    requires Ok(s, q) && LogsOk(s, q, gone) && t < |s.threads| && Leaves(s, t)
    ensures Ok(Step(s, t), NextQueue(s, q, t)) && LogsOk(Step(s, t), NextQueue(s, q, t), gone + [t])
  {
    StepKeepsOk(s, q, t);
    LogsAfter(s, t);
    OwnerIsFront(s, q, t);
    assert q == [t] + q[1..];
    if |q| > 1 { assert PlaceOk(s, q, 1); }
  }

  lemma StepKeepsInv(s: State, t: nat)
    requires Inv(s)
    ensures Inv(Step(s, t))
  {
    if t < |s.threads| {
      var q, gone :| Ok(s, q) && LogsOk(s, q, gone);
      if Leaves(s, t) { LeaveKeepsLogs(s, q, gone, t); } else { StayKeepsLogs(s, q, gone, t); }
    }
  }

  lemma InvHolds(threads: nat, schedule: seq<nat>)
    ensures Inv(Exec(Step, Init(threads), schedule))
  {
    var init := Init(threads);
    assert Ok(init, []) && LogsOk(init, [], []);
    forall s, t: nat | Inv(s) ensures Inv(Step(s, t)) { StepKeepsInv(s, t); }
    Always(Step, Inv, init, schedule);
  }

  /** Mutual exclusion: from the end of Lock's wait until Unlock lets go, at most one thread. */
  lemma MutualExclusion(threads: nat, schedule: seq<nat>, t: nat, u: nat)
    ensures
      var s := Exec(Step, Init(threads), schedule);
      t < |s.threads| && u < |s.threads| && Owns(s.threads[t]) && Owns(s.threads[u]) ==> t == u
  {
    InvHolds(threads, schedule);
    var s := Exec(Step, Init(threads), schedule);
    var q, gone :| Ok(s, q) && LogsOk(s, q, gone);
    if t < |s.threads| && u < |s.threads| && Owns(s.threads[t]) && Owns(s.threads[u]) {
      OwnerIsFront(s, q, t);
      OwnerIsFront(s, q, u);
    }
  }

  /** First come, first served: Lock returns in the order of the tail swaps. */
  lemma GrantsFollowSwaps(threads: nat, schedule: seq<nat>)
    ensures
      var s := Exec(Step, Init(threads), schedule);
      s.grants <= s.swaps
  {
    InvHolds(threads, schedule);
  }

  /** An Unlock past its nil check works on its own node; if its tail CAS is going to fail, a
      successor has linked itself or is about to; if it waits for the link, the link is coming. */
  lemma UnlockIsSound(threads: nat, schedule: seq<nat>, t: nat)
    ensures
      var s := Exec(Step, Init(threads), schedule);
      t < |s.threads| ==>
        var th := s.threads[t];
        && (th.LoadNext? || th.CasTail? || th.SpinNext? ==> th.node == th.mine < |s.nodes|)
        && ((th.CasTail? && s.tail != Some(th.node)) || th.SpinNext? ==>
              || s.nodes[th.mine].next.Some?
              || exists u :: 0 <= u < |s.threads| && s.threads[u].LinkPrev? && s.threads[u].prev == th.mine)
  {
    InvHolds(threads, schedule);
    var s := Exec(Step, Init(threads), schedule);
    var q, gone :| Ok(s, q) && LogsOk(s, q, gone);
    if t < |s.threads| && Owns(s.threads[t]) {
      assert ThreadOk(s, q, t);
      OwnerIsFront(s, q, t);
      assert PlaceOk(s, q, 0);
    }
  }

  lemma FrontCanMove(s: State, q: seq<nat>)
    requires Ok(s, q) && q != [] && !s.threads[q[0]].Panicked?
    ensures exists u :: u in q && u < |s.threads| && Queued(s.threads[u]) && Step(s, u).threads != s.threads
  {
    var t := q[0];
    assert PlaceOk(s, q, 0) && ThreadOk(s, q, t);
    assert Queued(s.threads[t]);
    if s.threads[t].SpinNext? && s.nodes[Mine(s, t)].next == None {
      assert Queued(s.threads[q[1]]) && s.threads[q[1]].LinkPrev?;
      assert Step(s, q[1]).threads[q[1]].Spin?;
    } else {
      StepKeepsOk(s, q, t);
      assert Step(s, t).threads[t] != s.threads[t];
    }
  }

  /** As long as some thread is between its swap and its last access, a thread of the queue can
      move, unless an Unlock has panicked with the lock in its hands. */
  lemma NeverStuck(threads: nat, schedule: seq<nat>)
    ensures
      var s := Exec(Step, Init(threads), schedule);
      (exists t :: 0 <= t < |s.threads| && Queued(s.threads[t])) ==>
        exists u :: 0 <= u < |s.threads| && Queued(s.threads[u]) && (s.threads[u].Panicked? || Step(s, u) != s)
  {
    InvHolds(threads, schedule);
    var s := Exec(Step, Init(threads), schedule);
    var q, gone :| Ok(s, q) && LogsOk(s, q, gone);
    if exists t :: 0 <= t < |s.threads| && Queued(s.threads[t]) {
      var t :| 0 <= t < |s.threads| && Queued(s.threads[t]);
      assert Listed(q, t);
      assert Queued(s.threads[q[0]]);
      if !s.threads[q[0]].Panicked? { FrontCanMove(s, q); }
    }
  }

  // The owner word. Its nil store :395 comes after the lock has been let go by :394, so it can
  // erase the word of the next holder, whose Unlock then panics although it holds the lock.

  /** The thread holds the lock and has not yet passed Unlock's nil check, :387-388. */
  predicate AwaitsOwner(th: Thread) { th.Holding? || th.LoadOwner? }

  /** Moves of the holder up to and including that check. */
  function Left(th: Thread): nat {
    if th.Holding? then 2 else if th.LoadOwner? then 1 else 0
  }

  /** The nil store of thread t, which has already let go, erases the word of holder u. */
  predicate Erases(s: State, t: nat, u: nat) {
    && t < |s.threads| && s.threads[t].ClearOwnerLast?
    && u < |s.threads| && AwaitsOwner(s.threads[u])
  }

  lemma OwnerAfter(s: State, u: nat)
    requires u < |s.threads| && RefsOk(s, s.threads[u])
    ensures !s.threads[u].SetOwner? && !s.threads[u].ClearOwner? && !s.threads[u].ClearOwnerLast? ==>
              Step(s, u).owner == s.owner
    ensures s.threads[u].SetOwner? ==> Step(s, u).owner == Some(s.threads[u].mine)
    ensures Step(s, u).threads[u].Panicked? ==>
              s.threads[u].Panicked? || (s.threads[u].LoadOwner? && s.owner.None?)
    ensures AwaitsOwner(Step(s, u).threads[u]) ==>
              (s.threads[u].SetOwner? || s.threads[u].Holding?) && Step(s, u).threads[u].mine == s.threads[u].mine
    ensures Step(s, u).threads[u].Panicked? || AwaitsOwner(Step(s, u).threads[u]) ==>
              Left(s.threads[u]) <= Left(Step(s, u).threads[u]) + 1
  {
  }

  function Occurrences(schedule: seq<nat>, u: nat): nat {
    if schedule == [] then 0
    else Occurrences(schedule[..|schedule| - 1], u) + if schedule[|schedule| - 1] == u then 1 else 0
  }

  // ---- once the word is erased

  /** The word is erased under holder u, who panics within `left` of its own moves. */
  ghost predicate Doomed(s: State, u: nat, left: int) {
    && u < |s.threads|
    && (s.threads[u].Panicked? || (AwaitsOwner(s.threads[u]) && s.owner == None && Left(s.threads[u]) <= left))
  }

  /** Only the holder itself could set the word again, and it is past that point. */
  lemma StaysDoomed(s: State, t: nat, u: nat, left: int)
    requires Inv(s) && Doomed(s, u, left)
    ensures Doomed(Step(s, t), u, if t == u then left - 1 else left)
  {
    var q, gone :| Ok(s, q) && LogsOk(s, q, gone);
    OwnerIsFront(s, q, u);
    if t < |s.threads| && t != u && s.threads[t].SetOwner? { OwnerIsFront(s, q, t); }
  }

  lemma {:induction false} DoomLasts(s: State, u: nat, left: int, more: seq<nat>)
    requires Inv(s) && Doomed(s, u, left)
    ensures Inv(Exec(Step, s, more)) && Doomed(Exec(Step, s, more), u, left - Occurrences(more, u))
    decreases |more|
  {
    if more != [] {
      var front := more[..|more| - 1];
      DoomLasts(s, u, left, front);
      StepKeepsInv(Exec(Step, s, front), more[|more| - 1]);
      StaysDoomed(Exec(Step, s, front), more[|more| - 1], u, left - Occurrences(front, u));
    }
  }

  /** After such a store, in every continuation of every run, the word stays nil until that holder
      panics, and it has panicked once it has made the moves it had left. */
  lemma ErasedHolderPanics(threads: nat, schedule: seq<nat>, t: nat, u: nat, more: seq<nat>)
    ensures
      var s := Exec(Step, Init(threads), schedule);
      Erases(s, t, u) ==>
        var end := Exec(Step, Step(s, t), more);
        && u < |end.threads|
        && (end.threads[u].Panicked? || (AwaitsOwner(end.threads[u]) && end.owner == None))
        && (Occurrences(more, u) >= Left(s.threads[u]) ==> end.threads[u].Panicked?)
  {
    InvHolds(threads, schedule);
    var s := Exec(Step, Init(threads), schedule);
    if Erases(s, t, u) {
      StepKeepsInv(s, t);
      DoomLasts(Step(s, t), u, Left(s.threads[u]), more);
    }
  }

  // ---- and only then

  /** Action k of the run erases the word under u, which has since made all the moves it had left
      but `left` of them. */
  predicate ErasedAt(threads: nat, schedule: seq<nat>, k: nat, u: nat, left: nat) {
    && k < |schedule|
    && var s := Exec(Step, Init(threads), schedule[..k]);
       Erases(s, schedule[k], u) && Occurrences(schedule[k + 1..], u) + left >= Left(s.threads[u])
  }

  /** Thread u has panicked, or will unless somebody sets the word again. */
  predicate AtRisk(s: State, u: nat) {
    && u < |s.threads|
    && (s.threads[u].Panicked? || (AwaitsOwner(s.threads[u]) && s.owner != Some(s.threads[u].mine)))
  }

  /** Only an erasing store puts a thread at risk. */
  lemma RiskBegins(s: State, t: nat, u: nat)
    requires Inv(s) && t < |s.threads| && AtRisk(Step(s, t), u) && !AtRisk(s, u)
    ensures t != u && Erases(s, t, u) && Step(s, t).threads[u] == s.threads[u]
  {
    var q, gone :| Ok(s, q) && LogsOk(s, q, gone);
    StepKeepsOk(s, q, t);
    OwnerAfter(s, t);
    LogsAfter(s, t);
    if t != u {
      OwnerIsFront(s, q, u);
      if Owns(s.threads[t]) { OwnerIsFront(s, q, t); }
    }
  }

  function LeftAt(threads: nat, schedule: seq<nat>, u: nat): nat {
    var s := Exec(Step, Init(threads), schedule);
    if u < |s.threads| then Left(s.threads[u]) else 0
  }

  lemma {:induction false} RiskComesFromErasing(threads: nat, schedule: seq<nat>, u: nat)
    requires AtRisk(Exec(Step, Init(threads), schedule), u)
    ensures exists k: nat :: ErasedAt(threads, schedule, k, u, LeftAt(threads, schedule, u))
    decreases |schedule|
  {
    if schedule != [] {
      var n := |schedule| - 1;
      var front, t := schedule[..n], schedule[n];
      var s := Exec(Step, Init(threads), front);
      InvHolds(threads, front);
      if t >= |s.threads| || AtRisk(s, u) {
        RiskComesFromErasing(threads, front, u);
        var k: nat :| ErasedAt(threads, front, k, u, LeftAt(threads, front, u));
        RiskGoesOn(threads, schedule, k, u);
      } else {
        RiskBegins(s, t, u);
        assert schedule[n + 1..] == [];
        assert ErasedAt(threads, schedule, n, u, LeftAt(threads, schedule, u));
      }
    }
  }

  lemma RiskGoesOn(threads: nat, schedule: seq<nat>, k: nat, u: nat)
    requires schedule != [] && AtRisk(Exec(Step, Init(threads), schedule), u)
    requires var front := schedule[..|schedule| - 1]; ErasedAt(threads, front, k, u, LeftAt(threads, front, u))
    ensures ErasedAt(threads, schedule, k, u, LeftAt(threads, schedule, u))
  {
    var n := |schedule| - 1;
    var front, t := schedule[..n], schedule[n];
    assert schedule[..k] == front[..k];
    assert schedule[k + 1..][..n - k - 1] == front[k + 1..];
    InvHolds(threads, front);
    LeftFalls(Exec(Step, Init(threads), front), t, u);
  }

  /** A move takes at most one from what its thread has left. */
  lemma LeftFalls(s: State, t: nat, u: nat)
    requires Inv(s) && AtRisk(Step(s, t), u)
    ensures u < |s.threads|
    ensures Left(s.threads[u]) <= Left(Step(s, t).threads[u]) + if t == u then 1 else 0
  {
    if t < |s.threads| {
      var q, gone :| Ok(s, q) && LogsOk(s, q, gone);
      StepKeepsOk(s, q, t);
      OwnerAfter(s, t);
      LogsAfter(s, t);
    }
  }

  /** In every run a thread has panicked if and only if its word was erased while it held the lock
      and it has since made its moves up to the nil check. */
  lemma UnlockPanicsIff(threads: nat, schedule: seq<nat>, u: nat)
    ensures
      var end := Exec(Step, Init(threads), schedule);
      u < |end.threads| && end.threads[u].Panicked? <==> exists k: nat :: ErasedAt(threads, schedule, k, u, 0)
  {
    var end := Exec(Step, Init(threads), schedule);
    if u < |end.threads| && end.threads[u].Panicked? {
      RiskComesFromErasing(threads, schedule, u);
    }
    if k: nat :| ErasedAt(threads, schedule, k, u, 0) {
      assert schedule == schedule[..k + 1] + schedule[k + 1..];
      ExecSplits(Step, Init(threads), schedule[..k + 1], schedule[k + 1..]);
      PrefixStep(Step, Init(threads), schedule, k);
      ErasedHolderPanics(threads, schedule[..k], schedule[k], u, schedule[k + 1..]);
    }
  }

  // ---------------------------------------------------------------- calls left alone

  predicate By(t: nat, moves: seq<nat>) { forall i :: 0 <= i < |moves| ==> moves[i] == t }

  lemma One(s: State, t: nat, moves: seq<nat>)
    requires By(t, moves) && |moves| == 1
    ensures Exec(Step, s, moves) == Step(s, t)
  {
    ExecHead(Step, s, moves);
    assert moves[1..] == [];
  }

  lemma Two(s: State, t: nat, moves: seq<nat>)
    requires By(t, moves) && |moves| == 2
    ensures Exec(Step, s, moves) == Step(Step(s, t), t)
  {
    ExecHead(Step, s, moves);
    One(Step(s, t), t, moves[1..]);
  }

  /** From every state: left alone, Lock takes a lock nobody queues for in three moves. */
  lemma FreeLockAlone(s: State, t: nat, moves: seq<nat>)
    requires t < |s.threads| && s.threads[t].Outside? && s.tail.None? && By(t, moves) && |moves| == 3
    ensures Exec(Step, s, moves) == State(Some(|s.nodes|), Some(|s.nodes|), s.nodes + [Node(None, true, t)],
              s.threads[t := Holding(|s.nodes|)], s.swaps + [t], s.grants + [t])
  {
    var n := |s.nodes|;
    ExecHead(Step, s, moves);
    Two(Goto(s.(nodes := s.nodes + [Node(None, true, t)]), t, SwapTail(n)), t, moves[1..]);
    assert s.threads[t := SwapTail(n)][t := SetOwner(n)] == s.threads[t := SetOwner(n)];
    assert s.threads[t := SetOwner(n)][t := Holding(n)] == s.threads[t := Holding(n)];
  }

  /** The first two moves of Unlock by a holder whose word stands. */
  lemma UnlockBegins(s: State, t: nat, moves: seq<nat>)
    requires t < |s.threads| && s.threads[t].Holding? && s.owner == Some(s.threads[t].mine)
    requires By(t, moves) && |moves| >= 2
    ensures
      var n := s.threads[t].mine;
      Exec(Step, s, moves) == Exec(Step, Goto(s, t, LoadNext(n, n)), moves[2..])
  {
    var n := s.threads[t].mine;
    ExecHead(Step, s, moves);
    ExecHead(Step, Goto(s, t, LoadOwner(n)), moves[1..]);
    assert s.threads[t := LoadOwner(n)][t := LoadNext(n, n)] == s.threads[t := LoadNext(n, n)];
    assert moves[1..][1..] == moves[2..];
  }

  /** From every state: left alone, the Unlock of a holder whose word stands is done in five moves. With
      nobody behind it leaves no queue and no owner. */
  lemma LastUnlockAlone(s: State, t: nat, moves: seq<nat>)
    requires t < |s.threads| && s.threads[t].Holding? && s.owner == Some(s.threads[t].mine)
    requires By(t, moves) && |moves| == 5
    requires s.threads[t].mine < |s.nodes| && s.nodes[s.threads[t].mine].next.None? && s.tail == Some(s.threads[t].mine)
    ensures Exec(Step, s, moves) == Goto(s.(tail := None, owner := None), t, Outside)
  {
    var n := s.threads[t].mine;
    UnlockBegins(s, t, moves);
    ExecHead(Step, Goto(s, t, LoadNext(n, n)), moves[2..]);
    Two(Goto(s, t, CasTail(n, n)), t, moves[2..][1..]);
    assert s.threads[t := LoadNext(n, n)][t := CasTail(n, n)] == s.threads[t := CasTail(n, n)];
    assert s.threads[t := CasTail(n, n)][t := ClearOwnerLast(n)] == s.threads[t := ClearOwnerLast(n)];
    assert s.threads[t := ClearOwnerLast(n)][t := Outside] == s.threads[t := Outside];
  }

  /** With a linked successor it clears the word and unlocks the successor's node. */
  lemma HandOverAlone(s: State, t: nat, x: nat, moves: seq<nat>)
    requires t < |s.threads| && s.threads[t].Holding? && s.owner == Some(s.threads[t].mine)
    requires By(t, moves) && |moves| == 5
    requires s.threads[t].mine < |s.nodes| && s.nodes[s.threads[t].mine].next == Some(x) && x < |s.nodes|
    ensures Exec(Step, s, moves) ==
            Goto(s.(owner := None, nodes := s.nodes[x := s.nodes[x].(locked := false)]), t, Outside)
  {
    var n := s.threads[t].mine;
    UnlockBegins(s, t, moves);
    ExecHead(Step, Goto(s, t, LoadNext(n, n)), moves[2..]);
    Two(Goto(s, t, ClearOwner(n, x)), t, moves[2..][1..]);
    assert s.threads[t := LoadNext(n, n)][t := ClearOwner(n, x)] == s.threads[t := ClearOwner(n, x)];
    assert s.threads[t := ClearOwner(n, x)][t := Grant(n, x)] == s.threads[t := Grant(n, x)];
    assert s.threads[t := Grant(n, x)][t := Outside] == s.threads[t := Outside];
  }

  /** And then the successor has the lock, and the word, in two moves. */
  lemma GrantedAlone(s: State, u: nat, moves: seq<nat>)
    requires u < |s.threads| && s.threads[u].Spin? && s.threads[u].mine < |s.nodes| && By(u, moves) && |moves| == 2
    requires !s.nodes[s.threads[u].mine].locked
    ensures
      var m := s.threads[u].mine;
      Exec(Step, s, moves) == Goto(s.(owner := Some(m), grants := s.grants + [u]), u, Holding(m))
  {
    Two(s, u, moves);
    var m := s.threads[u].mine;
    assert s.threads[u := SetOwner(m)][u := Holding(m)] == s.threads[u := Holding(m)];
  }

  /** A failed tail CAS waits for the link of a successor that has swapped, and goes on once it is there. */
  lemma UnlinkedHandOver(s: State, t: nat, u: nat, x: nat, early: seq<nat>, late: seq<nat>)
    requires t < |s.threads| && s.threads[t].Holding? && s.owner == Some(s.threads[t].mine) && t != u < |s.threads|
    requires s.threads[t].mine < |s.nodes| && s.nodes[s.threads[t].mine].next.None? && s.tail != Some(s.threads[t].mine)
    requires s.threads[u] == LinkPrev(x, s.threads[t].mine) && x < |s.nodes| && x != s.threads[t].mine
    requires By(t, early) && |early| == 4 && By(t, late) && |late| == 3
    ensures
      var n := s.threads[t].mine;
      var linked := Step(Exec(Step, s, early), u);
      && linked == Goto(Goto(s.(nodes := s.nodes[n := s.nodes[n].(next := Some(x))]), t, SpinNext(n, n)), u, Spin(x))
      && Exec(Step, linked, late) ==
         Goto(linked.(owner := None, nodes := linked.nodes[x := linked.nodes[x].(locked := false)]), t, Outside)
  {
    var n := s.threads[t].mine;
    UnlockBegins(s, t, early);
    Two(Goto(s, t, LoadNext(n, n)), t, early[2..]);
    assert s.threads[t := LoadNext(n, n)][t := CasTail(n, n)] == s.threads[t := CasTail(n, n)];
    assert s.threads[t := CasTail(n, n)][t := SpinNext(n, n)] == s.threads[t := SpinNext(n, n)];
    LinkedGoesOn(Step(Goto(s, t, SpinNext(n, n)), u), t, x, late);
  }

  lemma LinkedGoesOn(s: State, t: nat, x: nat, moves: seq<nat>)
    requires t < |s.threads| && s.threads[t].SpinNext? && s.threads[t].node < |s.nodes| && By(t, moves) && |moves| == 3
    requires s.nodes[s.threads[t].node].next == Some(x) && x < |s.nodes|
    ensures Exec(Step, s, moves) ==
            Goto(s.(owner := None, nodes := s.nodes[x := s.nodes[x].(locked := false)]), t, Outside)
  {
    var m := s.threads[t].mine;
    ExecHead(Step, s, moves);
    Two(Goto(s, t, ClearOwner(m, x)), t, moves[1..]);
    assert s.threads[t := ClearOwner(m, x)][t := Grant(m, x)] == s.threads[t := Grant(m, x)];
    assert s.threads[t := Grant(m, x)][t := Outside] == s.threads[t := Outside];
  }

  // ---------------------------------------------------------------- a holder that panics

  /** And it is reachable: thread 0 lets go, thread 1 locks, thread 0 clears the word. */
  lemma HolderCanPanic()
    ensures exists s :: Reachable(Step, Init(2), s) && |s.threads| == 2 && s.threads[1].Panicked?
  {
    ReachableInit(Step, Init(2));
    var s := LocksAlone(Init(2), Init(2), 0);
    s := LetGoAlone(Init(2), s, 0);
    s := LocksAlone(Init(2), s, 1);
    s := Moves(Init(2), s, 0, s.(owner := None, threads := [Outside, Holding(1)]));
    s := Moves(Init(2), s, 1, s.(threads := [Outside, LoadOwner(1)]));
    s := Moves(Init(2), s, 1, s.(threads := [Outside, Panicked(1)]));
  }

  lemma LetGoAlone(init: State, s: State, t: nat) returns (r: State)
    requires Reachable(Step, init, s) && t < |s.threads| && s.threads[t].Holding?
    requires
      var n := s.threads[t].mine;
      n < |s.nodes| && s.nodes[n].next == None && s.tail == Some(n) && s.owner == Some(n)
    ensures Reachable(Step, init, r)
    ensures r == Goto(s.(tail := None), t, ClearOwnerLast(s.threads[t].mine))
  {
    var n := s.threads[t].mine;
    r := Moves(init, s, t, Goto(s, t, LoadOwner(n)));
    r := Moves(init, r, t, Goto(r, t, LoadNext(n, n)));
    r := Moves(init, r, t, Goto(r, t, CasTail(n, n)));
    r := Moves(init, r, t, Goto(r.(tail := None), t, ClearOwnerLast(n)));
  }

  lemma Moves(init: State, s: State, t: nat, expected: State) returns (r: State)
    requires Reachable(Step, init, s) && Step(s, t) == expected
    ensures r == expected && Reachable(Step, init, r)
  {
    ReachableStep(Step, init, s, t);
    r := expected;
  }

  lemma LocksAlone(init: State, s: State, t: nat) returns (r: State)
    requires Reachable(Step, init, s) && t < |s.threads| && s.threads[t].Outside? && s.tail == None
    ensures Reachable(Step, init, r)
    ensures r == State(Some(|s.nodes|), Some(|s.nodes|), s.nodes + [Node(None, true, t)],
                       s.threads[t := Holding(|s.nodes|)], s.swaps + [t], s.grants + [t])
  {
    r := Exec(Step, s, [t, t, t]);
    FreeLockAlone(s, t, [t, t, t]);
    ReachableRun(Step, init, s, [t, t, t]);
  }

  // ---------------------------------------------------------------- the logs are the moves of the run

  predicate Swaps(s: State, t: nat) {
    t < |s.threads| && s.threads[t].SwapTail? && t < |Step(s, t).threads| && !Step(s, t).threads[t].SwapTail?
  }

  /** Lock returns. */
  predicate Enters(s: State, t: nat) {
    t < |s.threads| && !s.threads[t].Holding? && t < |Step(s, t).threads| && Step(s, t).threads[t].Holding?
  }

  lemma {:induction false} LogsAreMoves(threads: nat, schedule: seq<nat>)
    ensures
      var i, s := Init(threads), Exec(Step, Init(threads), schedule);
      s.swaps == Log(Step, i, schedule, Swaps) && s.grants == Log(Step, i, schedule, Enters)
    decreases |schedule|
  {
    if schedule != [] {
      LogsAreMoves(threads, schedule[..|schedule| - 1]);
      LogMove(Exec(Step, Init(threads), schedule[..|schedule| - 1]), schedule[|schedule| - 1]);
    }
  }

  lemma LogMove(s: State, t: nat)
    ensures Step(s, t).swaps == s.swaps + if Swaps(s, t) then [t] else []
    ensures Step(s, t).grants == s.grants + if Enters(s, t) then [t] else []
  {
  }
}
