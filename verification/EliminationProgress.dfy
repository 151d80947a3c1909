/** What calls on the elimination stack (stack/elimination_backoff_mpmc.go) answer, and in how many
    of their own moves. All results are about the unrestricted machine. */
module EliminationProgress {
  import opened Wrappers
  import opened Schedules
  import opened Linearizability
  import opened EliminationStack
  import opened EliminationOffers

  predicate By(t: nat, moves: seq<Action>) { forall i :: 0 <= i < |moves| ==> moves[i].tid == t }

  /** Thread t has ended its call; all the trace has gained is `events`. */
  predicate EndedBy(s: State, end: State, t: nat, events: seq<Event<Op, Res>>) {
    t < |s.threads| && end.threads == s.threads[t := Outside] && end.trace == s.trace + events
  }

  /** With these moves thread t ends its call. */
  ghost predicate Ends(s: State, t: nat, moves: seq<Action>, events: seq<Event<Op, Res>>) {
    EndedBy(s, Exec(Step, s, moves), t, events)
  }

  /** State s' is s after a move of thread t that shows `events`. */
  predicate Shows(s: State, s': State, t: nat, events: seq<Event<Op, Res>>) {
    && t < |s.threads| == |s'.threads| && s'.threads == s.threads[t := s'.threads[t]]
    && s'.trace == s.trace + events
  }

  lemma EndedLater(s: State, s': State, end: State, t: nat, events: seq<Event<Op, Res>>, more: seq<Event<Op, Res>>)
    requires Shows(s, s', t, events) && EndedBy(s', end, t, more)
    ensures EndedBy(s, end, t, events + more)
  {
    assert s.trace + (events + more) == s.trace + events + more;
  }

  /** One move ahead of an ending. */
  lemma MoveThenEnds(s: State, t: nat, moves: seq<Action>, events: seq<Event<Op, Res>>, more: seq<Event<Op, Res>>)
    requires moves != [] && Shows(s, Step(s, moves[0]), t, events) && Ends(Step(s, moves[0]), t, moves[1..], more)
    ensures Ends(s, t, moves, events + more)
    ensures Exec(Step, s, moves) == Exec(Step, Step(s, moves[0]), moves[1..])
  {
    ExecHead(Step, s, moves);
    EndedLater(s, Step(s, moves[0]), Exec(Step, s, moves), t, events, more);
  }

  lemma QuietThenEnds(s: State, t: nat, moves: seq<Action>, more: seq<Event<Op, Res>>)
    requires moves != [] && Shows(s, Step(s, moves[0]), t, []) && Ends(Step(s, moves[0]), t, moves[1..], more)
    ensures Ends(s, t, moves, more)
    ensures Exec(Step, s, moves) == Exec(Step, Step(s, moves[0]), moves[1..])
  {
    assert [] + more == more;
    MoveThenEnds(s, t, moves, [], more);
  }

  // ---------------------------------------------------------------- references in the heap

  predicate RefOk(n: nat, r: Option<nat>) { r.Some? ==> r.value < n }

  predicate CallerOk(n: nat, c: Caller) { c.Pusher? ==> c.node < n }

  /** What a thread refers to is in a heap of n nodes. */
  predicate ThreadRefs(n: nat, th: Thread) {
    match th
    case LoadHead(c) => CallerOk(n, c)
    case Link(_, m, prev) => m < n && RefOk(n, prev)
    case CasPush(_, m, prev) => m < n && RefOk(n, prev)
    case ReadTop(p) => p < n
    case CasPop(_, _, next) => RefOk(n, next)
    case Pick(c, _) => CallerOk(n, c)
    case Visit(c, _, _, _) => CallerOk(n, c)
    case Install(c, _, _, _) => CallerOk(n, c)
    case Take(c, _, _, _, _) => CallerOk(n, c)
    case Await(c, _, _, _, _) => CallerOk(n, c)
    case Withdraw(c, _, _, _) => CallerOk(n, c)
    case _ => true
  }

  ghost predicate HeapShape(s: State) {
    && RefOk(|s.heap|, s.head)
    && (forall i :: 0 <= i < |s.heap| ==> RefOk(|s.heap|, s.heap[i].next))
    && (forall t :: 0 <= t < |s.threads| ==> ThreadRefs(|s.heap|, s.threads[t]))
  }

  ghost predicate MoverOk(s: State, s': State, t: nat) {
    && |s.heap| <= |s'.heap| && RefOk(|s'.heap|, s'.head)
    && t < |s'.threads| == |s.threads| && s'.threads == s.threads[t := s'.threads[t]]
    && ThreadRefs(|s'.heap|, s'.threads[t])
  }

  lemma StackMoverRefs(s: State, t: nat)
    requires HeapShape(s) && t < |s.threads| && RefsOk(s, s.threads[t]) && IsStackMove(s.threads[t])
    ensures MoverOk(s, StepStack(s, t), t)
  {
    assert ThreadRefs(|s.heap|, s.threads[t]);
  }

  lemma SlotMoverRefs(s: State, t: nat, choice: nat)
    requires HeapShape(s) && t < |s.threads| && RefsOk(s, s.threads[t]) && IsSlotMove(s.threads[t])
    ensures MoverOk(s, StepSlot(s, t, choice), t)
  {
    assert ThreadRefs(|s.heap|, s.threads[t]);
  }

  lemma MatchMoverRefs(s: State, t: nat)
    requires HeapShape(s) && t < |s.threads| && RefsOk(s, s.threads[t]) && IsMatchMove(s.threads[t])
    ensures MoverOk(s, StepMatch(s, t), t)
  {
    assert ThreadRefs(|s.heap|, s.threads[t]);
  }

  lemma MoverRefs(s: State, a: Action)
    requires HeapShape(s) && a.tid < |s.threads| && RefsOk(s, s.threads[a.tid])
    ensures MoverOk(s, Step(s, a), a.tid)
  {
    var th := s.threads[a.tid];
    if IsStackMove(th) { StackMoverRefs(s, a.tid); }
    else if IsSlotMove(th) { SlotMoverRefs(s, a.tid, a.slot); }
    else if IsMatchMove(th) { MatchMoverRefs(s, a.tid); }
  }

  lemma NodesRefs(s: State, a: Action)
    requires HeapShape(s) && a.tid < |s.threads| && RefsOk(s, s.threads[a.tid])
    ensures var s' := Step(s, a); forall i :: 0 <= i < |s'.heap| ==> RefOk(|s'.heap|, s'.heap[i].next)
  {
    assert ThreadRefs(|s.heap|, s.threads[a.tid]);
  }

  lemma StepKeepsHeap(s: State, a: Action)
    requires HeapShape(s)
    ensures HeapShape(Step(s, a))
  {
    if a.tid < |s.threads| && RefsOk(s, s.threads[a.tid]) {
      MoverRefs(s, a);
      NodesRefs(s, a);
      var s' := Step(s, a);
      forall t | 0 <= t < |s'.threads| ensures ThreadRefs(|s'.heap|, s'.threads[t]) {
        if t != a.tid { RefsGrow(|s.heap|, |s'.heap|, s.threads[t]); }
      }
    }
  }

  lemma RefsGrow(n: nat, m: nat, th: Thread)
    requires n <= m && ThreadRefs(n, th)
    ensures ThreadRefs(m, th)
  {
  }

  lemma HeapHolds(threads: nat, slots: nat, spinLimit: nat, zero: Value, schedule: seq<Action>)
    ensures HeapShape(Exec(Step, Init(threads, slots, spinLimit, zero), schedule))
  {
    forall s, a | HeapShape(s) ensures HeapShape(Step(s, a)) { StepKeepsHeap(s, a); }
    Always(Step, HeapShape, Init(threads, slots, spinLimit, zero), schedule);
  }

  // ---------------------------------------------------------------- the path through head

  lemma Return1(s: State, t: nat, moves: seq<Action>, res: Res)
    requires t < |s.threads| && s.threads[t] == Returning(res) && By(t, moves) && |moves| == 1
    ensures Ends(s, t, moves, [Return(t, res)])
    ensures var end := Exec(Step, s, moves); end.head == s.head && end.heap == s.heap && end.offers == s.offers
    ensures Exec(Step, s, moves).slots == s.slots
  {
    ExecHead(Step, s, moves);
    assert moves[1..] == [];
  }

  lemma CasPop2(s: State, t: nat, moves: seq<Action>)
    requires t < |s.threads| && s.threads[t].CasPop? && s.head == Some(s.threads[t].top)
    requires By(t, moves) && |moves| == 2
    ensures Ends(s, t, moves, [Return(t, Popped(s.threads[t].v))])
    ensures var end := Exec(Step, s, moves); end.head == s.threads[t].next && end.heap == s.heap
  {
    Return1(Step(s, moves[0]), t, moves[1..], Popped(s.threads[t].v));
    QuietThenEnds(s, t, moves, [Return(t, Popped(s.threads[t].v))]);
  }

  lemma LoadTop4(s: State, t: nat, moves: seq<Action>, p: nat)
    requires t < |s.threads| && s.threads[t].LoadHead? && s.threads[t].c.Popper? && s.head == Some(p) && p < |s.heap|
    requires By(t, moves) && |moves| == 4
    ensures Ends(s, t, moves, [Return(t, Popped(s.heap[p].v))])
    ensures var end := Exec(Step, s, moves); end.head == s.heap[p].next && end.heap == s.heap
  {
    var s1, rest := Step(s, moves[0]), moves[1..];
    CasPop2(Step(s1, rest[0]), t, rest[1..]);
    QuietThenEnds(s1, t, rest, [Return(t, Popped(s.heap[p].v))]);
    QuietThenEnds(s, t, moves, [Return(t, Popped(s.heap[p].v))]);
  }

  lemma PopEnds(s: State, t: nat, moves: seq<Action>, p: nat)
    requires t < |s.threads| && s.threads[t].Outside? && s.head == Some(p) && p < |s.heap|
    requires By(t, moves) && |moves| == 5 && moves[0].op == Pop
    ensures Ends(s, t, moves, [Call(t, Pop), Return(t, Popped(s.heap[p].v))])
    ensures var end := Exec(Step, s, moves); end.head == s.heap[p].next && end.heap == s.heap
  {
    LoadTop4(Step(s, moves[0]), t, moves[1..], p);
    MoveThenEnds(s, t, moves, [Call(t, Pop)], [Return(t, Popped(s.heap[p].v))]);
  }

  lemma CasPush2(s: State, t: nat, moves: seq<Action>)
    requires t < |s.threads| && s.threads[t].CasPush? && s.head == s.threads[t].prev && s.threads[t].node < |s.heap|
    requires By(t, moves) && |moves| == 2
    ensures Ends(s, t, moves, [Return(t, Pushed)])
    ensures
      var end, n := Exec(Step, s, moves), s.threads[t].node;
      end.head == Some(n) && end.heap == s.heap[n := s.heap[n].(owner := None)]
  {
    Return1(Step(s, moves[0]), t, moves[1..], Pushed);
    QuietThenEnds(s, t, moves, [Return(t, Pushed)]);
  }

  lemma LoadLink4(s: State, t: nat, moves: seq<Action>)
    requires t < |s.threads| && s.threads[t].LoadHead? && s.threads[t].c.Pusher? && s.threads[t].c.node < |s.heap|
    requires By(t, moves) && |moves| == 4
    ensures Ends(s, t, moves, [Return(t, Pushed)])
    ensures
      var end, n := Exec(Step, s, moves), s.threads[t].c.node;
      end.head == Some(n) && end.heap == s.heap[n := Node(s.heap[n].v, s.head, None)]
  {
    var s1, rest := Step(s, moves[0]), moves[1..];
    CasPush2(Step(s1, rest[0]), t, rest[1..]);
    QuietThenEnds(s1, t, rest, [Return(t, Pushed)]);
    QuietThenEnds(s, t, moves, [Return(t, Pushed)]);
  }

  lemma PushEnds(s: State, t: nat, moves: seq<Action>, v: Value)
    requires t < |s.threads| && s.threads[t].Outside? && By(t, moves) && |moves| == 5 && moves[0].op == Push(v)
    ensures Ends(s, t, moves, [Call(t, Push(v)), Return(t, Pushed)])
    ensures
      var end := Exec(Step, s, moves);
      end.head == Some(|s.heap|) && end.heap == s.heap + [Node(v, s.head, None)]
  {
    LoadLink4(Step(s, moves[0]), t, moves[1..]);
    MoveThenEnds(s, t, moves, [Call(t, Push(v))], [Return(t, Pushed)]);
  }

  // ---------------------------------------------------------------- alone in the array

  /** Moves from one slot visit to the next, when the offer made there is withdrawn. */
  function Visiting(s: State): nat { s.spinLimit + 5 }

  /** Moves left, at most, from the head load of a Pop that runs alone. */
  function PopLeft(s: State): nat { if s.head.None? then 2 * Visiting(s) + 4 else 4 }

  /** From the choice of a slot. */
  function PickLeft(s: State, c: Caller, attempt: nat): nat {
    (if attempt == 0 then 2 * Visiting(s) else if attempt == 1 then Visiting(s) else 0) + 1 +
    (if c.Pusher? then 4 else if !c.sawEmpty then PopLeft(s) else if s.head.None? then 2 else 5)
  }

  function WithdrawLeft(s: State, c: Caller, attempt: nat, k: nat, m: nat): nat {
    if k < |s.slots| && s.slots[k] == Some(m) then PickLeft(s, c, attempt + 1) + 1 else s.spinLimit + 4
  }

  function SpinsLeft(s: State, spins: nat): nat { if spins < s.spinLimit then s.spinLimit - spins else 0 }

  /** Moves that thread t needs, at most, until its call has ended, when nobody else moves. */
  function Left(s: State, t: nat): nat
    requires t < |s.threads|
  {
    match s.threads[t]
    case Outside => 0
    case Returning(_) => 1
    case LoadHead(c) => if c.Pusher? then 4 else PopLeft(s)
    case Link(v, n, prev) => if s.head == prev then 3 else 2 + PickLeft(s, Pusher(v, n), 0)
    case CasPush(v, n, prev) => if s.head == prev then 2 else 1 + PickLeft(s, Pusher(v, n), 0)
    case ReadTop(p) => if s.head == Some(p) then 3 else 2 + PickLeft(s, Popper(false), 0)
    case CasPop(p, _, _) => if s.head == Some(p) then 2 else 1 + PickLeft(s, Popper(false), 0)
    case Recheck => if s.head.None? then 2 else 5
    case Pick(c, att) => PickLeft(s, c, att)
    case Visit(c, att, _, _) => PickLeft(s, c, att + 1) + Visiting(s) - 1
    case Install(c, att, k, _) =>
      PickLeft(s, c, att + 1) + Visiting(s) - (if k < |s.slots| && s.slots[k].None? then 2 else 0)
    case Take(c, att, k, _, x) =>
      if k < |s.slots| && s.slots[k] == Some(x) then 4 else PickLeft(s, c, att + 1) + Visiting(s)
    case Exchange(_, _) => 3
    case Signal(_, _) => 2
    case Await(c, att, k, m, spins) => WithdrawLeft(s, c, att, k, m) + 1 + SpinsLeft(s, spins)
    case Withdraw(c, att, k, m) => WithdrawLeft(s, c, att, k, m)
    case AwaitMatch(_, _, spins) => 3 + SpinsLeft(s, spins)
    case Collect(_) => 2
  }

  lemma StackMoveLowers(s: State, t: nat)
    requires t < |s.threads| && RefsOk(s, s.threads[t]) && IsStackMove(s.threads[t])
    ensures Left(StepStack(s, t), t) < Left(s, t)
  {
  }

  lemma VisitLowers(s: State, t: nat, choice: nat)
    requires t < |s.threads| && RefsOk(s, s.threads[t]) && choice < |s.slots|
    requires s.threads[t].Pick? || s.threads[t].Visit?
    ensures Left(StepSlot(s, t, choice), t) < Left(s, t)
  {
  }

  lemma InstallLowers(s: State, t: nat, choice: nat)
    requires t < |s.threads| && RefsOk(s, s.threads[t]) && (s.threads[t].Install? || s.threads[t].Take?)
    ensures Left(StepSlot(s, t, choice), t) < Left(s, t)
  {
  }

  lemma AwaitLowers(s: State, t: nat)
    requires t < |s.threads| && RefsOk(s, s.threads[t]) && s.threads[t].Await?
    ensures Left(StepMatch(s, t), t) < Left(s, t)
  {
    assert WithdrawLeft(s, s.threads[t].c, s.threads[t].attempt, s.threads[t].slot, s.threads[t].mine) >= 2;
  }

  lemma WithdrawLowers(s: State, t: nat)
    requires t < |s.threads| && RefsOk(s, s.threads[t]) && s.threads[t].Withdraw?
    ensures Left(StepMatch(s, t), t) < Left(s, t)
  {
  }

  lemma HandOverLowers(s: State, t: nat)
    requires t < |s.threads| && RefsOk(s, s.threads[t]) && IsMatchMove(s.threads[t])
    requires !s.threads[t].Await? && !s.threads[t].Withdraw?
    ensures Left(StepMatch(s, t), t) < Left(s, t)
  {
  }

  lemma MoveLowers(s: State, a: Action)
    requires a.tid < |s.threads| && RefsOk(s, s.threads[a.tid]) && a.slot < |s.slots| && !s.threads[a.tid].Outside?
    ensures a.tid < |Step(s, a).threads| && Left(Step(s, a), a.tid) < Left(s, a.tid)
  {
    var th := s.threads[a.tid];
    if IsStackMove(th) { StackMoveLowers(s, a.tid); }
    else if th.Pick? || th.Visit? { VisitLowers(s, a.tid, a.slot); }
    else if IsSlotMove(th) { InstallLowers(s, a.tid, a.slot); }
    else if th.Await? { AwaitLowers(s, a.tid); }
    else if th.Withdraw? { WithdrawLowers(s, a.tid); }
    else if IsMatchMove(th) { HandOverLowers(s, a.tid); }
  }

  lemma PickIsBounded(s: State, c: Caller, attempt: nat)
    ensures PickLeft(s, c, attempt) <= 4 * s.spinLimit + 25
    ensures attempt > 0 ==> PickLeft(s, c, attempt) <= 3 * s.spinLimit + 20
  {
  }

  lemma LeftIsBounded(s: State, t: nat)
    requires t < |s.threads|
    ensures Left(s, t) <= 4 * s.spinLimit + 28
  {
    forall c, attempt: nat
      ensures PickLeft(s, c, attempt) <= 4 * s.spinLimit + 25 &&
              (attempt > 0 ==> PickLeft(s, c, attempt) <= 3 * s.spinLimit + 20) {
      PickIsBounded(s, c, attempt);
    }
  }

  predicate AtRest(s: State, t: nat) { t < |s.threads| && s.threads[t].Outside? }

  /** Moves of thread t, each with a slot of the array to visit. */
  predicate Alone(s: State, t: nat, moves: seq<Action>) {
    By(t, moves) && forall i :: 0 <= i < |moves| ==> moves[i].slot < |s.slots|
  }

  lemma RefsHold(s: State, t: nat)
    requires Shape(s) && HeapShape(s) && t < |s.threads|
    ensures RefsOk(s, s.threads[t])
  {
    assert ThreadShape(s, t) && ThreadRefs(|s.heap|, s.threads[t]);
  }

  lemma StepKeepsSlots(s: State, a: Action)
    ensures |Step(s, a).slots| == |s.slots| && Step(s, a).spinLimit == s.spinLimit
  {
  }

  lemma {:induction false} ReturnsByRank(s: State, t: nat, moves: seq<Action>)
    requires Shape(s) && HeapShape(s) && t < |s.threads| && Alone(s, t, moves) && Left(s, t) <= |moves|
    ensures exists m: nat :: m <= |moves| && m <= Left(s, t) && AtRest(Exec(Step, s, moves[..m]), t)
    decreases |moves|
  {
    if s.threads[t].Outside? {
      assert AtRest(Exec(Step, s, moves[..0]), t);
    } else {
      RefsHold(s, t);
      var s', rest := Step(s, moves[0]), moves[1..];
      MoveLowers(s, moves[0]);
      StepKeepsShape(s, moves[0]);
      StepKeepsHeap(s, moves[0]);
      StepKeepsSlots(s, moves[0]);
      ReturnsByRank(s', t, rest);
      var m: nat :| m <= |rest| && m <= Left(s', t) && AtRest(Exec(Step, s', rest[..m]), t);
      ExecHeadPrefix(Step, s, moves, m);
      assert AtRest(Exec(Step, s, moves[..m + 1]), t);
    }
  }

  lemma SizesStay(threads: nat, slots: nat, spinLimit: nat, zero: Value, schedule: seq<Action>)
    ensures
      var s := Exec(Step, Init(threads, slots, spinLimit, zero), schedule);
      |s.threads| == threads && |s.slots| == slots && s.spinLimit == spinLimit
  {
    var inv := (s: State) => |s.threads| == threads && |s.slots| == slots && s.spinLimit == spinLimit;
    forall s, a | inv(s) ensures inv(Step(s, a)) { StepKeepsSlots(s, a); StepKeepsThreads(s, a); }
    Always(Step, inv, Init(threads, slots, spinLimit, zero), schedule);
  }

  lemma StepKeepsThreads(s: State, a: Action)
    ensures |Step(s, a).threads| == |s.threads|
  {
  }

  /** Wherever all threads have stopped, any one of them, left alone, has returned after at most four
      times the spin limit and 28 moves. */
  lemma AloneReturns(threads: nat, slots: nat, spinLimit: nat, zero: Value, schedule: seq<Action>,
                     t: nat, moves: seq<Action>)
    requires t < threads && |moves| >= 4 * spinLimit + 28
    requires By(t, moves) && forall i :: 0 <= i < |moves| ==> moves[i].slot < slots
    ensures
      var s := Exec(Step, Init(threads, slots, spinLimit, zero), schedule);
      exists m: nat :: m <= |moves| && m <= 4 * spinLimit + 28 && AtRest(Exec(Step, s, moves[..m]), t)
  {
    ShapeHolds(threads, slots, spinLimit, zero, schedule);
    HeapHolds(threads, slots, spinLimit, zero, schedule);
    SizesStay(threads, slots, spinLimit, zero, schedule);
    var s := Exec(Step, Init(threads, slots, spinLimit, zero), schedule);
    LeftIsBounded(s, t);
    ReturnsByRank(s, t, moves);
  }

  // ---------------------------------------------------------------- a Pop on an empty stack

  /** Thread t is inside a Pop, the stack is empty, and the array holds no offer but its own. */
  predicate Searching(s: State, t: nat) {
    && t < |s.threads| && s.head.None?
    && (forall j :: 0 <= j < |s.slots| && s.slots[j].Some? ==>
          (s.threads[t].Await? || s.threads[t].Withdraw?) && j == s.threads[t].slot)
    && match s.threads[t]
       case LoadHead(c) => c == Popper(false)
       case Pick(c, att) => c == Popper(true) && att <= ATTEMPTS
       case Visit(c, att, k, m) => Unmatched(s, c, att, k, m)
       case Install(c, att, k, m) => Unmatched(s, c, att, k, m)
       case Await(c, att, k, m, spins) => Unmatched(s, c, att, k, m) && s.slots[k] == Some(m) && spins <= s.spinLimit
       case Withdraw(c, att, k, m) => Unmatched(s, c, att, k, m) && s.slots[k] == Some(m)
       case Recheck => true
       case Returning(res) => res == Empty
       case _ => false
  }

  predicate Unmatched(s: State, c: Caller, att: nat, k: nat, m: nat) {
    c == Popper(true) && att < ATTEMPTS && k < |s.slots| && m < |s.offers| && !s.offers[m].done
  }

  ghost predicate SearchedOn(s: State, s': State, t: nat) {
    Searching(s', t) && t < |s.threads| && Left(s', t) == Left(s, t) - 1 && Shows(s, s', t, [])
  }

  lemma SearchHead(s: State, t: nat, a: Action)
    requires Searching(s, t) && a.tid == t && (s.threads[t].LoadHead? || s.threads[t].Recheck?)
    ensures SearchedOn(s, Step(s, a), t)
  {
  }

  lemma SearchSlot(s: State, t: nat, a: Action)
    requires Searching(s, t) && a.tid == t && a.slot < |s.slots|
    requires s.threads[t].Pick? || s.threads[t].Visit? || s.threads[t].Install?
    ensures SearchedOn(s, Step(s, a), t)
  {
  }

  lemma SearchWait(s: State, t: nat, a: Action)
    requires Searching(s, t) && a.tid == t && (s.threads[t].Await? || s.threads[t].Withdraw?)
    ensures SearchedOn(s, Step(s, a), t)
  {
  }

  lemma SearchGoesOn(s: State, t: nat, a: Action)
    requires Searching(s, t) && a.tid == t && a.slot < |s.slots| && !s.threads[t].Returning?
    ensures SearchedOn(s, Step(s, a), t)
  {
    var th := s.threads[t];
    if th.LoadHead? || th.Recheck? { SearchHead(s, t, a); }
    else if th.Await? || th.Withdraw? { SearchWait(s, t, a); }
    else { SearchSlot(s, t, a); }
  }

  lemma {:induction false} SearchEnds(s: State, t: nat, moves: seq<Action>)
    requires Searching(s, t) && Alone(s, t, moves) && |moves| == Left(s, t)
    ensures Ends(s, t, moves, [Return(t, Empty)])
    decreases |moves|
  {
    if s.threads[t].Returning? {
      Return1(s, t, moves, Empty);
    } else {
      SearchGoesOn(s, t, moves[0]);
      StepKeepsSlots(s, moves[0]);
      SearchEnds(Step(s, moves[0]), t, moves[1..]);
      QuietThenEnds(s, t, moves, [Return(t, Empty)]);
    }
  }

  lemma EmptyPopEnds(s: State, t: nat, moves: seq<Action>)
    requires t < |s.threads| && s.threads[t].Outside? && s.head.None?
    requires forall j :: 0 <= j < |s.slots| ==> s.slots[j].None?
    requires Alone(s, t, moves) && |moves| == 2 * s.spinLimit + 15 && moves[0].op == Pop
    ensures Ends(s, t, moves, [Call(t, Pop), Return(t, Empty)])
  {
    StepKeepsSlots(s, moves[0]);
    SearchEnds(Step(s, moves[0]), t, moves[1..]);
    MoveThenEnds(s, t, moves, [Call(t, Pop)], [Return(t, Empty)]);
  }

  lemma NoOffersAtRest(s: State, t: nat)
    requires Shape(s) && forall u :: 0 <= u < |s.threads| ==> s.threads[u].Outside?
    ensures forall j :: 0 <= j < |s.slots| ==> s.slots[j].None?
  {
    forall j | 0 <= j < |s.slots| ensures s.slots[j].None? {
      assert SlotOk(s, j);
      assert s.slots[j].Some? ==> OfferOk(s, s.slots[j].value);
    }
  }

  // ---------------------------------------------------------------- a partner in the array

  lemma Signal2(s: State, t: nat, moves: seq<Action>)
    requires t < |s.threads| && s.threads[t].Signal? && s.threads[t].curr < |s.offers| && By(t, moves) && |moves| == 2
    ensures Ends(s, t, moves, [Return(t, s.threads[t].res)])
    ensures
      var x, end := s.threads[t].curr, Exec(Step, s, moves);
      end.offers == s.offers[x := s.offers[x].(done := true, phase := Finished)] && end.slots == s.slots
  {
    Return1(Step(s, moves[0]), t, moves[1..], s.threads[t].res);
    QuietThenEnds(s, t, moves, [Return(t, s.threads[t].res)]);
  }

  function Given(c: Caller, f: Offer): Value { if c.Pusher? then c.v else f.value }

  lemma Exchange3(s: State, t: nat, moves: seq<Action>)
    requires t < |s.threads| && s.threads[t].Exchange? && s.threads[t].curr < |s.offers| && By(t, moves) && |moves| == 3
    ensures
      var c, x, end := s.threads[t].c, s.threads[t].curr, Exec(Step, s, moves);
      && Ends(s, t, moves, [Return(t, if c.Pusher? then Pushed else Popped(s.offers[x].value))])
      && end.slots == s.slots && |end.offers| == |s.offers|
      && end.offers[x].done && end.offers[x].value == Given(c, s.offers[x])
  {
    var c, x := s.threads[t].c, s.threads[t].curr;
    Signal2(Step(s, moves[0]), t, moves[1..]);
    QuietThenEnds(s, t, moves, [Return(t, if c.Pusher? then Pushed else Popped(s.offers[x].value))]);
  }

  lemma Take4(s: State, t: nat, moves: seq<Action>)
    requires t < |s.threads| && s.threads[t].Take? && s.threads[t].curr < |s.offers| && By(t, moves) && |moves| == 4
    requires s.threads[t].slot < |s.slots| && s.slots[s.threads[t].slot] == Some(s.threads[t].curr)
    ensures
      var c, k, x, end := s.threads[t].c, s.threads[t].slot, s.threads[t].curr, Exec(Step, s, moves);
      && Ends(s, t, moves, [Return(t, if c.Pusher? then Pushed else Popped(s.offers[x].value))])
      && end.slots == s.slots[k := None] && |end.offers| == |s.offers|
      && end.offers[x].done && end.offers[x].value == Given(c, s.offers[x])
  {
    var c, x := s.threads[t].c, s.threads[t].curr;
    Exchange3(Step(s, moves[0]), t, moves[1..]);
    QuietThenEnds(s, t, moves, [Return(t, if c.Pusher? then Pushed else Popped(s.offers[x].value))]);
  }

  /** Slot k holds offer x of the opposite kind, and thread t is about to visit it. */
  predicate Meets(s: State, t: nat, k: nat, x: nat) {
    && t < |s.threads| && s.threads[t].Pick? && s.threads[t].attempt < ATTEMPTS
    && k < |s.slots| && s.slots[k] == Some(x) && x < |s.offers| && s.offers[x].isPush != s.threads[t].c.Pusher?
  }

  lemma MeetingEnds(s: State, t: nat, k: nat, x: nat, moves: seq<Action>)
    requires Meets(s, t, k, x) && By(t, moves) && |moves| == 6 && moves[0].slot == k
    ensures
      var c, end := s.threads[t].c, Exec(Step, s, moves);
      && Ends(s, t, moves, [Return(t, if c.Pusher? then Pushed else Popped(s.offers[x].value))])
      && end.slots == s.slots[k := None] && x < |end.offers| && |end.offers| == |s.offers| + 1
      && end.offers[x].done && end.offers[x].value == Given(c, s.offers[x])
  {
    var s1, rest := Step(s, moves[0]), moves[1..];
    Take4(Step(s1, rest[0]), t, rest[1..]);
    var answer: Event<Op, Res> := Return(t, if s.threads[t].c.Pusher? then Pushed else Popped(s.offers[x].value));
    QuietThenEnds(s1, t, rest, [answer]);
    QuietThenEnds(s, t, moves, [answer]);
  }

  /** The owner of an offer that has been served sees `done`. */
  lemma ServedEnds(s: State, w: nat, moves: seq<Action>)
    requires w < |s.threads| && (s.threads[w].Await? || s.threads[w].AwaitMatch?) && By(w, moves)
    requires s.threads[w].mine < |s.offers| && s.offers[s.threads[w].mine].done
    requires |moves| == if s.threads[w].c.Pusher? then 2 else 3
    ensures Ends(s, w, moves, [Return(w, if s.threads[w].c.Pusher? then Pushed
                                         else Popped(s.offers[s.threads[w].mine].value))])
  {
    var m := s.threads[w].mine;
    var s1, rest := Step(s, moves[0]), moves[1..];
    if s.threads[w].c.Pusher? {
      Return1(s1, w, rest, Pushed);
      QuietThenEnds(s, w, moves, [Return(w, Pushed)]);
    } else {
      Return1(Step(s1, rest[0]), w, rest[1..], Popped(s.offers[m].value));
      QuietThenEnds(s1, w, rest, [Return(w, Popped(s.offers[m].value))]);
      QuietThenEnds(s, w, moves, [Return(w, Popped(s.offers[m].value))]);
    }
  }

  /** Moves of that owner; a withdrawal comes too late and costs one more. */
  function ServedMoves(th: Thread): nat
    requires th.Await? || th.Withdraw?
  {
    (if th.Withdraw? then 1 else 0) + (if th.c.Pusher? then 2 else 3)
  }

  lemma PartnerEnds(s: State, w: nat, moves: seq<Action>)
    requires w < |s.threads| && (s.threads[w].Await? || s.threads[w].Withdraw?) && By(w, moves)
    requires s.threads[w].mine < |s.offers| && s.offers[s.threads[w].mine].done
    requires s.threads[w].slot < |s.slots| && s.slots[s.threads[w].slot] == None
    requires |moves| == ServedMoves(s.threads[w])
    ensures Ends(s, w, moves, [Return(w, if s.threads[w].c.Pusher? then Pushed
                                         else Popped(s.offers[s.threads[w].mine].value))])
  {
    if s.threads[w].Await? {
      ServedEnds(s, w, moves);
    } else {
      ServedEnds(Step(s, moves[0]), w, moves[1..]);
      QuietThenEnds(s, w, moves, [Return(w, if s.threads[w].c.Pusher? then Pushed
                                            else Popped(s.offers[s.threads[w].mine].value))]);
    }
  }

  lemma OwnerWaits(s: State, t: nat, k: nat, x: nat)
    requires Shape(s) && Meets(s, t, k, x)
    ensures
      var w := s.offers[x].owner;
      && w < |s.threads| && w != t && (s.threads[w].Await? || s.threads[w].Withdraw?)
      && s.threads[w].mine == x && s.threads[w].slot == k && s.threads[w].c.Pusher? == s.offers[x].isPush
      && (s.threads[w].c.Pusher? ==> s.offers[x].value == s.threads[w].c.v)
  {
    assert SlotOk(s, k) && OfferOk(s, x);
    assert ThreadShape(s, s.offers[x].owner);
  }

  // ---------------------------------------------------------------- main results

  /** In every run a Pop that is begun on a nonempty stack and left alone takes the top node in five
      moves; a Push puts its node on top in five moves; whatever the other threads are doing. */
  lemma HeadPathAlone(threads: nat, slots: nat, spinLimit: nat, zero: Value, schedule: seq<Action>,
                      t: nat, moves: seq<Action>)
    requires t < threads && By(t, moves) && |moves| == 5
    ensures
      var s := Exec(Step, Init(threads, slots, spinLimit, zero), schedule);
      var end := Exec(Step, s, moves);
      t < |s.threads| && s.threads[t].Outside? ==>
        match moves[0].op
        case Push(v) =>
          && Ends(s, t, moves, [Call(t, Push(v)), Return(t, Pushed)])
          && end.head == Some(|s.heap|) && end.heap == s.heap + [Node(v, s.head, None)]
        case Pop =>
          s.head.Some? ==>
            && s.head.value < |s.heap|
            && Ends(s, t, moves, [Call(t, Pop), Return(t, Popped(s.heap[s.head.value].v))])
            && end.head == s.heap[s.head.value].next && end.heap == s.heap
  {
    HeapHolds(threads, slots, spinLimit, zero, schedule);
    var s := Exec(Step, Init(threads, slots, spinLimit, zero), schedule);
    if t < |s.threads| && s.threads[t].Outside? {
      if moves[0].op.Push? {
        PushEnds(s, t, moves, moves[0].op.v);
      } else if s.head.Some? {
        PopEnds(s, t, moves, s.head.value);
      }
    }
  }

  /** In runs without an early fetch, which a stack explains, that Pop answers the top of the stack
      that explains the run. */
  lemma PopAnswersTop(threads: nat, slots: nat, spinLimit: nat, zero: Value, schedule: seq<Action>,
                      t: nat, moves: seq<Action>)
    returns (history: seq<Event<Op, Res>>, o: Stack)
    requires t < threads && By(t, moves) && |moves| == 5 && moves[0].op == Pop
    ensures
      var s := Exec(CarefulStep, Init(threads, slots, spinLimit, zero), schedule);
      && Explains(StackSpec(), Fresh([], threads), history, s.trace, o)
      && (o.value == [] <==> s.head.None?)
      && (t < |s.threads| && s.threads[t].Outside? && o.value != [] ==>
            Ends(s, t, moves, [Call(t, Pop), Return(t, Popped(o.value[0]))]))
  {
    EliminationStack.InvHolds(threads, slots, spinLimit, zero, schedule);
    var s := Exec(CarefulStep, Init(threads, slots, spinLimit, zero), schedule);
    var spine;
    history, o, spine :| Explains(StackSpec(), Fresh([], threads), history, s.trace, o) && Sim(s, o, spine);
    if t < |s.threads| && s.threads[t].Outside? && o.value != [] {
      PopEnds(s, t, moves, spine[0]);
    }
  }

  /** And a Pop that is begun on an empty stack with nobody else around answers so after twice the spin
      limit and 15 moves: two fruitless waits in the array and a second look at head. */
  lemma EmptyPopAlone(threads: nat, slots: nat, spinLimit: nat, zero: Value, schedule: seq<Action>,
                      t: nat, moves: seq<Action>)
    requires t < threads && |moves| == 2 * spinLimit + 15 && moves[0].op == Pop
    requires By(t, moves) && forall i :: 0 <= i < |moves| ==> moves[i].slot < slots
    ensures
      var s := Exec(Step, Init(threads, slots, spinLimit, zero), schedule);
      (forall u :: 0 <= u < |s.threads| ==> s.threads[u].Outside?) && s.head.None? ==>
        Ends(s, t, moves, [Call(t, Pop), Return(t, Empty)])
  {
    ShapeHolds(threads, slots, spinLimit, zero, schedule);
    SizesStay(threads, slots, spinLimit, zero, schedule);
    var s := Exec(Step, Init(threads, slots, spinLimit, zero), schedule);
    if (forall u :: 0 <= u < |s.threads| ==> s.threads[u].Outside?) && s.head.None? {
      NoOffersAtRest(s, t);
      EmptyPopEnds(s, t, moves);
    }
  }

  /** In every run a thread that visits a slot with an offer of the opposite kind returns after six
      moves, and then so does the offer's owner after two to four: the Push is done and the Pop
      has its value. */
  lemma PartnersMeet(threads: nat, slots: nat, spinLimit: nat, zero: Value, schedule: seq<Action>,
                     t: nat, k: nat, x: nat, moves: seq<Action>, back: seq<Action>)
    requires By(t, moves) && |moves| == 6 && moves[0].slot == k
    ensures
      var s := Exec(Step, Init(threads, slots, spinLimit, zero), schedule);
      Meets(s, t, k, x) && s.offers[x].owner < |s.threads| && By(s.offers[x].owner, back) ==>
        var w, c := s.offers[x].owner, s.threads[t].c;
        && (s.threads[w].Await? || s.threads[w].Withdraw?)
        && (|back| == ServedMoves(s.threads[w]) ==>
              if c.Pusher? then
                && Ends(s, t, moves, [Return(t, Pushed)])
                && Ends(Exec(Step, s, moves), w, back, [Return(w, Popped(c.v))])
              else
                && s.threads[w].c.Pusher?
                && Ends(s, t, moves, [Return(t, Popped(s.threads[w].c.v))])
                && Ends(Exec(Step, s, moves), w, back, [Return(w, Pushed)]))
  {
    ShapeHolds(threads, slots, spinLimit, zero, schedule);
    var s := Exec(Step, Init(threads, slots, spinLimit, zero), schedule);
    if Meets(s, t, k, x) && By(s.offers[x].owner, back) {
      OwnerWaits(s, t, k, x);
      if |back| == ServedMoves(s.threads[s.offers[x].owner]) {
        MeetingEnds(s, t, k, x, moves);
        PartnerEnds(Exec(Step, s, moves), s.offers[x].owner, back);
      }
    }
  }

  // ---------------------------------------------------------------- how often a call meets others

  /** The move is a head CAS that fails and sends its call to the array. */
  predicate CasFails(s: State, a: Action) {
    && a.tid < |s.threads| && (s.threads[a.tid].CasPush? || s.threads[a.tid].CasPop?)
    && a.tid < |Step(s, a).threads| && Step(s, a).threads[a.tid].Pick?
  }

  /** Failed head CASes of thread t since its last call began. */
  function Failures(init: State, schedule: seq<Action>, t: nat): nat {
    if schedule == [] then 0
    else
      var front, a := schedule[..|schedule| - 1], schedule[|schedule| - 1];
      var s := Exec(Step, init, front);
      if a.tid == t && AtRest(s, t) then 0
      else Failures(init, front, t) + if a.tid == t && CasFails(s, a) then 1 else 0
  }

  /** Changes of head, by anyone, since then. */
  function HeadChanges(init: State, schedule: seq<Action>, t: nat): nat {
    if schedule == [] then 0
    else
      var front, a := schedule[..|schedule| - 1], schedule[|schedule| - 1];
      var s := Exec(Step, init, front);
      if a.tid == t && AtRest(s, t) then 0
      else HeadChanges(init, front, t) + if Step(s, a).head != s.head then 1 else 0
  }

  /** Head is not what the thread has loaded. */
  predicate Stale(s: State, t: nat) {
    && t < |s.threads|
    && match s.threads[t]
       case Link(_, _, prev) => s.head != prev
       case CasPush(_, _, prev) => s.head != prev
       case ReadTop(p) => s.head != Some(p)
       case CasPop(p, _, _) => s.head != Some(p)
       case _ => false
  }

  lemma StaleStep(s: State, a: Action, t: nat)
    ensures !(a.tid == t && AtRest(s, t)) && Stale(Step(s, a), t) ==> Stale(s, t) || Step(s, a).head != s.head
    ensures a.tid == t && CasFails(s, a) ==> Stale(s, t) && !Stale(Step(s, a), t)
    ensures a.tid == t && AtRest(s, t) ==> !Stale(Step(s, a), t)
  {
  }

  lemma {:induction false} StaleCounts(init: State, schedule: seq<Action>, t: nat)
    requires !Stale(init, t)
    ensures Failures(init, schedule, t) + (if Stale(Exec(Step, init, schedule), t) then 1 else 0) <=
            HeadChanges(init, schedule, t)
    decreases |schedule|
  {
    if schedule != [] {
      var front, a := schedule[..|schedule| - 1], schedule[|schedule| - 1];
      StaleCounts(init, front, t);
      StaleStep(Exec(Step, init, front), a, t);
    }
  }

  /** A call has been sent to the array by a failed CAS at most as often as head has changed since it
      began: nothing but another thread's success makes it go round. */
  lemma FailuresAreBounded(threads: nat, slots: nat, spinLimit: nat, zero: Value, schedule: seq<Action>, t: nat)
    ensures
      var init := Init(threads, slots, spinLimit, zero);
      Failures(init, schedule, t) <= HeadChanges(init, schedule, t)
  {
    StaleCounts(Init(threads, slots, spinLimit, zero), schedule, t);
  }
}
