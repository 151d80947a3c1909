/** stack/elimination_backoff_mpmc.go (and the CAS stack of stack/lockfree_mpmc.go under it).
    Any number of threads run Push and Pop; every action is one shared access of one thread.
    Nodes and offers are numbered in allocation order and never reused, as under a garbage
    collector. Three fields are bookkeeping that no step reads: `Node.owner`, `Offer.owner` and
    `Offer.phase`. The random slot of each visit is picked by the schedule. */
module EliminationStack {
  import opened Wrappers
  import opened Schedules
  import opened Linearizability

  type Value(==, 0, !new)

  const ATTEMPTS := 2

  datatype Op = Push(v: Value) | Pop
  datatype Res = Pushed | Popped(v: Value) | Empty

  datatype Node = Node(v: Value, next: Option<nat>, owner: Option<nat>)

  datatype Phase = Private | Offered(slot: nat) | Taken(taker: nat) | Finished | Withdrawn

  datatype Offer = Offer(isPush: bool, value: Value, done: bool, owner: nat, phase: Phase)

  /** The call a thread is inside of: what it came to do and where it resumes. */
  datatype Caller = Pusher(v: Value, node: nat) | Popper(sawEmpty: bool)

  datatype Thread =
    | Outside
    | LoadHead(c: Caller)                                                    // :48, :64
    | Link(v: Value, node: nat, prev: Option<nat>)                           // :49
    | CasPush(v: Value, node: nat, prev: Option<nat>)                        // :51
    | ReadTop(top: nat)                                                      // :75
    | CasPop(top: nat, v: Value, next: Option<nat>)                         // :76
    | Recheck                                                                // :69
    | Pick(c: Caller, attempt: nat)                                          // :87, :98
    | Visit(c: Caller, attempt: nat, slot: nat, mine: nat)                   // :121, :144
    | Install(c: Caller, attempt: nat, slot: nat, mine: nat)                 // :124, :147
    | Take(c: Caller, attempt: nat, slot: nat, mine: nat, curr: nat)         // :128, :151
    | Exchange(c: Caller, curr: nat)                                         // :129, :152
    | Signal(curr: nat, res: Res)                                            // :130, :153
    | Await(c: Caller, attempt: nat, slot: nat, mine: nat, spins: nat)       // :163, :175
    | Withdraw(c: Caller, attempt: nat, slot: nat, mine: nat)                // :166, :178
    | AwaitMatch(c: Caller, mine: nat, spins: nat)                           // :169, :181
    | Collect(mine: nat)                                                     // :176, :182
    | Returning(res: Res)

  /** `spinLimit` is eliminationWaitSpins and |slots| is eliminationArraySize; both are arbitrary. */
  datatype State = State(
    heap: seq<Node>, head: Option<nat>, offers: seq<Offer>, slots: seq<Option<nat>>,
    threads: seq<Thread>, zero: Value, spinLimit: nat, trace: seq<Event<Op, Res>>)

  datatype Action = Action(tid: nat, op: Op, slot: nat)

  function Init(threads: nat, slots: nat, spinLimit: nat, zero: Value): State {
    State([], None, [], seq(slots, i => None), seq(threads, i => Outside), zero, spinLimit, [])
  }

  function OpOf(c: Caller): Op {
    if c.Pusher? then Push(c.v) else Pop
  }

  // ---------------------------------------------------------------- the machine

  /** References held by a thread point into the heap and the arrays (they always do: see Sim). */
  predicate RefsOk(s: State, th: Thread) {
    match th
    case Link(_, n, _) => n < |s.heap|
    case ReadTop(p) => p < |s.heap|
    case Visit(_, _, k, m) => k < |s.slots|
    case Install(_, _, k, m) => k < |s.slots| && m < |s.offers|
    case Take(_, _, k, m, x) => k < |s.slots| && x < |s.offers|
    case CasPush(_, n, _) => n < |s.heap|
    case Exchange(_, x) => x < |s.offers|
    case Signal(x, _) => x < |s.offers|
    case Await(_, _, _, m, _) => m < |s.offers|
    case Withdraw(_, _, k, m) => k < |s.slots| && m < |s.offers|
    case AwaitMatch(_, m, _) => m < |s.offers|
    case Collect(m) => m < |s.offers|
    case _ => true
  }

  function Goto(s: State, t: nat, th: Thread): State
    requires t < |s.threads|
  {
    s.(threads := s.threads[t := th])
  }

  function Step(s: State, a: Action): State {
    if a.tid < |s.threads| && RefsOk(s, s.threads[a.tid])
    then
      if IsInterfaceMove(s.threads[a.tid]) then StepInterface(s, a)
      else if IsStackMove(s.threads[a.tid]) then StepStack(s, a.tid)
      else if IsSlotMove(s.threads[a.tid]) then StepSlot(s, a.tid, a.slot)
      else StepMatch(s, a.tid)
    else s
  }

  predicate IsInterfaceMove(th: Thread) {
    th.Outside? || th.Returning?
  }

  predicate IsStackMove(th: Thread) {
    th.LoadHead? || th.Link? || th.CasPush? || th.ReadTop? || th.CasPop? || th.Recheck?
  }

  predicate IsSlotMove(th: Thread) {
    th.Pick? || th.Visit? || th.Install? || th.Take?
  }

  predicate IsMatchMove(th: Thread) {
    !IsInterfaceMove(th) && !IsStackMove(th) && !IsSlotMove(th)
  }

  function StepInterface(s: State, a: Action): State
    requires a.tid < |s.threads| && IsInterfaceMove(s.threads[a.tid])
  {
    var t := a.tid;
    match s.threads[t]
    case Outside =>
      var called := s.(trace := s.trace + [Call(t, a.op)]);
      (match a.op
       case Push(v) =>
         Goto(called.(heap := s.heap + [Node(v, None, Some(t))]), t, LoadHead(Pusher(v, |s.heap|)))
       case Pop => Goto(called, t, LoadHead(Popper(false))))
    case Returning(res) => Goto(s.(trace := s.trace + [Return(t, res)]), t, Outside)
  }

  /** Push and Pop on the head pointer, :45-84. */
  function StepStack(s: State, t: nat): State
    requires t < |s.threads| && RefsOk(s, s.threads[t]) && IsStackMove(s.threads[t])
  {
    match s.threads[t]
    case LoadHead(c) =>
      if c.Pusher? then Goto(s, t, Link(c.v, c.node, s.head))
      else if s.head.None? then Goto(s, t, Pick(Popper(true), 0))
      else Goto(s, t, ReadTop(s.head.value))
    case Link(v, n, prev) =>
      Goto(s.(heap := s.heap[n := s.heap[n].(next := prev)]), t, CasPush(v, n, prev))
    case CasPush(v, n, prev) =>
      if s.head == prev
      then Goto(s.(head := Some(n), heap := s.heap[n := s.heap[n].(owner := None)]), t, Returning(Pushed))
      else Goto(s, t, Pick(Pusher(v, n), 0))
    case ReadTop(p) => Goto(s, t, CasPop(p, s.heap[p].v, s.heap[p].next))
    case CasPop(p, v, next) =>
      if s.head == Some(p) then Goto(s.(head := next), t, Returning(Popped(v)))
      else Goto(s, t, Pick(Popper(false), 0))
    case Recheck =>
      if s.head.None? then Goto(s, t, Returning(Empty)) else Goto(s, t, LoadHead(Popper(false)))
  }

  /** Looking for a partner in the elimination array, :86-160. */
  function StepSlot(s: State, t: nat, choice: nat): State
    requires t < |s.threads| && RefsOk(s, s.threads[t]) && IsSlotMove(s.threads[t])
  {
    match s.threads[t]
    case Pick(c, att) =>
      if att < ATTEMPTS then
        if choice < |s.slots| then
          var offer := Offer(c.Pusher?, if c.Pusher? then c.v else s.zero, false, t, Private);
          Goto(s.(offers := s.offers + [offer]), t, Visit(c, att, choice, |s.offers|))
        else s
      else if c.Popper? && c.sawEmpty then Goto(s, t, Recheck)
      else Goto(s, t, LoadHead(if c.Pusher? then c else Popper(false)))
    case Visit(c, att, k, m) =>
      (match s.slots[k]
       case None => Goto(s, t, Install(c, att, k, m))
       case Some(x) =>
         if x < |s.offers| && s.offers[x].isPush != c.Pusher? then Goto(s, t, Take(c, att, k, m, x))
         else Goto(s, t, Pick(c, att + 1)))
    case Install(c, att, k, m) =>
      if s.slots[k].None?
      then Goto(s.(slots := s.slots[k := Some(m)], offers := s.offers[m := s.offers[m].(phase := Offered(k))]),
                t, Await(c, att, k, m, 0))
      else Goto(s, t, Visit(c, att, k, m))
    case Take(c, att, k, m, x) =>
      if s.slots[k] == Some(x)
      then Goto(s.(slots := s.slots[k := None], offers := s.offers[x := s.offers[x].(phase := Taken(t))]),
                t, Exchange(c, x))
      else Goto(s, t, Visit(c, att, k, m))
  }

  /** Handing the value over and waiting for it, :129-130, :152-153, :162-193. */
  function StepMatch(s: State, t: nat): State
    requires t < |s.threads| && RefsOk(s, s.threads[t]) && IsMatchMove(s.threads[t])
  {
    match s.threads[t]
    case Exchange(c, x) =>
      if c.Pusher? then Goto(s.(offers := s.offers[x := s.offers[x].(value := c.v)]), t, Signal(x, Pushed))
      else Goto(s, t, Signal(x, Popped(s.offers[x].value)))
    case Signal(x, res) =>
      Goto(s.(offers := s.offers[x := s.offers[x].(done := true, phase := Finished)]), t, Returning(res))
    case Await(c, att, k, m, spins) =>
      if s.offers[m].done then Matched(s, t, c, m)
      else if spins < s.spinLimit then Goto(s, t, Await(c, att, k, m, spins + 1))
      else Goto(s, t, Withdraw(c, att, k, m))
    case Withdraw(c, att, k, m) =>
      if s.slots[k] == Some(m)
      then Goto(s.(slots := s.slots[k := None], offers := s.offers[m := s.offers[m].(phase := Withdrawn)]),
                t, Pick(c, att + 1))
      else Goto(s, t, AwaitMatch(c, m, 0))
    case AwaitMatch(c, m, spins) =>
      if s.offers[m].done || spins >= s.spinLimit then Matched(s, t, c, m)
      else Goto(s, t, AwaitMatch(c, m, spins + 1))
    case Collect(m) => Goto(s, t, Returning(Popped(s.offers[m].value)))
  }

  function Matched(s: State, t: nat, c: Caller, m: nat): State
    requires t < |s.threads|
  {
    Goto(s, t, if c.Pusher? then Returning(Pushed) else Collect(m))
  }

  /** A Pop that has left its second wait (:181) before `done` fetches the value (:182) before its
      partner has stored it (:129). */
  predicate CollectsEarly(s: State, a: Action) {
    && a.tid < |s.threads| && s.threads[a.tid].Collect? && s.threads[a.tid].mine < |s.offers|
    && s.offers[s.threads[a.tid].mine].phase.Taken?
    && s.offers[s.threads[a.tid].mine].phase.taker < |s.threads|
    && s.threads[s.offers[s.threads[a.tid].mine].phase.taker].Exchange?
  }

  /** The machine in which that never happens. */
  function CarefulStep(s: State, a: Action): State {
    if CollectsEarly(s, a) then s else Step(s, a)
  }

  // ---------------------------------------------------------------- the specification

  /** An atomic stack, top first; Pop answers Empty exactly when nothing is on it. */
  function StackSpec(): Spec<seq<Value>, Op, Res> {
    Spec((o: Object<seq<Value>, Op, Res>, t: nat, res: Res) =>
           t < |o.status| && o.status[t].Called? &&
           match o.status[t].op
           case Push(v) => res == Pushed
           case Pop => res == (if o.value == [] then Empty else Popped(o.value[0])),
         (q: seq<Value>, op: Op, res: Res) =>
           match op
           case Push(v) => [v] + q
           case Pop => if q == [] then q else q[1..])
  }

  type Stack = Object<seq<Value>, Op, Res>

  // ---------------------------------------------------------------- the simulation

  function At(spine: seq<nat>, i: nat): Option<nat> {
    if i < |spine| then Some(spine[i]) else None
  }

  /** Head points to the nodes `spine`, linked in this order and carrying the stack's values. */
  ghost predicate HeapOk(s: State, o: Stack, spine: seq<nat>) {
    && |spine| == |o.value|
    && s.head == At(spine, 0)
    && (forall i :: 0 <= i < |spine| ==> spine[i] < |s.heap| && s.heap[spine[i]].owner == None)
    && (forall i :: 0 <= i < |spine| ==> s.heap[spine[i]].v == o.value[i])
    && (forall i :: 0 <= i < |spine| ==> s.heap[spine[i]].next == At(spine, i + 1))
    && (forall i, j :: 0 <= i < j < |spine| ==> spine[i] != spine[j])
  }

  ghost predicate SlotOk(s: State, k: nat)
    requires k < |s.slots|
  {
    s.slots[k].Some? ==> s.slots[k].value < |s.offers| && s.offers[s.slots[k].value].phase == Offered(k)
  }

  predicate WaitsOn(th: Thread, x: nat, k: nat) {
    || (th.Await? && th.mine == x && th.slot == k)
    || (th.Withdraw? && th.mine == x && th.slot == k)
  }

  predicate Serves(th: Thread, x: nat) {
    (th.Exchange? && th.curr == x) || (th.Signal? && th.curr == x)
  }

  predicate Holds(th: Thread, x: nat) {
    (th.Visit? || th.Install? || th.Take? || th.Await? || th.Withdraw? || th.AwaitMatch? || th.Collect?) && th.mine == x
  }

  /** The plain store :129 into an offer in this phase may have happened. */
  predicate Stored(s: State, phase: Phase) {
    match phase
    case Taken(u) => u < |s.threads| ==> !s.threads[u].Exchange?
    case Finished => true
    case _ => false
  }

  ghost predicate OfferOk(s: State, x: nat)
    requires x < |s.offers|
  {
    var f := s.offers[x];
    && (f.done <==> f.phase.Finished?)
    && (!f.isPush && !Stored(s, f.phase) ==> f.value == s.zero)
    && match f.phase
       case Offered(k) =>
         k < |s.slots| && s.slots[k] == Some(x) && f.owner < |s.threads| && WaitsOn(s.threads[f.owner], x, k)
       case Taken(u) => u < |s.threads| && Serves(s.threads[u], x)
       case _ => true
  }

  /** The value a taken offer is about to hold or holds. */
  function Handed(s: State, x: nat): Value
    requires x < |s.offers|
  {
    var f := s.offers[x];
    if f.phase.Taken? && f.phase.taker < |s.threads| && s.threads[f.phase.taker].Exchange? &&
       s.threads[f.phase.taker].c.Pusher?
    then s.threads[f.phase.taker].c.v
    else f.value
  }

  ghost predicate OwnsNode(s: State, t: nat, c: Caller) {
    c.Pusher? ==> c.node < |s.heap| && s.heap[c.node].owner == Some(t) && s.heap[c.node].v == c.v
  }

  ghost predicate OwnsOffer(s: State, t: nat, c: Caller, m: nat) {
    && m < |s.offers| && s.offers[m].owner == t && s.offers[m].isPush == c.Pusher?
    && (c.Pusher? ==> s.offers[m].value == c.v)
  }

  /** The published offer m of thread t is still in slot k, or has been matched, and then t's
      operation has already taken effect. */
  ghost predicate Published(s: State, o: Stack, t: nat, c: Caller, m: nat)
    requires t < |o.status|
  {
    && OwnsOffer(s, t, c, m)
    && match s.offers[m].phase
       case Offered(_) => o.status[t] == Called(OpOf(c))
       case Taken(_) => o.status[t] == Answered(if c.Pusher? then Pushed else Popped(Handed(s, m)))
       case Finished => o.status[t] == Answered(if c.Pusher? then Pushed else Popped(Handed(s, m)))
       case _ => false
  }

  ghost predicate ThreadOk(s: State, o: Stack, t: nat)
    requires t < |s.threads| == |o.status|
  {
    match s.threads[t]
    case Outside => o.status[t] == Resting
    case LoadHead(c) => OwnsNode(s, t, c) && o.status[t] == Called(OpOf(c))
    case Link(v, n, prev) => OwnsNode(s, t, Pusher(v, n)) && o.status[t] == Called(Push(v))
    case CasPush(v, n, prev) =>
      OwnsNode(s, t, Pusher(v, n)) && s.heap[n].next == prev && o.status[t] == Called(Push(v))
    case ReadTop(p) => p < |s.heap| && s.heap[p].owner == None && o.status[t] == Called(Pop)
    case CasPop(p, v, next) => p < |s.heap| && s.heap[p] == Node(v, next, None) && o.status[t] == Called(Pop)
    case Recheck => o.status[t] == Called(Pop)
    case Pick(c, att) => OwnsNode(s, t, c) && o.status[t] == Called(OpOf(c))
    case Visit(c, att, k, m) =>
      && OwnsNode(s, t, c) && OwnsOffer(s, t, c, m) && s.offers[m].phase == Private && k < |s.slots|
      && o.status[t] == Called(OpOf(c))
    case Install(c, att, k, m) =>
      && OwnsNode(s, t, c) && OwnsOffer(s, t, c, m) && s.offers[m].phase == Private && k < |s.slots|
      && o.status[t] == Called(OpOf(c))
    case Take(c, att, k, m, x) =>
      && OwnsNode(s, t, c) && OwnsOffer(s, t, c, m) && s.offers[m].phase == Private && k < |s.slots|
      && x < |s.offers| && s.offers[x].isPush != c.Pusher?
      && o.status[t] == Called(OpOf(c))
    case Exchange(c, x) =>
      && x < |s.offers| && s.offers[x].phase == Taken(t) && s.offers[x].isPush != c.Pusher?
      && o.status[t] == Answered(if c.Pusher? then Pushed else Popped(s.offers[x].value))
    case Signal(x, res) => x < |s.offers| && s.offers[x].phase == Taken(t) && o.status[t] == Answered(res)
    case Await(c, att, k, m, spins) =>
      && OwnsNode(s, t, c) && Published(s, o, t, c, m) && k < |s.slots|
      && (s.offers[m].phase.Offered? ==> s.offers[m].phase.slot == k)
    case Withdraw(c, att, k, m) =>
      && OwnsNode(s, t, c) && Published(s, o, t, c, m) && k < |s.slots|
      && (s.offers[m].phase.Offered? ==> s.offers[m].phase.slot == k)
    case AwaitMatch(c, m, spins) => Published(s, o, t, c, m) && !s.offers[m].phase.Offered?
    case Collect(m) =>
      && m < |s.offers| && s.offers[m].owner == t && !s.offers[m].isPush
      && (s.offers[m].phase.Taken? || s.offers[m].phase.Finished?)
      && o.status[t] == Answered(Popped(Handed(s, m)))
    case Returning(res) => o.status[t] == Answered(res)
  }

  ghost predicate Sim(s: State, o: Stack, spine: seq<nat>) {
    && |s.threads| == |o.status|
    && HeapOk(s, o, spine)
    && (forall k :: 0 <= k < |s.slots| ==> SlotOk(s, k))
    && (forall x :: 0 <= x < |s.offers| ==> OfferOk(s, x))
    && (forall t :: 0 <= t < |s.threads| ==> ThreadOk(s, o, t))
  }

  ghost predicate Simulates(s: State, o: Stack, s': State, effects: seq<Event<Op, Res>>, o': Stack) {
    && Play(StackSpec(), o, effects) == Some(o')
    && s'.trace == s.trace + Visible(effects)
    && exists spine' :: Sim(s', o', spine')
  }

  /** Nothing thread u relies on differs between s and s'. */
  ghost predicate Undisturbed(s: State, s': State, u: nat) {
    && u < |s.threads| == |s'.threads| && s'.threads[u] == s.threads[u]
    && |s.slots| == |s'.slots|
    && |s.heap| <= |s'.heap|
    && (forall n :: 0 <= n < |s.heap| && (s.heap[n].owner == None || s.heap[n].owner == Some(u)) ==>
          s'.heap[n] == s.heap[n])
    && |s.offers| <= |s'.offers|
    && (forall x :: 0 <= x < |s.offers| ==> s'.offers[x].isPush == s.offers[x].isPush)
    && (forall x :: 0 <= x < |s.offers| && (Holds(s.threads[u], x) || Serves(s.threads[u], x)) ==>
          s'.offers[x] == s.offers[x] && Handed(s', x) == Handed(s, x))
  }

  lemma Frame(s: State, o: Stack, s': State, o': Stack, u: nat)
    requires Undisturbed(s, s', u)
    requires |s.threads| == |o.status| == |o'.status| && o'.status[u] == o.status[u]
    requires ThreadOk(s, o, u)
    ensures ThreadOk(s', o', u)
  {
  }

  /** What a move of thread t leaves alone: everything but its own private node, the offer m
      (owned by w, not served by a third thread) and the slot k holding m. */
  ghost predicate Local(s: State, s': State, t: nat, m: nat, k: nat) {
    && t < |s.threads| == |s'.threads| && s'.threads == s.threads[t := s'.threads[t]]
    && |s.heap| <= |s'.heap|
    && (forall n :: 0 <= n < |s.heap| && s.heap[n].owner != Some(t) ==> s'.heap[n] == s.heap[n])
    && |s.offers| <= |s'.offers| && |s.slots| == |s'.slots| && s'.zero == s.zero
    && (forall x :: 0 <= x < |s.offers| ==> s'.offers[x].isPush == s.offers[x].isPush)
    && (forall x :: 0 <= x < |s.offers| && x != m ==> s'.offers[x] == s.offers[x])
    && (forall x :: |s.offers| <= x < |s'.offers| ==>
          s'.offers[x].phase.Private? && !s'.offers[x].done && (s'.offers[x].isPush || s'.offers[x].value == s'.zero))
    && (forall j :: 0 <= j < |s.slots| && j != k ==> s'.slots[j] == s.slots[j])
    && (k < |s.slots| ==> s.slots[k] == None || s.slots[k] == Some(m))
    && (m < |s.offers| ==>
          match s.offers[m].phase
          case Offered(j) => j == k
          case Taken(u) => u == t
          case _ => true)
    && (forall x: nat :: Serves(s.threads[t], x) ==> x == m)
    && (forall x: nat, j: nat :: WaitsOn(s.threads[t], x, j) ==>
          x == m || WaitsOn(s'.threads[t], x, j) || (x < |s.offers| && !s.offers[x].phase.Offered?))
  }

  lemma SimulateLocal(s: State, o: Stack, spine: seq<nat>, s': State, o': Stack, spine': seq<nat>,
                      t: nat, w: nat, m: nat, k: nat)
    requires Sim(s, o, spine) && Local(s, s', t, m, k)
    requires |o'.status| == |o.status|
    requires forall u :: 0 <= u < |o.status| && u != t && u != w ==> o'.status[u] == o.status[u]
    requires m < |s.offers| ==> w == s.offers[m].owner
    requires HeapOk(s', o', spine')
    requires ThreadOk(s', o', t) && (w < |s.threads| ==> ThreadOk(s', o', w))
    requires (m < |s'.offers| ==> OfferOk(s', m)) && (k < |s.slots| ==> SlotOk(s', k))
    ensures Sim(s', o', spine')
  {
    LocalKeepsArray(s, s', t, m, k);
    KeepsHanded(s, s', t, m);
    forall u | 0 <= u < |s'.threads| ensures ThreadOk(s', o', u) {
      if u != t && u != w { LocalKeepsThread(s, o, s', o', t, m, k, u); }
    }
  }

  lemma LocalKeepsThread(s: State, o: Stack, s': State, o': Stack, t: nat, m: nat, k: nat, u: nat)
    requires Local(s, s', t, m, k) && u < |s.threads| == |o.status| == |o'.status| && u != t
    requires m < |s.offers| ==> u != s.offers[m].owner
    requires o'.status[u] == o.status[u] && ThreadOk(s, o, u)
    requires forall x :: 0 <= x < |s.offers| && x != m ==> Handed(s', x) == Handed(s, x)
    ensures ThreadOk(s', o', u)
  {
    Frame(s, o, s', o', u);
  }

  /** The offers and slots that a local move leaves alone. */
  lemma LocalKeepsArray(s: State, s': State, t: nat, m: nat, k: nat)
    requires Local(s, s', t, m, k)
    requires forall x :: 0 <= x < |s.offers| ==> OfferOk(s, x)
    requires forall j :: 0 <= j < |s.slots| ==> SlotOk(s, j)
    requires (m < |s'.offers| ==> OfferOk(s', m)) && (k < |s.slots| ==> SlotOk(s', k))
    ensures forall x :: 0 <= x < |s'.offers| ==> OfferOk(s', x)
    ensures forall j :: 0 <= j < |s'.slots| ==> SlotOk(s', j)
  {
    forall x | 0 <= x < |s'.offers| ensures OfferOk(s', x) {
      if x < |s.offers| && x != m { LocalKeepsOffer(s, s', t, m, k, x); }
    }
    forall j | 0 <= j < |s'.slots| ensures SlotOk(s', j) { assert SlotOk(s, j); }
  }

  lemma LocalKeepsOffer(s: State, s': State, t: nat, m: nat, k: nat, x: nat)
    requires Local(s, s', t, m, k) && x < |s.offers| && x != m && OfferOk(s, x)
    ensures OfferOk(s', x)
  {
  }

  /** A thread that serves no offer does not change what the others hand over. */
  lemma KeepsHanded(s: State, s': State, t: nat, m: nat)
    requires forall x :: 0 <= x < |s.offers| ==> OfferOk(s, x)
    requires |s.offers| <= |s'.offers|
    requires forall x :: 0 <= x < |s.offers| && x != m ==> s'.offers[x] == s.offers[x]
    requires t < |s.threads| == |s'.threads| && s'.threads == s.threads[t := s'.threads[t]]
    requires forall x: nat :: Serves(s.threads[t], x) ==> x == m
    ensures forall x :: 0 <= x < |s.offers| && x != m ==> Handed(s', x) == Handed(s, x)
  {
    forall x | 0 <= x < |s.offers| && x != m ensures Handed(s', x) == Handed(s, x) {
      assert OfferOk(s, x);
    }
  }

  predicate Waits(th: Thread) { th.Await? || th.Withdraw? }

  /** A move of thread t that touches no shared offer and no slot: it may change its own private
      node and allocate a private offer, and it does not stop waiting on an open offer. */
  ghost predicate Alone(s: State, s': State, t: nat) {
    && t < |s.threads| == |s'.threads| && s'.threads == s.threads[t := s'.threads[t]]
    && |s.heap| <= |s'.heap|
    && (forall n :: 0 <= n < |s.heap| && s.heap[n].owner != Some(t) ==> s'.heap[n] == s.heap[n])
    && s.offers <= s'.offers && s'.slots == s.slots && s'.zero == s.zero
    && (forall x :: |s.offers| <= x < |s'.offers| ==>
          s'.offers[x].phase.Private? && !s'.offers[x].done && (s'.offers[x].isPush || s'.offers[x].value == s'.zero))
    && !s.threads[t].Exchange? && !s.threads[t].Signal?
    && (Waits(s.threads[t]) ==>
          || (Waits(s'.threads[t]) && s'.threads[t].mine == s.threads[t].mine &&
              s'.threads[t].slot == s.threads[t].slot)
          || (s.threads[t].mine < |s.offers| && !s.offers[s.threads[t].mine].phase.Offered?))
  }

  lemma SimulateAlone(s: State, o: Stack, spine: seq<nat>, s': State, o': Stack, spine': seq<nat>, t: nat)
    requires Sim(s, o, spine) && Alone(s, s', t)
    requires |o'.status| == |o.status| && o'.status == o.status[t := o'.status[t]]
    requires HeapOk(s', o', spine') && ThreadOk(s', o', t)
    ensures Sim(s', o', spine')
  {
    assert forall x :: 0 <= x < |s.offers| ==> s'.offers[x] == s.offers[x];
    SimulateLocal(s, o, spine, s', o', spine', t, |s.threads|, |s.offers|, |s.slots|);
  }

  /** A move that changes nothing but the thread's own program counter. */
  lemma SimulateGoto(s: State, o: Stack, spine: seq<nat>, s': State, o': Stack, t: nat)
    requires Sim(s, o, spine) && t < |s.threads| == |s'.threads|
    requires s' == s.(threads := s.threads[t := s'.threads[t]], trace := s'.trace) && Alone(s, s', t)
    requires o' == Object(o.value, o'.status)
    requires |o'.status| == |o.status| && o'.status == o.status[t := o'.status[t]] && ThreadOk(s', o', t)
    ensures Sim(s', o', spine)
  {
    assert HeapOk(s', o', spine);
    SimulateAlone(s, o, spine, s', o', spine, t);
  }

  lemma Calling(o: Stack, t: nat, op: Op) returns (effects: seq<Event<Op, Res>>, o': Stack)
    requires t < |o.status| && o.status[t].Resting?
    ensures effects == Visible(effects) == [Call(t, op)] && Play(StackSpec(), o, effects) == Some(o')
    ensures o' == Object(o.value, o.status[t := Called(op)])
  {
    effects := [Call(t, op)];
    PlayOne(StackSpec(), o, effects[0]);
    o' := Apply(StackSpec(), o, effects[0]).value;
  }

  lemma SimulateCall(s: State, o: Stack, spine: seq<nat>, a: Action)
    returns (effects: seq<Event<Op, Res>>, o': Stack)
    requires Sim(s, o, spine) && a.tid < |s.threads| && s.threads[a.tid].Outside?
    ensures Simulates(s, o, StepInterface(s, a), effects, o')
  {
    assert ThreadOk(s, o, a.tid);
    effects, o' := Calling(o, a.tid, a.op);
    if a.op.Pop? {
      SimulateGoto(s, o, spine, StepInterface(s, a), o', a.tid);
    } else {
      PushCallKeepsSim(s, o, spine, a, o');
    }
  }

  /** A Push allocates its node. */
  lemma PushCallKeepsSim(s: State, o: Stack, spine: seq<nat>, a: Action, o': Stack)
    requires Sim(s, o, spine) && a.tid < |s.threads| && s.threads[a.tid].Outside? && a.op.Push?
    requires o' == Object(o.value, o.status[a.tid := Called(a.op)])
    ensures Sim(StepInterface(s, a), o', spine)
  {
    var s' := StepInterface(s, a);
    assert forall n :: 0 <= n < |s.heap| ==> s'.heap[n] == s.heap[n];
    assert HeapOk(s', o', spine) && ThreadOk(s', o', a.tid);
    SimulateAlone(s, o, spine, s', o', spine, a.tid);
  }

  lemma SimulateReturn(s: State, o: Stack, spine: seq<nat>, a: Action)
    returns (effects: seq<Event<Op, Res>>, o': Stack)
    requires Sim(s, o, spine) && a.tid < |s.threads| && s.threads[a.tid].Returning?
    ensures Simulates(s, o, StepInterface(s, a), effects, o')
  {
    var e := Return(a.tid, s.threads[a.tid].res);
    assert ThreadOk(s, o, a.tid);
    PlayOne(StackSpec(), o, e);
    effects, o' := [e], Apply(StackSpec(), o, e).value;
    SimulateGoto(s, o, spine, StepInterface(s, a), o', a.tid);
  }

  // Push and Pop on the head pointer: they take effect at their CAS, an empty Pop at :69.

  lemma HeapPush(s: State, o: Stack, spine: seq<nat>, n: nat, s': State, o': Stack)
    requires HeapOk(s, o, spine) && n < |s.heap| && s.heap[n].owner != None && s.heap[n].next == s.head
    requires s'.head == Some(n) && s'.heap == s.heap[n := s.heap[n].(owner := None)]
    requires o'.value == [s.heap[n].v] + o.value
    ensures HeapOk(s', o', [n] + spine)
  {
    var spine' := [n] + spine;
    forall i | 0 <= i < |spine'|
      ensures spine'[i] < |s'.heap| && s'.heap[spine'[i]] == Node(o'.value[i], At(spine', i + 1), None)
    {
      if i > 0 { assert s'.heap[spine[i - 1]] == s.heap[spine[i - 1]]; }
    }
  }

  /** A pending operation takes effect with the one answer the stack allows. */
  lemma TakesEffect(o: Stack, t: nat, res: Res) returns (effects: seq<Event<Op, Res>>, o': Stack)
    requires t < |o.status| && o.status[t].Called?
    requires res == match o.status[t].op
                    case Push(_) => Pushed
                    case Pop => if o.value == [] then Empty else Popped(o.value[0])
    ensures effects == [Effect(t, res)] && Visible(effects) == [] && Play(StackSpec(), o, effects) == Some(o')
    ensures o'.status == o.status[t := Answered(res)]
    ensures o'.value == match o.status[t].op
                        case Push(v) => [v] + o.value
                        case Pop => if o.value == [] then [] else o.value[1..]
  {
    effects := [Effect(t, res)];
    PlayOne(StackSpec(), o, effects[0]);
    o' := Apply(StackSpec(), o, effects[0]).value;
  }

  lemma SimulatePushCas(s: State, o: Stack, spine: seq<nat>, t: nat)
    returns (effects: seq<Event<Op, Res>>, o': Stack)
    requires Sim(s, o, spine) && t < |s.threads| && s.threads[t].CasPush? && s.head == s.threads[t].prev
    ensures RefsOk(s, s.threads[t])
    ensures Simulates(s, o, StepStack(s, t), effects, o')
  {
    assert ThreadOk(s, o, t);
    var s' := StepStack(s, t);
    effects, o' := TakesEffect(o, t, Pushed);
    HeapPush(s, o, spine, s.threads[t].node, s', o');
    SimulateAlone(s, o, spine, s', o', [s.threads[t].node] + spine, t);
  }

  lemma HeapPop(s: State, o: Stack, spine: seq<nat>, s': State, o': Stack)
    requires HeapOk(s, o, spine) && spine != []
    requires s'.heap == s.heap && s'.head == s.heap[spine[0]].next && o'.value == o.value[1..]
    ensures HeapOk(s', o', spine[1..])
  {
    var spine' := spine[1..];
    assert s.heap[spine[0]].next == At(spine, 1);
    forall i | 0 <= i < |spine'|
      ensures s'.heap[spine'[i]] == Node(o'.value[i], At(spine', i + 1), None)
    {
      assert spine'[i] == spine[i + 1] && s.heap[spine[i + 1]].next == At(spine, i + 2);
    }
  }

  lemma SimulatePopCas(s: State, o: Stack, spine: seq<nat>, t: nat)
    returns (effects: seq<Event<Op, Res>>, o': Stack)
    requires Sim(s, o, spine) && t < |s.threads| && s.threads[t].CasPop? && s.head == Some(s.threads[t].top)
    ensures Simulates(s, o, StepStack(s, t), effects, o')
  {
    assert ThreadOk(s, o, t);
    var s' := StepStack(s, t);
    assert s.heap[spine[0]].v == o.value[0];
    effects, o' := TakesEffect(o, t, Popped(s.threads[t].v));
    HeapPop(s, o, spine, s', o');
    SimulateAlone(s, o, spine, s', o', spine[1..], t);
  }

  lemma SimulateEmpty(s: State, o: Stack, spine: seq<nat>, t: nat)
    returns (effects: seq<Event<Op, Res>>, o': Stack)
    requires Sim(s, o, spine) && t < |s.threads| && s.threads[t].Recheck? && s.head.None?
    ensures Simulates(s, o, StepStack(s, t), effects, o')
  {
    assert ThreadOk(s, o, t);
    effects, o' := TakesEffect(o, t, Empty);
    SimulateGoto(s, o, spine, StepStack(s, t), o', t);
  }

  /** Loading the head and reading the top node. */
  lemma SimulateRead(s: State, o: Stack, spine: seq<nat>, t: nat)
    requires Sim(s, o, spine) && t < |s.threads| && (s.threads[t].LoadHead? || s.threads[t].ReadTop?)
    ensures RefsOk(s, s.threads[t])
    ensures Sim(StepStack(s, t), o, spine)
  {
    assert ThreadOk(s, o, t);
    assert spine != [] ==> s.heap[spine[0]].owner == None;
    SimulateGoto(s, o, spine, StepStack(s, t), o, t);
  }

  lemma SimulateLink(s: State, o: Stack, spine: seq<nat>, t: nat)
    requires Sim(s, o, spine) && t < |s.threads| && s.threads[t].Link?
    ensures RefsOk(s, s.threads[t])
    ensures Sim(StepStack(s, t), o, spine)
  {
    assert ThreadOk(s, o, t);
    var s' := StepStack(s, t);
    forall i | 0 <= i < |spine| ensures s'.heap[spine[i]] == s.heap[spine[i]] { assert s.heap[spine[i]].owner == None; }
    SimulateAlone(s, o, spine, s', o, spine, t);
  }

  lemma SimulateRetry(s: State, o: Stack, spine: seq<nat>, t: nat)
    requires Sim(s, o, spine) && t < |s.threads|
    requires s.threads[t].CasPush? || s.threads[t].CasPop? || s.threads[t].Recheck?
    requires s.threads[t].CasPush? ==> s.head != s.threads[t].prev
    requires s.threads[t].CasPop? ==> s.head != Some(s.threads[t].top)
    requires s.threads[t].Recheck? ==> s.head.Some?
    ensures RefsOk(s, s.threads[t])
    ensures Sim(StepStack(s, t), o, spine)
  {
    assert ThreadOk(s, o, t);
    SimulateGoto(s, o, spine, StepStack(s, t), o, t);
  }

  // The exchange.

  /** A push immediately followed by a pop: both are answered and the stack is as before. */
  lemma PushThenPop(o: Stack, pusher: nat, v: Value, popper: nat)
    returns (effects: seq<Event<Op, Res>>, o': Stack)
    requires pusher < |o.status| && popper < |o.status| && pusher != popper
    requires o.status[pusher] == Called(Push(v)) && o.status[popper] == Called(Pop)
    ensures Play(StackSpec(), o, effects) == Some(o') && Visible(effects) == []
    ensures o' == Object(o.value, o.status[pusher := Answered(Pushed)][popper := Answered(Popped(v))])
  {
    effects := [Effect(pusher, Pushed), Effect(popper, Popped(v))];
    PlayTwo(StackSpec(), o, effects[0], effects[1]);
    var mid := Apply(StackSpec(), o, effects[0]).value;
    assert mid.value == [v] + o.value && mid.value[1..] == o.value;
    o' := Apply(StackSpec(), mid, effects[1]).value;
  }

  // The four moves that touch a shared offer touch nothing else that is shared.

  lemma TakeIsLocal(s: State, t: nat, choice: nat)
    requires t < |s.threads| && RefsOk(s, s.threads[t]) && s.threads[t].Take?
    requires s.slots[s.threads[t].slot] == Some(s.threads[t].curr)
    requires OfferOk(s, s.threads[t].curr) && s.offers[s.threads[t].curr].phase == Offered(s.threads[t].slot)
    requires s.offers[s.threads[t].curr].isPush != s.threads[t].c.Pusher?
    ensures var s', k, x := StepSlot(s, t, choice), s.threads[t].slot, s.threads[t].curr;
            && Local(s, s', t, x, k) && |s'.offers| == |s.offers|
            && OfferOk(s', x) && SlotOk(s', k)
            && s'.offers[x] == s.offers[x].(phase := Taken(t)) && s'.threads[t] == Exchange(s.threads[t].c, x)
            && s'.heap == s.heap && s'.head == s.head && s'.trace == s.trace
  {
  }

  lemma InstallIsLocal(s: State, t: nat, choice: nat)
    requires t < |s.threads| && RefsOk(s, s.threads[t]) && s.threads[t].Install?
    requires s.slots[s.threads[t].slot].None?
    requires OfferOk(s, s.threads[t].mine) && s.offers[s.threads[t].mine].phase == Private
    requires s.offers[s.threads[t].mine].owner == t
    ensures var s', k, m := StepSlot(s, t, choice), s.threads[t].slot, s.threads[t].mine;
            && Local(s, s', t, m, k) && |s'.offers| == |s.offers|
            && OfferOk(s', m) && SlotOk(s', k) && s'.offers[m] == s.offers[m].(phase := Offered(k))
            && s'.threads[t] == Await(s.threads[t].c, s.threads[t].attempt, k, m, 0)
            && s'.heap == s.heap && s'.head == s.head && s'.trace == s.trace
  {
  }

  lemma WithdrawIsLocal(s: State, t: nat)
    requires t < |s.threads| && RefsOk(s, s.threads[t]) && s.threads[t].Withdraw?
    requires s.slots[s.threads[t].slot] == Some(s.threads[t].mine)
    requires OfferOk(s, s.threads[t].mine) && s.offers[s.threads[t].mine].phase == Offered(s.threads[t].slot)
    ensures var s', k, m := StepMatch(s, t), s.threads[t].slot, s.threads[t].mine;
            && Local(s, s', t, m, k) && |s'.offers| == |s.offers|
            && OfferOk(s', m) && SlotOk(s', k) && s'.offers[m] == s.offers[m].(phase := Withdrawn)
            && s'.threads[t] == Pick(s.threads[t].c, s.threads[t].attempt + 1)
            && s'.heap == s.heap && s'.head == s.head && s'.trace == s.trace
  {
  }

  lemma ExchangeIsLocal(s: State, t: nat)
    requires t < |s.threads| && RefsOk(s, s.threads[t]) && s.threads[t].Exchange?
    requires OfferOk(s, s.threads[t].curr) && s.offers[s.threads[t].curr].phase == Taken(t)
    requires s.offers[s.threads[t].curr].isPush != s.threads[t].c.Pusher?
    ensures var s', c, x := StepMatch(s, t), s.threads[t].c, s.threads[t].curr;
            && Local(s, s', t, x, |s.slots|) && OfferOk(s', x) && Handed(s', x) == Handed(s, x)
            && s'.offers == s.offers[x := if c.Pusher? then s.offers[x].(value := c.v) else s.offers[x]]
            && s'.threads[t] == Signal(x, if c.Pusher? then Pushed else Popped(s.offers[x].value))
            && s'.heap == s.heap && s'.head == s.head && s'.slots == s.slots && s'.trace == s.trace
  {
  }

  lemma SignalIsLocal(s: State, t: nat)
    requires t < |s.threads| && RefsOk(s, s.threads[t]) && s.threads[t].Signal?
    requires OfferOk(s, s.threads[t].curr) && s.offers[s.threads[t].curr].phase == Taken(t)
    ensures var s', x := StepMatch(s, t), s.threads[t].curr;
            && Local(s, s', t, x, |s.slots|) && OfferOk(s', x) && Handed(s', x) == Handed(s, x)
            && s'.offers == s.offers[x := s.offers[x].(done := true, phase := Finished)]
            && s'.threads[t] == Returning(s.threads[t].res)
            && s'.heap == s.heap && s'.head == s.head && s'.slots == s.slots && s'.trace == s.trace
  {
  }

  /** Taking an offer is the moment at which both sides take effect: the push, then the pop. */
  lemma SimulateTake(s: State, o: Stack, spine: seq<nat>, t: nat, choice: nat)
    returns (effects: seq<Event<Op, Res>>, o': Stack)
    requires Sim(s, o, spine) && t < |s.threads| && s.threads[t].Take?
    requires RefsOk(s, s.threads[t]) && s.slots[s.threads[t].slot] == Some(s.threads[t].curr)
    ensures Simulates(s, o, StepSlot(s, t, choice), effects, o')
  {
    var Take(c, att, k, m, x) := s.threads[t];
    assert ThreadOk(s, o, t) && SlotOk(s, k) && OfferOk(s, x);
    var w := s.offers[x].owner;
    assert ThreadOk(s, o, w) && w != t;
    if c.Pusher? {
      effects, o' := PushThenPop(o, t, c.v, w);
    } else {
      effects, o' := PushThenPop(o, w, s.offers[x].value, t);
    }
    TakeIsLocal(s, t, choice);
    TakeKeepsSim(s, o, spine, t, choice, o');
  }

  lemma TakeKeepsSim(s: State, o: Stack, spine: seq<nat>, t: nat, choice: nat, o': Stack)
    requires Sim(s, o, spine) && t < |s.threads| && s.threads[t].Take? && RefsOk(s, s.threads[t])
    requires s.slots[s.threads[t].slot] == Some(s.threads[t].curr) && s.offers[s.threads[t].curr].owner != t
    requires
      var x := s.threads[t].curr;
      var w, value := s.offers[x].owner, if s.threads[t].c.Pusher? then s.threads[t].c.v else s.offers[x].value;
      && w < |o.status| && o'.value == o.value
      && o'.status == if s.threads[t].c.Pusher? then o.status[t := Answered(Pushed)][w := Answered(Popped(value))]
                      else o.status[w := Answered(Pushed)][t := Answered(Popped(value))]
    ensures Sim(StepSlot(s, t, choice), o', spine)
  {
    var s', k, x := StepSlot(s, t, choice), s.threads[t].slot, s.threads[t].curr;
    var w := s.offers[x].owner;
    assert ThreadOk(s, o, t) && SlotOk(s, k) && OfferOk(s, x) && ThreadOk(s, o, w);
    TakeIsLocal(s, t, choice);
    assert ThreadOk(s', o', t) && ThreadOk(s', o', w);
    SimulateLocal(s, o, spine, s', o', spine, t, w, x, k);
  }

  lemma SimulatePick(s: State, o: Stack, spine: seq<nat>, t: nat, choice: nat)
    requires Sim(s, o, spine) && t < |s.threads| && s.threads[t].Pick?
    ensures Sim(StepSlot(s, t, choice), o, spine)
  {
    assert ThreadOk(s, o, t);
    assert ThreadOk(StepSlot(s, t, choice), o, t);
    SimulateAlone(s, o, spine, StepSlot(s, t, choice), o, spine, t);
  }

  /** Looking at a slot, and failing to take what was in it. */
  lemma SimulateLook(s: State, o: Stack, spine: seq<nat>, t: nat, choice: nat)
    requires Sim(s, o, spine) && t < |s.threads| && RefsOk(s, s.threads[t])
    requires s.threads[t].Visit? || s.threads[t].Take?
    requires s.threads[t].Take? ==> s.slots[s.threads[t].slot] != Some(s.threads[t].curr)
    ensures Sim(StepSlot(s, t, choice), o, spine)
  {
    assert ThreadOk(s, o, t);
    SimulateGoto(s, o, spine, StepSlot(s, t, choice), o, t);
  }

  lemma SimulateInstall(s: State, o: Stack, spine: seq<nat>, t: nat, choice: nat)
    requires Sim(s, o, spine) && t < |s.threads| && RefsOk(s, s.threads[t]) && s.threads[t].Install?
    ensures Sim(StepSlot(s, t, choice), o, spine)
  {
    var s', k, m := StepSlot(s, t, choice), s.threads[t].slot, s.threads[t].mine;
    assert ThreadOk(s, o, t) && OfferOk(s, m);
    if s.slots[k].None? {
      InstallIsLocal(s, t, choice);
      SimulateLocal(s, o, spine, s', o, spine, t, t, m, k);
    } else {
      SimulateGoto(s, o, spine, s', o, t);
    }
  }

  /** The waiting side, :162-183: a wait ends with `done`, or with a withdrawal. */
  lemma SimulateAwait(s: State, o: Stack, spine: seq<nat>, t: nat)
    requires Sim(s, o, spine) && t < |s.threads| && RefsOk(s, s.threads[t]) && s.threads[t].Await?
    ensures Sim(StepMatch(s, t), o, spine)
  {
    assert ThreadOk(s, o, t) && OfferOk(s, s.threads[t].mine);
    assert ThreadOk(StepMatch(s, t), o, t);
    SimulateGoto(s, o, spine, StepMatch(s, t), o, t);
  }

  lemma SimulateAwaitMatch(s: State, o: Stack, spine: seq<nat>, t: nat)
    requires Sim(s, o, spine) && t < |s.threads| && RefsOk(s, s.threads[t]) && s.threads[t].AwaitMatch?
    ensures Sim(StepMatch(s, t), o, spine)
  {
    assert ThreadOk(s, o, t) && OfferOk(s, s.threads[t].mine);
    SimulateGoto(s, o, spine, StepMatch(s, t), o, t);
  }

  lemma SimulateCollect(s: State, o: Stack, spine: seq<nat>, t: nat)
    requires Sim(s, o, spine) && t < |s.threads| && RefsOk(s, s.threads[t]) && s.threads[t].Collect?
    requires !CollectsEarly(s, Action(t, Pop, 0))
    ensures Sim(StepMatch(s, t), o, spine)
  {
    assert ThreadOk(s, o, t);
    SimulateGoto(s, o, spine, StepMatch(s, t), o, t);
  }

  lemma SimulateWithdraw(s: State, o: Stack, spine: seq<nat>, t: nat)
    requires Sim(s, o, spine) && t < |s.threads| && RefsOk(s, s.threads[t]) && s.threads[t].Withdraw?
    ensures Sim(StepMatch(s, t), o, spine)
  {
    var k, m := s.threads[t].slot, s.threads[t].mine;
    assert ThreadOk(s, o, t) && OfferOk(s, m) && SlotOk(s, k);
    if s.slots[k] == Some(m) {
      WithdrawIsLocal(s, t);
      SimulateLocal(s, o, spine, StepMatch(s, t), o, spine, t, t, m, k);
    } else {
      SimulateGoto(s, o, spine, StepMatch(s, t), o, t);
    }
  }

  /** What the owner of a taken offer knows survives the moves of its partner. */
  lemma ServedOwner(s: State, o: Stack, s': State, t: nat, w: nat, x: nat)
    requires |s.threads| == |o.status| && t < |s.threads| && w < |s.threads| && w != t
    requires forall y :: 0 <= y < |s.offers| ==> OfferOk(s, y)
    requires x < |s.offers| && s.offers[x].phase == Taken(t) && ThreadOk(s, o, w)
    requires s.threads[t].Exchange? || s.threads[t].Signal?
    requires s.threads[t].curr == x && s'.heap == s.heap && s'.slots == s.slots
    requires |s'.threads| == |s.threads| && s'.threads == s.threads[t := s'.threads[t]]
    requires |s'.offers| == |s.offers| && s'.offers == s.offers[x := s'.offers[x]]
    requires s'.offers[x].isPush == s.offers[x].isPush && s'.offers[x].owner == s.offers[x].owner
    requires s'.offers[x].phase == Taken(t) || s'.offers[x].phase == Finished
    requires Handed(s', x) == Handed(s, x) && (s.offers[x].isPush ==> s'.offers[x].value == s.offers[x].value)
    ensures ThreadOk(s', o, w)
  {
    KeepsHanded(s, s', t, x);
    assert OfferOk(s, x);
    if !Holds(s.threads[w], x) {
      assert !Serves(s.threads[w], x);
      Frame(s, o, s', o, w);
    }
  }

  /** The serving side: hand the value over (:129, :152), then signal (:130, :153). */
  lemma SimulateExchange(s: State, o: Stack, spine: seq<nat>, t: nat)
    requires Sim(s, o, spine) && t < |s.threads| && RefsOk(s, s.threads[t]) && s.threads[t].Exchange?
    ensures Sim(StepMatch(s, t), o, spine)
  {
    var s', x := StepMatch(s, t), s.threads[t].curr;
    assert ThreadOk(s, o, t) && OfferOk(s, x);
    ExchangeIsLocal(s, t);
    var w := s.offers[x].owner;
    if w < |s.threads| && w != t { assert ThreadOk(s, o, w); ServedOwner(s, o, s', t, w, x); }
    SimulateLocal(s, o, spine, s', o, spine, t, w, x, |s.slots|);
  }

  lemma SimulateSignal(s: State, o: Stack, spine: seq<nat>, t: nat)
    requires Sim(s, o, spine) && t < |s.threads| && RefsOk(s, s.threads[t]) && s.threads[t].Signal?
    ensures Sim(StepMatch(s, t), o, spine)
  {
    var s', x := StepMatch(s, t), s.threads[t].curr;
    assert ThreadOk(s, o, t) && OfferOk(s, x);
    SignalIsLocal(s, t);
    var w := s.offers[x].owner;
    if w < |s.threads| && w != t { assert ThreadOk(s, o, w); ServedOwner(s, o, s', t, w, x); }
    SimulateLocal(s, o, spine, s', o, spine, t, w, x, |s.slots|);
  }

  // ---------------------------------------------------------------- main results

  ghost predicate Inv(s: State, threads: nat) {
    exists history, o, spine ::
      Explains(StackSpec(), Fresh([], threads), history, s.trace, o) && Sim(s, o, spine)
  }

  lemma SimulateQuiet(s: State, o: Stack, spine: seq<nat>, t: nat, choice: nat)
    requires Sim(s, o, spine) && t < |s.threads| && RefsOk(s, s.threads[t])
    requires IsSlotMove(s.threads[t]) || IsMatchMove(s.threads[t])
    requires s.threads[t].Take? ==> s.slots[s.threads[t].slot] != Some(s.threads[t].curr)
    requires !CollectsEarly(s, Action(t, Pop, 0))
    ensures Sim(if IsSlotMove(s.threads[t]) then StepSlot(s, t, choice) else StepMatch(s, t), o, spine)
  {
    match s.threads[t]
    case Pick(_, _) => SimulatePick(s, o, spine, t, choice);
    case Install(_, _, _, _) => SimulateInstall(s, o, spine, t, choice);
    case Visit(_, _, _, _) => SimulateLook(s, o, spine, t, choice);
    case Take(_, _, _, _, _) => SimulateLook(s, o, spine, t, choice);
    case Await(_, _, _, _, _) => SimulateAwait(s, o, spine, t);
    case AwaitMatch(_, _, _) => SimulateAwaitMatch(s, o, spine, t);
    case Withdraw(_, _, _, _) => SimulateWithdraw(s, o, spine, t);
    case Exchange(_, _) => SimulateExchange(s, o, spine, t);
    case Signal(_, _) => SimulateSignal(s, o, spine, t);
    case Collect(_) => SimulateCollect(s, o, spine, t);
  }

  lemma SimulateStep(s: State, o: Stack, spine: seq<nat>, a: Action)
    returns (effects: seq<Event<Op, Res>>, o': Stack)
    requires Sim(s, o, spine) && a.tid < |s.threads| && RefsOk(s, s.threads[a.tid]) && !CollectsEarly(s, a)
    ensures Simulates(s, o, Step(s, a), effects, o')
  {
    var t := a.tid;
    var th := s.threads[t];
    effects, o' := [], o;
    if th.Outside? { effects, o' := SimulateCall(s, o, spine, a); }
    else if th.Returning? { effects, o' := SimulateReturn(s, o, spine, a); }
    else if th.CasPush? && s.head == th.prev { effects, o' := SimulatePushCas(s, o, spine, t); }
    else if th.CasPop? && s.head == Some(th.top) { effects, o' := SimulatePopCas(s, o, spine, t); }
    else if th.Recheck? && s.head.None? { effects, o' := SimulateEmpty(s, o, spine, t); }
    else if th.Take? && s.slots[th.slot] == Some(th.curr) { effects, o' := SimulateTake(s, o, spine, t, a.slot); }
    else if th.LoadHead? || th.ReadTop? { SimulateRead(s, o, spine, t); }
    else if th.Link? { SimulateLink(s, o, spine, t); }
    else if IsStackMove(th) { SimulateRetry(s, o, spine, t); }
    else { SimulateQuiet(s, o, spine, t, a.slot); }
  }

  lemma StepKeepsInv(s: State, a: Action, threads: nat)
    requires Inv(s, threads)
    ensures Inv(CarefulStep(s, a), threads)
  {
    var history, o, spine :|
      Explains(StackSpec(), Fresh([], threads), history, s.trace, o) && Sim(s, o, spine);
    if a.tid < |s.threads| && RefsOk(s, s.threads[a.tid]) && !CollectsEarly(s, a) {
      var effects, o' := SimulateStep(s, o, spine, a);
      Chain(StackSpec(), Fresh([], threads), history, s.trace, o, effects, o');
    }
  }

  lemma InvHolds(threads: nat, slots: nat, spinLimit: nat, zero: Value, schedule: seq<Action>)
    ensures Inv(Exec(CarefulStep, Init(threads, slots, spinLimit, zero), schedule), threads)
  {
    var init := Init(threads, slots, spinLimit, zero);
    var o := Fresh<seq<Value>, Op, Res>([], threads);
    assert Explains(StackSpec(), o, [], init.trace, o) && Sim(init, o, []);
    forall s, a | Inv(s, threads) ensures Inv(CarefulStep(s, a), threads) { StepKeepsInv(s, a, threads); }
    Always(CarefulStep, s => Inv(s, threads), init, schedule);
  }

  /** Every run in which no Pop collects before its partner's store is linearizable to a stack. */
  lemma StackIsLinearizable(threads: nat, slots: nat, spinLimit: nat, zero: Value, schedule: seq<Action>)
    ensures Linearizable(StackSpec(), Fresh([], threads),
                         Exec(CarefulStep, Init(threads, slots, spinLimit, zero), schedule).trace)
  {
    InvHolds(threads, slots, spinLimit, zero, schedule);
  }

  /** Thread u is not about to touch the node that t links, nor the offer value that t hands over
      or fetches; and t's references do not dangle. */
  predicate Separate(s: State, t: nat, u: nat)
    requires t < |s.threads| && u < |s.threads|
  {
    && RefsOk(s, s.threads[t])
    && (s.threads[t].Link? ==>
          var n := s.threads[t].node;
          && s.head != Some(n)
          && (s.threads[u].Link? || s.threads[u].CasPush? ==> s.threads[u].node != n)
          && (s.threads[u].ReadTop? || s.threads[u].CasPop? ==> s.threads[u].top != n))
    && (s.threads[t].Exchange? ==>
          var x := s.threads[t].curr;
          && (s.threads[u].Exchange? || s.threads[u].Signal? ==> s.threads[u].curr != x)
          && (s.threads[u].Collect? ==> s.threads[u].mine != x))
  }

  lemma SimSeparates(s: State, o: Stack, spine: seq<nat>, t: nat, u: nat)
    requires Sim(s, o, spine) && t < |s.threads| && u < |s.threads| && t != u
    requires !CollectsEarly(s, Action(u, Pop, 0))
    ensures Separate(s, t, u)
  {
    assert ThreadOk(s, o, t) && ThreadOk(s, o, u);
    if spine != [] { assert s.heap[spine[0]].owner == None; }
    if s.threads[t].Visit? { assert SlotOk(s, s.threads[t].slot); }
  }

  /** The plain accesses exclude each other: of two threads that can both move, only one is about to
      touch a given node's next or a given offer's value. */
  lemma PlainFieldsAreOwned(threads: nat, slots: nat, spinLimit: nat, zero: Value, schedule: seq<Action>,
                            t: nat, u: nat)
    requires t != u
    ensures var s := Exec(CarefulStep, Init(threads, slots, spinLimit, zero), schedule);
            t < |s.threads| && u < |s.threads| && !CollectsEarly(s, Action(u, Pop, 0)) ==> Separate(s, t, u)
  {
    InvHolds(threads, slots, spinLimit, zero, schedule);
    var s := Exec(CarefulStep, Init(threads, slots, spinLimit, zero), schedule);
    var history, o, spine :| Explains(StackSpec(), Fresh([], threads), history, s.trace, o) && Sim(s, o, spine);
    if t < |s.threads| && u < |s.threads| && !CollectsEarly(s, Action(u, Pop, 0)) {
      SimSeparates(s, o, spine, t, u);
    }
  }
}
