/** The life of an offer in the elimination array (stack/elimination_backoff_mpmc.go:117-193), in all
    runs, whether or not a Pop gives up its second wait. */
module EliminationOffers {
  import opened Wrappers
  import opened Schedules
  import opened Linearizability
  import opened EliminationStack

  /** What thread t knows about the offers it made or took. */
  ghost predicate ThreadShape(s: State, t: nat)
    requires t < |s.threads|
  {
    match s.threads[t]
    case Visit(c, _, k, m) => OwnsOffer(s, t, c, m) && s.offers[m].phase == Private && k < |s.slots|
    case Install(c, _, k, m) => OwnsOffer(s, t, c, m) && s.offers[m].phase == Private && k < |s.slots|
    case Take(c, _, k, m, x) =>
      && OwnsOffer(s, t, c, m) && s.offers[m].phase == Private && k < |s.slots|
      && x < |s.offers| && s.offers[x].isPush != c.Pusher?
    case Exchange(c, x) => x < |s.offers| && s.offers[x].phase == Taken(t) && s.offers[x].isPush != c.Pusher?
    case Signal(x, _) => x < |s.offers| && s.offers[x].phase == Taken(t)
    case Await(c, _, k, m, _) => OwnsOffer(s, t, c, m) && k < |s.slots| && Waiting(s.offers[m].phase, k)
    case Withdraw(c, _, k, m) => OwnsOffer(s, t, c, m) && k < |s.slots| && Waiting(s.offers[m].phase, k)
    case AwaitMatch(c, m, _) => OwnsOffer(s, t, c, m) && Matched(s.offers[m].phase)
    case Collect(m) => m < |s.offers| && s.offers[m].owner == t && !s.offers[m].isPush && Matched(s.offers[m].phase)
    case _ => true
  }

  predicate Matched(phase: Phase) { phase.Taken? || phase.Finished? }

  predicate Waiting(phase: Phase, k: nat) { phase == Offered(k) || Matched(phase) }

  ghost predicate Shape(s: State) {
    && (forall k :: 0 <= k < |s.slots| ==> SlotOk(s, k))
    && (forall x :: 0 <= x < |s.offers| ==> OfferOk(s, x))
    && (forall t :: 0 <= t < |s.threads| ==> ThreadShape(s, t))
  }

  // ---------------------------------------------------------------- the shape is kept

  /** A move of thread t that touches at most the offer m of thread w and the slot k. */
  lemma LocalKeepsShape(s: State, s': State, t: nat, w: nat, m: nat, k: nat)
    requires Shape(s) && Local(s, s', t, m, k)
    requires m < |s.offers| ==> w == s.offers[m].owner
    requires ThreadShape(s', t) && (w < |s.threads| ==> ThreadShape(s', w))
    requires (m < |s'.offers| ==> OfferOk(s', m)) && (k < |s.slots| ==> SlotOk(s', k))
    ensures Shape(s')
  {
    LocalKeepsArray(s, s', t, m, k);
    forall u | 0 <= u < |s'.threads| ensures ThreadShape(s', u) {
      if u != t && u != w { assert ThreadShape(s, u); }
    }
  }

  /** A move that touches no shared offer and no slot. */
  lemma AloneKeepsShape(s: State, s': State, t: nat)
    requires Shape(s) && Alone(s, s', t) && ThreadShape(s', t)
    ensures Shape(s')
  {
    assert forall x :: 0 <= x < |s.offers| ==> s'.offers[x] == s.offers[x];
    LocalKeepsShape(s, s', t, |s.threads|, |s.offers|, |s.slots|);
  }

  lemma InterfaceKeepsShape(s: State, a: Action)
    requires Shape(s) && a.tid < |s.threads| && IsInterfaceMove(s.threads[a.tid])
    ensures Shape(StepInterface(s, a))
  {
    AloneKeepsShape(s, StepInterface(s, a), a.tid);
  }

  /** No assumption here on who owns a node: the heap is no part of the shape. */
  lemma StackMoveKeepsShape(s: State, t: nat)
    requires Shape(s) && t < |s.threads| && RefsOk(s, s.threads[t]) && IsStackMove(s.threads[t])
    ensures Shape(StepStack(s, t))
  {
    var s', th := StepStack(s, t), StepStack(s, t).threads[t];
    assert s'.threads == s.threads[t := th] && IsIdle(th);
    assert s'.offers == s.offers && s'.slots == s.slots && s'.zero == s.zero;
    IdleMoveKeepsShape(s, s', t);
  }

  /** No offer in hand. */
  predicate IsIdle(th: Thread) {
    IsInterfaceMove(th) || IsStackMove(th) || th.Pick?
  }

  lemma IdleMoveKeepsShape(s: State, s': State, t: nat)
    requires Shape(s) && t < |s.threads| == |s'.threads| && s'.threads == s.threads[t := s'.threads[t]]
    requires IsIdle(s.threads[t]) && IsIdle(s'.threads[t])
    requires s'.offers == s.offers && s'.slots == s.slots && s'.zero == s.zero
    ensures Shape(s')
  {
    forall u | 0 <= u < |s'.threads| ensures ThreadShape(s', u) { assert ThreadShape(s, u); }
    forall x | 0 <= x < |s'.offers| ensures OfferOk(s', x) { assert OfferOk(s, x); }
    forall j | 0 <= j < |s'.slots| ensures SlotOk(s', j) { assert SlotOk(s, j); }
  }

  lemma SlotMoveKeepsShape(s: State, t: nat, choice: nat)
    requires Shape(s) && t < |s.threads| && RefsOk(s, s.threads[t]) && IsSlotMove(s.threads[t])
    ensures Shape(StepSlot(s, t, choice))
  {
    var s', th := StepSlot(s, t, choice), s.threads[t];
    assert ThreadShape(s, t);
    if th.Install? && s.slots[th.slot].None? {
      InstallKeepsShape(s, t, choice);
    } else if th.Take? && s.slots[th.slot] == Some(th.curr) {
      TakeKeepsShape(s, t, choice);
    } else {
      AloneKeepsShape(s, s', t);
    }
  }

  lemma InstallKeepsShape(s: State, t: nat, choice: nat)
    requires Shape(s) && t < |s.threads| && RefsOk(s, s.threads[t]) && s.threads[t].Install?
    requires s.slots[s.threads[t].slot].None?
    ensures Shape(StepSlot(s, t, choice))
  {
    var m := s.threads[t].mine;
    assert ThreadShape(s, t) && OfferOk(s, m);
    InstallIsLocal(s, t, choice);
    LocalKeepsShape(s, StepSlot(s, t, choice), t, t, m, s.threads[t].slot);
  }

  lemma TakeKeepsShape(s: State, t: nat, choice: nat)
    requires Shape(s) && t < |s.threads| && RefsOk(s, s.threads[t]) && s.threads[t].Take?
    requires s.slots[s.threads[t].slot] == Some(s.threads[t].curr)
    ensures Shape(StepSlot(s, t, choice))
  {
    var k, x := s.threads[t].slot, s.threads[t].curr;
    assert ThreadShape(s, t) && SlotOk(s, k) && OfferOk(s, x);
    assert ThreadShape(s, s.offers[x].owner);
    TakeIsLocal(s, t, choice);
    LocalKeepsShape(s, StepSlot(s, t, choice), t, s.offers[x].owner, x, k);
  }

  lemma MatchMoveKeepsShape(s: State, t: nat)
    requires Shape(s) && t < |s.threads| && RefsOk(s, s.threads[t]) && IsMatchMove(s.threads[t])
    ensures Shape(StepMatch(s, t))
  {
    var th := s.threads[t];
    if th.Exchange? || th.Signal? {
      ServeKeepsShape(s, t);
    } else if th.Withdraw? && s.slots[th.slot] == Some(th.mine) {
      WithdrawKeepsShape(s, t);
    } else {
      WaitKeepsShape(s, t);
    }
  }

  lemma WithdrawKeepsShape(s: State, t: nat)
    requires Shape(s) && t < |s.threads| && RefsOk(s, s.threads[t]) && s.threads[t].Withdraw?
    requires s.slots[s.threads[t].slot] == Some(s.threads[t].mine)
    ensures Shape(StepMatch(s, t))
  {
    var k, m := s.threads[t].slot, s.threads[t].mine;
    assert ThreadShape(s, t) && OfferOk(s, m) && SlotOk(s, k);
    WithdrawIsLocal(s, t);
    LocalKeepsShape(s, StepMatch(s, t), t, t, m, k);
  }

  /** Moves of a thread that waits or fetches. */
  lemma WaitKeepsShape(s: State, t: nat)
    requires Shape(s) && t < |s.threads| && RefsOk(s, s.threads[t]) && IsMatchMove(s.threads[t])
    requires !s.threads[t].Exchange? && !s.threads[t].Signal?
    requires s.threads[t].Withdraw? ==> s.slots[s.threads[t].slot] != Some(s.threads[t].mine)
    ensures Shape(StepMatch(s, t))
  {
    assert ThreadShape(s, t);
    if s.threads[t].Await? || s.threads[t].Withdraw? { assert OfferOk(s, s.threads[t].mine); }
    AloneKeepsShape(s, StepMatch(s, t), t);
  }

  lemma ServeKeepsShape(s: State, t: nat)
    requires Shape(s) && t < |s.threads| && RefsOk(s, s.threads[t]) && (s.threads[t].Exchange? || s.threads[t].Signal?)
    ensures Shape(StepMatch(s, t))
  {
    var x := s.threads[t].curr;
    assert ThreadShape(s, t) && OfferOk(s, x);
    var w := s.offers[x].owner;
    if w < |s.threads| { assert ThreadShape(s, w); }
    if s.threads[t].Exchange? { ExchangeIsLocal(s, t); } else { SignalIsLocal(s, t); }
    LocalKeepsShape(s, StepMatch(s, t), t, w, x, |s.slots|);
  }

  lemma StepKeepsShape(s: State, a: Action)
    requires Shape(s)
    ensures Shape(Step(s, a))
  {
    if a.tid < |s.threads| && RefsOk(s, s.threads[a.tid]) {
      var th := s.threads[a.tid];
      if IsInterfaceMove(th) { InterfaceKeepsShape(s, a); }
      else if IsStackMove(th) { StackMoveKeepsShape(s, a.tid); }
      else if IsSlotMove(th) { SlotMoveKeepsShape(s, a.tid, a.slot); }
      else { MatchMoveKeepsShape(s, a.tid); }
    }
  }

  lemma ShapeHolds(threads: nat, slots: nat, spinLimit: nat, zero: Value, schedule: seq<Action>)
    ensures Shape(Exec(Step, Init(threads, slots, spinLimit, zero), schedule))
  {
    forall s, a | Shape(s) ensures Shape(Step(s, a)) { StepKeepsShape(s, a); }
    Always(Step, Shape, Init(threads, slots, spinLimit, zero), schedule);
  }

  // ---------------------------------------------------------------- removals

  /** The step empties a slot of the offer x. */
  ghost predicate Removes(s: State, a: Action, x: nat) {
    exists k :: 0 <= k < |s.slots| && s.slots[k] == Some(x) && k < |Step(s, a).slots| && Step(s, a).slots[k] != Some(x)
  }

  /** The thread that moves withdraws its own offer, or takes one of the opposite kind. */
  predicate Entitled(s: State, t: nat, x: nat) {
    && t < |s.threads| && x < |s.offers|
    && (|| (s.threads[t].Withdraw? && s.threads[t].mine == x && s.offers[x].owner == t)
        || (s.threads[t].Take? && s.threads[t].curr == x && s.offers[x].isPush != s.threads[t].c.Pusher?))
  }

  /** The offer has been in a slot and is there no more. */
  predicate Removed(s: State, x: nat) {
    x < |s.offers| && (Matched(s.offers[x].phase) || s.offers[x].phase.Withdrawn?)
  }

  predicate TakesOffer(s: State, t: nat) {
    && t < |s.threads| && RefsOk(s, s.threads[t])
    && (|| (s.threads[t].Take? && s.slots[s.threads[t].slot] == Some(s.threads[t].curr))
        || (s.threads[t].Withdraw? && s.slots[s.threads[t].slot] == Some(s.threads[t].mine)))
  }

  lemma TakingRemoves(s: State, a: Action, x: nat)
    requires Shape(s) && TakesOffer(s, a.tid)
    ensures Removed(s, x) ==> Removed(Step(s, a), x)
    ensures Removes(s, a, x) <==> !Removed(s, x) && Removed(Step(s, a), x)
    ensures Removes(s, a, x) ==> Entitled(s, a.tid, x)
  {
    var th, s' := s.threads[a.tid], Step(s, a);
    assert ThreadShape(s, a.tid) && SlotOk(s, th.slot);
    if x == if th.Take? then th.curr else th.mine {
      assert s'.slots[th.slot] != Some(x);
    } else {
      assert forall k :: 0 <= k < |s.slots| && s.slots[k] == Some(x) ==> s'.slots[k] == Some(x);
    }
  }

  /** No other move empties a slot or changes what has been removed. */
  lemma OthersRemoveNothing(s: State, a: Action, x: nat)
    requires Shape(s) && !TakesOffer(s, a.tid)
    ensures !Removes(s, a, x) && (Removed(s, x) <==> Removed(Step(s, a), x))
  {
    if a.tid < |s.threads| && RefsOk(s, s.threads[a.tid]) {
      var th, s' := s.threads[a.tid], Step(s, a);
      assert ThreadShape(s, a.tid);
      assert forall k :: 0 <= k < |s.slots| && s.slots[k].Some? ==> s'.slots[k] == s.slots[k];
    }
  }

  lemma RemovalStep(s: State, a: Action, x: nat)
    requires Shape(s)
    ensures Removed(s, x) ==> Removed(Step(s, a), x)
    ensures Removes(s, a, x) <==> !Removed(s, x) && Removed(Step(s, a), x)
    ensures Removes(s, a, x) ==> Entitled(s, a.tid, x)
  {
    if TakesOffer(s, a.tid) { TakingRemoves(s, a, x); } else { OthersRemoveNothing(s, a, x); }
  }

  ghost function Removals(init: State, schedule: seq<Action>, x: nat): nat
    decreases |schedule|
  {
    if schedule == [] then 0
    else
      var front := schedule[..|schedule| - 1];
      Removals(init, front, x) + if Removes(Exec(Step, init, front), schedule[|schedule| - 1], x) then 1 else 0
  }

  /** In every run of the code an offer leaves the array at most once: exactly once if it has been
      taken, finished or withdrawn, and not at all before that. */
  lemma {:induction false} OfferIsRemovedOnce(
    threads: nat, slots: nat, spinLimit: nat, zero: Value, schedule: seq<Action>, x: nat)
    ensures
      var init := Init(threads, slots, spinLimit, zero);
      Removals(init, schedule, x) == if Removed(Exec(Step, init, schedule), x) then 1 else 0
    decreases |schedule|
  {
    if schedule != [] {
      var front := schedule[..|schedule| - 1];
      OfferIsRemovedOnce(threads, slots, spinLimit, zero, front, x);
      ShapeHolds(threads, slots, spinLimit, zero, front);
      RemovalStep(Exec(Step, Init(threads, slots, spinLimit, zero), front), schedule[|schedule| - 1], x);
    }
  }

  /** And it is removed by its owner's withdrawal or by one partner of the opposite kind. */
  lemma OnlyOwnerOrPartnerRemoves(
    threads: nat, slots: nat, spinLimit: nat, zero: Value, schedule: seq<Action>, a: Action, x: nat)
    ensures
      var s := Exec(Step, Init(threads, slots, spinLimit, zero), schedule);
      Removes(s, a, x) ==> Entitled(s, a.tid, x)
  {
    ShapeHolds(threads, slots, spinLimit, zero, schedule);
    RemovalStep(Exec(Step, Init(threads, slots, spinLimit, zero), schedule), a, x);
  }

  /** A finished exchange stays finished. */
  lemma FinishedStays(s: State, a: Action, x: nat)
    requires Shape(s) && x < |s.offers| && s.offers[x].phase.Finished?
    ensures x < |Step(s, a).offers| && Step(s, a).offers[x].phase.Finished?
  {
    if a.tid < |s.threads| && RefsOk(s, s.threads[a.tid]) {
      var th := s.threads[a.tid];
      assert ThreadShape(s, a.tid);
      if th.Take? || th.Withdraw? { assert SlotOk(s, th.slot); }
    }
  }
}
