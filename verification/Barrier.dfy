/** syncx/barriers.go, SenseReversingBarrier: exactly `count` threads call Wait over and over. The
    release word is a uint32 and wraps. Bookkeeping that no step reads: `epoch`, the number of
    releases so far, and for each party the number of seats it has taken (`arrived`) and of Waits
    it has returned from (`returned`). */
module Barrier {
  import opened Schedules
  import opened Counting

  const UINT32 := 0x1_0000_0000

  datatype Pc =
    | Outside
    | LoadRelease                 // :104
    | TakeSeat(release: int)      // :106
    | ResetSeats                  // :107
    | Publish                     // :108
    | SpinRelease(release: int)   // :112

  datatype Party = Party(pc: Pc, arrived: nat, returned: nat)

  datatype State = State(release: int, seats: int, parties: seq<Party>, epoch: nat)

  function Init(count: nat): State {
    State(0, count, seq(count, i => Party(Outside, 0, 0)), 0)
  }

  function Set(s: State, t: nat, p: Party): State
    requires t < |s.parties|
  {
    s.(parties := s.parties[t := p])
  }

  function Step(s: State, t: nat): State {
    if t < |s.parties| then
      var p := s.parties[t];
      match p.pc
      case Outside => Set(s, t, p.(pc := LoadRelease))
      case LoadRelease => Set(s, t, p.(pc := TakeSeat(s.release)))
      case TakeSeat(r) =>
        Set(s.(seats := s.seats - 1), t,
            p.(pc := if s.seats - 1 == 0 then ResetSeats else SpinRelease(r), arrived := p.arrived + 1))
      case ResetSeats => Set(s.(seats := |s.parties|), t, p.(pc := Publish))
      case Publish =>
        Set(s.(release := (s.release + 1) % UINT32, epoch := s.epoch + 1), t,
            p.(pc := Outside, returned := p.returned + 1))
      case SpinRelease(r) =>
        if s.release == r then s else Set(s, t, p.(pc := Outside, returned := p.returned + 1))
    else s
  }

  /** The party has taken its seat in round r. */
  function Seated(r: nat): Party -> nat {
    (p: Party) => if p.arrived == r + 1 then 1 else 0
  }

  function Resetting(p: Party): nat { if p.pc.ResetSeats? then 1 else 0 }

  function Publishing(p: Party): nat { if p.pc.Publish? then 1 else 0 }

  ghost predicate PartyOk(s: State, t: nat)
    requires t < |s.parties|
  {
    var p := s.parties[t];
    match p.pc
    case Outside => p.arrived == p.returned == s.epoch
    case LoadRelease => p.arrived == p.returned == s.epoch
    case TakeSeat(r) => p.arrived == p.returned == s.epoch && r == s.release
    case ResetSeats => p.arrived == p.returned + 1 == s.epoch + 1
    case Publish => p.arrived == p.returned + 1 == s.epoch + 1
    case SpinRelease(r) =>
      && p.arrived == p.returned + 1
      && ((p.returned == s.epoch && r == s.release) || (p.returned + 1 == s.epoch && (r + 1) % UINT32 == s.release))
      && 0 <= r < UINT32
  }

  ghost predicate Inv(s: State, count: nat) {
    var seated := Sum(Seated(s.epoch), s.parties);
    && |s.parties| == count
    && s.release == s.epoch % UINT32
    && (forall t :: 0 <= t < count ==> PartyOk(s, t))
    && Sum(Resetting, s.parties) + Sum(Publishing, s.parties) == (if count > 0 && seated == count then 1 else 0)
    && s.seats == (if Sum(Publishing, s.parties) > 0 then count else count - seated)
  }

  lemma SumsMove(s: State, t: nat, p: Party)
    requires t < |s.parties|
    ensures
      var parties := s.parties[t := p];
      && Sum(Seated(s.epoch), parties) + Seated(s.epoch)(s.parties[t]) ==
         Sum(Seated(s.epoch), s.parties) + Seated(s.epoch)(p)
      && Sum(Resetting, parties) + Resetting(s.parties[t]) == Sum(Resetting, s.parties) + Resetting(p)
      && Sum(Publishing, parties) + Publishing(s.parties[t]) == Sum(Publishing, s.parties) + Publishing(p)
  {
    SumUpdate(Seated(s.epoch), s.parties, t, p);
    SumUpdate(Resetting, s.parties, t, p);
    SumUpdate(Publishing, s.parties, t, p);
  }

  /** Publishing ends the round: everyone was seated in it and nobody is seated in the next. */
  lemma PublishKeepsInv(s: State, t: nat, count: nat)
    requires Inv(s, count) && t < count && s.parties[t].pc.Publish?
    ensures Inv(Step(s, t), count)
  {
    var s' := Step(s, t);
    SumsMove(s, t, s'.parties[t]);
    SumAtLeast(Publishing, s.parties, t);
    CountAll(Seated(s.epoch), s.parties);
    forall u | 0 <= u < count ensures PartyOk(s', u) && Seated(s'.epoch)(s'.parties[u]) == 0 {
      PublishKeepsParty(s, t, u, count);
    }
    SumZero(Seated(s'.epoch), s'.parties);
  }

  lemma PublishKeepsParty(s: State, t: nat, u: nat, count: nat)
    requires Inv(s, count) && t < count && u < count && s.parties[t].pc.Publish?
    requires Seated(s.epoch)(s.parties[u]) == 1
    ensures var s' := Step(s, t); PartyOk(s', u) && Seated(s'.epoch)(s'.parties[u]) == 0
  {
    assert PartyOk(s, u);
    if u != t && Publishing(s.parties[u]) + Resetting(s.parties[u]) == 1 { OneLast(s, t, u, count); }
  }

  lemma OneLast(s: State, t: nat, u: nat, count: nat)
    requires Inv(s, count) && t < count && u < count && s.parties[t].pc.Publish?
    requires s.parties[u].pc.Publish? || s.parties[u].pc.ResetSeats?
    ensures u == t
  {
    SumAtLeast(Publishing, s.parties, t);
    SumAtLeast(Resetting, s.parties, u);
    if u < t { SumAtLeastTwo(Publishing, s.parties, u, t); }
    if t < u { SumAtLeastTwo(Publishing, s.parties, t, u); }
  }

  lemma SeatKeepsInv(s: State, t: nat, count: nat)
    requires Inv(s, count) && t < count && s.parties[t].pc.TakeSeat?
    ensures Inv(Step(s, t), count)
  {
    var s' := Step(s, t);
    assert PartyOk(s, t) && Seated(s.epoch)(s.parties[t]) == 0;
    SumsMove(s, t, s'.parties[t]);
    CountAll(Seated(s.epoch), s.parties);
    forall u | 0 <= u < count ensures PartyOk(s', u) { assert PartyOk(s, u); }
  }

  /** The last arriver puts the seats back. */
  lemma ResetKeepsInv(s: State, t: nat, count: nat)
    requires Inv(s, count) && t < count && s.parties[t].pc.ResetSeats?
    ensures Inv(Step(s, t), count)
  {
    var s' := Step(s, t);
    assert PartyOk(s, t);
    SumsMove(s, t, s'.parties[t]);
    SumAtLeast(Resetting, s.parties, t);
    forall u | 0 <= u < count ensures PartyOk(s', u) { assert PartyOk(s, u); }
  }

  lemma OtherKeepsInv(s: State, t: nat, count: nat)
    requires Inv(s, count) && t < count
    requires s.parties[t].pc.Outside? || s.parties[t].pc.LoadRelease? || s.parties[t].pc.SpinRelease?
    ensures Inv(Step(s, t), count)
  {
    var s' := Step(s, t);
    assert PartyOk(s, t);
    SumsMove(s, t, s'.parties[t]);
    forall u | 0 <= u < count ensures PartyOk(s', u) { assert PartyOk(s, u); }
  }

  lemma InvHolds(count: nat, schedule: seq<nat>)
    ensures Inv(Exec(Step, Init(count), schedule), count)
  {
    var init := Init(count);
    SumZero(Seated(0), init.parties); SumZero(Resetting, init.parties); SumZero(Publishing, init.parties);
    forall s, t: nat | Inv(s, count) ensures Inv(Step(s, t), count) {
      if t < count {
        if s.parties[t].pc.Publish? { PublishKeepsInv(s, t, count); }
        else if s.parties[t].pc.TakeSeat? { SeatKeepsInv(s, t, count); }
        else if s.parties[t].pc.ResetSeats? { ResetKeepsInv(s, t, count); }
        else { OtherKeepsInv(s, t, count); }
      }
    }
    Always(Step, s => Inv(s, count), init, schedule);
  }

  /** Whoever has returned from a round finds that everyone has taken a seat in it; parties are
      never more than one round apart; and all this for any number of rounds, wrapping or not. */
  lemma RoundsAreSeparated(count: nat, schedule: seq<nat>, t: nat, u: nat)
    ensures
      var s := Exec(Step, Init(count), schedule);
      t < |s.parties| && u < |s.parties| ==>
        && s.parties[t].returned <= s.parties[u].arrived
        && s.parties[t].returned <= s.parties[u].returned + 1
        && s.release == s.epoch % UINT32
  {
    InvHolds(count, schedule);
    var s := Exec(Step, Init(count), schedule);
    if t < |s.parties| && u < |s.parties| { assert PartyOk(s, t) && PartyOk(s, u); }
  }

  predicate CanMove(s: State, t: nat) {
    t < |s.parties| && Step(s, t) != s
  }

  lemma SomeoneCanMove(s: State, count: nat) returns (t: nat)
    requires Inv(s, count) && count > 0
    ensures t < count && Step(s, t).parties[t].pc != s.parties[t].pc
  {
    if forall u :: 0 <= u < count ==> s.parties[u].pc.SpinRelease? && s.parties[u].pc.release == s.release {
      forall u | 0 <= u < count ensures Seated(s.epoch)(s.parties[u]) == 1 { assert PartyOk(s, u); }
      CountAll(Seated(s.epoch), s.parties);
      SumZero(Resetting, s.parties);
      SumZero(Publishing, s.parties);
      assert false;
    }
    t :| t < count && !(s.parties[t].pc.SpinRelease? && s.parties[t].pc.release == s.release);
  }

  /** Not everyone can be stuck in the spin loop. */
  lemma NotAllStuck(count: nat, schedule: seq<nat>)
    requires count > 0
    ensures exists t :: CanMove(Exec(Step, Init(count), schedule), t)
  {
    InvHolds(count, schedule);
    var t := SomeoneCanMove(Exec(Step, Init(count), schedule), count);
    assert CanMove(Exec(Step, Init(count), schedule), t);
  }

  // ---------------------------------------------------------------- rounds go on

  /** Moves a party can still make before it must wait for round e to end. */
  function MovesLeft(e: nat): Party -> nat {
    (p: Party) =>
      match p.pc
      case SpinRelease(_) => if p.returned == e then 0 else 6
      case Outside => 5
      case LoadRelease => 4
      case TakeSeat(_) => 3
      case ResetSeats => 2
      case Publish => 1
  }

  /** The move is not one more look at a release word that has not changed. */
  predicate Advances(s: State, t: nat) { Step(s, t) != s }

  function Work(s: State): nat { Sum(MovesLeft(s.epoch), s.parties) }

  lemma MoveIsPaid(s: State, t: nat, count: nat)
    requires Inv(s, count) && Advances(s, t)
    ensures
      var s' := Step(s, t);
      if s'.epoch == s.epoch then Work(s') < Work(s) else s'.epoch == s.epoch + 1 && Work(s) > 0
  {
    assert PartyOk(s, t);
    SumUpdate(MovesLeft(s.epoch), s.parties, t, Step(s, t).parties[t]);
    SumAtLeast(MovesLeft(s.epoch), s.parties, t);
  }

  /** Six moves for each party and each round begun. */
  function Budget(count: nat, epoch: nat): nat { 6 * count * (epoch + 1) }

  lemma BudgetGrows(count: nat, epoch: nat)
    ensures Budget(count, epoch + 1) == Budget(count, epoch) + 6 * count
  {
  }

  lemma WorkIsBounded(s: State, count: nat)
    requires |s.parties| == count
    ensures Work(s) <= 6 * count
  {
    SumAtMost(MovesLeft(s.epoch), s.parties, 6);
  }

  lemma BudgetKept(s: State, t: nat, count: nat, made: nat)
    requires Inv(s, count) && Inv(Step(s, t), count) && made + Work(s) <= Budget(count, s.epoch)
    ensures made + (if Advances(s, t) then 1 else 0) + Work(Step(s, t)) <= Budget(count, Step(s, t).epoch)
  {
    if Advances(s, t) {
      MoveIsPaid(s, t, count);
      BudgetGrows(count, s.epoch);
      WorkIsBounded(Step(s, t), count);
    }
  }

  /** In every run the parties make at most six moves each in a round before the round ends, spinning
      not counted: more than 6 * count * k moves of a run have ended k rounds. With NotAllStuck: any
      schedule that gives a move to whoever can make one goes through round after round. */
  lemma {:induction false} RoundsGoOn(count: nat, schedule: seq<nat>)
    ensures
      var s := Exec(Step, Init(count), schedule);
      Tally(Step, Init(count), schedule, Advances) + Work(s) <= Budget(count, s.epoch)
    decreases |schedule|
  {
    InvHolds(count, schedule);
    if schedule == [] {
      WorkIsBounded(Init(count), count);
    } else {
      var front := schedule[..|schedule| - 1];
      RoundsGoOn(count, front);
      InvHolds(count, front);
      BudgetKept(Exec(Step, Init(count), front), schedule[|schedule| - 1], count,
                 Tally(Step, Init(count), front, Advances));
    }
  }

  // ---------------------------------------------------------------- the counts are the moves of the run

  /** Party t takes its seat. */
  function Seats(t: nat): (State, nat) -> bool {
    (s: State, u: nat) =>
      u == t && t < |s.parties| && s.parties[t].pc.TakeSeat? &&
      t < |Step(s, t).parties| && !Step(s, t).parties[t].pc.TakeSeat?
  }

  /** A Wait of party t returns. */
  function Returns(t: nat): (State, nat) -> bool {
    (s: State, u: nat) =>
      u == t && t < |s.parties| && !s.parties[t].pc.Outside? &&
      t < |Step(s, t).parties| && Step(s, t).parties[t].pc.Outside?
  }

  lemma CountMove(s: State, u: nat, t: nat)
    requires t < |s.parties|
    ensures
      var s' := Step(s, u);
      && t < |s'.parties|
      && s'.parties[t].arrived == s.parties[t].arrived + (if Seats(t)(s, u) then 1 else 0)
      && s'.parties[t].returned == s.parties[t].returned + (if Returns(t)(s, u) then 1 else 0)
  {
  }

  lemma {:induction false} CountsAreMoves(count: nat, schedule: seq<nat>, t: nat)
    requires t < count
    ensures
      var i, s := Init(count), Exec(Step, Init(count), schedule);
      && t < |s.parties|
      && s.parties[t].arrived == Tally(Step, i, schedule, Seats(t))
      && s.parties[t].returned == Tally(Step, i, schedule, Returns(t))
    decreases |schedule|
  {
    if schedule != [] {
      var front := schedule[..|schedule| - 1];
      CountsAreMoves(count, front, t);
      CountMove(Exec(Step, Init(count), front), schedule[|schedule| - 1], t);
    }
  }
}
