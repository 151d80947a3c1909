/** syncx/lock.go, SeqLock: writers bump a sequence number before and after writing; readers read
    the protected words one at a time, in any order, and accept what they read if the number was
    even and has not changed. Any number of writers, readers and words. Bookkeeping that no step
    reads: `versions`, the contents of the words at each even number, and `latest`, the last
    version each thread accepted. */
module SeqLock {
  import opened Wrappers
  import opened Schedules

  type Value(==, 0, !new)

  type Snapshot = map<nat, Value>

  datatype Thread =
    | Outside
    | TakeMutex                                                // :236
    | BumpFirst                                                // :237
    | Writing                                                  // between WriteLock and WriteUnlock
    | BumpLast                                                 // :241
    | DropMutex                                                // :242
    | Begin(retries: bool)                                     // :246, :255
    | Reading(start: nat, snap: Snapshot, retries: bool)       // the reads, then :250, :260
    | Accepted(start: nat, snap: Snapshot)

  datatype State = State(
    number: nat, mutex: Option<nat>, words: seq<Value>, threads: seq<Thread>,
    versions: seq<seq<Value>>, latest: seq<nat>)

  /** `retries` tells Read, which loops, from ReadBegin and ReadValidate, which report failure. */
  datatype Choice = StartWrite | StartRead(retries: bool) | Touch(word: nat, v: Value) | Next

  datatype Action = Action(tid: nat, choice: Choice)

  function Init(threads: nat, words: seq<Value>): State {
    State(0, None, words, seq(threads, i => Outside), [words], seq(threads, i => 0))
  }

  function Goto(s: State, t: nat, th: Thread): State
    requires t < |s.threads|
  {
    s.(threads := s.threads[t := th])
  }

  function Step(s: State, a: Action): State {
    if a.tid < |s.threads| == |s.latest| then
      var th := s.threads[a.tid];
      if th.Outside? || th.Accepted? then
        (match a.choice
         case StartWrite => Goto(s, a.tid, TakeMutex)
         case StartRead(retries) => Goto(s, a.tid, Begin(retries))
         case _ => s)
      else if th.Begin? || th.Reading? then StepRead(s, a.tid, a.choice)
      else StepWrite(s, a.tid, a.choice)
    else s
  }

  function StepWrite(s: State, t: nat, choice: Choice): State
    requires t < |s.threads|
  {
    match s.threads[t]
    case TakeMutex => if s.mutex.None? then Goto(s.(mutex := Some(t)), t, BumpFirst) else s
    case BumpFirst => Goto(s.(number := s.number + 1), t, Writing)
    case Writing =>
      if choice.Touch? && choice.word < |s.words| then s.(words := s.words[choice.word := choice.v])
      else if choice.Next? then Goto(s, t, BumpLast)
      else s
    case BumpLast => Goto(s.(number := s.number + 1, versions := s.versions + [s.words]), t, DropMutex)
    case DropMutex => Goto(s.(mutex := None), t, Outside)
    case _ => s
  }

  function StepRead(s: State, t: nat, choice: Choice): State
    requires t < |s.threads| == |s.latest|
  {
    match s.threads[t]
    case Begin(retries) =>
      if retries && s.number % 2 != 0 then s else Goto(s, t, Reading(s.number, map[], retries))
    case Reading(start, snap, retries) =>
      if choice.Touch? && choice.word < |s.words|
      then Goto(s, t, Reading(start, snap[choice.word := s.words[choice.word]], retries))
      else if choice.Next? then
        if start % 2 == 0 && s.number == start
        then Goto(s.(latest := s.latest[t := start / 2]), t, Accepted(start, snap))
        else Goto(s, t, if retries then Begin(true) else Outside)
      else s
    case _ => s
  }

  predicate HoldsMutex(th: Thread) { th.BumpFirst? || th.Writing? || th.BumpLast? || th.DropMutex? }

  predicate Inside(th: Thread) { th.Writing? || th.BumpLast? }

  predicate WriterInside(s: State) {
    s.mutex.Some? && s.mutex.value < |s.threads| && Inside(s.threads[s.mutex.value])
  }

  ghost predicate ThreadOk(s: State, t: nat)
    requires t < |s.threads| == |s.latest| && s.versions != []
  {
    && s.latest[t] < |s.versions|
    && (HoldsMutex(s.threads[t]) <==> s.mutex == Some(t))
    && match s.threads[t]
       case Reading(start, snap, retries) =>
         && start <= s.number && s.latest[t] <= start / 2 < |s.versions|
         && (start % 2 == 0 && start == s.number ==> Matches(snap, s.versions[start / 2]))
       case Accepted(start, snap) =>
         s.latest[t] == start / 2 && start % 2 == 0 && Matches(snap, s.versions[start / 2])
       case _ => true
  }

  /** Every word read has the value it has in that version. */
  ghost predicate Matches(snap: Snapshot, version: seq<Value>) {
    forall i :: i in snap ==> i < |version| && snap[i] == version[i]
  }

  ghost predicate Inv(s: State) {
    && |s.threads| == |s.latest| && s.versions != []
    && s.number == 2 * (|s.versions| - 1) + (if WriterInside(s) then 1 else 0)
    && (!WriterInside(s) ==> s.words == s.versions[|s.versions| - 1])
    && (s.mutex.Some? ==> s.mutex.value < |s.threads|)
    && (forall t :: 0 <= t < |s.threads| ==> ThreadOk(s, t))
  }

  /** A writer inside: the words may change, and at the end they become a version. */
  lemma InsideKeepsInv(s: State, a: Action)
    requires Inv(s) && a.tid < |s.threads| && Inside(s.threads[a.tid])
    ensures Inv(Step(s, a))
  {
    var s' := Step(s, a);
    assert ThreadOk(s, a.tid);
    forall u | 0 <= u < |s'.threads| ensures ThreadOk(s', u) { assert ThreadOk(s, u); }
  }

  /** Taking and dropping the mutex, and the first bump. */
  lemma MutexKeepsInv(s: State, a: Action)
    requires Inv(s) && a.tid < |s.threads|
    requires s.threads[a.tid].TakeMutex? || s.threads[a.tid].BumpFirst? || s.threads[a.tid].DropMutex?
    ensures Inv(Step(s, a))
  {
    var s' := Step(s, a);
    assert ThreadOk(s, a.tid);
    forall u | 0 <= u < |s'.threads| ensures ThreadOk(s', u) { assert ThreadOk(s, u); }
  }

  lemma WriteKeepsInv(s: State, a: Action)
    requires Inv(s) && a.tid < |s.threads|
    requires s.threads[a.tid].TakeMutex? || HoldsMutex(s.threads[a.tid])
    ensures Inv(Step(s, a))
  {
    if Inside(s.threads[a.tid]) { InsideKeepsInv(s, a); } else { MutexKeepsInv(s, a); }
  }

  /** Threads that hold no mutex change nothing a writer or another reader relies on. */
  lemma ReaderMoves(s: State, s': State, t: nat)
    requires Inv(s) && t < |s.threads| && !HoldsMutex(s.threads[t])
    requires s'.number == s.number && s'.mutex == s.mutex && s'.words == s.words && s'.versions == s.versions
    requires |s'.threads| == |s.threads| && |s'.latest| == |s.latest|
    requires forall u :: 0 <= u < |s.threads| && u != t ==> s'.threads[u] == s.threads[u] && s'.latest[u] == s.latest[u]
    requires ThreadOk(s', t)
    ensures Inv(s')
  {
    assert ThreadOk(s, t);
    forall u | 0 <= u < |s'.threads| ensures ThreadOk(s', u) {
      if u != t { assert ThreadOk(s, u); }
    }
  }

  lemma ReadKeepsInv(s: State, a: Action)
    requires Inv(s) && a.tid < |s.threads| && s.threads[a.tid].Reading?
    ensures Inv(Step(s, a))
  {
    assert ThreadOk(s, a.tid);
    ReaderMoves(s, Step(s, a), a.tid);
  }

  lemma StartKeepsInv(s: State, a: Action)
    requires Inv(s) && a.tid < |s.threads|
    requires s.threads[a.tid].Outside? || s.threads[a.tid].Accepted? || s.threads[a.tid].Begin?
    ensures Inv(Step(s, a))
  {
    assert ThreadOk(s, a.tid);
    ReaderMoves(s, Step(s, a), a.tid);
  }

  lemma StepKeepsInv(s: State, a: Action)
    requires Inv(s)
    ensures Inv(Step(s, a))
  {
    if a.tid < |s.threads| {
      if s.threads[a.tid].TakeMutex? || HoldsMutex(s.threads[a.tid]) { WriteKeepsInv(s, a); }
      else if s.threads[a.tid].Reading? { ReadKeepsInv(s, a); }
      else { StartKeepsInv(s, a); }
    }
  }

  lemma InvHolds(threads: nat, words: seq<Value>, schedule: seq<Action>)
    ensures Inv(Exec(Step, Init(threads, words), schedule))
  {
    forall s, a | Inv(s) ensures Inv(Step(s, a)) { StepKeepsInv(s, a); }
    Always(Step, Inv, Init(threads, words), schedule);
  }

  /** An accepted snapshot is one committed version: word for word, and in full when every word was
      read; and a reader never goes back to an older version than it accepted before. */
  lemma SnapshotsAreCommitted(threads: nat, words: seq<Value>, schedule: seq<Action>, a: Action)
    ensures
      var s := Exec(Step, Init(threads, words), schedule);
      |s.threads| == |s.latest| && s.versions != [] &&
      (a.tid < |s.threads| && !s.threads[a.tid].Accepted? && Step(s, a).threads[a.tid].Accepted? ==>
         var snap, version := Step(s, a).threads[a.tid].snap, Step(s, a).latest[a.tid];
         && s.latest[a.tid] <= version < |s.versions|
         && Matches(snap, s.versions[version])
         && ((forall i: nat :: i < |s.versions[version]| ==> i in snap) ==>
               s.versions[version] == seq(|s.versions[version]|, i requires i in snap => snap[i])))
  {
    InvHolds(threads, words, schedule);
    var s := Exec(Step, Init(threads, words), schedule);
    if a.tid < |s.threads| { assert ThreadOk(s, a.tid); }
  }

  /** Writers exclude each other, and the number is odd exactly while one is inside. */
  lemma NumberTellsWriters(threads: nat, words: seq<Value>, schedule: seq<Action>, t: nat, u: nat)
    ensures
      var s := Exec(Step, Init(threads, words), schedule);
      && (t < |s.threads| && u < |s.threads| && HoldsMutex(s.threads[t]) && HoldsMutex(s.threads[u]) ==> t == u)
      && (s.number % 2 == 1 <==> exists w :: 0 <= w < |s.threads| && Inside(s.threads[w]))
  {
    InvHolds(threads, words, schedule);
    InvTellsWriters(Exec(Step, Init(threads, words), schedule), t, u);
  }

  lemma InvTellsWriters(s: State, t: nat, u: nat)
    requires Inv(s)
    ensures t < |s.threads| && u < |s.threads| && HoldsMutex(s.threads[t]) && HoldsMutex(s.threads[u]) ==> t == u
    ensures s.number % 2 == 1 <==> exists w :: 0 <= w < |s.threads| && Inside(s.threads[w])
  {
    forall w | 0 <= w < |s.threads| && HoldsMutex(s.threads[w]) ensures s.mutex == Some(w) { assert ThreadOk(s, w); }
  }

  // ---------------------------------------------------------------- when a snapshot is accepted

  /** The move is one of the two Adds of a writer. */
  predicate Bumps(s: State, a: Action) {
    a.tid < |s.threads| && (s.threads[a.tid].BumpFirst? || s.threads[a.tid].BumpLast?)
  }

  ghost predicate SomeoneInside(s: State) { exists w :: 0 <= w < |s.threads| && Inside(s.threads[w]) }

  predicate NoNext(t: nat, moves: seq<Action>) {
    forall i :: 0 <= i < |moves| && moves[i].tid == t ==> !moves[i].choice.Next?
  }

  /** The words thread t touches in these moves. */
  function Touched(words: nat, t: nat, moves: seq<Action>): set<nat> {
    if moves == [] then {}
    else Touched(words, t, moves[..|moves| - 1]) + TouchedBy(words, t, moves[|moves| - 1])
  }

  lemma SizesStay(s: State, a: Action)
    requires |s.threads| == |s.latest|
    ensures var s' := Step(s, a); |s'.threads| == |s'.latest| == |s.threads| && |s'.words| == |s.words|
    ensures Step(s, a).number == s.number + if Bumps(s, a) then 1 else 0
    ensures s.versions <= Step(s, a).versions
  {
  }

  lemma {:induction false} NumberCounts(s: State, moves: seq<Action>)
    requires |s.threads| == |s.latest|
    ensures
      var end := Exec(Step, s, moves);
      && |end.threads| == |end.latest| == |s.threads| && |end.words| == |s.words|
      && end.number == s.number + Tally(Step, s, moves, Bumps)
      && s.versions <= end.versions
    decreases |moves|
  {
    if moves != [] {
      var front, a := moves[..|moves| - 1], moves[|moves| - 1];
      NumberCounts(s, front);
      SizesStay(Exec(Step, s, front), a);
    }
  }

  /** Thread t is still reading, and has touched these words since. */
  predicate ReadsOn(s: State, s': State, t: nat, touched: set<nat>) {
    && t < |s.threads| && t < |s'.threads| && s.threads[t].Reading? && s'.threads[t].Reading?
    && s'.threads[t].start == s.threads[t].start && s'.threads[t].retries == s.threads[t].retries
    && s'.threads[t].snap.Keys == s.threads[t].snap.Keys + touched
  }

  function TouchedBy(words: nat, t: nat, a: Action): set<nat> {
    if a.tid == t && a.choice.Touch? && a.choice.word < words then {a.choice.word} else {}
  }

  lemma ReadMove(s: State, t: nat, a: Action)
    requires |s.threads| == |s.latest| && t < |s.threads| && s.threads[t].Reading?
    requires a.tid == t ==> !a.choice.Next?
    ensures ReadsOn(s, Step(s, a), t, TouchedBy(|s.words|, t, a))
  {
  }

  lemma ReadsCompose(s: State, mid: State, end: State, t: nat, first: set<nat>, second: set<nat>)
    requires ReadsOn(s, mid, t, first) && ReadsOn(mid, end, t, second)
    ensures ReadsOn(s, end, t, first + second)
  {
  }

  lemma {:induction false} ReadGoesOn(s: State, t: nat, moves: seq<Action>)
    requires |s.threads| == |s.latest| && t < |s.threads| && s.threads[t].Reading? && NoNext(t, moves)
    ensures ReadsOn(s, Exec(Step, s, moves), t, Touched(|s.words|, t, moves))
    decreases |moves|
  {
    if moves != [] {
      var front, a := moves[..|moves| - 1], moves[|moves| - 1];
      var mid := Exec(Step, s, front);
      ReadGoesOn(s, t, front);
      NumberCounts(s, front);
      ReadMove(mid, t, a);
      ReadsCompose(s, mid, Step(mid, a), t, Touched(|s.words|, t, front), TouchedBy(|s.words|, t, a));
    }
  }

  /** The reader's Next has accepted exactly the words it touched, as they were at its Begin. */
  predicate AcceptsTouched(s0: State, s3: State, t: nat, touched: set<nat>) {
    && t < |s3.threads| && s3.threads[t].Accepted? && s3.threads[t].snap.Keys == touched
    && forall i :: i in touched ==> i < |s0.words| && s3.threads[t].snap[i] == s0.words[i]
  }

  predicate Fails(s3: State, t: nat, retries: bool) {
    t < |s3.threads| && s3.threads[t] == if retries then Begin(true) else Outside
  }

  /** In every run a reader that has begun, and has read at leisure what it likes, accepts if and
      only if no writer was inside when it began and no writer has bumped the number since; and
      then its snapshot is of exactly the words it read, as they were when it began. Otherwise
      Read begins again, and ReadValidate reports failure. Only Read waits for a writer to leave. */
  lemma AcceptedIff(threads: nat, words: seq<Value>, before: seq<Action>, t: nat, c: Choice, during: seq<Action>)
    requires NoNext(t, during)
    ensures
      var s0 := Exec(Step, Init(threads, words), before);
      var s1 := Step(s0, Action(t, c));
      var s3 := Step(Exec(Step, s1, during), Action(t, Next));
      t < |s0.threads| && s0.threads[t].Begin? ==>
        if s0.threads[t].retries && SomeoneInside(s0) then s1 == s0
        else if !SomeoneInside(s0) && Tally(Step, s1, during, Bumps) == 0
        then AcceptsTouched(s0, s3, t, Touched(|s0.words|, t, during))
        else Fails(s3, t, s0.threads[t].retries)
  {
    InvHolds(threads, words, before);
    var s0 := Exec(Step, Init(threads, words), before);
    if t < |s0.threads| && s0.threads[t].Begin? {
      InvTellsWriters(s0, t, t);
      if !(s0.threads[t].retries && SomeoneInside(s0)) {
        BeginReads(s0, t, c);
        BegunEnds(s0, Step(s0, Action(t, c)), t, during);
      }
    }
  }

  lemma BeginReads(s0: State, t: nat, c: Choice)
    requires Inv(s0) && t < |s0.threads| && s0.threads[t].Begin? && !(s0.threads[t].retries && s0.number % 2 != 0)
    ensures
      var s1 := Step(s0, Action(t, c));
      Inv(s1) && s1 == Goto(s0, t, Reading(s0.number, map[], s0.threads[t].retries))
  {
    StepKeepsInv(s0, Action(t, c));
  }

  lemma BegunEnds(s0: State, s1: State, t: nat, during: seq<Action>)
    requires Inv(s0) && Inv(s1) && t < |s0.threads| && s0.threads[t].Begin? && NoNext(t, during)
    requires s1 == Goto(s0, t, Reading(s0.number, map[], s0.threads[t].retries))
    requires SomeoneInside(s0) <==> s0.number % 2 == 1
    ensures
      var s3 := Step(Exec(Step, s1, during), Action(t, Next));
      if !SomeoneInside(s0) && Tally(Step, s1, during, Bumps) == 0
      then AcceptsTouched(s0, s3, t, Touched(|s0.words|, t, during))
      else Fails(s3, t, s0.threads[t].retries)
  {
    var s2 := Exec(Step, s1, during);
    ReadGoesOn(s1, t, during);
    NumberCounts(s1, during);
    Validates(s2, t);
    if !SomeoneInside(s0) && Tally(Step, s1, during, Bumps) == 0 {
      InvGoesOn(s1, during);
      StartsAtLast(s0, s2, t);
    }
  }

  lemma Validates(s: State, t: nat)
    requires t < |s.threads| == |s.latest| && s.threads[t].Reading?
    ensures
      var th, th' := s.threads[t], Step(s, Action(t, Next)).threads[t];
      if th.start % 2 == 0 && s.number == th.start then th' == Accepted(th.start, th.snap)
      else th' == if th.retries then Begin(true) else Outside
  {
  }

  lemma {:induction false} InvGoesOn(s: State, moves: seq<Action>)
    requires Inv(s)
    ensures Inv(Exec(Step, s, moves))
  {
    forall x, a | Inv(x) ensures Inv(Step(x, a)) { StepKeepsInv(x, a); }
    Always(Step, Inv, s, moves);
  }

  /** What a reader may accept at an even number is what the words held at that number. */
  lemma StartsAtLast(s0: State, s2: State, t: nat)
    requires Inv(s0) && Inv(s2) && s0.versions <= s2.versions && s0.number == s2.number && s0.number % 2 == 0
    requires t < |s2.threads| && s2.threads[t].Reading? && s2.threads[t].start == s0.number
    ensures Matches(s2.threads[t].snap, s0.words)
  {
    assert ThreadOk(s2, t);
    assert s0.words == s0.versions[|s0.versions| - 1];
  }

  // ---------------------------------------------------------------- what a writer does

  /** The words after thread t's writes in these moves. */
  function Written(words: seq<Value>, t: nat, moves: seq<Action>): seq<Value> {
    if moves == [] then words
    else
      var before, a := Written(words, t, moves[..|moves| - 1]), moves[|moves| - 1];
      if a.tid == t && a.choice.Touch? && a.choice.word < |before| then before[a.choice.word := a.choice.v] else before
  }

  lemma WriteMove(s: State, t: nat, a: Action)
    requires Inv(s) && t < |s.threads| && s.threads[t].Writing? && (a.tid == t ==> !a.choice.Next?)
    ensures t < |Step(s, a).threads| && Step(s, a).threads[t] == Writing
    ensures Step(s, a).words ==
            if a.tid == t && a.choice.Touch? && a.choice.word < |s.words| then s.words[a.choice.word := a.choice.v]
            else s.words
  {
    assert ThreadOk(s, t);
    if a.tid < |s.threads| { assert ThreadOk(s, a.tid); }
  }

  /** While a writer is inside, the words change by its writes and nobody else's. */
  lemma {:induction false} WritesAreApplied(s: State, t: nat, moves: seq<Action>)
    requires Inv(s) && t < |s.threads| && s.threads[t].Writing? && NoNext(t, moves)
    ensures
      var end := Exec(Step, s, moves);
      Inv(end) && t < |end.threads| && end.threads[t] == Writing && end.words == Written(s.words, t, moves)
    decreases |moves|
  {
    if moves != [] {
      var front, a := moves[..|moves| - 1], moves[|moves| - 1];
      WritesAreApplied(s, t, front);
      WriteMove(Exec(Step, s, front), t, a);
      StepKeepsInv(Exec(Step, s, front), a);
    }
  }

  predicate Nexts(t: nat, moves: seq<Action>) { forall i :: 0 <= i < |moves| ==> moves[i] == Action(t, Next) }

  lemma OneNext(s: State, t: nat, moves: seq<Action>)
    requires Nexts(t, moves) && |moves| == 1
    ensures Exec(Step, s, moves) == Step(s, Action(t, Next))
  {
    ExecHead(Step, s, moves);
    assert moves[1..] == [];
  }

  /** Left alone, WriteLock gets a free mutex and is inside after three moves, with the number bumped. */
  lemma WriteLockAlone(s: State, t: nat, moves: seq<Action>)
    requires t < |s.threads| == |s.latest| && (s.threads[t].Outside? || s.threads[t].Accepted?) && s.mutex.None?
    requires |moves| == 3 && moves[0] == Action(t, StartWrite) && Nexts(t, moves[1..])
    ensures Exec(Step, s, moves) == Goto(s.(mutex := Some(t), number := s.number + 1), t, Writing)
  {
    ExecHead(Step, s, moves);
    var s1, rest := Goto(s, t, TakeMutex), moves[1..];
    ExecHead(Step, s1, rest);
    OneNext(Goto(s.(mutex := Some(t)), t, BumpFirst), t, rest[1..]);
    assert s.threads[t := TakeMutex][t := BumpFirst] == s.threads[t := BumpFirst];
    assert s.threads[t := BumpFirst][t := Writing] == s.threads[t := Writing];
  }

  lemma BumpLastAlone(s: State, t: nat, moves: seq<Action>)
    requires t < |s.threads| == |s.latest| && s.threads[t].BumpLast? && |moves| == 2 && Nexts(t, moves)
    ensures Exec(Step, s, moves) ==
            Goto(s.(mutex := None, number := s.number + 1, versions := s.versions + [s.words]), t, Outside)
  {
    ExecHead(Step, s, moves);
    var bumped := Goto(s.(number := s.number + 1, versions := s.versions + [s.words]), t, DropMutex);
    OneNext(bumped, t, moves[1..]);
    assert s.threads[t := DropMutex][t := Outside] == s.threads[t := Outside];
  }

  /** WriteUnlock is done after three, with the number bumped and the words committed. */
  lemma WriteUnlockAlone(s: State, t: nat, moves: seq<Action>)
    requires t < |s.threads| == |s.latest| && s.threads[t].Writing? && |moves| == 3 && Nexts(t, moves)
    ensures Exec(Step, s, moves) ==
            Goto(s.(mutex := None, number := s.number + 1, versions := s.versions + [s.words]), t, Outside)
  {
    ExecHead(Step, s, moves);
    BumpLastAlone(Goto(s, t, BumpLast), t, moves[1..]);
    assert s.threads[t := BumpLast][t := Outside] == s.threads[t := Outside];
  }
}
