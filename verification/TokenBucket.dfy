/** ratelimit/token_bucket.go. The clock is read once per locked section and passed in as `now`;
    the mutex makes each section one atomic operation on the object. */
module TokenBuckets {
  import opened Wrappers
  import opened Arithmetic
  import opened TokenBucketSpec

  datatype Outcome = Taken | ExceedsCapacity | Cancelled | Waiting

  class TokenBucket {
    const capacity: nat
    const interval: int
    var last: int
    var tokens: nat

    ghost predicate Valid()
      reads this
    {
      tokens <= capacity < W64
    }

    ghost function Now(): Level
      reads this
    {
      Level(tokens, last)
    }

    /** NewTokenBucket, :57-68. */
    constructor (capacity: nat, ratePerSec: nat, now: int)
      requires capacity < W64 && ratePerSec < W64
      ensures Valid() && this.capacity == capacity && interval == Interval(ratePerSec)
      ensures Now() == Level(capacity, now)
    {
      this.capacity, tokens, last := capacity, capacity, now;
      interval := if ratePerSec > 0 then Quotient(SECOND, I64(ratePerSec)) else 0;
    }

    /** refillLocked, :121-129. */
    method RefillLocked(now: int)
      requires Valid()
      modifies this
      ensures Valid() && Now() == Refilled(capacity, interval, old(Now()), now)
    {
      if interval == 0 {
        return;
      }
      var elapsed := Since(last, now);
      var added := Quotient(elapsed, interval) % W64;
      tokens := Min(capacity, (tokens + added) % W64);
      last := last + I64(I64(added) * interval);
    }

    /** The section both AllowN and WaitN run under the mutex: :80-85, :98-103. */
    method TakeLocked(now: int, n: nat) returns (ok: bool)
      requires Valid() && n <= capacity
      modifies this
      ensures Valid() && Now() == After(capacity, interval, old(Now()), Attempt(now, n))
      ensures ok <==> Grants(capacity, interval, old(Now()), Attempt(now, n))
      ensures !ok ==> Now() == Refilled(capacity, interval, old(Now()), now) && tokens < n
    {
      RefillLocked(now);
      if tokens < n {
        return false;
      }
      tokens := tokens - n;
      return true;
    }

    /** AllowN, :74-86. */
    method AllowN(now: int, n: nat) returns (ok: bool)
      requires Valid()
      modifies this
      ensures Valid() && Now() == After(capacity, interval, old(Now()), Attempt(now, n))
      ensures ok <==> Grants(capacity, interval, old(Now()), Attempt(now, n))
    {
      if n > capacity {
        return false;
      }
      ok := TakeLocked(now, n);
    }

    /** One pass of WaitN's loop under the mutex, :97-110, with the timer it sets when it fails. */
    method TryOnce(now: int, n: nat, ghost was: Level, ghost run: seq<Attempt>, ghost start: int, ghost late: seq<nat>)
      returns (ok: bool, timer: nat, ghost run': seq<Attempt>)
      requires Valid() && n <= capacity && |run| <= |late|
      requires Tried(capacity, interval, was, run, n, false, start, late, Now())
      requires now == NextTry(capacity, interval, was, run, start, late)
      modifies this
      ensures Valid() && |run'| == |run| + 1
      ensures Tried(capacity, interval, was, run', n, ok, start, late, Now())
      ensures ok <==> Grants(capacity, interval, old(Now()), Attempt(now, n))
      ensures Now() == After(capacity, interval, old(Now()), Attempt(now, n))
      ensures !ok ==> tokens < n && timer == Timer(interval, n - tokens)
      ensures !ok && |run| < |late| ==>
        NextTry(capacity, interval, was, run', start, late) == now + timer + late[|run|]
    {
      OneMore(capacity, interval, was, run, Attempt(now, n), start, late, Now());
      run' := run + [Attempt(now, n)];
      ok := TakeLocked(now, n);
      timer := if ok then 0 else Timer(interval, n - tokens);
    }

    /** WaitN, :92-119, called at `start` with no other caller of the bucket. late[k] is how long after its
        k-th timer the loop reads the clock again; the account ends, still Waiting, when the list
        does. The context is done during select number k, counting from 0, for cancel == Some(k). */
    method WaitN(n: nat, start: int, late: seq<nat>, cancel: Option<nat>)
      returns (res: Outcome, ghost run: seq<Attempt>)
      requires Valid()
      modifies this
      ensures Valid() && Tried(capacity, interval, old(Now()), run, n, res == Taken, start, late, Now())
      ensures res == ExceedsCapacity <==> n > capacity
      ensures res == Taken ==> run != []
      ensures res == Cancelled <==>
        n <= capacity && res != Taken && cancel.Some? && (interval != 0 ==> |run| == cancel.value + 1)
      ensures res == Waiting ==> if interval == 0 then cancel.None? else |run| == |late| + 1
      ensures PromptFrom(capacity, interval, old(Now()), n, start) && |late| >= 1 && cancel != Some(0) ==>
        res == Taken && |run| <= 2
      ensures n <= capacity && interval == 0 && old(tokens) < n ==>
        Now() == old(Now()) && res == if cancel.Some? then Cancelled else Waiting
    {
      run := [];
      if n > capacity {
        return ExceedsCapacity, run;
      }
      var now, k := start, 0;
      ghost var was := Now();
      ghost var prompt := PromptFrom(capacity, interval, was, n, start);
      while true
        invariant Valid() && Tried(capacity, interval, was, run, n, false, start, late, Now())
        invariant |run| == k <= |late| && now == NextTry(capacity, interval, was, run, start, late)
        invariant k == 0 ==> Now() == was && now == start
        invariant prompt ==> k <= 1 && (k == 1 ==> Grants(capacity, interval, Now(), Attempt(now, n)))
        invariant interval == 0 ==> k == 0
        invariant cancel.Some? ==> k <= cancel.value
        decreases |late| - k
      {
        var ok, timer;
        ok, timer, run := TryOnce(now, n, was, run, start, late);
        if ok {
          return Taken, run;
        }
        if interval == 0 {
          return if cancel.Some? then Cancelled else Waiting, run;
        }
        if cancel == Some(k) {
          return Cancelled, run;
        }
        if k == |late| {
          return Waiting, run;
        }
        if prompt {
          SecondTryGrants(capacity, interval, was, n, start, now + timer + late[k]);
        }
        now, k := now + timer + late[k], k + 1;
      }
    }
  }
}
