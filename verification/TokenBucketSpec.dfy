/** The arithmetic of ratelimit/token_bucket.go, with Go's 64-bit conversions written out. Times
    and durations are whole nanoseconds. */
module TokenBucketSpec {
  import opened Arithmetic

  const MAX64 := 0x7FFF_FFFF_FFFF_FFFF
  const SECOND := 1_000_000_000

  /** Conversion to int64, and the result of an int64 operation. */
  function I64(x: int): int {
    if x % W64 > MAX64 then x % W64 - W64 else x % W64
  }

  /** Go's integer division rounds towards zero. */
  function Quotient(a: int, b: int): int
    requires b != 0
  {
    if (a < 0) == (b < 0) then Abs(a) / Abs(b) else -(Abs(a) / Abs(b))
  }

  function Abs(a: int): nat {
    if a < 0 then -a else a
  }

  function Min(a: int, b: int): int {
    if a <= b then a else b
  }

  /** The interval of a rate, :58-61. */
  function Interval(ratePerSec: nat): int
    requires ratePerSec < W64
  {
    if ratePerSec > 0 then Quotient(SECOND, I64(ratePerSec)) else 0
  }

  /** time.Since saturates at the longest representable duration. */
  function Since(last: int, now: int): int {
    if now - last > MAX64 then MAX64 else if now - last < -MAX64 - 1 then -MAX64 - 1 else now - last
  }

  datatype Level = Level(tokens: nat, last: int)

  /** What refillLocked leaves, :121-129. */
  function Refilled(c: nat, iv: int, b: Level, now: int): Level {
    if iv == 0 then b
    else
      var added := Quotient(Since(b.last, now), iv) % W64;
      Level(Min(c, (b.tokens + added) % W64), b.last + I64(I64(added) * iv))
  }

  /** One locked attempt to take n tokens at time `now`: a call of AllowN, or one pass of WaitN's loop. */
  datatype Attempt = Attempt(now: int, n: nat)

  predicate Grants(c: nat, iv: int, b: Level, a: Attempt) {
    a.n <= c && Refilled(c, iv, b, a.now).tokens >= a.n
  }

  function After(c: nat, iv: int, b: Level, a: Attempt): Level {
    if a.n > c then b
    else
      var f := Refilled(c, iv, b, a.now);
      if f.tokens >= a.n then f.(tokens := f.tokens - a.n) else f
  }

  function Run(c: nat, iv: int, b: Level, run: seq<Attempt>): Level
    decreases |run|
  {
    if run == [] then b else Run(c, iv, After(c, iv, b, run[0]), run[1..])
  }

  function Answers(c: nat, iv: int, b: Level, run: seq<Attempt>): (r: seq<bool>)
    ensures |r| == |run|
    decreases |run|
  {
    if run == [] then [] else [Grants(c, iv, b, run[0])] + Answers(c, iv, After(c, iv, b, run[0]), run[1..])
  }

  /** Tokens handed out over a run. */
  function Granted(c: nat, iv: int, b: Level, run: seq<Attempt>): nat
    decreases |run|
  {
    if run == [] then 0
    else (if Grants(c, iv, b, run[0]) then run[0].n else 0) + Granted(c, iv, After(c, iv, b, run[0]), run[1..])
  }

  /** The clock does not go back over a run that begins at `from` and ends by `until`. */
  predicate InOrder(from: int, run: seq<Attempt>, until: int)
    decreases |run|
  {
    from <= until && (run != [] ==> from <= run[0].now && InOrder(run[0].now, run[1..], until))
  }

  // ---------------------------------------------------------------- one refill

  lemma I64Fits(x: int)
    requires 0 <= x <= MAX64
    ensures I64(x) == x && x % W64 == x
  {
  }

  /** q more tokens: the sum wraps, then it is cut off. */
  function Topped(c: nat, x: nat, q: nat): nat {
    Min(c, (x + q) % W64)
  }

  /** Whole tokens earned by `now`. */
  function Earned(iv: int, last: int, now: int): (q: nat)
    requires iv > 0 && last <= now
    ensures q <= MAX64 && q * iv <= Since(last, now) < q * iv + iv && q == Since(last, now) / iv
  {
    var e := Since(last, now);
    assert e == iv * (e / iv) + e % iv;
    MulBounds(iv, e / iv);
    assert e / iv <= e by { DivBelow(e, iv); }
    e / iv
  }

  lemma DivBelow(e: nat, iv: int)
    requires iv > 0
    ensures 0 <= e / iv <= e
  {
    var q := e / iv;
    assert e == iv * q + e % iv;
    if q > 0 { MulBounds(q, iv); }
  }

  lemma RefillPlain(c: nat, iv: int, b: Level, now: int)
    requires iv > 0 && b.last <= now
    ensures var q := Earned(iv, b.last, now);
            Refilled(c, iv, b, now) == Level(Topped(c, b.tokens, q), b.last + q * iv)
  {
    var q := Earned(iv, b.last, now);
    I64Fits(q);
    I64Fits(q * iv);
    assert Quotient(Since(b.last, now), iv) == q;
  }

  lemma I64Negative(q: nat)
    requires q <= MAX64
    ensures I64((0 - q) % W64) == 0 - q
  {
    if q > 0 { DivModUnique(0 - q, W64, -1, W64 - q); }
  }

  /** The quotient of a negative interval goes through uint64 and back. */
  lemma NegativeQuotient(iv: int, last: int, now: int)
    requires iv < 0 && last <= now
    ensures Quotient(Since(last, now), iv) == 0 - Earned(-iv, last, now)
    ensures I64(I64((0 - Earned(-iv, last, now)) % W64) * iv) == Earned(-iv, last, now) * -iv
  {
    var q := Earned(-iv, last, now);
    I64Negative(q);
    assert (0 - q) * iv == q * -iv;
    I64Fits(q * -iv);
  }

  lemma WrapTwice(x: int, y: int)
    ensures (x % W64 + y) % W64 == (x + y) % W64
  {
    var k: int := 0 - x / W64;
    assert x % W64 + y == x + y + W64 * k;
    ModAddMultiple(x + y, k, W64);
  }

  lemma RefillNegative(c: nat, iv: int, d: int, b: Level, now: int)
    requires d > 0 && iv == -d && b.last <= now
    ensures var q := Earned(d, b.last, now);
            Refilled(c, iv, b, now) == Level(Min(c, (b.tokens - q) % W64), b.last + q * d)
  {
    NegativeQuotient(iv, b.last, now);
    WrapTwice(0 - Earned(d, b.last, now), b.tokens);
  }

  /** Adding the two's complement of q subtracts it, and wraps below zero. */
  lemma SubtractInUnsigned(x: nat, q: nat)
    requires x < W64 && q <= MAX64
    ensures (x + (0 - q) % W64) % W64 == if q <= x then x - q else x - q + W64
  {
    if q > 0 { DivModUnique(0 - q, W64, -1, W64 - q); }
    var sum := x + (0 - q) % W64;
    if q == 0 || sum < W64 {
      DivModUnique(sum, W64, 0, sum);
    } else {
      DivModUnique(sum, W64, 1, x - q);
    }
  }

  /** A negative interval takes tokens away, one for each |interval| passed; and when it takes more
      than there are, the unsigned sum wraps and the bucket fills up again. */
  lemma NegativeIntervalRefill(c: nat, iv: int, b: Level, now: int)
    requires iv < 0 && b.tokens <= c < W64 && b.last <= now
    ensures var q := Earned(-iv, b.last, now);
            Refilled(c, iv, b, now) ==
            Level(if q <= b.tokens then b.tokens - q else Min(c, b.tokens - q + W64), b.last + q * -iv)
  {
    NegativeQuotient(iv, b.last, now);
    SubtractInUnsigned(b.tokens, Earned(-iv, b.last, now));
  }

  // ---------------------------------------------------------------- rate bounds

  /** What one interval can bring: a token; or, when the interval is negative and the sum wraps, a
      whole bucket. */
  function Each(c: nat, iv: int): nat {
    if iv > 0 then 1 else c
  }

  /** A refill advances the clock by whole intervals and brings at most Each for every one. */
  lemma RefillBrings(c: nat, iv: int, b: Level, now: int)
    requires iv != 0 && b.last <= now
    ensures var q, f := Earned(Abs(iv), b.last, now), Refilled(c, iv, b, now);
            f.last == b.last + q * Abs(iv) && f.tokens <= c && f.tokens <= b.tokens + Each(c, iv) * q
  {
    if iv > 0 {
      RefillPlain(c, iv, b, now);
      CutOffLoses(c, b.tokens + Earned(iv, b.last, now));
    } else {
      RefillNegative(c, iv, -iv, b, now);
      CutOffLessBrings(c, b.tokens, Earned(-iv, b.last, now));
    }
  }

  lemma CutOffLessBrings(c: nat, x: nat, q: nat)
    ensures 0 <= Min(c, (x - q) % W64) <= c && Min(c, (x - q) % W64) <= x + c * q
  {
    if q == 0 { CutOffLoses(c, x); } else { AtLeastOnce(c, q); }
  }

  lemma AtLeastOnce(c: nat, q: nat)
    requires q > 0
    ensures c <= c * q
  {
    if c > 0 { MulBounds(c, q); }
  }

  /** What the bucket holds or can still be brought by `until`. */
  function Credit(c: nat, iv: int, b: Level, until: int): int
    requires iv != 0
  {
    b.tokens + Each(c, iv) * ((until - b.last) / Abs(iv))
  }

  /** Refilling creates no credit. */
  lemma RefillKeepsCredit(c: nat, iv: int, b: Level, now: int, until: int)
    requires iv != 0 && b.last <= now <= until
    ensures var f := Refilled(c, iv, b, now);
            b.last <= f.last <= now && Credit(c, iv, f, until) <= Credit(c, iv, b, until)
  {
    RefillBrings(c, iv, b, now);
    MovesWithClock(c, iv, b, Refilled(c, iv, b, now), Earned(Abs(iv), b.last, now), until);
  }

  lemma MovesWithClock(c: nat, iv: int, b: Level, f: Level, q: nat, until: int)
    requires iv != 0 && f.last == b.last + q * Abs(iv) && f.tokens <= b.tokens + Each(c, iv) * q
    ensures b.last <= f.last && Credit(c, iv, f, until) <= Credit(c, iv, b, until)
  {
    EarnedMoves(Abs(iv), b.last, q, until);
    TimesLess(Each(c, iv), (until - b.last) / Abs(iv), q);
  }

  lemma TimesLess(e: int, x: int, y: int)
    ensures e * (x - y) == e * x - e * y
  {
  }

  lemma CutOffLoses(c: nat, x: nat)
    ensures Min(c, x % W64) <= x
  {
    assert x == W64 * (x / W64) + x % W64;
  }

  /** A grant spends its tokens from the credit. */
  lemma AttemptSpendsCredit(c: nat, iv: int, b: Level, a: Attempt, until: int)
    requires iv != 0 && b.last <= a.now <= until
    ensures var after := After(c, iv, b, a);
            && b.last <= after.last <= a.now
            && Credit(c, iv, after, until) + (if Grants(c, iv, b, a) then a.n else 0) <= Credit(c, iv, b, until)
  {
    if a.n <= c {
      RefillKeepsCredit(c, iv, b, a.now, until);
    }
  }

  lemma EarnedMoves(iv: int, last: int, q: nat, until: int)
    requires iv > 0
    ensures (until - (last + q * iv)) / iv == (until - last) / iv - q
    ensures q * iv >= 0
  {
    var m: int := 0 - q;
    ModAddMultiple(until - last, m, iv);
    assert until - (last + q * iv) == until - last + iv * m;
    if q > 0 { MulBounds(q, iv); }
  }

  lemma {:induction false} RunSpendsCredit(c: nat, iv: int, b: Level, run: seq<Attempt>, until: int)
    requires iv != 0 && InOrder(b.last, run, until)
    ensures Granted(c, iv, b, run) + Credit(c, iv, Run(c, iv, b, run), until) <= Credit(c, iv, b, until)
    ensures b.last <= Run(c, iv, b, run).last <= until
    decreases |run|
  {
    if run != [] {
      AttemptSpendsCredit(c, iv, b, run[0], until);
      RunSpendsCredit(c, iv, After(c, iv, b, run[0]), run[1..], until);
    }
  }

  lemma CreditIsNotNegative(c: nat, iv: int, b: Level, until: int)
    requires iv != 0 && b.last <= until
    ensures Credit(c, iv, b, until) >= 0
  {
    DivBelow(until - b.last, Abs(iv));
    EachMonotone(Each(c, iv), 0, (until - b.last) / Abs(iv));
  }

  lemma EachMonotone(e: nat, x: int, y: int)
    requires x <= y
    ensures e * x <= e * y
  {
    TimesLess(e, y, x);
  }

  lemma RunSpendsAtMostCredit(c: nat, iv: int, b: Level, run: seq<Attempt>, until: int)
    requires iv != 0 && InOrder(b.last, run, until)
    ensures Granted(c, iv, b, run) <= Credit(c, iv, b, until)
  {
    RunSpendsCredit(c, iv, b, run, until);
    CreditIsNotNegative(c, iv, Run(c, iv, b, run), until);
  }

  /** Since its creation at `start`, a bucket hands out at most its capacity and Each for every interval. */
  lemma SinceCreation(c: nat, iv: int, start: int, run: seq<Attempt>, until: int)
    requires iv != 0 && InOrder(start, run, until)
    ensures Granted(c, iv, Level(c, start), run) <= c + Each(c, iv) * ((until - start) / Abs(iv))
  {
    RunSpendsAtMostCredit(c, iv, Level(c, start), run, until);
  }

  function CeilDiv(a: int, d: int): int
    requires d > 0
  {
    (a + d - 1) / d
  }

  lemma DivMonotone(x: int, y: int, d: int)
    requires d > 0 && x <= y
    ensures x / d <= y / d
  {
    assert x == d * (x / d) + x % d && y == d * (y / d) + y % d;
    assert d * (y / d - x / d) == d * (y / d) - d * (x / d);
    MulBounds(d, y / d - x / d);
  }

  /** Over any window of any run a bucket hands out at most its capacity and Each for every interval
      begun in it, whatever happened before. */
  lemma {:induction false} WindowBound(c: nat, iv: int, b: Level, window: seq<Attempt>, from: int, until: int)
    requires iv != 0 && b.last <= from && InOrder(from, window, until) && until - b.last <= MAX64
    ensures Granted(c, iv, b, window) <= c + Each(c, iv) * CeilDiv(until - from, Abs(iv))
    decreases |window|
  {
    DivBelow(until - from + Abs(iv) - 1, Abs(iv));
    if window != [] {
      var a, rest := window[0], window[1..];
      if a.n > c {
        DivMonotone(until - a.now + Abs(iv) - 1, until - from + Abs(iv) - 1, Abs(iv));
        EachMonotone(Each(c, iv), CeilDiv(until - a.now, Abs(iv)), CeilDiv(until - from, Abs(iv)));
        WindowBound(c, iv, b, rest, a.now, until);
      } else {
        FirstRefill(c, iv, b, a, from, until);
        RunSpendsAtMostCredit(c, iv, After(c, iv, b, a), rest, until);
      }
    }
  }

  lemma RefilledRecently(c: nat, iv: int, b: Level, now: int)
    requires iv != 0 && b.last <= now && now - b.last <= MAX64
    ensures var f := Refilled(c, iv, b, now); f.tokens <= c && f.last <= now < f.last + Abs(iv)
  {
    RefillBrings(c, iv, b, now);
  }

  /** The first refill of a window leaves at most a full bucket and less than an interval behind. */
  lemma FirstRefill(c: nat, iv: int, b: Level, a: Attempt, from: int, until: int)
    requires iv != 0 && b.last <= from <= a.now <= until && until - b.last <= MAX64 && a.n <= c
    ensures
      var after := After(c, iv, b, a);
      && after.last <= a.now
      && Credit(c, iv, after, until) + (if Grants(c, iv, b, a) then a.n else 0) <=
         c + Each(c, iv) * CeilDiv(until - from, Abs(iv))
  {
    RefilledRecently(c, iv, b, a.now);
    RecentCredit(c, iv, Refilled(c, iv, b, a.now), a.now, from, until);
  }

  lemma RecentCredit(c: nat, iv: int, f: Level, now: int, from: int, until: int)
    requires iv != 0 && f.tokens <= c && f.last <= now < f.last + Abs(iv) && from <= now <= until
    ensures Credit(c, iv, f, until) <= c + Each(c, iv) * CeilDiv(until - from, Abs(iv))
  {
    DivMonotone(until - f.last, until - from + Abs(iv) - 1, Abs(iv));
    EachMonotone(Each(c, iv), (until - f.last) / Abs(iv), CeilDiv(until - from, Abs(iv)));
  }

  /** The same for every window of every run since the bucket's creation. */
  lemma EveryWindow(c: nat, iv: int, start: int, before: seq<Attempt>, from: int, window: seq<Attempt>, until: int)
    requires iv != 0 && InOrder(start, before, from) && InOrder(from, window, until) && until - start <= MAX64
    ensures Granted(c, iv, Run(c, iv, Level(c, start), before), window) <=
            c + Each(c, iv) * CeilDiv(until - from, Abs(iv))
  {
    RunSpendsCredit(c, iv, Level(c, start), before, from);
    WindowBound(c, iv, Run(c, iv, Level(c, start), before), window, from, until);
  }

  // ---------------------------------------------------------------- refilling in two steps

  /** A full bucket can take what the longest representable idle time earns without passing 2^64. */
  predicate NeverWraps(c: nat, iv: int)
    requires iv > 0
  {
    c + MAX64 / iv < W64
  }

  lemma NoWrap(c: nat, iv: int, tokens: nat, last: int, now: int)
    requires iv > 0 && NeverWraps(c, iv) && tokens <= c && last <= now
    ensures tokens + Earned(iv, last, now) < W64
  {
    DivMonotone(Since(last, now), MAX64, iv);
  }

  lemma CutOff(c: nat, x: nat)
    requires x < W64
    ensures Min(c, x % W64) == Min(c, x)
  {
  }

  lemma RefillExact(c: nat, iv: int, b: Level, now: int)
    requires iv > 0 && NeverWraps(c, iv) && b.tokens <= c && b.last <= now
    ensures var q := Earned(iv, b.last, now);
            Refilled(c, iv, b, now) == Level(Min(c, b.tokens + q), b.last + q * iv)
  {
    RefillPlain(c, iv, b, now);
    NoWrap(c, iv, b.tokens, b.last, now);
    CutOff(c, b.tokens + Earned(iv, b.last, now));
  }

  ghost predicate LosesNothing(c: nat, iv: int)
    requires iv > 0
  {
    forall b: Level, now: int :: b.tokens <= c && b.last <= now ==>
      Refilled(c, iv, b, now).tokens == Min(c, b.tokens + Earned(iv, b.last, now))
  }

  /** The sum at :127 wraps, and earned tokens vanish, for exactly the oversized buckets. */
  lemma LosesNothingIff(c: nat, iv: int)
    requires iv > 0 && c < W64
    ensures LosesNothing(c, iv) <==> NeverWraps(c, iv)
  {
    if NeverWraps(c, iv) {
      forall b: Level, now: int | b.tokens <= c && b.last <= now
        ensures Refilled(c, iv, b, now).tokens == Min(c, b.tokens + Earned(iv, b.last, now)) {
        RefillExact(c, iv, b, now);
      }
    } else {
      FullLoses(c, iv);
    }
  }

  /** The full bucket that idles for the longest representable time loses tokens. */
  lemma FullLoses(c: nat, iv: int)
    requires iv > 0 && c < W64 && !NeverWraps(c, iv)
    ensures Refilled(c, iv, Level(c, 0), MAX64).tokens < c
  {
    var q := Earned(iv, 0, MAX64);
    RefillPlain(c, iv, Level(c, 0), MAX64);
    DivModUnique(c + q, W64, 1, c + q - W64);
  }

  /** Earning until t1 and then until t2 earns the same as until t2, and arrives at the same time. */
  lemma EarnedTwice(iv: int, last: int, t1: int, t2: int) returns (q1: nat, q2: nat)
    requires iv > 0 && last <= t1 <= t2 && t2 - last <= MAX64
    ensures q1 == Earned(iv, last, t1) && last <= last + q1 * iv <= t1
    ensures q2 == Earned(iv, last + q1 * iv, t2)
    ensures q1 + q2 == Earned(iv, last, t2) && last + q1 * iv + q2 * iv == last + (q1 + q2) * iv
  {
    q1 := Earned(iv, last, t1);
    EarnedMoves(iv, last, q1, t2);
    q2 := Earned(iv, last + q1 * iv, t2);
  }

  ghost predicate Composes(c: nat, iv: int)
    requires iv > 0
  {
    forall b: Level, t1: int, t2: int {:trigger Refilled(c, iv, b, t1), Refilled(c, iv, b, t2)} ::
      b.tokens <= c && b.last <= t1 <= t2 && t2 - b.last <= MAX64 ==>
        Refilled(c, iv, Refilled(c, iv, b, t1), t2) == Refilled(c, iv, b, t2)
  }

  /** The two refills, with whatever the sums wrap to. */
  lemma RefillTwicePlain(c: nat, iv: int, b: Level, t1: int, t2: int) returns (q1: nat, q2: nat)
    requires iv > 0 && b.tokens <= c < W64 && b.last <= t1 <= t2 && t2 - b.last <= MAX64
    ensures q1 == Earned(iv, b.last, t1) && q1 + q2 == Earned(iv, b.last, t2)
    ensures var end := b.last + (q1 + q2) * iv;
            && Refilled(c, iv, b, t1).tokens == Topped(c, b.tokens, q1)
            && Refilled(c, iv, Refilled(c, iv, b, t1), t2) == Level(Topped(c, Topped(c, b.tokens, q1), q2), end)
            && Refilled(c, iv, b, t2) == Level(Topped(c, b.tokens, q1 + q2), end)
  {
    q1, q2 := EarnedTwice(iv, b.last, t1, t2);
    RefillPlain(c, iv, b, t1);
    RefillPlain(c, iv, b, t2);
    RefillPlain(c, iv, Refilled(c, iv, b, t1), t2);
  }

  lemma CutOffTwice(c: nat, x: nat, q1: nat, q2: nat)
    requires x <= c < W64 && (x + q1 + q2 < W64 || c == W64 - 1)
    ensures Topped(c, Topped(c, x, q1), q2) == Topped(c, x, q1 + q2)
  {
    if x + q1 + q2 < W64 {
      BelowModulus(x + q1);
      BelowModulus(x + q1 + q2);
      BelowModulus(Min(c, x + q1) + q2);
    } else {
      var k: int := 0 - (x + q1) / W64;
      ModAddMultiple(x + q1 + q2, k, W64);
      assert (x + q1) % W64 + q2 == x + q1 + q2 + W64 * k;
    }
  }

  lemma BelowModulus(x: int)
    requires 0 <= x < W64
    ensures x % W64 == x
  {
    DivModUnique(x, W64, 0, x);
  }

  lemma RefillTwiceFits(c: nat, iv: int, b: Level, t1: int, t2: int)
    requires iv > 0 && b.tokens <= c < W64 && b.last <= t1 <= t2 && t2 - b.last <= MAX64
    requires b.tokens + Earned(iv, b.last, t2) < W64 || c == W64 - 1
    ensures Refilled(c, iv, Refilled(c, iv, b, t1), t2) == Refilled(c, iv, b, t2)
  {
    var q1, q2 := RefillTwicePlain(c, iv, b, t1, t2);
    CutOffTwice(c, b.tokens, q1, q2);
  }

  lemma RefillTwice(c: nat, iv: int, b: Level, t1: int, t2: int)
    requires iv > 0 && b.tokens <= c < W64 && b.last <= t1 <= t2 && t2 - b.last <= MAX64
    requires NeverWraps(c, iv) || c == W64 - 1
    ensures Refilled(c, iv, Refilled(c, iv, b, t1), t2) == Refilled(c, iv, b, t2)
  {
    if NeverWraps(c, iv) { NoWrap(c, iv, b.tokens, b.last, t2); }
    RefillTwiceFits(c, iv, b, t1, t2);
  }

  /** Refilling at t1 and again at t2 equals refilling at t2 alone, for every bucket that cannot
      wrap; and for the single capacity 2^64 - 1, whose sums are never cut off. No others. */
  lemma ComposesIff(c: nat, iv: int)
    requires 0 < iv <= SECOND && c < W64
    ensures Composes(c, iv) <==> NeverWraps(c, iv) || c == W64 - 1
  {
    if NeverWraps(c, iv) || c == W64 - 1 {
      forall b: Level, t1: int, t2: int | b.tokens <= c && b.last <= t1 <= t2 && t2 - b.last <= MAX64
        ensures Refilled(c, iv, Refilled(c, iv, b, t1), t2) == Refilled(c, iv, b, t2) {
        RefillTwice(c, iv, b, t1, t2);
      }
    } else {
      DoesNotCompose(c, iv);
    }
  }

  lemma DoesNotCompose(c: nat, iv: int)
    requires 0 < iv <= SECOND && c < W64 - 1 && !NeverWraps(c, iv)
    ensures Refilled(c, iv, Refilled(c, iv, Level(c, 0), iv), MAX64) != Refilled(c, iv, Level(c, 0), MAX64)
  {
    var q1, q2 := RefillTwicePlain(c, iv, Level(c, 0), iv, MAX64);
    DivModUnique(iv, iv, 1, 0);
    assert q1 == 1 && q2 == MAX64 / iv - 1;
    CutOffTwiceDiffers(c, q2);
  }

  lemma CutOffTwiceDiffers(c: nat, q: nat)
    requires c < W64 - 1 <= c + q && q < MAX64
    ensures Topped(c, Topped(c, c, 1), q) != Topped(c, c, 1 + q)
  {
  }

  // ---------------------------------------------------------------- nothing is lost

  /** No refill of the run is cut off at the capacity. */
  predicate Uncut(c: nat, iv: int, b: Level, run: seq<Attempt>)
    requires iv > 0
    decreases |run|
  {
    run != [] ==>
      && (run[0].n <= c ==> b.tokens + (run[0].now - b.last) / iv <= c)
      && Uncut(c, iv, After(c, iv, b, run[0]), run[1..])
  }

  lemma RefillKeepsAll(c: nat, iv: int, b: Level, now: int, until: int)
    requires iv > 0 && NeverWraps(c, iv) && b.tokens <= c && b.last <= now && now - b.last <= MAX64
    requires b.tokens + (now - b.last) / iv <= c
    ensures var f := Refilled(c, iv, b, now);
            f.tokens <= c && b.last <= f.last <= now && Credit(c, iv, f, until) == Credit(c, iv, b, until)
  {
    RefillExact(c, iv, b, now);
    EarnedMoves(iv, b.last, Earned(iv, b.last, now), until);
  }

  /** A run without cut-offs loses nothing: what is granted is exactly what leaves the credit. */
  lemma {:induction false} CreditExact(c: nat, iv: int, b: Level, run: seq<Attempt>, until: int)
    requires iv > 0 && NeverWraps(c, iv) && b.tokens <= c && Uncut(c, iv, b, run)
    requires InOrder(b.last, run, until) && until - b.last <= MAX64
    ensures Granted(c, iv, b, run) + Credit(c, iv, Run(c, iv, b, run), until) == Credit(c, iv, b, until)
    ensures var end := Run(c, iv, b, run); end.tokens <= c && b.last <= end.last <= until
    decreases |run|
  {
    if run != [] {
      if run[0].n <= c { RefillKeepsAll(c, iv, b, run[0].now, until); }
      CreditExact(c, iv, After(c, iv, b, run[0]), run[1..], until);
    }
  }

  /** The lower bound: after such a run a request is granted if the exact account, what there was
      plus the whole intervals elapsed less what was granted, can pay for it. */
  lemma PayableIsGranted(c: nat, iv: int, b: Level, run: seq<Attempt>, a: Attempt)
    requires iv > 0 && NeverWraps(c, iv) && b.tokens <= c && Uncut(c, iv, b, run)
    requires InOrder(b.last, run, a.now) && a.now - b.last <= MAX64
    requires a.n <= c && a.n <= b.tokens + (a.now - b.last) / iv - Granted(c, iv, b, run)
    ensures Grants(c, iv, Run(c, iv, b, run), a)
  {
    CreditExact(c, iv, b, run, a.now);
    RecentGrants(c, iv, Run(c, iv, b, run), a);
  }

  lemma RecentGrants(c: nat, iv: int, b: Level, a: Attempt)
    requires iv > 0 && NeverWraps(c, iv) && b.tokens <= c && b.last <= a.now && a.now - b.last <= MAX64
    requires a.n <= c && a.n <= Credit(c, iv, b, a.now)
    ensures Grants(c, iv, b, a)
  {
    RefillExact(c, iv, b, a.now);
  }

  /** An ideal limiter: one token at every whole interval since `start`, none beyond the capacity. */
  datatype Account = Account(tokens: int, ticks: int)

  function Ticks(iv: int, start: int, now: int): int
    requires iv > 0
  {
    (now - start) / iv
  }

  function Filled(c: nat, account: Account, ticks: int): int {
    Min(c, account.tokens + ticks - account.ticks)
  }

  function IdealAnswers(c: nat, iv: int, start: int, account: Account, run: seq<Attempt>): seq<bool>
    requires iv > 0
    decreases |run|
  {
    if run == [] then []
    else
      var ticks := Ticks(iv, start, run[0].now);
      var tokens, n := Filled(c, account, ticks), run[0].n;
      [n <= tokens] + IdealAnswers(c, iv, start, Account(if n <= tokens then tokens - n else tokens, ticks), run[1..])
  }

  /** The bucket was last refilled at tick m, and holds what the account held then. */
  ghost predicate Accounts(c: nat, iv: int, start: int, b: Level, account: Account, m: nat) {
    && b.tokens <= c && b.last == start + m * iv && m <= account.ticks
    && account.tokens == Min(c, b.tokens + account.ticks - m)
  }

  lemma RefillAtTick(c: nat, iv: int, start: int, b: Level, account: Account, m: nat, now: int)
    requires iv > 0 && NeverWraps(c, iv) && Accounts(c, iv, start, b, account, m)
    requires start <= b.last <= now && now - start <= MAX64 && account.ticks <= Ticks(iv, start, now)
    ensures
      var ticks := Ticks(iv, start, now);
      ticks >= 0 && Refilled(c, iv, b, now) == Level(Filled(c, account, ticks), start + ticks * iv)
  {
    RefillExact(c, iv, b, now);
    EarnedMoves(iv, start, m, now);
    TimesAdd(m, Earned(iv, b.last, now), iv);
  }

  lemma TimesAdd(x: int, y: int, e: int)
    ensures (x + y) * e == x * e + y * e
  {
  }

  lemma {:induction false} AnswersAsIdeal(
    c: nat, iv: int, start: int, b: Level, account: Account, m: nat, from: int, run: seq<Attempt>, until: int)
    requires iv > 0 && NeverWraps(c, iv) && Accounts(c, iv, start, b, account, m)
    requires start <= b.last <= from && InOrder(from, run, until) && until - start <= MAX64
    requires account.ticks <= Ticks(iv, start, from)
    ensures Answers(c, iv, b, run) == IdealAnswers(c, iv, start, account, run)
    decreases |run|
  {
    if run != [] {
      var a := run[0];
      var ticks := Ticks(iv, start, a.now);
      DivMonotone(from - start, a.now - start, iv);
      assert until >= a.now by { InOrderEnds(a.now, run[1..], until); }
      RefillAtTick(c, iv, start, b, account, m, a.now);
      var tokens := Filled(c, account, ticks);
      var account' := Account(if a.n <= tokens then tokens - a.n else tokens, ticks);
      if a.n <= c { TickIsPast(iv, start, a.now); }
      AnswersAsIdeal(c, iv, start, After(c, iv, b, a), account', if a.n <= c then ticks else m, a.now, run[1..], until);
    }
  }

  lemma InOrderEnds(from: int, run: seq<Attempt>, until: int)
    requires InOrder(from, run, until)
    ensures from <= until
  {
  }

  lemma TickIsPast(iv: int, start: int, now: int)
    requires iv > 0 && start <= now
    ensures 0 <= Ticks(iv, start, now) && start <= start + Ticks(iv, start, now) * iv <= now
  {
    DivBelow(now - start, iv);
    var q := Ticks(iv, start, now);
    assert now - start == iv * q + (now - start) % iv;
    if q > 0 { MulBounds(q, iv); }
  }

  /** From its creation on, a bucket that cannot wrap answers every run exactly as the ideal limiter:
      however often it refills, no part of an interval is ever lost. */
  lemma BucketIsIdeal(c: nat, iv: int, start: int, run: seq<Attempt>, until: int)
    requires iv > 0 && NeverWraps(c, iv) && InOrder(start, run, until) && until - start <= MAX64
    ensures Answers(c, iv, Level(c, start), run) == IdealAnswers(c, iv, start, Account(c, 0), run)
  {
    DivModUnique(0, iv, 0, 0);
    AnswersAsIdeal(c, iv, start, Level(c, start), Account(c, 0), 0, start, run, until);
  }

  // ---------------------------------------------------------------- failed attempts

  /** Two levels no later attempt can tell apart. */
  ghost predicate SameFrom(c: nat, iv: int, x: Level, y: Level, from: int) {
    forall t :: t >= from && t - x.last <= MAX64 ==> Refilled(c, iv, x, t) == Refilled(c, iv, y, t)
  }

  lemma {:induction false} SameAnswers(
    c: nat, iv: int, x: Level, y: Level, from: int, run: seq<Attempt>, until: int)
    requires SameFrom(c, iv, x, y, from) && InOrder(from, run, until) && until - x.last <= MAX64
    ensures Answers(c, iv, x, run) == Answers(c, iv, y, run)
    decreases |run|
  {
    if run != [] {
      if run[0].n > c {
        SameAnswers(c, iv, x, y, run[0].now, run[1..], until);
      } else {
        assert InOrder(run[0].now, run[1..], until);
        assert Refilled(c, iv, x, run[0].now) == Refilled(c, iv, y, run[0].now);
      }
    }
  }

  /** What q whole intervals add to the unsigned sum. */
  function Signed(iv: int, q: nat): int {
    if iv > 0 then q else 0 - q
  }

  lemma RefillWraps(c: nat, iv: int, b: Level, now: int)
    requires iv != 0 && b.last <= now
    ensures var q := Earned(Abs(iv), b.last, now);
            Refilled(c, iv, b, now) == Level(Min(c, (b.tokens + Signed(iv, q)) % W64), b.last + q * Abs(iv))
  {
    if iv > 0 {
      RefillPlain(c, iv, b, now);
    } else {
      RefillNegative(c, iv, -iv, b, now);
    }
  }

  /** A refill that does not fill the bucket was not cut off, so refilling again goes on where a
      single refill would have arrived, wraps and negative intervals included. */
  lemma RefillGoesOn(c: nat, iv: int, b: Level, t1: int, t2: int)
    requires iv != 0 && b.last <= t1 <= t2 && t2 - b.last <= MAX64
    requires Refilled(c, iv, b, t1).tokens < c
    ensures Refilled(c, iv, Refilled(c, iv, b, t1), t2) == Refilled(c, iv, b, t2)
  {
    var q1, q2 := EarnedTwice(Abs(iv), b.last, t1, t2);
    RefillWraps(c, iv, b, t1);
    RefillWraps(c, iv, b, t2);
    RefillWraps(c, iv, Refilled(c, iv, b, t1), t2);
    WrapTwice(b.tokens + Signed(iv, q1), Signed(iv, q2));
  }

  /** A failed attempt leaves no trace: deleting it from a run changes no later answer, for every
      capacity and interval. */
  lemma FailureIsInvisible(c: nat, iv: int, b: Level, a: Attempt, later: seq<Attempt>, until: int)
    requires b.last <= a.now && InOrder(a.now, later, until) && until - b.last <= MAX64
    requires !Grants(c, iv, b, a)
    ensures Answers(c, iv, After(c, iv, b, a), later) == Answers(c, iv, b, later)
  {
    if a.n <= c && iv != 0 {
      forall t | t >= a.now && t - b.last <= MAX64
        ensures Refilled(c, iv, b, t) == Refilled(c, iv, Refilled(c, iv, b, a.now), t) {
        RefillGoesOn(c, iv, b, a.now, t);
      }
      SameAnswers(c, iv, b, After(c, iv, b, a), a.now, later, until);
    }
  }

  // ---------------------------------------------------------------- waiting

  /** The timer set at :109-110 for `needed` missing tokens, in nanoseconds; a negative duration
      fires at once. */
  function Timer(iv: int, needed: nat): nat {
    var d := I64(I64(needed) * iv);
    if d < 0 then 0 else d
  }

  lemma Congruent(x: int) returns (k: int)
    ensures x == I64(x) + k * W64
  {
    k := (x - I64(x)) / W64;
  }

  lemma TimerExact(iv: int, needed: nat)
    requires iv > 0 && needed > 0 && needed * iv <= MAX64
    ensures Timer(iv, needed) == needed * iv
  {
    MulBounds(needed, iv);
    I64Fits(needed);
    I64Fits(needed * iv);
  }

  lemma Distribute(x: int, k: int, m: int)
    ensures (x + k * W64) * m == x * m + k * m * W64
  {
  }

  lemma TimerShort(iv: int, needed: nat)
    requires 0 < iv <= SECOND && needed * iv > MAX64
    ensures Timer(iv, needed) == 0 || Timer(iv, needed) <= needed * iv - W64
  {
    var k1 := Congruent(needed);
    var k2 := Congruent(I64(needed) * iv);
    Distribute(I64(needed), k1, iv);
    assert needed * iv == I64(I64(needed) * iv) + (k1 * iv + k2) * W64;
  }

  /** Enough time earns enough tokens, and not before. */
  lemma EarnedAtLeast(iv: int, last: int, now: int, needed: nat)
    requires iv > 0 && last <= now && needed * iv <= MAX64
    ensures Earned(iv, last, now) >= needed <==> now - last >= needed * iv
  {
    var q := Earned(iv, last, now);
    var d := q - needed;
    assert d * iv == q * iv - needed * iv;
    MulBounds(iv, d);
  }

  /** After a refill at t1 that left too few tokens, and a wait of at least the timer with no
      competitor, the second try finds its tokens however late it runs -- unless the product at
      :110 overflows, and then it may come too early. */
  lemma SecondTryIff(c: nat, iv: int, b: Level, t1: int, n: nat)
    requires 0 < iv <= SECOND && c < W64 && NeverWraps(c, iv) && b.tokens < n <= c
    requires b.last <= t1 < b.last + iv
    ensures (forall t2 :: t2 >= t1 + Timer(iv, n - b.tokens) ==> Refilled(c, iv, b, t2).tokens >= n) <==>
            (n - b.tokens) * iv <= MAX64
  {
    var needed := n - b.tokens;
    if needed * iv <= MAX64 {
      TimerExact(iv, needed);
      forall t2 | t2 >= t1 + Timer(iv, needed) ensures Refilled(c, iv, b, t2).tokens >= n {
        EarnedAtLeast(iv, b.last, t2, needed);
        RefillExact(c, iv, b, t2);
      }
    } else {
      TooEarly(c, iv, b, t1, n);
    }
  }

  lemma Fewer(q: int, needed: int, iv: int)
    requires iv > 0 && q * iv < needed * iv
    ensures q < needed
  {
    assert (q - needed) * iv == q * iv - needed * iv;
    MulBounds(iv, q - needed);
  }

  lemma TooEarly(c: nat, iv: int, b: Level, t1: int, n: nat)
    requires 0 < iv <= SECOND && c < W64 && NeverWraps(c, iv) && b.tokens < n <= c
    requires b.last <= t1 < b.last + iv && (n - b.tokens) * iv > MAX64
    ensures Refilled(c, iv, b, t1 + Timer(iv, n - b.tokens)).tokens < n
  {
    var needed := n - b.tokens;
    var t2 := t1 + Timer(iv, needed);
    RefillExact(c, iv, b, t2);
    assert Earned(iv, b.last, t2) < needed by {
      TimerShort(iv, needed);
      Fewer(Earned(iv, b.last, t2), needed, iv);
    }
  }

  /** The promise of WaitN for a caller that waits alone: a request whose full wait fits a duration
      is served at the second try at the latest. */
  lemma SecondTry(c: nat, iv: int, b: Level, t1: int, n: nat, t2: int)
    requires 0 < iv <= SECOND && c < W64 && NeverWraps(c, iv) && b.tokens <= c && n <= c && n * iv <= MAX64
    requires b.last <= t1 && t1 - b.last <= MAX64
    requires var f := Refilled(c, iv, b, t1); f.tokens < n && t2 >= t1 + Timer(iv, n - f.tokens)
    ensures Refilled(c, iv, Refilled(c, iv, b, t1), t2).tokens >= n
  {
    RefilledRecently(c, iv, b, t1);
    var f := Refilled(c, iv, b, t1);
    PartOfWait(iv, n, f.tokens);
    SecondTryIff(c, iv, f, t1, n);
  }

  /** A caller of WaitN at `now` who, left alone, has its n tokens at its second try. */
  predicate PromptFrom(c: nat, iv: int, b: Level, n: nat, now: int) {
    && n <= c < W64 && b.tokens <= c && 0 < iv <= SECOND && NeverWraps(c, iv) && n * iv <= MAX64
    && b.last <= now && now - b.last <= MAX64
  }

  lemma SecondTryGrants(c: nat, iv: int, b: Level, n: nat, t1: int, t2: int)
    requires PromptFrom(c, iv, b, n, t1) && !Grants(c, iv, b, Attempt(t1, n))
    requires var after := After(c, iv, b, Attempt(t1, n)); after.tokens < n && t2 >= t1 + Timer(iv, n - after.tokens)
    ensures Grants(c, iv, After(c, iv, b, Attempt(t1, n)), Attempt(t2, n))
  {
    SecondTry(c, iv, b, t1, n, t2);
  }

  lemma PartOfWait(iv: int, n: nat, tokens: nat)
    requires iv > 0 && tokens <= n && n * iv <= MAX64
    ensures (n - tokens) * iv <= MAX64
  {
    assert (n - tokens) * iv == n * iv - tokens * iv;
    if tokens > 0 { MulBounds(tokens, iv); }
  }

  // ---------------------------------------------------------------- building up a run

  lemma {:induction false} RunExtends(c: nat, iv: int, b: Level, run: seq<Attempt>, a: Attempt)
    ensures Run(c, iv, b, run + [a]) == After(c, iv, Run(c, iv, b, run), a)
    ensures Answers(c, iv, b, run + [a]) == Answers(c, iv, b, run) + [Grants(c, iv, Run(c, iv, b, run), a)]
    decreases |run|
  {
    if run == [] {
      assert [] + [a] == [a] && [a][1..] == [];
    } else {
      assert (run + [a])[1..] == run[1..] + [a];
      RunExtends(c, iv, After(c, iv, b, run[0]), run[1..], a);
    }
  }

  /** When WaitN tries next after these attempts: first at `start`; then, each time, late[k] after a
      timer set for the tokens still missing. */
  function NextTry(c: nat, iv: int, b: Level, run: seq<Attempt>, start: int, late: seq<nat>): int
    requires |run| <= |late|
  {
    if run == [] then start
    else
      var last := run[|run| - 1];
      last.now + Wait(iv, last.n, Run(c, iv, b, run).tokens) + late[|run| - 1]
  }

  function Wait(iv: int, n: nat, tokens: nat): nat {
    if tokens < n then Timer(iv, n - tokens) else 0
  }

  predicate Paced(c: nat, iv: int, b: Level, run: seq<Attempt>, start: int, late: seq<nat>)
    decreases |run|
  {
    run == [] ||
    (var front := run[..|run| - 1];
     && |front| <= |late| && Paced(c, iv, b, front, start, late)
     && run[|run| - 1].now == NextTry(c, iv, b, front, start, late))
  }

  /** Every attempt of the run asks for n tokens, and all are refused, but for the last if `taken`. */
  predicate OnlyLast(c: nat, iv: int, b: Level, run: seq<Attempt>, n: nat, taken: bool) {
    forall k :: 0 <= k < |run| ==> run[k].n == n && (Answers(c, iv, b, run)[k] <==> taken && k == |run| - 1)
  }

  /** The account of WaitN: it has made these attempts at their times, all in vain but for the last if
      `taken`, and they have brought the bucket from b to `level`. */
  ghost predicate Tried(
    c: nat, iv: int, b: Level, run: seq<Attempt>, n: nat, taken: bool, start: int, late: seq<nat>, level: Level)
  {
    OnlyLast(c, iv, b, run, n, taken) && Paced(c, iv, b, run, start, late) && level == Run(c, iv, b, run)
  }

  lemma OneMore(c: nat, iv: int, b: Level, run: seq<Attempt>, a: Attempt, start: int, late: seq<nat>, level: Level)
    requires Tried(c, iv, b, run, a.n, false, start, late, level)
    requires |run| <= |late| && a.now == NextTry(c, iv, b, run, start, late)
    ensures Tried(c, iv, b, run + [a], a.n, Grants(c, iv, level, a), start, late, After(c, iv, level, a))
    ensures |run| < |late| ==>
              NextTry(c, iv, b, run + [a], start, late) ==
              a.now + Wait(iv, a.n, After(c, iv, level, a).tokens) + late[|run|]
  {
    RunExtends(c, iv, b, run, a);
    assert (run + [a])[..|run|] == run;
  }

  /** Rates from 1 to 10^9 a second give a positive interval of at most a second. Rate 0 and higher
      rates never refill, except the last 10^9, which convert to negative durations. */
  lemma IntervalOf(rate: nat)
    requires rate < W64
    ensures Interval(rate) > 0 <==> 1 <= rate <= SECOND
    ensures Interval(rate) < 0 <==> rate >= W64 - SECOND
    ensures -SECOND <= Interval(rate) <= SECOND
    ensures Interval(rate) > 0 ==> rate * Interval(rate) <= SECOND < rate * Interval(rate) + rate
  {
    if 1 <= rate <= MAX64 {
      LowRate(rate);
      SecondOver(rate);
    } else if rate > MAX64 {
      HighRate(rate);
      SecondOver(W64 - rate);
    }
  }

  lemma LowRate(rate: nat)
    requires 1 <= rate <= MAX64
    ensures Interval(rate) == SECOND / rate
  {
    I64Fits(rate);
  }

  lemma HighRate(rate: nat)
    requires MAX64 < rate < W64
    ensures Interval(rate) == -(SECOND / (W64 - rate))
  {
    BelowModulus(rate);
    assert Abs(I64(rate)) == W64 - rate;
  }

  lemma SecondOver(d: nat)
    requires d > 0
    ensures var q := SECOND / d; 0 <= q <= SECOND && d * q <= SECOND < d * q + d && (q > 0 <==> d <= SECOND)
  {
    var q := SECOND / d;
    assert SECOND == d * q + SECOND % d;
    MulBounds(d, q);
    DivBelow(SECOND, d);
  }

  // ---------------------------------------------------------------- intervals that are not positive

  /** A zero interval never refills: what is granted comes out of what is there. */
  lemma {:induction false} ZeroIntervalNeverRefills(c: nat, b: Level, run: seq<Attempt>)
    ensures Granted(c, 0, b, run) + Run(c, 0, b, run).tokens == b.tokens
    decreases |run|
  {
    if run != [] {
      ZeroIntervalNeverRefills(c, After(c, 0, b, run[0]), run[1..]);
    }
  }

  /** Intervals begun in a window; an interval of zero never passes. */
  function Begun(iv: int, length: nat): nat {
    if iv == 0 then 0
    else
      DivBelow(length + Abs(iv) - 1, Abs(iv));
      CeilDiv(length, Abs(iv))
  }

  /** What a rate limiter promises of a window: its capacity, and a token for each interval begun. */
  ghost predicate KeepsRate(c: nat, iv: int) {
    forall start: int, before: seq<Attempt>, from: int, window: seq<Attempt>, until: int
      {:trigger InOrder(start, before, from), InOrder(from, window, until)} ::
      InOrder(start, before, from) && InOrder(from, window, until) && until - start <= MAX64 ==>
        Granted(c, iv, Run(c, iv, Level(c, start), before), window) <= c + Begun(iv, until - from)
  }

  /** The rate is kept over every window of every run, unless the interval is negative and the
      bucket holds two tokens or more. */
  lemma KeepsRateIff(c: nat, iv: int)
    requires -SECOND <= iv <= SECOND && c < W64
    ensures KeepsRate(c, iv) <==> iv >= 0 || c <= 1
  {
    if iv >= 0 || c <= 1 {
      forall start: int, before: seq<Attempt>, from: int, window: seq<Attempt>, until: int
        {:trigger InOrder(start, before, from), InOrder(from, window, until)} |
        InOrder(start, before, from) && InOrder(from, window, until) && until - start <= MAX64
        ensures Granted(c, iv, Run(c, iv, Level(c, start), before), window) <= c + Begun(iv, until - from)
      {
        if iv == 0 {
          ZeroIntervalNeverRefills(c, Level(c, start), before);
          ZeroIntervalNeverRefills(c, Run(c, 0, Level(c, start), before), window);
        } else {
          EveryWindow(c, iv, start, before, from, window, until);
        }
      }
    } else {
      NegativeIntervalOverspends(c, iv, 0);
      var run := [Attempt(0, c), Attempt(0 - iv, c)];
      assert run[1..][1..] == [];
      assert InOrder(0, [], 0) && InOrder(0, run, 0 - iv);
    }
  }

  /** In terms of the rate the bucket was made with. */
  lemma RateIsKeptIff(c: nat, rate: nat)
    requires c < W64 && rate < W64
    ensures KeepsRate(c, Interval(rate)) <==> rate < W64 - SECOND || c <= 1
  {
    IntervalOf(rate);
    KeepsRateIff(c, Interval(rate));
  }

  lemma FullThenEmpty(c: nat, iv: int, start: int)
    requires 0 < c < W64 && iv < 0
    ensures After(c, iv, Level(c, start), Attempt(start, c)) == Level(0, start)
    ensures Grants(c, iv, Level(c, start), Attempt(start, c))
  {
    DivModUnique(0, -iv, 0, 0);
    NegativeIntervalRefill(c, iv, Level(c, start), start);
  }

  lemma EmptyThenFull(c: nat, iv: int, start: int)
    requires 0 < c < W64 && -MAX64 <= iv < 0
    ensures Grants(c, iv, Level(0, start), Attempt(start - iv, c))
  {
    DivModUnique(-iv, -iv, 1, 0);
    NegativeIntervalRefill(c, iv, Level(0, start), start - iv);
  }

  /** With a negative interval a bucket grants its whole capacity at once and again one |interval|
      later. */
  lemma NegativeIntervalOverspends(c: nat, iv: int, start: int)
    requires 2 <= c < W64 && -SECOND <= iv < 0
    ensures
      var run := [Attempt(start, c), Attempt(start - iv, c)];
      Granted(c, iv, Level(c, start), run) == 2 * c > c + Begun(iv, -iv)
  {
    FullThenEmpty(c, iv, start);
    EmptyThenFull(c, iv, start);
    GrantedOfTwo(c, iv, Level(c, start), Attempt(start, c), Attempt(start - iv, c));
    DivModUnique(-iv - iv - 1, -iv, 1, -iv - 1);
  }

  lemma GrantedOfTwo(c: nat, iv: int, b: Level, x: Attempt, y: Attempt)
    requires Grants(c, iv, b, x) && Grants(c, iv, After(c, iv, b, x), y)
    ensures Granted(c, iv, b, [x, y]) == x.n + y.n
  {
    var later := After(c, iv, b, x);
    assert [x, y][1..] == [y] && [y][1..] == [];
    assert Granted(c, iv, later, [y]) == y.n;
  }
}
