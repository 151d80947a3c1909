/** The ideal cache behind mapx/lru.go: its entries from least to most recently touched. */
module LruSpec {
  import opened Wrappers

  type Key(==, 0, !new)
  type Value(==, 0, !new)

  datatype Entry = Entry(key: Key, val: Value)

  datatype Request = Put(key: Key, val: Value) | Get(key: Key)

  predicate Has(c: seq<Entry>, k: Key) {
    exists i :: 0 <= i < |c| && c[i].key == k
  }

  function Without(c: seq<Entry>, k: Key): seq<Entry> {
    if c == [] then [] else if c[0].key == k then Without(c[1..], k) else [c[0]] + Without(c[1..], k)
  }

  function Lookup(c: seq<Entry>, k: Key): Option<Value> {
    if c == [] then None else if c[0].key == k then Some(c[0].val) else Lookup(c[1..], k)
  }

  function AfterPut(c: seq<Entry>, cap: nat, k: Key, v: Value): seq<Entry> {
    if cap == 0 then c
    else if Has(c, k) then Without(c, k) + [Entry(k, v)]
    else if |c| >= cap then c[1..] + [Entry(k, v)]
    else c + [Entry(k, v)]
  }

  function AfterGet(c: seq<Entry>, k: Key): seq<Entry> {
    match Lookup(c, k)
    case None => c
    case Some(v) => Without(c, k) + [Entry(k, v)]
  }

  function After(c: seq<Entry>, cap: nat, r: Request): seq<Entry> {
    if r.Put? then AfterPut(c, cap, r.key, r.val) else AfterGet(c, r.key)
  }

  /** The entries after a whole trace of requests, from an empty cache. */
  function Run(cap: nat, trace: seq<Request>): seq<Entry>
    decreases |trace|
  {
    if trace == [] then [] else After(Run(cap, trace[..|trace| - 1]), cap, trace[|trace| - 1])
  }

  predicate Distinct(c: seq<Entry>) {
    forall i, j :: 0 <= i < j < |c| ==> c[i].key != c[j].key
  }

  lemma {:induction false} LookupIsHas(c: seq<Entry>, k: Key)
    ensures Lookup(c, k).Some? <==> Has(c, k)
    ensures Distinct(c) ==> forall i :: 0 <= i < |c| && c[i].key == k ==> Lookup(c, k) == Some(c[i].val)
  {
    if c != [] {
      LookupIsHas(c[1..], k);
      assert forall i :: 0 < i < |c| ==> c[i] == c[1..][i - 1];
      if Has(c, k) && c[0].key != k {
        var i :| 0 <= i < |c| && c[i].key == k;
        assert c[1..][i - 1].key == k;
      }
    }
  }

  /** Without(c, k) drops the one entry of k and keeps the order of the others. */
  lemma {:induction false} WithoutOne(c: seq<Entry>, i: nat)
    requires Distinct(c) && i < |c|
    ensures Without(c, c[i].key) == c[..i] + c[i + 1..]
  {
    if i == 0 {
      WithoutNone(c[1..], c[0].key);
    } else {
      WithoutOne(c[1..], i - 1);
      assert c[..i] + c[i + 1..] == [c[0]] + (c[1..][..i - 1] + c[1..][i..]);
    }
  }

  lemma {:induction false} WithoutNone(c: seq<Entry>, k: Key)
    requires !Has(c, k)
    ensures Without(c, k) == c
  {
    if c != [] {
      assert c[0].key != k && forall i :: 0 <= i < |c[1..]| ==> c[1..][i] == c[i + 1];
      WithoutNone(c[1..], k);
    }
  }

  // ---------------------------------------------------------------- inclusion

  /** s is l with some entries left out: same order, same values. */
  predicate Subsequence(s: seq<Entry>, l: seq<Entry>) {
    if s == [] then true
    else if l == [] then false
    else if s[0] == l[0] then Subsequence(s[1..], l[1..])
    else Subsequence(s, l[1..])
  }

  lemma {:induction false} SubsequenceDropsFirst(s: seq<Entry>, l: seq<Entry>)
    requires Subsequence(s, l) && s != []
    decreases |l|, 0
    ensures l != [] && Subsequence(s[1..], l) && Subsequence(s[1..], l[1..])
  {
    if s[0] == l[0] {
      SubsequenceWeakens(s[1..], l[1..], l[0]);
      assert l == [l[0]] + l[1..];
    } else {
      SubsequenceDropsFirst(s, l[1..]);
      SubsequenceWeakens(s[1..], l[1..], l[0]);
      assert l == [l[0]] + l[1..];
    }
  }

  lemma {:induction false} SubsequenceWeakens(s: seq<Entry>, l: seq<Entry>, e: Entry)
    requires Subsequence(s, l)
    decreases |l|, 1
    ensures Subsequence(s, [e] + l)
  {
    assert ([e] + l)[1..] == l;
    if s != [] && s[0] == e { SubsequenceDropsFirst(s, l); }
  }

  lemma {:induction false} SubsequenceAppends(s: seq<Entry>, l: seq<Entry>, e: Entry)
    requires Subsequence(s, l)
    ensures Subsequence(s + [e], l + [e])
  {
    if s == [] {
      EndsWith(l, e);
      assert s + [e] == [e];
    } else {
      assert (l + [e])[1..] == l[1..] + [e] && (s + [e])[1..] == s[1..] + [e];
      if s[0] == l[0] { SubsequenceAppends(s[1..], l[1..], e); } else { SubsequenceAppends(s, l[1..], e); }
    }
  }

  lemma {:induction false} EndsWith(l: seq<Entry>, e: Entry)
    ensures Subsequence([e], l + [e])
  {
    if l != [] && l[0] != e {
      EndsWith(l[1..], e);
      assert (l + [e])[1..] == l[1..] + [e];
    }
  }

  /** Taking k out of both, or out of the larger one when the smaller has no k. */
  lemma {:induction false} SubsequenceWithout(s: seq<Entry>, l: seq<Entry>, k: Key)
    requires Subsequence(s, l)
    ensures Subsequence(Without(s, k), Without(l, k))
  {
    if s != [] {
      if s[0] == l[0] {
        SubsequenceWithout(s[1..], l[1..], k);
        if s[0].key != k {
          assert Without(s, k)[1..] == Without(s[1..], k) && Without(l, k)[1..] == Without(l[1..], k);
        }
      } else {
        SubsequenceWithout(s, l[1..], k);
        if l[0].key != k { SubsequenceWeakens(Without(s, k), Without(l[1..], k), l[0]); }
      }
    }
  }

  lemma {:induction false} SubsequenceMembers(s: seq<Entry>, l: seq<Entry>, i: nat)
    requires Subsequence(s, l) && i < |s|
    ensures exists j :: 0 <= j < |l| && l[j] == s[i]
  {
    if s[0] == l[0] {
      if i == 0 {
        assert l[0] == s[0];
      } else {
        SubsequenceMembers(s[1..], l[1..], i - 1);
        var j :| 0 <= j < |l[1..]| && l[1..][j] == s[1..][i - 1];
        assert l[j + 1] == s[i];
      }
    } else {
      SubsequenceMembers(s, l[1..], i);
      var j :| 0 <= j < |l[1..]| && l[1..][j] == s[i];
      assert l[j + 1] == s[i];
    }
  }

  lemma {:induction false} SubsequencePads(s: seq<Entry>, l: seq<Entry>, e: Entry)
    requires Subsequence(s, l)
    ensures Subsequence(s, l + [e])
  {
    if s != [] {
      assert (l + [e])[1..] == l[1..] + [e];
      if s[0] == l[0] { SubsequencePads(s[1..], l[1..], e); } else { SubsequencePads(s, l[1..], e); }
    }
  }

  lemma SubsequenceLookup(s: seq<Entry>, l: seq<Entry>, k: Key)
    requires Subsequence(s, l) && Distinct(s) && Distinct(l) && Has(s, k)
    ensures Has(l, k) && Lookup(l, k) == Lookup(s, k)
  {
    var i :| 0 <= i < |s| && s[i].key == k;
    SubsequenceMembers(s, l, i);
    LookupIsHas(s, k);
    LookupIsHas(l, k);
  }

  // ---------------------------------------------------------------- runs

  lemma {:induction false} WithoutKeeps(c: seq<Entry>, k: Key)
    requires Distinct(c)
    ensures Distinct(Without(c, k)) && !Has(Without(c, k), k)
    ensures |Without(c, k)| == if Has(c, k) then |c| - 1 else |c|
    ensures forall x :: x != k ==> (Has(Without(c, k), x) <==> Has(c, x))
  {
    if i :| 0 <= i < |c| && c[i].key == k {
      WithoutOne(c, i);
      forall x | x != k && Has(c, x) ensures Has(Without(c, k), x) {
        var j :| 0 <= j < |c| && c[j].key == x;
        assert Without(c, k)[if j < i then j else j - 1].key == x;
      }
    } else {
      WithoutNone(c, k);
    }
  }

  /** After any trace the keys are distinct and there are at most cap of them. */
  lemma {:induction false} RunIsCache(cap: nat, trace: seq<Request>)
    ensures Distinct(Run(cap, trace)) && |Run(cap, trace)| <= cap
    decreases |trace|
  {
    if trace != [] {
      var c, r := Run(cap, trace[..|trace| - 1]), trace[|trace| - 1];
      RunIsCache(cap, trace[..|trace| - 1]);
      WithoutKeeps(c, r.key);
      LookupIsHas(c, r.key);
    }
  }

  lemma AfterKeepsInclusion(n: nat, m: nat, s: seq<Entry>, l: seq<Entry>, r: Request)
    requires n <= m && Distinct(s) && Distinct(l) && |s| <= n && Subsequence(s, l) && (|s| < n ==> s == l)
    ensures Subsequence(After(s, n, r), After(l, m, r))
    ensures |After(s, n, r)| < n ==> After(s, n, r) == After(l, m, r)
  {
    var k := r.key;
    LookupIsHas(s, k); LookupIsHas(l, k);
    WithoutKeeps(s, k); WithoutKeeps(l, k);
    SubsequenceWithout(s, l, k);
    if Has(s, k) {
      SubsequenceLookup(s, l, k);
      SubsequenceAppends(Without(s, k), Without(l, k), Entry(k, if r.Put? then r.val else Lookup(s, k).value));
    } else {
      WithoutNone(s, k);
      if r.Get? {
        if Has(l, k) { SubsequencePads(s, Without(l, k), Entry(k, Lookup(l, k).value)); }
      } else if n > 0 {
        var e := Entry(k, r.val);
        if |s| == n {
          SubsequenceDropsFirst(s, l);
          SubsequenceDropsFirst(s, Without(l, k));
          SubsequenceAppends(s[1..], l, e);
          SubsequenceAppends(s[1..], l[1..], e);
          SubsequenceAppends(s[1..], Without(l, k), e);
        } else {
          SubsequenceAppends(s, l, e);
        }
      }
    }
  }

  lemma {:induction false} RunsAreIncluded(n: nat, m: nat, trace: seq<Request>)
    requires n <= m
    ensures Subsequence(Run(n, trace), Run(m, trace))
    ensures |Run(n, trace)| < n ==> Run(n, trace) == Run(m, trace)
    decreases |trace|
  {
    if trace != [] {
      var before := trace[..|trace| - 1];
      RunsAreIncluded(n, m, before);
      RunIsCache(n, before);
      RunIsCache(m, before);
      AfterKeepsInclusion(n, m, Run(n, before), Run(m, before), trace[|trace| - 1]);
    }
  }

  /** Inclusion: whatever the smaller cache holds, the larger one holds with the same value, so a
      Get that hits in the smaller hits in the larger with the same answer. */
  lemma LargerCacheHoldsMore(n: nat, m: nat, trace: seq<Request>, k: Key)
    requires n <= m && Has(Run(n, trace), k)
    ensures Has(Run(m, trace), k) && Lookup(Run(m, trace), k) == Lookup(Run(n, trace), k)
  {
    RunsAreIncluded(n, m, trace);
    RunIsCache(n, trace);
    RunIsCache(m, trace);
    SubsequenceLookup(Run(n, trace), Run(m, trace), k);
  }

  // ---------------------------------------------------------------- recency and values

  /** Position of the last request for k, or -1. */
  function LastRequest(trace: seq<Request>, k: Key): int
    decreases |trace|
  {
    if trace == [] then -1
    else if trace[|trace| - 1].key == k then |trace| - 1
    else LastRequest(trace[..|trace| - 1], k)
  }

  /** Value of the last Put of k. */
  function LastPut(trace: seq<Request>, k: Key): Option<Value>
    decreases |trace|
  {
    if trace == [] then None
    else
      var r := trace[|trace| - 1];
      if r.Put? && r.key == k then Some(r.val) else LastPut(trace[..|trace| - 1], k)
  }

  ghost predicate InOrder(c: seq<Entry>, trace: seq<Request>) {
    && (forall i, j :: 0 <= i < j < |c| ==> LastRequest(trace, c[i].key) < LastRequest(trace, c[j].key))
    && (forall i :: 0 <= i < |c| ==> LastPut(trace, c[i].key) == Some(c[i].val))
  }

  lemma LastRequestBound(trace: seq<Request>, k: Key)
    ensures LastRequest(trace, k) < |trace|
    decreases |trace|
  {
  }

  lemma RequestOf(before: seq<Request>, r: Request, k: Key)
    ensures LastRequest(before + [r], k) == if r.key == k then |before| else LastRequest(before, k)
    ensures LastPut(before + [r], k) == if r.Put? && r.key == k then Some(r.val) else LastPut(before, k)
    ensures LastRequest(before, k) < |before|
  {
    assert (before + [r])[..|before|] == before;
    LastRequestBound(before, k);
  }

  /** Touching k moves it to the recent end. */
  lemma TouchInOrder(c: seq<Entry>, before: seq<Request>, r: Request, v: Value)
    requires InOrder(c, before) && !Has(c, r.key)
    requires LastPut(before + [r], r.key) == Some(v)
    ensures InOrder(c + [Entry(r.key, v)], before + [r])
  {
    forall i | 0 <= i < |c|
      ensures LastRequest(before + [r], c[i].key) == LastRequest(before, c[i].key) < |before|
      ensures LastPut(before + [r], c[i].key) == LastPut(before, c[i].key)
    {
      RequestOf(before, r, c[i].key);
    }
    RequestOf(before, r, r.key);
  }

  lemma AfterHitIsInOrder(c: seq<Entry>, cap: nat, before: seq<Request>, r: Request, i: nat)
    requires InOrder(c, before) && Distinct(c) && cap > 0 && i < |c| && c[i].key == r.key
    ensures InOrder(After(c, cap, r), before + [r])
  {
    LookupIsHas(c, r.key);
    RequestOf(before, r, r.key);
    WithoutOne(c, i);
    WithoutKeeps(c, r.key);
    TouchInOrder(Without(c, r.key), before, r, if r.Put? then r.val else c[i].val);
  }

  /** A miss that changes nothing. */
  lemma SkipIsInOrder(c: seq<Entry>, before: seq<Request>, r: Request)
    requires InOrder(c, before) && !Has(c, r.key)
    ensures InOrder(c, before + [r])
  {
    forall i | 0 <= i < |c| ensures LastRequest(before + [r], c[i].key) == LastRequest(before, c[i].key)
                            ensures LastPut(before + [r], c[i].key) == LastPut(before, c[i].key) {
      RequestOf(before, r, c[i].key);
    }
  }

  lemma AfterIsInOrder(c: seq<Entry>, cap: nat, before: seq<Request>, r: Request)
    requires InOrder(c, before) && Distinct(c) && (cap == 0 ==> c == [])
    ensures InOrder(After(c, cap, r), before + [r])
  {
    LookupIsHas(c, r.key);
    if i :| 0 <= i < |c| && c[i].key == r.key {
      AfterHitIsInOrder(c, cap, before, r, i);
    } else if r.Put? && cap > 0 {
      RequestOf(before, r, r.key);
      TouchInOrder(if |c| >= cap then c[1..] else c, before, r, r.val);
    } else {
      SkipIsInOrder(c, before, r);
    }
  }

  /** The entries are ordered by when their keys were last requested, and each carries the value
      last put for its key. */
  lemma {:induction false} RunIsInOrder(cap: nat, trace: seq<Request>)
    ensures InOrder(Run(cap, trace), trace)
    decreases |trace|
  {
    if trace != [] {
      var before, r := trace[..|trace| - 1], trace[|trace| - 1];
      RunIsInOrder(cap, before);
      RunIsCache(cap, before);
      AfterIsInOrder(Run(cap, before), cap, before, r);
      assert before + [r] == trace;
    }
  }

  /** A Put into a full cache gives up exactly the key that was requested longest ago. */
  lemma EvictsLeastRecent(cap: nat, trace: seq<Request>, k: Key, v: Value)
    requires cap > 0 && |Run(cap, trace)| == cap && !Has(Run(cap, trace), k)
    ensures
      var c, c' := Run(cap, trace), Run(cap, trace + [Put(k, v)]);
      && |c'| == cap && Has(c', k)
      && (forall x :: x != k ==> (Has(c', x) <==> Has(c, x) && x != c[0].key))
      && (forall i :: 0 < i < |c| ==> LastRequest(trace, c[0].key) < LastRequest(trace, c[i].key))
  {
    var c, c' := Run(cap, trace), Run(cap, trace + [Put(k, v)]);
    assert (trace + [Put(k, v)])[..|trace|] == trace;
    assert c' == c[1..] + [Entry(k, v)];
    RunIsInOrder(cap, trace);
    RunIsCache(cap, trace);
    assert c'[|c'| - 1].key == k;
    forall x | x != k && Has(c, x) && x != c[0].key ensures Has(c', x) {
      var i :| 0 <= i < |c| && c[i].key == x;
      assert c'[i - 1].key == x;
    }
  }
}
