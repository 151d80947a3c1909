/** Sums over the threads of a machine: what one thread adds when it moves, the sum gains. */
module Counting {
  function Sum<T>(f: T -> nat, s: seq<T>): nat {
    if s == [] then 0 else f(s[0]) + Sum(f, s[1..])
  }

  lemma {:induction false} SumUpdate<T>(f: T -> nat, s: seq<T>, i: nat, x: T)
    requires i < |s|
    ensures Sum(f, s[i := x]) + f(s[i]) == Sum(f, s) + f(x)
  {
    if i == 0 {
      assert s[i := x][1..] == s[1..];
    } else {
      SumUpdate(f, s[1..], i - 1, x);
      assert s[i := x][1..] == s[1..][i - 1 := x];
    }
  }

  /** A sum is zero exactly when every term is. */
  lemma {:induction false} SumZero<T>(f: T -> nat, s: seq<T>)
    ensures Sum(f, s) == 0 <==> forall i :: 0 <= i < |s| ==> f(s[i]) == 0
  {
    if s != [] {
      SumZero(f, s[1..]);
      if Sum(f, s) == 0 {
        forall i | 0 <= i < |s| ensures f(s[i]) == 0 { if i > 0 { assert s[i] == s[1..][i - 1]; } }
      } else if f(s[0]) == 0 {
        var i :| 0 <= i < |s[1..]| && f(s[1..][i]) != 0;
        assert f(s[i + 1]) != 0;
      }
    }
  }

  lemma {:induction false} SumAtLeast<T>(f: T -> nat, s: seq<T>, i: nat)
    requires i < |s|
    ensures f(s[i]) <= Sum(f, s)
  {
    if i > 0 { SumAtLeast(f, s[1..], i - 1); }
  }

  lemma {:induction false} SumAtLeastTwo<T>(f: T -> nat, s: seq<T>, i: nat, j: nat)
    requires i < j < |s|
    ensures f(s[i]) + f(s[j]) <= Sum(f, s)
  {
    if i == 0 { SumAtLeast(f, s[1..], j - 1); } else { SumAtLeastTwo(f, s[1..], i - 1, j - 1); }
  }

  /** Counting by an indicator: at most |s|, and |s| exactly when every element is counted. */
  lemma {:induction false} CountAll<T>(f: T -> nat, s: seq<T>)
    requires forall i :: 0 <= i < |s| ==> f(s[i]) <= 1
    ensures Sum(f, s) <= |s|
    ensures Sum(f, s) == |s| <==> forall i :: 0 <= i < |s| ==> f(s[i]) == 1
  {
    if s != [] {
      assert forall i :: 0 <= i < |s[1..]| ==> s[1..][i] == s[i + 1];
      CountAll(f, s[1..]);
      if forall i :: 0 <= i < |s| ==> f(s[i]) == 1 {
        assert f(s[0]) == 1;
      } else if f(s[0]) == 1 {
        var i :| 0 <= i < |s| && f(s[i]) != 1;
        assert s[1..][i - 1] == s[i];
      }
      if Sum(f, s) == |s| {
        forall i | 0 <= i < |s| ensures f(s[i]) == 1 { if i > 0 { assert s[1..][i - 1] == s[i]; } }
      }
    }
  }

  lemma {:induction false} SumAtMost<T>(f: T -> nat, s: seq<T>, bound: nat)
    requires forall i :: 0 <= i < |s| ==> f(s[i]) <= bound
    ensures Sum(f, s) <= bound * |s|
  {
    if s != [] {
      assert forall i :: 0 <= i < |s[1..]| ==> s[1..][i] == s[i + 1];
      SumAtMost(f, s[1..], bound);
      assert bound * |s| == bound * (|s| - 1) + bound;
    }
  }
}
