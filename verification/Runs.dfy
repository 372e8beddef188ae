/** Runs of a step machine: finite sequences of states in which every state follows
    from the one before it.  The modules of this project model threads and processes
    as such machines, so a statement about every run is a statement about every
    interleaving. */
module Runs {

  /** `tr` is a finite run under the step relation `next`, from its first state on. */
  ghost predicate IsRun<S(!new)>(next: (S, S) -> bool, tr: seq<S>)
  {
    && |tr| > 0
    && (|tr| > 1 ==> IsRun(next, tr[..|tr| - 1]) && next(tr[|tr| - 2], tr[|tr| - 1]))
  }

  function Last<S>(tr: seq<S>): S
    requires |tr| > 0
  {
    tr[|tr| - 1]
  }

  /** What holds at first and is kept by every step holds at the end of every run. */
  lemma {:induction false} Invariant<S(!new)>(next: (S, S) -> bool, inv: S -> bool, tr: seq<S>)
    requires IsRun(next, tr) && inv(tr[0])
    requires forall s, s' :: inv(s) && next(s, s') ==> inv(s')
    ensures inv(Last(tr))
  {
    if |tr| > 1 {
      var prefix := tr[..|tr| - 1];
      Invariant(next, inv, prefix);
      assert inv(tr[|tr| - 2]) && next(tr[|tr| - 2], tr[|tr| - 1]);
    }
  }

  /** A measure that every step raises by exactly one counts the steps of a run. */
  lemma {:induction false} StepCount<S(!new)>(next: (S, S) -> bool, inv: S -> bool, clock: S -> int, tr: seq<S>)
    requires IsRun(next, tr) && inv(tr[0])
    requires forall s, s' :: inv(s) && next(s, s') ==> inv(s') && clock(s') == clock(s) + 1
    ensures inv(Last(tr))
    ensures clock(Last(tr)) == clock(tr[0]) + |tr| - 1
  {
    if |tr| > 1 {
      var prefix := tr[..|tr| - 1];
      StepCount(next, inv, clock, prefix);
      assert inv(tr[|tr| - 2]) && next(tr[|tr| - 2], tr[|tr| - 1]);
    }
  }

  /** One more step makes a longer run. */
  lemma Extend<S(!new)>(next: (S, S) -> bool, tr: seq<S>, s: S)
    requires IsRun(next, tr) && next(Last(tr), s)
    ensures IsRun(next, tr + [s])
    ensures Last(tr + [s]) == s && (tr + [s])[0] == tr[0]
  {
    assert (tr + [s])[..|tr + [s]| - 1] == tr;
  }

  /** `t` is in every set of states that contains `s` and is closed under steps. */
  ghost predicate Reaches<S(!new)>(next: (S, S) -> bool, s: S, t: S) {
    forall closed: S -> bool ::
      closed(s) && (forall u, v :: closed(u) && next(u, v) ==> closed(v)) ==> closed(t)
  }

  lemma ReachesStep<S(!new)>(next: (S, S) -> bool, s: S, t: S)
    requires next(s, t)
    ensures Reaches(next, s, t)
  {
  }

  lemma ReachesTrans<S(!new)>(next: (S, S) -> bool, s: S, t: S, u: S)
    requires Reaches(next, s, t) && Reaches(next, t, u)
    ensures Reaches(next, s, u)
  {
  }

  /** What can be reached is reached by a run. */
  lemma RunTo<S(!new)>(next: (S, S) -> bool, s: S, t: S) returns (tr: seq<S>)
    requires Reaches(next, s, t)
    ensures IsRun(next, tr) && tr[0] == s && Last(tr) == t
  {
    var closed := u => exists tr :: IsRun(next, tr) && tr[0] == s && Last(tr) == u;
    assert closed(s) by {
      assert IsRun(next, [s]);
    }
    forall u, v | closed(u) && next(u, v) ensures closed(v) {
      var tr :| IsRun(next, tr) && tr[0] == s && Last(tr) == u;
      Extend(next, tr, v);
    }
    tr :| IsRun(next, tr) && tr[0] == s && Last(tr) == t;
  }
}

/** Sums over the threads of a machine. */
module Sums {

  function Total<T>(f: T -> int, xs: seq<T>): int {
    if xs == [] then 0 else f(xs[0]) + Total(f, xs[1..])
  }

  lemma {:induction false} TotalUpdate<T>(f: T -> int, xs: seq<T>, i: nat, x: T)
    requires i < |xs|
    ensures Total(f, xs[i := x]) == Total(f, xs) - f(xs[i]) + f(x)
  {
    if i == 0 {
      assert xs[i := x][1..] == xs[1..];
    } else {
      assert xs[i := x][1..] == xs[1..][i - 1 := x];
      TotalUpdate(f, xs[1..], i - 1, x);
    }
  }

  lemma {:induction false} TotalWithin<T>(f: T -> int, xs: seq<T>, lo: int, hi: int)
    requires forall i :: 0 <= i < |xs| ==> lo <= f(xs[i]) <= hi
    ensures lo * |xs| <= Total(f, xs) <= hi * |xs|
  {
    if xs != [] {
      TotalWithin(f, xs[1..], lo, hi);
    }
  }

  lemma {:induction false} TotalConstant<T>(f: T -> int, xs: seq<T>, k: int)
    requires forall i :: 0 <= i < |xs| ==> f(xs[i]) == k
    ensures Total(f, xs) == k * |xs|
  {
    if xs != [] {
      TotalConstant(f, xs[1..], k);
    }
  }

  /** Two different places cannot contribute more than the whole sum. */
  lemma {:induction false} TotalPair<T>(f: T -> int, xs: seq<T>, i: nat, j: nat)
    requires i < j < |xs|
    requires forall k :: 0 <= k < |xs| ==> 0 <= f(xs[k])
    ensures f(xs[i]) + f(xs[j]) <= Total(f, xs)
  {
    if i == 0 {
      TotalAtLeast(f, xs[1..], j - 1);
    } else {
      TotalPair(f, xs[1..], i - 1, j - 1);
    }
  }

  lemma {:induction false} TotalAtLeast<T>(f: T -> int, xs: seq<T>, i: nat)
    requires i < |xs|
    requires forall k :: 0 <= k < |xs| ==> 0 <= f(xs[k])
    ensures 0 <= f(xs[i]) <= Total(f, xs)
  {
    TotalNonNegative(f, xs[1..]);
    if i > 0 {
      TotalAtLeast(f, xs[1..], i - 1);
    }
  }

  lemma {:induction false} TotalNonNegative<T>(f: T -> int, xs: seq<T>)
    requires forall k :: 0 <= k < |xs| ==> 0 <= f(xs[k])
    ensures 0 <= Total(f, xs)
  {
    if xs != [] {
      TotalNonNegative(f, xs[1..]);
    }
  }

  /** A positive sum has a positive term. */
  lemma {:induction false} TotalPositive<T>(f: T -> int, xs: seq<T>) returns (i: nat)
    requires Total(f, xs) > 0
    ensures i < |xs| && f(xs[i]) > 0
  {
    if f(xs[0]) > 0 {
      i := 0;
    } else {
      var k := TotalPositive(f, xs[1..]);
      i := k + 1;
    }
  }
}
