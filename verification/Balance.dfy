/** The shared balance of pthread_example.c: any number of withdrawals, each of which
    loads the balance, subtracts and stores it while it holds the mutex. */
module BalanceModel {
  import opened Runs
  import opened Sums

  /** `total_money -= money` is a load and a store. */
  datatype Pc = AtLock | AtLoad | AtStore | AtUnlock | Exited

  datatype Thread = Thread(money: int, pc: Pc, loaded: int)

  datatype State = State(start: int, totalMoney: int, mutexFree: bool, threads: seq<Thread>, joined: nat)

  ghost predicate Init(s: State) {
    && s.totalMoney == s.start && s.mutexFree && s.joined == 0
    && forall t :: 0 <= t < |s.threads| ==> s.threads[t].pc == AtLock
  }

  /** `t` from 0 on are the withdrawals; -1 is main, which joins them one after another. */
  predicate Enabled(s: State, t: int)
    requires -1 <= t < |s.threads|
  {
    if t == -1 then s.joined < |s.threads| && s.threads[s.joined].pc == Exited
    else
      match s.threads[t].pc
      case AtLock => s.mutexFree
      case Exited => false
      case _ => true
  }

  function SetThread(s: State, t: nat, th: Thread): State
    requires t < |s.threads|
  {
    s.(threads := s.threads[t := th])
  }

  function Step(s: State, t: int): State
    requires -1 <= t < |s.threads|
  {
    if t == -1 then s.(joined := s.joined + 1)
    else
      var th := s.threads[t];
      match th.pc
      case AtLock => SetThread(s, t, th.(pc := AtLoad)).(mutexFree := false)
      case AtLoad => SetThread(s, t, th.(pc := AtStore, loaded := s.totalMoney))
      case AtStore => SetThread(s, t, th.(pc := AtUnlock)).(totalMoney := th.loaded - th.money)
      case AtUnlock => SetThread(s, t, th.(pc := Exited)).(mutexFree := true)
      case Exited => s
  }

  ghost predicate Next(s: State, s': State) {
    exists t :: -1 <= t < |s.threads| && Enabled(s, t) && s' == Step(s, t)
  }

  function Holds(th: Thread): int { if th.pc in {AtLoad, AtStore, AtUnlock} then 1 else 0 }

  /** What a thread has taken from the balance so far. */
  function Withdrawn(th: Thread): int { if th.pc in {AtUnlock, Exited} then th.money else 0 }

  function Amount(th: Thread): int { th.money }

  function Taken(th: Thread): int {
    match th.pc case AtLock => 0 case AtLoad => 1 case AtStore => 2 case AtUnlock => 3 case Exited => 4
  }

  function Clock(s: State): int { Total(Taken, s.threads) + s.joined }

  ghost predicate Inv(s: State) {
    && Total(Holds, s.threads) == (if s.mutexFree then 0 else 1)
    && s.totalMoney == s.start - Total(Withdrawn, s.threads)
    && (forall t :: 0 <= t < |s.threads| && s.threads[t].pc == AtStore ==> s.threads[t].loaded == s.totalMoney)
    && s.joined <= |s.threads|
    && (forall t :: 0 <= t < s.joined ==> s.threads[t].pc == Exited)
  }

  /** While one withdrawal is between lock and unlock no other is. */
  lemma Exclusive(s: State, t: nat)
    requires Inv(s) && t < |s.threads| && Holds(s.threads[t]) == 1
    ensures !s.mutexFree
    ensures forall u :: 0 <= u < |s.threads| && u != t ==> Holds(s.threads[u]) == 0
  {
    TotalAtLeast(Holds, s.threads, t);
    forall u | 0 <= u < |s.threads| && u != t ensures Holds(s.threads[u]) == 0 {
      if u < t { TotalPair(Holds, s.threads, u, t); } else { TotalPair(Holds, s.threads, t, u); }
    }
  }

  ghost predicate SameProgram(s: State, s': State) {
    && s'.start == s.start && |s'.threads| == |s.threads|
    && (forall t :: 0 <= t < |s.threads| ==> s'.threads[t].money == s.threads[t].money)
    && Total(Amount, s'.threads) == Total(Amount, s.threads)
  }

  lemma StepIsLocal(s: State, t: nat) returns (th: Thread)
    requires t < |s.threads| && Enabled(s, t)
    requires s.threads[t].pc == AtStore ==> s.threads[t].loaded == s.totalMoney
    requires Holds(s.threads[t]) == 1 ==> !s.mutexFree
    ensures Step(s, t).threads == s.threads[t := th] && Step(s, t).start == s.start
    ensures Step(s, t).joined == s.joined
    ensures th.money == s.threads[t].money && Taken(th) == Taken(s.threads[t]) + 1
    ensures Step(s, t).totalMoney + Withdrawn(th) == s.totalMoney + Withdrawn(s.threads[t])
    ensures Holds(th) - Holds(s.threads[t]) == (if s.mutexFree then 1 else 0) - (if Step(s, t).mutexFree then 1 else 0)
    ensures th.pc == AtStore ==> th.loaded == Step(s, t).totalMoney
    ensures Step(s, t).totalMoney != s.totalMoney ==> Holds(s.threads[t]) == 1
    ensures s.threads[t].pc != Exited
  {
    th := Step(s, t).threads[t];
  }

  lemma StepKeepsInv(s: State, t: int)
    requires Inv(s) && -1 <= t < |s.threads| && Enabled(s, t)
    ensures Inv(Step(s, t)) && SameProgram(s, Step(s, t))
    ensures Clock(Step(s, t)) == Clock(s) + 1
  {
    if t >= 0 {
      if Holds(s.threads[t]) == 1 {
        Exclusive(s, t);
      }
      var th := StepIsLocal(s, t);
      TotalUpdate(Holds, s.threads, t, th);
      TotalUpdate(Withdrawn, s.threads, t, th);
      TotalUpdate(Amount, s.threads, t, th);
      TotalUpdate(Taken, s.threads, t, th);
    }
  }

  lemma InvRun(tr: seq<State>)
    requires IsRun(Next, tr) && Init(tr[0])
    ensures Inv(Last(tr)) && SameProgram(tr[0], Last(tr))
    ensures Clock(Last(tr)) == |tr| - 1
  {
    TotalConstant(Holds, tr[0].threads, 0);
    TotalConstant(Withdrawn, tr[0].threads, 0);
    TotalConstant(Taken, tr[0].threads, 0);
    var inv := s => Inv(s) && SameProgram(tr[0], s);
    forall s, s' | inv(s) && Next(s, s') ensures inv(s') && Clock(s') == Clock(s) + 1 {
      var t :| -1 <= t < |s.threads| && Enabled(s, t) && s' == Step(s, t);
      StepKeepsInv(s, t);
    }
    StepCount(Next, inv, Clock, tr);
  }

  lemma {:induction false} AllWithdrawn(threads: seq<Thread>)
    requires forall t :: 0 <= t < |threads| ==> threads[t].pc == Exited
    ensures Total(Withdrawn, threads) == Total(Amount, threads)
  {
    if threads != [] {
      AllWithdrawn(threads[1..]);
    }
  }

  /** No withdrawal is lost: in every reachable state the balance is the start less what
      the threads past their store took, and when main has joined them all it is the
      start less the sum of all amounts, whatever the order. */
  lemma BalanceConserved(tr: seq<State>)
    requires IsRun(Next, tr) && Init(tr[0])
    ensures Last(tr).totalMoney == tr[0].start - Total(Withdrawn, Last(tr).threads)
    ensures Last(tr).joined == |tr[0].threads| ==>
              Last(tr).totalMoney == tr[0].start - Total(Amount, tr[0].threads)
  {
    InvRun(tr);
    if Last(tr).joined == |tr[0].threads| {
      AllWithdrawn(Last(tr).threads);
    }
  }

  /** Every schedule takes exactly 5 * N steps to main's last join, and never sticks. */
  lemma RunLength(tr: seq<State>)
    requires IsRun(Next, tr) && Init(tr[0])
    ensures |tr| - 1 <= 5 * |tr[0].threads|
    ensures |tr| - 1 == 5 * |tr[0].threads| <==> Last(tr).joined == |tr[0].threads|
    ensures Last(tr).joined < |tr[0].threads| ==>
              exists t :: -1 <= t < |Last(tr).threads| && Enabled(Last(tr), t)
  {
    InvRun(tr);
    var s := Last(tr);
    TotalWithin(Taken, s.threads, 0, 4);
    if s.joined == |s.threads| {
      TotalConstant(Taken, s.threads, 4);
    } else if !s.mutexFree {
      var h := TotalPositive(Holds, s.threads);
      assert Enabled(s, h);
    } else if s.threads[s.joined].pc == Exited {
      assert Enabled(s, -1);
    } else {
      NobodyHolds(s, s.joined);
      assert Enabled(s, s.joined);
    }
  }

  lemma NobodyHolds(s: State, t: nat)
    requires Inv(s) && s.mutexFree && t < |s.threads|
    ensures Holds(s.threads[t]) == 0
  {
    TotalAtLeast(Holds, s.threads, t);
  }
}

/** The program as it changes its balance. */
module BalanceProgram {
  import opened Runs
  import opened Sums
  import opened BalanceModel

  class Account {
    const start: int
    var totalMoney: int
    var mutexFree: bool
    var threads: seq<Thread>
    var joined: nat

    constructor (start: int, amounts: seq<int>)
      ensures Init(Now()) && this.start == start && |threads| == |amounts|
      ensures forall t :: 0 <= t < |amounts| ==> threads[t].money == amounts[t]
    {
      this.start, totalMoney, mutexFree, joined := start, start, true, 0;
      threads := seq(|amounts|, t requires 0 <= t < |amounts| => Thread(amounts[t], AtLock, 0));
    }

    function Now(): State
      reads this
    {
      State(start, totalMoney, mutexFree, threads, joined)
    }

    /** One step of `withdrawal`, or main's next join. */
    method Advance(t: int)
      requires -1 <= t < |threads| && Enabled(Now(), t)
      modifies this
      ensures Now() == Step(old(Now()), t)
    {
      if t == -1 {
        joined := joined + 1;
      } else {
        var th := threads[t];
        match th.pc
        case AtLock =>
          mutexFree := false;
          threads := threads[t := th.(pc := AtLoad)];
        case AtLoad =>
          threads := threads[t := th.(pc := AtStore, loaded := totalMoney)];
        case AtStore =>
          totalMoney := th.loaded - th.money;
          threads := threads[t := th.(pc := AtUnlock)];
        case AtUnlock =>
          mutexFree := true;
          threads := threads[t := th.(pc := Exited)];
      }
    }

    /** main to the end of its joins, under any schedule; the result is what it prints. */
    method RunToEnd() returns (remained: int)
      requires Init(Now())
      modifies this
      ensures Reaches(Next, old(Now()), Now()) && SameProgram(old(Now()), Now())
      ensures remained == totalMoney == start - Total(Amount, old(threads))
    {
      while joined < |threads|
        invariant Reaches(Next, old(Now()), Now())
        invariant |threads| == |old(threads)| && joined <= |threads|
        decreases 5 * |old(threads)| - Clock(Now())
      {
        GoOn(old(Now()), Now());
        var t: int :| -1 <= t < |threads| && Enabled(Now(), t);
        Advance(t);
      }
      ghost var tr := RunTo(Next, old(Now()), Now());
      InvRun(tr);
      BalanceConserved(tr);
      remained := totalMoney;
    }
  }

  /** Before the last join somebody can step, and few enough steps are left. */
  lemma GoOn(s0: State, s: State)
    requires Init(s0) && Reaches(Next, s0, s) && s.joined < |s0.threads|
    ensures |s.threads| == |s0.threads| && Clock(s) < 5 * |s0.threads|
    ensures exists t :: -1 <= t < |s.threads| && Enabled(s, t)
    ensures forall t :: -1 <= t < |s.threads| && Enabled(s, t) ==>
              && Reaches(Next, s0, Step(s, t)) && Clock(Step(s, t)) == Clock(s) + 1
              && |Step(s, t).threads| == |s0.threads| && Step(s, t).joined <= |s0.threads|
  {
    var tr := RunTo(Next, s0, s);
    InvRun(tr);
    RunLength(tr);
    forall t | -1 <= t < |s.threads| && Enabled(s, t)
      ensures Reaches(Next, s0, Step(s, t)) && Clock(Step(s, t)) == Clock(s) + 1
      ensures |Step(s, t).threads| == |s0.threads| && Step(s, t).joined <= |s0.threads|
    {
      StepKeepsInv(s, t);
      assert Next(s, Step(s, t));
      ReachesStep(Next, s, Step(s, t));
      ReachesTrans(Next, s0, s, Step(s, t));
    }
  }
}
