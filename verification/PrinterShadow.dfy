/** The printer threads and their cursor: every run of the printer moves its cursor as
    the machine of `PrinterCursor` can, and with the semaphore off everything that
    machine can do is done by some run of the printer. */
module PrinterShadow {
  import opened Runs
  import opened PrinterModel
  import C = PrinterCursor

  function RoleOf(th: Thread): C.Role {
    match th.pc
    case AtLoad => C.Ready
    case AtStore => C.Holding(th.loaded)
    case AtV => if th.b then C.Idle else C.Gone
    case Exited => C.Gone
    case _ => C.Idle
  }

  function Roles(threads: seq<Thread>): (r: seq<C.Role>)
    ensures |r| == |threads| && forall t :: 0 <= t < |threads| ==> r[t] == RoleOf(threads[t])
  {
    seq(|threads|, t requires 0 <= t < |threads| => RoleOf(threads[t]))
  }

  function View(s: State): C.Cursor {
    C.Cursor(|s.text|, s.sharedIndex, Roles(s.threads), s.fetched)
  }

  lemma RolesUpdate(threads: seq<Thread>, t: nat, th: Thread)
    requires t < |threads|
    ensures Roles(threads[t := th]) == Roles(threads)[t := RoleOf(th)]
  {
  }

  // ---------- from the printer to its cursor ----------

  /** A printer step is a step of the cursor machine or does not touch it. */
  lemma ViewStep(s: State, t: nat)
    requires t < |s.threads| && s.threads[t].pc != Exited && FlagOk(s.threads[t])
    ensures View(Step(s, t)) == View(s) || C.Next(View(s), View(Step(s, t)))
  {
    var th := StepIsLocal(s, t);
    RolesUpdate(s.threads, t, th);
    if s.threads[t].pc in {AtCheck, AtLoad, AtStore} {
      assert View(Step(s, t)) == C.Step(View(s), t);
    } else {
      assert Roles(s.threads)[t := RoleOf(th)] == Roles(s.threads);
    }
  }

  lemma Shadow(tr: seq<State>) returns (ctr: seq<C.Cursor>)
    requires IsRun(Next, tr) && Init(tr[0])
    ensures IsRun(C.Next, ctr) && ctr[0] == View(tr[0]) && Last(ctr) == View(Last(tr))
    ensures C.Init(ctr[0])
  {
    var c0 := View(tr[0]);
    var inv := s => Common(s) && Reaches(C.Next, c0, View(s));
    forall s, s' | inv(s) && Next(s, s') ensures inv(s') {
      var t: nat :| t < |s.threads| && Enabled(s, t) && s' == Step(s, t);
      assert ThreadCovered(s.fetched, |s.text|, s.threads[t]);
      CommonStep(s, t);
      ViewStep(s, t);
      if View(s') != View(s) {
        ReachesStep(C.Next, View(s), View(s'));
        ReachesTrans(C.Next, c0, View(s), View(s'));
      }
    }
    InitCommon(tr[0]);
    Invariant(Next, inv, tr);
    ctr := RunTo(C.Next, c0, View(Last(tr)));
  }

  // ---------- from the cursor to the printer ----------

  /** The semaphore is off and every thread stands where its next step concerns the
      cursor, or before P. */
  ghost predicate Settled(s: State) {
    && !s.semUse
    && forall t :: 0 <= t < |s.threads| ==>
         s.threads[t].pc in {AtP, AtLoad, AtStore, Exited} && FlagOk(s.threads[t])
  }

  /** Carries a run from `s0` on by a step of thread `t`. */
  lemma Take(s0: State, s: State, t: nat) returns (s': State)
    requires Reaches(Next, s0, s) && t < |s.threads| && Enabled(s, t)
    ensures Reaches(Next, s0, s') && s' == Step(s, t)
  {
    s' := Step(s, t);
    assert Next(s, s');
    ReachesStep(Next, s, s');
    ReachesTrans(Next, s0, s, s');
  }

  lemma ImitateCheck(s0: State, s: State, t: nat) returns (s': State)
    requires Reaches(Next, s0, s) && Settled(s) && t < |s.threads| && s.threads[t].pc == AtP
    ensures Reaches(Next, s0, s') && Settled(s') && View(s') == C.Step(View(s), t)
  {
    s' := Take(s0, s, t);
    s' := Take(s0, s', t);
    if s.sharedIndex >= |s.text| {
      s' := Take(s0, s', t);
    }
  }

  lemma ImitateStore(s0: State, s: State, t: nat) returns (s': State)
    requires Reaches(Next, s0, s) && Settled(s) && t < |s.threads| && s.threads[t].pc == AtStore
    ensures Reaches(Next, s0, s') && Settled(s') && View(s') == C.Step(View(s), t)
  {
    s' := Take(s0, s, t);
    s' := Take(s0, s', t);
    s' := Take(s0, s', t);
  }

  lemma ImitateStep(s0: State, s: State, t: nat) returns (s': State)
    requires Reaches(Next, s0, s) && Settled(s) && t < |s.threads| && RoleOf(s.threads[t]) != C.Gone
    ensures Reaches(Next, s0, s') && Settled(s') && View(s') == C.Step(View(s), t)
  {
    if s.threads[t].pc == AtP {
      s' := ImitateCheck(s0, s, t);
    } else if s.threads[t].pc == AtStore {
      s' := ImitateStore(s0, s, t);
    } else {
      s' := Take(s0, s, t);
    }
  }

  lemma {:induction false} CreateAll(s0: State, s: State, k: nat) returns (s': State)
    requires Reaches(Next, s0, s) && k <= |s.threads| && !s.semUse
    requires forall t :: 0 <= t < |s.threads| ==>
      s.threads[t].pc == (if t < k then AtP else NotCreated) && FlagOk(s.threads[t])
    ensures Reaches(Next, s0, s') && Settled(s') && View(s') == View(s)
    decreases |s.threads| - k
  {
    s' := s;
    if k < |s.threads| {
      s' := Take(s0, s, k);
      assert Roles(s'.threads) == Roles(s.threads);
      s' := CreateAll(s0, s', k + 1);
    }
  }

  /** With the semaphore off the printer does whatever its cursor can do. */
  lemma Imitate(s: State, ctr: seq<C.Cursor>) returns (tr: seq<State>)
    requires Init(s) && !s.semUse
    requires IsRun(C.Next, ctr) && ctr[0] == View(s)
    ensures IsRun(Next, tr) && tr[0] == s && View(Last(tr)) == Last(ctr)
  {
    var inv := c => exists u :: Reaches(Next, s, u) && Settled(u) && View(u) == c;
    var s' := CreateAll(s, s, 0);
    forall c, c' | inv(c) && C.Next(c, c') ensures inv(c') {
      var u :| Reaches(Next, s, u) && Settled(u) && View(u) == c;
      var t: nat :| t < |c.roles| && c.roles[t] != C.Gone && c' == C.Step(c, t);
      var u' := ImitateStep(s, u, t);
    }
    Invariant(C.Next, inv, ctr);
    var u :| Reaches(Next, s, u) && Settled(u) && View(u) == Last(ctr);
    tr := RunTo(Next, s, u);
  }
}
