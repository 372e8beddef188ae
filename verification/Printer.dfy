/** The shared-cursor printer of SysV/sem_example.c: any number of threads share one
    cursor over one text and print a character each time round, under a binary
    semaphore when `semUse` is set and without it otherwise. */
module PrinterModel {
  import opened Runs
  import opened Sums

  /** The places between two shared accesses of `print_one`.  `NotCreated` is the
      time before `main` has reached `pthread_create` for the thread.  The increment
      `shared_index++` is what it is in C: a load and a later store. */
  datatype Pc = NotCreated | AtP | AtCheck | AtLoad | AtStore | AtPut | AtV | Exited

  datatype Thread = Thread(tidx: int, pc: Pc, b: bool, loaded: nat, c: char)

  /** A character on the output comes from a thread and a position of shared_buf. */
  datatype Print = Print(thread: nat, position: nat)

  datatype State = State(
    semUse: bool,           // the command line switch
    text: string,           // shared_buf up to its terminator
    sem: int,               // value of the semaphore
    sharedIndex: nat,
    fetched: seq<nat>,      // the positions loaded, in order
    out: string,            // everything written with putchar
    prints: seq<Print>,     // where each character of out comes from
    threads: seq<Thread>)

  /** ctype's toupper and tolower in the C locale. */
  function ToUpper(c: char): char {
    if 'a' <= c <= 'z' then c - 'a' + 'A' else c
  }

  function ToLower(c: char): char {
    if 'A' <= c <= 'Z' then c - 'A' + 'a' else c
  }

  function Convert(tidx: int, c: char): char {
    if tidx != 0 then ToUpper(c) else ToLower(c)
  }

  /** The character at a position of shared_buf; the terminator follows the text. */
  function Cell(text: string, i: nat): char {
    if i < |text| then text[i] else '\0'
  }

  ghost predicate Init(s: State) {
    && s.sem == 1
    && s.sharedIndex == 0
    && s.fetched == []
    && s.out == ""
    && s.prints == []
    && |s.threads| > 0
    && forall t :: 0 <= t < |s.threads| ==> s.threads[t].pc == NotCreated
  }

  predicate Enabled(s: State, t: nat)
    requires t < |s.threads|
  {
    match s.threads[t].pc
    case NotCreated => t == 0 || s.threads[t - 1].pc != NotCreated
    case AtP => s.semUse ==> s.sem > 0
    case Exited => false
    case _ => true
  }

  function SetThread(s: State, t: nat, th: Thread): State
    requires t < |s.threads|
  {
    s.(threads := s.threads[t := th])
  }

  /** One step of thread `t` (creating it is a step of `main`). */
  function Step(s: State, t: nat): State
    requires t < |s.threads|
  {
    var th := s.threads[t];
    match th.pc
    case NotCreated => SetThread(s, t, th.(pc := AtP, b := true))
    case AtP => SetThread(s, t, th.(pc := AtCheck)).(sem := if s.semUse then s.sem - 1 else s.sem)
    case AtCheck =>
      if s.sharedIndex >= |s.text|
      then SetThread(s, t, th.(pc := AtV, b := false))
      else SetThread(s, t, th.(pc := AtLoad))
    case AtLoad =>
      SetThread(s, t, th.(pc := AtStore, loaded := s.sharedIndex))
      .(fetched := s.fetched + [s.sharedIndex])
    case AtStore =>
      SetThread(s, t, th.(pc := AtPut, c := Convert(th.tidx, Cell(s.text, th.loaded))))
      .(sharedIndex := th.loaded + 1)
    case AtPut =>
      SetThread(s, t, th.(pc := AtV))
      .(out := s.out + [th.c], prints := s.prints + [Print(t, th.loaded)])
    case AtV =>
      SetThread(s, t, th.(pc := if th.b then AtP else Exited))
      .(sem := if s.semUse then s.sem + 1 else s.sem)
    case Exited => s
  }

  ghost predicate Next(s: State, s': State) {
    exists t: nat :: t < |s.threads| && Enabled(s, t) && s' == Step(s, t)
  }

  // ---------- counting ----------

  /** Whether a thread is between P and V. */
  function Holds(th: Thread): int {
    if th.pc in {AtCheck, AtLoad, AtStore, AtPut, AtV} then 1 else 0
  }

  /** How far round its loop a thread is, so that the loop closes at the cost of one
      position: six steps for each position fetched. */
  function Phase(th: Thread): int {
    match th.pc
    case NotCreated => 0
    case AtP => 1
    case AtCheck => 2
    case AtLoad => 3
    case AtStore => -2
    case AtPut => -1
    case AtV => if th.b then 0 else 3
    case Exited => 4
  }

  /** The number of steps taken so far, read off the state. */
  function Clock(s: State): int {
    6 * |s.fetched| + Total(Phase, s.threads)
  }

  predicate FlagOk(th: Thread) {
    && (th.pc in {AtP, AtCheck, AtLoad, AtStore, AtPut} ==> th.b)
    && (th.pc == Exited ==> !th.b)
  }

  /** A thread that has seen the end of the text. */
  predicate Finished(th: Thread) {
    th.pc in {AtV, Exited} && !th.b
  }

  // ---------- what holds with and without the semaphore ----------

  /** Every position before `n` is among those fetched. */
  ghost predicate Covered(fetched: seq<nat>, n: nat) {
    forall i: nat :: i < n ==> i in fetched
  }

  /** The positions up to the one a thread has loaded have been fetched, and the whole
      text has once a thread has seen the end. */
  ghost predicate ThreadCovered(fetched: seq<nat>, len: nat, th: Thread) {
    && FlagOk(th)
    && (th.pc in {AtStore, AtPut} ==> Covered(fetched, th.loaded + 1))
    && (Finished(th) ==> Covered(fetched, len))
  }

  ghost predicate Common(s: State) {
    && |s.threads| > 0
    && Covered(s.fetched, s.sharedIndex)
    && forall t :: 0 <= t < |s.threads| ==> ThreadCovered(s.fetched, |s.text|, s.threads[t])
  }

  /** A step is one thread's: its clock goes up by one, at the cost of a position each
      time it closes its loop. */
  lemma StepIsLocal(s: State, t: nat) returns (th: Thread)
    requires t < |s.threads| && s.threads[t].pc != Exited && FlagOk(s.threads[t])
    ensures Step(s, t).threads == s.threads[t := th] && FlagOk(th) && th.tidx == s.threads[t].tidx
    ensures 6 * |Step(s, t).fetched| + Phase(th) == 6 * |s.fetched| + Phase(s.threads[t]) + 1
    ensures Step(s, t).fetched == s.fetched + if s.threads[t].pc == AtLoad then [s.sharedIndex] else []
    ensures s.semUse ==> Step(s, t).sem + Holds(th) == s.sem + Holds(s.threads[t])
    ensures Step(s, t).semUse == s.semUse && Step(s, t).text == s.text
  {
    th := Step(s, t).threads[t];
  }

  lemma MoreCovered(fetched: seq<nat>, more: seq<nat>, len: nat, th: Thread)
    requires ThreadCovered(fetched, len, th)
    ensures ThreadCovered(fetched + more, len, th)
  {
  }

  lemma OwnCovered(s: State, t: nat)
    requires Common(s) && t < |s.threads| && s.threads[t].pc != Exited
    ensures Covered(Step(s, t).fetched, Step(s, t).sharedIndex)
    ensures ThreadCovered(Step(s, t).fetched, |s.text|, Step(s, t).threads[t])
  {
    assert ThreadCovered(s.fetched, |s.text|, s.threads[t]);
  }

  lemma CommonStep(s: State, t: nat)
    requires Common(s) && t < |s.threads| && Enabled(s, t)
    ensures Common(Step(s, t))
    ensures Clock(Step(s, t)) == Clock(s) + 1
  {
    var s' := Step(s, t);
    assert ThreadCovered(s.fetched, |s.text|, s.threads[t]);
    var th := StepIsLocal(s, t);
    TotalUpdate(Phase, s.threads, t, th);
    OwnCovered(s, t);
    var more := if s.threads[t].pc == AtLoad then [s.sharedIndex] else [];
    forall u | 0 <= u < |s.threads| ensures ThreadCovered(s'.fetched, |s.text|, s'.threads[u]) {
      if u != t {
        MoreCovered(s.fetched, more, |s.text|, s.threads[u]);
      }
    }
  }

  lemma InitCommon(s: State)
    requires Init(s)
    ensures Common(s) && Clock(s) == 0
  {
    TotalConstant(Phase, s.threads, 0);
  }

  /** The switch, the text and the threads with their indices never change. */
  ghost predicate SameProgram(s: State, s': State) {
    && s'.semUse == s.semUse && s'.text == s.text && |s'.threads| == |s.threads|
    && forall t :: 0 <= t < |s.threads| ==> s'.threads[t].tidx == s.threads[t].tidx
  }

  /** With and without the semaphore: the number of steps taken can be read off the
      state, no position before the cursor is left out, and a thread that has seen the
      end leaves no position of the text out. */
  lemma CommonRun(tr: seq<State>)
    requires IsRun(Next, tr) && Init(tr[0])
    ensures Common(Last(tr)) && SameProgram(tr[0], Last(tr))
    ensures Clock(Last(tr)) == |tr| - 1
  {
    InitCommon(tr[0]);
    var inv := s => Common(s) && SameProgram(tr[0], s);
    forall s, s' | inv(s) && Next(s, s')
      ensures inv(s') && Clock(s') == Clock(s) + 1
    {
      var t: nat :| t < |s.threads| && Enabled(s, t) && s' == Step(s, t);
      assert ThreadCovered(s.fetched, |s.text|, s.threads[t]);
      var th := StepIsLocal(s, t);
      CommonStep(s, t);
    }
    StepCount(Next, inv, Clock, tr);
  }

  ghost predicate AllExited(s: State) {
    forall t :: 0 <= t < |s.threads| ==> s.threads[t].pc == Exited
  }

  /** A run takes six steps for each position fetched and up to four more a thread. */
  lemma RunLength(tr: seq<State>)
    requires IsRun(Next, tr) && Init(tr[0])
    ensures |tr| - 1 <= 6 * |Last(tr).fetched| + 4 * |tr[0].threads|
    ensures AllExited(Last(tr)) ==> |tr| - 1 == 6 * |Last(tr).fetched| + 4 * |tr[0].threads|
  {
    CommonRun(tr);
    TotalWithin(Phase, Last(tr).threads, -2, 4);
    if AllExited(Last(tr)) {
      TotalConstant(Phase, Last(tr).threads, 4);
    }
  }

  // ---------- what is printed ----------

  /** `d` is `c` in small letters for index 0 and in capitals for any other: a letter of
      the other case lies 32 away, and nothing else changes. */
  predicate InCaseOf(tidx: int, c: char, d: char) {
    && (tidx == 0 ==> !('A' <= d <= 'Z'))
    && (tidx != 0 ==> !('a' <= d <= 'z'))
    && (d == c
        || ('A' <= c <= 'Z' && d as int == c as int + 32)
        || ('a' <= c <= 'z' && d as int == c as int - 32))
  }

  /** What a thread prints for a position: the character there in its case, and behind
      the text the terminator. */
  predicate Shown(text: string, tidx: int, position: nat, d: char) {
    if position < |text| then InCaseOf(tidx, text[position], d) else d == '\0'
  }

  /** The character `i` of the output is what its thread makes of a position fetched. */
  ghost predicate WellPrinted(s: State, i: nat)
    requires i < |s.out| && |s.out| == |s.prints|
  {
    var p := s.prints[i];
    && p.thread < |s.threads|
    && p.position in s.fetched
    && Shown(s.text, s.threads[p.thread].tidx, p.position, s.out[i])
  }

  ghost predicate Attributed(s: State) {
    && |s.out| == |s.prints|
    && (forall i :: 0 <= i < |s.out| ==> WellPrinted(s, i))
    && (forall t :: 0 <= t < |s.threads| && s.threads[t].pc == AtPut ==>
          Shown(s.text, s.threads[t].tidx, s.threads[t].loaded, s.threads[t].c))
  }

  lemma AttributedStep(s: State, t: nat)
    requires Common(s) && Attributed(s) && t < |s.threads| && Enabled(s, t)
    ensures Attributed(Step(s, t))
  {
    var s' := Step(s, t);
    assert ThreadCovered(s.fetched, |s.text|, s.threads[t]);
    var th := StepIsLocal(s, t);
    forall i: nat | i < |s'.out| ensures WellPrinted(s', i) {
      if i < |s.out| {
        assert WellPrinted(s, i);
      }
    }
  }

  ghost predicate Printing(s: State) {
    Common(s) && Attributed(s)
  }

  lemma PrintingNext(s: State, s': State)
    requires Printing(s) && Next(s, s')
    ensures Printing(s')
  {
    var t: nat :| t < |s.threads| && Enabled(s, t) && s' == Step(s, t);
    CommonStep(s, t);
    AttributedStep(s, t);
  }

  lemma PrintingRun(tr: seq<State>)
    requires IsRun(Next, tr) && Init(tr[0])
    ensures Printing(Last(tr))
  {
    InitCommon(tr[0]);
    forall s, s' | Printing(s) && Next(s, s') ensures Printing(s') {
      PrintingNext(s, s');
    }
    Invariant(Next, Printing, tr);
  }

  /** In either mode every character on the output stands at a position that was fetched,
      in small letters if a thread with index 0 printed it and in capitals otherwise. */
  lemma OutputInCase(tr: seq<State>)
    requires IsRun(Next, tr) && Init(tr[0])
    ensures var s := Last(tr);
      && |s.prints| == |s.out|
      && forall i :: 0 <= i < |s.out| ==>
           && s.prints[i].thread < |tr[0].threads|
           && s.prints[i].position in s.fetched
           && Shown(tr[0].text, tr[0].threads[s.prints[i].thread].tidx, s.prints[i].position, s.out[i])
  {
    PrintingRun(tr);
    CommonRun(tr);
    var s := Last(tr);
    forall i: nat | i < |s.out|
      ensures s.prints[i].thread < |tr[0].threads| && s.prints[i].position in s.fetched
      ensures Shown(tr[0].text, tr[0].threads[s.prints[i].thread].tidx, s.prints[i].position, s.out[i])
    {
      assert WellPrinted(s, i);
    }
  }

  /** Threads that all have index 0 print no capital, and threads none of which has it
      print no small letter. */
  lemma OneCase(tr: seq<State>, i: nat)
    requires IsRun(Next, tr) && Init(tr[0]) && i < |Last(tr).out|
    ensures (forall t :: 0 <= t < |tr[0].threads| ==> tr[0].threads[t].tidx == 0) ==>
              !('A' <= Last(tr).out[i] <= 'Z')
    ensures (forall t :: 0 <= t < |tr[0].threads| ==> tr[0].threads[t].tidx != 0) ==>
              !('a' <= Last(tr).out[i] <= 'z')
  {
    OutputInCase(tr);
  }

  ghost predicate CreatedSoFar(s: State) {
    forall t, u :: 0 <= t <= u < |s.threads| && s.threads[u].pc != NotCreated ==> s.threads[t].pc != NotCreated
  }

  lemma CreatedUpdate(s: State, s': State, t: nat, th: Thread)
    requires CreatedSoFar(s) && t < |s.threads| && s'.threads == s.threads[t := th] && th.pc != NotCreated
    requires s.threads[t].pc != NotCreated || t == 0 || s.threads[t - 1].pc != NotCreated
    ensures CreatedSoFar(s')
  {
  }

  lemma StepCreates(s: State, t: nat)
    requires t < |s.threads| && Enabled(s, t)
    ensures Step(s, t).threads == s.threads[t := Step(s, t).threads[t]]
    ensures Step(s, t).threads[t].pc != NotCreated
    ensures s.threads[t].pc != NotCreated || t == 0 || s.threads[t - 1].pc != NotCreated
  {
  }

  lemma CreatedNext(s: State, s': State)
    requires CreatedSoFar(s) && Next(s, s')
    ensures CreatedSoFar(s')
  {
    var t: nat :| t < |s.threads| && Enabled(s, t) && s' == Step(s, t);
    StepCreates(s, t);
    CreatedUpdate(s, s', t, s'.threads[t]);
  }

  /** main creates its threads one after another, so when the last one exists all do. */
  lemma CreatedInOrder(tr: seq<State>, t: nat, u: nat)
    requires IsRun(Next, tr) && Init(tr[0]) && t <= u < |Last(tr).threads|
    ensures Last(tr).threads[u].pc != NotCreated ==> Last(tr).threads[t].pc != NotCreated
  {
    forall s, s' | CreatedSoFar(s) && Next(s, s') ensures CreatedSoFar(s') {
      CreatedNext(s, s');
    }
    Invariant(Next, CreatedSoFar, tr);
  }

  // ---------- one thread at a time ----------

  /** At most one thread can be between P and V: the semaphore is used, or there is
      only one thread. */
  predicate Guarded(s: State) {
    s.semUse || |s.threads| == 1
  }

  /** The positions 0 .. n - 1 in order. */
  function Positions(n: nat): (r: seq<nat>)
    ensures |r| == n
  {
    seq(n, i requires 0 <= i < n => i)
  }

  /** A position fetched of which the cursor does not know yet. */
  function Unstored(th: Thread): int {
    if th.pc == AtStore then 1 else 0
  }

  /** A position fetched and not printed yet. */
  function Owes(th: Thread): int {
    if th.pc in {AtStore, AtPut} then 1 else 0
  }

  ghost predicate OutputOk(s: State) {
    && s.fetched == Positions(|s.fetched|)
    && |s.fetched| <= |s.text|
    && |s.fetched| == s.sharedIndex + Total(Unstored, s.threads)
    && |s.fetched| == |s.out| + Total(Owes, s.threads)
    && |s.prints| == |s.out| <= |s.fetched|
    && (forall i :: 0 <= i < |s.prints| ==> s.prints[i].position == i)
  }

  ghost predicate ThreadOk(s: State, th: Thread) {
    && (th.pc == AtLoad ==> s.sharedIndex < |s.text|)
    && (th.pc == AtStore ==> th.loaded == s.sharedIndex == |s.out|)
    && (th.pc == AtPut ==> th.loaded == |s.out| < |s.text|)
    && (Finished(th) ==> s.sharedIndex == |s.text| == |s.out|)
  }

  ghost predicate OneInside(s: State) {
    && Guarded(s)
    && Total(Holds, s.threads) <= 1
    && (s.semUse ==> 0 <= s.sem && s.sem + Total(Holds, s.threads) == 1)
  }

  ghost predicate Ordered(s: State) {
    && Common(s)
    && OneInside(s)
    && OutputOk(s)
    && (forall t :: 0 <= t < |s.threads| ==> ThreadOk(s, s.threads[t]))
  }

  /** A thread that takes the semaphore or is already inside is alone there. */
  lemma Exclusive(s: State, t: nat)
    requires OneInside(s) && t < |s.threads| && Enabled(s, t)
    requires s.threads[t].pc == AtP || Holds(s.threads[t]) == 1
    ensures forall u :: 0 <= u < |s.threads| && u != t ==> Holds(s.threads[u]) == 0
  {
    forall u | 0 <= u < |s.threads| && u != t ensures Holds(s.threads[u]) == 0 {
      TotalAtLeast(Holds, s.threads, u);
      if u < t { TotalPair(Holds, s.threads, u, t); } else { TotalPair(Holds, s.threads, t, u); }
    }
  }

  lemma OneInsideStep(s: State, t: nat)
    requires Common(s) && OneInside(s) && t < |s.threads| && Enabled(s, t)
    ensures OneInside(Step(s, t))
  {
    assert ThreadCovered(s.fetched, |s.text|, s.threads[t]);
    var th := StepIsLocal(s, t);
    TotalUpdate(Holds, s.threads, t, th);
    if |s.threads| == 1 {
      TotalWithin(Holds, Step(s, t).threads, 0, 1);
    }
  }

  /** Where the others are outside, what is fetched and not stored, or not printed, is
      the thread's own. */
  lemma OthersOweNothing(s: State, t: nat)
    requires t < |s.threads|
    requires forall u :: 0 <= u < |s.threads| && u != t ==> Holds(s.threads[u]) == 0
    ensures Total(Unstored, s.threads) == Unstored(s.threads[t])
    ensures Total(Owes, s.threads) == Owes(s.threads[t])
  {
    var idle := s.threads[t].(pc := AtP);
    TotalUpdate(Unstored, s.threads, t, idle);
    TotalUpdate(Owes, s.threads, t, idle);
    TotalConstant(Unstored, s.threads[t := idle], 0);
    TotalConstant(Owes, s.threads[t := idle], 0);
  }

  lemma NothingOwed(s: State)
    requires forall u :: 0 <= u < |s.threads| ==> Holds(s.threads[u]) == 0
    ensures Total(Unstored, s.threads) == Total(Owes, s.threads) == 0
  {
    TotalConstant(Unstored, s.threads, 0);
    TotalConstant(Owes, s.threads, 0);
  }

  /** The counts of a state in which only thread `t` can be inside. */
  lemma CountsAlone(s: State, t: nat)
    requires Ordered(s) && t < |s.threads| && Enabled(s, t)
    requires s.threads[t].pc == AtP || Holds(s.threads[t]) == 1
    ensures |s.fetched| == s.sharedIndex + Unstored(s.threads[t])
    ensures |s.fetched| == |s.out| + Owes(s.threads[t])
    ensures var s' := Step(s, t);
      && Total(Unstored, s'.threads) == Unstored(s'.threads[t])
      && Total(Owes, s'.threads) == Owes(s'.threads[t])
  {
    Exclusive(s, t);
    OthersOweNothing(s, t);
    OthersOweNothing(Step(s, t), t);
  }

  lemma OwnThreadOk(s: State, t: nat)
    requires Ordered(s) && t < |s.threads| && Enabled(s, t) && s.threads[t].pc != NotCreated
    ensures ThreadOk(Step(s, t), Step(s, t).threads[t])
  {
    CountsAlone(s, t);
    assert ThreadOk(s, s.threads[t]);
    assert ThreadCovered(s.fetched, |s.text|, s.threads[t]);
  }

  /** Threads outside notice a step only if they have seen the end, and then the cursor
      and the output stay where they are. */
  lemma OtherThreadOk(s: State, t: nat, u: nat)
    requires Ordered(s) && t < |s.threads| && u < |s.threads| && u != t && Enabled(s, t)
    ensures ThreadOk(Step(s, t), s.threads[u])
  {
    assert ThreadOk(s, s.threads[u]) && ThreadOk(s, s.threads[t]);
    if s.threads[t].pc != NotCreated {
      Exclusive(s, t);
      CountsAlone(s, t);
    }
  }

  lemma CountsStay(s: State, t: nat)
    requires Ordered(s) && t < |s.threads| && Enabled(s, t)
    ensures var s' := Step(s, t);
      && |s'.fetched| == s'.sharedIndex + Total(Unstored, s'.threads)
      && |s'.fetched| == |s'.out| + Total(Owes, s'.threads)
      && |s'.prints| == |s'.out| <= |s'.fetched| <= |s.text|
      && s'.fetched == Positions(|s'.fetched|)
  {
    assert ThreadOk(s, s.threads[t]);
    if s.threads[t].pc == NotCreated {
      var th := StepIsLocal(s, t);
      TotalUpdate(Unstored, s.threads, t, th);
      TotalUpdate(Owes, s.threads, t, th);
    } else {
      CountsAlone(s, t);
    }
  }

  lemma PrintedInOrder(s: State, t: nat)
    requires Ordered(s) && t < |s.threads| && Enabled(s, t)
    ensures forall i :: 0 <= i < |Step(s, t).prints| ==> Step(s, t).prints[i].position == i
  {
    assert ThreadOk(s, s.threads[t]);
  }

  lemma OrderedStep(s: State, t: nat)
    requires Ordered(s) && t < |s.threads| && Enabled(s, t)
    ensures Ordered(Step(s, t))
  {
    var s' := Step(s, t);
    CommonStep(s, t);
    OneInsideStep(s, t);
    CountsStay(s, t);
    PrintedInOrder(s, t);
    forall u | 0 <= u < |s'.threads| ensures ThreadOk(s', s'.threads[u]) {
      if u != t {
        OtherThreadOk(s, t, u);
      } else if s.threads[t].pc != NotCreated {
        OwnThreadOk(s, t);
      }
    }
  }

  lemma OrderedRun(tr: seq<State>)
    requires IsRun(Next, tr) && Init(tr[0]) && Guarded(tr[0])
    ensures Ordered(Last(tr)) && SameProgram(tr[0], Last(tr))
  {
    InitCommon(tr[0]);
    TotalConstant(Holds, tr[0].threads, 0);
    NothingOwed(tr[0]);
    forall s, s' | Ordered(s) && Next(s, s') ensures Ordered(s') {
      var t: nat :| t < |s.threads| && Enabled(s, t) && s' == Step(s, t);
      OrderedStep(s, t);
    }
    Invariant(Next, Ordered, tr);
    CommonRun(tr);
  }

  /** A string with its letters made small. */
  function Folded(s: string): (r: string)
    ensures |r| == |s|
    ensures forall i :: 0 <= i < |s| ==> r[i] == ToLower(s[i])
  {
    seq(|s|, i requires 0 <= i < |s| => ToLower(s[i]))
  }

  /** Mutual exclusion: in no reachable state are two threads between P and V. */
  lemma MutualExclusion(tr: seq<State>, t: nat, u: nat)
    requires IsRun(Next, tr) && Init(tr[0]) && tr[0].semUse
    requires t < |Last(tr).threads| && u < |Last(tr).threads| && t != u
    ensures Holds(Last(tr).threads[t]) + Holds(Last(tr).threads[u]) + Last(tr).sem <= 1
  {
    OrderedRun(tr);
    var s := Last(tr);
    if t < u { TotalPair(Holds, s.threads, t, u); } else { TotalPair(Holds, s.threads, u, t); }
  }

  /** The increment is torn, and yet the positions are fetched in order, each once: a
      thread that has loaded the cursor finds it unchanged when it stores. */
  lemma CursorProtected(tr: seq<State>)
    requires IsRun(Next, tr) && Init(tr[0]) && Guarded(tr[0])
    ensures var s := Last(tr);
      && s.fetched == Positions(|s.fetched|)
      && |s.fetched| <= |tr[0].text|
      && (forall t :: 0 <= t < |s.threads| && s.threads[t].pc == AtStore ==> s.threads[t].loaded == s.sharedIndex)
      && (forall t :: 0 <= t < |s.threads| && s.threads[t].pc == AtLoad ==> s.sharedIndex < |tr[0].text|)
  {
    OrderedRun(tr);
    assert forall t :: 0 <= t < |Last(tr).threads| ==> ThreadOk(Last(tr), Last(tr).threads[t]);
  }

  lemma SameFold(tidx: int, c: char, d: char)
    requires InCaseOf(tidx, c, d)
    ensures ToLower(d) == ToLower(c)
  {
  }

  /** The output is always the beginning of the text, in order and each character in the
      case of the thread that printed it; when the semaphore is free it reaches exactly
      to the cursor. */
  lemma OrderedOutput(tr: seq<State>)
    requires IsRun(Next, tr) && Init(tr[0]) && Guarded(tr[0])
    ensures var s := Last(tr);
      && |s.prints| == |s.out| <= |s.fetched| <= |tr[0].text|
      && s.text == tr[0].text
      && (forall i :: 0 <= i < |s.out| ==>
            && s.prints[i].position == i
            && s.prints[i].thread < |tr[0].threads|
            && InCaseOf(tr[0].threads[s.prints[i].thread].tidx, tr[0].text[i], s.out[i]))
      && Folded(s.out) == Folded(tr[0].text[..|s.out|])
      && (s.semUse && s.sem == 1 ==> |s.out| == s.sharedIndex)
  {
    OrderedRun(tr);
    OutputInCase(tr);
    var s := Last(tr);
    forall i | 0 <= i < |s.out|
      ensures InCaseOf(tr[0].threads[s.prints[i].thread].tidx, tr[0].text[i], s.out[i])
      ensures ToLower(s.out[i]) == ToLower(s.text[i])
    {
      SameFold(tr[0].threads[s.prints[i].thread].tidx, tr[0].text[i], s.out[i]);
    }
    if s.semUse && s.sem == 1 {
      forall u | 0 <= u < |s.threads| ensures Holds(s.threads[u]) == 0 {
        TotalAtLeast(Holds, s.threads, u);
      }
      NothingOwed(s);
    }
  }

  /** The output is the whole text, each character in the case of its thread. */
  ghost predicate WholeText(s0: State, s: State) {
    && |s.prints| == |s.out| == |s0.text|
    && forall i :: 0 <= i < |s.out| ==>
         && s.prints[i].thread < |s0.threads|
         && InCaseOf(s0.threads[s.prints[i].thread].tidx, s0.text[i], s.out[i])
  }

  /** Once any one thread has left its loop the whole text is out, so the join of the
      thread created last is enough although the other threads are never joined. */
  lemma CompleteAtAnyExit(tr: seq<State>, t: nat)
    requires IsRun(Next, tr) && Init(tr[0]) && Guarded(tr[0])
    requires t < |Last(tr).threads| && Last(tr).threads[t].pc == Exited
    ensures WholeText(tr[0], Last(tr))
    ensures Folded(Last(tr).out) == Folded(tr[0].text)
  {
    OrderedRun(tr);
    assert ThreadOk(Last(tr), Last(tr).threads[t]);
    assert ThreadCovered(Last(tr).fetched, |Last(tr).text|, Last(tr).threads[t]);
    OrderedOutput(tr);
    assert tr[0].text[..|Last(tr).out|] == tr[0].text;
  }

  // ---------- progress ----------

  /** In either mode some thread can step until all have exited. */
  lemma NoDeadlock(tr: seq<State>)
    requires IsRun(Next, tr) && Init(tr[0]) && !AllExited(Last(tr))
    ensures exists t: nat :: t < |Last(tr).threads| && Enabled(Last(tr), t)
  {
    CommonRun(tr);
    var s := Last(tr);
    if s.semUse {
      OrderedRun(tr);
    }
    if s.semUse && s.sem == 0 {
      var h := TotalPositive(Holds, s.threads);
      assert Enabled(s, h);
    } else {
      var t: nat :| t < |s.threads| && s.threads[t].pc != Exited;
      if s.threads[t].pc == NotCreated {
        var u := FirstNotCreated(s, t);
        assert Enabled(s, u);
      } else {
        assert Enabled(s, t);
      }
    }
  }

  lemma {:induction false} FirstNotCreated(s: State, t: nat) returns (u: nat)
    requires t < |s.threads| && s.threads[t].pc == NotCreated
    ensures u <= t && s.threads[u].pc == NotCreated && Enabled(s, u)
  {
    if t == 0 || s.threads[t - 1].pc != NotCreated {
      u := t;
    } else {
      u := FirstNotCreated(s, t - 1);
    }
  }

  /** One thread at a time takes at most 6 * |text| + 4 * N steps; the run can be
      continued until all threads have exited, and then it has taken exactly that many. */
  lemma GuardedRunLength(tr: seq<State>)
    requires IsRun(Next, tr) && Init(tr[0]) && Guarded(tr[0])
    ensures |tr| - 1 <= 6 * |tr[0].text| + 4 * |tr[0].threads|
    ensures AllExited(Last(tr)) <==> |tr| - 1 == 6 * |tr[0].text| + 4 * |tr[0].threads|
    ensures !AllExited(Last(tr)) ==> exists s' :: Next(Last(tr), s')
  {
    RunLength(tr);
    OrderedRun(tr);
    var s := Last(tr);
    if AllExited(s) {
      assert ThreadOk(s, s.threads[0]) && ThreadCovered(s.fetched, |s.text|, s.threads[0]);
    } else {
      var tr' := OneMore(tr);
      RunLength(tr');
      OrderedRun(tr');
    }
  }

  /** A run that has not ended has a continuation. */
  lemma OneMore(tr: seq<State>) returns (tr': seq<State>)
    requires IsRun(Next, tr) && Init(tr[0]) && !AllExited(Last(tr))
    ensures IsRun(Next, tr') && tr'[0] == tr[0] && |tr'| == |tr| + 1
    ensures Next(Last(tr), Last(tr')) && Last(tr).fetched <= Last(tr').fetched
  {
    NoDeadlock(tr);
    CommonRun(tr);
    var s := Last(tr);
    var t: nat :| t < |s.threads| && Enabled(s, t);
    assert ThreadCovered(s.fetched, |s.text|, s.threads[t]);
    var th := StepIsLocal(s, t);
    assert Next(s, Step(s, t));
    Extend(Next, tr, Step(s, t));
    tr' := tr + [Step(s, t)];
  }
}
