/** The program of SysV/sem_example.c as it changes its globals: one method for each
    shared access of `print_one`, and `main` running the threads in any order until
    its first join returns. */
module PrinterProgram {
  import opened Runs
  import opened PrinterModel
  import opened PrinterUnlocked

  class Process {
    const semUse: bool
    const text: string
    var sem: int
    var sharedIndex: nat
    var fetched: seq<nat>     // a record of the positions loaded
    var out: string
    var prints: seq<Print>    // a record of where its characters come from
    var threads: seq<Thread>  // the locals of each thread

    /** main up to the creation loop: the semaphore gets its initial value. */
    constructor (semUse: bool, text: string, tidx: seq<int>)
      requires |tidx| > 0
      ensures Init(Now()) && this.semUse == semUse && this.text == text
      ensures |threads| == |tidx| && forall t :: 0 <= t < |tidx| ==> threads[t].tidx == tidx[t]
    {
      this.semUse := semUse;
      this.text := text;
      sem := 1;
      sharedIndex := 0;
      fetched := [];
      out, prints := "", [];
      threads := seq(|tidx|, t requires 0 <= t < |tidx| => Thread(tidx[t], NotCreated, true, 0, '\0'));
    }

    function Now(): State
      reads this
    {
      State(semUse, text, sem, sharedIndex, fetched, out, prints, threads)
    }

    predicate Ready(t: nat, pc: Pc)
      reads this
    {
      t < |threads| && threads[t].pc == pc && Enabled(Now(), t)
    }

    method PthreadCreate(t: nat)
      requires Ready(t, NotCreated)
      modifies this`threads
      ensures Now() == Step(old(Now()), t)
    {
      threads := threads[t := threads[t].(pc := AtP, b := true)];
    }

    method SemP(t: nat)
      requires Ready(t, AtP)
      modifies this`threads, this`sem
      ensures Now() == Step(old(Now()), t)
    {
      if semUse {
        sem := sem - 1;
      }
      threads := threads[t := threads[t].(pc := AtCheck)];
    }

    method CheckEnd(t: nat)
      requires Ready(t, AtCheck)
      modifies this`threads
      ensures Now() == Step(old(Now()), t)
    {
      if sharedIndex >= |text| {
        threads := threads[t := threads[t].(b := false, pc := AtV)];
      } else {
        threads := threads[t := threads[t].(pc := AtLoad)];
      }
    }

    /** The first half of `shared_index++`. */
    method LoadIndex(t: nat)
      requires Ready(t, AtLoad)
      modifies this`threads, this`fetched
      ensures Now() == Step(old(Now()), t)
    {
      fetched := fetched + [sharedIndex];
      threads := threads[t := threads[t].(loaded := sharedIndex, pc := AtStore)];
    }

    /** The second half, and the character at the position loaded. */
    method StoreIndex(t: nat)
      requires Ready(t, AtStore)
      modifies this`threads, this`sharedIndex
      ensures Now() == Step(old(Now()), t)
    {
      var loaded := threads[t].loaded;
      sharedIndex := loaded + 1;
      var c := Cell(text, loaded);
      if threads[t].tidx != 0 {
        c := ToUpper(c);
      } else {
        c := ToLower(c);
      }
      threads := threads[t := threads[t].(c := c, pc := AtPut)];
    }

    method PutChar(t: nat)
      requires Ready(t, AtPut)
      modifies this`threads, this`out, this`prints
      ensures Now() == Step(old(Now()), t)
    {
      out := out + [threads[t].c];
      prints := prints + [Print(t, threads[t].loaded)];
      threads := threads[t := threads[t].(pc := AtV)];
    }

    /** SEM_V and the test of the loop condition. */
    method SemV(t: nat)
      requires Ready(t, AtV)
      modifies this`threads, this`sem
      ensures Now() == Step(old(Now()), t)
    {
      if semUse {
        sem := sem + 1;
      }
      if threads[t].b {
        threads := threads[t := threads[t].(pc := AtP)];
      } else {
        threads := threads[t := threads[t].(pc := Exited)];
      }
    }

    method StepThread(t: nat)
      requires t < |threads| && Enabled(Now(), t)
      modifies this
      ensures Now() == Step(old(Now()), t)
    {
      match threads[t].pc
      case NotCreated => PthreadCreate(t);
      case AtP => SemP(t);
      case AtCheck => CheckEnd(t);
      case AtLoad => LoadIndex(t);
      case AtStore => StoreIndex(t);
      case AtPut => PutChar(t);
      case AtV => SemV(t);
    }

    /** main from the creation loop to the return of the first join, which waits for the
        thread created last.  The scheduler's choice is arbitrary: whichever enabled
        thread it picks, the loop ends, after a run of the machine; with the semaphore on,
        or one thread only, the text is then complete. */
    method RunToFirstJoin()
      requires Init(Now())
      modifies this
      ensures Reaches(Next, old(Now()), Now())
      ensures |threads| == |old(threads)| && threads[|threads| - 1].pc == Exited
      ensures |fetched| <= MostFetched(|threads|, |text|)
      ensures semUse || |threads| == 1 ==> WholeText(old(Now()), Now())
    {
      while threads[|threads| - 1].pc != Exited
        invariant |threads| == |old(threads)|
        invariant Reaches(Next, old(Now()), Now())
        decreases MostSteps(|threads|, |text|) - Clock(Now())
      {
        NotOver(old(Now()), Now());
        var t: nat :| t < |threads| && Enabled(Now(), t);
        StepThread(t);
      }
      AtJoin(old(Now()), Now());
    }
  }

  /** Before the end of a run there is a next step, and few enough are left. */
  lemma NotOver(s0: State, s: State)
    requires Init(s0) && Reaches(Next, s0, s) && !AllExited(s)
    ensures Clock(s) < MostSteps(|s0.threads|, |s0.text|)
    ensures exists t: nat :: t < |s.threads| && Enabled(s, t)
    ensures forall t: nat :: t < |s.threads| && Enabled(s, t) ==>
              Reaches(Next, s0, Step(s, t)) && Clock(Step(s, t)) == Clock(s) + 1
  {
    var tr := RunTo(Next, s0, s);
    NoDeadlock(tr);
    CommonRun(tr);
    var tr' := OneMore(tr);
    RunsAreFinite(tr');
    forall t: nat | t < |s.threads| && Enabled(s, t)
      ensures Reaches(Next, s0, Step(s, t)) && Clock(Step(s, t)) == Clock(s) + 1
    {
      CommonStep(s, t);
      assert Next(s, Step(s, t));
      ReachesStep(Next, s, Step(s, t));
      ReachesTrans(Next, s0, s, Step(s, t));
    }
  }

  lemma AtJoin(s0: State, s: State)
    requires Init(s0) && Reaches(Next, s0, s)
    requires |s.threads| == |s0.threads| && s.threads[|s.threads| - 1].pc == Exited
    ensures |s.fetched| <= MostFetched(|s0.threads|, |s0.text|)
    ensures Guarded(s0) ==> WholeText(s0, s)
  {
    var tr := RunTo(Next, s0, s);
    RunsAreFinite(tr);
    if Guarded(s0) {
      CompleteAtAnyExit(tr, |s.threads| - 1);
    }
  }
}
