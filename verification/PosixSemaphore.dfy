/** The counting semaphore of POSIX/sem_posix_example.c, shared by threads that block in
    sem_wait and threads that poll with sem_trywait, with the main thread that joins
    them and destroys the semaphore. */
module SemaphoreModel {
  import opened Runs
  import opened Sums

  /** thread_t1 waits, thread_t2 polls. */
  datatype Kind = Waiter | Poller

  datatype Pc = AtAcquire | AtBackoff | InCritical | Returned

  datatype Client = Client(kind: Kind, pc: Pc)

  datatype State = State(
    permits: nat,          // the value given to sem_init
    value: int,
    clients: seq<Client>,
    joined: nat,           // how far main has got with its joins
    destroyed: bool,
    polls: nat)            // history: calls of sem_trywait that failed with EAGAIN

  datatype Actor = Thread(t: nat) | Main

  ghost predicate Init(s: State) {
    && s.permits >= 1 && s.value == s.permits
    && s.joined == 0 && !s.destroyed && s.polls == 0
    && forall t :: 0 <= t < |s.clients| ==> s.clients[t].pc == AtAcquire
  }

  predicate Enabled(s: State, a: Actor) {
    match a
    case Thread(t) =>
      && t < |s.clients|
      && (match s.clients[t].pc
          case AtAcquire => s.clients[t].kind == Poller || s.value > 0
          case Returned => false
          case _ => true)
    case Main =>
      if s.joined < |s.clients| then s.clients[s.joined].pc == Returned else !s.destroyed
  }

  /** A sem_trywait that fails with EAGAIN. */
  predicate FailsPoll(s: State, a: Actor) {
    && a.Thread? && a.t < |s.clients|
    && s.clients[a.t].kind == Poller && s.clients[a.t].pc == AtAcquire && s.value <= 0
  }

  function Step(s: State, a: Actor): State
    requires Enabled(s, a)
  {
    match a
    case Thread(t) =>
      var c := s.clients[t];
      (match c.pc
       case AtAcquire =>
         if s.value > 0
         then s.(value := s.value - 1, clients := s.clients[t := c.(pc := InCritical)])
         else s.(clients := s.clients[t := c.(pc := AtBackoff)], polls := s.polls + 1)
       case AtBackoff => s.(clients := s.clients[t := c.(pc := AtAcquire)])
       case InCritical => s.(value := s.value + 1, clients := s.clients[t := c.(pc := Returned)])
       case Returned => s)
    case Main =>
      if s.joined < |s.clients| then s.(joined := s.joined + 1) else s.(destroyed := true)
  }

  ghost predicate Next(s: State, s': State) {
    exists a :: Enabled(s, a) && s' == Step(s, a)
  }

  // ---------- measures ----------

  function Holds(c: Client): int { if c.pc == InCritical then 1 else 0 }

  function ToDo(c: Client): int {
    match c.pc case Returned => 0 case InCritical => 1 case AtAcquire => 2 case AtBackoff => 3
  }

  /** Steps that remain if no further poll fails. */
  function Work(s: State): int {
    Total(ToDo, s.clients) + |s.clients| - s.joined + (if s.destroyed then 0 else 1)
  }

  /** Steps taken so far, read off the state. */
  function Clock(s: State): int {
    3 * |s.clients| + 1 - Work(s) + 2 * s.polls
  }

  ghost predicate Inv(s: State) {
    && s.permits >= 1
    && s.value >= 0
    && s.value + Total(Holds, s.clients) == s.permits
    && s.joined <= |s.clients|
    && (forall t :: 0 <= t < s.joined ==> s.clients[t].pc == Returned)
    && (s.destroyed ==> s.joined == |s.clients|)
    && (forall t :: 0 <= t < |s.clients| && s.clients[t].pc == AtBackoff ==> s.clients[t].kind == Poller)
  }

  /** Every step but a failed poll leaves one step less to do; a failed poll adds one. */
  lemma StepKeepsInv(s: State, a: Actor)
    requires Inv(s) && Enabled(s, a)
    ensures Inv(Step(s, a)) && SameProgram(s, Step(s, a))
    ensures Work(Step(s, a)) == Work(s) + (if FailsPoll(s, a) then 1 else -1)
    ensures Step(s, a).polls == s.polls + (if FailsPoll(s, a) then 1 else 0)
  {
    if a.Thread? {
      var c := Step(s, a).clients[a.t];
      TotalUpdate(Holds, s.clients, a.t, c);
      TotalUpdate(ToDo, s.clients, a.t, c);
    }
  }

  lemma InitInv(s: State)
    requires Init(s)
    ensures Inv(s) && Clock(s) == 0
  {
    TotalConstant(Holds, s.clients, 0);
    TotalConstant(ToDo, s.clients, 2);
  }

  ghost predicate SameProgram(s: State, s': State) {
    && s'.permits == s.permits
    && |s'.clients| == |s.clients|
    && forall t :: 0 <= t < |s.clients| ==> s'.clients[t].kind == s.clients[t].kind
  }

  lemma InvRun(tr: seq<State>)
    requires IsRun(Next, tr) && Init(tr[0])
    ensures Inv(Last(tr)) && SameProgram(tr[0], Last(tr))
    ensures Clock(Last(tr)) == |tr| - 1
  {
    InitInv(tr[0]);
    var inv := s => Inv(s) && SameProgram(tr[0], s);
    forall s, s' | inv(s) && Next(s, s') ensures inv(s') && Clock(s') == Clock(s) + 1 {
      var a :| Enabled(s, a) && s' == Step(s, a);
      StepKeepsInv(s, a);
    }
    StepCount(Next, inv, Clock, tr);
  }

  /** Value and holders always add up to the permits, and the semaphore is destroyed only
      when every client has given its permit back and returned. */
  lemma PermitsConserved(tr: seq<State>)
    requires IsRun(Next, tr) && Init(tr[0])
    ensures var s := Last(tr);
      && 0 <= s.value && 0 <= Total(Holds, s.clients) <= tr[0].permits
      && s.value + Total(Holds, s.clients) == tr[0].permits
      && (s.destroyed ==> s.value == tr[0].permits
                          && forall t :: 0 <= t < |s.clients| ==> s.clients[t].pc == Returned)
  {
    InvRun(tr);
    var s := Last(tr);
    TotalNonNegative(Holds, s.clients);
    if s.destroyed {
      TotalConstant(Holds, s.clients, 0);
    }
  }

  /** A thread of thread_t1 waits exactly while all permits are with other threads; one of
      thread_t2 never waits, and polls in vain exactly then. */
  lemma BlockedIff(tr: seq<State>, t: nat)
    requires IsRun(Next, tr) && Init(tr[0])
    requires t < |Last(tr).clients| && Last(tr).clients[t].pc == AtAcquire
    ensures var s := Last(tr);
      && (s.clients[t].kind == Waiter ==> (!Enabled(s, Thread(t)) <==> Total(Holds, s.clients) == tr[0].permits))
      && (s.clients[t].kind == Poller ==> Enabled(s, Thread(t)))
      && (Enabled(s, Thread(t)) ==>
            Step(s, Thread(t)).clients[t].pc ==
              if Total(Holds, s.clients) == tr[0].permits then AtBackoff else InCritical)
  {
    InvRun(tr);
  }

  /** A poll fails only while some other thread holds a permit and can give it back. */
  lemma FailedPollHasHolder(tr: seq<State>, t: nat) returns (u: nat)
    requires IsRun(Next, tr) && Init(tr[0]) && FailsPoll(Last(tr), Thread(t))
    ensures u < |Last(tr).clients| && u != t && Last(tr).clients[u].pc == InCritical
    ensures Enabled(Last(tr), Thread(u)) && Step(Last(tr), Thread(u)).value > 0
  {
    InvRun(tr);
    u := TotalPositive(Holds, Last(tr).clients);
  }

  /** Until main has destroyed the semaphore, some step other than a failed poll is
      possible: nothing but polling again can keep the program from ending. */
  lemma UsefulStep(s: State) returns (a: Actor)
    requires Inv(s) && !s.destroyed
    ensures Enabled(s, a) && !FailsPoll(s, a)
  {
    if s.joined == |s.clients| || s.clients[s.joined].pc == Returned {
      a := Main;
    } else if s.value > 0 || s.clients[s.joined].pc != AtAcquire {
      a := Thread(s.joined);
    } else {
      var u := TotalPositive(Holds, s.clients);
      a := Thread(u);
    }
  }

  lemma WorkBounds(s: State)
    requires Inv(s)
    ensures Work(s) >= 0
    ensures Work(s) == 0 ==> s.destroyed
    ensures s.destroyed ==> Work(s) == 0
  {
    forall t | 0 <= t < |s.clients| ensures 0 <= ToDo(s.clients[t]) {}
    TotalNonNegative(ToDo, s.clients);
    if s.destroyed {
      TotalConstant(ToDo, s.clients, 0);
    }
  }

  /** A run in which `r` polls fail takes at most 3 * N + 1 + 2 * r steps, and has ended
      exactly when it has taken that many: apart from retries every run is finite. */
  lemma RunLength(tr: seq<State>)
    requires IsRun(Next, tr) && Init(tr[0])
    ensures |tr| - 1 <= 3 * |tr[0].clients| + 1 + 2 * Last(tr).polls
    ensures Last(tr).destroyed <==> |tr| - 1 == 3 * |tr[0].clients| + 1 + 2 * Last(tr).polls
  {
    InvRun(tr);
    WorkBounds(Last(tr));
  }
}

/** The program as it changes its semaphore. */
module SemaphoreProgram {
  import opened Runs
  import opened SemaphoreModel

  class Process {
    const permits: nat
    var value: int
    var clients: seq<Client>
    var joined: nat
    var destroyed: bool
    var polls: nat

    /** sem_init and the creation of the threads. */
    constructor (permits: nat, kinds: seq<Kind>)
      requires permits >= 1
      ensures Init(Now()) && |clients| == |kinds| && this.permits == permits
      ensures forall t :: 0 <= t < |kinds| ==> clients[t].kind == kinds[t]
    {
      this.permits := permits;
      value := permits;
      clients := seq(|kinds|, t requires 0 <= t < |kinds| => Client(kinds[t], AtAcquire));
      joined := 0;
      destroyed := false;
      polls := 0;
    }

    function Now(): State
      reads this
    {
      State(permits, value, clients, joined, destroyed, polls)
    }

    predicate Ready(t: nat, pc: Pc)
      reads this
    {
      t < |clients| && clients[t].pc == pc
    }

    method SemWait(t: nat)
      requires Ready(t, AtAcquire) && clients[t].kind == Waiter && value > 0
      modifies this`value, this`clients
      ensures Now() == Step(old(Now()), Thread(t))
    {
      value := value - 1;
      clients := clients[t := clients[t].(pc := InCritical)];
    }

    /** sem_trywait: 0, or -1 (with EAGAIN) when no permit is free. */
    method SemTryWait(t: nat) returns (ret: int)
      requires Ready(t, AtAcquire) && clients[t].kind == Poller
      modifies this`value, this`clients, this`polls
      ensures Now() == Step(old(Now()), Thread(t))
      ensures ret == -1 <==> FailsPoll(old(Now()), Thread(t))
    {
      if value > 0 {
        value := value - 1;
        clients := clients[t := clients[t].(pc := InCritical)];
        ret := 0;
      } else {
        polls := polls + 1;
        clients := clients[t := clients[t].(pc := AtBackoff)];
        ret := -1;
      }
    }

    method GotoRetry(t: nat)
      requires Ready(t, AtBackoff)
      modifies this`clients
      ensures Now() == Step(old(Now()), Thread(t))
    {
      clients := clients[t := clients[t].(pc := AtAcquire)];
    }

    method SemPost(t: nat)
      requires Ready(t, InCritical)
      modifies this`value, this`clients
      ensures Now() == Step(old(Now()), Thread(t))
    {
      value := value + 1;
      clients := clients[t := clients[t].(pc := Returned)];
    }

    method JoinOrDestroy()
      requires Enabled(Now(), Main)
      modifies this`joined, this`destroyed
      ensures Now() == Step(old(Now()), Main)
    {
      if joined < |clients| {
        joined := joined + 1;
      } else {
        destroyed := true;
      }
    }

    method Advance(a: Actor)
      requires Enabled(Now(), a)
      modifies this
      ensures Now() == Step(old(Now()), a)
    {
      match a
      case Main => JoinOrDestroy();
      case Thread(t) =>
        match clients[t].pc
        case AtAcquire =>
          if clients[t].kind == Waiter {
            SemWait(t);
          } else {
            var ret := SemTryWait(t);
          }
        case AtBackoff => GotoRetry(t);
        case InCritical => SemPost(t);
    }

    /** The whole program under any schedule in which at most `patience` polls fail; it
        always ends with the semaphore destroyed, all permits returned. */
    method RunToEnd(patience: nat)
      requires Init(Now())
      modifies this
      ensures Reaches(Next, old(Now()), Now()) && SameProgram(old(Now()), Now())
      ensures destroyed && value == permits && polls <= patience
      ensures forall t :: 0 <= t < |clients| ==> clients[t].pc == Returned
    {
      var budget := patience;
      InitInv(Now());
      while !destroyed
        invariant Reaches(Next, old(Now()), Now()) && Inv(Now())
        invariant polls + budget == patience
        decreases budget, Work(Now())
      {
        WorkBounds(Now());
        SomeoneCanStep(Now(), budget);
        // -1 stands for main, the others for the clients; the choice is the scheduler's
        var i: int :| -1 <= i < |clients| && MayRun(Now(), i, budget);
        ghost var s := Now();
        if FailsPoll(Now(), ActorOf(i)) {
          budget := budget - 1;
        }
        Advance(ActorOf(i));
        GoOn(old(Now()), s, ActorOf(i));
      }
      ghost var tr := RunTo(Next, old(Now()), Now());
      InvRun(tr);
      PermitsConserved(tr);
    }
  }

  function ActorOf(i: int): Actor {
    if i < 0 then Main else Thread(i)
  }

  predicate MayRun(s: State, i: int, budget: nat) {
    Enabled(s, ActorOf(i)) && (FailsPoll(s, ActorOf(i)) ==> budget > 0)
  }

  lemma SomeoneCanStep(s: State, budget: nat)
    requires Inv(s) && !s.destroyed
    ensures exists i :: -1 <= i < |s.clients| && MayRun(s, i, budget)
  {
    var a := UsefulStep(s);
    var i: int := if a == Main then -1 else a.t;
    assert ActorOf(i) == a;
    assert MayRun(s, i, budget);
  }

  lemma GoOn(s0: State, s: State, a: Actor)
    requires Reaches(Next, s0, s) && Inv(s) && Enabled(s, a)
    ensures Reaches(Next, s0, Step(s, a)) && Inv(Step(s, a))
    ensures Step(s, a).polls == s.polls + (if FailsPoll(s, a) then 1 else 0)
    ensures Work(Step(s, a)) == Work(s) + (if FailsPoll(s, a) then 1 else -1)
  {
    StepKeepsInv(s, a);
    assert Next(s, Step(s, a));
    ReachesStep(Next, s, Step(s, a));
    ReachesTrans(Next, s0, s, Step(s, a));
  }
}
