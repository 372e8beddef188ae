/** What every interleaving of record_lock_test.c on one file guarantees. */
module RecordTheorems {
  import opened Runs
  import opened Sums
  import opened Buffers
  import opened RecordFile
  import opened RecordMachine

  /** Two processes between lock and unlock never share a byte, also when one of them
      has locked to the end of the file. */
  lemma RecordsExclusive(tr: seq<State>, p: nat, q: nat, i: int)
    requires IsRun(Next, tr) && Init(tr[0])
    requires p < |Last(tr).procs| && q < |Last(tr).procs| && p != q
    requires Holding(Last(tr).procs[p].pc) && Holding(Last(tr).procs[q].pc)
    ensures !(Covers(Last(tr).procs[p].job.range, i) && Covers(Last(tr).procs[q].job.range, i))
  {
    InvRun(tr);
    assert p in Last(tr).locks && q in Last(tr).locks;
    OverlapsIffCommonByte(Last(tr).procs[p].job.range, Last(tr).procs[q].job.range);
  }

  /** While a process holds its lock and until it writes, and then until it unlocks, its
      range is its own: a byte of it seen after a run `tr` is still the same after any
      continuation `more`, whatever the others did meanwhile. */
  lemma RangeStays(tr: seq<State>, more: seq<State>, p: nat, i: nat)
    requires IsRun(Next, tr) && Init(tr[0]) && IsRun(Next, more) && more[0] == Last(tr)
    requires p < |Last(tr).procs| && Covers(Last(tr).procs[p].job.range, i)
    requires Holding(Last(tr).procs[p].pc)
    ensures SameProgram(Last(tr), Last(more))
    ensures Holding(Last(more).procs[p].pc) &&
            Written(Last(more).procs[p].pc) == Written(Last(tr).procs[p].pc) ==>
              ByteAt(Last(more).file, i) == ByteAt(Last(tr).file, i)
  {
    InvRun(tr);
    RangeFrozen(more, p, i);
  }

  /** What a process has read stays what the file holds in its record until its own write;
      after the edit it has the edit of that, and its write stores exactly this. */
  lemma ReadsStayCurrent(tr: seq<State>, p: nat)
    requires IsRun(Next, tr) && Init(tr[0]) && p < |Last(tr).procs|
    ensures var s, x := Last(tr), Last(tr).procs[p];
      var r := x.job.range;
      && InBounds(x)
      && (Holding(x.pc) ==> Lockable(x.job))
      && (x.pc == AtEdit ==> x.buf[..r.len] == Window(s.file, r.start, r.len))
      && (x.pc in {AtRewind, AtWrite} ==> x.buf[..r.len] == x.job.edit(Window(s.file, r.start, r.len)))
      && (x.pc == AtWrite ==> Step(s, p).file == RunAlone(s.file, x.job))
  {
    InvRun(tr);
    assert ProcOk(Last(tr), Last(tr).procs[p]);
  }

  function JobsInOrder(procs: seq<Proc>, order: seq<nat>): (jobs: seq<Job>)
    requires Known(procs, order)
    ensures |jobs| == |order|
  {
    seq(|order|, i requires 0 <= i < |order| => procs[order[i]].job)
  }

  lemma {:induction false} AllWritten(procs: seq<Proc>, order: seq<nat>, jobs: seq<Job>)
    requires Known(procs, order) && |jobs| == |order|
    requires forall i :: 0 <= i < |order| ==> Written(procs[order[i]].pc) && jobs[i] == procs[order[i]].job
    ensures WrittenJobs(procs, order) == jobs
  {
    if order != [] {
      AllWritten(procs, order[..|order| - 1], jobs[..|order| - 1]);
    }
  }

  ghost predicate AllFinished(s: State) {
    forall p :: 0 <= p < |s.procs| ==> Finished(s.procs[p].pc)
  }

  lemma AllGrantedAreWritten(s: State)
    requires OrderOk(s) && AllFinished(s)
    ensures WrittenJobs(s.procs, s.order) == JobsInOrder(s.procs, s.order)
    ensures forall p: nat :: p in s.order <==> p < |s.procs| && s.procs[p].pc == Done
  {
    forall i | 0 <= i < |s.order| ensures Written(s.procs[s.order[i]].pc) {
      assert s.order[i] in s.order;
    }
    AllWritten(s.procs, s.order, JobsInOrder(s.procs, s.order));
  }

  /** Serialisability.  In every reachable state the file is what the processes that have
      written would have made of the file of the start, running one after another in the
      order of their locks; when all have finished those are exactly the processes that
      got their lock, each listed once. */
  lemma Serialisable(tr: seq<State>)
    requires IsRun(Next, tr) && Init(tr[0])
    ensures SameProgram(tr[0], Last(tr))
    ensures var s := Last(tr);
      && Known(s.procs, s.order)
      && Runnable(WrittenJobs(s.procs, s.order))
      && s.file == Serial(tr[0].file, WrittenJobs(s.procs, s.order))
      && (forall i, j :: 0 <= i < j < |s.order| ==> s.order[i] != s.order[j])
    ensures AllFinished(Last(tr)) ==>
              var order := Last(tr).order;
              && Known(tr[0].procs, order)
              && (forall p: nat :: p in order <==> p < |tr[0].procs| && Last(tr).procs[p].pc == Done)
              && Runnable(JobsInOrder(tr[0].procs, order))
              && Last(tr).file == Serial(tr[0].file, JobsInOrder(tr[0].procs, order))
  {
    InvRun(tr);
    WrittenLockable(Last(tr));
    if AllFinished(Last(tr)) {
      AllGrantedAreWritten(Last(tr));
      assert JobsInOrder(tr[0].procs, Last(tr).order) == JobsInOrder(Last(tr).procs, Last(tr).order);
    }
  }

  // ---------- progress ----------

  /** Steps a process has taken when it is at a place. */
  function Taken(x: Proc): int {
    match x.pc
    case AtArgs => 0
    case AtLock => 1
    case AtSeek => 2
    case AtRead => 3
    case AtEdit => 4
    case AtRewind => 5
    case AtWrite => 6
    case AtUnlock => 7
    case Done => 8
    case Refused => 2
    case TooLong => 1
  }

  function Clock(s: State): int { Total(Taken, s.procs) }

  lemma TakesOne(s: State, p: nat) returns (x: Proc)
    requires p < |s.procs| && !Finished(s.procs[p].pc) && InBounds(s.procs[p])
    ensures Step(s, p).procs == s.procs[p := x] && Taken(x) == Taken(s.procs[p]) + 1
  {
    x := Step(s, p).procs[p];
  }

  lemma ClockStep(s: State, p: nat)
    requires p < |s.procs| && !Finished(s.procs[p].pc) && InBounds(s.procs[p])
    ensures Clock(Step(s, p)) == Clock(s) + 1 && |Step(s, p).procs| == |s.procs|
  {
    var x := TakesOne(s, p);
    TotalUpdate(Taken, s.procs, p, x);
  }

  lemma ClockNext(s: State, s': State)
    requires Next(s, s')
    ensures Clock(s') == Clock(s) + 1 && |s'.procs| == |s.procs|
  {
    var p: nat :| p < |s.procs| && !Finished(s.procs[p].pc) && InBounds(s.procs[p]) && s' == Step(s, p);
    ClockStep(s, p);
  }

  lemma ClockBounds(s: State)
    ensures 0 <= Clock(s) <= 8 * |s.procs|
    ensures Init(s) ==> Clock(s) == 0
  {
    TotalWithin(Taken, s.procs, 0, 8);
    if Init(s) {
      TotalConstant(Taken, s.procs, 0);
    }
  }

  lemma ClockRun(tr: seq<State>)
    requires IsRun(Next, tr) && Init(tr[0])
    ensures |Last(tr).procs| == |tr[0].procs|
    ensures Clock(Last(tr)) == |tr| - 1 <= 8 * |tr[0].procs|
  {
    var inv := (s: State) => |s.procs| == |tr[0].procs|;
    forall s, s' | inv(s) && Next(s, s') ensures inv(s') && Clock(s') == Clock(s) + 1 {
      ClockNext(s, s');
    }
    StepCount(Next, inv, Clock, tr);
    ClockBounds(tr[0]);
    ClockBounds(Last(tr));
  }

  /** Nobody ever waits, and every schedule ends within 8 steps a process: it can go on
      with any process that has not finished. */
  lemma NeverBlocks(tr: seq<State>, p: nat)
    requires IsRun(Next, tr) && Init(tr[0])
    requires p < |Last(tr).procs| && !Finished(Last(tr).procs[p].pc)
    ensures InBounds(Last(tr).procs[p]) && Next(Last(tr), Step(Last(tr), p))
    ensures IsRun(Next, tr + [Step(Last(tr), p)])
    ensures |tr| <= 8 * |tr[0].procs|
  {
    InvRun(tr);
    assert ProcOk(Last(tr), Last(tr).procs[p]);
    assert Next(Last(tr), Step(Last(tr), p));
    Extend(Next, tr, Step(Last(tr), p));
    ClockRun(tr + [Step(Last(tr), p)]);
  }

  /** How a process can end without writing: its range is longer than the buffer, or when
      it asks for its lock the range begins before the file or shares a byte with one
      that a process between lock and unlock holds; otherwise it gets the lock. */
  lemma RejectedIff(tr: seq<State>, p: nat)
    requires IsRun(Next, tr) && Init(tr[0]) && p < |Last(tr).procs|
    ensures var s, r := Last(tr), Last(tr).procs[p].job.range;
      && InBounds(s.procs[p])
      && (s.procs[p].pc == AtArgs ==>
            Step(s, p).procs[p].pc == if r.len > 1024 then TooLong else AtLock)
      && (s.procs[p].pc == AtLock ==>
            Step(s, p).procs[p].pc == if r.start < 0 || SharesByte(s, p) then Refused else AtSeek)
      && (s.procs[p].pc == TooLong ==> r.len > 1024)
      && (r.len > 1024 ==> s.procs[p].pc in {AtArgs, TooLong})
  {
    InvRun(tr);
    var s := Last(tr);
    assert ProcOk(s, s.procs[p]);
    if s.procs[p].pc == AtLock {
      RefusedIff(s, p);
    }
    LengthTested(tr, p);
  }

  ghost predicate SharesByte(s: State, p: nat)
    requires p < |s.procs|
  {
    exists q: nat, i :: q < |s.procs| && q != p && Holding(s.procs[q].pc)
                        && Covers(s.procs[q].job.range, i) && Covers(s.procs[p].job.range, i)
  }

  lemma RefusedIff(s: State, p: nat)
    requires LocksOk(s) && p < |s.procs| && s.procs[p].pc == AtLock
    ensures RecordLock(s.locks, LOCK_T, p, s.procs[p].job.range).Denied? <==>
            s.procs[p].job.range.start < 0 || SharesByte(s, p)
  {
    LockDeniedIff(s.locks, p, s.procs[p].job.range);
  }

  ghost predicate Tested(x: Proc) {
    x.pc == TooLong <==> x.pc != AtArgs && x.job.range.len > 1024
  }

  lemma TestedStep(s: State, p: nat) returns (x: Proc)
    requires p < |s.procs| && InBounds(s.procs[p]) && Tested(s.procs[p])
    ensures Step(s, p).procs == s.procs[p := x] && Tested(x)
  {
    x := Step(s, p).procs[p];
  }

  lemma LengthTested(tr: seq<State>, p: nat)
    requires IsRun(Next, tr) && Init(tr[0]) && p < |Last(tr).procs|
    ensures Tested(Last(tr).procs[p])
  {
    var inv := (s: State) => forall q :: 0 <= q < |s.procs| ==> Tested(s.procs[q]);
    forall s, s' | inv(s) && Next(s, s') ensures inv(s') {
      var q: nat :| q < |s.procs| && InBounds(s.procs[q]) && s' == Step(s, q);
      var x := TestedStep(s, q);
    }
    Invariant(Next, inv, tr);
  }

  /** Jobs that fit and share no byte. */
  ghost predicate Apart(s: State) {
    && (forall p :: 0 <= p < |s.procs| ==> Lockable(s.procs[p].job))
    && (forall p, q :: 0 <= p < |s.procs| && 0 <= q < |s.procs| && p != q ==>
          !Overlaps(s.procs[p].job.range, s.procs[q].job.range))
  }

  ghost predicate NoneRejected(s: State) {
    forall p :: 0 <= p < |s.procs| ==> s.procs[p].pc !in {Refused, TooLong}
  }

  /** Among jobs that fit and share no byte no lock is refused. */
  lemma ApartGranted(s: State, p: nat)
    requires LocksOk(s) && Apart(s) && p < |s.procs|
    ensures RecordLock(s.locks, LOCK_T, p, s.procs[p].job.range).Granted?
  {
    assert Lockable(s.procs[p].job);
    forall q: nat | q in s.locks && q != p
      ensures !Conflicts(s.locks[q], Lock(LType(LOCK_T), s.procs[p].job.range))
    {
      assert !Overlaps(s.procs[q].job.range, s.procs[p].job.range);
    }
  }

  /** A step keeps the jobs and rejects only as RecordLock does. */
  lemma StepOutcome(s: State, p: nat) returns (x: Proc)
    requires p < |s.procs| && InBounds(s.procs[p]) && Lockable(s.procs[p].job)
    requires RecordLock(s.locks, LOCK_T, p, s.procs[p].job.range).Granted?
    requires s.procs[p].pc !in {Refused, TooLong}
    ensures Step(s, p).procs == s.procs[p := x] && x.job == s.procs[p].job && x.pc !in {Refused, TooLong}
  {
    x := Step(s, p).procs[p];
  }

  lemma ApartStep(s: State, p: nat)
    requires LocksOk(s) && Apart(s) && NoneRejected(s)
    requires p < |s.procs| && InBounds(s.procs[p])
    ensures Apart(Step(s, p)) && NoneRejected(Step(s, p))
  {
    ApartGranted(s, p);
    var x := StepOutcome(s, p);
  }

  /** Processes whose ranges share no byte are never refused, in whatever order they come. */
  lemma ApartJobsAllSucceed(tr: seq<State>)
    requires IsRun(Next, tr) && Init(tr[0]) && Apart(tr[0])
    ensures NoneRejected(Last(tr))
  {
    var inv := s => Inv(s) && Apart(s) && NoneRejected(s);
    InitInv(tr[0]);
    forall s, s' | inv(s) && Next(s, s') ensures inv(s') {
      var p: nat :| p < |s.procs| && !Finished(s.procs[p].pc) && InBounds(s.procs[p]) && s' == Step(s, p);
      StepKeepsInv(s, p);
      ApartStep(s, p);
    }
    Invariant(Next, inv, tr);
  }

  // ---------- the program's own edit, byte by byte ----------

  ghost predicate Masks(job: Job) {
    forall s :: job.edit(s) == MaskRecord(s)
  }

  /** Whether a job reads and writes byte `i`; one of length 0 only locks. */
  predicate Touches(job: Job, i: int) {
    job.range.start <= i < job.range.start + job.range.len
  }

  ghost predicate TouchedByJob(jobs: seq<Job>, i: int) {
    exists j :: j in jobs && Touches(j, i)
  }

  ghost predicate TouchedByWriter(s: State, i: int) {
    exists p :: 0 <= p < |s.procs| && Written(s.procs[p].pc) && Touches(s.procs[p].job, i)
  }

  /** `n` is the largest of `base` and the ends of the jobs that write something. */
  ghost predicate LongestEnd(n: int, base: nat, jobs: seq<Job>) {
    && base <= n
    && (forall j :: j in jobs && j.range.len > 0 ==> j.range.start + j.range.len <= n)
    && (n == base || exists j :: j in jobs && j.range.len > 0 && n == j.range.start + j.range.len)
  }

  lemma RunAloneMasked(f: string, job: Job)
    requires Lockable(job) && Masks(job)
    ensures forall i: nat :: ByteAt(RunAlone(f, job), i) ==
                             if Touches(job, i) then Mask(ByteAt(f, i)) else ByteAt(f, i)
    ensures |RunAlone(f, job)| == if job.range.len == 0 then |f| else Max(|f|, job.range.start + job.range.len)
  {
    var w := Window(f, job.range.start, job.range.len);
    assert job.edit(w) == MaskRecord(w);
    WriteAtBytes(f, job.range.start, MaskRecord(w));
  }

  lemma {:induction false} SerialMasked(f: string, jobs: seq<Job>)
    requires Runnable(jobs) && forall j :: j in jobs ==> Masks(j)
    ensures forall i: nat :: ByteAt(Serial(f, jobs), i) ==
                             if TouchedByJob(jobs, i) then Mask(ByteAt(f, i)) else ByteAt(f, i)
    ensures LongestEnd(|Serial(f, jobs)|, |f|, jobs)
  {
    if jobs != [] {
      var init, last := jobs[..|jobs| - 1], jobs[|jobs| - 1];
      assert jobs == init + [last] && last in jobs;
      assert forall j :: j in jobs <==> j in init || j == last;
      SerialMasked(f, init);
      RunAloneMasked(Serial(f, init), last);
      forall i: nat
        ensures ByteAt(Serial(f, jobs), i) ==
                if TouchedByJob(jobs, i) then Mask(ByteAt(f, i)) else ByteAt(f, i)
      {
        assert TouchedByJob(jobs, i) <==> TouchedByJob(init, i) || Touches(last, i);
      }
    }
  }

  lemma TouchedAlike(s: State, i: nat)
    requires OrderOk(s)
    ensures TouchedByJob(WrittenJobs(s.procs, s.order), i) <==> TouchedByWriter(s, i)
  {
    var jobs := WrittenJobs(s.procs, s.order);
    WrittenJobsFrom(s.procs, s.order);
    if TouchedByJob(jobs, i) {
      var k :| 0 <= k < |jobs| && Touches(jobs[k], i);
      assert FromWriter(s.procs, s.order, jobs[k]);
    }
    if p :| 0 <= p < |s.procs| && Written(s.procs[p].pc) && Touches(s.procs[p].job, i) {
      var q: nat := p;
      assert q in s.order;
      WrittenContains(s.procs, s.order, q);
    }
  }

  /** In every reachable state, byte by byte: what a process that has written covers is
      'x' where the original byte (zero beyond the old end) was '0' or '9', so that
      neither is left there; every other byte is the original one, and the length is the
      largest of the old length and the ends of the ranges of positive length written. */
  lemma PointwiseResult(tr: seq<State>)
    requires IsRun(Next, tr) && Init(tr[0])
    requires forall p :: 0 <= p < |tr[0].procs| ==> Masks(tr[0].procs[p].job)
    ensures SameProgram(tr[0], Last(tr))
    ensures var s, before := Last(tr), tr[0].file;
      && OrderOk(s)
      && LongestEnd(|s.file|, |before|, WrittenJobs(s.procs, s.order))
      && forall i :: 0 <= i < |s.file| ==>
           var was, now := if i < |before| then before[i] else '\0', s.file[i];
           && now == (if TouchedByWriter(s, i) && (was == '0' || was == '9') then 'x' else was)
           && (TouchedByWriter(s, i) ==> now != '0' && now != '9')
  {
    InvRun(tr);
    var s := Last(tr);
    var jobs := WrittenJobs(s.procs, s.order);
    WrittenLockable(s);
    WrittenJobsFrom(s.procs, s.order);
    forall k | 0 <= k < |jobs| ensures Masks(jobs[k]) {
      assert FromWriter(s.procs, s.order, jobs[k]);
    }
    SerialMasked(s.initial, jobs);
    forall i: nat ensures TouchedByJob(jobs, i) <==> TouchedByWriter(s, i) {
      TouchedAlike(s, i);
    }
    assert forall i: nat :: i < |s.file| ==> s.file[i] == ByteAt(s.file, i);
  }

  lemma {:induction false} WrittenContains(procs: seq<Proc>, order: seq<nat>, p: nat)
    requires Known(procs, order) && p in order && p < |procs| && Written(procs[p].pc)
    ensures procs[p].job in WrittenJobs(procs, order)
  {
    if order[|order| - 1] != p {
      WrittenContains(procs, order[..|order| - 1], p);
    }
  }
}
