/** Any number of processes of record_lock_test.c on one file, interleaved between any
    two system calls.  What a process makes of its record is left open, so that the
    results rest on the locks and not on one particular edit. */
module RecordMachine {
  import opened Runs
  import opened Buffers
  import opened RecordFile

  datatype Pc = AtArgs | AtLock | AtSeek | AtRead | AtEdit | AtRewind | AtWrite | AtUnlock
              | Done | Refused | TooLong

  datatype Proc = Proc(job: Job, pc: Pc, offset: nat, buf: string)

  datatype State = State(
    initial: string,       // the file before anyone started
    file: string,
    locks: LockTable,
    procs: seq<Proc>,
    order: seq<nat>)       // history: the processes that got their lock, in that order

  ghost predicate Init(s: State) {
    && s.file == s.initial
    && s.locks == map[]
    && s.order == []
    && forall p :: 0 <= p < |s.procs| ==>
         && WellFormed(s.procs[p].job)
         && s.procs[p].pc == AtArgs
         && s.procs[p].offset == 0
         && s.procs[p].buf == Zeros(BUFSIZE)
  }

  predicate Holding(pc: Pc) {
    pc in {AtSeek, AtRead, AtEdit, AtRewind, AtWrite, AtUnlock}
  }

  predicate Granted(pc: Pc) { Holding(pc) || pc == Done }

  predicate Written(pc: Pc) { pc in {AtUnlock, Done} }

  predicate Finished(pc: Pc) { pc in {Done, Refused, TooLong} }

  /** Between lock and unlock the record fits the buffer. */
  predicate InBounds(p: Proc) {
    |p.buf| == BUFSIZE && (Holding(p.pc) ==> p.job.range.len <= BUFSIZE)
  }

  function SetProc(s: State, p: nat, x: Proc): State
    requires p < |s.procs|
  {
    s.(procs := s.procs[p := x])
  }

  /** The next system call, or the edit loop, of process `p`. */
  function Step(s: State, p: nat): State
    requires p < |s.procs| && InBounds(s.procs[p])
  {
    var x := s.procs[p];
    var r := x.job.range;
    match x.pc
    case AtArgs => SetProc(s, p, x.(pc := if r.len > BUFSIZE then TooLong else AtLock))
    case AtLock =>
      (match RecordLock(s.locks, LOCK_T, p, r)
       case Denied => SetProc(s, p, x.(pc := Refused))
       case Granted(table) => SetProc(s, p, x.(pc := AtSeek)).(locks := table, order := s.order + [p]))
    case AtSeek => SetProc(s, p, x.(pc := AtRead, offset := if r.start < 0 then x.offset else r.start))
    case AtRead =>
      var data := ReadAt(s.file, x.offset, r.len);
      SetProc(s, p, x.(pc := AtEdit, offset := x.offset + |data|, buf := Overlay(x.buf, data)))
    case AtEdit => SetProc(s, p, x.(pc := AtRewind, buf := x.job.edit(x.buf[..r.len]) + x.buf[r.len..]))
    case AtRewind => SetProc(s, p, x.(pc := AtWrite, offset := if r.start < 0 then x.offset else r.start))
    case AtWrite =>
      SetProc(s, p, x.(pc := AtUnlock, offset := x.offset + r.len))
      .(file := WriteAt(s.file, x.offset, x.buf[..r.len]))
    case AtUnlock =>
      (match RecordLock(s.locks, UNLOCK_T, p, r)
       case Denied => SetProc(s, p, x.(pc := Done))
       case Granted(table) => SetProc(s, p, x.(pc := Done)).(locks := table))
    case _ => s
  }

  ghost predicate Next(s: State, s': State) {
    exists p: nat :: p < |s.procs| && !Finished(s.procs[p].pc) && InBounds(s.procs[p]) && s' == Step(s, p)
  }

  // ---------- the jobs already written, in the order of their locks ----------

  predicate Known(procs: seq<Proc>, order: seq<nat>) {
    forall i :: 0 <= i < |order| ==> order[i] < |procs|
  }

  function WrittenJobs(procs: seq<Proc>, order: seq<nat>): seq<Job>
    requires Known(procs, order)
  {
    if order == [] then []
    else
      var p := order[|order| - 1];
      WrittenJobs(procs, order[..|order| - 1]) + (if Written(procs[p].pc) then [procs[p].job] else [])
  }

  ghost predicate FromWriter(procs: seq<Proc>, order: seq<nat>, job: Job)
    requires Known(procs, order)
  {
    exists i :: 0 <= i < |order| && Written(procs[order[i]].pc) && procs[order[i]].job == job
  }

  lemma {:induction false} WrittenJobsFrom(procs: seq<Proc>, order: seq<nat>)
    requires Known(procs, order)
    ensures forall k :: 0 <= k < |WrittenJobs(procs, order)| ==> FromWriter(procs, order, WrittenJobs(procs, order)[k])
  {
    if order != [] {
      var prefix, jobs := order[..|order| - 1], WrittenJobs(procs, order);
      WrittenJobsFrom(procs, prefix);
      forall k | 0 <= k < |jobs| ensures FromWriter(procs, order, jobs[k]) {
        if k < |WrittenJobs(procs, prefix)| {
          assert FromWriter(procs, prefix, jobs[k]);
          var i :| 0 <= i < |prefix| && Written(procs[prefix[i]].pc) && procs[prefix[i]].job == jobs[k];
          assert order[i] == prefix[i];
        }
      }
    }
  }

  lemma {:induction false} WrittenJobsConcat(procs: seq<Proc>, a: seq<nat>, b: seq<nat>)
    requires Known(procs, a) && Known(procs, b)
    ensures Known(procs, a + b)
    ensures WrittenJobs(procs, a + b) == WrittenJobs(procs, a) + WrittenJobs(procs, b)
  {
    if b == [] {
      assert a + b == a;
    } else {
      assert (a + b)[..|a + b| - 1] == a + b[..|b| - 1];
      WrittenJobsConcat(procs, a, b[..|b| - 1]);
    }
  }

  /** The written jobs depend only on which of the listed processes have written. */
  lemma {:induction false} WrittenJobsFrame(procs: seq<Proc>, procs': seq<Proc>, order: seq<nat>)
    requires Known(procs, order) && Known(procs', order)
    requires forall i :: 0 <= i < |order| ==>
               && procs[order[i]].job == procs'[order[i]].job
               && (Written(procs[order[i]].pc) <==> Written(procs'[order[i]].pc))
    ensures WrittenJobs(procs, order) == WrittenJobs(procs', order)
  {
    if order != [] {
      WrittenJobsFrame(procs, procs', order[..|order| - 1]);
    }
  }

  /** A process that only just got its lock adds nothing to the written jobs. */
  lemma WrittenAfterGrant(procs: seq<Proc>, order: seq<nat>, p: nat, x: Proc)
    requires Known(procs, order) && p < |procs| && !Written(x.pc)
    requires forall i :: 0 <= i < |order| ==> order[i] != p
    ensures Known(procs[p := x], order + [p])
    ensures WrittenJobs(procs[p := x], order + [p]) == WrittenJobs(procs, order)
  {
    assert (order + [p])[..|order|] == order;
    WrittenJobsFrame(procs, procs[p := x], order);
  }

  /** A process that writes puts its job between those locked before and after it. */
  lemma WrittenAfterWrite(procs: seq<Proc>, order: seq<nat>, i: nat, x: Proc)
    requires Known(procs, order) && i < |order|
    requires Known(procs, order[..i]) && Known(procs, order[i + 1..])
    requires forall k :: 0 <= k < |order| && k != i ==> order[k] != order[i]
    requires !Written(procs[order[i]].pc) && Written(x.pc) && x.job == procs[order[i]].job
    ensures Known(procs[order[i] := x], order)
    ensures var before, after := WrittenJobs(procs, order[..i]), WrittenJobs(procs, order[i + 1..]);
      && WrittenJobs(procs, order) == before + after
      && WrittenJobs(procs[order[i] := x], order) == before + [x.job] + after
  {
    WrittenJobsSplit(procs, order, i);
    WrittenJobsSplit(procs[order[i] := x], order, i);
    WrittenJobsFrame(procs, procs[order[i] := x], order[..i]);
    WrittenJobsFrame(procs, procs[order[i] := x], order[i + 1..]);
  }

  lemma WrittenJobsSplit(procs: seq<Proc>, order: seq<nat>, i: nat)
    requires Known(procs, order) && i < |order|
    ensures Known(procs, order[..i]) && Known(procs, order[i + 1..])
    ensures WrittenJobs(procs, order) ==
            WrittenJobs(procs, order[..i]) +
            (if Written(procs[order[i]].pc) then [procs[order[i]].job] else []) +
            WrittenJobs(procs, order[i + 1..])
  {
    var prefix := order[..i + 1];
    assert order == prefix + order[i + 1..];
    assert prefix[..|prefix| - 1] == order[..i];
    WrittenJobsConcat(procs, prefix, order[i + 1..]);
  }

  // ---------- the invariant ----------

  ghost predicate ProcOk(s: State, x: Proc) {
    var r := x.job.range;
    && WellFormed(x.job)
    && InBounds(x)
    && (x.pc == AtLock ==> r.len <= BUFSIZE)
    && (Granted(x.pc) ==> Lockable(x.job))
    && (x.pc in {AtArgs, AtLock, AtSeek, AtRead} ==> x.buf == Zeros(BUFSIZE))
    && (x.pc in {AtRead, AtWrite} ==> x.offset == r.start)
    && (x.pc == AtEdit ==> x.buf[..r.len] == Window(s.file, r.start, r.len))
    && (x.pc in {AtRewind, AtWrite} ==> x.buf[..r.len] == x.job.edit(Window(s.file, r.start, r.len)))
  }

  ghost predicate LocksOk(s: State) {
    && (forall p: nat :: p in s.locks <==> p < |s.procs| && Holding(s.procs[p].pc))
    && (forall p: nat :: p in s.locks ==> s.locks[p] == Lock(F_WRLCK, s.procs[p].job.range))
    && (forall p: nat, q: nat :: p in s.locks && q in s.locks && p != q ==>
          !Overlaps(s.procs[p].job.range, s.procs[q].job.range))
  }

  ghost predicate OrderOk(s: State) {
    && Known(s.procs, s.order)
    && (forall p: nat :: p in s.order <==> p < |s.procs| && Granted(s.procs[p].pc))
    && (forall i, j :: 0 <= i < j < |s.order| ==> s.order[i] != s.order[j])
    // a process that got its lock while another held one has a range apart from it
    && (forall i, j :: 0 <= i < j < |s.order| && s.order[i] in s.locks ==>
          !Overlaps(s.procs[s.order[i]].job.range, s.procs[s.order[j]].job.range))
  }

  ghost predicate ProcsOk(s: State) {
    forall p :: 0 <= p < |s.procs| ==> ProcOk(s, s.procs[p])
  }

  lemma WrittenLockable(s: State)
    requires ProcsOk(s) && OrderOk(s)
    ensures Runnable(WrittenJobs(s.procs, s.order))
  {
    WrittenJobsFrom(s.procs, s.order);
    assert forall i :: 0 <= i < |s.order| ==> s.order[i] in s.order;
  }

  ghost predicate FileOk(s: State)
    requires ProcsOk(s) && OrderOk(s)
  {
    WrittenLockable(s);
    s.file == Serial(s.initial, WrittenJobs(s.procs, s.order))
  }

  ghost predicate Inv(s: State) {
    ProcsOk(s) && LocksOk(s) && OrderOk(s) && FileOk(s)
  }

  // ---------- every step keeps it ----------

  /** A step within a process that changes neither its hold on a lock nor whether it
      has written. */
  ghost predicate LocalChange(s: State, p: nat, x: Proc) {
    && p < |s.procs|
    && x.job == s.procs[p].job
    && Holding(x.pc) == Holding(s.procs[p].pc)
    && Granted(x.pc) == Granted(s.procs[p].pc)
    && Written(x.pc) == Written(s.procs[p].pc)
  }

  lemma LocalKeepsProcs(s: State, p: nat, x: Proc)
    requires ProcsOk(s) && p < |s.procs| && ProcOk(s, x)
    ensures ProcsOk(SetProc(s, p, x))
  {
    var s' := SetProc(s, p, x);
    forall q | 0 <= q < |s'.procs| ensures ProcOk(s', s'.procs[q]) {
      assert ProcOk(s, if q == p then x else s.procs[q]);
    }
  }

  lemma LocalStep(s: State, p: nat, x: Proc)
    requires Inv(s) && LocalChange(s, p, x) && ProcOk(s, x)
    ensures Inv(SetProc(s, p, x))
  {
    LocalKeepsProcs(s, p, x);
    LocksFrame(s, p, x, SetProc(s, p, x));
    OrderFrame(s, p, x, SetProc(s, p, x));
    WrittenJobsFrame(s.procs, s.procs[p := x], s.order);
  }

  /** `s'` is `s` with `p`'s lock, apart from all others, newly granted. */
  ghost predicate NewlyGranted(s: State, p: nat, s': State) {
    && p < |s.procs| && s.procs[p].pc == AtLock
    && s' == SetProc(s, p, s.procs[p].(pc := AtSeek))
             .(locks := s.locks[p := Lock(F_WRLCK, s.procs[p].job.range)], order := s.order + [p])
    && Lockable(s.procs[p].job)
    && forall q: nat :: q in s.locks && q < |s.procs| ==>
         && !Overlaps(s.procs[q].job.range, s.procs[p].job.range)
         && !Overlaps(s.procs[p].job.range, s.procs[q].job.range)
  }

  lemma GrantKeepsLocks(s: State, p: nat, s': State)
    requires ProcsOk(s) && LocksOk(s) && NewlyGranted(s, p, s')
    ensures ProcsOk(s') && LocksOk(s')
  {
  }

  lemma GrantKeepsOrder(s: State, p: nat, s': State)
    requires LocksOk(s) && OrderOk(s) && NewlyGranted(s, p, s')
    ensures OrderOk(s')
  {
    forall i, j | 0 <= i < j < |s'.order|
      ensures s'.order[i] != s'.order[j]
      ensures s'.order[i] in s'.locks ==>
                !Overlaps(s'.procs[s'.order[i]].job.range, s'.procs[s'.order[j]].job.range)
    {
      assert s.order[i] in s.order;
    }
  }

  lemma GrantKeepsFile(s: State, p: nat, s': State)
    requires Inv(s) && NewlyGranted(s, p, s') && ProcsOk(s') && OrderOk(s')
    ensures FileOk(s')
  {
    assert forall i :: 0 <= i < |s.order| ==> s.order[i] in s.order;
    WrittenAfterGrant(s.procs, s.order, p, s'.procs[p]);
  }

  lemma LockStep(s: State, p: nat)
    requires Inv(s) && p < |s.procs| && s.procs[p].pc == AtLock
    ensures Inv(Step(s, p))
  {
    var x, s' := s.procs[p], Step(s, p);
    match RecordLock(s.locks, LOCK_T, p, x.job.range) {
      case Denied => LocalStep(s, p, x.(pc := Refused));
      case Granted(table) =>
        forall q: nat | q in s.locks
          ensures !Overlaps(s.procs[q].job.range, x.job.range) && !Overlaps(x.job.range, s.procs[q].job.range)
        {
          assert !Conflicts(s.locks[q], Lock(F_WRLCK, x.job.range));
        }
        GrantKeepsLocks(s, p, s');
        GrantKeepsOrder(s, p, s');
        GrantKeepsFile(s, p, s');
    }
  }

  ghost predicate Released(s: State, p: nat, s': State) {
    && p < |s.procs| && s.procs[p].pc == AtUnlock
    && s' == SetProc(s, p, s.procs[p].(pc := Done)).(locks := s.locks - {p})
  }

  lemma ReleaseKeepsLocks(s: State, p: nat, s': State)
    requires ProcsOk(s) && LocksOk(s) && Released(s, p, s')
    ensures ProcsOk(s') && LocksOk(s')
  {
    forall q | 0 <= q < |s'.procs| ensures ProcOk(s', s'.procs[q]) {
      assert ProcOk(s, s.procs[q]);
    }
  }

  lemma ReleaseKeepsOrder(s: State, p: nat, s': State)
    requires LocksOk(s) && OrderOk(s) && Released(s, p, s')
    ensures OrderOk(s')
  {
  }

  lemma UnlockReleases(s: State, p: nat)
    requires ProcsOk(s) && LocksOk(s) && p < |s.procs| && s.procs[p].pc == AtUnlock
    ensures Released(s, p, Step(s, p))
  {
    assert ProcOk(s, s.procs[p]) && p in s.locks;
  }

  lemma UnlockStep(s: State, p: nat)
    requires Inv(s) && p < |s.procs| && s.procs[p].pc == AtUnlock
    ensures Inv(Step(s, p))
  {
    var s' := Step(s, p);
    UnlockReleases(s, p);
    ReleaseKeepsLocks(s, p, s');
    ReleaseKeepsOrder(s, p, s');
    WrittenJobsFrame(s.procs, s'.procs, s.order);
  }

  /** Other holders' records are not touched by a write. */
  lemma OthersKeepTheirRecord(s: State, p: nat, q: nat)
    requires Inv(s) && p < |s.procs| && q < |s.procs| && p != q
    requires s.procs[p].pc == AtWrite
    ensures ProcOk(Step(s, p), s.procs[q])
  {
    var x, y := s.procs[p], s.procs[q];
    if Holding(y.pc) {
      assert p in s.locks && q in s.locks;
      WindowElsewhere(s.file, x.offset, x.buf[..x.job.range.len], y.job.range.start, y.job.range.len);
    }
  }

  lemma WriteKeepsProcs(s: State, p: nat)
    requires Inv(s) && p < |s.procs| && s.procs[p].pc == AtWrite
    ensures ProcsOk(Step(s, p))
  {
    forall q | 0 <= q < |s.procs| && q != p ensures ProcOk(Step(s, p), s.procs[q]) {
      OthersKeepTheirRecord(s, p, q);
    }
  }

  /** A write leaves everything about locks as it was. */
  lemma WriteKeepsLocks(s: State, p: nat)
    requires ProcsOk(s) && LocksOk(s) && OrderOk(s) && p < |s.procs| && s.procs[p].pc == AtWrite
    ensures LocksOk(Step(s, p)) && OrderOk(Step(s, p))
  {
    assert ProcOk(s, s.procs[p]);
    var x := Step(s, p).procs[p];
    LocksFrame(s, p, x, Step(s, p));
    OrderFrame(s, p, x, Step(s, p));
  }

  lemma LocksFrame(s: State, p: nat, x: Proc, s': State)
    requires LocksOk(s) && p < |s.procs|
    requires s'.procs == s.procs[p := x] && s'.locks == s.locks
    requires x.job == s.procs[p].job && Holding(x.pc) == Holding(s.procs[p].pc)
    ensures LocksOk(s')
  {
  }

  lemma OrderFrame(s: State, p: nat, x: Proc, s': State)
    requires OrderOk(s) && p < |s.procs|
    requires s'.procs == s.procs[p := x] && s'.order == s.order && s'.locks == s.locks
    requires x.job == s.procs[p].job && Granted(x.pc) == Granted(s.procs[p].pc)
    ensures OrderOk(s')
  {
  }

  lemma WriteStep(s: State, p: nat)
    requires Inv(s) && p < |s.procs| && s.procs[p].pc == AtWrite
    ensures Inv(Step(s, p))
  {
    WriteKeepsProcs(s, p);
    WriteKeepsLocks(s, p);
    assert p in s.order;
    var i: nat :| i < |s.order| && s.order[i] == p;
    WriteExtendsSerial(s, p, i);
  }

  /** Everything that got its lock later is apart from the record being written. */
  lemma LaterJobsApart(s: State, p: nat, i: nat)
    requires Inv(s) && p < |s.procs| && s.procs[p].pc == AtWrite
    requires i < |s.order| && s.order[i] == p && Known(s.procs, s.order[i + 1..])
    ensures var after := WrittenJobs(s.procs, s.order[i + 1..]);
      forall k :: 0 <= k < |after| ==> !Overlaps(s.procs[p].job.range, after[k].range)
  {
    var post := s.order[i + 1..];
    var after := WrittenJobs(s.procs, post);
    WrittenJobsFrom(s.procs, post);
    forall k | 0 <= k < |after| ensures !Overlaps(s.procs[p].job.range, after[k].range) {
      assert FromWriter(s.procs, post, after[k]);
      var q :| 0 <= q < |post| && Written(s.procs[post[q]].pc) && s.procs[post[q]].job == after[k];
      assert s.order[i + 1 + q] == post[q] && s.order[i] in s.locks;
    }
  }

  lemma WriteIsRunAlone(s: State, p: nat)
    requires ProcsOk(s) && p < |s.procs| && s.procs[p].pc == AtWrite
    ensures Lockable(s.procs[p].job) && WellFormed(s.procs[p].job)
    ensures Step(s, p).file == RunAlone(s.file, s.procs[p].job)
  {
    assert ProcOk(s, s.procs[p]);
  }

  /** The written file is the serial one with the writer's job in its place by lock order. */
  lemma WriteExtendsSerial(s: State, p: nat, i: nat)
    requires Inv(s) && p < |s.procs| && s.procs[p].pc == AtWrite
    requires i < |s.order| && s.order[i] == p
    requires ProcsOk(Step(s, p)) && OrderOk(Step(s, p))
    ensures FileOk(Step(s, p))
  {
    var job, s' := s.procs[p].job, Step(s, p);
    WrittenJobsSplit(s.procs, s.order, i);
    var before, after := WrittenJobs(s.procs, s.order[..i]), WrittenJobs(s.procs, s.order[i + 1..]);
    WriteJobs(s, p, i);
    LaterJobsApart(s, p, i);
    WriteIsRunAlone(s, p);
    WrittenLockable(s);
    assert Runnable(before + after);
    RunnableParts(before, after);
    MoveToEnd(s.initial, before, job, after);
    WrittenLockable(s');
  }

  lemma RunnableParts(a: seq<Job>, b: seq<Job>)
    requires Runnable(a + b)
    ensures Runnable(a) && Runnable(b)
  {
    forall i | 0 <= i < |a| ensures Lockable(a[i]) && WellFormed(a[i]) { assert (a + b)[i] == a[i]; }
    forall i | 0 <= i < |b| ensures Lockable(b[i]) && WellFormed(b[i]) { assert (a + b)[|a| + i] == b[i]; }
  }

  lemma WriteJobs(s: State, p: nat, i: nat)
    requires Inv(s) && p < |s.procs| && s.procs[p].pc == AtWrite
    requires i < |s.order| && s.order[i] == p
    requires Known(s.procs, s.order[..i]) && Known(s.procs, s.order[i + 1..])
    ensures Known(Step(s, p).procs, s.order)
    ensures var before, after := WrittenJobs(s.procs, s.order[..i]), WrittenJobs(s.procs, s.order[i + 1..]);
      && WrittenJobs(s.procs, s.order) == before + after
      && WrittenJobs(Step(s, p).procs, s.order) == before + [s.procs[p].job] + after
  {
    WrittenAfterWrite(s.procs, s.order, i, Step(s, p).procs[p]);
  }

  lemma StepKeepsInv(s: State, p: nat)
    requires Inv(s) && p < |s.procs|
    ensures Inv(Step(s, p))
  {
    var x := s.procs[p];
    match x.pc
    case AtLock => LockStep(s, p);
    case AtWrite => WriteStep(s, p);
    case AtUnlock => UnlockStep(s, p);
    case AtRead =>
      LoadIsWindow(s.file, x.job.range.start, x.job.range.len);
      LocalStep(s, p, Step(s, p).procs[p]);
    case Done =>
    case Refused =>
    case TooLong =>
    case _ => LocalStep(s, p, Step(s, p).procs[p]);
  }

  lemma InitInv(s: State)
    requires Init(s)
    ensures Inv(s)
  {
  }

  /** The file to begin with, the processes and their jobs never change. */
  ghost predicate SameProgram(s: State, s': State) {
    && s'.initial == s.initial
    && |s'.procs| == |s.procs|
    && forall p :: 0 <= p < |s.procs| ==> s'.procs[p].job == s.procs[p].job
  }

  lemma StepIsLocal(s: State, p: nat) returns (x: Proc)
    requires p < |s.procs| && InBounds(s.procs[p])
    ensures Step(s, p).procs == s.procs[p := x] && x.job == s.procs[p].job
    ensures Step(s, p).initial == s.initial
    ensures s.procs[p].pc != AtWrite ==> Step(s, p).file == s.file
    ensures Granted(s.procs[p].pc) ==> Granted(x.pc)
    ensures Written(s.procs[p].pc) ==> Written(x.pc)
    ensures s.procs[p].pc == AtWrite ==> x.pc == AtUnlock
  {
    x := Step(s, p).procs[p];
  }

  lemma InvRun(tr: seq<State>)
    requires IsRun(Next, tr) && Init(tr[0])
    ensures Inv(Last(tr)) && SameProgram(tr[0], Last(tr))
    ensures tr[0].initial == tr[0].file
  {
    InitInv(tr[0]);
    var inv := s => Inv(s) && SameProgram(tr[0], s);
    forall s, s' | inv(s) && Next(s, s') ensures inv(s') {
      var p: nat :| p < |s.procs| && InBounds(s.procs[p]) && s' == Step(s, p);
      StepKeepsInv(s, p);
      var x := StepIsLocal(s, p);
    }
    Invariant(Next, inv, tr);
  }

  // ---------- what a lock protects ----------

  /** While a process holds its lock no step of another changes a byte of its range, also
      when the range reaches to the end of the file. */
  lemma OthersLeaveRange(s: State, p: nat, q: nat, i: nat)
    requires Inv(s) && p < |s.procs| && q < |s.procs| && p != q
    requires Holding(s.procs[q].pc) && Covers(s.procs[q].job.range, i)
    ensures InBounds(s.procs[p])
    ensures ByteAt(Step(s, p).file, i) == ByteAt(s.file, i)
  {
    assert ProcOk(s, s.procs[p]);
    var x := StepIsLocal(s, p);
    if s.procs[p].pc == AtWrite {
      WriteIsRunAlone(s, p);
      var job := s.procs[p].job;
      WriteAtBytes(s.file, job.range.start, job.edit(Window(s.file, job.range.start, job.range.len)));
      assert p in s.locks && q in s.locks;
      OverlapsIffCommonByte(job.range, s.procs[q].job.range);
    }
  }

  /** A byte of q's range as long as q holds its lock and has not, or has still, written. */
  ghost predicate Kept(s0: State, s: State, q: nat, i: nat) {
    && q < |s0.procs| && SameProgram(s0, s)
    && Granted(s.procs[q].pc)
    && (Written(s0.procs[q].pc) ==> Written(s.procs[q].pc))
    && (Holding(s.procs[q].pc) && Written(s.procs[q].pc) == Written(s0.procs[q].pc) ==>
          ByteAt(s.file, i) == ByteAt(s0.file, i))
  }

  lemma KeptStep(s0: State, s: State, p: nat, q: nat, i: nat)
    requires Inv(s) && Kept(s0, s, q, i) && p < |s.procs| && !Finished(s.procs[p].pc)
    requires Covers(s0.procs[q].job.range, i)
    ensures InBounds(s.procs[p]) && Kept(s0, Step(s, p), q, i)
  {
    assert ProcOk(s, s.procs[p]);
    var x := StepIsLocal(s, p);
    if p != q && Holding(s.procs[q].pc) {
      OthersLeaveRange(s, p, q, i);
    }
  }

  /** From any reachable state on, as long as a process holds its lock and neither writes
      nor unlocks, every byte of its range stays as it is, whatever the others do. */
  lemma RangeFrozen(tr: seq<State>, q: nat, i: nat)
    requires IsRun(Next, tr) && Inv(tr[0])
    requires q < |tr[0].procs| && Holding(tr[0].procs[q].pc) && Covers(tr[0].procs[q].job.range, i)
    ensures SameProgram(tr[0], Last(tr))
    ensures Holding(Last(tr).procs[q].pc) && Written(Last(tr).procs[q].pc) == Written(tr[0].procs[q].pc) ==>
              ByteAt(Last(tr).file, i) == ByteAt(tr[0].file, i)
  {
    var inv := s => Inv(s) && Kept(tr[0], s, q, i);
    forall s, s' | inv(s) && Next(s, s') ensures inv(s') {
      var p: nat :| p < |s.procs| && !Finished(s.procs[p].pc) && InBounds(s.procs[p]) && s' == Step(s, p);
      StepKeepsInv(s, p);
      KeptStep(tr[0], s, p, q, i);
    }
    Invariant(Next, inv, tr);
  }
}
