/** record_lock_test.c as it changes the file, the lock table and its buffer: the
    system calls, the edit loop, `main` run without interference, which is what the
    interleaved runs are compared with, and any number of processes interleaved. */
module RecordProgram {
  import opened Runs
  import opened Buffers
  import opened RecordFile
  import opened RecordMachine
  import opened RecordTheorems

  class LockedFile {
    var contents: string
    var locks: LockTable

    constructor (contents: string)
      ensures this.contents == contents && locks == map[]
    {
      this.contents := contents;
      locks := map[];
    }

    /** record_lock: 0 or -1, never waiting. */
    method SetRecordLock(t: int, pid: nat, start: int, len: nat) returns (ret: int)
      modifies this`locks
      ensures ret == (if RecordLock(old(locks), t, pid, Range(start, len)).Granted? then 0 else -1)
      ensures locks == match RecordLock(old(locks), t, pid, Range(start, len))
                       case Granted(table) => table
                       case Denied => old(locks)
      ensures t == LOCK_T ==>
                (ret == -1 <==>
                  (start < 0 ||
                   exists q, i :: q in old(locks) && q != pid
                                  && Covers(old(locks)[q].range, i) && Covers(Range(start, len), i)))
    {
      LockDeniedIff(locks, pid, Range(start, len));
      match SetLk(locks, pid, Lock(LType(t), Range(start, len))) {
        case Granted(table) =>
          locks := table;
          ret := 0;
        case Denied =>
          ret := -1;
      }
    }

    /** read at an offset into the beginning of a buffer. */
    method Read(buf: array<char>, offset: nat, n: nat) returns (count: nat)
      requires n <= buf.Length
      modifies buf
      ensures count == if |contents| <= offset then 0 else if |contents| - offset < n then |contents| - offset else n
      ensures forall i :: 0 <= i < count ==> buf[i] == contents[offset + i]
      ensures forall i :: count <= i < buf.Length ==> buf[i] == old(buf[i])
      ensures buf[..] == Overlay(old(buf[..]), ReadAt(contents, offset, n))
    {
      ReadAtBytes(contents, offset, n);
      var data := ReadAt(contents, offset, n);
      Store(buf, data);
      count := |data|;
    }

    method Write(buf: array<char>, offset: nat, n: nat)
      requires n <= buf.Length
      modifies this`contents
      ensures contents == WriteAt(old(contents), offset, buf[..n])
    {
      contents := WriteAt(contents, offset, buf[..n]);
    }
  }

  /** The edit loop of main, in place. */
  method EditRecord(buf: array<char>, recordLen: nat)
    requires recordLen <= buf.Length
    modifies buf
    ensures forall k :: 0 <= k < recordLen ==> Edited(old(buf[k]), buf[k])
    ensures buf[..] == MaskRecord(old(buf[..recordLen])) + old(buf[recordLen..])
  {
    var i := 0;
    while i < recordLen
      invariant i <= recordLen
      invariant forall k :: 0 <= k < buf.Length ==> buf[k] == if k < i then Mask(old(buf[k])) else old(buf[k])
    {
      if buf[i] == '0' || buf[i] == '9' {
        buf[i] := 'x';
      }
      i := i + 1;
    }
  }

  /** `after` is `before` with '0' and '9' turned into 'x' in `len` bytes from `start`; it
      reaches to the end of these, with zeros where `before` had nothing. */
  ghost predicate MaskedFrom(start: nat, len: nat, before: string, after: string) {
    && |after| == (if len == 0 || start + len <= |before| then |before| else start + len)
    && forall i :: 0 <= i < |after| ==>
         var was := if i < |before| then before[i] else '\0';
         after[i] == if start <= i < start + len && (was == '0' || was == '9') then 'x' else was
  }

  lemma RunAloneMasks(f: string, start: nat, len: nat)
    requires len <= BUFSIZE
    ensures MaskedFrom(start, len, f, RunAlone(f, OwnJob(Range(start, len))))
  {
    var job := OwnJob(Range(start, len));
    RunAloneMasked(f, job);
    var after := RunAlone(f, job);
    assert forall i: nat :: i < |after| ==> after[i] == ByteAt(after, i);
  }

  datatype Outcome = RecordDone | LockRefused | LengthTooLong

  /** main, with nobody else running meanwhile: it changes the file exactly when the
      length fits and the lock is granted, then as RunAlone says, and it leaves no lock
      of its own behind. */
  method Process(file: LockedFile, pid: nat, start: int, len: nat) returns (outcome: Outcome)
    requires pid !in file.locks
    modifies file
    ensures file.locks == old(file.locks)
    ensures outcome == LengthTooLong <==> len > 1024
    ensures outcome == LockRefused <==>
              && len <= 1024
              && (start < 0 ||
                  exists q, i :: q in old(file.locks)
                                 && Covers(old(file.locks)[q].range, i) && Covers(Range(start, len), i))
    ensures if outcome == RecordDone
            then start >= 0 && MaskedFrom(start, len, old(file.contents), file.contents)
            else file.contents == old(file.contents)
  {
    if len > BUFSIZE {
      return LengthTooLong;
    }
    var buf := new char[BUFSIZE](_ => '\0');
    var ret := file.SetRecordLock(LOCK_T, pid, start, len);
    if ret == -1 {
      return LockRefused;
    }
    var offset: nat := start;
    assert buf[..] == Zeros(BUFSIZE);
    var count := file.Read(buf, offset, len);
    LoadIsWindow(file.contents, start, len);
    ghost var record := buf[..len];
    assert record == Window(file.contents, start, len);
    EditRecord(buf, len);
    assert buf[..len] == MaskRecord(record);
    offset := start;
    file.Write(buf, offset, len);
    RunAloneMasks(old(file.contents), start, len);
    ret := file.SetRecordLock(UNLOCK_T, pid, start, len);
    assert file.locks == old(file.locks);
    return RecordDone;
  }

  /** Any number of processes at work on one file at once. */
  class Workers {
    const initial: string
    var file: string
    var locks: LockTable
    var procs: seq<Proc>
    ghost var order: seq<nat>

    constructor (initial: string, jobs: seq<Job>)
      requires forall p :: 0 <= p < |jobs| ==> WellFormed(jobs[p])
      ensures Init(Now()) && this.initial == initial && |procs| == |jobs|
      ensures forall p :: 0 <= p < |jobs| ==> procs[p].job == jobs[p]
    {
      this.initial, file, locks, order := initial, initial, map[], [];
      procs := seq(|jobs|, p requires 0 <= p < |jobs| => Proc(jobs[p], AtArgs, 0, Zeros(BUFSIZE)));
    }

    ghost function Now(): State
      reads this
    {
      State(initial, file, locks, procs, order)
    }

    /** The next system call, or the edit, of one process. */
    method Advance(p: nat)
      requires p < |procs| && !Finished(procs[p].pc) && InBounds(procs[p])
      modifies this
      ensures Now() == Step(old(Now()), p)
    {
      var x := procs[p];
      var start, len := x.job.range.start, x.job.range.len;
      match x.pc
      case AtArgs =>
        procs := procs[p := x.(pc := if len > BUFSIZE then TooLong else AtLock)];
      case AtLock =>
        match RecordLock(locks, LOCK_T, p, x.job.range) {
          case Granted(table) =>
            locks := table;
            order := order + [p];
            procs := procs[p := x.(pc := AtSeek)];
          case Denied =>
            procs := procs[p := x.(pc := Refused)];
        }
      case AtSeek =>
        procs := procs[p := x.(pc := AtRead, offset := if start < 0 then x.offset else start)];
      case AtRead =>
        var data := ReadAt(file, x.offset, len);
        procs := procs[p := x.(pc := AtEdit, offset := x.offset + |data|, buf := Overlay(x.buf, data))];
      case AtEdit =>
        procs := procs[p := x.(pc := AtRewind, buf := x.job.edit(x.buf[..len]) + x.buf[len..])];
      case AtRewind =>
        procs := procs[p := x.(pc := AtWrite, offset := if start < 0 then x.offset else start)];
      case AtWrite =>
        file := WriteAt(file, x.offset, x.buf[..len]);
        procs := procs[p := x.(pc := AtUnlock, offset := x.offset + len)];
      case AtUnlock =>
        match RecordLock(locks, UNLOCK_T, p, x.job.range) {
          case Granted(table) => locks := table;
          case Denied =>
        }
        procs := procs[p := x.(pc := Done)];
    }

    /** All of them to their end under any schedule: the file is then what those that got
        their lock make of the given file one after another, in the order they got it. */
    method RunAll()
      requires Init(Now())
      modifies this
      ensures Reaches(Next, old(Now()), Now()) && SameProgram(old(Now()), Now())
      ensures AllFinished(Now()) && OrderOk(Now()) && Known(old(procs), order)
      ensures Runnable(JobsInOrder(old(procs), order))
      ensures file == Serial(old(file), JobsInOrder(old(procs), order))
    {
      while exists p :: 0 <= p < |procs| && !Finished(procs[p].pc)
        invariant Reaches(Next, old(Now()), Now())
        decreases 8 * |old(procs)| - Clock(Now())
      {
        var p: nat :| p < |procs| && !Finished(procs[p].pc);
        GoOn(old(Now()), Now(), p);
        Advance(p);
      }
      AtEnd(old(Now()), Now());
    }
  }

  /** An unfinished process can step, and few enough steps are left. */
  lemma GoOn(s0: State, s: State, p: nat)
    requires Init(s0) && Reaches(Next, s0, s) && p < |s.procs| && !Finished(s.procs[p].pc)
    ensures InBounds(s.procs[p]) && Reaches(Next, s0, Step(s, p))
    ensures Clock(Step(s, p)) == Clock(s) + 1 <= 8 * |s0.procs|
  {
    var tr := RunTo(Next, s0, s);
    NeverBlocks(tr, p);
    ClockRun(tr + [Step(s, p)]);
    ClockStep(s, p);
    ReachesStep(Next, s, Step(s, p));
    ReachesTrans(Next, s0, s, Step(s, p));
  }

  lemma AtEnd(s0: State, s: State)
    requires Init(s0) && Reaches(Next, s0, s) && AllFinished(s)
    ensures SameProgram(s0, s) && OrderOk(s) && Known(s0.procs, s.order)
    ensures Runnable(JobsInOrder(s0.procs, s.order))
    ensures s.file == Serial(s0.file, JobsInOrder(s0.procs, s.order))
  {
    var tr := RunTo(Next, s0, s);
    InvRun(tr);
    Serialisable(tr);
  }
}
