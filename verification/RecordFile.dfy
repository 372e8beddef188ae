/** The file, the kernel's lock table and the system calls that record_lock_test.c
    makes on them, as functions on values. */
module RecordFile {
  import opened Buffers

  const BUFSIZE: nat := 1024
  const LOCK_T := 0
  const UNLOCK_T := 1
  const F_WRLCK := 1
  const F_UNLCK := 2

  // ---------- byte ranges and the lock table ----------

  /** `len` bytes from `start`; length 0 reaches to the end of any file, without limit. */
  datatype Range = Range(start: int, len: nat)

  predicate Covers(r: Range, i: int) {
    r.start <= i && (r.len == 0 || i < r.start + r.len)
  }

  predicate Overlaps(a: Range, b: Range) {
    && (a.len == 0 || b.start < a.start + a.len)
    && (b.len == 0 || a.start < b.start + b.len)
  }

  /** The test on the ends of two ranges finds exactly the pairs with a common byte. */
  lemma OverlapsIffCommonByte(a: Range, b: Range)
    ensures Overlaps(a, b) <==> exists i: int :: Covers(a, i) && Covers(b, i)
  {
    if Overlaps(a, b) {
      var i := if a.start < b.start then b.start else a.start;
      assert Covers(a, i) && Covers(b, i);
    }
  }

  datatype Lock = Lock(ltype: int, range: Range)

  /** Locks by owning process; the program takes at most one lock. */
  type LockTable = map<nat, Lock>

  predicate Conflicts(a: Lock, b: Lock) {
    (a.ltype == F_WRLCK || b.ltype == F_WRLCK) && Overlaps(a.range, b.range)
  }

  datatype LockResult = Granted(table: LockTable) | Denied

  /** fcntl with F_SETLK: never waits, and fails on a conflict with another process or
      on a range that begins before the file. */
  function SetLk(table: LockTable, pid: nat, lock: Lock): LockResult {
    if lock.range.start < 0 then Denied
    else if lock.ltype == F_UNLCK then
      Granted(if pid in table && table[pid].range == lock.range then table - {pid} else table)
    else if exists q :: q in table && q != pid && Conflicts(table[q], lock) then Denied
    else Granted(table[pid := lock])
  }

  /** The value of `(type==LOCK_T) ? : F_UNLCK`: with its middle operand left out, the
      conditional yields the value of its test when that is not zero. */
  function LType(t: int): int {
    var test := if t == LOCK_T then 1 else 0;
    if test != 0 then test else F_UNLCK
  }

  function RecordLock(table: LockTable, t: int, pid: nat, range: Range): LockResult {
    SetLk(table, pid, Lock(LType(t), range))
  }

  /** Locking through `record_lock` is refused exactly when the range begins before the
      file or shares a byte with a range another process holds, whatever its kind of
      lock: the omitted operand makes every lock a write lock. */
  lemma LockDeniedIff(table: LockTable, pid: nat, range: Range)
    ensures RecordLock(table, LOCK_T, pid, range).Denied? <==>
            range.start < 0 ||
            exists q, i :: q in table && q != pid && Covers(table[q].range, i) && Covers(range, i)
  {
    if range.start >= 0 {
      if RecordLock(table, LOCK_T, pid, range).Denied? {
        var q :| q in table && q != pid && Conflicts(table[q], Lock(LType(LOCK_T), range));
        OverlapsIffCommonByte(table[q].range, range);
      } else {
        forall q, i | q in table && q != pid && Covers(table[q].range, i)
          ensures !Covers(range, i)
        {
          OverlapsIffCommonByte(table[q].range, range);
          assert !Conflicts(table[q], Lock(LType(LOCK_T), range));
        }
      }
    }
  }

  // ---------- contents ----------

  /** A byte of the file; beyond its end there are zeros, as in a hole. */
  function ByteAt(f: string, i: nat): char {
    if i < |f| then f[i] else '\0'
  }

  /** read: short at the end of the file, and nothing beyond it. */
  function ReadAt(f: string, offset: nat, n: nat): string {
    if offset < |f| then f[offset..Min(offset + n, |f|)] else ""
  }

  /** A read returns as many bytes as the file has from the offset on, up to the number
      asked for, and they are the file's. */
  lemma ReadAtBytes(f: string, offset: nat, n: nat)
    ensures |ReadAt(f, offset, n)| == (if |f| <= offset then 0 else if |f| - offset < n then |f| - offset else n)
    ensures forall i :: 0 <= i < |ReadAt(f, offset, n)| ==> ReadAt(f, offset, n)[i] == f[offset + i]
  {
  }

  /** write: fills a gap before the offset with zeros; writing nothing changes nothing. */
  function WriteAt(f: string, offset: nat, data: string): string {
    if data == "" then f
    else
      var padded := if offset <= |f| then f else f + Zeros(offset - |f|);
      padded[..offset] + data + padded[Min(offset + |data|, |padded|)..]
  }

  lemma WriteAtBytes(f: string, offset: nat, data: string)
    ensures |WriteAt(f, offset, data)| == if data == "" then |f| else Max(|f|, offset + |data|)
    ensures forall i: nat :: ByteAt(WriteAt(f, offset, data), i) ==
                             if offset <= i < offset + |data| then data[i - offset] else ByteAt(f, i)
  {
  }

  lemma SameFile(f: string, g: string)
    requires |f| == |g|
    requires forall i: nat :: ByteAt(f, i) == ByteAt(g, i)
    ensures f == g
  {
    forall i | 0 <= i < |f| ensures f[i] == g[i] {
      assert ByteAt(f, i) == ByteAt(g, i);
    }
  }

  /** The bytes of a record, zeros where the file does not reach. */
  function Window(f: string, start: nat, len: nat): (w: string)
    ensures |w| == len
    ensures forall i :: 0 <= i < len ==> w[i] == ByteAt(f, start + i)
  {
    seq(len, i requires 0 <= i < len => ByteAt(f, start + i))
  }

  /** Because the buffer starts as zeros, a short read at the end of the file and a read
      of the hole a later write would leave there agree. */
  lemma LoadIsWindow(f: string, start: nat, len: nat)
    requires len <= BUFSIZE
    ensures |ReadAt(f, start, len)| <= len
    ensures Overlay(Zeros(BUFSIZE), ReadAt(f, start, len))[..len] == Window(f, start, len)
  {
    var data := ReadAt(f, start, len);
    var record := Overlay(Zeros(BUFSIZE), data)[..len];
    forall i | 0 <= i < len ensures record[i] == Window(f, start, len)[i] {
      if start < |f| {
        assert data == f[start..Min(start + len, |f|)];
      }
    }
  }

  // ---------- the edit ----------

  function Mask(c: char): char {
    if c == '0' || c == '9' then 'x' else c
  }

  /** What the edit makes of a byte. */
  predicate Edited(before: char, after: char) {
    if before == '0' || before == '9' then after == 'x' else after == before
  }

  /** The record after the edit loop. */
  function MaskRecord(record: string): (r: string)
    ensures |r| == |record|
    ensures forall i :: 0 <= i < |r| ==> r[i] == Mask(record[i]) && Edited(record[i], r[i])
  {
    seq(|record|, i requires 0 <= i < |record| => Mask(record[i]))
  }

  // ---------- one process at a time ----------

  /** What one process is asked to do: a range, and what it makes of the bytes there.
      The program's own edit is MaskRecord. */
  datatype Job = Job(range: Range, edit: string -> string)

  /** The job of a process of this program. */
  function OwnJob(range: Range): (job: Job)
    ensures job.range == range
    ensures WellFormed(job)
    ensures forall s :: job.edit(s) == MaskRecord(s)
  {
    Job(range, MaskRecord)
  }

  ghost predicate WellFormed(job: Job) {
    forall s :: |job.edit(s)| == |s|
  }

  predicate Lockable(job: Job) {
    0 <= job.range.start && job.range.len <= BUFSIZE
  }

  /** The file after one process has read, edited and written its record alone. */
  function RunAlone(f: string, job: Job): string
    requires Lockable(job)
  {
    WriteAt(f, job.range.start, job.edit(Window(f, job.range.start, job.range.len)))
  }

  /** The bytes a record's edit leaves elsewhere are the bytes that were there. */
  lemma WindowElsewhere(f: string, offset: nat, data: string, start: nat, len: nat)
    requires offset + |data| <= start || start + len <= offset || |data| == 0 || len == 0
    ensures Window(WriteAt(f, offset, data), start, len) == Window(f, start, len)
  {
    WriteAtBytes(f, offset, data);
  }

  lemma CommuteWrites(f: string, i: nat, a: string, j: nat, b: string)
    requires i + |a| <= j || j + |b| <= i || a == "" || b == ""
    ensures WriteAt(WriteAt(f, i, a), j, b) == WriteAt(WriteAt(f, j, b), i, a)
  {
    var fa, fb := WriteAt(f, i, a), WriteAt(f, j, b);
    WriteAtBytes(f, i, a);
    WriteAtBytes(f, j, b);
    WriteAtBytes(fa, j, b);
    WriteAtBytes(fb, i, a);
    SameFile(WriteAt(fa, j, b), WriteAt(fb, i, a));
  }

  /** Jobs on ranges without a common byte can be run in either order. */
  lemma Commute(f: string, a: Job, b: Job)
    requires Lockable(a) && Lockable(b) && WellFormed(a) && WellFormed(b)
    requires !Overlaps(a.range, b.range)
    ensures RunAlone(RunAlone(f, a), b) == RunAlone(RunAlone(f, b), a)
  {
    var da := a.edit(Window(f, a.range.start, a.range.len));
    var db := b.edit(Window(f, b.range.start, b.range.len));
    assert |da| == a.range.len && |db| == b.range.len;
    WindowElsewhere(f, a.range.start, da, b.range.start, b.range.len);
    WindowElsewhere(f, b.range.start, db, a.range.start, a.range.len);
    CommuteWrites(f, a.range.start, da, b.range.start, db);
  }

  ghost predicate Runnable(jobs: seq<Job>) {
    forall i :: 0 <= i < |jobs| ==> Lockable(jobs[i]) && WellFormed(jobs[i])
  }

  /** Running jobs one after another. */
  ghost function Serial(f: string, jobs: seq<Job>): string
    requires Runnable(jobs)
  {
    if jobs == [] then f
    else RunAlone(Serial(f, jobs[..|jobs| - 1]), jobs[|jobs| - 1])
  }

  lemma SerialSnoc(f: string, jobs: seq<Job>, job: Job)
    requires Runnable(jobs) && Lockable(job) && WellFormed(job)
    ensures Runnable(jobs + [job])
    ensures Serial(f, jobs + [job]) == RunAlone(Serial(f, jobs), job)
  {
    assert (jobs + [job])[..|jobs|] == jobs;
  }

  /** A job whose range meets none of the later ones may as well run last. */
  lemma {:induction false} MoveToEnd(f: string, before: seq<Job>, job: Job, after: seq<Job>)
    requires Runnable(before) && Runnable(after) && Lockable(job) && WellFormed(job)
    requires forall i :: 0 <= i < |after| ==> !Overlaps(job.range, after[i].range)
    ensures Runnable(before + [job] + after) && Runnable(before + after)
    ensures Serial(f, before + [job] + after) == RunAlone(Serial(f, before + after), job)
  {
    if after == [] {
      assert before + [job] + after == before + [job] && before + after == before;
      SerialSnoc(f, before, job);
    } else {
      var init, last := after[..|after| - 1], after[|after| - 1];
      assert before + [job] + after == (before + [job] + init) + [last];
      assert before + after == (before + init) + [last];
      MoveToEnd(f, before, job, init);
      SerialSnoc(f, before + [job] + init, last);
      SerialSnoc(f, before + init, last);
      Commute(Serial(f, before + init), job, last);
    }
  }
}
