/** The two chat programs of fifo/write_fifo.c and fifo/read_fifo.c on one FIFO.  Both
    go round the same loop (take a line, write it, read one, print it) and differ only
    in where they enter it. */
module ChatModel {
  import opened Runs
  import opened Buffers

  const BUFLEN: nat := 1024            // inputbuf and readbuf
  const PIPE_CAPACITY: nat := 65536    // of a FIFO on Linux

  /** The places between two system calls.  An `open` has two steps: it is begun, which
      already counts as an open end for the other side, and it returns once matched. */
  datatype Pc = Input | OpenWrite | WaitWrite | Write | CloseWrite
              | OpenRead | WaitRead | Read | CloseRead | Print | Killed

  datatype Proc = Proc(
    pc: Pc,
    matched: bool,           // a begun open has met an open end of the other kind
    inputbuf: string,
    readbuf: string,
    entered: seq<string>,    // history: what fgets has stored, in order
    printed: seq<string>)    // history: what printf has shown, in order

  datatype Who = WriteFifo | ReadFifo

  datatype State = State(pipe: string, writer: Proc, reader: Proc)

  function Other(w: Who): Who {
    if w == WriteFifo then ReadFifo else WriteFifo
  }

  function Get(s: State, w: Who): Proc {
    if w == WriteFifo then s.writer else s.reader
  }

  function Put(s: State, w: Who, p: Proc): State {
    if w == WriteFifo then s.(writer := p) else s.(reader := p)
  }

  predicate HoldsRead(p: Proc) { p.pc in {WaitRead, Read, CloseRead} }

  predicate HoldsWrite(p: Proc) { p.pc in {WaitWrite, Write, CloseWrite} }

  /** What one fgets into a buffer of BUFLEN can store before its terminator. */
  predicate ValidLine(line: string) {
    '\0' !in line && |line| < 1024
  }

  ghost predicate Init(s: State) {
    && s.pipe == ""
    && s.writer.pc == Input && s.reader.pc == OpenRead
    && forall w :: |Get(s, w).inputbuf| == |Get(s, w).readbuf| == BUFLEN
                   && Get(s, w).entered == Get(s, w).printed == []
  }

  /** What write() is given: the string in inputbuf with its terminator. */
  function Outgoing(p: Proc): string {
    Terminated(CString(p.inputbuf))
  }

  /** Whether the process can take its next step, or is blocked in open, read or write. */
  predicate Enabled(s: State, w: Who) {
    var p, q := Get(s, w), Get(s, Other(w));
    match p.pc
    case WaitWrite => p.matched
    case WaitRead => p.matched
    case Write => !HoldsRead(q) || |s.pipe| + |Outgoing(p)| <= PIPE_CAPACITY
    case Read => s.pipe != "" || !HoldsWrite(q)
    case Killed => false
    case _ => true
  }

  /** An open end of the other kind matches the open that begins now, and is matched
      itself if it is an open still waiting; the match is remembered. */
  function Begin(s: State, w: Who, wait: Pc, partner: bool, partnerWait: Pc): State {
    var p, q := Get(s, w), Get(s, Other(w));
    var s1 := Put(s, w, p.(pc := wait, matched := partner));
    if partner && q.pc == partnerWait then Put(s1, Other(w), q.(matched := true)) else s1
  }

  /** When no end is open any more, unread data is discarded. */
  function Close(s: State, w: Who, next: Pc): State {
    var p, q := Get(s, w), Get(s, Other(w));
    Put(s, w, p.(pc := next)).(pipe := if HoldsRead(q) || HoldsWrite(q) then s.pipe else "")
  }

  function Step(s: State, w: Who, line: string): State
    requires ValidLine(line) && |Get(s, w).inputbuf| == |Get(s, w).readbuf| == BUFLEN
  {
    var p, q := Get(s, w), Get(s, Other(w));
    match p.pc
    case Input =>
      Put(s, w, p.(pc := OpenWrite, inputbuf := Overlay(p.inputbuf, Terminated(line)), entered := p.entered + [line]))
    case OpenWrite => Begin(s, w, WaitWrite, HoldsRead(q), WaitRead)
    case WaitWrite => Put(s, w, p.(pc := Write))
    case Write =>
      if !HoldsRead(q) then Put(s, w, p.(pc := Killed))  // SIGPIPE
      else Put(s, w, p.(pc := CloseWrite)).(pipe := s.pipe + Outgoing(p))
    case CloseWrite => Close(s, w, OpenRead)
    case OpenRead => Begin(s, w, WaitRead, HoldsWrite(q), WaitWrite)
    case WaitRead => Put(s, w, p.(pc := Read))
    case Read =>
      var n := Min(BUFLEN, |s.pipe|);
      Put(s, w, p.(pc := CloseRead, readbuf := Overlay(p.readbuf, s.pipe[..n]))).(pipe := s.pipe[n..])
    case CloseRead => Close(s, w, Print)
    case Print => Put(s, w, p.(pc := Input, printed := p.printed + [CString(p.readbuf)]))
    case Killed => s
  }

  predicate BuffersOk(s: State) {
    && |s.writer.inputbuf| == |s.writer.readbuf| == BUFLEN
    && |s.reader.inputbuf| == |s.reader.readbuf| == BUFLEN
  }

  ghost predicate StepOf(s: State, w: Who, line: string, s': State) {
    BuffersOk(s) && ValidLine(line) && Enabled(s, w) && s' == Step(s, w, line)
  }

  ghost predicate Next(s: State, s': State) {
    exists w, line :: StepOf(s, w, line, s')
  }

  // ---------- the invariant ----------

  /** `x` has the turn and has not yet written; `y` is on its way to reading. */
  ghost predicate Sending(x: Proc, y: Proc, pipe: string) {
    && pipe == ""
    && x.pc in {CloseRead, Print, Input, OpenWrite, WaitWrite, Write}
    && y.pc in {CloseWrite, OpenRead, WaitRead, Read}
    && (x.pc == WaitWrite ==> (x.matched <==> y.pc in {WaitRead, Read}))
    && (x.pc == Write ==> y.pc in {WaitRead, Read})
    && (y.pc == WaitRead ==> (y.matched <==> x.pc in {WaitWrite, Write}))
    && (y.pc == Read ==> x.pc in {WaitWrite, Write})
    && y.entered == x.printed + (if x.pc in {CloseRead, Print} then [CString(x.readbuf)] else [])
    && x.entered == y.printed + (if x.pc in {OpenWrite, WaitWrite, Write} then [CString(x.inputbuf)] else [])
    && (x.pc in {OpenWrite, WaitWrite, Write} ==> StrLen(x.inputbuf) < BUFLEN)
  }

  /** `x` has written; its message is all the pipe holds and `y` has yet to read it. */
  ghost predicate InFlight(x: Proc, y: Proc, pipe: string) {
    && x.pc in {CloseWrite, OpenRead, WaitRead}
    && y.pc in {WaitRead, Read}
    && (y.pc == WaitRead ==> y.matched)
    && (x.pc == WaitRead ==> !x.matched)
    && |x.entered| == |y.printed| + 1
    && x.entered[..|y.printed|] == y.printed
    && ValidLine(x.entered[|y.printed|])
    && pipe == Terminated(x.entered[|y.printed|])
    && y.entered == x.printed
  }

  /** Turns alternate, write_fifo first. */
  predicate Alternating(s: State, w: Who) {
    var x, y := Get(s, w), Get(s, Other(w));
    |x.entered| - |y.entered| ==
      (if x.pc in {CloseRead, Print, Input} then 0 else 1) - (if w == WriteFifo then 0 else 1)
  }

  ghost predicate Turn(s: State, w: Who) {
    && Alternating(s, w)
    && (Sending(Get(s, w), Get(s, Other(w)), s.pipe) || InFlight(Get(s, w), Get(s, Other(w)), s.pipe))
  }

  ghost predicate Inv(s: State) {
    BuffersOk(s) && (Turn(s, WriteFifo) || Turn(s, ReadFifo))
  }

  function Place(p: Proc): int {
    match p.pc
    case Input => 0 case OpenWrite => 1 case WaitWrite => 2 case Write => 3 case CloseWrite => 4
    case OpenRead => 5 case WaitRead => 6 case Read => 7 case CloseRead => 8 case Print => 9
    case Killed => 0
  }

  /** Steps taken so far, read off the state: ten for each time round a loop. */
  function Clock(s: State): int {
    10 * (|s.writer.printed| + |s.reader.printed|) + Place(s.writer) + Place(s.reader) - 5
  }

  // ---------- every step keeps it ----------

  lemma InputStep(s: State, w: Who, line: string)
    requires BuffersOk(s) && ValidLine(line) && Get(s, w).pc == Input
    requires Alternating(s, w) && Sending(Get(s, w), Get(s, Other(w)), s.pipe)
    ensures BuffersOk(Step(s, w, line)) && Turn(Step(s, w, line), w)
    ensures Clock(Step(s, w, line)) == Clock(s) + 1
  {
    StoredString(Get(s, w).inputbuf, line);
  }

  lemma WriteStep(s: State, w: Who, line: string)
    requires BuffersOk(s) && ValidLine(line) && Get(s, w).pc == Write
    requires Alternating(s, w) && Sending(Get(s, w), Get(s, Other(w)), s.pipe)
    ensures BuffersOk(Step(s, w, line)) && Turn(Step(s, w, line), w)
    ensures Clock(Step(s, w, line)) == Clock(s) + 1
  {
    var x := Get(s, w);
    assert x.entered[..|x.entered| - 1] == Get(s, Other(w)).printed;
    assert ValidLine(CString(x.inputbuf));
  }

  /** A step of the process whose turn it is, before its message is in the pipe. */
  lemma SenderStep(s: State, w: Who, line: string)
    requires BuffersOk(s) && ValidLine(line) && Enabled(s, w)
    requires Alternating(s, w) && Sending(Get(s, w), Get(s, Other(w)), s.pipe)
    ensures BuffersOk(Step(s, w, line)) && Turn(Step(s, w, line), w)
    ensures Clock(Step(s, w, line)) == Clock(s) + 1
  {
    match Get(s, w).pc
    case Input => InputStep(s, w, line);
    case Write => WriteStep(s, w, line);
    case _ =>
  }

  /** A step of the process still on its way to reading. */
  lemma ReceiverStep(s: State, w: Who, line: string)
    requires BuffersOk(s) && ValidLine(line) && Enabled(s, Other(w))
    requires Alternating(s, w) && Sending(Get(s, w), Get(s, Other(w)), s.pipe)
    ensures BuffersOk(Step(s, Other(w), line)) && Turn(Step(s, Other(w), line), w)
    ensures Clock(Step(s, Other(w), line)) == Clock(s) + 1
  {
  }

  /** A step of the process that has written, while its message waits. */
  lemma WrittenStep(s: State, w: Who, line: string)
    requires BuffersOk(s) && ValidLine(line) && Enabled(s, w)
    requires Alternating(s, w) && InFlight(Get(s, w), Get(s, Other(w)), s.pipe)
    ensures BuffersOk(Step(s, w, line)) && Turn(Step(s, w, line), w)
    ensures Clock(Step(s, w, line)) == Clock(s) + 1
  {
  }

  /** A step of the process the message is for; reading it passes on the turn. */
  lemma DeliveryStep(s: State, w: Who, line: string)
    requires BuffersOk(s) && ValidLine(line) && Enabled(s, Other(w))
    requires Alternating(s, w) && InFlight(Get(s, w), Get(s, Other(w)), s.pipe)
    ensures Inv(Step(s, Other(w), line))
    ensures Clock(Step(s, Other(w), line)) == Clock(s) + 1
  {
    var x, y := Get(s, w), Get(s, Other(w));
    if y.pc == Read {
      var text := x.entered[|y.printed|];
      StoredString(y.readbuf, text);
      assert s.pipe[..|s.pipe|] == s.pipe;
      assert x.entered == y.printed + [text];
      assert Turn(Step(s, Other(w), line), Other(w));
    } else {
      assert Turn(Step(s, Other(w), line), w);
    }
  }

  lemma StepKeepsInv(s: State, v: Who, line: string)
    requires Inv(s) && ValidLine(line) && Enabled(s, v)
    ensures Inv(Step(s, v, line))
    ensures Clock(Step(s, v, line)) == Clock(s) + 1
  {
    var w := if Turn(s, WriteFifo) then WriteFifo else ReadFifo;
    if Sending(Get(s, w), Get(s, Other(w)), s.pipe) {
      if v == w { SenderStep(s, w, line); } else { ReceiverStep(s, w, line); }
    } else {
      if v == w { WrittenStep(s, w, line); } else { DeliveryStep(s, w, line); }
    }
  }

  lemma InitInv(s: State)
    requires Init(s)
    ensures Inv(s) && Clock(s) == 0
  {
    assert |Get(s, WriteFifo).inputbuf| == |Get(s, ReadFifo).inputbuf| == BUFLEN;
    assert Turn(s, WriteFifo);
  }

  lemma InvRun(tr: seq<State>)
    requires IsRun(Next, tr) && Init(tr[0])
    ensures Inv(Last(tr))
    ensures Clock(Last(tr)) == |tr| - 1
  {
    InitInv(tr[0]);
    forall s, s' | Inv(s) && Next(s, s') ensures Inv(s') && Clock(s') == Clock(s) + 1 {
      var w, line :| StepOf(s, w, line, s');
      StepKeepsInv(s, w, line);
    }
    StepCount(Next, Inv, Clock, tr);
  }
}
