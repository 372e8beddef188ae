/** The chat programs as they change their buffers and the FIFO. */
module ChatProgram {
  import opened Runs
  import opened Buffers
  import opened ChatModel
  import opened ChatTheorems

  /** inputbuf and readbuf of one process, and the library calls on them. */
  class Terminal {
    const inputbuf: array<char>
    const readbuf: array<char>

    constructor ()
      ensures inputbuf.Length == readbuf.Length == 1024 && inputbuf != readbuf
      ensures fresh(inputbuf) && fresh(readbuf)
    {
      inputbuf := new char[BUFLEN];
      readbuf := new char[BUFLEN];
    }

    /** fgets: the line and its terminator; the rest of the buffer stays. */
    method Fgets(line: string)
      requires ValidLine(line) && inputbuf.Length == BUFLEN
      modifies inputbuf
      ensures inputbuf[..] == Overlay(old(inputbuf[..]), Terminated(line))
      ensures CString(inputbuf[..]) == line
    {
      StoredString(inputbuf[..], line);
      Store(inputbuf, Terminated(line));
    }

    /** The bytes handed to write: strlen(inputbuf)+1 of them. */
    method OutgoingBytes() returns (data: string)
      requires StrLen(inputbuf[..]) < inputbuf.Length
      ensures data == Terminated(CString(inputbuf[..]))
    {
      var n := CountToTerminator(inputbuf);
      data := inputbuf[..n + 1];
      assert inputbuf[..][n] == '\0';
      assert inputbuf[..n] == inputbuf[..][..n];
    }

    /** read into readbuf, which keeps what lies behind the data. */
    method Receive(data: string)
      requires |data| <= readbuf.Length
      modifies readbuf
      ensures readbuf[..] == Overlay(old(readbuf[..]), data)
    {
      Store(readbuf, data);
    }

    /** What printf shows for "%s". */
    method Shown() returns (text: string)
      ensures text == CString(readbuf[..])
    {
      var n := CountToTerminator(readbuf);
      text := readbuf[..n];
      assert readbuf[..n] == readbuf[..][..n];
    }

    /** Whatever an earlier message has left in readbuf, receiving what the other side's
        terminal sends for a line shows exactly that line. */
    method ShowReceived(sent: string) returns (text: string)
      requires ValidLine(sent) && readbuf.Length == BUFLEN
      modifies readbuf
      ensures text == sent
    {
      StoredString(readbuf[..], sent);
      Receive(Terminated(sent));
      text := Shown();
    }
  }

  /** The two processes on the FIFO, advanced one system call at a time. */
  class Conversation {
    var pipe: string
    var writer: Proc
    var reader: Proc

    function Now(): State
      reads this
    {
      State(pipe, writer, reader)
    }

    constructor (buffers: seq<string>)
      requires |buffers| == 4 && forall i :: 0 <= i < 4 ==> |buffers[i]| == BUFLEN
      ensures Init(Now())
    {
      pipe := "";
      writer := Proc(Input, false, buffers[0], buffers[1], [], []);
      reader := Proc(OpenRead, false, buffers[2], buffers[3], [], []);
    }

    method SetProc(w: Who, p: Proc)
      modifies this`writer, this`reader
      ensures Now() == Put(old(Now()), w, p)
    {
      if w == WriteFifo { writer := p; } else { reader := p; }
    }

    /** The first half of open: count as an open end, and match or be matched. */
    method BeginOpen(w: Who, wait: Pc, partner: bool, partnerWait: Pc)
      modifies this`writer, this`reader
      ensures Now() == Begin(old(Now()), w, wait, partner, partnerWait)
    {
      var p, q := Get(Now(), w), Get(Now(), Other(w));
      SetProc(w, p.(pc := wait, matched := partner));
      if partner && q.pc == partnerWait {
        SetProc(Other(w), q.(matched := true));
      }
    }

    method CloseEnd(w: Who, next: Pc)
      modifies this
      ensures Now() == Close(old(Now()), w, next)
    {
      var q := Get(Now(), Other(w));
      SetProc(w, Get(Now(), w).(pc := next));
      if !HoldsRead(q) && !HoldsWrite(q) {
        pipe := "";
      }
    }

    method Advance(w: Who, line: string)
      requires BuffersOk(Now()) && ValidLine(line) && Enabled(Now(), w)
      modifies this
      ensures Now() == Step(old(Now()), w, line)
    {
      var p, q := Get(Now(), w), Get(Now(), Other(w));
      match p.pc
      case Input =>
        var inputbuf := Overlay(p.inputbuf, Terminated(line));
        SetProc(w, p.(pc := OpenWrite, inputbuf := inputbuf, entered := p.entered + [line]));
      case OpenWrite => BeginOpen(w, WaitWrite, HoldsRead(q), WaitRead);
      case WaitWrite => SetProc(w, p.(pc := Write));
      case Write =>
        if HoldsRead(q) {
          pipe := pipe + Outgoing(p);
          SetProc(w, p.(pc := CloseWrite));
        } else {
          SetProc(w, p.(pc := Killed));
        }
      case CloseWrite => CloseEnd(w, OpenRead);
      case OpenRead => BeginOpen(w, WaitRead, HoldsWrite(q), WaitWrite);
      case WaitRead => SetProc(w, p.(pc := Read));
      case Read =>
        var data := pipe[..Min(BUFLEN, |pipe|)];
        pipe := pipe[|data|..];
        SetProc(w, p.(pc := CloseRead, readbuf := Overlay(p.readbuf, data)));
      case CloseRead => CloseEnd(w, Print);
      case Print => SetProc(w, p.(pc := Input, printed := p.printed + [CString(p.readbuf)]));
    }

    /** The two endless loops for `steps` system calls, scheduled in any way: the program
        never gets stuck, and the longer it runs the more both sides have printed. */
    method Converse(steps: nat, lines: seq<string>)
      requires Init(Now()) && |lines| == steps && forall i :: 0 <= i < steps ==> ValidLine(lines[i])
      modifies this
      ensures Reaches(Next, old(Now()), Now()) && Clock(Now()) == steps
      ensures Drawn(lines, writer.entered, reader.entered)
      ensures Delivered(Now())
      ensures 20 * |writer.printed| + 23 >= steps && 20 * |reader.printed| + 23 >= steps
    {
      InitInv(Now());
      assert Get(Now(), WriteFifo).entered == Get(Now(), ReadFifo).entered == [];
      var i := 0;
      while i < steps
        invariant i <= steps && Inv(Now()) && Clock(Now()) == i
        invariant Reaches(Next, old(Now()), Now())
        invariant Drawn(lines[..i], writer.entered, reader.entered)
      {
        NoDeadlock(Now());
        var w := WriteFifo;
        if * {
          w := ReadFifo;
        }
        if !Enabled(Now(), w) {
          w := Other(w);
        }
        ghost var s := Now();
        Advance(w, lines[i]);
        OneMoreLine(s, w, lines, i);
        GoOn(old(Now()), s, w, lines[i]);
        i := i + 1;
      }
      assert lines[..i] == lines;
      ghost var tr := RunTo(Next, old(Now()), Now());
      Delivery(tr);
      PlaceBounds(Now());
    }
  }

  /** `a` and `b` are drawn from `lines`, in order: each line goes to one of them or is
      not asked for. */
  ghost predicate Drawn(lines: seq<string>, a: seq<string>, b: seq<string>) {
    if lines == [] then a == [] && b == []
    else
      var line, before := Last(lines), lines[..|lines| - 1];
      || Drawn(before, a, b)
      || (a != [] && Last(a) == line && Drawn(before, a[..|a| - 1], b))
      || (b != [] && Last(b) == line && Drawn(before, a, b[..|b| - 1]))
  }

  lemma GoOn(s0: State, s: State, w: Who, line: string)
    requires Reaches(Next, s0, s) && Inv(s) && ValidLine(line) && Enabled(s, w)
    ensures Reaches(Next, s0, Step(s, w, line))
    ensures Inv(Step(s, w, line)) && Clock(Step(s, w, line)) == Clock(s) + 1
  {
    StepKeepsInv(s, w, line);
    assert StepOf(s, w, line, Step(s, w, line));
    assert Next(s, Step(s, w, line));
    ReachesStep(Next, s, Step(s, w, line));
    ReachesTrans(Next, s0, s, Step(s, w, line));
  }

  lemma OneMoreLine(s: State, w: Who, lines: seq<string>, i: nat)
    requires BuffersOk(s) && i < |lines| && ValidLine(lines[i])
    requires Drawn(lines[..i], s.writer.entered, s.reader.entered)
    ensures var s' := Step(s, w, lines[i]); Drawn(lines[..i + 1], s'.writer.entered, s'.reader.entered)
  {
    assert lines[..i + 1][..i] == lines[..i] && Last(lines[..i + 1]) == lines[i];
    var s' := Step(s, w, lines[i]);
    if Get(s, w).pc == Input {
      var entered := Get(s', w).entered;
      assert entered == Get(s, w).entered + [lines[i]];
      assert entered[..|entered| - 1] == Get(s, w).entered;
    } else {
      assert s'.writer.entered == s.writer.entered && s'.reader.entered == s.reader.entered;
    }
  }
}
