/** What every interleaving of write_fifo and read_fifo guarantees. */
module ChatTheorems {
  import opened Runs
  import opened Buffers
  import opened ChatModel

  /** What a state of a run says about the messages. */
  ghost predicate Delivered(s: State) {
    var w, r := s.writer, s.reader;
    && r.printed <= w.entered
    && w.printed <= r.entered
    && (|w.entered| - |r.printed|) + (|r.entered| - |w.printed|) <= 1
    && 0 <= |w.entered| - |r.entered| <= 1
    && 0 <= |r.printed| - |w.printed| <= 1
  }

  lemma TurnDelivers(s: State, w: Who)
    requires Turn(s, w)
    ensures Delivered(s)
  {
  }

  /** Delivery: each side prints a prefix of what the other side entered, so nothing is
      lost, repeated, reordered or read back by its own sender, and nothing left in a
      buffer by an earlier, longer message shows; at most one message is on its way,
      and the two sides take turns with write_fifo first. */
  lemma Delivery(tr: seq<State>)
    requires IsRun(Next, tr) && Init(tr[0])
    ensures Delivered(Last(tr))
  {
    InvRun(tr);
    TurnDelivers(Last(tr), if Turn(Last(tr), WriteFifo) then WriteFifo else ReadFifo);
  }

  /** A write finds a reader and room, and leaves nobody killed. */
  lemma WritesSucceed(s: State, w: Who)
    requires Inv(s)
    ensures Get(s, w).pc != Killed
    ensures Get(s, w).pc == Write ==> HoldsRead(Get(s, Other(w))) && Enabled(s, w)
  {
    var turn := if Turn(s, w) then w else Other(w);
    assert Turn(s, turn);
  }

  /** The pipe holds exactly the message that process `w` has not yet printed. */
  ghost predicate OneMessage(s: State, w: Who) {
    exists text :: ValidLine(text) && s.pipe == Terminated(text)
                   && Get(s, Other(w)).entered == Get(s, w).printed + [text]
  }

  lemma ReadsOneMessage(s: State, w: Who)
    requires Inv(s) && Get(s, w).pc == Read && Enabled(s, w)
    ensures OneMessage(s, w)
  {
    var p, q := Get(s, w), Get(s, Other(w));
    assert InFlight(q, p, s.pipe);
    var text := q.entered[|p.printed|];
    assert q.entered == p.printed + [text];
  }

  /** In no reachable state is a process killed by SIGPIPE or about to be, does a write
      block, or does a read meet the end of file or more than one message. */
  lemma CallsSucceed(tr: seq<State>, w: Who)
    requires IsRun(Next, tr) && Init(tr[0])
    ensures var s, p := Last(tr), Get(Last(tr), w);
      && p.pc != Killed
      && (p.pc == Write ==> HoldsRead(Get(s, Other(w))) && Enabled(s, w))
      && (p.pc == Read && Enabled(s, w) ==> OneMessage(s, w))
  {
    InvRun(tr);
    WritesSucceed(Last(tr), w);
    if Get(Last(tr), w).pc == Read && Enabled(Last(tr), w) {
      ReadsOneMessage(Last(tr), w);
    }
  }

  /** Some process can always go on. */
  lemma NoDeadlock(s: State)
    requires Inv(s)
    ensures Enabled(s, WriteFifo) || Enabled(s, ReadFifo)
    ensures exists s' :: Next(s, s')
  {
    var w := if Turn(s, WriteFifo) then WriteFifo else ReadFifo;
    assert Turn(s, w);
    var v := if Enabled(s, w) then w else Other(w);
    assert ValidLine("");
    assert StepOf(s, v, "", Step(s, v, ""));
    assert Next(s, Step(s, v, ""));
  }

  // ---------- blocked calls ----------

  predicate Blocked(s: State, w: Who) {
    Get(s, w).pc in {WaitWrite, WaitRead, Read} && !Enabled(s, w)
  }

  /** How many steps of the other process release a blocked one. */
  function StepsToRelease(waiting: Pc, other: Pc): nat {
    if waiting == WaitWrite then
      match other case CloseWrite => 2 case OpenRead => 1 case _ => 0
    else if waiting == WaitRead then
      match other
      case WaitRead => 6 case Read => 5 case CloseRead => 4 case Print => 3 case Input => 2 case OpenWrite => 1
      case _ => 0
    else
      match other case WaitWrite => 2 case Write => 1 case _ => 0
  }

  /** The situations in which a process of a reachable state is blocked. */
  predicate BlockedShape(s: State, w: Who) {
    var p, q := Get(s, w), Get(s, Other(w));
    || (p.pc == WaitWrite && !p.matched && q.pc in {CloseWrite, OpenRead})
    || (p.pc == WaitRead && !p.matched && q.pc == Read && s.pipe != "")
    || (p.pc == WaitRead && !p.matched && q.pc in {CloseRead, Print, Input, OpenWrite})
    || (p.pc == WaitRead && !p.matched && q.pc == WaitRead && q.matched && s.pipe != "")
    || (p.pc == Read && s.pipe == "" && (q.pc == Write || (q.pc == WaitWrite && q.matched)))
  }

  lemma BlockedHasShape(s: State, w: Who)
    requires Inv(s) && Blocked(s, w)
    ensures BlockedShape(s, w)
  {
    var turn := if Turn(s, w) then w else Other(w);
    assert Turn(s, turn);
  }

  /** Each step of the other process brings the release of `w` nearer. */
  ghost predicate ReleaseNears(s: State, w: Who, line: string)
    requires BuffersOk(s) && ValidLine(line)
  {
    var k := StepsToRelease(Get(s, w).pc, Get(s, Other(w)).pc);
    var s' := Step(s, Other(w), line);
    && 1 <= k <= 6
    && Enabled(s, Other(w))
    && (k == 1 ==> Enabled(s', w))
    && (k > 1 ==> Blocked(s', w) && StepsToRelease(Get(s', w).pc, Get(s', Other(w)).pc) == k - 1)
  }

  lemma ShapeNears(s: State, w: Who, line: string)
    requires BuffersOk(s) && ValidLine(line) && BlockedShape(s, w)
    requires Get(s, Other(w)).pc == Write ==> Enabled(s, Other(w))
    ensures ReleaseNears(s, w, line)
  {
  }

  /** Every blocked open is completed by the other side's next open, and every blocked
      read by its next write.  While a process is blocked the other one is not, and each
      of its steps brings the release, at most six steps away, one step nearer. */
  lemma BlockedIsReleased(tr: seq<State>, w: Who, line: string)
    requires IsRun(Next, tr) && Init(tr[0]) && ValidLine(line)
    requires Blocked(Last(tr), w)
    ensures BuffersOk(Last(tr)) && ReleaseNears(Last(tr), w, line)
  {
    InvRun(tr);
    BlockedHasShape(Last(tr), w);
    WritesSucceed(Last(tr), Other(w));
    ShapeNears(Last(tr), w, line);
  }

  lemma PlaceBounds(s: State)
    ensures Clock(s) <= 10 * (|s.writer.printed| + |s.reader.printed|) + 13
  {
    assert Place(s.writer) <= 9 && Place(s.reader) <= 9;
  }

  /** No schedule starves the conversation: blocking keeps the two sides in step, so in
      any run of 20 * k + 4 steps each side has printed at least k messages. */
  lemma KeepsPace(tr: seq<State>, k: nat)
    requires IsRun(Next, tr) && Init(tr[0])
    requires |tr| - 1 >= 20 * k + 4
    ensures |Last(tr).writer.printed| >= k && |Last(tr).reader.printed| >= k
  {
    InvRun(tr);
    Delivery(tr);
    PlaceBounds(Last(tr));
  }
}
