/** The request and reply over two pipes of pipe_example.c, from the fork on. */
module PipeModel {
  import opened Runs
  import opened Buffers

  const BUFLEN: nat := 128   // readbuff on both sides

  /** The four descriptors both processes hold after the fork: R1 and W1 are fd1[0] and
      fd1[1] (parent to child), R2 and W2 are fd2[0] and fd2[1] (child to parent). */
  datatype End = R1 | W1 | R2 | W2

  datatype ParentPc = PCloseR1 | PWrite | PCloseW1 | PWait | PCloseW2 | PRead | PCloseR2 | PDone | PKilled

  datatype ChildPc = CCloseW1 | CRead | CCloseR1 | CCloseR2 | CWrite | CCloseW2 | CExit | CDone | CKilled

  datatype State = State(
    capacity: nat,          // of each pipe
    request: string,        // what the parent writes, terminator included
    reply: string,          // what the child writes, terminator included
    pipe1: string,
    pipe2: string,
    parent: ParentPc,
    parentEnds: set<End>,
    parentBuf: string,
    child: ChildPc,
    childEnds: set<End>,
    childBuf: string)

  const ALL_ENDS: set<End> := {R1, W1, R2, W2}

  ghost predicate Init(s: State) {
    && 1 <= |s.request| <= s.capacity && 1 <= |s.reply| <= s.capacity
    && s.pipe1 == "" && s.pipe2 == ""
    && s.parent == PCloseR1 && s.parentEnds == ALL_ENDS && s.parentBuf == Zeros(BUFLEN)
    && s.child == CCloseW1 && s.childEnds == ALL_ENDS && s.childBuf == Zeros(BUFLEN)
  }

  /** Whether any process still has this end open. */
  predicate Open(s: State, e: End) {
    e in s.parentEnds || e in s.childEnds
  }

  predicate ParentEnabled(s: State) {
    match s.parent
    case PWrite => !Open(s, R1) || |s.pipe1| + |s.request| <= s.capacity
    case PWait => s.child in {CDone, CKilled}
    case PRead => s.pipe2 != "" || !Open(s, W2)
    case PDone => false
    case PKilled => false
    case _ => true
  }

  predicate ChildEnabled(s: State) {
    match s.child
    case CRead => s.pipe1 != "" || !Open(s, W1)
    case CWrite => !Open(s, R2) || |s.pipe2| + |s.reply| <= s.capacity
    case CDone => false
    case CKilled => false
    case _ => true
  }

  predicate BuffersOk(s: State) {
    |s.parentBuf| == |s.childBuf| == BUFLEN
  }

  function ParentStep(s: State): State
    requires BuffersOk(s)
  {
    match s.parent
    case PCloseR1 => s.(parent := PWrite, parentEnds := s.parentEnds - {R1})
    case PWrite =>
      if !Open(s, R1) then s.(parent := PKilled, parentEnds := {})  // SIGPIPE
      else s.(parent := PCloseW1, pipe1 := s.pipe1 + s.request)
    case PCloseW1 => s.(parent := PWait, parentEnds := s.parentEnds - {W1})
    case PWait => s.(parent := PCloseW2)
    case PCloseW2 => s.(parent := PRead, parentEnds := s.parentEnds - {W2})
    case PRead =>
      var n := Min(BUFLEN, |s.pipe2|);
      s.(parent := PCloseR2, parentBuf := Overlay(s.parentBuf, s.pipe2[..n]), pipe2 := s.pipe2[n..])
    case PCloseR2 => s.(parent := PDone, parentEnds := s.parentEnds - {R2})
    case PDone => s
    case PKilled => s
  }

  function ChildStep(s: State): State
    requires BuffersOk(s)
  {
    match s.child
    case CCloseW1 => s.(child := CRead, childEnds := s.childEnds - {W1})
    case CRead =>
      var n := Min(BUFLEN, |s.pipe1|);
      s.(child := CCloseR1, childBuf := Overlay(s.childBuf, s.pipe1[..n]), pipe1 := s.pipe1[n..])
    case CCloseR1 => s.(child := CCloseR2, childEnds := s.childEnds - {R1})
    case CCloseR2 => s.(child := CWrite, childEnds := s.childEnds - {R2})
    case CWrite =>
      if !Open(s, R2) then s.(child := CKilled, childEnds := {})  // SIGPIPE
      else s.(child := CCloseW2, pipe2 := s.pipe2 + s.reply)
    case CCloseW2 => s.(child := CExit, childEnds := s.childEnds - {W2})
    case CExit => s.(child := CDone, childEnds := {})
    case CDone => s
    case CKilled => s
  }

  ghost predicate Next(s: State, s': State) {
    && BuffersOk(s)
    && ((ParentEnabled(s) && s' == ParentStep(s)) || (ChildEnabled(s) && s' == ChildStep(s)))
  }

  // ---------- the invariant ----------

  function ParentPlace(pc: ParentPc): int {
    match pc
    case PCloseR1 => 0 case PWrite => 1 case PCloseW1 => 2 case PWait => 3
    case PCloseW2 => 4 case PRead => 5 case PCloseR2 => 6 case PDone => 7 case PKilled => -1
  }

  function ChildPlace(pc: ChildPc): int {
    match pc
    case CCloseW1 => 0 case CRead => 1 case CCloseR1 => 2 case CCloseR2 => 3
    case CWrite => 4 case CCloseW2 => 5 case CExit => 6 case CDone => 7 case CKilled => -1
  }

  function Clock(s: State): int {
    ParentPlace(s.parent) + ChildPlace(s.child)
  }

  /** The buffer after a read of a message into zeros. */
  function Received(message: string): string {
    Overlay(Zeros(BUFLEN), message[..Min(BUFLEN, |message|)])
  }

  function Rest(message: string): string {
    message[Min(BUFLEN, |message|)..]
  }

  ghost predicate EndsOk(s: State) {
    var p, c := ParentPlace(s.parent), ChildPlace(s.child);
    && (R1 in s.parentEnds <==> p < 1) && (W1 in s.parentEnds <==> p < 3)
    && (W2 in s.parentEnds <==> p < 5) && (R2 in s.parentEnds <==> p < 7)
    && (W1 in s.childEnds <==> c < 1) && (R1 in s.childEnds <==> c < 3)
    && (R2 in s.childEnds <==> c < 4) && (W2 in s.childEnds <==> c < 6)
  }

  ghost predicate Inv(s: State) {
    var p, c := ParentPlace(s.parent), ChildPlace(s.child);
    && s.parent != PKilled && s.child != CKilled
    && 1 <= |s.request| <= s.capacity && 1 <= |s.reply| <= s.capacity
    && EndsOk(s)
    && s.childBuf == (if c > 1 then Received(s.request) else Zeros(BUFLEN))
    && s.parentBuf == (if p > 5 then Received(s.reply) else Zeros(BUFLEN))
    && s.pipe1 == (if p <= 1 then "" else if c <= 1 then s.request else Rest(s.request))
    && s.pipe2 == (if c <= 4 then "" else if p <= 5 then s.reply else Rest(s.reply))
    && (c > 1 ==> p > 1)
    && (p > 3 ==> c == 7)
  }

  ghost predicate SameProgram(s: State, s': State) {
    s'.capacity == s.capacity && s'.request == s.request && s'.reply == s.reply
  }

  lemma ParentKeepsInv(s: State)
    requires Inv(s) && BuffersOk(s) && ParentEnabled(s)
    ensures Inv(ParentStep(s)) && SameProgram(s, ParentStep(s)) && Clock(ParentStep(s)) == Clock(s) + 1
  {
  }

  lemma ChildKeepsInv(s: State)
    requires Inv(s) && BuffersOk(s) && ChildEnabled(s)
    ensures Inv(ChildStep(s)) && SameProgram(s, ChildStep(s)) && Clock(ChildStep(s)) == Clock(s) + 1
  {
  }

  lemma StepKeepsInv(s: State, s': State)
    requires Inv(s) && Next(s, s')
    ensures Inv(s') && SameProgram(s, s') && Clock(s') == Clock(s) + 1
  {
    if ParentEnabled(s) && s' == ParentStep(s) { ParentKeepsInv(s); } else { ChildKeepsInv(s); }
  }

  lemma InitInv(s: State)
    requires Init(s)
    ensures Inv(s) && Clock(s) == 0
  {
  }

  lemma InvRun(tr: seq<State>)
    requires IsRun(Next, tr) && Init(tr[0])
    ensures Inv(Last(tr)) && SameProgram(tr[0], Last(tr)) && Clock(Last(tr)) == |tr| - 1
  {
    InitInv(tr[0]);
    var inv := s => Inv(s) && SameProgram(tr[0], s);
    forall s, s' | inv(s) && Next(s, s') ensures inv(s') && Clock(s') == Clock(s) + 1 {
      StepKeepsInv(s, s');
    }
    StepCount(Next, inv, Clock, tr);
  }

  // ---------- what every interleaving guarantees ----------

  /** Every write finds an open read end and room, and when wait has returned the reply
      is already in the pipe, so the parent's read does not block. */
  lemma CallsSucceed(tr: seq<State>)
    requires IsRun(Next, tr) && Init(tr[0])
    ensures var s := Last(tr);
      && s.parent != PKilled && s.child != CKilled
      && (s.parent == PWrite ==> R1 in s.childEnds && ParentEnabled(s))
      && (s.child == CWrite ==> R2 in s.parentEnds && ChildEnabled(s))
      && (s.parent in {PCloseW2, PRead} ==> s.pipe2 == tr[0].reply)
      && (s.parent == PRead ==> ParentEnabled(s))
  {
    InvRun(tr);
  }

  /** Every schedule takes exactly 14 steps to the end of both processes and never gets
      stuck before; both have then read what the other wrote, up to the buffer size. */
  lemma ExchangeCompletes(tr: seq<State>)
    requires IsRun(Next, tr) && Init(tr[0])
    ensures |tr| - 1 <= 14
    ensures |tr| - 1 < 14 ==> exists s' :: Next(Last(tr), s')
    ensures |tr| - 1 == 14 <==> Last(tr).parent == PDone
    ensures Last(tr).parent == PDone ==>
              && Last(tr).child == CDone
              && Last(tr).childBuf == Received(tr[0].request)
              && Last(tr).parentBuf == Received(tr[0].reply)
  {
    InvRun(tr);
    var s := Last(tr);
    if |tr| - 1 < 14 {
      assert Next(s, if ParentEnabled(s) then ParentStep(s) else ChildStep(s));
    }
  }

  /** A text arrives complete and terminated exactly when it has fewer than 128
      characters; of a longer one the first 128 arrive, without a terminator. */
  lemma ArrivesCompleteIff(text: string)
    requires '\0' !in text
    ensures '\0' in Received(Terminated(text)) && CString(Received(Terminated(text))) == text <==>
            |text| < 128
    ensures |text| >= 128 ==> Received(Terminated(text)) == text[..128]
  {
    var message := Terminated(text);
    if |text| < BUFLEN {
      assert message[..|message|] == message;
      StoredString(Zeros(BUFLEN), text);
      assert Received(message)[|text|] == '\0';
    } else {
      var r := Received(message);
      assert forall i :: 0 <= i < BUFLEN ==> r[i] == message[i] == text[i] && text[i] in text;
    }
  }
}

/** pipe_example.c as it changes its descriptors, pipes and buffers. */
module PipeProgram {
  import opened Runs
  import opened Buffers
  import opened PipeModel

  class Exchange {
    const capacity: nat
    const request: string
    const reply: string
    var pipe1: string
    var pipe2: string
    var parent: ParentPc
    var parentEnds: set<End>
    var parentBuf: string
    var child: ChildPc
    var childEnds: set<End>
    var childBuf: string

    /** Both pipe calls and the fork. */
    constructor (capacity: nat, requestText: string, replyText: string)
      requires |requestText| < capacity && |replyText| < capacity
      ensures Init(Now()) && request == Terminated(requestText) && reply == Terminated(replyText)
    {
      this.capacity, request, reply := capacity, Terminated(requestText), Terminated(replyText);
      pipe1, pipe2 := "", "";
      parent, parentEnds, parentBuf := PCloseR1, ALL_ENDS, Zeros(BUFLEN);
      child, childEnds, childBuf := CCloseW1, ALL_ENDS, Zeros(BUFLEN);
    }

    function Now(): State
      reads this
    {
      State(capacity, request, reply, pipe1, pipe2, parent, parentEnds, parentBuf, child, childEnds, childBuf)
    }

    method AdvanceParent()
      requires BuffersOk(Now()) && ParentEnabled(Now())
      modifies this`parent, this`parentEnds, this`parentBuf, this`pipe1, this`pipe2
      ensures Now() == ParentStep(old(Now()))
    {
      match parent
      case PCloseR1 =>
        parentEnds := parentEnds - {R1};
        parent := PWrite;
      case PWrite =>
        if Open(Now(), R1) {
          pipe1 := pipe1 + request;
          parent := PCloseW1;
        } else {
          parentEnds := {};
          parent := PKilled;
        }
      case PCloseW1 =>
        parentEnds := parentEnds - {W1};
        parent := PWait;
      case PWait =>
        parent := PCloseW2;
      case PCloseW2 =>
        parentEnds := parentEnds - {W2};
        parent := PRead;
      case PRead =>
        var data := pipe2[..Min(BUFLEN, |pipe2|)];
        pipe2 := pipe2[|data|..];
        parentBuf := Overlay(parentBuf, data);
        parent := PCloseR2;
      case PCloseR2 =>
        parentEnds := parentEnds - {R2};
        parent := PDone;
    }

    method AdvanceChild()
      requires BuffersOk(Now()) && ChildEnabled(Now())
      modifies this`child, this`childEnds, this`childBuf, this`pipe1, this`pipe2
      ensures Now() == ChildStep(old(Now()))
    {
      match child
      case CCloseW1 =>
        childEnds := childEnds - {W1};
        child := CRead;
      case CRead =>
        var data := pipe1[..Min(BUFLEN, |pipe1|)];
        pipe1 := pipe1[|data|..];
        childBuf := Overlay(childBuf, data);
        child := CCloseR1;
      case CCloseR1 =>
        childEnds := childEnds - {R1};
        child := CCloseR2;
      case CCloseR2 =>
        childEnds := childEnds - {R2};
        child := CWrite;
      case CWrite =>
        if Open(Now(), R2) {
          pipe2 := pipe2 + reply;
          child := CCloseW2;
        } else {
          childEnds := {};
          child := CKilled;
        }
      case CCloseW2 =>
        childEnds := childEnds - {W2};
        child := CExit;
      case CExit =>
        childEnds := {};
        child := CDone;
    }

    /** Both processes to the end of the parent, under any schedule. */
    method RunToEnd(requestText: string, replyText: string)
      requires Init(Now()) && request == Terminated(requestText) && reply == Terminated(replyText)
      requires '\0' !in requestText && '\0' !in replyText
      modifies this
      ensures Reaches(Next, old(Now()), Now())
      ensures parent == PDone && child == CDone
      ensures if |requestText| < 128 then CString(childBuf) == requestText else childBuf == requestText[..128]
      ensures if |replyText| < 128 then CString(parentBuf) == replyText else parentBuf == replyText[..128]
    {
      while parent != PDone
        invariant Reaches(Next, old(Now()), Now())
        decreases 14 - Clock(Now())
      {
        GoOn(old(Now()), Now());
        var parentFirst := *;
        if ParentEnabled(Now()) && (parentFirst || !ChildEnabled(Now())) {
          AdvanceParent();
        } else {
          AdvanceChild();
        }
      }
      ghost var tr := RunTo(Next, old(Now()), Now());
      ExchangeCompletes(tr);
      ArrivesCompleteIff(requestText);
      ArrivesCompleteIff(replyText);
    }
  }

  /** Before the end one of the processes can step, and few enough steps are left. */
  lemma GoOn(s0: State, s: State)
    requires Init(s0) && Reaches(Next, s0, s) && s.parent != PDone
    ensures BuffersOk(s) && (ParentEnabled(s) || ChildEnabled(s)) && Clock(s) < 14
    ensures ParentEnabled(s) ==> Reaches(Next, s0, ParentStep(s)) && Clock(ParentStep(s)) == Clock(s) + 1
    ensures ChildEnabled(s) ==> Reaches(Next, s0, ChildStep(s)) && Clock(ChildStep(s)) == Clock(s) + 1
  {
    var tr := RunTo(Next, s0, s);
    InvRun(tr);
    ExchangeCompletes(tr);
    if ParentEnabled(s) {
      ParentKeepsInv(s);
      ReachesStep(Next, s, ParentStep(s));
      ReachesTrans(Next, s0, s, ParentStep(s));
    }
    if ChildEnabled(s) {
      ChildKeepsInv(s);
      ReachesStep(Next, s, ChildStep(s));
      ReachesTrans(Next, s0, s, ChildStep(s));
    }
  }
}
