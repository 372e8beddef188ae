/** The System V message queues of SysV/sysv_mq_example.c: every invocation of the
    program parses its options and then sends or receives one typed message. */
module MessageQueueModel {
  import opened Buffers

  const MTEXT: nat := 80      // mtext, and the size given to msgsnd and msgrcv
  const IPC_PRIVATE := 0      // the key under which msgget always makes a new queue

  datatype Msg = Msg(mtype: int, mtext: string)

  // ---------- options ----------

  datatype Opt = OptSend | OptReceive | OptType(n: int) | OptKey(n: int) | Unrecognized

  datatype Mode = Send | Receive

  datatype Parsed = Usage | Command(mode: Mode, mtype: int, key: int)

  /** An option that makes getopt's loop stop with the usage message. */
  predicate Fatal(o: Opt) {
    o.Unrecognized? || (o.OptType? && o.n <= 0)
  }

  /** The kinds of options of which the last one counts. */
  datatype Kind = ModeKind | TypeKind | KeyKind

  predicate OfKind(o: Opt, kind: Kind) {
    match kind
    case ModeKind => o.OptSend? || o.OptReceive?
    case TypeKind => o.OptType?
    case KeyKind => o.OptKey?
  }

  ghost predicate LastOfKind(opts: seq<Opt>, kind: Kind, i: int) {
    && 0 <= i < |opts| && OfKind(opts[i], kind)
    && forall j :: i < j < |opts| ==> !OfKind(opts[j], kind)
  }

  ghost predicate NoneOfKind(opts: seq<Opt>, kind: Kind) {
    forall j :: 0 <= j < |opts| ==> !OfKind(opts[j], kind)
  }

  ghost predicate NoneFatal(opts: seq<Opt>) {
    forall j :: 0 <= j < |opts| ==> !Fatal(opts[j])
  }

  ghost predicate ModeIs(opts: seq<Opt>, mode: Mode) {
    exists i :: LastOfKind(opts, ModeKind, i) && (mode == Send <==> opts[i].OptSend?)
  }

  /** The number given last with -t or -k, or its default. */
  ghost predicate NumberIs(opts: seq<Opt>, kind: Kind, default: int, n: int)
    requires kind != ModeKind
  {
    if NoneOfKind(opts, kind) then n == default
    else exists i :: LastOfKind(opts, kind, i) && n == opts[i].n
  }

  /** What the options of an invocation come to. */
  ghost predicate ParsesTo(opts: seq<Opt>, p: Parsed) {
    match p
    case Usage => !NoneFatal(opts) || NoneOfKind(opts, ModeKind)
    case Command(mode, mtype, key) =>
      && NoneFatal(opts)
      && ModeIs(opts, mode)
      && NumberIs(opts, TypeKind, 1, mtype)
      && NumberIs(opts, KeyKind, 1234, key)
  }

  /** The options determine the command, and no message type but a positive one gets past them. */
  lemma ParseUnique(opts: seq<Opt>, p: Parsed, q: Parsed)
    requires ParsesTo(opts, p) && ParsesTo(opts, q)
    ensures p == q
    ensures p.Command? ==> p.mtype > 0
  {
  }

  /** What the options mean: the usage message comes for an unknown option, for a type
      that is not positive, and without -s and -r; otherwise the last of -s and -r is
      done, with the type and the key given last, or 1 and 1234. */
  lemma ParseMeans(opts: seq<Opt>, p: Parsed)
    requires ParsesTo(opts, p)
    ensures p == Usage <==>
            || (exists i :: 0 <= i < |opts| && (opts[i] == Unrecognized || (opts[i].OptType? && opts[i].n < 1)))
            || (forall i :: 0 <= i < |opts| ==> opts[i] != OptSend && opts[i] != OptReceive)
    ensures p.Command? ==> forall i :: 0 <= i < |opts| ==>
              && (opts[i] == OptSend && (forall j :: i < j < |opts| ==> opts[j] != OptReceive) ==> p.mode == Send)
              && (opts[i] == OptReceive && (forall j :: i < j < |opts| ==> opts[j] != OptSend) ==> p.mode == Receive)
              && (opts[i].OptType? && (forall j :: i < j < |opts| ==> !opts[j].OptType?) ==> p.mtype == opts[i].n)
              && (opts[i].OptKey? && (forall j :: i < j < |opts| ==> !opts[j].OptKey?) ==> p.key == opts[i].n)
    ensures p.Command? && (forall i :: 0 <= i < |opts| ==> !opts[i].OptType?) ==> p.mtype == 1
    ensures p.Command? && (forall i :: 0 <= i < |opts| ==> !opts[i].OptKey?) ==> p.key == 1234
  {
    assert p == Usage <==> !NoneFatal(opts) || NoneOfKind(opts, ModeKind) by {
      if p.Command? {
        assert !NoneOfKind(opts, ModeKind);
      }
    }
    if p.Command? {
      CommandMeans(opts, p);
    }
  }

  lemma CommandMeans(opts: seq<Opt>, p: Parsed)
    requires ParsesTo(opts, p) && p.Command?
    ensures forall i :: LastOfKind(opts, ModeKind, i) ==> (p.mode == Send <==> opts[i] == OptSend)
    ensures forall i :: LastOfKind(opts, TypeKind, i) ==> p.mtype == opts[i].n
    ensures forall i :: LastOfKind(opts, KeyKind, i) ==> p.key == opts[i].n
    ensures NoneOfKind(opts, TypeKind) ==> p.mtype == 1
    ensures NoneOfKind(opts, KeyKind) ==> p.key == 1234
  {
  }

  // ---------- one queue ----------

  /** The first message of a type, or the length of the queue. */
  function FirstOf(queue: seq<Msg>, t: int): (i: nat)
    ensures i <= |queue|
    ensures i < |queue| ==> queue[i].mtype == t
    ensures forall j :: 0 <= j < i ==> queue[j].mtype != t
  {
    if queue == [] || queue[0].mtype == t then 0 else 1 + FirstOf(queue[1..], t)
  }

  function Remove(queue: seq<Msg>, i: nat): seq<Msg>
    requires i < |queue|
  {
    queue[..i] + queue[i + 1..]
  }

  /** The printed texts of the messages of one type, oldest first. */
  function Texts(queue: seq<Msg>, t: int): seq<string> {
    if queue == [] then [] else TextIf(queue[0], t) + Texts(queue[1..], t)
  }

  function TextIf(m: Msg, t: int): seq<string> {
    if m.mtype == t then [CString(m.mtext)] else []
  }

  lemma TextsCons(m: Msg, rest: seq<Msg>, t: int)
    ensures Texts([m] + rest, t) == TextIf(m, t) + Texts(rest, t)
  {
    assert ([m] + rest)[1..] == rest;
  }

  lemma Regroup(x: seq<string>, y: seq<string>, z: seq<string>)
    ensures x + (y + z) == (x + y) + z
  {
  }

  lemma {:induction false} TextsConcat(a: seq<Msg>, b: seq<Msg>, t: int)
    ensures Texts(a + b, t) == Texts(a, t) + Texts(b, t)
  {
    if a == [] {
      assert a + b == b;
    } else {
      var m, rest := a[0], a[1..];
      TextsConcat(rest, b, t);
      assert a + b == [m] + (rest + b) && a == [m] + rest;
      TextsCons(m, rest + b, t);
      TextsCons(m, rest, t);
      Regroup(TextIf(m, t), Texts(rest, t), Texts(b, t));
    }
  }

  lemma {:induction false} TextsAbsent(a: seq<Msg>, t: int)
    requires forall i :: 0 <= i < |a| ==> a[i].mtype != t
    ensures Texts(a, t) == []
  {
    if a != [] {
      TextsAbsent(a[1..], t);
    }
  }

  lemma TextsAround(queue: seq<Msg>, i: nat, t: int)
    requires i < |queue|
    ensures Texts(queue, t) == Texts(queue[..i], t) + (TextIf(queue[i], t) + Texts(queue[i + 1..], t))
    ensures Texts(Remove(queue, i), t) == Texts(queue[..i], t) + Texts(queue[i + 1..], t)
  {
    assert queue == queue[..i] + ([queue[i]] + queue[i + 1..]);
    TextsConcat(queue[..i], [queue[i]] + queue[i + 1..], t);
    TextsCons(queue[i], queue[i + 1..], t);
    TextsConcat(queue[..i], queue[i + 1..], t);
  }

  lemma EmptyLeft(x: seq<string>)
    ensures [] + x == x
  {
  }

  /** Selective removal takes the oldest text of its type ... */
  lemma RemoveTakesFirst(queue: seq<Msg>, t: int, i: nat)
    requires i < |queue| && queue[i].mtype == t
    requires forall j :: 0 <= j < i ==> queue[j].mtype != t
    ensures Texts(queue, t) == [CString(queue[i].mtext)] + Texts(Remove(queue, i), t)
  {
    TextsAround(queue, i, t);
    TextsAbsent(queue[..i], t);
    EmptyLeft(TextIf(queue[i], t) + Texts(queue[i + 1..], t));
    EmptyLeft(Texts(queue[i + 1..], t));
  }

  /** ... and no other type's. */
  lemma RemoveKeepsOthers(queue: seq<Msg>, u: int, i: nat)
    requires i < |queue| && queue[i].mtype != u
    ensures Texts(queue, u) == Texts(Remove(queue, i), u)
  {
    TextsAround(queue, i, u);
    EmptyLeft(Texts(queue[i + 1..], u));
  }

  lemma RemoveFirst(queue: seq<Msg>, t: int, u: int)
    requires FirstOf(queue, t) < |queue|
    ensures Texts(queue, t) == [CString(queue[FirstOf(queue, t)].mtext)] + Texts(Remove(queue, FirstOf(queue, t)), t)
    ensures u != t ==> Texts(queue, u) == Texts(Remove(queue, FirstOf(queue, t)), u)
  {
    RemoveTakesFirst(queue, t, FirstOf(queue, t));
    if u != t {
      RemoveKeepsOthers(queue, u, FirstOf(queue, t));
    }
  }

  lemma {:induction false} NoTextsIff(queue: seq<Msg>, t: int)
    ensures Texts(queue, t) == [] <==> FirstOf(queue, t) == |queue|
  {
    if queue != [] {
      NoTextsIff(queue[1..], t);
    }
  }

  // ---------- invocations ----------

  /** One run of the program: its options, the time it prints, and what its uninitialised
      message structure happens to hold. */
  datatype Invocation = Invocation(opts: seq<Opt>, time: string, garbage: string)

  /** What an invocation reports. */
  datatype Event = UsageShown
                 | Sent(key: int, mtype: int, text: string)
                 | QueueFull(key: int, mtype: int)
                 | Received(key: int, mtype: int, text: string)
                 | NoMessage(key: int, mtype: int)

  /** The queue of a key, or one of the queues made for `IPC_PRIVATE`. */
  datatype QueueId = Keyed(key: int) | Private(serial: nat)

  datatype State = State(
    capacity: nat,                      // messages a queue has room for
    queues: map<QueueId, seq<Msg>>,
    privates: nat,                      // private queues made so far
    log: seq<Event>)                    // history: one event for each invocation

  ghost predicate ValidInvocation(v: Invocation) {
    '\0' !in v.time && |v.garbage| == MTEXT
  }

  /** A text made at a time: the words and the time, whole for a time of up to 66
      characters and else cut to 79 in all. */
  predicate TextAt(text: string, time: string) {
    && text <= "a message at " + time
    && |text| == if |time| <= 66 then 13 + |time| else 79
  }

  /** snprintf: the text cut to what fits before the terminator. */
  function MessageText(time: string): (text: string)
    ensures TextAt(text, time)
    ensures |text| < MTEXT
    ensures '\0' !in time ==> '\0' !in text
  {
    var full := "a message at " + time;
    full[..Min(MTEXT - 1, |full|)]
  }

  function Queue(s: State, id: QueueId): seq<Msg> {
    if id in s.queues then s.queues[id] else []
  }

  /** msgget with IPC_CREAT: the queue of the key, a new one for IPC_PRIVATE. */
  function IdOf(s: State, key: int): QueueId {
    if key == IPC_PRIVATE then Private(s.privates) else Keyed(key)
  }

  /** The state with the queue found or made by msgget holding `queue`. */
  function Used(s: State, key: int, queue: seq<Msg>, e: Event): State {
    s.(queues := s.queues[IdOf(s, key) := queue],
       privates := if key == IPC_PRIVATE then s.privates + 1 else s.privates,
       log := s.log + [e])
  }

  function SendTo(s: State, key: int, t: int, v: Invocation): State
    requires |v.garbage| == MTEXT
  {
    var queue := Queue(s, IdOf(s, key));
    if |queue| >= s.capacity
    then Used(s, key, queue, QueueFull(key, t))
    else
      var text := MessageText(v.time);
      Used(s, key, queue + [Msg(t, Overlay(v.garbage, Terminated(text)))], Sent(key, t, text))
  }

  function ReceiveFrom(s: State, key: int, t: int): State {
    var queue := Queue(s, IdOf(s, key));
    var i := FirstOf(queue, t);
    if i == |queue|
    then Used(s, key, queue, NoMessage(key, t))
    else Used(s, key, Remove(queue, i), Received(key, t, CString(queue[i].mtext)))
  }

  function Run(s: State, p: Parsed, v: Invocation): State
    requires |v.garbage| == MTEXT
  {
    match p
    case Usage => s.(log := s.log + [UsageShown])
    case Command(Send, t, key) => SendTo(s, key, t, v)
    case Command(Receive, t, key) => ReceiveFrom(s, key, t)
  }

  ghost predicate Next(s: State, s': State) {
    exists v, p :: ValidInvocation(v) && ParsesTo(v.opts, p) && s' == Run(s, p, v)
  }

  ghost predicate Init(s: State) {
    s.queues == map[] && s.privates == 0 && s.log == []
  }

  // ---------- independent queues, one for each key and type ----------

  function SentTexts(log: seq<Event>, key: int, t: int): seq<string> {
    if log == [] then []
    else
      var e := log[|log| - 1];
      SentTexts(log[..|log| - 1], key, t) + (if e.Sent? && e.key == key && e.mtype == t then [e.text] else [])
  }

  function ReceivedTexts(log: seq<Event>, key: int, t: int): seq<string> {
    if log == [] then []
    else
      var e := log[|log| - 1];
      ReceivedTexts(log[..|log| - 1], key, t) + (if e.Received? && e.key == key && e.mtype == t then [e.text] else [])
  }

  lemma Logged(log: seq<Event>, e: Event, key: int, t: int)
    ensures SentTexts(log + [e], key, t) ==
            SentTexts(log, key, t) + (if e.Sent? && e.key == key && e.mtype == t then [e.text] else [])
    ensures ReceivedTexts(log + [e], key, t) ==
            ReceivedTexts(log, key, t) + (if e.Received? && e.key == key && e.mtype == t then [e.text] else [])
  {
    assert (log + [e])[..|log|] == log;
  }

  /** The texts in the first `n` private queues. */
  function PrivateTexts(s: State, n: nat, t: int): seq<string> {
    if n == 0 then [] else PrivateTexts(s, n - 1, t) + Texts(Queue(s, Private(n - 1)), t)
  }

  /** The texts still queued under a key, within the reach of others or not. */
  function QueuedTexts(s: State, key: int, t: int): seq<string> {
    if key == IPC_PRIVATE then PrivateTexts(s, s.privates, t) else Texts(Queue(s, Keyed(key)), t)
  }

  /** Sent is received plus still queued. */
  ghost predicate Balanced(s: State, key: int, t: int) {
    SentTexts(s.log, key, t) == ReceivedTexts(s.log, key, t) + QueuedTexts(s, key, t)
  }

  ghost predicate Inv(s: State) {
    && (forall key, t :: Balanced(s, key, t))
    && (forall t :: ReceivedTexts(s.log, IPC_PRIVATE, t) == [])
    && (forall id :: |Queue(s, id)| <= s.capacity)
    && (forall n: nat :: n >= s.privates ==> Private(n) !in s.queues)
  }

  /** A message in the queue prints as the text it was made from. */
  lemma QueuedText(queue: seq<Msg>, t: int, v: Invocation, u: int)
    requires ValidInvocation(v)
    ensures Texts(queue + [Msg(t, Overlay(v.garbage, Terminated(MessageText(v.time))))], u) ==
            Texts(queue, u) + (if u == t then [MessageText(v.time)] else [])
  {
    var m := Msg(t, Overlay(v.garbage, Terminated(MessageText(v.time))));
    StoredString(v.garbage, MessageText(v.time));
    TextsConcat(queue, [m], u);
    assert Texts([m], u) == if u == t then [MessageText(v.time)] else [];
  }

  /** The structure on the queue: the type, and in 80 bytes the text with a terminator. */
  predicate Carries(m: Msg, t: int, time: string, text: string) {
    && m.mtype == t
    && TextAt(text, time)
    && |m.mtext| == 80 && m.mtext[..|text|] == text && m.mtext[|text|] == '\0'
  }

  /** What a send leaves: with room in its queue one message more at the end, with the
      type and the text it reports, and else the queue as it was. */
  ghost predicate Sends(s: State, s': State, id: QueueId, e: Event, key: int, t: int, time: string) {
    && e != UsageShown && e.key == key && e.mtype == t
    && |Queue(s', id)| == |Queue(s, id)| + (if e.Sent? then 1 else 0)
    && Queue(s, id) == Queue(s', id)[..|Queue(s, id)|]
    && if |Queue(s, id)| < s.capacity
       then e.Sent? && Carries(Queue(s', id)[|Queue(s, id)|], t, time, e.text)
       else e.QueueFull?
  }

  /** What a receive leaves: without the first message of its type, whose text it reports,
      or the queue as it was when there is none of that type. */
  ghost predicate Receives(s: State, s': State, id: QueueId, e: Event, key: int, t: int) {
    && e != UsageShown && e.key == key && e.mtype == t
    && if forall j :: 0 <= j < |Queue(s, id)| ==> Queue(s, id)[j].mtype != t
       then e.NoMessage? && Queue(s', id) == Queue(s, id)
       else e.Received? && exists i :: TakenOut(Queue(s, id), Queue(s', id), i, t, e.text)
  }

  ghost predicate TakenOut(queue: seq<Msg>, queue': seq<Msg>, i: int, t: int, text: string) {
    && 0 <= i < |queue| && queue[i].mtype == t && text == CString(queue[i].mtext)
    && (forall j :: 0 <= j < i ==> queue[j].mtype != t)
    && queue' == queue[..i] + queue[i + 1..]
  }

  /** The queue an invocation with a key is about: that of the key, and for key 0 one that
      did not exist. */
  ghost predicate QueueOf(s: State, id: QueueId, key: int) {
    if key == 0 then id.Private? && id !in s.queues else id == Keyed(key)
  }

  lemma SendDoes(s: State, key: int, t: int, v: Invocation)
    requires Inv(s) && ValidInvocation(v)
    ensures var s' := SendTo(s, key, t, v);
      |s'.log| == |s.log| + 1 && Sends(s, s', IdOf(s, key), s'.log[|s.log|], key, t, v.time)
  {
    if |Queue(s, IdOf(s, key))| < s.capacity {
      var text := MessageText(v.time);
      var mtext := Overlay(v.garbage, Terminated(text));
      assert mtext[..|text|] == text && mtext[|text|] == '\0';
    }
  }

  lemma ReceiveDoes(s: State, key: int, t: int)
    requires Inv(s)
    ensures var s' := ReceiveFrom(s, key, t);
      |s'.log| == |s.log| + 1 && Receives(s, s', IdOf(s, key), s'.log[|s.log|], key, t)
  {
    var queue, s' := Queue(s, IdOf(s, key)), ReceiveFrom(s, key, t);
    var i := FirstOf(queue, t);
    if i < |queue| {
      assert TakenOut(queue, Queue(s', IdOf(s, key)), i, t, CString(queue[i].mtext));
    }
  }

  /** An invocation does what its options ask: it adds one report, under the key and the
      type given, and sends exactly for -s and receives exactly for -r; the other queues
      stay as they are. */
  ghost predicate Does(s: State, s': State, p: Parsed, time: string, id: QueueId, e: Event) {
    && s'.capacity == s.capacity
    && s'.log == s.log + [e]
    && (forall other :: other != id || p.Usage? ==> Queue(s', other) == Queue(s, other))
    && match p
       case Usage => e == UsageShown
       case Command(Send, t, key) => QueueOf(s, id, key) && Sends(s, s', id, e, key, t, time)
       case Command(Receive, t, key) => QueueOf(s, id, key) && Receives(s, s', id, e, key, t)
  }

  lemma RunDoes(s: State, p: Parsed, v: Invocation) returns (id: QueueId, e: Event)
    requires Inv(s) && ValidInvocation(v)
    ensures Does(s, Run(s, p, v), p, v.time, id, e)
  {
    var s' := Run(s, p, v);
    e := s'.log[|s.log|];
    id := if p.Command? then IdOf(s, p.key) else Keyed(0);
    match p
    case Usage =>
    case Command(Send, t, key) => SendDoes(s, key, t, v);
    case Command(Receive, t, key) => ReceiveDoes(s, key, t);
  }

  /** A send adds its text to the queue msgget returned, under its type, and to no other. */
  lemma SendQueues(s: State, key: int, t: int, v: Invocation, id: QueueId, u: int)
    requires ValidInvocation(v)
    ensures Texts(Queue(SendTo(s, key, t, v), id), u) ==
            Texts(Queue(s, id), u) +
            (if id == IdOf(s, key) && u == t && |Queue(s, id)| < s.capacity then [MessageText(v.time)] else [])
  {
    if id == IdOf(s, key) && |Queue(s, id)| < s.capacity {
      QueuedText(Queue(s, id), t, v, u);
    }
  }

  lemma ReceiveQueues(s: State, key: int, t: int, id: QueueId, u: int)
    ensures var i := FirstOf(Queue(s, id), t);
      Texts(Queue(s, id), u) ==
      (if id == IdOf(s, key) && u == t && i < |Queue(s, id)| then [CString(Queue(s, id)[i].mtext)] else []) +
      Texts(Queue(ReceiveFrom(s, key, t), id), u)
  {
    if id == IdOf(s, key) && FirstOf(Queue(s, id), t) < |Queue(s, id)| {
      RemoveFirst(Queue(s, id), t, u);
    }
  }

  lemma {:induction false} PrivateFrame(s: State, s': State, n: nat, t: int)
    requires forall i: nat :: i < n ==> Queue(s', Private(i)) == Queue(s, Private(i))
    ensures PrivateTexts(s', n, t) == PrivateTexts(s, n, t)
  {
    if n > 0 {
      PrivateFrame(s, s', n - 1, t);
    }
  }

  /** A use of another key leaves what is queued under a key as it is. */
  lemma OtherKey(s: State, key: int, queue: seq<Msg>, e: Event, k: int, u: int)
    requires k != key
    ensures QueuedTexts(Used(s, key, queue, e), k, u) == QueuedTexts(s, k, u)
  {
    PrivateFrame(s, Used(s, key, queue, e), s.privates, u);
  }

  /** A use of a shared key changes what is queued under it as its queue changes; a use of
      IPC_PRIVATE adds the new queue. */
  lemma SameKey(s: State, key: int, queue: seq<Msg>, e: Event, u: int)
    ensures key != IPC_PRIVATE ==> QueuedTexts(Used(s, key, queue, e), key, u) == Texts(queue, u)
    ensures key == IPC_PRIVATE ==>
              QueuedTexts(Used(s, key, queue, e), key, u) == QueuedTexts(s, key, u) + Texts(queue, u)
  {
    PrivateFrame(s, Used(s, key, queue, e), s.privates, u);
  }

  lemma FreshQueue(s: State)
    requires Inv(s)
    ensures Queue(s, IdOf(s, IPC_PRIVATE)) == []
  {
  }

  /** What is queued under a key after a send with it. */
  lemma SendQueued(s: State, key: int, t: int, v: Invocation, u: int)
    requires ValidInvocation(v) && Inv(s)
    ensures QueuedTexts(SendTo(s, key, t, v), key, u) ==
            QueuedTexts(s, key, u) +
            (if u == t && |Queue(s, IdOf(s, key))| < s.capacity then [MessageText(v.time)] else [])
  {
    var queue' := Queue(SendTo(s, key, t, v), IdOf(s, key));
    var e := SendTo(s, key, t, v).log[|s.log|];
    assert SendTo(s, key, t, v) == Used(s, key, queue', e);
    SendQueues(s, key, t, v, IdOf(s, key), u);
    SameKey(s, key, queue', e, u);
    if key == IPC_PRIVATE {
      FreshQueue(s);
      EmptyLeft(if u == t && s.capacity > 0 then [MessageText(v.time)] else []);
    }
  }

  lemma SendBalances(s: State, key: int, t: int, v: Invocation, k: int, u: int)
    requires ValidInvocation(v) && Inv(s)
    ensures Balanced(SendTo(s, key, t, v), k, u)
    ensures ReceivedTexts(SendTo(s, key, t, v).log, k, u) == ReceivedTexts(s.log, k, u)
  {
    var s' := SendTo(s, key, t, v);
    var e := s'.log[|s.log|];
    assert s'.log == s.log + [e];
    var sent, received, queued := SentTexts(s.log, k, u), ReceivedTexts(s.log, k, u), QueuedTexts(s, k, u);
    assert Balanced(s, k, u);
    Logged(s.log, e, k, u);
    assert ReceivedTexts(s'.log, k, u) == received;
    if k != key {
      OtherKey(s, key, Queue(s', IdOf(s, key)), e, k, u);
      assert SentTexts(s'.log, k, u) == sent;
    } else {
      SendQueued(s, key, t, v, u);
      if u == t && e.Sent? {
        assert SentTexts(s'.log, k, u) == sent + [MessageText(v.time)];
        assert QueuedTexts(s', k, u) == queued + [MessageText(v.time)];
        Regroup(received, queued, [MessageText(v.time)]);
      } else {
        assert SentTexts(s'.log, k, u) == sent;
        assert QueuedTexts(s', k, u) == queued;
      }
    }
  }

  /** What is queued under a key before a receive with it. */
  lemma ReceiveQueued(s: State, key: int, t: int, u: int)
    requires Inv(s)
    ensures var e := ReceiveFrom(s, key, t).log[|s.log|];
      && (key == IPC_PRIVATE ==> e == NoMessage(key, t))
      && QueuedTexts(s, key, u) ==
         (if u == t && e.Received? then [e.text] else []) + QueuedTexts(ReceiveFrom(s, key, t), key, u)
  {
    var s' := ReceiveFrom(s, key, t);
    var queue' := Queue(s', IdOf(s, key));
    ReceiveQueues(s, key, t, IdOf(s, key), u);
    SameKey(s, key, queue', s'.log[|s.log|], u);
    if key == IPC_PRIVATE {
      FreshQueue(s);
      EmptyLeft(QueuedTexts(s', key, u));
    }
  }

  /** A text moved from the queue to those received. */
  lemma Moved(sent: seq<string>, received: seq<string>, text: seq<string>, queued: seq<string>)
    requires sent == received + (text + queued)
    ensures sent == (received + text) + queued
  {
    Regroup(received, text, queued);
  }

  lemma ReceiveBalances(s: State, key: int, t: int, k: int, u: int)
    requires Inv(s)
    ensures Balanced(ReceiveFrom(s, key, t), k, u)
    ensures k == IPC_PRIVATE ==>
              ReceivedTexts(ReceiveFrom(s, key, t).log, k, u) == ReceivedTexts(s.log, k, u)
  {
    var s' := ReceiveFrom(s, key, t);
    var e := s'.log[|s.log|];
    assert s'.log == s.log + [e];
    var sent, received, queued := SentTexts(s.log, k, u), ReceivedTexts(s.log, k, u), QueuedTexts(s', k, u);
    assert Balanced(s, k, u);
    Logged(s.log, e, k, u);
    assert SentTexts(s'.log, k, u) == sent;
    if k != key {
      OtherKey(s, key, Queue(s', IdOf(s, key)), e, k, u);
      assert ReceivedTexts(s'.log, k, u) == received;
    } else {
      ReceiveQueued(s, key, t, u);
      if u == t && e.Received? {
        assert ReceivedTexts(s'.log, k, u) == received + [e.text];
        Moved(sent, received, [e.text], queued);
      } else {
        EmptyLeft(queued);
        assert ReceivedTexts(s'.log, k, u) == received;
      }
    }
  }

  lemma UsageBalances(s: State, key: int, t: int)
    requires Inv(s)
    ensures var s' := s.(log := s.log + [UsageShown]);
      Balanced(s', key, t) && ReceivedTexts(s'.log, key, t) == ReceivedTexts(s.log, key, t)
  {
    assert Balanced(s, key, t);
    Logged(s.log, UsageShown, key, t);
    PrivateFrame(s, s.(log := s.log + [UsageShown]), s.privates, t);
  }

  lemma StepBalances(s: State, p: Parsed, v: Invocation, key: int, t: int)
    requires ValidInvocation(v) && Inv(s)
    ensures Balanced(Run(s, p, v), key, t)
    ensures key == IPC_PRIVATE ==> ReceivedTexts(Run(s, p, v).log, key, t) == []
  {
    match p
    case Usage => UsageBalances(s, key, t);
    case Command(Send, u, k) => SendBalances(s, k, u, v, key, t);
    case Command(Receive, u, k) => ReceiveBalances(s, k, u, key, t);
  }

  lemma StepKeepsRoom(s: State, p: Parsed, v: Invocation, id: QueueId)
    requires ValidInvocation(v) && |Queue(s, id)| <= s.capacity
    ensures Run(s, p, v).capacity == s.capacity && |Queue(Run(s, p, v), id)| <= s.capacity
  {
  }

  lemma StepKeepsSerials(s: State, p: Parsed, v: Invocation)
    requires ValidInvocation(v) && Inv(s)
    ensures forall n: nat :: n >= Run(s, p, v).privates ==> Private(n) !in Run(s, p, v).queues
  {
  }

  lemma StepKeepsInv(s: State, p: Parsed, v: Invocation)
    requires Inv(s) && ValidInvocation(v)
    ensures Inv(Run(s, p, v))
  {
    var s' := Run(s, p, v);
    forall id ensures |Queue(s', id)| <= s'.capacity {
      StepKeepsRoom(s, p, v, id);
    }
    forall key, t
      ensures Balanced(s', key, t) && (key == IPC_PRIVATE ==> ReceivedTexts(s'.log, key, t) == [])
    {
      StepBalances(s, p, v, key, t);
    }
    StepKeepsSerials(s, p, v);
  }
}

/** What every sequence of invocations guarantees. */
module MessageQueueTheorems {
  import opened Runs
  import opened Buffers
  import opened MessageQueueModel

  lemma InvRun(tr: seq<State>)
    requires IsRun(Next, tr) && Init(tr[0])
    ensures Inv(Last(tr)) && Last(tr).capacity == tr[0].capacity
  {
    var inv := s => Inv(s) && s.capacity == tr[0].capacity;
    forall s, s' | inv(s) && Next(s, s') ensures inv(s') {
      var v, p :| ValidInvocation(v) && ParsesTo(v.opts, p) && s' == Run(s, p, v);
      StepKeepsInv(s, p, v);
      StepKeepsRoom(s, p, v, Keyed(1));
    }
    Invariant(Next, inv, tr);
  }

  /** For each key and type the texts received are those successfully sent, complete and
      in order, as far as they are not still queued; other keys and types never mix in.
      Of those sent with IPC_PRIVATE none is ever received: all lie in private queues. */
  lemma SentIsReceivedPlusQueued(tr: seq<State>, key: int, t: int)
    requires IsRun(Next, tr) && Init(tr[0])
    ensures var s := Last(tr);
      && ReceivedTexts(s.log, key, t) <= SentTexts(s.log, key, t)
      && SentTexts(s.log, key, t) == ReceivedTexts(s.log, key, t) + QueuedTexts(s, key, t)
      && (key == IPC_PRIVATE ==> ReceivedTexts(s.log, key, t) == [])
      && forall id :: |Queue(s, id)| <= s.capacity
  {
    InvRun(tr);
    assert Balanced(Last(tr), key, t);
  }

  /** A receive reports that there is no message exactly when everything sent under its
      key and type has been received; otherwise it reports the next text in sending
      order, whatever else the queue holds in front of it. */
  ghost predicate ReportsNext(s: State, key: int, t: int) {
    var sent, received := SentTexts(s.log, key, t), ReceivedTexts(s.log, key, t);
    var e := ReceiveFrom(s, key, t).log[|s.log|];
    && received <= sent
    && (received == sent ==> e == NoMessage(key, t))
    && (received != sent ==> e == Received(key, t, sent[|received|]))
  }

  lemma SharedKeyDelivers(tr: seq<State>, key: int, t: int)
    requires IsRun(Next, tr) && Init(tr[0]) && key != IPC_PRIVATE
    ensures ReportsNext(Last(tr), key, t)
  {
    SentIsReceivedPlusQueued(tr, key, t);
    var s := Last(tr);
    NoTextsIff(Queue(s, Keyed(key)), t);
    if FirstOf(Queue(s, Keyed(key)), t) < |Queue(s, Keyed(key))| {
      RemoveFirst(Queue(s, Keyed(key)), t, t);
    }
  }

  /** In every run the next invocation does what its options ask. */
  lemma InvocationDoes(tr: seq<State>, v: Invocation, p: Parsed) returns (id: QueueId, e: Event)
    requires IsRun(Next, tr) && Init(tr[0]) && ValidInvocation(v) && ParsesTo(v.opts, p)
    ensures IsRun(Next, tr + [Run(Last(tr), p, v)])
    ensures Does(Last(tr), Run(Last(tr), p, v), p, v.time, id, e)
  {
    InvRun(tr);
    id, e := RunDoes(Last(tr), p, v);
    Extend(Next, tr, Run(Last(tr), p, v));
  }

  /** The only message of its type, with the text `text`, is the one taken out. */
  lemma OnlyOneTaken(queue: seq<Msg>, queue': seq<Msg>, i: int, t: int, text: string, time: string, taken: string)
    requires |queue| > 0 && Carries(queue[|queue| - 1], t, time, text) && '\0' !in text
    requires forall j :: 0 <= j < |queue| - 1 ==> queue[j].mtype != t
    requires TakenOut(queue, queue', i, t, taken)
    ensures taken == text && queue' == queue[..|queue| - 1]
  {
    var mtext := queue[i].mtext;
    assert i == |queue| - 1;
    assert forall k :: 0 <= k < |text| ==> mtext[k] == mtext[..|text|][k] && mtext[k] in text;
    assert StrLen(mtext) == |text|;
  }

  /** A receive after a send into a queue with nothing of the type takes what was sent. */
  lemma SentThenTaken(s: State, s1: State, s2: State, id: QueueId, e1: Event, e2: Event, key: int, t: int, time: string)
    requires Sends(s, s1, id, e1, key, t, time) && Receives(s1, s2, id, e2, key, t)
    requires |Queue(s, id)| < s.capacity && '\0' !in time
    requires forall j :: 0 <= j < |Queue(s, id)| ==> Queue(s, id)[j].mtype != t
    ensures e1.Sent? && TextAt(e1.text, time) && e2 == Received(key, t, e1.text)
    ensures Queue(s2, id) == Queue(s, id)
  {
    TextNoNul(e1.text, time);
    var queue, queue1 := Queue(s, id), Queue(s1, id);
    assert queue1[|queue|].mtype == t;
    assert forall j :: 0 <= j < |queue| ==> queue1[j] == queue1[..|queue|][j];
    var i :| TakenOut(queue1, Queue(s2, id), i, t, e2.text);
    OnlyOneTaken(queue1, Queue(s2, id), i, t, e1.text, time, e2.text);
  }

  lemma PairDoes(s: State, s1: State, s2: State, id1: QueueId, id2: QueueId, e1: Event, e2: Event,
                 key: int, t: int, time: string, time': string)
    requires Does(s, s1, Command(Send, t, key), time, id1, e1)
    requires Does(s1, s2, Command(Receive, t, key), time', id2, e2)
    requires key != 0 && '\0' !in time && |Queue(s, Keyed(key))| < s.capacity
    requires forall j :: 0 <= j < |Queue(s, Keyed(key))| ==> Queue(s, Keyed(key))[j].mtype != t
    ensures e1.Sent? && TextAt(e1.text, time)
    ensures s2.log == s.log + [Sent(key, t, e1.text), Received(key, t, e1.text)]
    ensures Queue(s2, Keyed(key)) == Queue(s, Keyed(key))
  {
    SentThenTaken(s, s1, s2, Keyed(key), e1, e2, key, t, time);
    assert s2.log == s.log + [e1] + [e2];
  }

  /** `-s -t t -k key` and then `-r -t t -k key`, however the options are put: with a key
      other than 0, room in its queue and nothing there of the type, the receive reports
      the text the send has reported, which is the words and the time. */
  lemma SendThenReceive(tr: seq<State>, v: Invocation, w: Invocation, key: int, t: int) returns (text: string)
    requires IsRun(Next, tr) && Init(tr[0]) && ValidInvocation(v) && ValidInvocation(w)
    requires ParsesTo(v.opts, Command(Send, t, key)) && ParsesTo(w.opts, Command(Receive, t, key)) && key != 0
    requires |Queue(Last(tr), Keyed(key))| < Last(tr).capacity
    requires forall j :: 0 <= j < |Queue(Last(tr), Keyed(key))| ==> Queue(Last(tr), Keyed(key))[j].mtype != t
    ensures TextAt(text, v.time)
    ensures var s1 := Run(Last(tr), Command(Send, t, key), v);
      var s2 := Run(s1, Command(Receive, t, key), w);
      && Next(Last(tr), s1) && Next(s1, s2)
      && s2.log == Last(tr).log + [Sent(key, t, text), Received(key, t, text)]
      && Queue(s2, Keyed(key)) == Queue(Last(tr), Keyed(key))
  {
    var s, send, receive := Last(tr), Command(Send, t, key), Command(Receive, t, key);
    InvRun(tr);
    StepKeepsInv(s, send, v);
    var id1, e1 := RunDoes(s, send, v);
    var s1 := Run(s, send, v);
    var id2, e2 := RunDoes(s1, receive, w);
    PairDoes(s, s1, Run(s1, receive, w), id1, id2, e1, e2, key, t, v.time, w.time);
    text := e1.text;
  }

  lemma TextNoNul(text: string, time: string)
    requires TextAt(text, time) && '\0' !in time
    ensures '\0' !in text
  {
    var full := "a message at " + time;
    assert forall k :: 0 <= k < |text| ==> text[k] == full[k] && (k >= 13 ==> full[k] == time[k - 13]);
  }

  /** Every receive with IPC_PRIVATE looks into a queue of its own and finds nothing. */
  lemma PrivateFindsNothing(tr: seq<State>, t: int)
    requires IsRun(Next, tr) && Init(tr[0])
    ensures ReceiveFrom(Last(tr), IPC_PRIVATE, t).log == Last(tr).log + [NoMessage(IPC_PRIVATE, t)]
  {
    InvRun(tr);
    FreshQueue(Last(tr));
  }

  /** The options `-s -k 0` and `-r -k 0`. */
  lemma PrivateCommand(opts: seq<Opt>, mode: Mode)
    requires opts == [if mode == Send then OptSend else OptReceive, OptKey(0)]
    ensures ParsesTo(opts, Command(mode, 1, 0))
  {
    assert LastOfKind(opts, ModeKind, 0) && LastOfKind(opts, KeyKind, 1);
  }

  lemma Invoked(tr: seq<State>, v: Invocation, p: Parsed) returns (tr': seq<State>)
    requires IsRun(Next, tr) && ValidInvocation(v) && ParsesTo(v.opts, p)
    ensures tr' == tr + [Run(Last(tr), p, v)] && IsRun(Next, tr') && tr'[0] == tr[0]
  {
    Extend(Next, tr, Run(Last(tr), p, v));
    tr' := tr + [Run(Last(tr), p, v)];
  }

  /** `-s -k 0`: the text is sent ... */
  lemma PrivateSend(s: State, v: Invocation) returns (tr: seq<State>)
    requires Init(s) && s.capacity > 0
    requires ValidInvocation(v) && v.opts == [OptSend, OptKey(0)]
    ensures IsRun(Next, tr) && tr[0] == s
    ensures Last(tr).log == [Sent(0, 1, MessageText(v.time))]
  {
    PrivateCommand(v.opts, Send);
    tr := Invoked([s], v, Command(Send, 1, 0));
  }

  /** ... and `-r -k 0` after it finds no message. */
  lemma PrivatePair(s: State, v: Invocation, w: Invocation) returns (tr: seq<State>)
    requires Init(s) && s.capacity > 0
    requires ValidInvocation(v) && v.opts == [OptSend, OptKey(0)]
    requires ValidInvocation(w) && w.opts == [OptReceive, OptKey(0)]
    ensures IsRun(Next, tr) && tr[0] == s
    ensures Last(tr).log == [Sent(0, 1, MessageText(v.time)), NoMessage(0, 1)]
  {
    tr := PrivateSend(s, v);
    PrivateFindsNothing(tr, 1);
    PrivateCommand(w.opts, Receive);
    tr := Invoked(tr, w, Command(Receive, 1, 0));
  }

  ghost predicate Delivers(s: State, key: int) {
    forall tr, t :: IsRun(Next, tr) && tr[0] == s ==> ReportsNext(Last(tr), key, t)
  }

  lemma NoRoomDelivers(tr: seq<State>, t: int)
    requires IsRun(Next, tr) && Init(tr[0]) && tr[0].capacity == 0
    ensures ReportsNext(Last(tr), IPC_PRIVATE, t)
  {
    InvRun(tr);
    SentIsReceivedPlusQueued(tr, IPC_PRIVATE, t);
    NothingPrivate(Last(tr), Last(tr).privates, t);
    PrivateFindsNothing(tr, t);
  }

  lemma PrivateFails(s: State)
    requires Init(s) && s.capacity > 0
    ensures !Delivers(s, IPC_PRIVATE)
  {
    var v := Invocation([OptSend, OptKey(0)], "now", seq(MTEXT, _ => 'g'));
    var tr := PrivateSend(s, v);
    PrivateFindsNothing(tr, 1);
    var e := Sent(0, 1, MessageText(v.time));
    Logged([], e, 0, 1);
    assert Last(tr).log == [] + [e];
    assert !ReportsNext(Last(tr), IPC_PRIVATE, 1);
  }

  /** A key delivers in every run exactly if it is not IPC_PRIVATE (or no queue has room
      for a message at all). */
  lemma DeliversIff(s: State, key: int)
    requires Init(s)
    ensures Delivers(s, key) <==> key != IPC_PRIVATE || s.capacity == 0
  {
    if key == IPC_PRIVATE && s.capacity > 0 {
      PrivateFails(s);
    } else {
      forall tr, t | IsRun(Next, tr) && tr[0] == s ensures ReportsNext(Last(tr), key, t) {
        if key == IPC_PRIVATE { NoRoomDelivers(tr, t); } else { SharedKeyDelivers(tr, key, t); }
      }
    }
  }

  lemma {:induction false} NothingPrivate(s: State, n: nat, t: int)
    requires forall id :: |Queue(s, id)| == 0
    ensures PrivateTexts(s, n, t) == []
  {
    if n > 0 {
      NothingPrivate(s, n - 1, t);
      assert |Queue(s, Private(n - 1))| == 0;
    }
  }
}

/** The program as it parses its options and changes the queues. */
module MessageQueueProgram {
  import opened Buffers
  import opened MessageQueueModel

  /** The getopt loop of main and the test for a missing mode. */
  method ParseOptions(opts: seq<Opt>) returns (p: Parsed)
    ensures ParsesTo(opts, p)
  {
    var mode, msgtype, msgkey := 0, 1, 1234;
    var i := 0;
    while i < |opts|
      invariant i <= |opts|
      invariant NoneFatal(opts[..i])
      invariant mode in {0, 1, 2}
      invariant if mode == 0 then NoneOfKind(opts[..i], ModeKind)
                else ModeIs(opts[..i], if mode == 1 then Send else Receive)
      invariant NumberIs(opts[..i], TypeKind, 1, msgtype)
      invariant NumberIs(opts[..i], KeyKind, 1234, msgkey)
    {
      assert opts[..i + 1] == opts[..i] + [opts[i]];
      MoreOptions(opts[..i], opts[i], ModeKind);
      MoreOptions(opts[..i], opts[i], TypeKind);
      MoreOptions(opts[..i], opts[i], KeyKind);
      match opts[i] {
        case OptSend => mode := 1;
        case OptReceive => mode := 2;
        case OptType(n) =>
          msgtype := n;
          if msgtype <= 0 {
            return Usage;
          }
        case OptKey(n) => msgkey := n;
        case Unrecognized => return Usage;
      }
      i := i + 1;
    }
    assert opts[..i] == opts;
    if mode == 0 {
      return Usage;
    }
    return Command(if mode == 1 then Send else Receive, msgtype, msgkey);
  }

  /** An option more changes only what the options of its own kind say. */
  lemma MoreOptions(before: seq<Opt>, o: Opt, kind: Kind)
    ensures OfKind(o, kind) ==> LastOfKind(before + [o], kind, |before|) && !NoneOfKind(before + [o], kind)
    ensures !OfKind(o, kind) ==>
              && (NoneOfKind(before + [o], kind) <==> NoneOfKind(before, kind))
              && forall j :: LastOfKind(before, kind, j) ==> LastOfKind(before + [o], kind, j)
  {
    if OfKind(o, kind) {
      assert (before + [o])[|before|] == o;
    } else {
      assert forall j :: 0 <= j < |before| ==> (before + [o])[j] == before[j];
    }
  }

  class Queues {
    const capacity: nat
    var queues: map<QueueId, seq<Msg>>
    var privates: nat
    ghost var log: seq<Event>

    ghost function Now(): State
      reads this
    {
      State(capacity, queues, privates, log)
    }

    constructor (capacity: nat)
      ensures Init(Now())
    {
      this.capacity := capacity;
      queues := map[];
      privates := 0;
      log := [];
    }

    /** msgget with IPC_CREAT: finds the queue of a key, or makes a new one. */
    method MsgGet(key: int) returns (qid: QueueId)
      modifies this`queues, this`privates
      ensures qid == IdOf(old(Now()), key) && qid in queues
      ensures queues == old(queues)[qid := Queue(old(Now()), qid)]
      ensures privates == if key == IPC_PRIVATE then old(privates) + 1 else old(privates)
    {
      if key == IPC_PRIVATE {
        qid := Private(privates);
        privates := privates + 1;
      } else {
        qid := Keyed(key);
      }
      if qid !in queues {
        queues := queues[qid := []];
      }
      assert queues == old(queues)[qid := Queue(old(Now()), qid)];
    }

    /** msgrcv scans for the first message of the type, not for the first message. */
    method Scan(qid: QueueId, t: int) returns (i: nat)
      requires qid in queues
      ensures i == FirstOf(queues[qid], t)
    {
      i := 0;
      while i < |queues[qid]| && queues[qid][i].mtype != t
        invariant i <= |queues[qid]|
        invariant forall j :: 0 <= j < i ==> queues[qid][j].mtype != t
      {
        i := i + 1;
      }
    }

    method SendMsg(qid: QueueId, key: int, t: int, time: string, garbage: string)
      requires qid in queues && |garbage| == MTEXT
      modifies this`queues, this`log
      ensures var queue := old(queues)[qid];
        if |queue| >= capacity then
          queues == old(queues) && log == old(log) + [QueueFull(key, t)]
        else
          && queues == old(queues)[qid := queue + [Msg(t, Overlay(garbage, Terminated(MessageText(time))))]]
          && log == old(log) + [Sent(key, t, MessageText(time))]
    {
      var text := MessageText(time);
      if |queues[qid]| >= capacity {
        log := log + [QueueFull(key, t)];
      } else {
        queues := queues[qid := queues[qid] + [Msg(t, Overlay(garbage, Terminated(text)))]];
        log := log + [Sent(key, t, text)];
      }
    }

    method GetMsg(qid: QueueId, key: int, t: int)
      requires qid in queues
      modifies this`queues, this`log
      ensures var queue := old(queues)[qid];
        var i := FirstOf(queue, t);
        if i == |queue| then
          queues == old(queues) && log == old(log) + [NoMessage(key, t)]
        else
          && queues == old(queues)[qid := Remove(queue, i)]
          && log == old(log) + [Received(key, t, CString(queue[i].mtext))]
    {
      var i := Scan(qid, t);
      if i == |queues[qid]| {
        log := log + [NoMessage(key, t)];
      } else {
        var m := queues[qid][i];
        queues := queues[qid := Remove(queues[qid], i)];
        log := log + [Received(key, t, CString(m.mtext))];
      }
    }

    /** main. */
    method Invoke(v: Invocation) returns (p: Parsed)
      requires ValidInvocation(v)
      modifies this
      ensures ParsesTo(v.opts, p) && Now() == Run(old(Now()), p, v)
    {
      p := ParseOptions(v.opts);
      match p
      case Usage => log := log + [UsageShown];
      case Command(mode, t, key) =>
        var qid := MsgGet(key);
        if mode == Receive {
          GetMsg(qid, key, t);
        } else {
          SendMsg(qid, key, t, v.time, v.garbage);
        }
        assert queues == old(queues)[qid := queues[qid]];
    }
  }
}
