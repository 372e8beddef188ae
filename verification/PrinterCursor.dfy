/** What is left of SysV/sem_example.c when only the cursor is looked at: threads that
    check it, load it and store it, none of them excluding another.  How often can it be
    loaded, and how far can it go? */
module PrinterCursor {
  import opened Runs
  import opened Sums
  import opened Counting

  /** A thread before its check, past it, with a loaded value not yet stored, or out of
      its loop. */
  datatype Role = Idle | Ready | Holding(loaded: nat) | Gone

  datatype Cursor = Cursor(len: nat, index: nat, roles: seq<Role>, fetched: seq<nat>)

  ghost predicate Init(c: Cursor) {
    c.index == 0 && c.fetched == [] && |c.roles| > 0 && forall t :: 0 <= t < |c.roles| ==> c.roles[t] == Idle
  }

  function Step(c: Cursor, t: nat): Cursor
    requires t < |c.roles|
  {
    match c.roles[t]
    case Idle => c.(roles := c.roles[t := if c.index >= c.len then Gone else Ready])
    case Ready => c.(roles := c.roles[t := Holding(c.index)], fetched := c.fetched + [c.index])
    case Holding(loaded) => c.(roles := c.roles[t := Idle], index := loaded + 1)
    case Gone => c
  }

  ghost predicate Next(c: Cursor, c': Cursor) {
    exists t: nat :: t < |c.roles| && c.roles[t] != Gone && c' == Step(c, t)
  }

  // ---------- what a thread can still bring about ----------

  /** How far a position is from the end of the text. */
  function Dist(len: nat, i: nat): nat {
    if i < len then len - i else 0
  }

  /** The distance from the end to which a thread's next store takes the cursor, if the
      cursor stays where it is until then. */
  function Level(len: nat, index: nat, r: Role): nat {
    match r
    case Holding(loaded) => Dist(len, loaded + 1)
    case Gone => 0
    case _ => Dist(len, index + 1)
  }

  function IsBelow(len: nat, index: nat, u: nat): Role -> int {
    r => if Level(len, index, r) < u then 1 else 0
  }

  function Waits(r: Role): int {
    if r == Idle || r == Ready then 1 else 0
  }

  /** How many threads are at a level below `u`. */
  function Below(c: Cursor, u: nat): (n: nat)
    ensures n <= |c.roles|
  {
    TotalWithin(IsBelow(c.len, c.index, u), c.roles, 0, 1);
    Total(IsBelow(c.len, c.index, u), c.roles)
  }

  function Waiting(c: Cursor): (n: nat)
    ensures n <= |c.roles|
  {
    TotalWithin(Waits, c.roles, 0, 1);
    Total(Waits, c.roles)
  }

  function Less(a: nat, b: nat): nat {
    if a >= b then a - b else 0
  }

  /** What the threads have used up of the ways to be at levels below the length.  The
      first `s` threads at a level are free of charge. */
  function Spent(c: Cursor, s: nat, u: nat): nat {
    if u == 0 then 0 else Spent(c, s, u - 1) + Choices(Less(Below(c, u), s), u + 1)
  }

  // ---------- how a step changes the levels ----------

  /** The waiting threads follow the cursor. */
  lemma {:induction false} CursorMoves(len: nat, i: nat, j: nat, roles: seq<Role>, u: nat)
    ensures var before, after := Total(IsBelow(len, i, u), roles), Total(IsBelow(len, j, u), roles);
      var was, now := Dist(len, i + 1) < u, Dist(len, j + 1) < u;
      && (was == now ==> after == before)
      && (was && !now ==> after == before - Total(Waits, roles))
      && (!was && now ==> after == before + Total(Waits, roles))
  {
    if roles != [] {
      CursorMoves(len, i, j, roles[1..], u);
    }
  }

  lemma {:induction false} WaitingBelow(len: nat, i: nat, roles: seq<Role>, u: nat)
    requires Dist(len, i + 1) < u
    ensures Total(Waits, roles) <= Total(IsBelow(len, i, u), roles)
  {
    if roles != [] {
      WaitingBelow(len, i, roles[1..], u);
    }
  }

  lemma {:induction false} BelowMonotone(len: nat, i: nat, roles: seq<Role>, u: nat, v: nat)
    requires u <= v
    ensures Total(IsBelow(len, i, u), roles) <= Total(IsBelow(len, i, v), roles)
  {
    if roles != [] {
      BelowMonotone(len, i, roles[1..], u, v);
    }
  }

  /** Checks and loads leave every level as it is. */
  lemma QuietBelow(c: Cursor, t: nat, u: nat)
    requires t < |c.roles| && !c.roles[t].Holding?
    ensures Below(Step(c, t), u) == Below(c, u)
  {
    TotalUpdate(IsBelow(c.len, c.index, u), c.roles, t, Step(c, t).roles[t]);
  }

  lemma StoreBelow(c: Cursor, t: nat, u: nat)
    requires t < |c.roles| && c.roles[t].Holding?
    ensures var l, below, below' := c.roles[t].loaded, Below(c, u), Below(Step(c, t), u);
      var d, e := Dist(c.len, l + 1), Dist(c.len, c.index);
      && (e < d && (u <= Dist(c.len, c.index + 1) || d < u) ==> below' == below)
      && (e < d && Dist(c.len, c.index + 1) < u < d ==> below' == below - Waiting(c))
      && (e < d && u == d ==> below' == below + 1)
      && (d <= e ==> below <= below')
      && (0 < d <= e && u == d ==> below + 1 <= below')
  {
    var l := c.roles[t].loaded;
    assert Waiting(c) == Total(Waits, c.roles);
    CursorMoves(c.len, c.index, l + 1, c.roles, u);
    TotalUpdate(IsBelow(c.len, l + 1, u), c.roles, t, Idle);
  }

  lemma {:induction false} QuietSpent(c: Cursor, t: nat, s: nat, u: nat)
    requires t < |c.roles| && !c.roles[t].Holding?
    ensures Spent(Step(c, t), s, u) == Spent(c, s, u)
  {
    if u > 0 {
      QuietSpent(c, t, s, u - 1);
      QuietBelow(c, t, u);
    }
  }

  // ---------- stores that do not take the cursor back ----------

  lemma ForwardTerm(c: Cursor, t: nat, s: nat, u: nat)
    requires t < |c.roles| && c.roles[t].Holding? && u > 0
    requires Dist(c.len, c.roles[t].loaded + 1) <= Dist(c.len, c.index)
    ensures Choices(Less(Below(c, u), s), u + 1) <= Choices(Less(Below(Step(c, t), u), s), u + 1)
    ensures s == 0 && u == Dist(c.len, c.roles[t].loaded + 1) ==>
              Choices(Below(c, u), u + 1) + 1 <= Choices(Below(Step(c, t), u), u + 1)
  {
    StoreBelow(c, t, u);
    var b, b' := Below(c, u), Below(Step(c, t), u);
    MoreKinds(Less(b, s), Less(b', s), u + 1);
    if u == Dist(c.len, c.roles[t].loaded + 1) {
      SomeChoice(b + 1, u);
      WithNewKind(b, u);
      MoreKinds(b + 1, b', u + 1);
    }
  }

  lemma {:induction false} ForwardSpent(c: Cursor, t: nat, s: nat, u: nat)
    requires t < |c.roles| && c.roles[t].Holding?
    requires Dist(c.len, c.roles[t].loaded + 1) <= Dist(c.len, c.index)
    ensures Spent(c, s, u) <= Spent(Step(c, t), s, u)
    ensures s == 0 && 0 < Dist(c.len, c.roles[t].loaded + 1) <= u ==>
              Spent(c, s, u) + 1 <= Spent(Step(c, t), s, u)
  {
    if u > 0 {
      ForwardSpent(c, t, s, u - 1);
      ForwardTerm(c, t, s, u);
    }
  }

  // ---------- stores that take the cursor back ----------

  ghost predicate TakesBack(c: Cursor, t: nat) {
    t < |c.roles| && c.roles[t].Holding? && Dist(c.len, c.index) < Dist(c.len, c.roles[t].loaded + 1)
  }

  /** The level of a store. */
  function Height(c: Cursor, t: nat): nat
    requires t < |c.roles| && c.roles[t].Holding?
  {
    Dist(c.len, c.roles[t].loaded + 1)
  }

  lemma WaitingLow(c: Cursor, t: nat)
    requires TakesBack(c, t)
    ensures Waiting(c) <= Below(c, Height(c, t))
  {
    WaitingBelow(c.len, c.index, c.roles, Height(c, t));
  }

  /** What is below the height of a store, with the first `s` free, and what of it does
      not wait for the cursor. */
  function Under(c: Cursor, t: nat, s: nat): nat
    requires t < |c.roles| && c.roles[t].Holding?
  {
    Less(Below(c, Height(c, t)), s)
  }

  function Fixed(c: Cursor, t: nat, s: nat): nat
    requires t < |c.roles| && c.roles[t].Holding?
  {
    Less(Below(c, Height(c, t)), Waiting(c) + s)
  }

  /** Below its height the store costs at most what lifting all waiting threads costs. */
  lemma BackTerm(c: Cursor, t: nat, s: nat, u: nat)
    requires TakesBack(c, t) && 0 < u < Height(c, t)
    ensures Choices(Less(Below(c, u), s), u + 1) - Choices(Less(Below(Step(c, t), u), s), u + 1)
         <= Choices(Under(c, t, s), u + 1) - Choices(Fixed(c, t, s), u + 1)
  {
    StoreBelow(c, t, u);
    BelowMonotone(c.len, c.index, c.roles, u, Height(c, t));
    var a, a', b := Under(c, t, s), Fixed(c, t, s), Below(c, u);
    MoreKinds(a', a, u + 1);
    if Dist(c.len, c.index + 1) < u {
      WaitingBelow(c.len, c.index, c.roles, u);
      var b' := Less(b - Waiting(c), s);
      Convex(b', Less(b, s) - b', a', a - a', u + 1);
    }
  }

  /** What lifting the waiting threads costs at all levels up to `u`. */
  function Lift(c: Cursor, t: nat, s: nat, u: nat): int
    requires t < |c.roles| && c.roles[t].Holding?
  {
    (Choices(Under(c, t, s) + 1, u + 1) - Under(c, t, s)) - (Choices(Fixed(c, t, s) + 1, u + 1) - Fixed(c, t, s))
  }

  lemma LiftStep(c: Cursor, t: nat, s: nat, u: nat)
    requires t < |c.roles| && c.roles[t].Holding? && u > 0
    ensures Lift(c, t, s, u)
         == Lift(c, t, s, u - 1) + Choices(Under(c, t, s), u + 1) - Choices(Fixed(c, t, s), u + 1)
  {
    WithNewKind(Under(c, t, s), u);
    WithNewKind(Fixed(c, t, s), u);
  }

  lemma {:induction false} BackBelow(c: Cursor, t: nat, s: nat, u: nat)
    requires TakesBack(c, t) && u < Height(c, t)
    ensures Spent(c, s, u) - Spent(Step(c, t), s, u) <= Lift(c, t, s, u)
  {
    if u == 0 {
      SizeOne(Under(c, t, s) + 1);
      SizeOne(Fixed(c, t, s) + 1);
    } else {
      BackBelow(c, t, s, u - 1);
      BackTerm(c, t, s, u);
      LiftStep(c, t, s, u);
    }
  }

  /** At its height the store pays all of that back and more, unless few are below. */
  function Gain(c: Cursor, t: nat, s: nat): int
    requires t < |c.roles| && c.roles[t].Holding?
  {
    if Below(c, Height(c, t)) < s then 0
    else Under(c, t, s) - Fixed(c, t, s) + Choices(Fixed(c, t, s) + 1, Height(c, t))
  }

  lemma BackAt(c: Cursor, t: nat, s: nat)
    requires TakesBack(c, t)
    ensures Spent(Step(c, t), s, Height(c, t)) - Spent(c, s, Height(c, t)) >= Gain(c, t, s)
  {
    var d := Height(c, t);
    BackBelow(c, t, s, d - 1);
    StoreBelow(c, t, d);
    WithNewKind(Under(c, t, s), d);
  }

  lemma {:induction false} BackSpent(c: Cursor, t: nat, s: nat, u: nat)
    requires TakesBack(c, t) && Height(c, t) <= u
    ensures Spent(Step(c, t), s, u) - Spent(c, s, u) >= Gain(c, t, s)
    decreases u
  {
    if u == Height(c, t) {
      BackAt(c, t, s);
    } else {
      BackSpent(c, t, s, u - 1);
      StoreBelow(c, t, u);
    }
  }

  // ---------- the threads that can load ----------

  function IsReady(r: Role): int {
    if r == Ready then 1 else 0
  }

  /** A thread whose store will leave the cursor inside the text. */
  function HoldsLow(len: nat): Role -> int {
    (r: Role) => if r.Holding? && r.loaded + 1 < len then 1 else 0
  }

  function Readies(c: Cursor): (n: nat)
    ensures n <= |c.roles|
  {
    TotalWithin(IsReady, c.roles, 0, 1);
    Total(IsReady, c.roles)
  }

  function Low(c: Cursor): (n: nat)
    ensures n <= |c.roles|
  {
    TotalWithin(HoldsLow(c.len), c.roles, 0, 1);
    Total(HoldsLow(c.len), c.roles)
  }

  /** The threads that will load before anyone has to store. */
  function Credit(c: Cursor): nat {
    if c.index < c.len then Waiting(c) else Readies(c)
  }

  lemma {:induction false} ReadyWaits(roles: seq<Role>)
    ensures Total(IsReady, roles) <= Total(Waits, roles)
  {
    if roles != [] {
      ReadyWaits(roles[1..]);
    }
  }

  lemma StepCounts(c: Cursor, t: nat)
    requires t < |c.roles| && c.roles[t] != Gone
    ensures var c', r := Step(c, t), c.roles[t];
      && c'.len == c.len && |c'.roles| == |c.roles|
      && Waiting(c') == Waiting(c) - Waits(r) + Waits(c'.roles[t])
      && Readies(c') == Readies(c) - IsReady(r) + IsReady(c'.roles[t])
      && Low(c') == Low(c) - HoldsLow(c.len)(r) + HoldsLow(c.len)(c'.roles[t])
      && Readies(c) <= Waiting(c)
  {
    var r' := Step(c, t).roles[t];
    TotalUpdate(Waits, c.roles, t, r');
    TotalUpdate(IsReady, c.roles, t, r');
    TotalUpdate(HoldsLow(c.len), c.roles, t, r');
    ReadyWaits(c.roles);
  }

  // ---------- how often the cursor can be loaded ----------

  ghost predicate SameSize(c: Cursor, c': Cursor) {
    c'.len == c.len && |c'.roles| == |c.roles|
  }

  function Potential(c: Cursor): int {
    |c.fetched| + Credit(c) - Spent(c, 0, c.len)
  }

  /** Every load uses up one credit, and new credit is paid for by levels. */
  lemma LoadsStep(c: Cursor, t: nat)
    requires t < |c.roles| && c.roles[t] != Gone
    ensures Potential(Step(c, t)) <= Potential(c) && SameSize(c, Step(c, t))
  {
    StepCounts(c, t);
    if !c.roles[t].Holding? {
      QuietSpent(c, t, 0, c.len);
    } else if TakesBack(c, t) {
      BackSpent(c, t, 0, c.len);
      WaitingLow(c, t);
      SomeChoice(Fixed(c, t, 0) + 1, Height(c, t));
    } else {
      ForwardSpent(c, t, 0, c.len);
    }
  }

  lemma {:induction false} SpentWithin(c: Cursor, s: nat, u: nat)
    ensures var a := Less(|c.roles|, s);
      Spent(c, s, u) <= Choices(a + 1, u + 1) - a - 1
  {
    var a := Less(|c.roles|, s);
    if u == 0 {
      SizeOne(a + 1);
    } else {
      SpentWithin(c, s, u - 1);
      MoreKinds(Less(Below(c, u), s), a, u + 1);
      WithNewKind(a, u);
    }
  }

  /** At first nothing is below the last level. */
  lemma {:induction false} InitSpent(c: Cursor, s: nat, u: nat)
    requires Init(c) && u <= c.len
    ensures Spent(c, s, u) == if 0 < u == c.len then Choices(Less(|c.roles|, s), u + 1) else 0
  {
    if u > 0 {
      InitSpent(c, s, u - 1);
      TotalConstant(IsBelow(c.len, c.index, u), c.roles, if u == c.len then 1 else 0);
    }
  }

  lemma InitCounts(c: Cursor)
    requires Init(c)
    ensures Waiting(c) == |c.roles| && Readies(c) == 0 && Low(c) == 0
  {
    TotalConstant(Waits, c.roles, 1);
    TotalConstant(IsReady, c.roles, 0);
    TotalConstant(HoldsLow(c.len), c.roles, 0);
  }

  /** No schedule of N threads loads the cursor more often than Choices(N + 1, len) - 1
      times, a binomial coefficient less one: C(len + N, N) - 1. */
  lemma LoadsBounded(tr: seq<Cursor>)
    requires IsRun(Next, tr) && Init(tr[0])
    ensures SameSize(tr[0], Last(tr))
    ensures |Last(tr).fetched| <= Choices(|tr[0].roles| + 1, tr[0].len) - 1
  {
    var c0 := tr[0];
    var start := Potential(c0);
    var inv := c => SameSize(c0, c) && Potential(c) <= start;
    forall c, c' | inv(c) && Next(c, c') ensures inv(c') {
      var t: nat :| t < |c.roles| && c.roles[t] != Gone && c' == Step(c, t);
      LoadsStep(c, t);
    }
    Invariant(Next, inv, tr);
    InitSpent(c0, 0, c0.len);
    InitCounts(c0);
    SpentWithin(Last(tr), 0, c0.len);
  }

  // ---------- how far the cursor can go ----------

  /** The threads that can still carry the cursor on from behind the text, without
      counting one that must be there already. */
  function Climbers(c: Cursor): int
    requires |c.roles| > 0
  {
    var alive := Credit(c) + Low(c);
    if alive < |c.roles| then alive else |c.roles| - 1
  }

  /** What stays below the limit while the cursor climbs. */
  function Room(c: Cursor, limit: int): int
    requires |c.roles| > 0
  {
    limit + Spent(c, 2, c.len) - Climbers(c)
  }

  ghost predicate Climbing(c: Cursor, limit: int) {
    && |c.roles| > 0
    && (c.index >= c.len ==> Credit(c) + Low(c) < |c.roles|)
    && c.len <= Room(c, limit)
    && c.index <= Room(c, limit)
    && (forall t :: 0 <= t < |c.roles| && c.roles[t].Holding? ==> c.roles[t].loaded + 1 <= Room(c, limit))
  }

  /** Who is not below a level from one on holds a position inside the text. */
  lemma {:induction false} BelowOrLow(len: nat, i: nat, roles: seq<Role>, u: nat)
    requires u > 0 && Dist(len, i + 1) < u
    ensures Total(IsBelow(len, i, u), roles) + Total(HoldsLow(len), roles) >= |roles|
  {
    if roles != [] {
      BelowOrLow(len, i, roles[1..], u);
    }
  }

  lemma BackRoom(c: Cursor, t: nat, limit: int)
    requires TakesBack(c, t)
    ensures Room(c, limit) <= Room(Step(c, t), limit)
  {
    StepCounts(c, t);
    BackSpent(c, t, 2, c.len);
    WaitingLow(c, t);
    SomeChoice(Fixed(c, t, 2) + 1, Height(c, t));
    BelowOrLow(c.len, c.index, c.roles, Height(c, t));
    assert Below(c, Height(c, t)) + Low(c) >= |c.roles|;
  }

  lemma {:induction false} ReadyOrLow(len: nat, roles: seq<Role>)
    ensures Total(IsReady, roles) + Total(HoldsLow(len), roles) <= |roles|
  {
    if roles != [] {
      ReadyOrLow(len, roles[1..]);
    }
  }

  /** A thread that has just stored will not load again if that was behind the text. */
  lemma OneIdle(c: Cursor, t: nat)
    requires t < |c.roles| && c.roles[t] == Idle
    ensures Readies(c) + Low(c) < |c.roles|
  {
    TotalUpdate(IsReady, c.roles, t, Ready);
    TotalUpdate(HoldsLow(c.len), c.roles, t, Ready);
    ReadyOrLow(c.len, c.roles[t := Ready]);
  }

  /** The room never shrinks, and a load behind the text makes some. */
  lemma RoomStep(c: Cursor, t: nat, limit: int)
    requires t < |c.roles| && c.roles[t] != Gone && Climbing(c, limit)
    ensures Room(c, limit) <= Room(Step(c, t), limit)
    ensures c.roles[t] == Ready && c.index >= c.len ==> Room(c, limit) + 1 <= Room(Step(c, t), limit)
    ensures var c' := Step(c, t); c'.index >= c'.len ==> Credit(c') + Low(c') < |c'.roles|
  {
    StepCounts(c, t);
    if !c.roles[t].Holding? {
      QuietSpent(c, t, 2, c.len);
    } else if TakesBack(c, t) {
      BackRoom(c, t, limit);
    } else {
      ForwardSpent(c, t, 2, c.len);
      OneIdle(Step(c, t), t);
    }
  }

  lemma ClimbingStep(c: Cursor, t: nat, limit: int)
    requires t < |c.roles| && c.roles[t] != Gone && Climbing(c, limit)
    ensures Climbing(Step(c, t), limit)
  {
    RoomStep(c, t, limit);
  }

  /** The limit that leaves just the length at first. */
  function Limit(c: Cursor): int
    requires |c.roles| > 0
  {
    c.len + |c.roles| - 1 - Choices(Less(|c.roles|, 2), c.len + 1)
  }

  /** The furthest the cursor can be carried. */
  function Furthest(n: nat, len: nat): nat
    requires n > 0
  {
    len + Choices(n - 1, len)
  }

  lemma InitClimbing(c: Cursor)
    requires Init(c) && c.len > 0
    ensures Climbing(c, Limit(c))
  {
    InitSpent(c, 2, c.len);
    InitCounts(c);
  }

  lemma ClimbingWithin(c: Cursor)
    requires |c.roles| > 0 && c.len > 0
    ensures Room(c, Limit(c)) <= Furthest(|c.roles|, c.len)
  {
    SpentWithin(c, 2, c.len);
    WithNewKind(Less(|c.roles|, 2), c.len);
    OneKind(c.len);
  }

  ghost predicate FetchedBefore(c: Cursor, n: nat) {
    forall i :: i in c.fetched ==> i < n
  }

  ghost predicate Within(c: Cursor) {
    && |c.roles| > 0
    && c.len > 0
    && Climbing(c, Limit(c))
    && FetchedBefore(c, Furthest(|c.roles|, c.len))
  }

  lemma WithinStep(c: Cursor, t: nat)
    requires t < |c.roles| && c.roles[t] != Gone && Within(c)
    ensures Within(Step(c, t)) && SameSize(c, Step(c, t))
  {
    var c' := Step(c, t);
    ClimbingStep(c, t, Limit(c));
    ClimbingWithin(c');
    assert c.roles[t] == Ready ==> c'.roles[t].loaded + 1 <= Room(c', Limit(c));
  }

  /** No schedule of N threads carries the cursor beyond len + Choices(N - 1, len), so
      every position read lies before that. */
  lemma ReachBounded(tr: seq<Cursor>)
    requires IsRun(Next, tr) && Init(tr[0]) && tr[0].len > 0
    ensures SameSize(tr[0], Last(tr))
    ensures Last(tr).index <= Furthest(|tr[0].roles|, tr[0].len)
    ensures FetchedBefore(Last(tr), Furthest(|tr[0].roles|, tr[0].len))
  {
    var c0 := tr[0];
    var inv := c => SameSize(c0, c) && Within(c);
    forall c, c' | inv(c) && Next(c, c') ensures inv(c') {
      var t: nat :| t < |c.roles| && c.roles[t] != Gone && c' == Step(c, t);
      WithinStep(c, t);
    }
    InitClimbing(c0);
    Invariant(Next, inv, tr);
    ClimbingWithin(Last(tr));
  }
}
