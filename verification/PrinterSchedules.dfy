/** Schedules of the cursor that reach the bounds of `PrinterCursor`. */
module PrinterSchedules {
  import opened Runs
  import opened Counting
  import opened PrinterCursor

  lemma Follow(c0: Cursor, c: Cursor, t: nat) returns (c': Cursor)
    requires Reaches(Next, c0, c) && t < |c.roles| && c.roles[t] != Gone
    ensures Reaches(Next, c0, c') && c' == Step(c, t)
  {
    c' := Step(c, t);
    ReachesStep(Next, c, c');
  }

  /** A thread passes the check and loads. */
  lemma TakeOne(c0: Cursor, c: Cursor, t: nat) returns (c': Cursor)
    requires Reaches(Next, c0, c) && t < |c.roles| && c.roles[t] == Idle
    requires c.index < c.len
    ensures Reaches(Next, c0, c')
    ensures c' == c.(roles := c.roles[t := Holding(c.index)], fetched := c.fetched + [c.index])
  {
    c' := Follow(c0, c, t);
    c' := Follow(c0, c', t);
  }

  lemma Store(c0: Cursor, c: Cursor, t: nat, value: nat) returns (c': Cursor)
    requires Reaches(Next, c0, c) && t < |c.roles| && c.roles[t] == Holding(value)
    ensures Reaches(Next, c0, c')
    ensures c' == c.(roles := c.roles[t := Idle], index := value + 1)
  {
    c' := Follow(c0, c, t);
  }

  /** A thread goes once round its loop undisturbed. */
  lemma Round(c0: Cursor, c: Cursor, t: nat) returns (c': Cursor)
    requires Reaches(Next, c0, c) && t < |c.roles| && c.roles[t] == Idle && c.index < c.len
    ensures Reaches(Next, c0, c')
    ensures c' == c.(index := c.index + 1, fetched := c.fetched + [c.index])
  {
    c' := TakeOne(c0, c, t);
    c' := Store(c0, c', t, c.index);
    assert c'.roles == c.roles;
  }

  // ---------- the most loads ----------

  /** How often `n` threads can load from a place on. */
  function Loads(n: nat, len: nat, i: nat): int {
    Choices(n + 1, Dist(len, i)) - 1
  }

  lemma LoadsSplit(n: nat, len: nat, i: nat)
    ensures n == 0 || i >= len ==> Loads(n, len, i) == 0
    ensures n > 0 && i < len ==> Loads(n, len, i) == 1 + Loads(n - 1, len, i) + Loads(n, len, i + 1)
  {
    if n == 0 {
      OneKind(Dist(len, i));
    }
  }

  /** One thread holds the cursor's value while the threads before it use up the text;
      its store then takes the cursor back to one place further on, and all go again. */
  lemma {:induction false} Play(c0: Cursor, c: Cursor, n: nat) returns (c': Cursor)
    requires Reaches(Next, c0, c) && n <= |c.roles|
    requires forall t :: 0 <= t < n ==> c.roles[t] == Idle
    ensures Reaches(Next, c0, c')
    ensures c'.roles == c.roles && c'.len == c.len
    ensures |c'.fetched| == |c.fetched| + Loads(n, c.len, c.index)
    decreases Dist(c.len, c.index), n
  {
    LoadsSplit(n, c.len, c.index);
    if n == 0 || c.index >= c.len {
      c' := c;
    } else {
      c' := TakeOne(c0, c, n - 1);
      c' := Play(c0, c', n - 1);
      c' := Store(c0, c', n - 1, c.index);
      assert c'.roles == c.roles;
      c' := Play(c0, c', n);
    }
  }

  /** The bound on loads is exact for every length and number of threads. */
  lemma MostLoads(c: Cursor) returns (tr: seq<Cursor>)
    requires Init(c)
    ensures IsRun(Next, tr) && tr[0] == c
    ensures |Last(tr).fetched| == Choices(|c.roles| + 1, c.len) - 1
  {
    var c' := Play(c, c, |c.roles|);
    tr := RunTo(Next, c, c');
  }

  // ---------- the furthest position ----------

  ghost predicate AllAre(c: Cursor, group: set<nat>, r: Role) {
    forall t :: t in group ==> t < |c.roles| && c.roles[t] == r
  }

  ghost predicate SameOutside(c: Cursor, c': Cursor, group: set<nat>) {
    && SameSize(c, c')
    && forall t: nat :: t < |c.roles| && t !in group ==> c'.roles[t] == c.roles[t]
  }

  /** In the group only `x` holds a value, and the others are before their checks. */
  ghost predicate HeldBy(c: Cursor, group: set<nat>, x: nat, value: nat) {
    && x in group
    && forall t :: t in group ==> t < |c.roles| && c.roles[t] == if t == x then Holding(value) else Idle
  }

  lemma {:induction false} CheckAll(c0: Cursor, c: Cursor, group: set<nat>) returns (c': Cursor)
    requires Reaches(Next, c0, c) && AllAre(c, group, Idle) && c.index < c.len
    ensures Reaches(Next, c0, c') && SameOutside(c, c', group)
    ensures AllAre(c', group, Ready) && c'.index == c.index
    decreases |group|
  {
    c' := c;
    if group != {} {
      var t :| t in group;
      c' := Follow(c0, c', t);
      c' := CheckAll(c0, c', group - {t});
    }
  }

  /** Threads past the check go on one after another, whatever the cursor is. */
  lemma {:induction false} LoadAll(c0: Cursor, c: Cursor, group: set<nat>) returns (c': Cursor, x: nat)
    requires Reaches(Next, c0, c) && AllAre(c, group, Ready) && group != {}
    ensures Reaches(Next, c0, c') && SameOutside(c, c', group)
    ensures HeldBy(c', group, x, c.index + |group| - 1)
    decreases |group|
  {
    x :| x in group;
    c' := Follow(c0, c, x);
    if group - {x} == {} {
      assert group == {x};
    } else {
      var t := x;
      c' := Follow(c0, c', t);
      c', x := LoadAll(c0, c', group - {t});
    }
  }

  lemma GoTogether(c0: Cursor, c: Cursor, group: set<nat>) returns (c': Cursor, x: nat)
    requires Reaches(Next, c0, c) && AllAre(c, group, Idle) && group != {} && c.index < c.len
    ensures Reaches(Next, c0, c') && c'.len == c.len
    ensures x in group && c'.roles == c.roles[x := Holding(c.index + |group| - 1)]
  {
    c' := CheckAll(c0, c, group);
    c', x := LoadAll(c0, c', group);
    assert forall t: nat :: t < |c.roles| && t in group && t != x ==> c'.roles[t] == c.roles[t];
  }

  /** The value passes from `x` to `x'`. */
  function Passed(roles: seq<Role>, x: nat, x': nat, value: nat): seq<Role>
    requires x < |roles| && x' < |roles|
  {
    roles[x := Idle][x' := Holding(value)]
  }

  /** The others pass the check where the cursor is now, `x` stores its value, and they
      go on from there. */
  lemma Leap(c0: Cursor, c: Cursor, group: set<nat>, x: nat, value: nat) returns (c': Cursor, x': nat)
    requires Reaches(Next, c0, c) && HeldBy(c, group, x, value) && |group| >= 2
    requires c.index < c.len
    ensures Reaches(Next, c0, c') && c'.len == c.len
    ensures x' in group && c'.roles == Passed(c.roles, x, x', value + |group| - 1)
  {
    c' := CheckAll(c0, c, group - {x});
    assert c'.roles[x] == Holding(value);
    c' := Store(c0, c', x, value);
    assert |group - {x}| == |group| - 1;
    c', x' := LoadAll(c0, c', group - {x});
    assert forall t: nat :: t < |c.roles| && t in group ==> t == x || t in group - {x};
  }

  /** How far `m` threads beside the one that holds a value carry it. */
  function Rise(m: nat, len: nat, i: nat): nat {
    Choices(m, Dist(len, i))
  }

  lemma RiseSplit(m: nat, len: nat, i: nat)
    requires i < len
    ensures m <= 1 || i + 1 == len ==> Rise(m, len, i) == m
    ensures m >= 2 && i + 1 < len ==> Rise(m, len, i) == Rise(m - 1, len, i) + Rise(m, len, i + 1)
  {
    SizeOne(m);
    OneKind(Dist(len, i));
  }

  /** A group that holds a value carries it further as long as the cursor is inside the
      text: one thread keeps the cursor's place there while the others go on. */
  lemma {:induction false} Climb(c0: Cursor, c: Cursor, group: set<nat>, x: nat, value: nat)
    returns (c': Cursor, x': nat)
    requires Reaches(Next, c0, c) && HeldBy(c, group, x, value) && |group| >= 2
    requires c.index < c.len
    ensures Reaches(Next, c0, c') && c'.len == c.len
    ensures x' in group
    ensures var rise := Rise(|group| - 1, c.len, c.index);
      c'.roles == Passed(c.roles, x, x', value + rise)
    decreases |group| + c.len - c.index
  {
    RiseSplit(|group| - 1, c.len, c.index);
    if c.index + 1 == c.len || |group| == 2 {
      c', x' := Leap(c0, c, group, x, value);
    } else {
      var z := Another(group, x);
      c' := TakeOne(c0, c, z);
      c', x' := Climb(c0, c', group - {z}, x, value);
      var value' := value + Rise(|group| - 2, c.len, c.index);
      c' := Store(c0, c', z, c.index);
      assert c'.roles == Passed(c.roles, x, x', value');
      var y := x';
      c', x' := Climb(c0, c', group, y, value');
      assert Passed(Passed(c.roles, x, y, value'), y, x', 0) == Passed(c.roles, x, x', 0);
    }
  }

  lemma Another(group: set<nat>, x: nat) returns (z: nat)
    requires |group| >= 2 && x in group
    ensures z in group && z != x && |group - {z}| == |group| - 1 && x in group - {z}
  {
    assert |group - {x}| == |group| - 1;
    z :| z in group - {x};
  }

  lemma {:induction false} Start(c0: Cursor, c: Cursor, group: set<nat>) returns (c': Cursor, x: nat)
    requires Reaches(Next, c0, c) && AllAre(c, group, Idle) && group != {}
    requires c.index < c.len
    ensures Reaches(Next, c0, c') && c'.len == c.len
    ensures x in group
    ensures var rise := Rise(|group| - 1, c.len, c.index);
      c'.roles == c.roles[x := Holding(c.len - 1 + rise)]
    decreases |group| + c.len - c.index
  {
    RiseSplit(|group| - 1, c.len, c.index);
    if c.index + 1 == c.len {
      c', x := GoTogether(c0, c, group);
    } else {
      var z :| z in group;
      if |group| <= 2 {
        c' := Round(c0, c, z);
        RiseSplit(|group| - 1, c.len, c.index + 1);
        c', x := Start(c0, c', group);
      } else {
        c' := TakeOne(c0, c, z);
        assert |group - {z}| == |group| - 1;
        c', x := Start(c0, c', group - {z});
        var value := c.len - 1 + Rise(|group| - 2, c.len, c.index);
        c' := Store(c0, c', z, c.index);
        assert c'.roles == c.roles[x := Holding(value)];
        var y := x;
        c', x := Climb(c0, c', group, y, value);
      }
    }
  }

  /** What a thread holds it has fetched. */
  lemma HeldFetched(tr: seq<Cursor>, t: nat)
    requires IsRun(Next, tr) && Init(tr[0])
    requires t < |Last(tr).roles| && Last(tr).roles[t].Holding?
    ensures Last(tr).roles[t].loaded in Last(tr).fetched
  {
    var inv := (c: Cursor) =>
      forall u :: 0 <= u < |c.roles| && c.roles[u].Holding? ==> c.roles[u].loaded in c.fetched;
    Invariant(Next, inv, tr);
  }

  /** The bound on positions is exact for every text that is not empty and every number
      of threads. */
  lemma FurthestReached(c: Cursor) returns (tr: seq<Cursor>)
    requires Init(c) && c.len > 0
    ensures IsRun(Next, tr) && tr[0] == c
    ensures Furthest(|c.roles|, c.len) > 0 && Furthest(|c.roles|, c.len) - 1 in Last(tr).fetched
  {
    var c', x := Start(c, c, Threads(|c.roles|));
    tr := RunTo(Next, c, c');
    HeldFetched(tr, x);
  }

  function Threads(n: nat): (r: set<nat>)
    ensures |r| == n && forall t: nat :: t in r <==> t < n
  {
    if n == 0 then {} else Threads(n - 1) + {n - 1}
  }

  /** Two threads that both pass the check before either stores fetch the same position. */
  lemma SamePositionTwice(c: Cursor) returns (tr: seq<Cursor>)
    requires Init(c) && c.len > 0 && |c.roles| >= 2
    ensures IsRun(Next, tr) && tr[0] == c
    ensures Last(tr).fetched == [0, 0]
  {
    var c' := TakeOne(c, c, 0);
    c' := TakeOne(c, c', 1);
    tr := RunTo(Next, c, c');
  }
}
