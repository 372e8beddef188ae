/** SysV/sem_example.c with the semaphore off: how long it can run, how far it can read,
    and exactly when it prints a character twice or reads behind its buffer. */
module PrinterUnlocked {
  import opened Runs
  import opened Counting
  import opened PrinterModel
  import opened PrinterOutput
  import opened PrinterShadow
  import C = PrinterCursor
  import S = PrinterSchedules

  // ---------- every schedule ends ----------

  /** The most positions `n` threads can fetch from a text: C(len + n, n) - 1. */
  function MostFetched(n: nat, len: nat): nat {
    SomeChoice(n + 1, len);
    Choices(n + 1, len) - 1
  }

  function MostSteps(n: nat, len: nat): nat {
    6 * MostFetched(n, len) + 4 * n
  }

  /** In either mode every schedule of N threads ends, although without the semaphore the
      cursor goes back and forth: it takes at most 6 steps for each of C(len + N, N) - 1
      positions and 4 more a thread. */
  lemma RunsAreFinite(tr: seq<State>)
    requires IsRun(Next, tr) && Init(tr[0])
    ensures |Last(tr).fetched| <= MostFetched(|tr[0].threads|, |tr[0].text|)
    ensures |tr| - 1 <= MostSteps(|tr[0].threads|, |tr[0].text|)
  {
    var ctr := Shadow(tr);
    C.LoadsBounded(ctr);
    RunLength(tr);
  }

  /** Every run can be continued until all threads have exited. */
  lemma {:induction false} Finish(tr: seq<State>) returns (tr': seq<State>)
    requires IsRun(Next, tr) && Init(tr[0])
    ensures IsRun(Next, tr') && tr'[0] == tr[0] && AllExited(Last(tr'))
    ensures Last(tr).fetched <= Last(tr').fetched
    decreases MostSteps(|tr[0].threads|, |tr[0].text|) + 1 - |tr|
  {
    tr' := tr;
    if !AllExited(Last(tr)) {
      tr' := OneMore(tr);
      RunsAreFinite(tr');
      tr' := Finish(tr');
    }
  }

  /** The bound is exact for every text and every number of threads. */
  lemma LongestRun(s: State) returns (tr: seq<State>)
    requires Init(s) && !s.semUse
    ensures IsRun(Next, tr) && tr[0] == s
    ensures |Last(tr).fetched| == MostFetched(|s.threads|, |s.text|)
    ensures |tr| - 1 == MostSteps(|s.threads|, |s.text|)
  {
    var ctr := S.MostLoads(View(s));
    tr := Imitate(s, ctr);
    assert |Last(tr).fetched| == MostFetched(|s.threads|, |s.text|);
    tr := Finish(tr);
    RunsAreFinite(tr);
    RunLength(tr);
  }

  // ---------- how far a thread reads ----------

  /** The positions below which all reads stay. */
  function ReadLimit(n: nat, len: nat): nat
    requires n > 0
  {
    len + Choices(n - 1, len)
  }

  /** In either mode every position read lies below len + C(len + N - 2, N - 2). */
  lemma ReadsBounded(tr: seq<State>, i: nat)
    requires IsRun(Next, tr) && Init(tr[0]) && i in Last(tr).fetched
    ensures i < ReadLimit(|tr[0].threads|, |tr[0].text|)
  {
    var ctr := Shadow(tr);
    if |tr[0].text| == 0 {
      RunsAreFinite(tr);
    } else {
      C.ReachBounded(ctr);
    }
  }

  /** With the semaphore off the last position below the limit is read in some run. */
  lemma LimitReached(s: State) returns (tr: seq<State>)
    requires Init(s) && !s.semUse && |s.text| > 0
    ensures IsRun(Next, tr) && tr[0] == s
    ensures ReadLimit(|s.threads|, |s.text|) - 1 in Last(tr).fetched
  {
    var ctr := S.FurthestReached(View(s));
    tr := Imitate(s, ctr);
  }

  /** The limit for few threads: one stays inside the text, two read its terminator at
      most, three reach twice the length. */
  lemma FewThreads(len: nat)
    requires len > 0
    ensures ReadLimit(1, len) - 1 == len - 1
    ensures ReadLimit(2, len) - 1 == len
    ensures ReadLimit(3, len) - 1 == 2 * len
  {
    OneKind(len);
    TwoKinds(len);
  }

  ghost predicate ReadsUpTo(s: State, last: int) {
    forall tr :: IsRun(Next, tr) && tr[0] == s ==> forall i :: i in Last(tr).fetched ==> i <= last
  }

  /** Without the semaphore every position read, in every run, is at most the last one
      below the limit, and that is the least such bound. */
  lemma ReadsUpToIff(s: State, last: int)
    requires Init(s) && !s.semUse && |s.text| > 0
    ensures ReadsUpTo(s, last) <==> ReadLimit(|s.threads|, |s.text|) - 1 <= last
  {
    var tr := LimitReached(s);
    if ReadLimit(|s.threads|, |s.text|) - 1 <= last {
      forall tr', i | IsRun(Next, tr') && tr'[0] == s && i in Last(tr').fetched ensures i <= last {
        ReadsBounded(tr', i);
      }
    }
  }

  /** Reads stay within N - 2 positions behind the text, one for each thread but the
      first two, exactly if there are at most two threads or the text is one character. */
  lemma OvershootIff(s: State)
    requires Init(s) && !s.semUse && |s.text| > 0
    ensures ReadsUpTo(s, |s.text| + |s.threads| - 2) <==> |s.threads| <= 2 || |s.text| == 1
  {
    ReadsUpToIff(s, |s.text| + |s.threads| - 2);
    MoreChoicesThanKinds(|s.threads| - 1, |s.text|);
  }

  /** Every read stays inside shared_buf, terminator included, exactly if the semaphore is
      used or there are at most two threads, or there is no text. */
  lemma InsideIff(s: State)
    requires Init(s)
    ensures ReadsUpTo(s, |s.text|) <==> s.semUse || |s.threads| <= 2 || |s.text| == 0
  {
    if s.semUse || |s.text| == 0 {
      forall tr, i | IsRun(Next, tr) && tr[0] == s && i in Last(tr).fetched ensures i <= |s.text| {
        if s.semUse { CursorProtected(tr); } else { RunsAreFinite(tr); }
      }
    } else {
      ReadsUpToIff(s, |s.text|);
      FewThreads(|s.text|);
      if |s.threads| > 2 {
        MoreKinds(2, |s.threads| - 1, |s.text|);
      }
    }
  }

  // ---------- exactly once ----------

  ghost predicate FetchedTwice(s: State) {
    exists j, k :: 0 <= j < k < |s.fetched| && s.fetched[j] == s.fetched[k]
  }

  /** Both threads pass the check, both load the same value. */
  lemma SameCharacterTwice(s: State) returns (tr: seq<State>)
    requires Init(s) && !s.semUse && |s.threads| >= 2 && |s.text| > 0
    ensures IsRun(Next, tr) && tr[0] == s
    ensures Last(tr).fetched == [0, 0]
  {
    var ctr := S.SamePositionTwice(View(s));
    tr := Imitate(s, ctr);
  }

  /** Some run fetches a position twice exactly if the semaphore is off and there are two
      threads or more and a character to race for. */
  lemma TwiceIff(s: State)
    requires Init(s)
    ensures (exists tr :: IsRun(Next, tr) && tr[0] == s && FetchedTwice(Last(tr)))
       <==> !(s.semUse || |s.threads| == 1 || |s.text| == 0)
  {
    if s.semUse || |s.threads| == 1 || |s.text| == 0 {
      forall tr | IsRun(Next, tr) && tr[0] == s ensures !FetchedTwice(Last(tr)) {
        if |s.text| == 0 { RunsAreFinite(tr); } else { CursorProtected(tr); }
      }
    } else {
      var tr := SameCharacterTwice(s);
      assert Last(tr).fetched[0] == Last(tr).fetched[1];
    }
  }

  /** The output is the text, up to order and case. */
  ghost predicate PrintedOnce(s: State) {
    multiset(Folded(s.out)) == multiset(Folded(s.text))
  }

  /** The race ends in an output that is longer than the text. */
  lemma PrintsTooMuch(s: State) returns (tr: seq<State>)
    requires Init(s) && !s.semUse && |s.threads| >= 2 && |s.text| > 0
    ensures IsRun(Next, tr) && tr[0] == s && AllExited(Last(tr))
    ensures |Last(tr).out| > |s.text|
  {
    tr := SameCharacterTwice(s);
    tr := Finish(tr);
    NothingLost(tr);
    CommonRun(tr);
    var f := Last(tr).fetched;
    assert ThreadCovered(f, |s.text|, Last(tr).threads[0]);
    assert f[0] == f[1] == 0;
    forall i: nat | i < |s.text| ensures i in f[1..] {
      assert i in f;
      var k :| 0 <= k < |f| && f[k] == i;
      assert f[1..][if k == 0 then 0 else k - 1] == i;
    }
    CoveredShown(s.text, f[1..], |s.text|);
  }

  /** Every complete run prints each character of the text exactly once, exactly if the
      semaphore is used or there is one thread or no text. */
  lemma PrintedOnceIff(s: State)
    requires Init(s)
    ensures (forall tr :: IsRun(Next, tr) && tr[0] == s && AllExited(Last(tr)) ==> PrintedOnce(Last(tr)))
       <==> s.semUse || |s.threads| == 1 || |s.text| == 0
  {
    if s.semUse || |s.threads| == 1 || |s.text| == 0 {
      forall tr | IsRun(Next, tr) && tr[0] == s && AllExited(Last(tr)) ensures PrintedOnce(Last(tr)) {
        CommonRun(tr);
        if |s.text| == 0 {
          RunsAreFinite(tr);
          NothingLost(tr);
        } else {
          CompleteAtAnyExit(tr, 0);
        }
      }
    } else {
      var tr := PrintsTooMuch(s);
      CommonRun(tr);
      assert |multiset(Folded(Last(tr).out))| != |multiset(Folded(s.text))|;
    }
  }
}
