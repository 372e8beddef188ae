/** What reaches the output of SysV/sem_example.c whatever the mode: the characters at
    the positions fetched, and with them every character of the text. */
module PrinterOutput {
  import opened Runs
  import opened PrinterModel

  /** The characters at the positions, without regard to case. */
  function Cells(text: string, positions: seq<nat>): (r: string)
    ensures |r| == |positions|
  {
    seq(|positions|, k requires 0 <= k < |positions| => ToLower(Cell(text, positions[k])))
  }

  /** The character a thread has fetched and not yet printed, without regard to case. */
  function Held(text: string, th: Thread): multiset<char> {
    match th.pc
    case AtStore => multiset{ToLower(Cell(text, th.loaded))}
    case AtPut => multiset{ToLower(th.c)}
    case _ => multiset{}
  }

  function InHand(text: string, threads: seq<Thread>): multiset<char> {
    if threads == [] then multiset{} else Held(text, threads[0]) + InHand(text, threads[1..])
  }

  lemma {:induction false} InHandUpdate(text: string, threads: seq<Thread>, t: nat, th: Thread)
    requires t < |threads|
    ensures InHand(text, threads[t := th]) + Held(text, threads[t]) == InHand(text, threads) + Held(text, th)
  {
    var rest := threads[1..];
    if t == 0 {
      assert threads[t := th][1..] == rest;
      Swap(Held(text, th), InHand(text, rest), Held(text, threads[t]));
    } else {
      assert threads[t := th][1..] == rest[t - 1 := th];
      InHandUpdate(text, rest, t - 1, th);
      Regroup(Held(text, threads[0]), InHand(text, rest[t - 1 := th]), Held(text, threads[t]),
              InHand(text, rest), Held(text, th));
    }
  }

  lemma Swap(a: multiset<char>, b: multiset<char>, c: multiset<char>)
    ensures (a + b) + c == (c + b) + a
  {
  }

  lemma Regroup(h: multiset<char>, a: multiset<char>, b: multiset<char>, c: multiset<char>, d: multiset<char>)
    requires a + b == c + d
    ensures (h + a) + b == (h + c) + d
  {
    assert (h + a) + b == h + (a + b);
    assert (h + c) + d == h + (c + d);
  }

  lemma {:induction false} InHandEmpty(text: string, threads: seq<Thread>)
    requires forall t :: 0 <= t < |threads| ==> threads[t].pc !in {AtStore, AtPut}
    ensures InHand(text, threads) == multiset{}
  {
    if threads != [] {
      InHandEmpty(text, threads[1..]);
    }
  }

  lemma InHandSame(text: string, threads: seq<Thread>, t: nat, th: Thread)
    requires t < |threads| && Held(text, th) == Held(text, threads[t])
    ensures InHand(text, threads[t := th]) == InHand(text, threads)
  {
    InHandUpdate(text, threads, t, th);
    assert InHand(text, threads[t := th])
        == (InHand(text, threads[t := th]) + Held(text, th)) - Held(text, th);
    assert InHand(text, threads) == (InHand(text, threads) + Held(text, th)) - Held(text, th);
  }

  // ---------- conservation ----------

  /** What is printed and what is in hand is what was at the positions fetched. */
  ghost predicate Conserved(s: State) {
    multiset(Folded(s.out)) + InHand(s.text, s.threads) == multiset(Cells(s.text, s.fetched))
  }

  lemma LoadConserves(s: State, t: nat)
    requires Conserved(s) && t < |s.threads| && s.threads[t].pc == AtLoad
    ensures Conserved(Step(s, t))
  {
    var s', c := Step(s, t), ToLower(Cell(s.text, s.sharedIndex));
    InHandUpdate(s.text, s.threads, t, s'.threads[t]);
    assert Held(s.text, s.threads[t]) == multiset{} && Held(s.text, s'.threads[t]) == multiset{c};
    assert InHand(s.text, s'.threads) == InHand(s.text, s.threads) + multiset{c};
    assert Cells(s.text, s'.fetched) == Cells(s.text, s.fetched) + [c];
    assert multiset(Cells(s.text, s.fetched) + [c]) == multiset(Cells(s.text, s.fetched)) + multiset{c};
  }

  lemma PutInHand(s: State, t: nat)
    requires t < |s.threads| && s.threads[t].pc == AtPut
    ensures InHand(s.text, Step(s, t).threads) + multiset{ToLower(s.threads[t].c)} == InHand(s.text, s.threads)
  {
    var th := Step(s, t).threads[t];
    InHandUpdate(s.text, s.threads, t, th);
    assert Held(s.text, th) == multiset{};
  }

  lemma FoldedMore(out: string, c: char)
    ensures multiset(Folded(out + [c])) == multiset(Folded(out)) + multiset{ToLower(c)}
  {
    assert Folded(out + [c]) == Folded(out) + [ToLower(c)];
  }

  lemma Pass(a: multiset<char>, b: multiset<char>, c: multiset<char>)
    ensures (a + b) + c == a + (c + b)
  {
  }

  lemma PutConserves(s: State, t: nat)
    requires Conserved(s) && t < |s.threads| && s.threads[t].pc == AtPut
    ensures Conserved(Step(s, t))
  {
    var s', c := Step(s, t), ToLower(s.threads[t].c);
    PutInHand(s, t);
    FoldedMore(s.out, s.threads[t].c);
    Pass(multiset(Folded(s.out)), multiset{c}, InHand(s.text, s'.threads));
  }

  /** Conversion changes the case of a character only. */
  lemma FoldedConvert(tidx: int, c: char)
    ensures ToLower(Convert(tidx, c)) == ToLower(c)
  {
  }

  lemma StoreConserves(s: State, t: nat)
    requires Conserved(s) && t < |s.threads| && s.threads[t].pc == AtStore
    ensures Conserved(Step(s, t))
  {
    var th := Step(s, t).threads[t];
    FoldedConvert(th.tidx, Cell(s.text, s.threads[t].loaded));
    InHandSame(s.text, s.threads, t, th);
  }

  lemma QuietStep(s: State, t: nat) returns (th: Thread)
    requires t < |s.threads| && s.threads[t].pc !in {AtLoad, AtStore, AtPut}
    ensures Step(s, t).out == s.out && Step(s, t).fetched == s.fetched && Step(s, t).text == s.text
    ensures Step(s, t).threads == s.threads[t := th] && th.pc !in {AtStore, AtPut}
  {
    th := Step(s, t).threads[t];
  }

  lemma ConservedStep(s: State, t: nat)
    requires Conserved(s) && t < |s.threads|
    ensures Conserved(Step(s, t))
  {
    match s.threads[t].pc {
      case AtLoad => LoadConserves(s, t);
      case AtStore => StoreConserves(s, t);
      case AtPut => PutConserves(s, t);
      case _ =>
        var th := QuietStep(s, t);
        InHandSame(s.text, s.threads, t, th);
    }
  }

  lemma ConservedRun(tr: seq<State>)
    requires IsRun(Next, tr) && Init(tr[0])
    ensures Conserved(Last(tr))
  {
    InHandEmpty(tr[0].text, tr[0].threads);
    assert Folded("") == "" && Cells(tr[0].text, []) == "";
    forall s, s' | Conserved(s) && Next(s, s') ensures Conserved(s') {
      var t: nat :| t < |s.threads| && Enabled(s, t) && s' == Step(s, t);
      ConservedStep(s, t);
    }
    Invariant(Next, Conserved, tr);
  }

  // ---------- nothing is left out ----------

  function Without(positions: seq<nat>, k: nat): seq<nat>
    requires k < |positions|
  {
    positions[..k] + positions[k + 1..]
  }

  /** Without a place of position `n` the positions before `n` are all there still. */
  lemma CoveredWithout(positions: seq<nat>, n: nat, k: nat)
    requires Covered(positions, n) && k < |positions| && positions[k] >= n
    ensures Covered(Without(positions, k), n)
  {
    forall i: nat | i < n ensures i in Without(positions, k) {
      assert i in positions;
      var j :| 0 <= j < |positions| && positions[j] == i;
      assert Without(positions, k)[if j < k then j else j - 1] == i;
    }
  }

  /** Positions that leave out none before `n` show the first `n` characters. */
  lemma {:induction false} CoveredShown(text: string, positions: seq<nat>, n: nat)
    requires Covered(positions, n) && n <= |text|
    ensures multiset(Folded(text[..n])) <= multiset(Cells(text, positions))
    ensures n <= |positions|
  {
    if n > 0 {
      var last: nat := n - 1;
      assert last in positions;
      var k :| 0 <= k < |positions| && positions[k] == last;
      CoveredWithout(positions, last, k);
      CoveredShown(text, Without(positions, k), last);
      TakeOut(text, positions, k);
      FoldedMore(text[..last], text[last]);
      assert text[..n] == text[..last] + [text[last]];
    }
  }

  lemma TakeOut(text: string, positions: seq<nat>, k: nat)
    requires k < |positions|
    ensures multiset(Cells(text, positions))
         == multiset(Cells(text, Without(positions, k))) + multiset{ToLower(Cell(text, positions[k]))}
  {
    var before, after := Cells(text, positions[..k]), Cells(text, positions[k + 1..]);
    var c := ToLower(Cell(text, positions[k]));
    assert Cells(text, positions) == before + [c] + after;
    assert Cells(text, Without(positions, k)) == before + after;
  }

  /** With or without the semaphore, when all threads have exited the output is, up to
      order and case, what stands at the positions fetched, and every character of the
      text is in it at least as often as in the text. */
  lemma NothingLost(tr: seq<State>)
    requires IsRun(Next, tr) && Init(tr[0]) && AllExited(Last(tr))
    ensures multiset(Folded(Last(tr).out)) == multiset(Cells(tr[0].text, Last(tr).fetched))
    ensures multiset(Folded(tr[0].text)) <= multiset(Folded(Last(tr).out))
    ensures |Last(tr).out| == |Last(tr).fetched|
  {
    CommonRun(tr);
    ConservedRun(tr);
    var s := Last(tr);
    InHandEmpty(s.text, s.threads);
    assert ThreadCovered(s.fetched, |s.text|, s.threads[0]);
    CoveredShown(s.text, s.fetched, |s.text|);
    assert s.text[..|s.text|] == s.text;
    assert |multiset(Folded(s.out))| == |multiset(Cells(s.text, s.fetched))|;
  }
}
