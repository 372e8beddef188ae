/** How many multisets of a size can be drawn from a number of kinds. */
module Counting {

  function Choices(kinds: nat, size: nat): nat {
    if size == 0 then 1
    else if kinds == 0 then 0
    else Choices(kinds - 1, size) + Choices(kinds, size - 1)
  }

  /** A multiset draws on the new kind or it does not. */
  lemma WithNewKind(kinds: nat, size: nat)
    ensures Choices(kinds + 1, size + 1) == Choices(kinds, size + 1) + Choices(kinds + 1, size)
  {
  }

  lemma {:induction false} OneKind(size: nat)
    ensures Choices(1, size) == 1
  {
    if size > 0 {
      OneKind(size - 1);
    }
  }

  lemma {:induction false} TwoKinds(size: nat)
    ensures Choices(2, size) == size + 1
  {
    OneKind(size);
    if size > 0 {
      TwoKinds(size - 1);
    }
  }

  lemma {:induction false} SizeOne(kinds: nat)
    ensures Choices(kinds, 1) == kinds
  {
    if kinds > 0 {
      SizeOne(kinds - 1);
    }
  }

  lemma {:induction false} MoreKinds(k: nat, l: nat, size: nat)
    requires k <= l
    ensures Choices(k, size) <= Choices(l, size)
    decreases l - k
  {
    if k < l {
      MoreKinds(k, l - 1, size);
    }
  }

  lemma SomeChoice(kinds: nat, size: nat)
    requires kinds >= 1
    ensures Choices(kinds, size) >= 1
  {
    OneKind(size);
    MoreKinds(1, kinds, size);
  }

  /** Adding kinds adds the more choices the more kinds there were. */
  lemma {:induction false} Convex(b: nat, k: nat, b': nat, k': nat, size: nat)
    requires b <= b' && k <= k' && size > 0
    ensures Choices(b + k, size) - Choices(b, size) <= Choices(b' + k', size) - Choices(b', size)
    decreases k
  {
    if k == 0 {
      MoreKinds(b', b' + k', size);
    } else {
      Convex(b, k - 1, b', k' - 1, size);
      MoreKinds(b + k, b' + k', size - 1);
    }
  }

  /** With three kinds or more and sizes from two on there are more choices than kinds. */
  lemma MoreChoicesThanKinds(kinds: nat, size: nat)
    requires size > 0
    ensures Choices(kinds, size) > kinds <==> kinds >= 2 && size >= 2
  {
    if kinds == 0 {
    } else if kinds == 1 {
      OneKind(size);
    } else if size == 1 {
      SizeOne(kinds);
    } else {
      MoreOfSize(kinds, size);
    }
  }

  lemma {:induction false} MoreOfSize(kinds: nat, size: nat)
    requires kinds >= 2 && size >= 2
    ensures Choices(kinds, size) > kinds
  {
    if size == 2 {
      SizeOne(kinds);
      SomeChoice(kinds - 1, 2);
    } else {
      MoreOfSize(kinds, size - 1);
    }
  }

  function Factorial(n: nat): nat {
    if n == 0 then 1 else n * Factorial(n - 1)
  }

  /** The number of choices is a binomial coefficient. */
  lemma {:induction false} ChoicesFactorial(kinds: nat, size: nat)
    ensures Choices(kinds + 1, size) * (Factorial(size) * Factorial(kinds)) == Factorial(kinds + size)
  {
    if kinds == 0 {
      OneKind(size);
    } else if size > 0 {
      ChoicesFactorial(kinds - 1, size);
      ChoicesFactorial(kinds, size - 1);
      WithNewKind(kinds, size - 1);
      Collect(Choices(kinds, size), Choices(kinds + 1, size - 1), size, Factorial(size - 1), kinds,
              Factorial(kinds - 1), Factorial(kinds + size - 1));
    }
  }

  lemma Collect(a: nat, b: nat, m: nat, f: nat, k: nat, g: nat, h: nat)
    requires a * ((m * f) * g) == h && b * (f * (k * g)) == h
    ensures (a + b) * ((m * f) * (k * g)) == (k + m) * h
  {
    var left, right := a * ((m * f) * g), b * (f * (k * g));
    assert (m * f) * (k * g) == k * ((m * f) * g) == m * (f * (k * g));
    assert a * (k * ((m * f) * g)) == k * left;
    assert b * (m * (f * (k * g))) == m * right;
  }
}
