/** The few facts about sequences and multisets that several components use. */
module Sequences {
  function Bit(b: bool): nat {
    if b then 1 else 0
  }

  ghost predicate Distinct(xs: seq<nat>) {
    forall i, j :: 0 <= i < j < |xs| ==> xs[i] != xs[j]
  }

  /** Distinct numbers, one of them taken out. */
  lemma Without(xs: seq<nat>, k: nat) returns (rest: seq<nat>)
    requires Distinct(xs) && k < |xs|
    ensures |rest| == |xs| - 1 && Distinct(rest)
    ensures forall x: nat :: x in rest <==> x in xs && x != xs[k]
  {
    rest := xs[..k] + xs[k + 1..];
    assert forall i :: 0 <= i < |rest| ==> rest[i] == xs[if i < k then i else i + 1];
    forall x: nat | x in xs && x != xs[k]
      ensures x in rest
    {
      var j :| 0 <= j < |xs| && xs[j] == x;
      assert rest[if j < k then j else j - 1] == x;
    }
  }

  /** Distinct numbers below `n` are at most `n` many, and `n` of them are all of them. */
  lemma {:induction false} Pigeonhole(xs: seq<nat>, n: nat)
    requires Distinct(xs) && forall x: nat :: x in xs ==> x < n
    ensures |xs| <= n
    ensures |xs| == n ==> forall i: nat :: i < n ==> i in xs
    decreases n
  {
    if xs != [] {
      assert xs[0] in xs;
      if n - 1 in xs {
        var k :| 0 <= k < |xs| && xs[k] == n - 1;
        var rest := Without(xs, k);
        Pigeonhole(rest, n - 1);
      } else {
        Pigeonhole(xs, n - 1);
      }
    }
  }

  /** ... and if they are all of them, at least `n` many. */
  lemma {:induction false} Covering(xs: seq<nat>, n: nat)
    requires Distinct(xs) && forall i: nat :: i < n ==> i in xs
    ensures n <= |xs|
    decreases n
  {
    if n > 0 {
      assert n - 1 in xs;
      var k :| 0 <= k < |xs| && xs[k] == n - 1;
      var rest := Without(xs, k);
      Covering(rest, n - 1);
    }
  }

  lemma Associative<T>(a: seq<T>, b: seq<T>, c: seq<T>)
    ensures a + (b + c) == (a + b) + c
  {}

  /** What came in, step after step, is what went out and what is held in the end. */
  lemma Balance(a: seq<nat>, x: seq<nat>, xs: seq<nat>, y: seq<nat>, ys: seq<nat>, b: seq<nat>, c: seq<nat>)
    requires a + x == y + b && b + xs == ys + c
    ensures a + (x + xs) == (y + ys) + c
  {
    assert a + (x + xs) == (a + x) + xs;
    assert (y + b) + xs == y + (b + xs);
    assert y + (ys + c) == (y + ys) + c;
  }

  lemma UpdateMultiset<T>(s: seq<T>, k: nat, x: T)
    requires k < |s|
    ensures s[k] in multiset(s)
    ensures multiset(s[k := x]) == multiset(s) - multiset{s[k]} + multiset{x}
  {
    assert s == s[..k] + [s[k]] + s[k + 1..];
    assert s[k := x] == s[..k] + [x] + s[k + 1..];
  }

  lemma Head<T>(s: seq<T>)
    requires s != []
    ensures multiset(s) == multiset{s[0]} + multiset(s[1..])
  {
    assert s == [s[0]] + s[1..];
  }

  /** Two elements of a sequence change places. */
  lemma SwapMultiset<T>(s: seq<T>, i: nat, j: nat)
    requires i < |s| && j < |s|
    ensures multiset(s[i := s[j]][j := s[i]]) == multiset(s)
  {
    UpdateMultiset(s, i, s[j]);
    UpdateMultiset(s[i := s[j]], j, s[i]);
    assert s[i := s[j]][j] == s[j];
  }

  lemma PopBack<T>(s: seq<T>)
    requires s != []
    ensures multiset(s) == multiset(s[..|s| - 1]) + multiset{s[|s| - 1]}
  {
    assert s == s[..|s| - 1] + [s[|s| - 1]];
  }

  /** What is left when the last element takes the place of the one at `k`. */
  lemma FillHole<T>(s: seq<T>, k: nat)
    requires k < |s|
    ensures multiset(s[k := s[|s| - 1]][..|s| - 1]) + multiset{s[k]} == multiset(s)
  {
    var t := s[k := s[|s| - 1]][|s| - 1 := s[k]];
    SwapMultiset(s, k, |s| - 1);
    PopBack(t);
    assert t[..|s| - 1] == s[k := s[|s| - 1]][..|s| - 1];
  }

  /** Permutations with the same last element are permutations without it. */
  lemma SameLast<T>(s: seq<T>, t: seq<T>)
    requires s != [] && t != [] && multiset(s) == multiset(t) && s[|s| - 1] == t[|t| - 1]
    ensures multiset(s[..|s| - 1]) == multiset(t[..|t| - 1])
  {
    PopBack(s);
    PopBack(t);
    Cancel(multiset(s[..|s| - 1]), multiset(t[..|t| - 1]), s[|s| - 1]);
  }

  lemma Cancel<T>(a: multiset<T>, b: multiset<T>, x: T)
    requires a + multiset{x} == b + multiset{x}
    ensures a == b
  {
    forall y: T
      ensures a[y] == b[y]
    {
      assert (a + multiset{x})[y] == (b + multiset{x})[y];
    }
  }

  lemma TakeOut<T>(a: multiset<T>, x: T, b: multiset<T>)
    requires a + multiset{x} == b
    ensures a == b - multiset{x} && x in b
  {
    assert b[x] == a[x] + 1;
  }
}

/** `unsigned int` is 32 bits wide. */
module Words {
  const WIDTH := 0x1_0000_0000
}
