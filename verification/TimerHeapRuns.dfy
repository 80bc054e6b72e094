/** What generic_scheduler promises over sequences of operations, as a multiset of timed entries.
    Every method of TimerHeap.Heap is a HeapStep; the lemmas here are about any HeapSteps. */
module TimerHeapRuns {
  import opened Options
  import opened Sequences
  import opened TimerHeap

  /** A result and the identity it is scheduled under. */
  type Key<T> = (Option<T>, Ident)

  function KeyOf<T>(x: Item<T>): Key<T> {
    (x.res, x.ident)
  }

  function CountIn<T(==)>(h: seq<Item<T>>, key: Key<T>): nat {
    if h == [] then 0 else Bit(KeyOf(h[0]) == key) + CountIn(h[1..], key)
  }

  /** How many entries hold this result under this identity. */
  ghost function Count<T>(m: multiset<Item<T>>, key: Key<T>): nat
    decreases |m|
  {
    if m == multiset{} then 0
    else
      var x :| x in m;
      Bit(KeyOf(x) == key) + Count(m - multiset{x}, key)
  }

  lemma {:induction false} CountTake<T>(m: multiset<Item<T>>, x: Item<T>, key: Key<T>)
    requires x in m
    ensures Count(m, key) == Bit(KeyOf(x) == key) + Count(m - multiset{x}, key)
    decreases |m|
  {
    var y :| y in m && Count(m, key) == Bit(KeyOf(y) == key) + Count(m - multiset{y}, key);
    if y != x {
      CountTake(m - multiset{y}, x, key);
      CountTake(m - multiset{x}, y, key);
      assert m - multiset{y} - multiset{x} == m - multiset{x} - multiset{y};
    }
  }

  lemma CountAdd<T>(m: multiset<Item<T>>, x: Item<T>, key: Key<T>)
    ensures Count(m + multiset{x}, key) == Bit(KeyOf(x) == key) + Count(m, key)
  {
    CountTake(m + multiset{x}, x, key);
    assert m + multiset{x} - multiset{x} == m;
  }

  lemma {:induction false} CountOfSeq<T>(h: seq<Item<T>>, key: Key<T>)
    ensures Count(multiset(h), key) == CountIn(h, key)
  {
    if h != [] {
      assert h == [h[0]] + h[1..];
      assert multiset(h) - multiset{h[0]} == multiset(h[1..]);
      CountTake(multiset(h), h[0], key);
      CountOfSeq(h[1..], key);
    }
  }

  lemma RetimedRest<T>(h: seq<Item<T>>, g: seq<Item<T>>, ident: Ident, tp: int)
    requires Retimed(h, g, ident, tp) && h != []
    ensures Retimed(h[1..], g[1..], ident, tp)
  {
    forall k | 0 <= k < |h[1..]|
      ensures RetimedItem(h[1..][k], g[1..][k], ident, tp)
    {
      assert RetimedItem(h[k + 1], g[k + 1], ident, tp);
    }
  }

  lemma CountHead<T>(h: seq<Item<T>>, x: Item<T>)
    requires h != []
    ensures multiset(h)[x] == Bit(h[0] == x) + multiset(h[1..])[x]
  {
    Head(h);
  }

  lemma {:induction false} RetimedCounts<T>(h: seq<Item<T>>, g: seq<Item<T>>, ident: Ident, tp: int, key: Key<T>)
    requires Retimed(h, g, ident, tp)
    ensures CountIn(h, key) == CountIn(g, key)
  {
    if h != [] {
      assert RetimedItem(h[0], g[0], ident, tp);
      RetimedRest(h, g, ident, tp);
      RetimedCounts(h[1..], g[1..], ident, tp, key);
    }
  }

  lemma {:induction false} RetimedOthers<T>(h: seq<Item<T>>, g: seq<Item<T>>, ident: Ident, tp: int, x: Item<T>)
    requires Retimed(h, g, ident, tp) && x.ident != ident
    ensures multiset(h)[x] == multiset(g)[x]
  {
    if h != [] {
      assert RetimedItem(h[0], g[0], ident, tp);
      RetimedRest(h, g, ident, tp);
      RetimedOthers(h[1..], g[1..], ident, tp, x);
      CountHead(h, x);
      CountHead(g, x);
    }
  }

  /** set_time moves nothing between results and identities, and touches no other identity. */
  lemma RekeyKeeps<T(!new)>(m: multiset<Item<T>>, ident: Ident, tp: int, m': multiset<Item<T>>)
    requires HeapStep(m, Rekey(ident, tp), None, m')
    ensures forall key: Key<T> :: Count(m', key) == Count(m, key)
    ensures forall x: Item<T> :: x.ident != ident ==> m'[x] == m[x]
    ensures |m'| == |m|
  {
    var h, g :| multiset(h) == m && multiset(g) == m' && Retimed(h, g, ident, tp);
    forall key: Key<T>
      ensures Count(m', key) == Count(m, key)
    {
      CountOfSeq(h, key);
      CountOfSeq(g, key);
      RetimedCounts(h, g, ident, tp, key);
    }
    forall x: Item<T> | x.ident != ident
      ensures m'[x] == m[x]
    {
      RetimedOthers(h, g, ident, tp, x);
    }
    assert |multiset(h)| == |h| && |multiset(g)| == |g|;
  }

  /** What is there after set_time was there before, or has the new time. */
  lemma RekeyMembers<T(!new)>(m: multiset<Item<T>>, ident: Ident, tp: int, m': multiset<Item<T>>, y: Item<T>)
    requires HeapStep(m, Rekey(ident, tp), None, m') && y in m'
    ensures y in m || (y.ident == ident && y.timestamp == tp)
  {
    var h, g :| multiset(h) == m && multiset(g) == m' && Retimed(h, g, ident, tp);
    assert y in g;
    var k :| 0 <= k < |g| && g[k] == y;
    assert RetimedItem(h[k], g[k], ident, tp) && h[k] in multiset(h);
  }

  /** An identity used once gets exactly the new time. */
  lemma RekeyUnique<T(!new)>(m: multiset<Item<T>>, x: Item<T>, tp: int, m': multiset<Item<T>>)
    requires HeapStep(m, Rekey(x.ident, tp), None, m')
    requires m[x] == 1 && forall y :: y in m && y.ident == x.ident ==> y == x
    ensures m' == m - multiset{x} + multiset{x.(timestamp := tp)}
  {
    var v := x.(timestamp := tp);
    RekeyKeeps(m, x.ident, tp, m');
    assert Has(m, x.ident);
    var y :| y in m' && y.ident == x.ident && y.timestamp == tp;
    var h, g :| multiset(h) == m && multiset(g) == m' && Retimed(h, g, x.ident, tp);
    assert y in g;
    var k :| 0 <= k < |g| && g[k] == y;
    assert RetimedItem(h[k], g[k], x.ident, tp) && h[k] in multiset(h);
    assert y == v;
    RetimedAt(h, g, k, x.ident, tp);
  }

  lemma OnceOnly<T>(h: seq<Item<T>>, j: nat, k: nat)
    requires j < |h| && k < |h| && j != k && multiset(h)[h[k]] == 1
    ensures h[j] != h[k]
  {
    var lo, hi := if j < k then j else k, if j < k then k else j;
    assert h == h[..lo] + [h[lo]] + h[lo + 1..hi] + [h[hi]] + h[hi + 1..];
    assert multiset(h) >= multiset{h[lo]} + multiset{h[hi]};
  }

  lemma RetimedAt<T(!new)>(h: seq<Item<T>>, g: seq<Item<T>>, k: nat, ident: Ident, tp: int)
    requires Retimed(h, g, ident, tp) && k < |h| && h[k].ident == ident
    requires multiset(h)[h[k]] == 1 && forall y :: y in multiset(h) && y.ident == ident ==> y == h[k]
    ensures multiset(g) == multiset(h) - multiset{h[k]} + multiset{g[k]}
  {
    forall j | 0 <= j < |h| && j != k
      ensures g[j] == h[j]
    {
      OnceOnly(h, j, k);
      assert RetimedItem(h[j], g[j], ident, tp) && h[j] in multiset(h);
    }
    assert g == h[k := g[k]];
    UpdateMultiset(h, k, g[k]);
  }

  // ---------- Whole runs ----------

  /** The state after each of a sequence of operations; `taken[i]` is what the i-th one took out. */
  ghost predicate HeapRun<T(!new)>(ms: seq<multiset<Item<T>>>, ops: seq<Op<T>>, taken: seq<Option<Item<T>>>) {
    && |ms| == |ops| + 1 && |taken| == |ops|
    && forall i :: 0 <= i < |ops| ==> HeapStep(ms[i], ops[i], taken[i], ms[i + 1])
  }

  lemma HeapRunPrefix<T(!new)>(ms: seq<multiset<Item<T>>>, ops: seq<Op<T>>, taken: seq<Option<Item<T>>>, n: nat)
    requires HeapRun(ms, ops, taken) && n + 1 == |ops|
    ensures HeapRun(ms[..n + 1], ops[..n], taken[..n]) && HeapStep(ms[n], ops[n], taken[n], ms[n + 1])
  {}

  function Inserted<T(==)>(ops: seq<Op<T>>, key: Key<T>): nat {
    if ops == [] then 0
    else Inserted(ops[..|ops| - 1], key) + Bit(ops[|ops| - 1].Insert? && KeyOf(ops[|ops| - 1].item) == key)
  }

  function Taken<T(==)>(taken: seq<Option<Item<T>>>, key: Key<T>): nat {
    if taken == [] then 0
    else Taken(taken[..|taken| - 1], key) + Bit(taken[|taken| - 1].Some? && KeyOf(taken[|taken| - 1].value) == key)
  }

  lemma StepConserves<T(!new)>(m: multiset<Item<T>>, op: Op<T>, taken: Option<Item<T>>, m': multiset<Item<T>>,
                               key: Key<T>)
    requires HeapStep(m, op, taken, m')
    ensures Count(m, key) + Bit(op.Insert? && KeyOf(op.item) == key)
            == Count(m', key) + Bit(taken.Some? && KeyOf(taken.value) == key)
  {
    match op
    case Insert(item) => CountAdd(m, item, key);
    case Rekey(ident, tp) => RekeyKeeps(m, ident, tp, m');
    case _ =>
      if taken.Some? {
        CountTake(m, taken.value, key);
      }
  }

  /** Over any sequence of schedule_at, remove_first, remove_by_ident and set_time, every result
      scheduled under an identity is pending or was taken out, once. */
  lemma {:induction false} EntriesAreConserved<T(!new)>(ms: seq<multiset<Item<T>>>, ops: seq<Op<T>>,
                                                        taken: seq<Option<Item<T>>>, key: Key<T>)
    requires HeapRun(ms, ops, taken) && ms[0] == multiset{}
    ensures Inserted(ops, key) == Taken(taken, key) + Count(ms[|ops|], key)
    decreases |ops|
  {
    if ops != [] {
      var n := |ops| - 1;
      HeapRunPrefix(ms, ops, taken, n);
      EntriesAreConserved(ms[..n + 1], ops[..n], taken[..n], key);
      StepConserves(ms[n], ops[n], taken[n], ms[n + 1], key);
    }
  }

  ghost predicate Sorted<T>(xs: seq<Item<T>>) {
    forall i, j :: 0 <= i < j < |xs| ==> xs[i].timestamp <= xs[j].timestamp
  }

  /** `outs` came out of `all` in order of time, and `left` is the rest, none of it earlier. */
  ghost predicate Drained<T>(all: multiset<Item<T>>, outs: seq<Item<T>>, left: multiset<Item<T>>) {
    && multiset(outs) + left == all && Sorted(outs)
    && forall i, x :: 0 <= i < |outs| && x in left ==> outs[i].timestamp <= x.timestamp
  }

  lemma DrainStep<T>(all: multiset<Item<T>>, outs: seq<Item<T>>, left: multiset<Item<T>>, x: Item<T>)
    requires Drained(all, outs, left) && IsFirst(left, x)
    ensures Drained(all, outs + [x], left - multiset{x})
  {
    assert multiset(outs + [x]) == multiset(outs) + multiset{x};
  }

  /** Draining: a run of remove_first yields non-decreasing times, and what it yielded and what is
      left are the entries there were; as many calls as there are entries leave none. */
  lemma {:induction false} DrainIsSorted<T(!new)>(ms: seq<multiset<Item<T>>>, ops: seq<Op<T>>,
                                                  taken: seq<Option<Item<T>>>)
    returns (outs: seq<Item<T>>)
    requires HeapRun(ms, ops, taken) && forall i :: 0 <= i < |ops| ==> ops[i] == TakeFirst
    ensures Drained(ms[0], outs, ms[|ops|])
    ensures |outs| == if |ops| <= |ms[0]| then |ops| else |ms[0]|
    ensures forall i :: 0 <= i < |taken| ==> taken[i] == if i < |outs| then Some(outs[i]) else None
    decreases |ops|
  {
    outs := [];
    if ops != [] {
      var n := |ops| - 1;
      HeapRunPrefix(ms, ops, taken, n);
      var before := DrainIsSorted(ms[..n + 1], ops[..n], taken[..n]);
      assert |multiset(before) + ms[n]| == |before| + |ms[n]|;
      if ms[n] == multiset{} {
        outs := before;
      } else {
        DrainStep(ms[0], before, ms[n], taken[n].value);
        outs := before + [taken[n].value];
        assert |before| == n;
      }
      forall i | 0 <= i < |taken|
        ensures taken[i] == if i < |outs| then Some(outs[i]) else None
      {
        assert i < n ==> taken[..n][i] == taken[i];
      }
    }
  }
}
