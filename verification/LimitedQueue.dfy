/** limited_queue (coro_queue.h:14-70): a ring buffer whose two counters are 32-bit, run free, and
    are reduced modulo `count` at each access.

    A cell is dead until `construct_at` and dead again after `destroy_at`. Constructing in a live
    cell or reading a dead one is what the ring must never do. */
module LimitedQueueModel {
  import opened Options
  import opened Words

  datatype Cell<+T> = Dead | Live(val: T)

  datatype Queue<T> = Queue(items: seq<Cell<T>>, front: nat, back: nat)

  predicate WellFormed<T>(q: Queue<T>) {
    0 < |q.items| < WIDTH && q.front < WIDTH && q.back < WIDTH
  }

  function New<T>(count: nat): Queue<T> {
    Queue(seq(count, i => Dead), 0, 0)
  }

  /** `_front - _back` on unsigned integers. */
  function Used<T>(q: Queue<T>): nat {
    (q.front - q.back) % WIDTH
  }

  predicate IsFull<T>(q: Queue<T>) {
    Used(q) >= |q.items|
  }

  predicate IsEmpty<T>(q: Queue<T>) {
    Used(q) == 0
  }

  datatype Op<T> = Push(x: T) | Pop

  /** The queue after an operation, what it popped, and whether it used cells as it may. A client
      asks is_full before push and is_empty before pop. */
  datatype Outcome<T> = Outcome(q: Queue<T>, popped: Option<T>, sound: bool)

  function Apply<T>(q: Queue<T>, op: Op<T>): (o: Outcome<T>)
    requires WellFormed(q)
    ensures WellFormed(o.q) && |o.q.items| == |q.items|
  {
    match op
    case Push(x) =>
      if IsFull(q) then Outcome(q, None, true)
      else
        var i := q.front % |q.items|;
        Outcome(Queue(q.items[i := Live(x)], (q.front + 1) % WIDTH, q.back), None, q.items[i].Dead?)
    case Pop =>
      if IsEmpty(q) then Outcome(q, None, true)
      else
        var i := q.back % |q.items|;
        Outcome(Queue(q.items[i := Dead], q.front, (q.back + 1) % WIDTH),
                if q.items[i].Live? then Some(q.items[i].val) else None, q.items[i].Live?)
  }

  datatype History<T> = History(q: Queue<T>, popped: seq<T>, sound: bool)

  /** A whole run of guarded operations from the empty queue. */
  function Run<T>(count: nat, ops: seq<Op<T>>): (h: History<T>)
    requires 0 < count < WIDTH
    ensures WellFormed(h.q) && |h.q.items| == count
  {
    if ops == [] then History(New(count), [], true)
    else
      var h := Run(count, ops[..|ops| - 1]);
      var o := Apply(h.q, ops[|ops| - 1]);
      History(o.q, if o.popped.Some? then h.popped + [o.popped.value] else h.popped, h.sound && o.sound)
  }

  // ---------- The specification: a bounded FIFO sequence ----------

  datatype Fifo<T> = Fifo(contents: seq<T>, popped: seq<T>, pushes: nat)

  function FifoRun<T>(count: nat, ops: seq<Op<T>>): Fifo<T> {
    if ops == [] then Fifo([], [], 0)
    else FifoStep(count, FifoRun(count, ops[..|ops| - 1]), ops[|ops| - 1])
  }

  // ---------- Arithmetic of the cells ----------

  lemma {:induction false} MultipleIsLarge(c: nat, d: nat)
    requires d >= 1
    ensures c * d >= c
  {
    if d > 1 {
      MultipleIsLarge(c, d - 1);
      assert c * d == c * (d - 1) + c;
    }
  }

  /** The only multiple of `c` strictly between -c and c is 0. */
  lemma SmallMultiple(c: nat, d: int)
    requires -(c as int) < c * d < c
    ensures d == 0
  {
    if d >= 1 {
      MultipleIsLarge(c, d);
    }
  }

  /** Fewer than `c` consecutive positions fall on different cells. */
  lemma CellsDiffer(c: nat, a: nat, b: nat)
    requires c > 0 && a < b < a + c
    ensures a % c != b % c
  {
    if a % c == b % c {
      assert b - a == c * (b / c) - c * (a / c);
      assert c * (b / c) - c * (a / c) == c * (b / c - a / c);
      SmallMultiple(c, b / c - a / c);
      assert false;
    }
  }

  /** A counter that has wrapped still names the same cell, if `c` divides 2^32. */
  lemma WrapKeepsCell(c: nat, k: nat)
    requires c > 0 && WIDTH % c == 0
    ensures (k % WIDTH) % c == k % c
  {
    var m := WIDTH / c;
    assert WIDTH == c * m;
    assert k == WIDTH * (k / WIDTH) + k % WIDTH;
    assert k == c * (m * (k / WIDTH)) + k % WIDTH by {
      assert WIDTH * (k / WIDTH) == c * m * (k / WIDTH);
    }
    ModOfSum(c, m * (k / WIDTH), k % WIDTH);
  }

  lemma ModOfSum(c: nat, q: nat, r: nat)
    requires c > 0
    ensures (c * q + r) % c == r % c
  {
    var x := c * q + r;
    assert x == c * (q + r / c) + r % c by {
      assert c * (q + r / c) == c * q + c * (r / c);
    }
    ModUnique(c, x, q + r / c, r % c);
  }

  lemma ModUnique(c: nat, x: nat, q: nat, r: nat)
    requires c > 0 && r < c && x == c * q + r
    ensures x % c == r
  {
    assert c * (q - x / c) == c * q - c * (x / c) == x % c - r;
    SmallMultiple(c, q - x / c);
  }

  // ---------- The ring is the FIFO sequence ----------

  /** The cells of `n` consecutive positions. */
  function Cells(start: nat, n: nat, count: nat): seq<nat>
    requires count > 0
  {
    seq(n, i requires 0 <= i < n => (start + i) % count)
  }

  lemma CellsGrow(start: nat, n: nat, count: nat)
    requires n < count
    ensures Cells(start, n + 1, count) == Cells(start, n, count) + [(start + n) % count]
    ensures (start + n) % count !in Cells(start, n, count)
  {
    forall i: nat | i < n
      ensures Cells(start, n, count)[i] != (start + n) % count
    {
      CellsDiffer(count, start + i, start + n);
    }
  }

  lemma CellsShrink(start: nat, n: nat, count: nat)
    requires 0 < n <= count
    ensures Cells(start, n, count) == [start % count] + Cells(start + 1, n - 1, count)
    ensures start % count !in Cells(start + 1, n - 1, count)
  {
    var all, rest := Cells(start, n, count), Cells(start + 1, n - 1, count);
    forall i: nat | i < |rest|
      ensures rest[i] == all[i + 1] && rest[i] != start % count
    {
      assert start + (i + 1) == start + 1 + i;
      CellsDiffer(count, start, start + 1 + i);
    }
  }

  /** The cells hold the contents, and no other cell is live. */
  ghost predicate Holds<T>(items: seq<Cell<T>>, cells: seq<nat>, contents: seq<T>) {
    && |cells| == |contents|
    && (forall i :: 0 <= i < |cells| ==> cells[i] < |items| && items[cells[i]] == Live(contents[i]))
    && (forall j: nat :: j < |items| && items[j].Live? ==> j in cells)
  }

  lemma HoldsMore<T>(items: seq<Cell<T>>, cells: seq<nat>, contents: seq<T>, c: nat, x: T)
    requires Holds(items, cells, contents) && c < |items| && c !in cells
    ensures items[c].Dead? && Holds(items[c := Live(x)], cells + [c], contents + [x])
  {
    assert forall i :: 0 <= i < |cells| ==> cells[i] in cells;
  }

  lemma HoldsLess<T>(items: seq<Cell<T>>, c: nat, cells: seq<nat>, contents: seq<T>)
    requires Holds(items, [c] + cells, contents) && c !in cells
    ensures c < |items| && items[c] == Live(contents[0]) && Holds(items[c := Dead], cells, contents[1..])
  {
    assert ([c] + cells)[0] == c;
    forall i | 0 <= i < |cells|
      ensures cells[i] < |items| && items[c := Dead][cells[i]] == Live(contents[1..][i])
    {
      assert cells[i] in cells && ([c] + cells)[i + 1] == cells[i];
    }
  }

  /** `pushes` items were ever pushed, `contents` are still there, and exactly their cells are live. */
  ghost predicate Represents<T>(q: Queue<T>, pushes: nat, contents: seq<T>) {
    && WellFormed(q) && |contents| <= |q.items| && |contents| <= pushes
    && q.front == pushes % WIDTH && q.back == (pushes - |contents|) % WIDTH
    && Holds(q.items, Cells(pushes - |contents|, |contents|, |q.items|), contents)
  }

  lemma UsedIsLength<T>(q: Queue<T>, pushes: nat, contents: seq<T>)
    requires Represents(q, pushes, contents)
    ensures Used(q) == |contents|
  {
    DifferenceWraps(pushes, |contents|);
  }

  lemma DifferenceWraps(a: nat, n: nat)
    requires n <= a && n < WIDTH
    ensures (a % WIDTH - (a - n) % WIDTH) % WIDTH == n
  {}

  /** Whether the counter `k`, wrapped, still names the cell of `k`. */
  predicate InStep(count: nat, k: nat)
    requires count > 0
  {
    WIDTH % count == 0 || k < WIDTH
  }

  lemma InStepCell(count: nat, k: nat)
    requires 0 < count && InStep(count, k)
    ensures (k % WIDTH) % count == k % count
  {
    if k >= WIDTH {
      WrapKeepsCell(count, k);
    }
  }

  lemma NextCounter(k: nat)
    ensures (k % WIDTH + 1) % WIDTH == (k + 1) % WIDTH
  {}

  /** A push and a pop in terms of the cell they use. */
  lemma PushAt<T>(q: Queue<T>, x: T, cell: nat)
    requires WellFormed(q) && Used(q) < |q.items| && cell == q.front % |q.items|
    ensures var q' := Queue(q.items[cell := Live(x)], (q.front + 1) % WIDTH, q.back);
            Apply(q, Push(x)) == Outcome(q', None, q.items[cell].Dead?)
  {}

  lemma PopAt<T>(q: Queue<T>, cell: nat)
    requires WellFormed(q) && Used(q) > 0 && cell == q.back % |q.items| && q.items[cell].Live?
    ensures var q' := Queue(q.items[cell := Dead], q.front, (q.back + 1) % WIDTH);
            Apply(q, Pop) == Outcome(q', Some(q.items[cell].val), true)
  {}

  lemma PushCells<T>(items: seq<Cell<T>>, pops: nat, contents: seq<T>, x: T, cell: nat)
    requires |contents| < |items| && cell == (pops + |contents|) % |items|
    requires Holds(items, Cells(pops, |contents|, |items|), contents)
    ensures items[cell].Dead? && Holds(items[cell := Live(x)], Cells(pops, |contents| + 1, |items|), contents + [x])
  {
    CellsGrow(pops, |contents|, |items|);
    HoldsMore(items, Cells(pops, |contents|, |items|), contents, cell, x);
  }

  lemma PopCells<T>(items: seq<Cell<T>>, pops: nat, contents: seq<T>, cell: nat)
    requires 0 < |contents| <= |items| && cell == pops % |items|
    requires Holds(items, Cells(pops, |contents|, |items|), contents)
    ensures items[cell] == Live(contents[0])
    ensures Holds(items[cell := Dead], Cells(pops + 1, |contents| - 1, |items|), contents[1..])
  {
    CellsShrink(pops, |contents|, |items|);
    HoldsLess(items, cell, Cells(pops + 1, |contents| - 1, |items|), contents);
  }

  lemma RepresentsIntro<T>(q: Queue<T>, pushes: nat, pops: nat, contents: seq<T>)
    requires WellFormed(q) && pushes == pops + |contents| && |contents| <= |q.items|
    requires q.front == pushes % WIDTH && q.back == pops % WIDTH
    requires Holds(q.items, Cells(pops, |contents|, |q.items|), contents)
    ensures Represents(q, pushes, contents)
  {}

  lemma PushRefines<T>(q: Queue<T>, pushes: nat, contents: seq<T>, x: T)
    requires Represents(q, pushes, contents) && |contents| < |q.items| && InStep(|q.items|, pushes)
    ensures var o := Apply(q, Push(x));
            !IsFull(q) && o.sound && o.popped == None && Represents(o.q, pushes + 1, contents + [x])
  {
    var pops := pushes - |contents|;
    var cell := q.front % |q.items|;
    assert cell == (pops + |contents|) % |q.items| by { InStepCell(|q.items|, pushes); }
    assert Used(q) == |contents| by { UsedIsLength(q, pushes, contents); }
    assert (q.front + 1) % WIDTH == (pushes + 1) % WIDTH by { NextCounter(pushes); }
    PushCells(q.items, pops, contents, x, cell);
    PushAt(q, x, cell);
    RepresentsIntro(Apply(q, Push(x)).q, pushes + 1, pops, contents + [x]);
  }

  lemma PopRefines<T>(q: Queue<T>, pushes: nat, contents: seq<T>)
    requires Represents(q, pushes, contents) && contents != [] && InStep(|q.items|, pushes - |contents|)
    ensures var o := Apply(q, Pop);
            !IsEmpty(q) && o.sound && o.popped == Some(contents[0]) && Represents(o.q, pushes, contents[1..])
  {
    var pops := pushes - |contents|;
    var cell := q.back % |q.items|;
    assert cell == pops % |q.items| by { InStepCell(|q.items|, pops); }
    assert Used(q) == |contents| by { UsedIsLength(q, pushes, contents); }
    assert (q.back + 1) % WIDTH == (pops + 1) % WIDTH by { NextCounter(pops); }
    PopCells(q.items, pops, contents, cell);
    PopAt(q, cell);
    RepresentsIntro(Apply(q, Pop).q, pushes, pops + 1, contents[1..]);
  }

  /** Any run of guarded pushes and pops, of any length, is the run of the bounded FIFO sequence, if
      `count` divides 2^32; otherwise as long as at most 2^32 items have been pushed, that is until
      `_front` has wrapped. */
  lemma {:induction false} RunRefines<T>(count: nat, ops: seq<Op<T>>)
    requires 0 < count < WIDTH
    requires WIDTH % count == 0 || FifoRun(count, ops).pushes <= WIDTH
    ensures var h, f := Run(count, ops), FifoRun(count, ops);
            h.sound && h.popped == f.popped && Represents(h.q, f.pushes, f.contents)
    decreases |ops|
  {
    if ops != [] {
      var op := ops[|ops| - 1];
      var f := FifoRun(count, ops[..|ops| - 1]);
      RunRefines(count, ops[..|ops| - 1]);
      OpRefines(Run(count, ops[..|ops| - 1]).q, f, op);
    }
  }

  /** One operation of the FIFO sequence. */
  function FifoStep<T>(count: nat, f: Fifo<T>, op: Op<T>): Fifo<T> {
    match op
    case Push(x) =>
      if |f.contents| >= count then f else f.(contents := f.contents + [x], pushes := f.pushes + 1)
    case Pop =>
      if f.contents == [] then f else f.(contents := f.contents[1..], popped := f.popped + [f.contents[0]])
  }

  lemma OpRefines<T>(q: Queue<T>, f: Fifo<T>, op: Op<T>)
    requires Represents(q, f.pushes, f.contents)
    requires WIDTH % |q.items| == 0 || FifoStep(|q.items|, f, op).pushes <= WIDTH
    ensures var o, f' := Apply(q, op), FifoStep(|q.items|, f, op);
            && o.sound && Represents(o.q, f'.pushes, f'.contents)
            && f'.popped == if o.popped.Some? then f.popped + [o.popped.value] else f.popped
  {
    UsedIsLength(q, f.pushes, f.contents);
    match op
    case Push(x) =>
      if |f.contents| < |q.items| {
        PushRefines(q, f.pushes, f.contents, x);
      }
    case Pop =>
      if f.contents != [] {
        PopRefines(q, f.pushes, f.contents);
      }
  }

  // ---------- ... and only then ----------

  function Pairs(n: nat): seq<Op<int>> {
    if n == 0 then [] else Pairs(n - 1) + [Push(0), Pop]
  }

  function Fill(n: nat): seq<Op<int>> {
    if n == 0 then [] else Fill(n - 1) + [Push(0)]
  }

  lemma RunSnoc<T>(count: nat, ops: seq<Op<T>>, op: Op<T>)
    requires 0 < count < WIDTH
    ensures var h, h' := Run(count, ops), Run(count, ops + [op]);
            h'.q == Apply(h.q, op).q && h'.sound == (h.sound && Apply(h.q, op).sound)
  {
    assert (ops + [op])[..|ops + [op]| - 1] == ops;
  }

  lemma {:induction false} FifoPairs(count: nat, n: nat)
    requires 0 < count
    ensures var f := FifoRun(count, Pairs(n)); f.contents == [] && f.pushes == n
    decreases n
  {
    if n > 0 {
      FifoPairs(count, n - 1);
      var ops := Pairs(n - 1);
      assert Pairs(n)[..|Pairs(n)| - 1] == ops + [Push(0)];
      assert (ops + [Push(0)])[..|ops|] == ops;
    }
  }

  /** The counters and one live cell after the ring has wrapped. */
  ghost predicate Wrapped(q: Queue<int>, k: nat, cell: nat) {
    && WellFormed(q) && 1 <= k <= |q.items| && q.back == WIDTH - 1 && q.front == k - 1
    && cell < |q.items| && q.items[cell].Live?
  }

  lemma WrappedIsUsed(q: Queue<int>, k: nat, cell: nat)
    requires Wrapped(q, k, cell)
    ensures Used(q) == k
  {}

  lemma PushWhenWrapped(q: Queue<int>, k: nat, cell: nat)
    requires Wrapped(q, k, cell) && k < |q.items|
    ensures Wrapped(Apply(q, Push(0)).q, k + 1, cell) && |Apply(q, Push(0)).q.items| == |q.items|
    ensures Apply(q, Push(0)).sound ==> k - 1 != cell
  {
    WrappedIsUsed(q, k, cell);
    assert q.front % |q.items| == k - 1;
    PushAt(q, 0, k - 1);
  }

  lemma FirstBeforeWrap(q: Queue<int>)
    requires Represents(q, WIDTH - 1, []) && WIDTH % |q.items| != 0
    ensures Wrapped(Apply(q, Push(0)).q, 1, WIDTH % |q.items| - 1) && |Apply(q, Push(0)).q.items| == |q.items|
  {
    UsedIsLength(q, WIDTH - 1, []);
    LastCell(|q.items|);
    PushAt(q, 0, WIDTH % |q.items| - 1);
  }

  /** Pushing and popping `n` times one item, then filling up. */
  function WrapAndFill(n: nat, k: nat): seq<Op<int>> {
    Pairs(n) + Fill(k)
  }

  lemma FillMore(count: nat, n: nat, k: nat)
    requires 0 < count < WIDTH && k > 0
    ensures Run(count, WrapAndFill(n, k)).q == Apply(Run(count, WrapAndFill(n, k - 1)).q, Push(0)).q
  {
    assert WrapAndFill(n, k) == WrapAndFill(n, k - 1) + [Push(0)];
    RunSnoc(count, WrapAndFill(n, k - 1), Push(0));
  }

  /** From an empty ring whose counters are about to wrap: the first push takes cell `r - 1`, the
      following ones take the cells from 0 on. */
  lemma {:induction false} RunFill(count: nat, n: nat, k: nat)
    requires 0 < count < WIDTH && WIDTH % count != 0 && 1 <= k <= WIDTH % count && n + 1 == WIDTH
    ensures var q := Run(count, WrapAndFill(n, k)).q;
            |q.items| == count && Wrapped(q, k, WIDTH % count - 1)
    decreases k
  {
    FillMore(count, n, k);
    var q := Run(count, WrapAndFill(n, k - 1)).q;
    if k == 1 {
      FifoPairs(count, n);
      RunRefines(count, Pairs(n));
      assert WrapAndFill(n, 0) == Pairs(n);
      FirstBeforeWrap(q);
    } else {
      RunFill(count, n, k - 1);
      PushWhenWrapped(q, k - 1, WIDTH % count - 1);
    }
  }

  lemma LastCell(count: nat)
    requires 0 < count < WIDTH && WIDTH % count != 0
    ensures (WIDTH - 1) % count == WIDTH % count - 1
  {
    ModUnique(count, WIDTH - 1, WIDTH / count, WIDTH % count - 1);
  }

  /** The exact condition: every run of guarded operations keeps to dead and live cells if and only
      if `count` divides 2^32. For any other count the run that wraps with one item left, and then
      fills up, constructs in a live cell. */
  lemma SoundExactly(count: nat)
    requires 0 < count < WIDTH
    ensures (forall ops: seq<Op<int>> :: Run(count, ops).sound) <==> WIDTH % count == 0
  {
    if WIDTH % count == 0 {
      forall ops: seq<Op<int>>
        ensures Run(count, ops).sound
      {
        RunRefines(count, ops);
      }
    } else {
      var r := WIDTH % count;
      var n: nat :| n + 1 == WIDTH;
      var ops := WrapAndFill(n, r);
      RunFill(count, n, r);
      RunSnoc(count, ops, Push(0));
      PushWhenWrapped(Run(count, ops).q, r, r - 1);
      assert !Run(count, ops + [Push(0)]).sound;
    }
  }

  // ---------- The class ----------

  class LimitedQueue<T> {
    const items: array<Cell<T>>
    var front: nat
    var back: nat
    ghost var pushes: nat         // how many items were ever pushed
    ghost var contents: seq<T>

    ghost function View(): Queue<T>
      reads this, items
    {
      Queue(items[..], front, back)
    }

    ghost predicate Valid()
      reads this, items
    {
      && 0 < items.Length < WIDTH && Represents(View(), pushes, contents)
      && (WIDTH % items.Length == 0 || pushes <= WIDTH)
    }

    constructor (count: nat)
      requires 0 < count < WIDTH
      ensures Valid() && fresh(items) && items.Length == count && contents == [] && pushes == 0
    {
      items := new Cell<T>[count](i => Dead);
      front, back, pushes, contents := 0, 0, 0, [];
    }

    method Full() returns (b: bool)
      requires Valid()
      ensures b == (|contents| == items.Length)
    {
      UsedIsLength(View(), pushes, contents);
      b := (front - back) % WIDTH >= items.Length;
    }

    method Empty() returns (b: bool)
      requires Valid()
      ensures b == (contents == [])
    {
      UsedIsLength(View(), pushes, contents);
      b := (front - back) % WIDTH == 0;
    }

    /** The caller has asked is_full; the cell it constructs in is dead. */
    method Push(x: T)
      requires Valid() && |contents| < items.Length && InStep(items.Length, pushes)
      modifies this, items
      ensures Valid() && contents == old(contents) + [x] && pushes == old(pushes) + 1
      ensures old(items[front % items.Length]).Dead?
    {
      PushRefines(View(), pushes, contents, x);
      var i := front % items.Length;
      items[i] := Live(x);
      front := (front + 1) % WIDTH;
      pushes, contents := pushes + 1, contents + [x];
      assert View() == Apply(old(View()), Op.Push(x)).q;
    }

    /** The caller has asked is_empty; the cell it destroys is live. */
    method Pop() returns (x: T)
      requires Valid() && contents != []
      modifies this, items
      ensures Valid() && x == old(contents)[0] && contents == old(contents)[1..] && pushes == old(pushes)
      ensures old(items[back % items.Length]).Live?
    {
      PopRefines(View(), pushes, contents);
      var i := back % items.Length;
      x := items[i].val;
      items[i] := Dead;
      back := (back + 1) % WIDTH;
      contents := contents[1..];
      assert View() == Apply(old(View()), Op<T>.Pop).q;
    }
  }
}
