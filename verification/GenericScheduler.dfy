/** generic_scheduler (coro_scheduler.h:26-137): a binary min-heap of timed results, re-keyed and
    thinned by identity.

    Time points and identities are integers. A result that has been moved out of is `None`; its
    timestamp and identity stay readable, as they do in the source. */
module TimerHeap {
  import opened Options
  import opened Sequences

  type Ident = nat

  datatype Item<T> = Item(timestamp: int, res: Option<T>, ident: Ident)

  /** `compare` (coro_scheduler.h:93-95). */
  predicate Later<T>(a: Item<T>, b: Item<T>) {
    a.timestamp > b.timestamp
  }

  function Parent(k: nat): nat
    requires k > 0
  {
    (k - 1) / 2
  }

  /** `v` is no later than any child of cell `p`, the cell `but` not counted. */
  ghost predicate NotAbove<T>(h: seq<Item<T>>, p: nat, v: Item<T>, but: nat) {
    && (2 * p + 1 < |h| && 2 * p + 1 != but ==> !Later(v, h[2 * p + 1]))
    && (2 * p + 2 < |h| && 2 * p + 2 != but ==> !Later(v, h[2 * p + 2]))
  }

  /** Cell `p` and its children are in order, the child `but` not counted. */
  ghost predicate Fine<T>(h: seq<Item<T>>, p: nat, but: nat)
    requires p < |h|
  {
    NotAbove(h, p, h[p], but)
  }

  /** No cell is later than a child of it. */
  ghost predicate HeapOrder<T>(h: seq<Item<T>>) {
    forall p: nat :: p < |h| ==> Fine(h, p, 0)
  }

  /** The heap order everywhere but between `pos` and its parent. */
  ghost predicate OrderButAbove<T>(h: seq<Item<T>>, pos: nat)
    requires pos < |h|
  {
    && (forall p: nat :: p < |h| ==> Fine(h, p, pos))
    && (pos > 0 ==> NotAbove(h, pos, h[Parent(pos)], 0))
  }

  /** The heap order everywhere but between `pos` and its children. */
  ghost predicate OrderButBelow<T>(h: seq<Item<T>>, pos: nat)
    requires pos < |h|
  {
    && (forall p: nat :: p < |h| && p != pos ==> Fine(h, p, 0))
    && (pos > 0 ==> NotAbove(h, pos, h[Parent(pos)], 0))
  }

  function Swap<T>(h: seq<Item<T>>, i: nat, j: nat): seq<Item<T>>
    requires i < |h| && j < |h|
  {
    h[i := h[j]][j := h[i]]
  }

  lemma SwapKeeps<T>(h: seq<Item<T>>, i: nat, j: nat)
    requires i < |h| && j < |h|
    ensures multiset(Swap(h, i, j)) == multiset(h)
  {
    SwapMultiset(h, i, j);
  }

  lemma {:induction false} RootIsMin<T>(h: seq<Item<T>>, k: nat)
    requires HeapOrder(h) && k < |h|
    ensures h[0].timestamp <= h[k].timestamp
  {
    if k > 0 {
      assert Fine(h, Parent(k), 0);
      RootIsMin(h, Parent(k));
    }
  }

  /** After an element rose from `start`: cell `k` holds that element, what it held, or what its
      parent held. */
  ghost predicate FromAbove<T>(was: seq<Item<T>>, start: nat, h: seq<Item<T>>, k: nat)
    requires start < |was| == |h| && k <= start
  {
    h[k] == was[start] || (k < start && h[k] == was[k]) || (k > 0 && h[k] == was[Parent(k)])
  }

  /** Cell `k` is `a` or stands below it. */
  predicate Below(a: nat, k: nat) {
    a == k || (k > a && Below(a, Parent(k)))
  }

  /** After an element sank from `start`: cell `k` holds that element, what it held, or what a child
      of it held. */
  ghost predicate FromBelow<T>(was: seq<Item<T>>, start: nat, h: seq<Item<T>>, k: nat)
    requires start < |was| == |h| && k < |h|
  {
    || h[k] == was[start]
    || (k != start && h[k] == was[k])
    || (k >= start && Below(start, k) && HeldByChild(was, k, h[k]))
  }

  ghost predicate HeldByChild<T>(h: seq<Item<T>>, k: nat, x: Item<T>) {
    (2 * k + 1 < |h| && x == h[2 * k + 1]) || (2 * k + 2 < |h| && x == h[2 * k + 2])
  }

  lemma SiftUpStep<T>(h: seq<Item<T>>, pos: nat)
    requires 0 < pos < |h| && OrderButAbove(h, pos) && Later(h[Parent(pos)], h[pos])
    ensures OrderButAbove(Swap(h, Parent(pos), pos), Parent(pos))
  {
    var up := Parent(pos);
    var g := Swap(h, up, pos);
    assert Fine(h, up, pos);
    forall p: nat | p < |g|
      ensures Fine(g, p, up)
    {
      assert Fine(h, p, pos);
    }
    if up > 0 {
      assert Fine(h, Parent(up), pos);
    }
  }

  lemma SiftUpEnds<T>(h: seq<Item<T>>, pos: nat)
    requires pos < |h| && OrderButAbove(h, pos) && (pos > 0 ==> !Later(h[Parent(pos)], h[pos]))
    ensures HeapOrder(h)
  {
    forall p: nat | p < |h|
      ensures Fine(h, p, 0)
    {
      assert Fine(h, p, pos);
    }
  }

  /** A last cell no earlier than the element that sinks from `start` is never touched. */
  ghost predicate TailStays<T>(was: seq<Item<T>>, start: nat, h: seq<Item<T>>, pos: nat) {
    |h| == |was| && start < |h| - 1 && was[|h| - 1].timestamp >= was[start].timestamp ==>
      pos < |h| - 1 && h[|h| - 1] == was[|h| - 1]
  }

  lemma SiftDownStep<T>(h: seq<Item<T>>, pos: nat, child: nat)
    requires pos < |h| && child < |h| && OrderButBelow(h, pos) && Later(h[pos], h[child])
    requires (child == 2 * pos + 1 || child == 2 * pos + 2) && NotAbove(h, pos, h[child], 0)
    ensures OrderButBelow(Swap(h, pos, child), child)
  {
    var g := Swap(h, pos, child);
    forall p: nat | p < |g| && p != child
      ensures Fine(g, p, 0)
    {
      assert p == pos || Fine(h, p, 0);
    }
    assert Fine(h, child, 0);
  }

  lemma SiftDownEnds<T>(h: seq<Item<T>>, pos: nat)
    requires pos < |h| && OrderButBelow(h, pos) && NotAbove(h, pos, h[pos], 0)
    ensures HeapOrder(h)
  {
    assert Fine(h, pos, 0);
  }

  /** The shift-up loop half way: the element of `start` has risen to `pos`. */
  ghost predicate Rising<T>(was: seq<Item<T>>, start: nat, h: seq<Item<T>>, pos: nat) {
    && pos <= start < |h| == |was| && OrderButAbove(h, pos)
    && multiset(h) == multiset(was) && h[pos] == was[start]
    && (forall k :: start < k < |h| ==> h[k] == was[k])
    && (forall k :: 0 <= k < pos ==> h[k] == was[k])
    && (forall k :: pos < k <= start ==> FromAbove(was, start, h, k))
  }

  lemma RisingStep<T>(was: seq<Item<T>>, start: nat, h: seq<Item<T>>, pos: nat)
    requires Rising(was, start, h, pos) && pos > 0 && Later(h[Parent(pos)], h[pos])
    ensures Rising(was, start, Swap(h, Parent(pos), pos), Parent(pos))
  {
    SwapKeeps(h, Parent(pos), pos);
    SiftUpStep(h, pos);
    var g := Swap(h, Parent(pos), pos);
    forall k: nat | Parent(pos) < k <= start
      ensures FromAbove(was, start, g, k)
    {
      if k > pos {
        assert FromAbove(was, start, h, k);
      }
    }
  }

  /** The shift-down loop half way: the element of `start` has sunk to `pos`. */
  ghost predicate Sinking<T>(was: seq<Item<T>>, start: nat, h: seq<Item<T>>, pos: nat) {
    && start <= pos < |h| == |was| && OrderButBelow(h, pos)
    && multiset(h) == multiset(was) && h[pos] == was[start]
    && (forall k :: 0 <= k < start ==> h[k] == was[k])
    && h[start].timestamp <= was[start].timestamp
    && TailStays(was, start, h, pos)
    && Below(start, pos) && (forall k :: pos < k < |h| ==> h[k] == was[k])
    && (forall k: nat :: k < |h| ==> FromBelow(was, start, h, k))
    && (NotAbove(was, start, was[start], 0) ==> pos == start && h == was)
  }

  lemma SinkingStep<T>(was: seq<Item<T>>, start: nat, h: seq<Item<T>>, pos: nat, child: nat)
    requires Sinking(was, start, h, pos) && pos < child < |h| && Later(h[pos], h[child])
    requires (child == 2 * pos + 1 || child == 2 * pos + 2) && NotAbove(h, pos, h[child], 0)
    ensures Sinking(was, start, Swap(h, pos, child), child)
  {
    SwapKeeps(h, pos, child);
    SiftDownStep(h, pos, child);
    var g := Swap(h, pos, child);
    forall k: nat | k < |h|
      ensures FromBelow(was, start, g, k)
    {
      assert FromBelow(was, start, h, k);
    }
  }

  /** The cell among `pos` and its children whose element belongs at `pos` (coro_scheduler.h:118-127). */
  function Largest<T>(h: seq<Item<T>>, pos: nat): (largest: nat)
    requires pos < |h|
    ensures largest == pos || largest == 2 * pos + 1 || largest == 2 * pos + 2
    ensures largest < |h| && NotAbove(h, pos, h[largest], 0)
    ensures largest != pos ==> Later(h[pos], h[largest])
  {
    var left, right := 2 * pos + 1, 2 * pos + 2;
    var l := if left < |h| && Later(h[pos], h[left]) then left else pos;
    if right < |h| && Later(h[l], h[right]) then right else l
  }

  /** Where the element in cell `k` came from when the one at `pos` was replaced by `v`. */
  ghost predicate FromBefore<T>(was: seq<Item<T>>, pos: nat, v: Item<T>, h: seq<Item<T>>, k: nat)
    requires pos < |was| == |h| && k <= pos
  {
    || h[k] == v
    || (k < pos && h[k] == was[k])
    || (k > 0 && h[k] == was[Parent(k)])
    || (k == pos && h[k].timestamp <= v.timestamp)
  }

  /** The same for every cell: what it holds is `v`, was there, or came from its parent on the way up
      to the replaced cell or from a child below it. */
  ghost predicate Origin<T>(was: seq<Item<T>>, pos: nat, v: Item<T>, h: seq<Item<T>>, k: nat)
    requires pos < |was| == |h| && k < |h|
  {
    || h[k] == v
    || (k != pos && h[k] == was[k])
    || (0 < k <= pos && h[k] == was[Parent(k)])
    || (k >= pos && Below(pos, k) && HeldByChild(was, k, h[k]))
  }

  lemma ReplaceEarlier<T>(h: seq<Item<T>>, pos: nat, v: Item<T>)
    requires HeapOrder(h) && pos < |h| && Later(h[pos], v)
    ensures OrderButAbove(h[pos := v], pos)
  {
    var g := h[pos := v];
    forall p: nat | p < |g|
      ensures Fine(g, p, pos)
    {
      assert Fine(h, p, 0);
    }
    if pos > 0 {
      assert Fine(h, Parent(pos), 0) && Fine(h, pos, 0);
    }
  }

  lemma ReplaceLater<T>(h: seq<Item<T>>, pos: nat, v: Item<T>)
    requires HeapOrder(h) && pos < |h| && !Later(h[pos], v)
    ensures OrderButBelow(h[pos := v], pos)
  {
    var g := h[pos := v];
    forall p: nat | p < |g| && p != pos
      ensures Fine(g, p, 0)
    {
      assert Fine(h, p, 0);
    }
    if pos > 0 {
      assert Fine(h, Parent(pos), 0) && Fine(h, pos, 0);
    }
  }

  lemma AppendIsButAbove<T>(h: seq<Item<T>>)
    requires h != [] && HeapOrder(h[..|h| - 1])
    ensures OrderButAbove(h, |h| - 1)
  {
    var g, last := h[..|h| - 1], |h| - 1;
    forall p: nat | p < |h|
      ensures Fine(h, p, last)
    {
      assert p < |g| ==> Fine(g, p, 0);
    }
  }

  lemma ShrinkIsButBelow<T>(h: seq<Item<T>>)
    requires HeapOrder(h) && |h| > 0
    ensures |h| > 1 ==> OrderButBelow(Swap(h, 0, |h| - 1)[..|h| - 1], 0)
  {
    var g := Swap(h, 0, |h| - 1)[..|h| - 1];
    forall p: nat | p < |g| && p != 0
      ensures Fine(g, p, 0)
    {
      assert Fine(h, p, 0);
    }
  }

  lemma PrefixIsHeap<T>(h: seq<Item<T>>, n: nat)
    requires HeapOrder(h) && n <= |h|
    ensures HeapOrder(h[..n])
  {
    var g := h[..n];
    forall p: nat | p < |g|
      ensures Fine(g, p, 0)
    {
      assert Fine(h, p, 0);
    }
  }

  // ---------- The specification: a multiset of timed entries ----------

  datatype Op<T> =
    | Insert(item: Item<T>)
    | TakeFirst
    | TakeIdent(ident: Ident)
    | Rekey(ident: Ident, tp: int)

  ghost predicate IsFirst<T>(m: multiset<Item<T>>, item: Item<T>) {
    item in m && forall x :: x in m ==> item.timestamp <= x.timestamp
  }

  ghost function FirstTime<T>(m: multiset<Item<T>>): (tm: Option<int>)
    ensures tm.None? <==> m == multiset{}
    ensures tm.Some? ==> exists x :: x in m && x.timestamp == tm.value
    ensures tm.Some? ==> forall x :: x in m ==> tm.value <= x.timestamp
  {
    if m == multiset{} then None
    else
      EarliestExists(m);
      var x :| IsFirst(m, x);
      Some(x.timestamp)
  }

  lemma {:induction false} EarliestExists<T>(m: multiset<Item<T>>)
    requires m != multiset{}
    ensures exists x :: IsFirst(m, x)
    decreases |m|
  {
    var y :| y in m;
    var rest := m - multiset{y};
    if rest == multiset{} {
      assert m == multiset{y};
      assert IsFirst(m, y);
    } else {
      EarliestExists(rest);
      var x :| IsFirst(rest, x);
      assert m == rest + multiset{y};
      assert IsFirst(m, if x.timestamp <= y.timestamp then x else y);
    }
  }

  lemma RootIsFirst<T>(h: seq<Item<T>>)
    requires HeapOrder(h) && h != []
    ensures IsFirst(multiset(h), h[0]) && FirstTime(multiset(h)) == Some(h[0].timestamp)
  {
    assert h[0] in multiset(h);
    forall x | x in multiset(h)
      ensures h[0].timestamp <= x.timestamp
    {
      assert x in h;
      var k :| 0 <= k < |h| && h[k] == x;
      RootIsMin(h, k);
    }
  }

  /** One entry left as it was, or a match set to the new time. */
  predicate RetimedItem<T(==)>(x: Item<T>, y: Item<T>, ident: Ident, tp: int) {
    y == x || (x.ident == ident && y == x.(timestamp := tp))
  }

  /** Entry by entry, `g` is `h` with some of the entries under `ident` set to `tp`. */
  ghost predicate Retimed<T>(h: seq<Item<T>>, g: seq<Item<T>>, ident: Ident, tp: int) {
    |h| == |g| && forall k :: 0 <= k < |h| ==> RetimedItem(h[k], g[k], ident, tp)
  }

  /** What an operation does to the entries, and which one it takes out. */
  ghost predicate HeapStep<T(!new)>(m: multiset<Item<T>>, op: Op<T>, taken: Option<Item<T>>, m': multiset<Item<T>>) {
    match op
    case Insert(item) => taken == None && m' == m + multiset{item}
    case TakeFirst =>
      if m == multiset{} then taken == None && m' == m
      else taken.Some? && IsFirst(m, taken.value) && m' == m - multiset{taken.value}
    case TakeIdent(ident) =>
      if forall x :: x in m ==> x.ident != ident then taken == None && m' == m
      else taken.Some? && taken.value in m && taken.value.ident == ident && m' == m - multiset{taken.value}
    case Rekey(ident, tp) =>
      && taken == None
      && (exists h, g :: multiset(h) == m && multiset(g) == m' && Retimed(h, g, ident, tp))
      && (Has(m, ident) ==> HasAt(m', ident, tp))
      && (forall x :: x in m' && x.ident == ident ==> x.timestamp <= tp)
  }

  ghost predicate Has<T>(m: multiset<Item<T>>, ident: Ident) {
    exists x :: x in m && x.ident == ident
  }

  ghost predicate HasAt<T>(m: multiset<Item<T>>, ident: Ident, tp: int) {
    exists x :: x in m && x.ident == ident && x.timestamp == tp
  }

  /** set_time half way: the cells before `i` have been scanned, and entry by entry `g` is the
      original heap `was` re-keyed so far, of which `h` is a permutation. */
  ghost predicate Scanned<T>(was: seq<Item<T>>, g: seq<Item<T>>, h: seq<Item<T>>, i: nat,
                             ident: Ident, tp: int, ok: bool)
  {
    && i <= |h| == |was| && HeapOrder(h)
    && Retimed(was, g, ident, tp) && multiset(h) == multiset(g)
    && (forall k :: 0 <= k < i && h[k].ident == ident ==> h[k].timestamp <= tp)
    && (if ok then Has(multiset(was), ident) && HasAt(multiset(h), ident, tp)
        else h == was && forall k :: 0 <= k < i ==> h[k].ident != ident)
  }

  /** A match at `i` re-keyed and sifted: `h'` is the heap after it. */
  lemma ScanMatch<T>(was: seq<Item<T>>, g: seq<Item<T>>, h: seq<Item<T>>, h': seq<Item<T>>, i: nat,
                     ident: Ident, tp: int, ok: bool)
    returns (g': seq<Item<T>>)
    requires Scanned(was, g, h, i, ident, tp, ok) && i < |h| && h[i].ident == ident
    requires HeapOrder(h') && |h'| == |h|
    requires var v := h[i].(timestamp := tp);
             multiset(h') == multiset(h[i := v]) && forall k :: 0 <= k <= i ==> FromBefore(h, i, v, h', k)
    ensures Scanned(was, g', h', i + 1, ident, tp, true)
  {
    var v := h[i].(timestamp := tp);
    UpdateMultiset(h, i, v);
    g' := RekeyWitness(was, g, h[i], ident, tp);
    assert multiset(h') == multiset(g');
    assert v in multiset(h');
    forall k | 0 <= k < i + 1 && h'[k].ident == ident
      ensures h'[k].timestamp <= tp
    {
      assert FromBefore(h, i, v, h', k);
    }
  }

  lemma RekeyWitness<T>(was: seq<Item<T>>, g: seq<Item<T>>, x: Item<T>, ident: Ident, tp: int)
    returns (g': seq<Item<T>>)
    requires Retimed(was, g, ident, tp) && x in multiset(g) && x.ident == ident
    ensures Retimed(was, g', ident, tp) && Has(multiset(was), ident)
    ensures multiset(g') == multiset(g) - multiset{x} + multiset{x.(timestamp := tp)}
  {
    assert x in g;
    var j :| 0 <= j < |g| && g[j] == x;
    UpdateMultiset(g, j, x.(timestamp := tp));
    g' := g[j := x.(timestamp := tp)];
    assert RetimedItem(was[j], g[j], ident, tp);
    assert was[j] in multiset(was) && was[j].ident == ident;
  }

  lemma ScanDone<T(!new)>(was: seq<Item<T>>, g: seq<Item<T>>, h: seq<Item<T>>, ident: Ident, tp: int, ok: bool)
    requires Scanned(was, g, h, |h|, ident, tp, ok)
    ensures HeapStep(multiset(was), Rekey(ident, tp), None, multiset(h)) && ok == Has(multiset(was), ident)
  {
    forall x | x in multiset(h) && x.ident == ident
      ensures x.timestamp <= tp
    {
      assert x in h;
    }
    if !ok {
      assert forall x :: x in multiset(was) ==> x in was;
    }
  }

  /** The entry in cell `k` is a match at another time. */
  predicate OffTime<T(==)>(h: seq<Item<T>>, k: nat, ident: Ident, tp: int) {
    k < |h| && h[k].ident == ident && h[k].timestamp != tp
  }

  /** Of the matches at another time none stands above another. */
  ghost predicate Apart<T>(h: seq<Item<T>>, ident: Ident, tp: int) {
    forall a: nat, k: nat :: a < k && OffTime(h, a, ident, tp) && OffTime(h, k, ident, tp) ==> !Below(a, k)
  }

  ghost predicate AllAt<T>(m: multiset<Item<T>>, ident: Ident, tp: int) {
    forall x :: x in m && x.ident == ident ==> x.timestamp == tp
  }

  /** The scan has left no match at another time behind, and those ahead are apart. */
  ghost predicate Ahead<T>(h: seq<Item<T>>, i: nat, ident: Ident, tp: int) {
    && Apart(h, ident, tp)
    && forall k: nat :: k < i ==> !OffTime(h, k, ident, tp)
  }

  lemma RoseToOrigin<T>(was: seq<Item<T>>, pos: nat, v: Item<T>, placed: seq<Item<T>>, h: seq<Item<T>>)
    requires pos < |was| == |h| && placed == was[pos := v]
    requires forall k :: 0 <= k <= pos ==> FromAbove(placed, pos, h, k)
    requires forall k :: pos < k < |h| ==> h[k] == was[k]
    ensures forall k: nat :: k < |h| ==> Origin(was, pos, v, h, k)
  {
    forall k: nat | k < |h|
      ensures Origin(was, pos, v, h, k)
    {
      assert k <= pos ==> FromAbove(placed, pos, h, k);
    }
  }

  lemma SankToOrigin<T>(was: seq<Item<T>>, pos: nat, v: Item<T>, placed: seq<Item<T>>, h: seq<Item<T>>)
    requires pos < |was| == |h| && placed == was[pos := v]
    requires forall k: nat :: k < |h| ==> FromBelow(placed, pos, h, k)
    ensures forall k: nat :: k < |h| ==> Origin(was, pos, v, h, k)
  {
    forall k: nat | k < |h|
      ensures Origin(was, pos, v, h, k)
    {
      assert FromBelow(placed, pos, h, k);
    }
  }

  /** A child of a cell below `i` stands below `i`, so it is no match at another time when `i` is. */
  lemma ChildOnTime<T>(h: seq<Item<T>>, i: nat, k: nat, c: nat, ident: Ident, tp: int)
    requires Apart(h, ident, tp) && OffTime(h, i, ident, tp) && i <= k && Below(i, k)
    requires c == 2 * k + 1 || c == 2 * k + 2
    ensures !OffTime(h, c, ident, tp)
  {
    assert Parent(c) == k && Below(i, c);
  }

  /** What a sifted match brings to a cell is no match at another time, unless it stood ahead. */
  lemma StaysAhead<T>(h: seq<Item<T>>, h': seq<Item<T>>, i: nat, k: nat, ident: Ident, tp: int)
    requires Ahead(h, i, ident, tp) && i < |h| == |h'| && OffTime(h, i, ident, tp)
    requires k < |h| && Origin(h, i, h[i].(timestamp := tp), h', k)
    ensures OffTime(h', k, ident, tp) ==> OffTime(h, k, ident, tp) && k > i
  {
    if h'[k] == h[i].(timestamp := tp) {
      assert !OffTime(h', k, ident, tp);
    } else if k != i && h'[k] == h[k] {
      assert OffTime(h', k, ident, tp) == OffTime(h, k, ident, tp);
    } else if 0 < k <= i && h'[k] == h[Parent(k)] {
      assert !OffTime(h, Parent(k), ident, tp);
    } else {
      var c := if 2 * k + 1 < |h| && h'[k] == h[2 * k + 1] then 2 * k + 1 else 2 * k + 2;
      ChildOnTime(h, i, k, c, ident, tp);
    }
  }

  /** A match re-keyed and sifted brings no other match at another time behind the scan. */
  lemma ScanAhead<T>(h: seq<Item<T>>, h': seq<Item<T>>, i: nat, ident: Ident, tp: int, v: Item<T>)
    requires Ahead(h, i, ident, tp) && i < |h| == |h'| && h[i].ident == ident && v == h[i].(timestamp := tp)
    requires forall k: nat :: k < |h| ==> Origin(h, i, v, h', k)
    requires h[i].timestamp == tp ==> h' == h
    ensures Ahead(h', i + 1, ident, tp)
  {
    if OffTime(h, i, ident, tp) {
      forall k: nat | OffTime(h', k, ident, tp)
        ensures OffTime(h, k, ident, tp) && k > i
      {
        assert Origin(h, i, v, h', k);
        StaysAhead(h, h', i, k, ident, tp);
      }
    }
  }

  lemma AheadDone<T>(h: seq<Item<T>>, ident: Ident, tp: int)
    requires Ahead(h, |h|, ident, tp)
    ensures AllAt(multiset(h), ident, tp)
  {
    forall x | x in multiset(h) && x.ident == ident
      ensures x.timestamp == tp
    {
      assert x in h;
      var k :| 0 <= k < |h| && h[k] == x;
      assert !OffTime(h, k, ident, tp);
    }
  }

  /** The same of a scan whose step took the result out of the entry first. */
  lemma RekeyAhead<T>(h: seq<Item<T>>, moved: seq<Item<T>>, h': seq<Item<T>>, i: nat,
                      ident: Ident, tp: int, v: Item<T>)
    requires i < |h| == |h'| && h[i].ident == ident && v == h[i].(timestamp := tp)
    requires moved == h[i := h[i].(res := None)]
    requires forall k: nat :: k < |h| ==> Origin(moved, i, v, h', k)
    requires h[i].timestamp == tp ==> h' == moved[i := v]
    ensures Ahead(h, i, ident, tp) ==> Ahead(h', i + 1, ident, tp)
  {
    forall k: nat | k < |h|
      ensures Origin(h, i, v, h', k)
    {
      assert Origin(moved, i, v, h', k);
    }
    if Ahead(h, i, ident, tp) {
      ScanAhead(h, h', i, ident, tp, v);
    }
  }

  /** Moving a result out does not disturb the order. */
  lemma ClearKeepsOrder<T>(h: seq<Item<T>>, i: nat)
    requires HeapOrder(h) && i < |h|
    ensures HeapOrder(h[i := h[i].(res := None)])
  {
    var g := h[i := h[i].(res := None)];
    forall p: nat | p < |g|
      ensures Fine(g, p, 0)
    {
      assert Fine(h, p, 0);
    }
  }

  /** The entry `i` is gone when the last one has taken its place and the stale last cell is popped. */
  lemma StaleTail<T>(h: seq<Item<T>>, i: nat, h': seq<Item<T>>)
    requires i < |h| - 1 && |h'| == |h|
    requires var stale := h[|h| - 1].(res := None);
             && h'[|h| - 1] == stale
             && multiset(h') == multiset(h[i := h[|h| - 1]][|h| - 1 := stale])
    ensures multiset(h'[..|h| - 1]) == multiset(h) - multiset{h[i]}
  {
    var n := |h| - 1;
    var g := h[i := h[n]][n := h'[n]];
    SameLast(g, h');
    FillHole(h, i);
    assert g[..n] == h[i := h[n]][..n];
    TakeOut(multiset(g[..n]), h[i], multiset(h));
  }

  /** Taking out the root with its result moved out leaves what taking out the root leaves. */
  lemma RootEmptied<T>(was: seq<Item<T>>, h: seq<Item<T>>)
    requires was != [] && h == was[0 := was[0].(res := None)]
    ensures multiset(h) - multiset{h[0]} == multiset(was) - multiset{was[0]}
  {
    assert h[1..] == was[1..];
    Head(h);
    Head(was);
    TakeOut(multiset(h[1..]), h[0], multiset(h));
    TakeOut(multiset(was[1..]), was[0], multiset(was));
  }

  class Heap<T(==,!new)> {
    var heap: seq<Item<T>>

    ghost predicate Valid()
      reads this
    {
      HeapOrder(heap)
    }

    constructor ()
      ensures Valid() && heap == []
    {
      heap := [];
    }

    /** The shift-up loop. What it moves down past `start` was later than the element that rises. */
    method SiftUp(start: nat)
      requires start < |heap| && OrderButAbove(heap, start)
      modifies this
      ensures HeapOrder(heap) && multiset(heap) == multiset(old(heap)) && |heap| == |old(heap)|
      ensures forall k :: start < k < |heap| ==> heap[k] == old(heap)[k]
      ensures forall k :: 0 <= k <= start ==> FromAbove(old(heap), start, heap, k)
    {
      var pos: nat := start;
      while pos > 0
        invariant Rising(old(heap), start, heap, pos)
      {
        var parent := Parent(pos);
        if Later(heap[parent], heap[pos]) {
          RisingStep(old(heap), start, heap, pos);
          heap := Swap(heap, parent, pos);
          pos := parent;
        } else {
          break;
        }
      }
      SiftUpEnds(heap, pos);
    }

    /** The shift-down loop. */
    method SiftDown(start: nat)
      requires start < |heap| && OrderButBelow(heap, start)
      modifies this
      ensures HeapOrder(heap) && multiset(heap) == multiset(old(heap)) && |heap| == |old(heap)|
      ensures forall k :: 0 <= k < start ==> heap[k] == old(heap)[k]
      ensures heap[start].timestamp <= old(heap)[start].timestamp
      ensures TailStays(old(heap), start, heap, start)
      ensures forall k: nat :: k < |heap| ==> FromBelow(old(heap), start, heap, k)
      ensures NotAbove(old(heap), start, old(heap)[start], 0) ==> heap == old(heap)
    {
      var pos: nat := start;
      while true
        invariant Sinking(old(heap), start, heap, pos)
        decreases |heap| - pos
      {
        var largest := Largest(heap, pos);
        if largest != pos {
          SinkingStep(old(heap), start, heap, pos, largest);
          heap := Swap(heap, pos, largest);
          pos := largest;
        } else {
          SiftDownEnds(heap, pos);
          break;
        }
      }
    }

    /** std::push_heap of [alg.heap.operations]: the last element joins the heap before it. */
    method PushHeap()
      requires heap != [] && HeapOrder(heap[..|heap| - 1])
      modifies this
      ensures Valid() && multiset(heap) == multiset(old(heap))
    {
      AppendIsButAbove(heap);
      SiftUp(|heap| - 1);
    }

    /** std::pop_heap of [alg.heap.operations]: the first element goes to the back, the rest is a heap. */
    method PopHeap()
      requires heap != [] && Valid()
      modifies this
      ensures |heap| == |old(heap)| && HeapOrder(heap[..|heap| - 1]) && heap[|heap| - 1] == old(heap)[0]
      ensures multiset(heap) == multiset(old(heap))
    {
      var top := heap[0];
      ghost var was := heap;
      ShrinkIsButBelow(heap);
      SwapKeeps(heap, 0, |heap| - 1);
      heap := Swap(heap, 0, |heap| - 1)[..|heap| - 1];
      assert Swap(was, 0, |was| - 1) == heap + [top];
      if heap != [] {
        SiftDown(0);
      }
      heap := heap + [top];
      assert heap[..|heap| - 1] + [top] == heap;
    }

    method ScheduleAt(x: T, timestamp: int, ident: Ident)
      requires Valid()
      modifies this
      ensures Valid()
      ensures HeapStep(multiset(old(heap)), Insert(Item(timestamp, Some(x), ident)), None, multiset(heap))
      ensures multiset(heap) == multiset(old(heap)) + multiset{Item(timestamp, Some(x), ident)}
    {
      heap := heap + [Item(timestamp, Some(x), ident)];
      PushHeap();
    }

    method GetFirstScheduledTime() returns (tm: Option<int>)
      requires Valid()
      ensures tm == FirstTime(multiset(heap))
    {
      if heap == [] {
        return None;
      }
      RootIsFirst(heap);
      tm := Some(heap[0].timestamp);
    }

    /** Removes the root, whatever else may be as early, and returns its result. */
    method RemoveFirst() returns (out: Option<T>)
      requires Valid()
      modifies this
      ensures Valid()
      ensures if old(heap) == [] then heap == [] && out == None
              else |heap| == |old(heap)| - 1 && multiset(heap) == multiset(old(heap)) - multiset{old(heap)[0]}
                   && out == old(heap)[0].res
      ensures old(heap) != [] ==> HeapStep(multiset(old(heap)), TakeFirst, Some(old(heap)[0]), multiset(heap))
      ensures old(heap) == [] ==> HeapStep(multiset(old(heap)), TakeFirst, None, multiset(heap))
    {
      out := None;
      if heap != [] {
        RootIsFirst(heap);
        PopHeap();
        out := heap[|heap| - 1].res;
        assert heap == heap[..|heap| - 1] + [heap[|heap| - 1]];
        heap := heap[..|heap| - 1];
      }
    }

    /** Replaces the element at `pos` by `v`, of any time, and sifts. What ends up in the cells up to
        `pos` was there before, is `v`, or is no later than `v`. A last cell with the time of `v` is
        left where it is, and a replacement that keeps the time moves nothing. */
    method UpdateHeapElement(pos: nat, v: Item<T>)
      requires Valid() && pos < |heap|
      modifies this
      ensures Valid() && |heap| == |old(heap)| && multiset(heap) == multiset(old(heap)[pos := v])
      ensures forall k :: 0 <= k <= pos ==> FromBefore(old(heap), pos, v, heap, k)
      ensures forall k: nat :: k < |heap| ==> Origin(old(heap), pos, v, heap, k)
      ensures old(heap)[pos].timestamp == v.timestamp ==> heap == old(heap)[pos := v]
      ensures pos < |heap| - 1 && old(heap)[|heap| - 1].timestamp == v.timestamp ==>
                heap[|heap| - 1] == old(heap)[|heap| - 1]
    {
      var shiftUp := Later(heap[pos], v);
      ghost var was := heap;
      heap := heap[pos := v];
      ghost var placed := heap;
      if shiftUp {
        ReplaceEarlier(was, pos, v);
        SiftUp(pos);
        forall k: nat | k <= pos
          ensures FromBefore(was, pos, v, heap, k)
        {
          assert FromAbove(placed, pos, heap, k);
        }
        RoseToOrigin(was, pos, v, placed, heap);
      } else {
        ReplaceLater(was, pos, v);
        assert Fine(was, pos, 0);
        SiftDown(pos);
        SankToOrigin(was, pos, v, placed, heap);
      }
    }

    /** Takes out the first entry of the array under `ident`. The middle case sifts while the
        moved-from last element is still in range. */
    method RemoveByIdent(ident: Ident) returns (r: Option<T>, ghost taken: Option<Item<T>>)
      requires Valid()
      modifies this
      ensures Valid() && HeapStep(multiset(old(heap)), TakeIdent(ident), taken, multiset(heap))
      ensures r == if taken.Some? then taken.value.res else None
      ensures taken.Some? <==> Has(multiset(old(heap)), ident)
      ensures taken.Some? ==>
                taken.value.ident == ident && multiset(heap) == multiset(old(heap)) - multiset{taken.value}
    {
      var cnt := |heap|;
      r, taken := None, None;
      for i := 0 to cnt
        invariant heap == old(heap) && r == None && taken == None
        invariant forall k :: 0 <= k < i ==> heap[k].ident != ident
      {
        if heap[i].ident == ident {
          taken := Some(heap[i]);
          r := heap[i].res;
          RemoveAt(i);
          return;
        }
      }
      assert forall x :: x in multiset(heap) ==> x in heap;
    }

    /** The body of the scan at a match: the result is moved out, and the entry removed. */
    method RemoveAt(i: nat)
      requires Valid() && i < |heap|
      modifies this
      ensures Valid() && multiset(heap) == multiset(old(heap)) - multiset{old(heap)[i]}
    {
      ghost var was := heap;
      ClearKeepsOrder(heap, i);
      heap := heap[i := heap[i].(res := None)];
      if i == 0 {
        RemoveRoot(was);
      } else if i == |heap| - 1 {
        RemoveLast(was);
      } else {
        FillFromBack(i, was);
      }
    }

    method RemoveRoot(ghost was: seq<Item<T>>)
      requires Valid() && |was| == |heap| > 0 && heap == was[0 := was[0].(res := None)]
      modifies this
      ensures Valid() && multiset(heap) == multiset(was) - multiset{was[0]}
    {
      RootEmptied(was, heap);
      var _ := RemoveFirst();
    }

    method RemoveLast(ghost was: seq<Item<T>>)
      requires Valid() && |was| == |heap| > 0 && heap == was[|was| - 1 := was[|was| - 1].(res := None)]
      modifies this
      ensures Valid() && multiset(heap) == multiset(was) - multiset{was[|was| - 1]}
    {
      var n := |heap| - 1;
      PrefixIsHeap(heap, n);
      PopBack(was);
      TakeOut(multiset(was[..n]), was[n], multiset(was));
      assert heap[..n] == was[..n];
      heap := heap[..n];
    }

    /** The middle case: the last element moves to `i`, a moved-from copy of it stays behind, and
        that copy is what pop_back then removes. */
    method FillFromBack(i: nat, ghost was: seq<Item<T>>)
      requires Valid() && |was| == |heap| && i < |heap| - 1 && heap == was[i := was[i].(res := None)]
      modifies this
      ensures Valid() && multiset(heap) == multiset(was) - multiset{was[i]}
    {
      var n := |heap| - 1;
      var last := heap[n];
      var stale := last.(res := None);
      ClearKeepsOrder(heap, n);
      heap := heap[n := stale];
      ghost var placed := heap[i := last];
      UpdateHeapElement(i, last);
      assert placed == was[i := last][n := stale];
      StaleTail(was, i, heap);
      PrefixIsHeap(heap, n);
      heap := heap[..n];
    }

    /** One index pass over an array that every match re-orders. None is left later than the new time;
        where no match at another time stands above another, all get the new time. */
    method SetTime(ident: Ident, newTp: int) returns (ok: bool)
      requires Valid()
      modifies this
      ensures Valid() && |heap| == |old(heap)|
      ensures HeapStep(multiset(old(heap)), Rekey(ident, newTp), None, multiset(heap))
      ensures ok == Has(multiset(old(heap)), ident)
      ensures Apart(old(heap), ident, newTp) ==> AllAt(multiset(heap), ident, newTp)
    {
      ok := false;
      ghost var g := heap;
      var cnt := |heap|;
      for i := 0 to cnt
        invariant Scanned(old(heap), g, heap, i, ident, newTp, ok)
        invariant Apart(old(heap), ident, newTp) ==> Ahead(heap, i, ident, newTp)
      {
        if heap[i].ident == ident {
          g := RekeyAt(old(heap), g, i, ident, newTp, ok);
          ok := true;
        }
      }
      ScanDone(old(heap), g, heap, ident, newTp, ok);
      if Apart(old(heap), ident, newTp) {
        AheadDone(heap, ident, newTp);
      }
    }

    /** The body of the scan at a match: the result is moved out, and moved back in with the new time. */
    method RekeyAt(ghost was: seq<Item<T>>, ghost g: seq<Item<T>>, i: nat, ident: Ident, newTp: int, ghost ok: bool)
      returns (ghost g': seq<Item<T>>)
      requires i < |heap| && heap[i].ident == ident && Scanned(was, g, heap, i, ident, newTp, ok)
      modifies this
      ensures |heap| == |old(heap)| && Scanned(was, g', heap, i + 1, ident, newTp, true)
      ensures Ahead(old(heap), i, ident, newTp) ==> Ahead(heap, i + 1, ident, newTp)
    {
      var r := heap[i].res;
      ClearKeepsOrder(heap, i);
      heap := heap[i := heap[i].(res := None)];
      ghost var moved := heap;
      var v := Item(newTp, r, ident);
      UpdateHeapElement(i, v);
      assert moved[i := v] == old(heap)[i := v];
      forall k: nat | k <= i
        ensures FromBefore(old(heap), i, v, heap, k)
      {
        assert FromBefore(moved, i, v, heap, k);
      }
      g' := ScanMatch(was, g, old(heap), heap, i, ident, newTp, ok);
      RekeyAhead(old(heap), moved, heap, i, ident, newTp, v);
    }

    method Empty() returns (b: bool)
      requires Valid()
      ensures b == (multiset(heap) == multiset{})
    {
      b := heap == [];
      if !b {
        assert heap[0] in multiset(heap);
      }
    }
  }
}
