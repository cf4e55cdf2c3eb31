/** One tenant's blocks as an indexed binary min-heap (internal/cache/gdsf.go, gdsfHeap), with the
    sift loops of container/heap. Swap, Push and Pop keep every item's own index up to date.

    The order is proved on the sequence of priorities alone; the sift methods then show that swapping
    items swaps priorities, so the same facts hold of the items. */
module GdsfHeap {
  import opened Bytes

  /** gdsfItem, found by its key. */
  datatype Tracked = Tracked(tenant: Blob, size: int, cost: real, freq: nat, priority: real, index: int)

  type Items = map<Digest, Tracked>

  // --- heap order, on the priorities alone -----------------------------------------------------

  /** The parent of heap position j; Go's (j-1)/2 truncates, so position 0 is its own parent. */
  function Parent(j: nat): (i: nat)
    ensures i <= j && (j > 0 ==> i < j)
  {
    if j == 0 then 0 else (j - 1) / 2
  }

  /** The first n positions form a heap. */
  ghost predicate Ordered(p: seq<real>, n: nat)
    requires n <= |p|
  {
    forall j: nat :: 0 < j < n ==> p[Parent(j)] <= p[j]
  }

  /** A heap but for position k, which may be too small for its parent. */
  ghost predicate OrderedBelow(p: seq<real>, n: nat, k: nat)
    requires k < n <= |p|
  {
    && (forall j: nat :: 0 < j < n && j != k ==> p[Parent(j)] <= p[j])
    && (forall j: nat :: 0 < j < n && Parent(j) == k ==> p[Parent(k)] <= p[j])
  }

  /** A heap but for position k, which may be too small for its parent or too large for its
      children. */
  ghost predicate OrderedAround(p: seq<real>, n: nat, k: nat)
    requires k < n <= |p|
  {
    && (forall j: nat :: 0 < j < n && j != k && Parent(j) != k ==> p[Parent(j)] <= p[j])
    && (forall j: nat :: 0 < j < n && Parent(j) == k && k > 0 ==> p[Parent(k)] <= p[j])
  }

  function Swapped<T>(s: seq<T>, i: nat, j: nat): (r: seq<T>)
    requires i < |s| && j < |s|
    ensures |r| == |s|
  {
    s[i := s[j]][j := s[i]]
  }

  lemma {:induction false} SwapKeeps<T>(s: seq<T>, i: nat, j: nat)
    requires i < |s| && j < |s|
    ensures multiset(Swapped(s, i, j)) == multiset(s)
  {
  }

  /** One step of up. */
  lemma {:induction false} UpStep(p: seq<real>, n: nat, j: nat)
    requires 0 < j < n <= |p| && OrderedBelow(p, n, j) && p[j] < p[Parent(j)]
    ensures OrderedBelow(Swapped(p, Parent(j), j), n, Parent(j))
  {
    var i, q := Parent(j), Swapped(p, Parent(j), j);
    forall k: nat | 0 < k < n && k != i
      ensures q[Parent(k)] <= q[k]
    {
      assert k != j ==> p[Parent(k)] <= p[k];
    }
    forall k: nat | 0 < k < n && Parent(k) == i
      ensures q[Parent(i)] <= q[k]
    {
      assert i > 0 ==> p[Parent(i)] <= p[i];
      assert k != j ==> p[i] <= p[k];
    }
  }

  /** One step of down: j is the smaller child of i. */
  lemma {:induction false} DownStep(p: seq<real>, n: nat, i: nat, j: nat)
    requires i < j < n <= |p| && Parent(j) == i && OrderedAround(p, n, i) && p[j] < p[i]
    requires forall k: nat :: 0 < k < n && Parent(k) == i ==> p[j] <= p[k]
    ensures var q := Swapped(p, i, j);
            OrderedAround(q, n, j) && q[i] < q[j] && (i > 0 ==> q[Parent(i)] <= q[i])
  {
    var q := Swapped(p, i, j);
    forall k: nat | 0 < k < n && k != j && Parent(k) != j
      ensures q[Parent(k)] <= q[k]
    {
      if k != i && Parent(k) != i {
        assert p[Parent(k)] <= p[k];
      }
    }
    forall k: nat | 0 < k < n && Parent(k) == j
      ensures q[Parent(j)] <= q[k]
    {
      assert p[Parent(k)] <= p[k];
    }
  }

  /** Where down stops without having moved, only the parent can still be wrong. */
  lemma {:induction false} DownStops(p: seq<real>, n: nat, i: nat)
    requires i < n <= |p| && OrderedAround(p, n, i)
    requires forall k: nat :: 0 < k < n && Parent(k) == i ==> p[i] <= p[k]
    ensures OrderedBelow(p, n, i)
    ensures i == 0 || p[Parent(i)] <= p[i] ==> Ordered(p, n)
  {
    forall j: nat | 0 < j < n && j != i
      ensures p[Parent(j)] <= p[j]
    {
    }
  }

  lemma {:induction false} RootIsLeast(p: seq<real>, n: nat, j: nat)
    requires n <= |p| && Ordered(p, n) && j < n
    ensures p[0] <= p[j]
    decreases j
  {
    if j > 0 {
      RootIsLeast(p, n, Parent(j));
    }
  }

  lemma {:induction false} PushOrder(p: seq<real>, v: real)
    requires Ordered(p, |p|)
    ensures OrderedBelow(p + [v], |p| + 1, |p|)
  {
  }

  lemma {:induction false} FixOrder(p: seq<real>, i: nat, v: real)
    requires i < |p| && Ordered(p, |p|)
    ensures OrderedAround(p[i := v], |p|, i)
  {
    forall j: nat | 0 < j < |p| && Parent(j) == i && i > 0
      ensures p[Parent(i)] <= p[j]
    {
      assert p[Parent(i)] <= p[i];
    }
  }

  lemma {:induction false} RemoveOrder(p: seq<real>, i: nat, n: nat)
    requires i < n < |p| && n == |p| - 1 && Ordered(p, |p|)
    ensures OrderedAround(Swapped(p, i, n), n, i)
  {
    FixOrder(p, i, p[n]);
  }

  lemma {:induction false} SmallerChild(p: seq<real>, n: nat, i: nat, j: nat)
    requires j < n <= |p| && (j == 2 * i + 1 || j == 2 * i + 2)
    requires 2 * i + 1 < n ==> p[j] <= p[2 * i + 1]
    requires 2 * i + 2 < n ==> p[j] <= p[2 * i + 2]
    ensures Parent(j) == i
    ensures forall k: nat :: 0 < k < n && Parent(k) == i ==> p[j] <= p[k]
  {
    forall k: nat | 0 < k < n && Parent(k) == i
      ensures k == 2 * i + 1 || k == 2 * i + 2
    {
    }
  }

  // --- the heap itself -------------------------------------------------------------------------

  /** A heap is a list of keys; every listed item knows its own position. */
  ghost predicate Indexed(h: seq<Digest>, items: Items) {
    forall i :: 0 <= i < |h| ==> h[i] in items && items[h[i]].index == i
  }

  /** p lists the priorities of h, position by position. */
  ghost predicate Prioritised(h: seq<Digest>, items: Items, p: seq<real>) {
    |p| == |h| && forall i :: 0 <= i < |h| ==> h[i] in items && items[h[i]].priority == p[i]
  }

  /** Every item knows its position and no child is below its parent. */
  ghost predicate Heap(h: seq<Digest>, items: Items) {
    Indexed(h, items) && Ordered(Priorities(h, items), |h|)
  }

  ghost function Priorities(h: seq<Digest>, items: Items): (p: seq<real>)
    requires Indexed(h, items)
    ensures Prioritised(h, items, p)
  {
    seq(|h|, i requires 0 <= i < |h| => items[h[i]].priority)
  }

  lemma {:induction false} PrioritiesUnique(h: seq<Digest>, items: Items, p: seq<real>)
    requires Indexed(h, items) && Prioritised(h, items, p)
    ensures Priorities(h, items) == p
  {
  }

  ghost predicate SameBut(a: Tracked, b: Tracked) {
    a == b.(index := a.index)
  }

  /** What the sift loops may change: the order of the first n keys of h and the index of listed
      items; nothing else about any item. */
  ghost predicate Sifted(h: seq<Digest>, items: Items, h': seq<Digest>, items': Items, n: nat) {
    && |h'| == |h| && multiset(h') == multiset(h)
    && (forall i :: 0 <= i < |h| ==> h'[i] in h)
    && (forall i :: n <= i < |h| ==> h'[i] == h[i])
    && items'.Keys == items.Keys
    && (forall k :: k in items ==> SameBut(items'[k], items[k]))
    && (forall k :: k in items && k !in h ==> items'[k] == items[k])
  }

  /** gdsfHeap.Swap */
  function SwapItems(h: seq<Digest>, items: Items, i: nat, j: nat): (r: Items)
    requires i < |h| && j < |h| && h[i] in items && h[j] in items
  {
    var once := items[h[j] := items[h[j]].(index := i)];
    once[h[i] := once[h[i]].(index := j)]
  }

  lemma {:induction false} SwapStep(h0: seq<Digest>, items0: Items, h: seq<Digest>, items: Items,
                                    n: nat, i: nat, j: nat, p: seq<real>)
    requires i < n <= |h| && j < n && Indexed(h, items) && Prioritised(h, items, p)
    requires Sifted(h0, items0, h, items, n)
    ensures var h', items' := Swapped(h, i, j), SwapItems(h, items, i, j);
            && Indexed(h', items') && Prioritised(h', items', Swapped(p, i, j))
            && Sifted(h0, items0, h', items', n)
  {
    SwapKeeps(h, i, j);
  }

  /** container/heap.up */
  method Up(h: seq<Digest>, items: Items, start: nat, ghost n: nat, ghost p: seq<real>)
    returns (h': seq<Digest>, items': Items, ghost q: seq<real>)
    requires start < n <= |h| && Indexed(h, items) && Prioritised(h, items, p) && OrderedBelow(p, n, start)
    ensures Indexed(h', items') && Prioritised(h', items', q) && Sifted(h, items, h', items', n)
    ensures Ordered(q, n)
  {
    var j := start;
    h', items', q := h, items, p;
    while true
      invariant 0 <= j < n <= |h'|
      invariant Indexed(h', items') && Prioritised(h', items', q) && Sifted(h, items, h', items', n)
      invariant OrderedBelow(q, n, j)
      decreases j
    {
      var i := Parent(j);
      if i == j || !(items'[h'[j]].priority < items'[h'[i]].priority) {
        break;
      }
      UpStep(q, n, j);
      SwapStep(h, items, h', items', n, i, j, q);
      h', items', q, j := Swapped(h', i, j), SwapItems(h', items', i, j), Swapped(q, i, j), i;
    }
  }

  /** The child that must rise above position i, or i itself when none is smaller. */
  method SmallChild(h: seq<Digest>, items: Items, i: nat, n: nat, ghost p: seq<real>) returns (j: nat)
    requires i < n <= |h| && Prioritised(h, items, p)
    ensures j == i ==> forall k: nat :: 0 < k < n && Parent(k) == i ==> p[i] <= p[k]
    ensures j != i ==> i < j < n && Parent(j) == i && p[j] < p[i]
    ensures j != i ==> forall k: nat :: 0 < k < n && Parent(k) == i ==> p[j] <= p[k]
  {
    j := 2 * i + 1;
    if j >= n {
      return i;
    }
    if j + 1 < n && items[h[j + 1]].priority < items[h[j]].priority {
      j := j + 1;
    }
    SmallerChild(p, n, i, j);
    if !(items[h[j]].priority < items[h[i]].priority) {
      return i;
    }
  }

  /** container/heap.down, on the first n positions; says whether the item moved. */
  method Down(h: seq<Digest>, items: Items, start: nat, n: nat, ghost p: seq<real>)
    returns (moved: bool, h': seq<Digest>, items': Items, ghost q: seq<real>)
    requires start < n <= |h| && Indexed(h, items) && Prioritised(h, items, p) && OrderedAround(p, n, start)
    ensures Indexed(h', items') && Prioritised(h', items', q) && Sifted(h, items, h', items', n)
    ensures if moved then Ordered(q, n) else OrderedBelow(q, n, start)
  {
    var i := start;
    h', items', q := h, items, p;
    while true
      invariant start <= i < n <= |h'|
      invariant Indexed(h', items') && Prioritised(h', items', q) && Sifted(h, items, h', items', n)
      invariant OrderedAround(q, n, i)
      invariant i != start ==> q[Parent(i)] <= q[i]
      decreases n - i
    {
      var j := SmallChild(h', items', i, n, q);
      if j == i {
        break;
      }
      DownStep(q, n, i, j);
      SwapStep(h, items, h', items', n, i, j, q);
      h', items', q, i := Swapped(h', i, j), SwapItems(h', items', i, j), Swapped(q, i, j), j;
    }
    DownStops(q, n, i);
    moved := i > start;
  }

  /** Down, and up if that moved nothing. */
  method Repair(h: seq<Digest>, items: Items, i: nat, n: nat, ghost p: seq<real>)
    returns (h': seq<Digest>, items': Items, ghost q: seq<real>)
    requires i < n <= |h| && Indexed(h, items) && Prioritised(h, items, p) && OrderedAround(p, n, i)
    ensures Indexed(h', items') && Prioritised(h', items', q) && Sifted(h, items, h', items', n) && Ordered(q, n)
  {
    var moved;
    moved, h', items', q := Down(h, items, i, n, p);
    if !moved {
      var h1, items1 := h', items';
      h', items', q := Up(h1, items1, i, n, q);
      SiftedTwice(h, items, h1, items1, h', items', n);
    }
  }

  lemma {:induction false} SiftedTwice(h0: seq<Digest>, i0: Items, h1: seq<Digest>, i1: Items,
                                       h2: seq<Digest>, i2: Items, n: nat)
    requires Sifted(h0, i0, h1, i1, n) && Sifted(h1, i1, h2, i2, n)
    ensures Sifted(h0, i0, h2, i2, n)
  {
    SameMembers(h0, h1);
  }

  lemma {:induction false} SameMembers<T>(a: seq<T>, b: seq<T>)
    requires multiset(a) == multiset(b)
    ensures forall i :: 0 <= i < |a| ==> a[i] in b
    ensures forall i :: 0 <= i < |b| ==> b[i] in a
  {
    forall i | 0 <= i < |a| ensures a[i] in b { assert a[i] in multiset(a); }
    forall i | 0 <= i < |b| ensures b[i] in a { assert b[i] in multiset(b); }
  }

  /** heap.Fix: the item at position i was given a new priority; `was` is the map before that. */
  method Fix(h: seq<Digest>, items: Items, i: nat, ghost was: Items) returns (h': seq<Digest>, items': Items)
    requires i < |h| && Heap(h, was) && h[i] in items && items == was[h[i] := items[h[i]]]
    requires items[h[i]].index == i
    ensures Heap(h', items') && Sifted(h, items, h', items', |h|)
  {
    ghost var p := Priorities(h, was);
    FixOrder(p, i, items[h[i]].priority);
    ghost var q;
    h', items', q := Repair(h, items, i, |h|, p[i := items[h[i]].priority]);
    PrioritiesUnique(h', items', q);
  }

  /** heap.Push of a key not listed yet. */
  method Push(h: seq<Digest>, items: Items, k: Digest, it: Tracked) returns (h': seq<Digest>, items': Items)
    requires Heap(h, items) && k !in items
    ensures Heap(h', items') && Sifted(h + [k], items[k := it], h', items', |h'|)
  {
    ghost var p := Priorities(h, items);
    var h1, items1 := h + [k], items[k := it.(index := |h|)];
    Appended(h, items, k, it);
    PushOrder(p, it.priority);
    ghost var q;
    h', items', q := Up(h1, items1, |h|, |h1|, p + [it.priority]);
    PrioritiesUnique(h', items', q);
    SiftedFrom(h1, items[k := it], items1, h', items', |h'|);
  }

  lemma {:induction false} Appended(h: seq<Digest>, items: Items, k: Digest, it: Tracked)
    requires Heap(h, items) && k !in items
    ensures var h1, items1 := h + [k], items[k := it.(index := |h|)];
            && Indexed(h1, items1)
            && Prioritised(h1, items1, Priorities(h, items) + [it.priority])
            && Sifted(h1, items[k := it], h1, items1, |h1|)
  {
  }

  lemma {:induction false} SiftedFrom(h: seq<Digest>, i0: Items, i1: Items, h2: seq<Digest>, i2: Items, n: nat)
    requires Sifted(h, i0, h, i1, n) && Sifted(h, i1, h2, i2, n)
    ensures Sifted(h, i0, h2, i2, n)
  {
  }

  /** heap.Remove: swap the item to the end, repair, drop it from the list and from the index. */
  method Remove(h: seq<Digest>, items: Items, i: nat) returns (h': seq<Digest>, items': Items)
    requires i < |h| && Heap(h, items)
    ensures items'.Keys == items.Keys - {h[i]} && Heap(h', items')
    ensures forall k :: k in h' <==> k in h && k != h[i]
    ensures forall k :: k in items' ==> k in items && SameBut(items'[k], items[k])
    ensures forall k :: k in items && k !in h ==> k in items' && items'[k] == items[k]
  {
    var h1, items1, p := MoveToEnd(h, items, i);
    DropLast(h, h1, items1, i, p);
    h', items' := h1[..|h| - 1], items1 - {h[i]};
    PrioritiesUnique(h', items', p[..|h| - 1]);
  }

  method MoveToEnd(h: seq<Digest>, items: Items, i: nat) returns (h': seq<Digest>, items': Items, ghost p: seq<real>)
    requires i < |h| && Heap(h, items)
    ensures Sifted(h, items, h', items', |h|) && Indexed(h', items') && Prioritised(h', items', p)
    ensures h'[|h| - 1] == h[i] && Ordered(p, |h| - 1)
  {
    h', items', p := h, items, Priorities(h, items);
    var n := |h| - 1;
    if n != i {
      RemoveOrder(p, i, n);
      SwapStep(h, items, h, items, |h|, i, n, p);
      var h1, items1 := Swapped(h, i, n), SwapItems(h, items, i, n);
      h', items', p := Repair(h1, items1, i, n, Swapped(p, i, n));
      SiftedMore(h1, items1, h', items', n);
      SiftedTwice(h, items, h1, items1, h', items', |h|);
    }
  }

  lemma {:induction false} SiftedMore(h: seq<Digest>, items: Items, h': seq<Digest>, items': Items, n: nat)
    requires Sifted(h, items, h', items', n) && n <= |h|
    ensures Sifted(h, items, h', items', |h|)
  {
  }

  lemma {:induction false} DropLast(h: seq<Digest>, h1: seq<Digest>, items1: Items, i: nat, p: seq<real>)
    requires i < |h| == |h1| && multiset(h1) == multiset(h) && h1[|h| - 1] == h[i]
    requires Indexed(h1, items1) && Prioritised(h1, items1, p) && Ordered(p, |h| - 1)
    ensures var rest, items' := h1[..|h| - 1], items1 - {h[i]};
            && (forall k :: k in rest <==> k in h && k != h[i])
            && Indexed(rest, items') && Prioritised(rest, items', p[..|h| - 1])
  {
    var rest, n := h1[..|h| - 1], |h| - 1;
    SameMembers(h, h1);
    forall j | 0 <= j < n ensures h1[j] != h[i] {
      assert items1[h1[j]].index == j && items1[h1[n]].index == n;
    }
    forall k ensures k in rest <==> k in h && k != h[i] {
      if k in h && k != h[i] {
        assert k in h1;
      }
      if k in rest {
        assert k in h1;
      }
    }
  }

  /** The root of a heap is its least block. */
  lemma {:induction false} HeapRoot(h: seq<Digest>, items: Items, k: Digest)
    requires Heap(h, items) && k in h
    ensures |h| > 0 && h[0] in items && k in items && items[h[0]].priority <= items[k].priority
  {
    var j :| 0 <= j < |h| && h[j] == k;
    RootIsLeast(Priorities(h, items), |h|, j);
  }
}
