/** Prefix chains over any step function: one link per full block of items, each link's hash made
    from the previous hash and the block. Nothing here knows what the hash is.

    If the step separates the pairs it is applied to, equal hashes at one place mean equal items up
    to there. */
module Chains {

  datatype Link<D, T> = Link(hash: D, items: seq<T>)

  /** The links that follow a chain whose last hash is `prev`; a partial block is dropped. */
  function ChainFrom<D, T>(next: (D, seq<T>) -> D, prev: D, items: seq<T>, size: int): (r: seq<Link<D, T>>)
    requires size > 0
    decreases |items|
  {
    if |items| < size then []
    else
      var h := next(prev, items[..size]);
      [Link(h, items[..size])] + ChainFrom(next, h, items[size..], size)
  }

  /** Every argument pair given to `next` while building that chain. */
  ghost function PairsFrom<D, T>(next: (D, seq<T>) -> D, prev: D, items: seq<T>, size: int): (r: set<(D, seq<T>)>)
    requires size > 0
    decreases |items|
  {
    if |items| < size then {}
    else {(prev, items[..size])} + PairsFrom(next, next(prev, items[..size]), items[size..], size)
  }

  /** `next` takes different pairs of the set to different hashes. */
  ghost predicate Separates<D, T>(next: (D, seq<T>) -> D, pairs: set<(D, seq<T>)>) {
    forall p, q :: p in pairs && q in pairs && next(p.0, p.1) == next(q.0, q.1) ==> p == q
  }

  /** Tokens covered by n blocks: n * size, by addition. */
  ghost function Covered(n: nat, size: nat): (r: nat) {
    if n == 0 then 0 else Covered(n - 1, size) + size
  }

  lemma {:induction false} CoveredIsProduct(n: nat, size: nat)
    ensures Covered(n, size) == n * size
  {
    if n > 0 {
      CoveredIsProduct(n - 1, size);
      assert n * size == (n - 1) * size + size;
    }
  }

  lemma {:induction false} CoveredMonotone(m: nat, n: nat, size: nat)
    requires m <= n
    ensures Covered(m, size) <= Covered(n, size)
  {
    if m < n {
      CoveredMonotone(m, n - 1, size);
    }
  }

  /** Exactly the full blocks are linked. */
  lemma {:induction false} ChainShape<D, T>(next: (D, seq<T>) -> D, prev: D, items: seq<T>, size: int)
    requires size > 0
    ensures var n := |ChainFrom(next, prev, items, size)|;
            Covered(n, size) <= |items| < Covered(n, size) + size
    decreases |items|
  {
    if |items| >= size {
      ChainShape(next, next(prev, items[..size]), items[size..], size);
    }
  }

  lemma {:induction false} PrefixSplit<T>(a: seq<T>, b: seq<T>, m: nat, n: nat)
    requires m <= n <= |a| && n <= |b|
    ensures a[..n] == b[..n] <==> a[..m] == b[..m] && a[m..][..n - m] == b[m..][..n - m]
  {
    assert a[..n] == a[..m] + a[m..][..n - m];
    assert b[..n] == b[..m] + b[m..][..n - m];
    assert a[..n][..m] == a[..m] && b[..n][..m] == b[..m];
    assert a[..n][m..] == a[m..][..n - m] && b[..n][m..] == b[m..][..n - m];
  }

  /** Two chains have the same hash at index i exactly when they start from the same hash and their
      first i+1 blocks are the same. */
  lemma {:induction false} AgreeFrom<D, T>(
    next: (D, seq<T>) -> D, p1: D, t1: seq<T>, p2: D, t2: seq<T>, size: int, i: nat)
    requires size > 0
    requires Covered(i + 1, size) <= |t1| && Covered(i + 1, size) <= |t2|
    requires i < |ChainFrom(next, p1, t1, size)| && i < |ChainFrom(next, p2, t2, size)|
    requires Separates(next, PairsFrom(next, p1, t1, size) + PairsFrom(next, p2, t2, size))
    ensures ChainFrom(next, p1, t1, size)[i].hash == ChainFrom(next, p2, t2, size)[i].hash
            <==> p1 == p2 && t1[..Covered(i + 1, size)] == t2[..Covered(i + 1, size)]
    decreases i
  {
    var h1, h2 := next(p1, t1[..size]), next(p2, t2[..size]);
    assert h1 == h2 <==> (p1, t1[..size]) == (p2, t2[..size]) by {
      assert (p1, t1[..size]) in PairsFrom(next, p1, t1, size);
      assert (p2, t2[..size]) in PairsFrom(next, p2, t2, size);
    }
    CoveredMonotone(1, i + 1, size);
    if i > 0 {
      AgreeFrom(next, h1, t1[size..], h2, t2[size..], size, i - 1);
      PrefixSplit(t1, t2, size, Covered(i + 1, size));
    }
  }

  lemma {:induction false} AgreeAt<D, T>(
    next: (D, seq<T>) -> D, p1: D, t1: seq<T>, p2: D, t2: seq<T>, size: int, i: nat)
    requires size > 0
    requires i < |ChainFrom(next, p1, t1, size)| && i < |ChainFrom(next, p2, t2, size)|
    requires Separates(next, PairsFrom(next, p1, t1, size) + PairsFrom(next, p2, t2, size))
    ensures Covered(i + 1, size) <= |t1| && Covered(i + 1, size) <= |t2|
    ensures ChainFrom(next, p1, t1, size)[i].hash == ChainFrom(next, p2, t2, size)[i].hash
            <==> p1 == p2 && t1[..Covered(i + 1, size)] == t2[..Covered(i + 1, size)]
  {
    ChainShape(next, p1, t1, size);
    ChainShape(next, p2, t2, size);
    CoveredMonotone(i + 1, |ChainFrom(next, p1, t1, size)|, size);
    CoveredMonotone(i + 1, |ChainFrom(next, p2, t2, size)|, size);
    AgreeFrom(next, p1, t1, p2, t2, size, i);
  }

  // --- longest shared prefix -------------------------------------------------------------------

  function CommonPrefix<T(==)>(a: seq<T>, b: seq<T>): (n: nat) {
    if a == [] || b == [] || a[0] != b[0] then 0 else 1 + CommonPrefix(a[1..], b[1..])
  }

  lemma {:induction false} CommonPrefixSpec<T>(a: seq<T>, b: seq<T>)
    ensures var n := CommonPrefix(a, b);
            && n <= |a| && n <= |b| && a[..n] == b[..n]
            && (n < |a| && n < |b| ==> a[n] != b[n])
  {
    if a != [] && b != [] && a[0] == b[0] {
      CommonPrefixSpec(a[1..], b[1..]);
      var n := CommonPrefix(a[1..], b[1..]);
      assert a[..n + 1] == [a[0]] + a[1..][..n] && b[..n + 1] == [b[0]] + b[1..][..n];
    }
  }

  lemma {:induction false} EqualPrefixAt<T>(a: seq<T>, b: seq<T>, n: nat, i: nat)
    ensures i < n <= |a| && n <= |b| && a[..n] == b[..n] ==> a[i] == b[i]
  {
    if i < n <= |a| && n <= |b| && a[..n] == b[..n] {
      assert a[i] == a[..n][i] && b[i] == b[..n][i];
    }
  }

  lemma {:induction false} CommonPrefixUnique<T>(a: seq<T>, b: seq<T>, n: nat)
    requires n <= |a| && n <= |b| && a[..n] == b[..n]
    requires n < |a| && n < |b| ==> a[n] != b[n]
    ensures CommonPrefix(a, b) == n
  {
    CommonPrefixSpec(a, b);
    var c := CommonPrefix(a, b);
    EqualPrefixAt(a, b, n, c);
    EqualPrefixAt(a, b, c, n);
  }

  lemma {:induction false} CommonPrefixDrop<T>(a: seq<T>, b: seq<T>, m: nat)
    requires m <= |a| && m <= |b| && a[..m] == b[..m]
    ensures CommonPrefix(a, b) == m + CommonPrefix(a[m..], b[m..])
  {
    CommonPrefixSpec(a[m..], b[m..]);
    var n := CommonPrefix(a[m..], b[m..]);
    assert a[..m + n] == a[..m] + a[m..][..n] && b[..m + n] == b[..m] + b[m..][..n];
    CommonPrefixUnique(a, b, m + n);
  }

  lemma {:induction false} CommonPrefixShort<T>(a: seq<T>, b: seq<T>, m: nat)
    requires m <= |a| && m <= |b| && a[..m] != b[..m]
    ensures CommonPrefix(a, b) < m
  {
    CommonPrefixSpec(a, b);
    ShorterPrefix(a, b, CommonPrefix(a, b), m);
  }

  lemma {:induction false} ShorterPrefix<T>(a: seq<T>, b: seq<T>, n: nat, m: nat)
    ensures m <= n <= |a| && n <= |b| && a[..n] == b[..n] ==> a[..m] == b[..m]
  {
    if m <= n <= |a| && n <= |b| && a[..n] == b[..n] {
      assert a[..m] == a[..n][..m] && b[..m] == b[..n][..m];
    }
  }

  function Hashes<D, T>(links: seq<Link<D, T>>): (r: seq<D>)
    ensures |r| == |links|
  {
    seq(|links|, i requires 0 <= i < |links| => links[i].hash)
  }

  ghost function SharedHashes<D, T>(next: (D, seq<T>) -> D, prev: D, t1: seq<T>, t2: seq<T>, size: int): (n: nat)
    requires size > 0
  {
    CommonPrefix(Hashes(ChainFrom(next, prev, t1, size)), Hashes(ChainFrom(next, prev, t2, size)))
  }

  lemma {:induction false} SharedStep<D, T>(next: (D, seq<T>) -> D, prev: D, t1: seq<T>, t2: seq<T>, size: int)
    requires 0 < size <= |t1| && size <= |t2|
    ensures var h1, h2 := next(prev, t1[..size]), next(prev, t2[..size]);
            SharedHashes(next, prev, t1, t2, size) ==
            if h1 == h2 then 1 + SharedHashes(next, h1, t1[size..], t2[size..], size) else 0
  {
    var h1, h2 := next(prev, t1[..size]), next(prev, t2[..size]);
    var a, b := Hashes(ChainFrom(next, prev, t1, size)), Hashes(ChainFrom(next, prev, t2, size));
    assert a[0] == h1 && b[0] == h2;
    assert a[1..] == Hashes(ChainFrom(next, h1, t1[size..], size));
    assert b[1..] == Hashes(ChainFrom(next, h2, t2[size..], size));
  }

  /** The run of equal leading hashes covers the common prefix up to a partial block. */
  lemma {:induction false} SharedFrom<D, T>(next: (D, seq<T>) -> D, prev: D, t1: seq<T>, t2: seq<T>, size: int)
    requires size > 0
    requires Separates(next, PairsFrom(next, prev, t1, size) + PairsFrom(next, prev, t2, size))
    ensures var n := SharedHashes(next, prev, t1, t2, size);
            Covered(n, size) <= CommonPrefix(t1, t2) < Covered(n, size) + size
    decreases |t1|
  {
    if |t1| < size || |t2| < size {
      assert SharedHashes(next, prev, t1, t2, size) == 0;
      CommonPrefixSpec(t1, t2);
    } else {
      var h1, h2 := next(prev, t1[..size]), next(prev, t2[..size]);
      assert h1 == h2 <==> (prev, t1[..size]) == (prev, t2[..size]) by {
        assert (prev, t1[..size]) in PairsFrom(next, prev, t1, size);
        assert (prev, t2[..size]) in PairsFrom(next, prev, t2, size);
      }
      SharedStep(next, prev, t1, t2, size);
      if t1[..size] == t2[..size] {
        SharedFrom(next, h1, t1[size..], t2[size..], size);
        CommonPrefixDrop(t1, t2, size);
      } else {
        CommonPrefixShort(t1, t2, size);
      }
    }
  }

  lemma {:induction false} DivisionUnique(x: int, q: int, d: int)
    requires d > 0 && q * d <= x < q * d + d
    ensures x / d == q
  {
    var r := x / d;
    assert x == r * d + x % d;
    assert r < q ==> (r + 1) * d <= q * d;
    assert r > q ==> (q + 1) * d <= r * d;
  }

  lemma {:induction false} WholeBlocks(len: nat, size: int)
    requires size > 0
    ensures Covered(len / size, size) <= len < Covered(len / size, size) + size
  {
    CoveredIsProduct(len / size, size);
  }

  /** Every link is made from the hash before it and its own block of items. */
  lemma {:induction false} ChainAt<D, T>(next: (D, seq<T>) -> D, prev: D, items: seq<T>, size: int, i: nat)
    requires size > 0 && i < |ChainFrom(next, prev, items, size)|
    ensures Covered(i + 1, size) <= |items|
    ensures var c, block := ChainFrom(next, prev, items, size), items[Covered(i, size)..Covered(i + 1, size)];
            c[i].items == block && c[i].hash == next(if i == 0 then prev else c[i - 1].hash, block)
    decreases i
  {
    ChainShape(next, prev, items, size);
    CoveredMonotone(i + 1, |ChainFrom(next, prev, items, size)|, size);
    var h := next(prev, items[..size]);
    if i == 0 {
      assert Covered(1, size) == Covered(0, size) + size;
      assert items[Covered(0, size)..Covered(1, size)] == items[..size];
    } else {
      ChainAt(next, h, items[size..], size, i - 1);
      ShiftCovered(i, size);
      ShiftCovered(i - 1, size);
      assert items[size..][Covered(i - 1, size)..Covered(i, size)] == items[Covered(i, size)..Covered(i + 1, size)];
    }
  }

  lemma {:induction false} ShiftCovered(n: nat, size: nat)
    ensures Covered(n + 1, size) == size + Covered(n, size)
  {
  }
}
