/** The consistent-hash ring (internal/ring/ring.go): placement as a value, its laws, and the object. */
module Rings {
  import opened Bytes
  import opened Lists

  type Node = Blob

  /** One virtual node. */
  datatype VPoint = VPoint(hash: U64, node: Node)

  /** Where virtual node i of a node sits on the circle. */
  type Positions = (Node, nat) -> U64

  // --- positions -------------------------------------------------------------------------------

  const HASH_SIGN: Byte := 0x23  // '#'

  function Decimal(n: nat): (r: Blob) {
    if n < 10 then [0x30 + n] else Decimal(n / 10) + [0x30 + n % 10]
  }

  /** "node#i" */
  function VnodeLabel(node: Node, i: nat): (r: Blob) {
    node + [HASH_SIGN] + Decimal(i)
  }

  /** vnodeHash: the first eight bytes of SHA-256("node#i"), big endian. */
  function VnodeHash(sha: Hasher): (r: Positions) {
    (node: Node, i: nat) => BigEndian64(sha(VnodeLabel(node, i))[..8])
  }

  lemma {:induction false} DecimalDigits(n: nat, k: nat)
    requires k < |Decimal(n)|
    ensures 0x30 <= Decimal(n)[k] < 0x3A
  {
    if n >= 10 && k < |Decimal(n)| - 1 {
      DecimalDigits(n / 10, k);
    }
  }

  lemma {:induction false} DecimalInjective(m: nat, n: nat)
    requires Decimal(m) == Decimal(n)
    ensures m == n
  {
    DecimalNonEmpty(m / 10);
    DecimalNonEmpty(n / 10);
    var s := Decimal(m);
    if m >= 10 && n >= 10 {
      assert s[..|s| - 1] == Decimal(m / 10) && s[..|s| - 1] == Decimal(n / 10);
      DecimalInjective(m / 10, n / 10);
      assert s[|s| - 1] == 0x30 + m % 10 && s[|s| - 1] == 0x30 + n % 10;
    }
  }

  lemma {:induction false} DecimalNonEmpty(n: nat)
    ensures |Decimal(n)| >= 1
  {
  }

  /** The number part starts after the last '#'. */
  lemma {:induction false} LabelSplits(x: Node, i: nat, y: Node, j: nat)
    requires VnodeLabel(x, i) == VnodeLabel(y, j)
    ensures |Decimal(i)| >= |Decimal(j)|
  {
    var s, a, b := VnodeLabel(x, i), |Decimal(i)|, |Decimal(j)|;
    assert s[|x|] == HASH_SIGN && |x| == |s| - 1 - a;
    if a < b {
      assert s[|x|] == Decimal(j)[|x| - |y| - 1];
      DecimalDigits(j, |x| - |y| - 1);
    }
  }

  /** Two virtual nodes never hash the same label, whatever characters node names hold: shared
      positions can only come from the hash and its truncation. */
  lemma {:induction false} VnodeLabelInjective(x: Node, i: nat, y: Node, j: nat)
    ensures VnodeLabel(x, i) == VnodeLabel(y, j) <==> x == y && i == j
  {
    if VnodeLabel(x, i) == VnodeLabel(y, j) {
      LabelSplits(x, i, y, j);
      LabelSplits(y, j, x, i);
      var s := VnodeLabel(x, i);
      assert s[..|x|] == x && s[..|y|] == y;
      assert s[|x| + 1..] == Decimal(i) && s[|y| + 1..] == Decimal(j);
      DecimalInjective(i, j);
    }
  }

  /** keyHash: the first eight bytes of the key, padded with zeros. */
  function KeyHash(key: Blob): (h: U64) {
    if |key| >= 8 then BigEndian64(key[..8]) else BigEndian64(key + Fill(8 - |key|, 0))
  }

  /** Only the first eight bytes of a key count, missing ones as zero, the first one most. */
  lemma {:induction false} KeyHashMeans(key: Blob, i: nat)
    requires i < 8
    ensures KeyHash(key) / Pow256(7 - i) % 256 == if i < |key| then key[i] else 0
  {
    BigEndianAt(if |key| >= 8 then key[..8] else key + Fill(8 - |key|, 0), i);
  }

  /** A virtual node sits where the first eight bytes of its label's digest say. */
  lemma {:induction false} VnodeHashMeans(sha: Hasher, node: Node, i: nat, b: nat)
    requires b < 8
    ensures VnodeHash(sha)(node, i) / Pow256(7 - b) % 256 == sha(node + [0x23] + Decimal(i))[b]
  {
    BigEndianAt(sha(VnodeLabel(node, i))[..8], b);
  }

  /** The number a string of decimal digits stands for. */
  function DecimalValue(s: Blob): (n: int) {
    if s == [] then 0 else 10 * DecimalValue(s[..|s| - 1]) + s[|s| - 1] - 0x30
  }

  lemma {:induction false} DecimalReads(n: nat)
    ensures DecimalValue(Decimal(n)) == n
  {
    var s := Decimal(n);
    DecimalNonEmpty(n);
    if n >= 10 {
      DecimalReads(n / 10);
      assert s[..|s| - 1] == Decimal(n / 10) && s[|s| - 1] == 0x30 + n % 10;
    } else {
      assert s[..0] == [] && DecimalValue([]) == 0;
    }
  }

  // --- the circle ------------------------------------------------------------------------------

  ghost predicate Sorted(points: seq<VPoint>) {
    forall i, j :: 0 <= i < j < |points| ==> points[i].hash <= points[j].hash
  }

  /** How many points lie before h: where the walk for h starts. */
  function Before(points: seq<VPoint>, h: U64): (i: nat)
    ensures i <= |points|
  {
    if points == [] || points[0].hash >= h then 0 else 1 + Before(points[1..], h)
  }

  lemma {:induction false} BeforeSplits(points: seq<VPoint>, h: U64)
    requires Sorted(points)
    ensures var i := Before(points, h);
            && (forall j :: 0 <= j < i ==> points[j].hash < h)
            && (forall j :: i <= j < |points| ==> points[j].hash >= h)
  {
    if points != [] && points[0].hash < h {
      BeforeSplits(points[1..], h);
      var i := Before(points[1..], h);
      assert forall j :: 1 <= j < |points| ==> points[j] == points[1..][j - 1];
    }
  }

  lemma {:induction false} BeforeUnique(points: seq<VPoint>, h: U64, i: nat)
    requires i <= |points|
    requires forall j :: 0 <= j < i ==> points[j].hash < h
    requires forall j :: i <= j < |points| ==> points[j].hash >= h
    ensures Before(points, h) == i
    decreases i
  {
    if i > 0 {
      assert forall j :: 0 <= j < |points| - 1 ==> points[1..][j] == points[j + 1];
      BeforeUnique(points[1..], h, i - 1);
    }
  }

  function Clockwise(points: seq<VPoint>, h: U64): (r: seq<VPoint>)
    ensures |r| == |points|
  {
    var i := Before(points, h);
    points[i..] + points[..i]
  }

  function Drop(points: seq<VPoint>, x: Node): (r: seq<VPoint>)
    ensures |r| <= |points|
  {
    if points == [] then []
    else if points[0].node == x then Drop(points[1..], x)
    else [points[0]] + Drop(points[1..], x)
  }

  function Nodes(points: seq<VPoint>): (r: seq<Node>)
    ensures |r| == |points|
  {
    seq(|points|, i requires 0 <= i < |points| => points[i].node)
  }

  /** Every node, ordered by its first point clockwise from h. */
  function Owners(points: seq<VPoint>, h: U64): (r: seq<Node>) {
    Dedup(Nodes(Clockwise(points, h)))
  }

  function LookupN(points: seq<VPoint>, key: Blob, n: int): (r: seq<Node>)
    ensures n <= 0 ==> r == []
  {
    if n <= 0 then [] else Take(Owners(points, KeyHash(key)), n)
  }

  function Lookup(points: seq<VPoint>, key: Blob): (r: Option<Node>) {
    var o := Owners(points, KeyHash(key));
    if o == [] then None else Some(o[0])
  }

  lemma {:induction false} DropAppend(a: seq<VPoint>, b: seq<VPoint>, x: Node)
    ensures Drop(a + b, x) == Drop(a, x) + Drop(b, x)
  {
    if a == [] {
      assert a + b == b;
    } else {
      assert (a + b)[0] == a[0] && (a + b)[1..] == a[1..] + b;
      DropAppend(a[1..], b, x);
    }
  }

  lemma {:induction false} DropNodes(points: seq<VPoint>, x: Node)
    ensures Nodes(Drop(points, x)) == Without(Nodes(points), x)
  {
    if points != [] {
      DropNodes(points[1..], x);
      NodesCons(points[0], points[1..]);
      assert points == [points[0]] + points[1..];
      var n, rest := points[0].node, Nodes(points[1..]);
      assert ([n] + rest)[0] == n && ([n] + rest)[1..] == rest;
      if n != x {
        NodesCons(points[0], Drop(points[1..], x));
      }
    }
  }

  lemma {:induction false} NodesCons(p: VPoint, rest: seq<VPoint>)
    ensures Nodes([p] + rest) == [p.node] + Nodes(rest)
  {
  }

  lemma {:induction false} DropKeepsSides(points: seq<VPoint>, x: Node, h: U64)
    ensures (forall j :: 0 <= j < |points| ==> points[j].hash < h) ==>
              forall j :: 0 <= j < |Drop(points, x)| ==> Drop(points, x)[j].hash < h
    ensures (forall j :: 0 <= j < |points| ==> points[j].hash >= h) ==>
              forall j :: 0 <= j < |Drop(points, x)| ==> Drop(points, x)[j].hash >= h
  {
    if points != [] {
      DropKeepsSides(points[1..], x, h);
      assert forall j :: 1 <= j < |points| ==> points[j] == points[1..][j - 1];
      assert forall j :: 0 <= j < |points[1..]| ==> points[1..][j] == points[j + 1];
    }
  }

  /** Dropping a node and turning the circle commute. */
  lemma {:induction false} DropClockwise(points: seq<VPoint>, x: Node, h: U64)
    requires Sorted(points)
    ensures Clockwise(Drop(points, x), h) == Drop(Clockwise(points, h), x)
  {
    var i := Before(points, h);
    BeforeSplits(points, h);
    var low, high := points[..i], points[i..];
    assert points == low + high;
    DropAppend(low, high, x);
    DropAppend(high, low, x);
    DropKeepsSides(low, x, h);
    DropKeepsSides(high, x, h);
    var d := Drop(low, x) + Drop(high, x);
    BeforeUnique(d, h, |Drop(low, x)|);
    assert d[|Drop(low, x)|..] == Drop(high, x) && d[..|Drop(low, x)|] == Drop(low, x);
  }

  /** The heart of promotion: removing a node only deletes it from everybody's owner list. */
  lemma {:induction false} RemovalDeletes(points: seq<VPoint>, x: Node, h: U64)
    requires Sorted(points)
    ensures Owners(Drop(points, x), h) == Without(Owners(points, h), x)
  {
    DropClockwise(points, x, h);
    DropNodes(Clockwise(points, h), x);
    DedupWithout(Nodes(Clockwise(points, h)), x);
  }

  lemma {:induction false} DropSorted(points: seq<VPoint>, x: Node)
    requires Sorted(points)
    ensures Sorted(Drop(points, x))
  {
    if points != [] {
      DropSorted(points[1..], x);
      assert forall j :: 0 <= j < |points[1..]| ==> points[1..][j].hash >= points[0].hash;
      DropKeepsSides(points[1..], x, points[0].hash);
    }
  }

  /** Ring removal law: the owners after a removal are the first n of the earlier n+1 without the
      removed node. */
  lemma {:induction false} RemovalLaw(points: seq<VPoint>, x: Node, key: Blob, n: nat)
    requires Sorted(points) && n >= 1
    ensures LookupN(Drop(points, x), key, n) == Take(Without(LookupN(points, key, n + 1), x), n)
  {
    var h := KeyHash(key);
    RemovalDeletes(points, x, h);
    DedupMembers(Nodes(Clockwise(points, h)));
    TakeWithout(Owners(points, h), x, n);
  }

  function DropAll(points: seq<VPoint>, xs: seq<Node>): (r: seq<VPoint>) {
    if xs == [] then points else Drop(DropAll(points, xs[..|xs| - 1]), xs[|xs| - 1])
  }

  /** However many nodes leave, the first survivor of the owner list becomes the owner. */
  lemma {:induction false} PromotionLaw(points: seq<VPoint>, xs: seq<Node>, h: U64, p: Node, q: Node)
    requires Sorted(points) && |Owners(points, h)| >= 2 && Owners(points, h)[0] == p && Owners(points, h)[1] == q
    requires q !in xs
    ensures Sorted(DropAll(points, xs))
    ensures Owners(DropAll(points, xs), h) != []
    ensures p in xs ==> Owners(DropAll(points, xs), h)[0] == q
    ensures p !in xs ==> Owners(DropAll(points, xs), h)[0] == p
  {
    DropAllOwners(points, xs, h, p, q);
  }

  lemma {:induction false} DropAllOwners(points: seq<VPoint>, xs: seq<Node>, h: U64, p: Node, q: Node)
    requires Sorted(points) && |Owners(points, h)| >= 2 && Owners(points, h)[0] == p && Owners(points, h)[1] == q
    requires q !in xs
    ensures Sorted(DropAll(points, xs))
    ensures var o := Owners(DropAll(points, xs), h);
            if p in xs then o != [] && o[0] == q else |o| >= 2 && o[0] == p && o[1] == q
    decreases |xs|
  {
    if xs != [] {
      var n := |xs| - 1;
      var before, x := DropAll(points, xs[..n]), xs[n];
      assert xs == xs[..n] + [x];
      DropAllOwners(points, xs[..n], h, p, q);
      DropSorted(before, x);
      RemovalDeletes(before, x, h);
      DedupMembers(Nodes(Clockwise(points, h)));
      var o := Owners(before, h);
      assert o[1..] == o[1..];
      if p !in xs[..n] {
        assert Without(o, x) == (if o[0] == x then [] else [o[0]]) + Without(o[1..], x);
        assert Without(o[1..], x) == [q] + Without(o[1..][1..], x);
      }
    }
  }

  /** Where the walk for a key starts: the first point at or after it, or the first point of all. */
  ghost predicate StartsAt(points: seq<VPoint>, h: U64, i: nat) {
    && i < |points|
    && (forall j :: 0 <= j < i ==> points[j].hash < h)
    && (points[i].hash >= h || (i == 0 && forall j :: 0 <= j < |points| ==> points[j].hash < h))
  }

  /** The owner is the node of the first point at or after the key, wrapping around. */
  lemma {:induction false} LookupMeans(points: seq<VPoint>, key: Blob, i: nat)
    requires Sorted(points) && StartsAt(points, KeyHash(key), i)
    ensures Lookup(points, key) == Some(points[i].node)
  {
    StartIndex(points, KeyHash(key), i);
    WalkAt(points, KeyHash(key), i, 0);
    WrapIndex(i, |points|);
  }

  lemma {:induction false} StartIndex(points: seq<VPoint>, h: U64, i: nat)
    requires Sorted(points) && StartsAt(points, h, i)
    ensures i == if Before(points, h) == |points| then 0 else Before(points, h)
  {
    if points[i].hash >= h {
      forall j | i <= j < |points| ensures points[j].hash >= h {
        assert i < j ==> points[i].hash <= points[j].hash;
      }
      BeforeUnique(points, h, i);
    } else {
      BeforeUnique(points, h, |points|);
    }
  }

  /** The node met g steps clockwise from point i. */
  function NodeAt(points: seq<VPoint>, i: nat, g: nat): (r: Node)
    requires points != []
  {
    points[(i + g) % |points|].node
  }

  /** The owners are the different nodes in clockwise order: owner number m is the node of the first
      point, going clockwise from the key, whose node is not an earlier owner. */
  lemma {:induction false} OwnersAreNearest(points: seq<VPoint>, key: Blob, n: int, i: nat, m: nat) returns (f: nat)
    requires Sorted(points) && StartsAt(points, KeyHash(key), i) && m < |LookupN(points, key, n)|
    ensures f < |points| && NodeAt(points, i, f) == LookupN(points, key, n)[m]
    ensures forall g: nat :: g < f ==> NodeAt(points, i, g) in LookupN(points, key, n)[..m]
  {
    StartIndex(points, KeyHash(key), i);
    f := NearestInWalk(points, KeyHash(key), i, m);
    assert LookupN(points, key, n)[..m] == Owners(points, KeyHash(key))[..m];
  }

  lemma {:induction false} NearestInWalk(points: seq<VPoint>, h: U64, i: nat, m: nat) returns (f: nat)
    requires points != [] && i == (if Before(points, h) == |points| then 0 else Before(points, h)) && m < |Owners(points, h)|
    ensures f < |points| && NodeAt(points, i, f) == Owners(points, h)[m]
    ensures forall g: nat :: g < f ==> NodeAt(points, i, g) in Owners(points, h)[..m]
  {
    f := DedupOrder(Nodes(Clockwise(points, h)), m);
    WalkAt(points, h, i, f);
    forall g: nat | g < f ensures NodeAt(points, i, g) in Owners(points, h)[..m] {
      WalkAt(points, h, i, g);
    }
  }

  // --- which points a ring has -----------------------------------------------------------------

  function NodePoints(pos: Positions, node: Node, n: nat): (r: seq<VPoint>)
    ensures |r| == n
  {
    if n == 0 then [] else NodePoints(pos, node, n - 1) + [VPoint(pos(node, n - 1), node)]
  }

  /** p belongs to the ring of these members as often as it should. */
  ghost predicate CountsAs(pos: Positions, vnodes: nat, members: set<Node>, points: seq<VPoint>, p: VPoint) {
    multiset(points)[p] == if p.node in members then multiset(NodePoints(pos, p.node, vnodes))[p] else 0
  }

  /** The points of exactly these members, sorted. Among equal positions any order will do. */
  ghost predicate IsRing(pos: Positions, vnodes: nat, members: set<Node>, points: seq<VPoint>) {
    && Sorted(points)
    && (forall p: VPoint {:trigger CountsAs(pos, vnodes, members, points, p)} :: CountsAs(pos, vnodes, members, points, p))
  }

  /** No two different members share a position. */
  ghost predicate DistinctPositions(pos: Positions, vnodes: nat, members: set<Node>) {
    forall a, b, i: nat, j: nat :: a in members && b in members && a != b && i < vnodes && j < vnodes ==> pos(a, i) != pos(b, j)
  }

  lemma {:induction false} NodePointsShape(pos: Positions, node: Node, n: nat, p: VPoint)
    ensures p in multiset(NodePoints(pos, node, n)) <==> exists i: nat :: i < n && p == VPoint(pos(node, i), node)
  {
    if n > 0 {
      NodePointsShape(pos, node, n - 1, p);
      SnocMember(NodePoints(pos, node, n - 1), VPoint(pos(node, n - 1), node), p);
    }
  }

  lemma {:induction false} SnocMember(s: seq<VPoint>, x: VPoint, p: VPoint)
    ensures p in multiset(s + [x]) <==> p in multiset(s) || p == x
  {
  }

  lemma {:induction false} RingPoint(pos: Positions, vnodes: nat, members: set<Node>, points: seq<VPoint>, p: VPoint)
    requires IsRing(pos, vnodes, members, points)
    ensures p in points <==> p.node in members && exists i: nat :: i < vnodes && p == VPoint(pos(p.node, i), p.node)
  {
    assert CountsAs(pos, vnodes, members, points, p);
    NodePointsShape(pos, p.node, vnodes, p);
    assert p in points <==> p in multiset(points);
  }

  /** Equal positions mean equal points. */
  ghost predicate PositionNamesPoint(points: seq<VPoint>) {
    forall i, j :: 0 <= i < |points| && 0 <= j < |points| && points[i].hash == points[j].hash ==> points[i] == points[j]
  }

  lemma {:induction false} DistinctNames(pos: Positions, vnodes: nat, members: set<Node>, points: seq<VPoint>)
    requires IsRing(pos, vnodes, members, points) && DistinctPositions(pos, vnodes, members)
    ensures PositionNamesPoint(points)
  {
    forall i, j | 0 <= i < |points| && 0 <= j < |points| && points[i].hash == points[j].hash
      ensures points[i] == points[j]
    {
      RingPoint(pos, vnodes, members, points, points[i]);
      RingPoint(pos, vnodes, members, points, points[j]);
    }
  }

  lemma {:induction false} SortedUnique(a: seq<VPoint>, b: seq<VPoint>)
    requires Sorted(a) && Sorted(b) && multiset(a) == multiset(b) && PositionNamesPoint(a)
    ensures a == b
    decreases |a|
  {
    assert |a| == |multiset(a)| == |multiset(b)| == |b|;
    if a != [] {
      SameHead(a, b);
      TailCounts(a);
      TailCounts(b);
      SortedUnique(a[1..], b[1..]);
      assert a == [a[0]] + a[1..] && b == [b[0]] + b[1..];
    }
  }

  lemma {:induction false} TailCounts(a: seq<VPoint>)
    requires a != []
    ensures multiset(a[1..]) == multiset(a) - multiset{a[0]}
  {
    assert a == [a[0]] + a[1..];
  }

  lemma {:induction false} SameHead(a: seq<VPoint>, b: seq<VPoint>)
    requires a != [] && b != [] && Sorted(a) && Sorted(b) && multiset(a) == multiset(b) && PositionNamesPoint(a)
    ensures a[0] == b[0]
  {
    assert a[0] in multiset(b) && b[0] in multiset(a);
    var i :| 0 <= i < |a| && a[i] == b[0];
    var j :| 0 <= j < |b| && b[j] == a[0];
    assert a[0].hash <= a[i].hash && b[0].hash <= b[j].hash;
  }

  /** Placement is a function of the member set: however the ring was built, the points are the
      same, so every lookup is. */
  lemma {:induction false} PlacementUnique(pos: Positions, vnodes: nat, members: set<Node>, a: seq<VPoint>, b: seq<VPoint>)
    requires IsRing(pos, vnodes, members, a) && IsRing(pos, vnodes, members, b)
    requires DistinctPositions(pos, vnodes, members)
    ensures a == b
  {
    DistinctNames(pos, vnodes, members, a);
    forall p: VPoint | true ensures multiset(a)[p] == multiset(b)[p] {
      assert CountsAs(pos, vnodes, members, a, p) && CountsAs(pos, vnodes, members, b, p);
    }
    assert multiset(a) == multiset(b);
    SortedUnique(a, b);
  }

  lemma {:induction false} DropCounts(points: seq<VPoint>, x: Node, p: VPoint)
    ensures multiset(Drop(points, x))[p] == if p.node == x then 0 else multiset(points)[p]
  {
    if points != [] {
      DropCounts(points[1..], x, p);
      assert points == [points[0]] + points[1..];
      if points[0].node != x {
        assert Drop(points, x) == [points[0]] + Drop(points[1..], x);
      }
    }
  }

  lemma {:induction false} DropIsRing(pos: Positions, vnodes: nat, members: set<Node>, points: seq<VPoint>, x: Node)
    requires IsRing(pos, vnodes, members, points)
    ensures IsRing(pos, vnodes, members - {x}, Drop(points, x))
  {
    DropSorted(points, x);
    forall p: VPoint | true ensures CountsAs(pos, vnodes, members - {x}, Drop(points, x), p) {
      assert CountsAs(pos, vnodes, members, points, p);
      DropCounts(points, x, p);
    }
  }

  lemma {:induction false} ForeignPoints(pos: Positions, node: Node, n: nat, p: VPoint)
    requires p.node != node
    ensures multiset(NodePoints(pos, node, n))[p] == 0
  {
    NodePointsShape(pos, node, n, p);
  }

  /** Any sorted arrangement of the old points and the new node's points is the larger ring. */
  lemma {:induction false} AddIsRing(pos: Positions, vnodes: nat, members: set<Node>, points: seq<VPoint>, x: Node, points': seq<VPoint>)
    requires IsRing(pos, vnodes, members, points) && x !in members
    requires Sorted(points') && multiset(points') == multiset(points) + multiset(NodePoints(pos, x, vnodes))
    ensures IsRing(pos, vnodes, members + {x}, points')
  {
    forall p: VPoint | true ensures CountsAs(pos, vnodes, members + {x}, points', p) {
      assert CountsAs(pos, vnodes, members, points, p);
      if p.node != x {
        ForeignPoints(pos, x, vnodes, p);
      }
    }
  }

  /** Adding a node and removing it again gives the ring back. */
  lemma {:induction false} AddRemoveInverse(pos: Positions, vnodes: nat, members: set<Node>, points: seq<VPoint>, x: Node, points': seq<VPoint>)
    requires IsRing(pos, vnodes, members, points) && x !in members
    requires IsRing(pos, vnodes, members + {x}, points') && DistinctPositions(pos, vnodes, members)
    ensures Drop(points', x) == points
  {
    DropIsRing(pos, vnodes, members + {x}, points', x);
    assert members + {x} - {x} == members;
    PlacementUnique(pos, vnodes, members, Drop(points', x), points);
  }

  /** The nodes of a ring are its members. */
  lemma {:induction false} RingNodes(pos: Positions, vnodes: nat, members: set<Node>, points: seq<VPoint>, h: U64)
    requires IsRing(pos, vnodes, members, points) && vnodes > 0
    ensures Distinct(Owners(points, h)) && (forall y :: y in Owners(points, h) <==> y in members)
    ensures |Owners(points, h)| == |members|
  {
    DedupMembers(Nodes(Clockwise(points, h)));
    forall y: Node | true ensures y in Nodes(Clockwise(points, h)) <==> y in members {
      WalkedNode(pos, vnodes, members, points, h, y);
    }
    CountDistinct(Owners(points, h), members);
  }

  lemma {:induction false} WalkedNode(pos: Positions, vnodes: nat, members: set<Node>, points: seq<VPoint>, h: U64, y: Node)
    requires IsRing(pos, vnodes, members, points) && vnodes > 0
    ensures y in Nodes(Clockwise(points, h)) <==> y in members
  {
    var walk := Clockwise(points, h);
    if y in Nodes(walk) {
      var i :| 0 <= i < |walk| && Nodes(walk)[i] == y;
      assert walk[i] in walk && walk[i] in points;
      RingPoint(pos, vnodes, members, points, walk[i]);
    }
    if y in members {
      var p := VPoint(pos(y, 0), y);
      RingPoint(pos, vnodes, members, points, p);
      assert p in walk;
      var i :| 0 <= i < |walk| && walk[i] == p;
      assert Nodes(walk)[i] == y;
    }
  }

  /** LookupN gives min(n, members) different members, headed by Lookup. */
  lemma {:induction false} LookupShape(pos: Positions, vnodes: nat, members: set<Node>, points: seq<VPoint>, key: Blob, n: nat)
    requires IsRing(pos, vnodes, members, points) && vnodes > 0 && n >= 1
    ensures var r := LookupN(points, key, n);
            && Distinct(r) && |r| == (if n < |members| then n else |members|)
            && (forall y :: y in r ==> y in members)
            && (Lookup(points, key) == if r == [] then None else Some(r[0]))
  {
    RingNodes(pos, vnodes, members, points, KeyHash(key));
  }

  /** A leave moves a key only away from the leaver. */
  lemma {:induction false} LeaveMovesOnlyItsKeys(points: seq<VPoint>, x: Node, key: Blob)
    requires Sorted(points) && Lookup(points, key) != Some(x)
    ensures Lookup(Drop(points, x), key) == Lookup(points, key)
  {
    RemovalDeletes(points, x, KeyHash(key));
  }

  /** A join moves a key only to the joiner. */
  lemma {:induction false} JoinMovesOnlyToJoiner(
    pos: Positions, vnodes: nat, members: set<Node>, points: seq<VPoint>, x: Node, points': seq<VPoint>, key: Blob)
    requires IsRing(pos, vnodes, members, points) && x !in members
    requires IsRing(pos, vnodes, members + {x}, points') && DistinctPositions(pos, vnodes, members)
    ensures Lookup(points', key) == Some(x) || Lookup(points', key) == Lookup(points, key)
  {
    AddRemoveInverse(pos, vnodes, members, points, x, points');
    if Lookup(points', key) != Some(x) {
      LeaveMovesOnlyItsKeys(points', x, key);
    }
  }

  /** Pull p in front of every other point at its position: no position changes, so this is another
      arrangement the sort may have produced, and p's node heads the walk from there. */
  lemma {:induction false} PullToFront(points: seq<VPoint>, p: VPoint) returns (r: seq<VPoint>)
    requires Sorted(points) && p in points
    ensures Sorted(r) && multiset(r) == multiset(points)
    ensures Owners(r, p.hash) != [] && Owners(r, p.hash)[0] == p.node
  {
    var i := Before(points, p.hash);
    BeforeSplits(points, p.hash);
    var j :| 0 <= j < |points| && points[j] == p;
    r := Pulled(points, i, j);
    PulledCounts(points, i, j);
    PulledHashes(points, i, j);
    BeforeUnique(r, p.hash, i);
    assert r[i] == p && Clockwise(r, p.hash)[0] == p;
    assert Nodes(Clockwise(r, p.hash))[0] == p.node;
  }

  ghost function Pulled(points: seq<VPoint>, i: nat, j: nat): (r: seq<VPoint>)
    requires i <= j < |points|
    ensures |r| == |points| && r[i] == points[j]
  {
    points[..i] + [points[j]] + points[i..j] + points[j + 1..]
  }

  lemma {:induction false} PulledCounts(points: seq<VPoint>, i: nat, j: nat)
    requires i <= j < |points|
    ensures multiset(Pulled(points, i, j)) == multiset(points)
  {
    assert points == points[..i] + points[i..j] + [points[j]] + points[j + 1..];
  }

  lemma {:induction false} PulledHashes(points: seq<VPoint>, i: nat, j: nat)
    requires Sorted(points) && i <= j < |points| && points[i].hash >= points[j].hash
    ensures forall k :: 0 <= k < |points| ==> Pulled(points, i, j)[k].hash == points[k].hash
  {
    forall k | 0 <= k < |points| ensures Pulled(points, i, j)[k].hash == points[k].hash {
      if i < k <= j {
        assert Pulled(points, i, j)[k] == points[k - 1];
        assert k - 1 == i || points[i].hash <= points[k - 1].hash;
      }
    }
  }

  lemma {:induction false} SameCountsIsRing(pos: Positions, vnodes: nat, members: set<Node>, a: seq<VPoint>, b: seq<VPoint>)
    requires IsRing(pos, vnodes, members, a) && Sorted(b) && multiset(a) == multiset(b)
    ensures IsRing(pos, vnodes, members, b)
  {
    forall p: VPoint | true ensures CountsAs(pos, vnodes, members, b, p) {
      assert CountsAs(pos, vnodes, members, a, p);
    }
  }

  lemma {:induction false} EveryPositionIsAKey(h: U64) returns (key: Blob)
    ensures KeyHash(key) == h
  {
    var le := Le64(h);
    key := Reverse(le);
    assert Reverse(key) == le && key[..8] == key;
    Le64RoundTrip(h);
  }

  /** Two members on one position: the same member set has two rings that disagree on an owner. */
  lemma {:induction false} TiesBreakAgreement(
    pos: Positions, vnodes: nat, members: set<Node>, points: seq<VPoint>, x: Node, i: nat, y: Node, j: nat)
    returns (a: seq<VPoint>, b: seq<VPoint>, key: Blob)
    requires IsRing(pos, vnodes, members, points) && x in members && y in members
    requires i < vnodes && j < vnodes && pos(x, i) == pos(y, j)
    ensures IsRing(pos, vnodes, members, a) && IsRing(pos, vnodes, members, b)
    ensures Lookup(a, key) == Some(x) && Lookup(b, key) == Some(y)
  {
    var p, q := VPoint(pos(x, i), x), VPoint(pos(y, j), y);
    RingPoint(pos, vnodes, members, points, p);
    RingPoint(pos, vnodes, members, points, q);
    a := PullToFront(points, p);
    b := PullToFront(points, q);
    SameCountsIsRing(pos, vnodes, members, points, a);
    SameCountsIsRing(pos, vnodes, members, points, b);
    key := EveryPositionIsAKey(p.hash);
  }

  /** All rings of these members answer every lookup alike. */
  ghost predicate PlacementAgrees(pos: Positions, vnodes: nat, members: set<Node>) {
    forall a, b, key :: IsRing(pos, vnodes, members, a) && IsRing(pos, vnodes, members, b) ==> Lookup(a, key) == Lookup(b, key)
  }

  /** The member set decides the owners exactly when no two members share a position. */
  lemma {:induction false} PlacementAgreesExactly(pos: Positions, vnodes: nat, members: set<Node>, points: seq<VPoint>)
    requires IsRing(pos, vnodes, members, points)
    ensures PlacementAgrees(pos, vnodes, members) <==> DistinctPositions(pos, vnodes, members)
  {
    if DistinctPositions(pos, vnodes, members) {
      forall a, b, key | IsRing(pos, vnodes, members, a) && IsRing(pos, vnodes, members, b)
        ensures Lookup(a, key) == Lookup(b, key)
      {
        PlacementUnique(pos, vnodes, members, a, b);
      }
    } else {
      var x, y, i: nat, j: nat :| x in members && y in members && x != y && i < vnodes && j < vnodes && pos(x, i) == pos(y, j);
      var a, b, key := TiesBreakAgreement(pos, vnodes, members, points, x, i, y, j);
      assert Lookup(a, key) != Lookup(b, key);
    }
  }

  // --- the object ------------------------------------------------------------------------------

  /** sort.Slice: some sorted arrangement; which one, among equal positions, is not promised. */
  method SortPoints(points: seq<VPoint>) returns (r: seq<VPoint>)
    ensures Sorted(r) && multiset(r) == multiset(points)
  {
    r := [];
    for i := 0 to |points|
      invariant Sorted(r) && multiset(r) == multiset(points[..i])
    {
      InsertSorted(r, points[i]);
      InsertCounts(r, points[i]);
      r := Insert(r, points[i]);
      assert points[..i + 1] == points[..i] + [points[i]];
    }
    assert points[..|points|] == points;
  }

  function Insert(s: seq<VPoint>, p: VPoint): (r: seq<VPoint>)
    ensures |r| == |s| + 1
  {
    if s == [] || s[0].hash > p.hash then [p] + s else [s[0]] + Insert(s[1..], p)
  }

  lemma {:induction false} InsertCounts(s: seq<VPoint>, p: VPoint)
    ensures multiset(Insert(s, p)) == multiset(s) + multiset{p}
  {
    if s != [] && s[0].hash <= p.hash {
      InsertCounts(s[1..], p);
      assert s == [s[0]] + s[1..];
    }
  }

  ghost predicate AllFrom(s: seq<VPoint>, low: U64) {
    forall i :: 0 <= i < |s| ==> s[i].hash >= low
  }

  lemma {:induction false} InsertFrom(s: seq<VPoint>, p: VPoint, low: U64)
    requires AllFrom(s, low) && p.hash >= low
    ensures AllFrom(Insert(s, p), low)
  {
    if s != [] && s[0].hash <= p.hash {
      InsertFrom(s[1..], p, low);
    }
  }

  lemma {:induction false} InsertSorted(s: seq<VPoint>, p: VPoint)
    requires Sorted(s)
    ensures Sorted(Insert(s, p))
  {
    if s != [] && s[0].hash <= p.hash {
      InsertSorted(s[1..], p);
      InsertFrom(s[1..], p, s[0].hash);
    }
  }

  /** The points of a node appended to the circle. */
  method AppendPoints(pos: Positions, vnodes: nat, points: seq<VPoint>, node: Node) returns (r: seq<VPoint>)
    ensures r == points + NodePoints(pos, node, vnodes)
  {
    r := points;
    for i := 0 to vnodes
      invariant r == points + NodePoints(pos, node, i)
    {
      r := r + [VPoint(pos(node, i), node)];
    }
  }

  /** The in-place filter: what is kept keeps its order. */
  method Filter(points: seq<VPoint>, node: Node) returns (kept: seq<VPoint>)
    ensures kept == Drop(points, node)
  {
    kept := [];
    for i := 0 to |points|
      invariant kept == Drop(points[..i], node)
    {
      assert points[..i + 1] == points[..i] + [points[i]];
      DropAppend(points[..i], [points[i]], node);
      if points[i].node != node {
        kept := kept + [points[i]];
      }
    }
    assert points[..|points|] == points;
  }

  class Ring {
    const pos: Positions
    const vnodes: nat
    var points: seq<VPoint>
    var members: set<Node>

    ghost predicate Valid()
      reads this
    {
      vnodes > 0 && IsRing(pos, vnodes, members, points)
    }

    constructor (pos: Positions, vnodes: nat)
      requires vnodes > 0
      ensures Valid() && members == {} && points == [] && this.pos == pos && this.vnodes == vnodes
    {
      this.pos, this.vnodes := pos, vnodes;
      points, members := [], {};
    }

    method Add(node: Node)
      requires Valid()
      modifies this
      ensures Valid() && members == old(members) + {node}
      ensures node in old(members) ==> points == old(points)
    {
      if node in members {
        assert members + {node} == members;
        return;
      }
      var all := AppendPoints(pos, vnodes, points, node);
      var sorted := SortPoints(all);
      AddIsRing(pos, vnodes, members, points, node, sorted);
      points := sorted;
      members := members + {node};
    }

    /** Filtering keeps the surviving points in order, so nothing is sorted again. */
    method Remove(node: Node)
      requires Valid()
      modifies this
      ensures Valid() && members == old(members) - {node}
      ensures points == if node in old(members) then Drop(old(points), node) else old(points)
    {
      if node !in members {
        assert members - {node} == members;
        return;
      }
      var kept := Filter(points, node);
      DropIsRing(pos, vnodes, members, points, node);
      points := kept;
      members := members - {node};
    }

    /** sort.Search: the first point at or after h, or the number of points. */
    method Search(h: U64) returns (i: nat)
      requires Valid()
      ensures i == Before(points, h)
    {
      var lo, hi := 0, |points|;
      while lo < hi
        invariant 0 <= lo <= hi <= |points|
        invariant forall j :: 0 <= j < lo ==> points[j].hash < h
        invariant forall j :: hi <= j < |points| ==> points[j].hash >= h
      {
        var mid := (lo + hi) / 2;
        if points[mid].hash >= h {
          hi := mid;
        } else {
          lo := mid + 1;
        }
      }
      BeforeUnique(points, h, lo);
      i := lo;
    }

    method Owner(key: Blob) returns (r: Option<Node>)
      requires Valid()
      ensures r == Lookup(points, key)
    {
      if |points| == 0 {
        return None;
      }
      var h := KeyHash(key);
      var idx := Search(h);
      if idx == |points| {
        idx := 0;
      }
      assert Clockwise(points, h)[0] == points[idx];
      assert Nodes(Clockwise(points, h))[0] == points[idx].node;
      r := Some(points[idx].node);
    }

    /** The clockwise walk, wrapping around, skipping nodes already collected. */
    method OwnersFor(key: Blob, n: int) returns (out: seq<Node>)
      requires Valid()
      ensures out == LookupN(points, key, n)
    {
      if |points| == 0 || n <= 0 {
        return [];
      }
      var h := KeyHash(key);
      var idx := Search(h);
      if idx == |points| {
        idx := 0;
      }
      RingNodes(pos, vnodes, members, points, h);
      var want := if n > |members| then |members| else n;
      out := Walk(points, h, idx, want);
    }
  }

  method Walk(points: seq<VPoint>, ghost h: U64, idx: nat, want: nat) returns (out: seq<Node>)
    requires points != [] && idx == (if Before(points, h) == |points| then 0 else Before(points, h))
    ensures out == Take(Owners(points, h), want)
  {
    ghost var walk := Nodes(Clockwise(points, h));
    out := [];
    var seen: set<Node> := {};
    var step := 0;
    assert CollectedAt(walk, step, out, seen, true);
    while step < |points| && |out| < want
      invariant 0 <= step <= |points| && |out| <= want && Collected(walk, step, out, seen)
    {
      var node := points[(idx + step) % |points|].node;
      WalkAt(points, h, idx, step);
      CollectStep(walk, step, out, seen);
      if node !in seen {
        seen := seen + {node};
        out := out + [node];
      }
      step := step + 1;
    }
    CollectEnd(walk, step, out, seen, want);
  }

  /** The nodes of the first steps of a walk, once each, and as a set. Unfolded only where CollectedAt
      is mentioned. */
  ghost predicate Collected(walk: seq<Node>, step: nat, out: seq<Node>, seen: set<Node>) {
    forall u: bool {:trigger CollectedAt(walk, step, out, seen, u)} :: CollectedAt(walk, step, out, seen, u)
  }

  ghost predicate CollectedAt(walk: seq<Node>, step: nat, out: seq<Node>, seen: set<Node>, u: bool) {
    step <= |walk| && out == Dedup(walk[..step]) && forall y :: y in seen <==> y in walk[..step]
  }

  lemma {:induction false} CollectStep(walk: seq<Node>, step: nat, out: seq<Node>, seen: set<Node>)
    requires step < |walk| && Collected(walk, step, out, seen)
    ensures if walk[step] in seen then Collected(walk, step + 1, out, seen)
            else Collected(walk, step + 1, out + [walk[step]], seen + {walk[step]})
  {
    assert CollectedAt(walk, step, out, seen, true);
    WalkStep(walk, step);
  }

  /** A walk that went all the way round, or found as many nodes as wanted, has found the owners. */
  lemma {:induction false} CollectEnd(walk: seq<Node>, step: nat, out: seq<Node>, seen: set<Node>, want: nat)
    requires Collected(walk, step, out, seen) && |out| <= want && (step == |walk| || |out| == want)
    ensures out == Take(Dedup(walk), want)
  {
    assert CollectedAt(walk, step, out, seen, true);
    DedupPrefix(walk, step);
    assert step == |walk| ==> walk[..step] == walk;
  }

  lemma {:induction false} WalkStep(walk: seq<Node>, step: nat)
    requires step < |walk|
    ensures Dedup(walk[..step + 1]) ==
            if walk[step] in walk[..step] then Dedup(walk[..step]) else Dedup(walk[..step]) + [walk[step]]
    ensures forall y :: y in walk[..step + 1] <==> y in walk[..step] || y == walk[step]
  {
    assert walk[..step + 1] == walk[..step] + [walk[step]];
    DedupSnoc(walk[..step], walk[step]);
  }

  lemma {:induction false} TwiceAtMost(q: nat, n: nat)
    ensures q >= 2 ==> q * n >= n + n
  {
    if q >= 2 {
      assert (q - 2) * n >= 0;
    }
  }

  lemma {:induction false} WrapIndex(a: nat, n: nat)
    requires n > 0 && a < n + n
    ensures a % n == if a < n then a else a - n
  {
    var q := a / n;
    assert a == q * n + a % n;
    TwiceAtMost(q, n);
    assert q == 0 || q == 1;
    assert 0 * n == 0 && 1 * n == n;
  }

  lemma {:induction false} WalkAt(points: seq<VPoint>, h: U64, idx: nat, step: nat)
    requires step < |points| && idx == (if Before(points, h) == |points| then 0 else Before(points, h))
    ensures Nodes(Clockwise(points, h))[step] == points[(idx + step) % |points|].node
  {
    var b, n := Before(points, h), |points|;
    WrapIndex(idx + step, n);
    var turned := points[b..] + points[..b];
    assert b < n && b + step < n ==> turned[step] == points[b + step];
    assert b < n && b + step >= n ==> turned[step] == points[b + step - n];
    assert b == n ==> turned[step] == points[step];
  }
}
