/** Cost-aware GreedyDual-Size-Frequency eviction as plain values: what the policy of
    internal/cache/gdsf.go means once heaps and running totals are forgotten. */
module GdsfSpec {
  import opened Bytes
  import opened Sums

  datatype WriteMeta = WriteMeta(key: Digest, tenant: Blob, size: int, cost: real)

  datatype Item = Item(tenant: Blob, size: int, cost: real, freq: nat, priority: real)

  /** Quotas are hard caps when static and soft floors when elastic. */
  datatype Config = Config(quotas: map<Blob, int>, elastic: bool, weight: real)

  datatype Gdsf = Gdsf(cfg: Config, items: map<Digest, Item>, inflation: real)

  const MAX_OVERAGE := 1000000000.0

  /** Every configuration a constructor can build. */
  predicate Built(c: Config) {
    0.0 <= c.weight <= 1.0 && (!c.elastic ==> c.weight == 0.0)
  }

  function StaticConfig(quotas: map<Blob, int>): (c: Config)
    ensures Built(c)
  {
    Config(quotas, false, 0.0)
  }

  /** NewGDSFElastic clamps the knob into [0, 1]. */
  function ElasticConfig(quotas: map<Blob, int>, weight: real): (c: Config)
    ensures Built(c) && (0.0 <= weight <= 1.0 ==> c.weight == weight)
  {
    Config(quotas, true, if weight < 0.0 then 0.0 else if weight > 1.0 then 1.0 else weight)
  }

  function Empty(c: Config): (g: Gdsf) {
    Gdsf(c, map[], 0.0)
  }

  // --- values ----------------------------------------------------------------------------------

  /** freq * cost / size, where a missing cost or size counts as one. */
  function Value(freq: nat, cost: real, size: int): (v: real)
    ensures freq > 0 ==> v > 0.0
  {
    var c := if cost <= 0.0 then 1.0 else cost;
    var s := if size <= 0 then 1.0 else size as real;
    ValuePositive(freq as real, c, s);
    freq as real * c / s
  }

  lemma {:induction false} ValuePositive(f: real, c: real, s: real)
    requires c > 0.0 && s > 0.0
    ensures f > 0.0 ==> f * c / s > 0.0
  {
    if f > 0.0 {
      assert f * c > 0.0;
    }
  }

  lemma {:induction false} ValueGrows(freq: nat, cost: real, size: int)
    ensures Value(freq + 1, cost, size) > Value(freq, cost, size)
  {
    var c := if cost <= 0.0 then 1.0 else cost;
    var s := if size <= 0 then 1.0 else size as real;
    var f := freq as real;
    assert (f + 1.0) * c / s == f * c / s + c / s;
  }

  /** Priority over aging floor, cross-multiplied: worth times size is frequency times cost. A cost or a
      size that is not positive counts as one. */
  lemma {:induction false} ValueMeans(freq: nat, cost: real, size: int)
    ensures cost > 0.0 && size > 0 ==> Value(freq, cost, size) * size as real == freq as real * cost
    ensures cost <= 0.0 ==> Value(freq, cost, size) == Value(freq, 1.0, size)
    ensures size <= 0 ==> Value(freq, cost, size) == Value(freq, cost, 1)
  {
    if cost > 0.0 && size > 0 {
      DivideBack(freq as real * cost, size as real);
    }
  }

  lemma {:induction false} DivideBack(x: real, y: real)
    requires y > 0.0
    ensures x / y * y == x
  {
  }

  function Quota(c: Config, t: Blob): (q: int) {
    if t in c.quotas then c.quotas[t] else 0
  }

  /** The sizes of one tenant's blocks. */
  ghost function SizesOf(items: map<Digest, Item>, t: Blob): (m: map<Digest, int>) {
    map k | k in items && items[k].tenant == t :: items[k].size
  }

  ghost function TenantBytes(items: map<Digest, Item>, t: Blob): (r: int) {
    Sum(SizesOf(items, t))
  }

  ghost predicate Over(g: Gdsf, t: Blob) {
    Quota(g.cfg, t) > 0 && TenantBytes(g.items, t) > Quota(g.cfg, t)
  }

  ghost predicate OverQuota(g: Gdsf) {
    !g.cfg.elastic && exists t :: t in g.cfg.quotas && Over(g, t)
  }

  /** How far above its floor a tenant is; a tenant without a floor counts as far above. */
  function OverageOf(quota: int, bytes: int): (o: real)
    ensures o >= 0.0
  {
    if quota <= 0 then (if bytes > 0 then MAX_OVERAGE else 0.0)
    else
      var o := bytes as real / quota as real - 1.0;
      if o < 0.0 then 0.0 else o
  }

  ghost function Overage(g: Gdsf, t: Blob): (o: real)
    ensures o >= 0.0
  {
    OverageOf(Quota(g.cfg, t), TenantBytes(g.items, t))
  }

  /** priority / (1 + weight * overage) */
  function Discounted(priority: real, weight: real, overage: real): (s: real)
    requires weight >= 0.0 && overage >= 0.0
  {
    assert weight * overage >= 0.0;
    priority / (1.0 + weight * overage)
  }

  ghost function Score(g: Gdsf, k: Digest): (s: real)
    requires k in g.items && g.cfg.weight >= 0.0
  {
    Discounted(g.items[k].priority, g.cfg.weight, Overage(g, g.items[k].tenant))
  }

  /** Above its floor: more bytes than the floor, or any bytes at all without one. */
  ghost predicate AboveFloor(g: Gdsf, t: Blob) {
    if t in g.cfg.quotas && g.cfg.quotas[t] > 0 then TenantBytes(g.items, t) > g.cfg.quotas[t] else TenantBytes(g.items, t) > 0
  }

  /** Overage is what it is called: positive exactly above the floor, and then floor times one plus
      overage is the bytes held. Without a floor it is a billion. */
  lemma {:induction false} OverageMeans(g: Gdsf, t: Blob)
    ensures Overage(g, t) > 0.0 <==> AboveFloor(g, t)
    ensures t in g.cfg.quotas && g.cfg.quotas[t] > 0 && AboveFloor(g, t) ==>
            g.cfg.quotas[t] as real * (1.0 + Overage(g, t)) == TenantBytes(g.items, t) as real
    ensures !(t in g.cfg.quotas && g.cfg.quotas[t] > 0) && AboveFloor(g, t) ==> Overage(g, t) == 1000000000.0
  {
    var q, bytes := Quota(g.cfg, t), TenantBytes(g.items, t);
    if q > 0 {
      RatioAboveOne(bytes as real, q as real);
    }
  }

  lemma {:induction false} RatioAboveOne(b: real, q: real)
    requires q > 0.0
    ensures b / q - 1.0 > 0.0 <==> b > q
    ensures q * (1.0 + (b / q - 1.0)) == b
  {
    var r := b / q;
    assert r * q == b;
    if r > 1.0 {
      assert (r - 1.0) * q > 0.0;
    } else {
      assert (1.0 - r) * q >= 0.0;
    }
  }

  /** Over its cap: a positive quota, and more bytes than that. */
  ghost predicate OverCap(g: Gdsf, t: Blob) {
    t in g.cfg.quotas && g.cfg.quotas[t] > 0 && TenantBytes(g.items, t) > g.cfg.quotas[t]
  }

  // --- victims, by scanning every block --------------------------------------------------------

  /** Blocks that compete: those of over-quota tenants if there are any, else all. */
  ghost predicate Candidate(g: Gdsf, k: Digest) {
    k in g.items && (OverQuota(g) ==> Over(g, g.items[k].tenant))
  }

  ghost predicate IsStaticVictim(g: Gdsf, k: Digest) {
    Candidate(g, k) && forall j :: Candidate(g, j) ==> g.items[k].priority <= g.items[j].priority
  }

  ghost predicate IsElasticVictim(g: Gdsf, k: Digest)
    requires g.cfg.weight >= 0.0
  {
    k in g.items && forall j :: j in g.items ==> Score(g, k) <= Score(g, j)
  }

  ghost predicate IsVictim(g: Gdsf, k: Digest)
    requires g.cfg.weight >= 0.0
  {
    if g.cfg.elastic then IsElasticVictim(g, k) else IsStaticVictim(g, k)
  }

  lemma {:induction false} StaticOver(g: Gdsf)
    requires !g.cfg.elastic
    ensures OverQuota(g) <==> exists t :: OverCap(g, t)
  {
    assert forall t :: OverCap(g, t) <==> t in g.cfg.quotas && Over(g, t);
  }

  /** Static mode, said on quotas and bytes: a least-priority block among those of tenants over their
      cap if there are any, else of all. */
  lemma {:induction false} StaticVictimMeans(g: Gdsf, k: Digest)
    requires !g.cfg.elastic && g.cfg.weight >= 0.0
    ensures OverQuota(g) <==> exists t :: OverCap(g, t)
    ensures IsVictim(g, k) <==>
            && k in g.items
            && ((exists t :: OverCap(g, t)) ==> OverCap(g, g.items[k].tenant))
            && (forall j :: j in g.items && ((exists t :: OverCap(g, t)) ==> OverCap(g, g.items[j].tenant)) ==>
                  g.items[k].priority <= g.items[j].priority)
  {
    StaticOver(g);
    assert forall t :: Over(g, t) <==> OverCap(g, t);
    assert forall j :: Candidate(g, j) <==> j in g.items && ((exists t :: OverCap(g, t)) ==> OverCap(g, g.items[j].tenant));
  }

  /** Comparing p / (1 + w * a) with q / (1 + w * b), cross-multiplied. Unfolded only where LowerAt is
      mentioned. */
  ghost predicate Lower(p: real, q: real, w: real, a: real, b: real) {
    forall u: bool {:trigger LowerAt(p, q, w, a, b, u)} :: LowerAt(p, q, w, a, b, u)
  }

  ghost predicate LowerAt(p: real, q: real, w: real, a: real, b: real, u: bool) {
    p * (1.0 + w * b) <= q * (1.0 + w * a)
  }

  /** k has no larger priority per (1 + weight * overage) than j. */
  ghost predicate NoDearer(g: Gdsf, k: Digest, j: Digest)
    requires k in g.items && j in g.items
  {
    Lower(g.items[k].priority, g.items[j].priority, g.cfg.weight, Overage(g, g.items[k].tenant), Overage(g, g.items[j].tenant))
  }

  /** Elastic mode: a block no dearer than any other. */
  lemma {:induction false} ElasticVictimMeans(g: Gdsf, k: Digest)
    requires g.cfg.elastic && g.cfg.weight >= 0.0
    ensures IsVictim(g, k) <==> k in g.items && forall j :: j in g.items ==> NoDearer(g, k, j)
  {
    if k in g.items {
      forall j | j in g.items ensures Score(g, k) <= Score(g, j) <==> NoDearer(g, k, j) {
        ScoresCompare(g, k, j);
      }
    }
  }

  lemma {:induction false} ScoresCompare(g: Gdsf, k: Digest, j: Digest)
    requires g.cfg.weight >= 0.0 && k in g.items && j in g.items
    ensures Score(g, k) <= Score(g, j) <==> NoDearer(g, k, j)
  {
    CompareDiscounts(g.items[k].priority, g.items[j].priority, g.cfg.weight,
                     Overage(g, g.items[k].tenant), Overage(g, g.items[j].tenant));
  }

  lemma {:induction false} CompareDiscounts(p: real, q: real, w: real, a: real, b: real)
    requires w >= 0.0 && a >= 0.0 && b >= 0.0
    ensures Discounted(p, w, a) <= Discounted(q, w, b) <==> Lower(p, q, w, a, b)
  {
    assert Lower(p, q, w, a, b) <==> LowerAt(p, q, w, a, b, true);
    NonNegativeProduct(w, a);
    NonNegativeProduct(w, b);
    var x, y := 1.0 + w * a, 1.0 + w * b;
    CrossMultiply(p, x, q, y);
  }

  lemma {:induction false} NonNegativeProduct(x: real, y: real)
    requires x >= 0.0 && y >= 0.0
    ensures x * y >= 0.0
  {
  }

  lemma {:induction false} CrossMultiply(p: real, x: real, q: real, y: real)
    requires x > 0.0 && y > 0.0
    ensures p / x <= q / y <==> p * y <= q * x
  {
    var a, b := p / x, q / y;
    assert a * x == p && b * y == q;
    assert p * y == a * x * y && q * x == b * y * x;
    assert q * x - p * y == (b - a) * (x * y);
    SignOfProduct(b - a, x * y);
  }

  lemma {:induction false} SignOfProduct(d: real, m: real)
    requires m > 0.0
    ensures d * m >= 0.0 <==> d >= 0.0
  {
    if d < 0.0 {
      assert -d * m > 0.0;
    }
  }

  // --- operations ------------------------------------------------------------------------------

  /** An overwrite by the same tenant keeps the frequency; a new block, or one that changes tenant,
      starts at one. */
  function Written(g: Gdsf, m: WriteMeta): (r: Gdsf) {
    var freq := if m.key in g.items && g.items[m.key].tenant == m.tenant then g.items[m.key].freq else 1;
    g.(items := g.items[m.key :=
        Item(m.tenant, m.size, m.cost, freq, g.inflation + Value(freq, m.cost, m.size))])
  }

  function Accessed(g: Gdsf, k: Digest): (r: Gdsf) {
    if k !in g.items then g
    else
      var it := g.items[k];
      g.(items := g.items[k :=
          it.(freq := it.freq + 1, priority := g.inflation + Value(it.freq + 1, it.cost, it.size))])
  }

  function Evicted(g: Gdsf, k: Digest): (r: Gdsf) {
    g.(items := g.items - {k})
  }

  /** Naming a victim does not remove it; it raises the aging floor to its priority. */
  function Chosen(g: Gdsf, k: Digest): (r: Gdsf)
    requires k in g.items
  {
    g.(inflation := if g.items[k].priority > g.inflation then g.items[k].priority else g.inflation)
  }

  // --- running totals --------------------------------------------------------------------------

  lemma {:induction false} TenantBytesUpdate(items: map<Digest, Item>, k: Digest, it: Item, t: Blob)
    ensures TenantBytes(items[k := it], t) == TenantBytes(items, t)
            - (if k in items && items[k].tenant == t then items[k].size else 0)
            + (if it.tenant == t then it.size else 0)
  {
    var before, after := SizesOf(items, t), SizesOf(items[k := it], t);
    if it.tenant == t {
      assert after == before[k := it.size];
      SumUpdate(before, k, it.size);
    } else {
      assert after == before - {k};
      SumRemove(before, k);
    }
  }

  lemma {:induction false} TenantBytesRemove(items: map<Digest, Item>, k: Digest, t: Blob)
    ensures TenantBytes(items - {k}, t)
         == TenantBytes(items, t) - (if k in items && items[k].tenant == t then items[k].size else 0)
  {
    assert SizesOf(items - {k}, t) == SizesOf(items, t) - {k};
    SumRemove(SizesOf(items, t), k);
  }

  lemma {:induction false} NoItemsNoBytes(items: map<Digest, Item>, t: Blob)
    requires forall k :: k in items ==> items[k].tenant != t
    ensures TenantBytes(items, t) == 0
  {
    assert SizesOf(items, t) == map[];
  }

  ghost function Sizes(items: map<Digest, Item>): (m: map<Digest, int>) {
    map k | k in items :: items[k].size
  }

  ghost function Totals(items: map<Digest, Item>, tenants: set<Blob>): (m: map<Blob, int>) {
    map t | t in tenants :: TenantBytes(items, t)
  }

  /** The per-tenant totals add up to the size of everything tracked. */
  lemma {:induction false} TotalsPartition(items: map<Digest, Item>, tenants: set<Blob>)
    requires forall k :: k in items ==> items[k].tenant in tenants
    ensures Sum(Totals(items, tenants)) == Sum(Sizes(items))
    decreases |items|
  {
    if items == map[] {
      NothingTracked(tenants);
    } else {
      var k :| k in items;
      SmallerMap(items, k);
      TotalsPartition(items - {k}, tenants);
      TotalsGrow(items, tenants, k);
      SizesGrow(items, k);
    }
  }

  lemma {:induction false} TotalsGrow(items: map<Digest, Item>, tenants: set<Blob>, k: Digest)
    requires k in items && items[k].tenant in tenants
    ensures Sum(Totals(items, tenants)) == Sum(Totals(items - {k}, tenants)) + items[k].size
  {
    TotalsWithout(items, tenants, k);
    SumBumped(Totals(items - {k}, tenants), Totals(items, tenants), items[k].tenant, items[k].size);
  }

  lemma {:induction false} SizesGrow(items: map<Digest, Item>, k: Digest)
    requires k in items
    ensures Sum(Sizes(items)) == Sum(Sizes(items - {k})) + items[k].size
  {
    assert Sizes(items - {k}) == Sizes(items) - {k};
    SumRemove(Sizes(items), k);
  }

  lemma {:induction false} NothingTracked(tenants: set<Blob>)
    ensures Sum(Totals(map[], tenants)) == Sum(Sizes(map[])) == 0
  {
    var none: map<Digest, Item> := map[];
    forall t | t in tenants ensures Totals(none, tenants)[t] == 0 { NoItemsNoBytes(none, t); }
    SumOfZeros(Totals(none, tenants));
    assert Sizes(none) == map[];
  }

  lemma {:induction false} TotalsWithout(items: map<Digest, Item>, tenants: set<Blob>, k: Digest)
    requires k in items && items[k].tenant in tenants
    ensures var t, rest := items[k].tenant, Totals(items - {k}, tenants);
            Totals(items, tenants) == rest[t := rest[t] + items[k].size]
  {
    forall u | u in tenants
      ensures TenantBytes(items, u) == TenantBytes(items - {k}, u) + (if u == items[k].tenant then items[k].size else 0)
    {
      TenantBytesRemove(items, k, u);
    }
  }

  lemma {:induction false} SumOfZeros<K>(m: map<K, int>)
    requires forall k :: k in m ==> m[k] == 0
    ensures Sum(m) == 0
  {
    SumNonNegative(m);
    SumNonPositive(m);
  }

  // --- runs ------------------------------------------------------------------------------------

  datatype Op = Write(m: WriteMeta) | Access(k: Digest) | Evict(k: Digest) | Choose(k: Digest)

  /** Only a true victim can be named; every other call is always possible. */
  ghost predicate Enabled(g: Gdsf, op: Op)
    requires g.cfg.weight >= 0.0
  {
    op.Choose? ==> IsVictim(g, op.k)
  }

  ghost function Step(g: Gdsf, op: Op): (r: Gdsf)
    requires g.cfg.weight >= 0.0 && Enabled(g, op)
    ensures r.cfg == g.cfg
  {
    match op
    case Write(m) => Written(g, m)
    case Access(k) => Accessed(g, k)
    case Evict(k) => Evicted(g, k)
    case Choose(k) => Chosen(g, k)
  }

  ghost predicate CanRun(g: Gdsf, ops: seq<Op>)
    requires g.cfg.weight >= 0.0
    decreases |ops|
  {
    ops == [] || (Enabled(g, ops[0]) && CanRun(Step(g, ops[0]), ops[1..]))
  }

  ghost function After(g: Gdsf, ops: seq<Op>): (r: Gdsf)
    requires g.cfg.weight >= 0.0 && CanRun(g, ops)
    ensures r.cfg == g.cfg
    decreases |ops|
  {
    if ops == [] then g else After(Step(g, ops[0]), ops[1..])
  }

  /** What the calls so far say about a block: not tracked, or tracked since it came in or changed
      tenant, with so many uses since, the latest size and cost, and the floor at its latest use. */
  datatype Track = Untracked | Since(tenant: Blob, size: int, cost: real, uses: nat, floor: real)

  function Follow(t: Track, op: Op, k: Digest, floor: real): (r: Track) {
    match op
    case Write(m) =>
      if m.key != k then t
      else if t.Since? && t.tenant == m.tenant then Since(m.tenant, m.size, m.cost, t.uses, floor)
      else Since(m.tenant, m.size, m.cost, 1, floor)
    case Access(j) => if j == k && t.Since? then t.(uses := t.uses + 1, floor := floor) else t
    case Evict(j) => if j == k then Untracked else t
    case Choose(_) => t
  }

  ghost function FollowAll(g: Gdsf, t: Track, ops: seq<Op>, k: Digest): (r: Track)
    requires g.cfg.weight >= 0.0 && CanRun(g, ops)
    decreases |ops|
  {
    if ops == [] then t else FollowAll(Step(g, ops[0]), Follow(t, ops[0], k, g.inflation), ops[1..], k)
  }

  /** The policy's item says the same, and its priority is that floor plus uses * cost / size. */
  ghost predicate Described(g: Gdsf, k: Digest, t: Track) {
    match t
    case Untracked => k !in g.items
    case Since(tenant, size, cost, uses, floor) =>
      && k in g.items && g.items[k].tenant == tenant && g.items[k].size == size && g.items[k].cost == cost
      && g.items[k].freq == uses && g.items[k].priority == floor + Value(uses, cost, size)
  }

  /** Over every run, frequency counts the uses since the block came in or changed tenant, and priority
      is the floor at the latest use plus what the block is worth. */
  lemma {:induction false} ItemsFollowCalls(g: Gdsf, t: Track, ops: seq<Op>, k: Digest)
    requires g.cfg.weight >= 0.0 && CanRun(g, ops) && Described(g, k, t)
    ensures Described(After(g, ops), k, FollowAll(g, t, ops, k))
    decreases |ops|
  {
    if ops != [] {
      ItemsFollowCalls(Step(g, ops[0]), Follow(t, ops[0], k, g.inflation), ops[1..], k);
    }
  }

  /** Naming a victim lifts the floor exactly to its priority, unless it is there already. */
  lemma {:induction false} ChoosingAges(g: Gdsf, k: Digest)
    requires k in g.items
    ensures var r := Chosen(g, k);
            && r.items == g.items && r.cfg == g.cfg
            && r.inflation >= g.inflation && r.inflation >= g.items[k].priority
            && (r.inflation == g.inflation || r.inflation == g.items[k].priority)
  {
  }

  /** Every block was touched at least once and is worth at most what its frequency, cost and size
      give on top of the current floor. */
  ghost predicate Sound(g: Gdsf) {
    && g.inflation >= 0.0
    && forall k :: k in g.items ==>
         && g.items[k].freq >= 1 && g.items[k].priority > 0.0
         && g.items[k].priority <= g.inflation + Value(g.items[k].freq, g.items[k].cost, g.items[k].size)
  }

  lemma {:induction false} StepSound(g: Gdsf, op: Op)
    requires g.cfg.weight >= 0.0 && Enabled(g, op) && Sound(g)
    ensures Sound(Step(g, op)) && Step(g, op).inflation >= g.inflation
  {
  }

  /** GreedyDual aging: over every run the floor only rises and the state stays sound. */
  lemma {:induction false} FloorNeverFalls(g: Gdsf, ops: seq<Op>)
    requires g.cfg.weight >= 0.0 && CanRun(g, ops) && Sound(g)
    ensures After(g, ops).inflation >= g.inflation && Sound(After(g, ops))
    decreases |ops|
  {
    if ops != [] {
      StepSound(g, ops[0]);
      FloorNeverFalls(Step(g, ops[0]), ops[1..]);
    }
  }

  /** A hit strictly raises its block and touches no other. */
  lemma {:induction false} AccessRaises(g: Gdsf, k: Digest)
    requires Sound(g) && k in g.items
    ensures Accessed(g, k).items[k].priority > g.items[k].priority
    ensures forall j :: j in g.items && j != k ==> Accessed(g, k).items[j] == g.items[j]
    ensures Accessed(g, k).items.Keys == g.items.Keys
  {
    ValueGrows(g.items[k].freq, g.items[k].cost, g.items[k].size);
  }

  // --- when the floor stays below every block --------------------------------------------------

  ghost predicate FloorBelow(g: Gdsf) {
    forall k :: k in g.items ==> g.inflation <= g.items[k].priority
  }

  /** Pure value order: no tenant is ever preferred. */
  predicate Unbiased(c: Config) {
    if c.elastic then c.weight == 0.0 else forall t :: t in c.quotas ==> c.quotas[t] <= 0
  }

  lemma {:induction false} UnbiasedVictim(g: Gdsf, k: Digest)
    requires g.cfg.weight >= 0.0 && Unbiased(g.cfg)
    ensures IsVictim(g, k) <==> k in g.items && forall j :: j in g.items ==> g.items[k].priority <= g.items[j].priority
  {
    if g.cfg.elastic {
      assert forall j :: j in g.items ==> Score(g, j) == g.items[j].priority;
    } else {
      assert !OverQuota(g);
      assert forall j :: Candidate(g, j) <==> j in g.items;
    }
  }

  lemma {:induction false} UnbiasedStep(g: Gdsf, op: Op)
    requires g.cfg.weight >= 0.0 && Unbiased(g.cfg) && Enabled(g, op) && FloorBelow(g)
    requires Sound(g)
    ensures FloorBelow(Step(g, op))
  {
    if op.Choose? {
      UnbiasedVictim(g, op.k);
    }
  }

  lemma {:induction false} UnbiasedRun(g: Gdsf, ops: seq<Op>)
    requires g.cfg.weight >= 0.0 && Unbiased(g.cfg) && CanRun(g, ops) && FloorBelow(g) && Sound(g)
    ensures FloorBelow(After(g, ops))
    decreases |ops|
  {
    if ops != [] {
      UnbiasedStep(g, ops[0]);
      StepSound(g, ops[0]);
      UnbiasedRun(Step(g, ops[0]), ops[1..]);
    }
  }

  ghost predicate FloorAlwaysBelow(c: Config)
    requires c.weight >= 0.0
  {
    forall ops :: CanRun(Empty(c), ops) ==> FloorBelow(After(Empty(c), ops))
  }

  const KEY1: Digest := Fill(32, 1)
  const KEY2: Digest := Fill(32, 2)

  /** Two blocks, a dear one of tenant t and a cheaper, empty one of another tenant. */
  ghost function TwoBlocks(c: Config, t: Blob, size: int, cost: real): (g: Gdsf) {
    Written(Written(Empty(c), WriteMeta(KEY1, t, size, cost)), WriteMeta(KEY2, t + [0], 0, 1.0))
  }

  lemma {:induction false} TwoBlocksBytes(c: Config, t: Blob, size: int, cost: real)
    ensures var g := TwoBlocks(c, t, size, cost);
            && TenantBytes(g.items, t) == size && TenantBytes(g.items, t + [0]) == 0
            && g.items.Keys == {KEY1, KEY2} && KEY1 != KEY2 && t != t + [0]
            && g.items[KEY2].priority == 1.0 && g.items[KEY2].tenant == t + [0]
            && g.items[KEY1].tenant == t && g.items[KEY1].priority == Value(1, cost, size)
            && g.cfg == c && g.inflation == 0.0
  {
    var g := TwoBlocks(c, t, size, cost);
    assert KEY1[0] != KEY2[0];
    assert |t| != |t + [0]|;
    var one := Written(Empty(c), WriteMeta(KEY1, t, size, cost));
    TenantBytesUpdate(map[], KEY1, one.items[KEY1], t);
    TenantBytesUpdate(map[], KEY1, one.items[KEY1], t + [0]);
    TenantBytesUpdate(one.items, KEY2, g.items[KEY2], t);
    TenantBytesUpdate(one.items, KEY2, g.items[KEY2], t + [0]);
    NoItemsNoBytes(map[], t);
    NoItemsNoBytes(map[], t + [0]);
  }

  /** Naming the dear block lifts the floor above the cheap one. */
  lemma {:induction false} BiasedRun(c: Config, t: Blob, size: int, cost: real)
    requires c.weight >= 0.0
    requires Value(1, cost, size) > 1.0
    requires IsVictim(TwoBlocks(c, t, size, cost), KEY1)
    ensures !FloorAlwaysBelow(c)
  {
    TwoBlocksBytes(c, t, size, cost);
    var w1, w2 := WriteMeta(KEY1, t, size, cost), WriteMeta(KEY2, t + [0], 0, 1.0);
    var g := TwoBlocks(c, t, size, cost);
    var ops := [Write(w1), Write(w2), Choose(KEY1)];
    var g1 := Step(Empty(c), ops[0]);
    assert g == Step(g1, ops[1]);
    assert ops[1..] == [Write(w2), Choose(KEY1)] && ops[1..][1..] == [Choose(KEY1)];
    assert CanRun(Chosen(g, KEY1), []);
    assert CanRun(g, [Choose(KEY1)]) && After(g, [Choose(KEY1)]) == Chosen(g, KEY1);
    assert CanRun(g1, ops[1..]) && After(g1, ops[1..]) == Chosen(g, KEY1);
    assert CanRun(Empty(c), ops) && After(Empty(c), ops) == Chosen(g, KEY1);
    assert KEY2 in Chosen(g, KEY1).items;
  }

  /** The exact condition: the aging floor stays at or below every tracked priority, in every run,
      exactly when no tenant can be preferred. */
  lemma {:induction false} FloorBelowExactly(c: Config)
    requires Built(c)
    ensures FloorAlwaysBelow(c) <==> Unbiased(c)
  {
    if Unbiased(c) {
      forall ops | CanRun(Empty(c), ops)
        ensures FloorBelow(After(Empty(c), ops))
      {
        UnbiasedRun(Empty(c), ops);
      }
    } else if c.elastic {
      ElasticBias(c);
    } else {
      StaticBias(c);
    }
  }

  lemma {:induction false} StaticBias(c: Config)
    requires Built(c) && !c.elastic && !Unbiased(c)
    ensures !FloorAlwaysBelow(c)
  {
    var t :| t in c.quotas && c.quotas[t] > 0;
    var size := c.quotas[t] + 1;
    var cost := 2.0 * size as real;
    TwoBlocksBytes(c, t, size, cost);
    var g := TwoBlocks(c, t, size, cost);
    assert Over(g, t) && OverQuota(g);
    assert !Over(g, t + [0]);
    ProductPositive(2.0, size as real);
    assert Value(1, cost, size) == 2.0;
    assert forall j :: Candidate(g, j) ==> j == KEY1;
    BiasedRun(c, t, size, cost);
  }

  lemma {:induction false} ElasticBias(c: Config)
    requires Built(c) && c.elastic && !Unbiased(c)
    ensures !FloorAlwaysBelow(c)
  {
    var size, cost := DearBlock(c);
    ElasticScores(c, size, cost);
    TwoBlocksBytes(c, [], size, cost);
    BiasedRun(c, [], size, cost);
  }

  /** A block twice its tenant's floor, just dear enough that its discounted score is still lowest. */
  lemma {:induction false} DearBlock(c: Config) returns (size: int, cost: real)
    requires c.weight > 0.0
    ensures Value(1, cost, size) > 1.0
    ensures Discounted(Value(1, cost, size), c.weight, OverageOf(Quota(c, []), size)) <= 1.0
  {
    var q := Quota(c, []);
    size := if q <= 0 then 1 else 2 * q;
    var o := OverageOf(q, size);
    DoubleIsOver(q);
    ProductPositive(c.weight, o);
    var x := c.weight * o;
    var h := 1.0 + x / 2.0;
    cost := h * size as real;
    ValueIs(h, size);
    DiscountBelowOne(x);
    assert Discounted(h, c.weight, o) == h / (1.0 + x);
  }

  /** A fresh block that costs h per byte is worth h. */
  lemma {:induction false} ValueIs(h: real, size: int)
    requires h > 0.0 && size > 0
    ensures Value(1, h * size as real, size) == h
  {
    ProductPositive(h, size as real);
    assert 1.0 * (h * size as real) == h * size as real;
  }

  lemma {:induction false} DoubleIsOver(q: int)
    ensures OverageOf(q, if q <= 0 then 1 else 2 * q) >= 1.0
  {
    if q > 0 {
      var r := q as real;
      assert (2 * q) as real == 2.0 * r;
      assert 2.0 * r / r == 2.0;
    }
  }

  lemma {:induction false} ElasticScores(c: Config, size: int, cost: real)
    requires Built(c) && c.elastic
    requires Discounted(Value(1, cost, size), c.weight, OverageOf(Quota(c, []), size)) <= 1.0
    ensures IsVictim(TwoBlocks(c, [], size, cost), KEY1)
  {
    TwoBlocksBytes(c, [], size, cost);
    var g := TwoBlocks(c, [], size, cost);
    assert Overage(g, []) == OverageOf(Quota(c, []), size) && Overage(g, [] + [0]) == 0.0;
    NoDiscount(1.0, c.weight);
    assert Score(g, KEY2) == 1.0 && Score(g, KEY1) <= 1.0;
  }

  lemma {:induction false} ProductPositive(h: real, s: real)
    requires h > 0.0 && s > 0.0
    ensures h * s > 0.0 && h * s / s == h
  {
  }

  lemma {:induction false} DiscountBelowOne(x: real)
    requires x > 0.0
    ensures (1.0 + x / 2.0) / (1.0 + x) <= 1.0
  {
  }

  // --- the fairness knob -----------------------------------------------------------------------

  ghost function WithWeight(g: Gdsf, w: real): (r: Gdsf) {
    g.(cfg := g.cfg.(weight := w))
  }

  lemma {:induction false} DiscountShrinks(p: real, w1: real, w2: real, o: real)
    requires p > 0.0 && 0.0 <= w1 < w2 && o > 0.0
    ensures Discounted(p, w2, o) < Discounted(p, w1, o)
  {
    var d1, d2 := 1.0 + w1 * o, 1.0 + w2 * o;
    assert w1 * o < w2 * o;
    assert 0.0 < d1 < d2;
    var a, b := p / d1, p / d2;
    assert a * d1 == p && b * d2 == p && b > 0.0;
    assert b * (d2 - d1) > 0.0;
    assert (a - b) * d1 == b * (d2 - d1);
    PositiveFactor(a - b, d1);
  }

  lemma {:induction false} PositiveFactor(x: real, d: real)
    requires d > 0.0
    ensures x * d > 0.0 ==> x > 0.0
  {
  }

  lemma {:induction false} ScoreUnder(g: Gdsf, w: real, k: Digest)
    requires k in g.items && w >= 0.0
    ensures Score(WithWeight(g, w), k) == Discounted(g.items[k].priority, w, Overage(g, g.items[k].tenant))
    ensures Overage(g, g.items[k].tenant) == 0.0 ==> Score(WithWeight(g, w), k) == g.items[k].priority
  {
    NoDiscount(g.items[k].priority, w);
  }

  lemma {:induction false} NoDiscount(p: real, w: real)
    requires w >= 0.0
    ensures Discounted(p, w, 0.0) == p
  {
    assert w * 0.0 == 0.0;
  }

  /** The knob is monotone: once a weight takes its victim from a tenant above its floor, every
      larger weight does too, whichever tied victim either of them names. */
  lemma {:induction false} FairnessMonotone(g: Gdsf, w1: real, w2: real, k1: Digest, k2: Digest)
    requires Sound(g) && g.cfg.elastic && 0.0 <= w1 < w2
    requires IsVictim(WithWeight(g, w1), k1) && IsVictim(WithWeight(g, w2), k2)
    requires AboveFloor(g, g.items[k1].tenant)
    ensures AboveFloor(g, g.items[k2].tenant)
  {
    OverageMeans(g, g.items[k1].tenant);
    OverageMeans(g, g.items[k2].tenant);
    var a, b := WithWeight(g, w1), WithWeight(g, w2);
    ScoreUnder(g, w1, k1);
    ScoreUnder(g, w2, k1);
    ScoreUnder(g, w1, k2);
    ScoreUnder(g, w2, k2);
    DiscountShrinks(g.items[k1].priority, w1, w2, Overage(g, g.items[k1].tenant));
    assert Score(b, k2) <= Score(b, k1) < Score(a, k1) <= Score(a, k2);
  }

  /** While every tenant that holds blocks is within its floor, nobody is discounted: whatever the
      weight, the victims are exactly the least-valued blocks. */
  lemma {:induction false} WithinFloorsIsGlobal(g: Gdsf, k: Digest)
    requires g.cfg.elastic && g.cfg.weight >= 0.0
    requires forall j :: j in g.items ==> !AboveFloor(g, g.items[j].tenant)
    ensures IsVictim(g, k) <==> k in g.items && forall j :: j in g.items ==> g.items[k].priority <= g.items[j].priority
  {
    forall j | j in g.items ensures Score(g, j) == g.items[j].priority {
      OverageMeans(g, g.items[j].tenant);
      NoDiscount(g.items[j].priority, g.cfg.weight);
    }
  }

  /** At weight zero the elastic victim is the global least-valued block. */
  lemma {:induction false} ZeroWeightIsGlobal(g: Gdsf, k: Digest)
    requires g.cfg.elastic
    ensures IsVictim(WithWeight(g, 0.0), k)
            <==> k in g.items && forall j :: j in g.items ==> g.items[k].priority <= g.items[j].priority
  {
    UnbiasedVictim(WithWeight(g, 0.0), k);
  }

  /** A static victim of a tenant within its quota means no tenant is over. */
  lemma {:induction false} WithinQuotaGoesLast(g: Gdsf, k: Digest)
    requires g.cfg.weight >= 0.0 && !g.cfg.elastic && IsVictim(g, k) && !Over(g, g.items[k].tenant)
    ensures !OverQuota(g)
  {
  }

  /** There is always a victim unless nothing is tracked. */
  lemma {:induction false} VictimExists(g: Gdsf)
    requires g.cfg.weight >= 0.0 && g.items != map[]
    ensures exists k :: IsVictim(g, k)
  {
    if g.cfg.elastic {
      var m := map j | j in g.items :: Score(g, j);
      var some :| some in g.items;
      assert some in m;
      var k := Least(m);
      assert forall j :: j in g.items ==> j in m && m[j] == Score(g, j);
      assert IsElasticVictim(g, k) && IsVictim(g, k);
    } else {
      var c := SomeCandidate(g);
      var m := map j | j in g.items && Candidate(g, j) :: g.items[j].priority;
      assert c in m;
      var k := Least(m);
      assert forall j :: Candidate(g, j) ==> j in m && m[j] == g.items[j].priority;
      assert IsStaticVictim(g, k) && IsVictim(g, k);
    }
  }

  lemma {:induction false} SomeCandidate(g: Gdsf) returns (k: Digest)
    requires g.items != map[]
    ensures Candidate(g, k)
  {
    if OverQuota(g) {
      var t :| t in g.cfg.quotas && Over(g, t);
      assert SizesOf(g.items, t) != map[];
      k :| k in SizesOf(g.items, t);
    } else {
      k :| k in g.items;
    }
  }

  lemma {:induction false} Least(m: map<Digest, real>) returns (k: Digest)
    requires m != map[]
    ensures k in m && forall j :: j in m ==> m[k] <= m[j]
    decreases |m|
  {
    var x :| x in m;
    var rest := m - {x};
    if rest == map[] {
      assert forall j :: j in m ==> j == x || j in rest;
      k := x;
    } else {
      SmallerMap(m, x);
      var y := Least(rest);
      assert forall j :: j in m && j != x ==> j in rest && rest[j] == m[j];
      k := if m[x] <= m[y] then x else y;
    }
  }
}
