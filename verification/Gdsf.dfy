/** The policy object of internal/cache/gdsf.go: an item index, per-tenant heaps and running byte
    totals, proved to implement the plain values of GdsfSpec. */
module GdsfPolicies {
  import opened Bytes
  import opened GdsfSpec
  import opened GdsfHeap

  /** tenantState */
  datatype Tenant = Tenant(bytes: int, quota: int, h: seq<Digest>)

  type Tenants = map<Blob, Tenant>

  // --- the representation ----------------------------------------------------------------------

  ghost function Plain(items: Items): (r: map<Digest, Item>) {
    map k | k in items :: Item(items[k].tenant, items[k].size, items[k].cost, items[k].freq, items[k].priority)
  }

  /** Every tracked block is in its own tenant's heap, and every heap lists only its own blocks. */
  ghost predicate Placed(items: Items, tenants: Tenants) {
    && (forall k :: k in items ==> items[k].tenant in tenants)
    && (forall t {:trigger ListOf(items, tenants, t)} :: ListOf(items, tenants, t))
  }

  ghost predicate ListOf(items: Items, tenants: Tenants, t: Blob) {
    t in tenants ==> Lists(tenants[t].h, items, t)
  }

  ghost predicate HeapOf(items: Items, tenants: Tenants, t: Blob) {
    t in tenants ==> Heap(tenants[t].h, items)
  }

  ghost predicate Heaps(items: Items, tenants: Tenants) {
    forall t {:trigger HeapOf(items, tenants, t)} :: HeapOf(items, tenants, t)
  }

  ghost predicate TotalAt(cfg: Config, items: Items, tenants: Tenants, t: Blob) {
    t in tenants ==> tenants[t].quota == Quota(cfg, t) && tenants[t].bytes == TenantBytes(Plain(items), t)
  }

  /** The running totals are the sums they stand for. */
  ghost predicate Totalled(cfg: Config, items: Items, tenants: Tenants) {
    forall t {:trigger TotalAt(cfg, items, tenants, t)} :: TotalAt(cfg, items, tenants, t)
  }

  /** Everything the lists and totals must satisfy. Unfolded only where ConsistentAt is mentioned. */
  ghost predicate Consistent(cfg: Config, items: Items, tenants: Tenants) {
    forall u: bool {:trigger ConsistentAt(cfg, items, tenants, u)} :: ConsistentAt(cfg, items, tenants, u)
  }

  ghost predicate ConsistentAt(cfg: Config, items: Items, tenants: Tenants, u: bool) {
    Placed(items, tenants) && Heaps(items, tenants) && Totalled(cfg, items, tenants)
  }

  lemma {:induction false} HeapAgrees(h: seq<Digest>, a: Items, b: Items)
    requires Heap(h, a) && forall k :: k in h ==> k in b && k in a && a[k] == b[k]
    ensures Heap(h, b)
  {
    assert Prioritised(h, b, Priorities(h, a));
    PrioritiesUnique(h, b, Priorities(h, a));
  }

  /** The blocks of every tenant but t are as before. */
  ghost predicate OthersKept(items: Items, items': Items, t: Blob) {
    && (forall k :: k in items && items[k].tenant != t ==> k in items' && items'[k] == items[k])
    && (forall k :: k in items' && items'[k].tenant != t ==> k in items && items'[k] == items[k])
  }

  /** h lists exactly the blocks of tenant t. */
  ghost predicate Lists(h: seq<Digest>, items: Items, t: Blob) {
    && (forall k :: k in h ==> k in items && items[k].tenant == t)
    && (forall k :: k in items && items[k].tenant == t ==> k in h)
  }

  /** One tenant's list and blocks may be replaced together; nothing else is disturbed. */
  lemma {:induction false} ReplaceTenant(items: Items, tenants: Tenants, t: Blob, ts: Tenant, items': Items)
    requires Placed(items, tenants) && Heaps(items, tenants)
    requires OthersKept(items, items', t) && Lists(ts.h, items', t) && Heap(ts.h, items')
    ensures Placed(items', tenants[t := ts]) && Heaps(items', tenants[t := ts])
  {
    ReplacePlaced(items, tenants, t, ts, items');
    var tenants' := tenants[t := ts];
    forall u: Blob | true ensures HeapOf(items', tenants', u) {
      if u in tenants && u != t {
        assert HeapOf(items, tenants, u);
        OtherHeap(items, tenants, t, items', u);
      }
    }
  }

  lemma {:induction false} ReplacePlaced(items: Items, tenants: Tenants, t: Blob, ts: Tenant, items': Items)
    requires Placed(items, tenants) && OthersKept(items, items', t) && Lists(ts.h, items', t)
    ensures Placed(items', tenants[t := ts])
  {
    var tenants' := tenants[t := ts];
    forall u: Blob | true ensures ListOf(items', tenants', u) {
      if u in tenants && u != t {
        assert ListOf(items, tenants, u);
      }
    }
  }

  lemma {:induction false} OtherHeap(items: Items, tenants: Tenants, t: Blob, items': Items, u: Blob)
    requires Placed(items, tenants) && OthersKept(items, items', t)
    requires u in tenants && u != t && Heap(tenants[u].h, items)
    ensures Heap(tenants[u].h, items')
  {
    assert ListOf(items, tenants, u);
    HeapAgrees(tenants[u].h, items, items');
  }

  lemma {:induction false} ListsOf(items: Items, tenants: Tenants, t: Blob)
    requires Placed(items, tenants) && t in tenants
    ensures Lists(tenants[t].h, items, t)
  {
    assert ListOf(items, tenants, t);
  }

  /** Totals after block k was given the value `it`. */
  lemma {:induction false} TotalsAfterUpdate(
    cfg: Config, items: Items, tenants: Tenants, k: Digest, it: Item, items': Items, ts: Tenant)
    requires Totalled(cfg, items, tenants) && it.tenant in tenants
    requires k in items ==> items[k].tenant == it.tenant
    requires Plain(items') == Plain(items)[k := it]
    requires ts.quota == tenants[it.tenant].quota
    requires ts.bytes == tenants[it.tenant].bytes + it.size - (if k in items then items[k].size else 0)
    ensures Totalled(cfg, items', tenants[it.tenant := ts])
  {
    var tenants' := tenants[it.tenant := ts];
    forall u: Blob | true ensures TotalAt(cfg, items', tenants', u) {
      assert TotalAt(cfg, items, tenants, u);
      TenantBytesUpdate(Plain(items), k, it, u);
    }
  }

  // --- a tracked block changes -----------------------------------------------------------------

  function ValueOf(it: Tracked): (r: Item) {
    Item(it.tenant, it.size, it.cost, it.freq, it.priority)
  }

  lemma {:induction false} SiftedPlain(h: seq<Digest>, items: Items, h': seq<Digest>, items': Items, n: nat)
    requires Sifted(h, items, h', items', n)
    ensures Plain(items') == Plain(items)
  {
  }

  lemma {:induction false} SiftedLists(h: seq<Digest>, items: Items, h': seq<Digest>, items': Items, n: nat, t: Blob)
    requires Sifted(h, items, h', items', n) && Lists(h, items, t)
    ensures Lists(h', items', t) && OthersKept(items, items', t)
  {
    SameMembers(h, h');
  }

  lemma {:induction false} ChangeKeeps(
    cfg: Config, items: Items, tenants: Tenants, k: Digest, it: Tracked, h': seq<Digest>, items': Items)
    requires Consistent(cfg, items, tenants) && k in items && it.tenant == items[k].tenant && it.tenant in tenants
    requires Sifted(tenants[it.tenant].h, items[k := it], h', items', |h'|) && Heap(h', items')
    ensures var ts := tenants[it.tenant];
            Consistent(cfg, items', tenants[it.tenant := Tenant(ts.bytes + it.size - items[k].size, ts.quota, h')])
    ensures Plain(items') == Plain(items)[k := ValueOf(it)]
  {
    assert ConsistentAt(cfg, items, tenants, true);
    var ts := tenants[it.tenant];
    var ts' := Tenant(ts.bytes + it.size - items[k].size, ts.quota, h');
    ListsOf(items, tenants, it.tenant);
    Reshape(items, tenants, k, it, ts.h, items', ts');
    TotalsAfterUpdate(cfg, items, tenants, k, ValueOf(it), items', ts');
  }

  lemma {:induction false} Reshape(
    items: Items, tenants: Tenants, k: Digest, it: Tracked, h: seq<Digest>, items': Items, ts: Tenant)
    requires Placed(items, tenants) && Heaps(items, tenants) && it.tenant in tenants && k in h
    requires k in items ==> items[k].tenant == it.tenant
    requires forall j :: j in h <==> j in tenants[it.tenant].h || j == k
    requires Sifted(h, items[k := it], ts.h, items', |ts.h|) && Heap(ts.h, items')
    ensures Placed(items', tenants[it.tenant := ts]) && Heaps(items', tenants[it.tenant := ts])
    ensures Plain(items') == Plain(items)[k := ValueOf(it)]
  {
    ChangeStructure(items, tenants, k, it, h, ts.h, items');
    ReplaceTenant(items, tenants, it.tenant, ts, items');
  }

  lemma {:induction false} ChangeStructure(
    items: Items, tenants: Tenants, k: Digest, it: Tracked, h: seq<Digest>, h': seq<Digest>, items': Items)
    requires Placed(items, tenants) && it.tenant in tenants && k in h
    requires k in items ==> items[k].tenant == it.tenant
    requires forall j :: j in h <==> j in tenants[it.tenant].h || j == k
    requires Sifted(h, items[k := it], h', items', |h'|)
    ensures OthersKept(items, items', it.tenant) && Lists(h', items', it.tenant)
    ensures Plain(items') == Plain(items)[k := ValueOf(it)]
  {
    ListsOf(items, tenants, it.tenant);
    assert Lists(h, items[k := it], it.tenant);
    SiftedLists(h, items[k := it], h', items', |h'|, it.tenant);
    SiftedPlain(h, items[k := it], h', items', |h'|);
    PlainUpdate(items, k, it);
  }

  lemma {:induction false} PlainUpdate(items: Items, k: Digest, it: Tracked)
    ensures Plain(items[k := it]) == Plain(items)[k := ValueOf(it)]
  {
  }

  // --- a block arrives -------------------------------------------------------------------------

  lemma {:induction false} InsertKeeps(
    cfg: Config, items: Items, tenants: Tenants, k: Digest, it: Tracked, h': seq<Digest>, items': Items)
    requires Consistent(cfg, items, tenants) && k !in items && it.tenant in tenants
    requires Sifted(tenants[it.tenant].h + [k], items[k := it], h', items', |h'|) && Heap(h', items')
    ensures var ts := tenants[it.tenant];
            Consistent(cfg, items', tenants[it.tenant := Tenant(ts.bytes + it.size, ts.quota, h')])
    ensures Plain(items') == Plain(items)[k := ValueOf(it)]
  {
    assert ConsistentAt(cfg, items, tenants, true);
    var ts := tenants[it.tenant];
    var ts' := Tenant(ts.bytes + it.size, ts.quota, h');
    Reshape(items, tenants, k, it, ts.h + [k], items', ts');
    TotalsAfterUpdate(cfg, items, tenants, k, ValueOf(it), items', ts');
  }

  /** tenantFor: an unknown tenant starts empty, with its configured quota. */
  lemma {:induction false} NewTenantKeeps(cfg: Config, items: Items, tenants: Tenants, t: Blob)
    requires Consistent(cfg, items, tenants) && t !in tenants
    ensures Consistent(cfg, items, tenants[t := Tenant(0, Quota(cfg, t), [])])
  {
    assert ConsistentAt(cfg, items, tenants, true);
    NewTenantPlaced(items, tenants, t, Tenant(0, Quota(cfg, t), []));
    NewTenantTotal(cfg, items, tenants, t);
  }

  lemma {:induction false} NewTenantPlaced(items: Items, tenants: Tenants, t: Blob, ts: Tenant)
    requires Placed(items, tenants) && Heaps(items, tenants) && t !in tenants && ts.h == []
    ensures Placed(items, tenants[t := ts]) && Heaps(items, tenants[t := ts])
  {
    ReplaceTenant(items, tenants, t, ts, items);
  }

  lemma {:induction false} NewTenantTotal(cfg: Config, items: Items, tenants: Tenants, t: Blob)
    requires Totalled(cfg, items, tenants) && t !in tenants
    requires forall k :: k in items ==> items[k].tenant in tenants
    ensures Totalled(cfg, items, tenants[t := Tenant(0, Quota(cfg, t), [])])
  {
    var tenants' := tenants[t := Tenant(0, Quota(cfg, t), [])];
    NoItemsNoBytes(Plain(items), t);
    forall u: Blob | true ensures TotalAt(cfg, items, tenants', u) {
      if u != t {
        assert TotalAt(cfg, items, tenants, u);
      }
    }
  }

  // --- a block leaves --------------------------------------------------------------------------

  lemma {:induction false} RemoveKeeps(
    cfg: Config, items: Items, tenants: Tenants, k: Digest, h': seq<Digest>, items': Items)
    requires Consistent(cfg, items, tenants) && k in items && items[k].tenant in tenants
    requires items'.Keys == items.Keys - {k} && Heap(h', items')
    requires forall j :: j in h' <==> j in tenants[items[k].tenant].h && j != k
    requires forall j :: j in items' ==> j in items && SameBut(items'[j], items[j])
    requires forall j :: j in items && j !in tenants[items[k].tenant].h ==> j in items' && items'[j] == items[j]
    ensures var ts := tenants[items[k].tenant];
            Consistent(cfg, items', tenants[items[k].tenant := Tenant(ts.bytes - items[k].size, ts.quota, h')])
    ensures Plain(items') == Plain(items) - {k}
  {
    assert ConsistentAt(cfg, items, tenants, true);
    var t, ts := items[k].tenant, tenants[items[k].tenant];
    var ts' := Tenant(ts.bytes - items[k].size, ts.quota, h');
    RemoveStructure(items, tenants, k, h', items');
    ReplaceTenant(items, tenants, t, ts', items');
    TotalsAfterRemove(cfg, items, tenants, k, items', ts');
  }

  lemma {:induction false} RemoveStructure(items: Items, tenants: Tenants, k: Digest, h': seq<Digest>, items': Items)
    requires Placed(items, tenants) && k in items && items'.Keys == items.Keys - {k}
    requires forall j :: j in h' <==> j in tenants[items[k].tenant].h && j != k
    requires forall j :: j in items' ==> j in items && SameBut(items'[j], items[j])
    requires forall j :: j in items && j !in tenants[items[k].tenant].h ==> j in items' && items'[j] == items[j]
    ensures OthersKept(items, items', items[k].tenant) && Lists(h', items', items[k].tenant)
    ensures Plain(items') == Plain(items) - {k}
  {
    ListsOf(items, tenants, items[k].tenant);
    assert forall j :: j in items' <==> j in items && j != k;
  }

  lemma {:induction false} TotalsAfterRemove(
    cfg: Config, items: Items, tenants: Tenants, k: Digest, items': Items, ts: Tenant)
    requires Totalled(cfg, items, tenants) && k in items && items[k].tenant in tenants
    requires Plain(items') == Plain(items) - {k}
    requires ts.quota == tenants[items[k].tenant].quota
    requires ts.bytes == tenants[items[k].tenant].bytes - items[k].size
    ensures Totalled(cfg, items', tenants[items[k].tenant := ts])
  {
    var tenants' := tenants[items[k].tenant := ts];
    forall u: Blob | true ensures TotalAt(cfg, items', tenants', u) {
      assert TotalAt(cfg, items, tenants, u);
      TenantBytesRemove(Plain(items), k, u);
    }
  }

  // --- peeking roots is scanning everything ----------------------------------------------------

  predicate TenantOver(ts: Tenant) {
    ts.quota > 0 && ts.bytes > ts.quota
  }

  ghost function ViewOf(cfg: Config, items: Items, inflation: real): (g: Gdsf) {
    Gdsf(cfg, Plain(items), inflation)
  }

  lemma {:induction false} OverMeans(cfg: Config, items: Items, tenants: Tenants, L: real, t: Blob)
    requires Consistent(cfg, items, tenants)
    ensures Over(ViewOf(cfg, items, L), t) <==> t in tenants && TenantOver(tenants[t])
    ensures Over(ViewOf(cfg, items, L), t) ==> t in cfg.quotas && t in tenants && tenants[t].h != []
  {
    assert ConsistentAt(cfg, items, tenants, true);
    assert TotalAt(cfg, items, tenants, t) && ListOf(items, tenants, t);
    var mine := SizesOf(Plain(items), t);
    if mine == map[] {
      assert TenantBytes(Plain(items), t) == 0;
    } else {
      var k :| k in mine;
      assert k in items && items[k].tenant == t;
    }
  }

  /** Some non-empty tenant is over its quota. */
  ghost predicate SomeOver(tenants: Tenants) {
    exists t :: t in tenants && tenants[t].h != [] && TenantOver(tenants[t])
  }

  lemma {:induction false} SomeOverMeans(cfg: Config, items: Items, tenants: Tenants, L: real)
    requires Consistent(cfg, items, tenants) && !cfg.elastic
    ensures OverQuota(ViewOf(cfg, items, L)) <==> SomeOver(tenants)
  {
    var g := ViewOf(cfg, items, L);
    if OverQuota(g) {
      var t :| t in cfg.quotas && Over(g, t);
      OverMeans(cfg, items, tenants, L, t);
    }
    if SomeOver(tenants) {
      var t :| t in tenants && tenants[t].h != [] && TenantOver(tenants[t]);
      OverMeans(cfg, items, tenants, L, t);
    }
  }

  /** k is no dearer than the root of any competing tenant among `seen`. */
  ghost predicate LeastRoot(items: Items, tenants: Tenants, seen: set<Blob>, over: bool, k: Digest) {
    && k in items && items[k].tenant in tenants && (over ==> TenantOver(tenants[items[k].tenant]))
    && (forall t :: t in seen && t in tenants && tenants[t].h != [] && (over ==> TenantOver(tenants[t])) ==>
          tenants[t].h[0] in items && items[k].priority <= items[tenants[t].h[0]].priority)
  }

  lemma {:induction false} LeastRootIsVictim(cfg: Config, items: Items, tenants: Tenants, L: real, over: bool, k: Digest)
    requires Consistent(cfg, items, tenants) && !cfg.elastic
    requires over == SomeOver(tenants) && LeastRoot(items, tenants, tenants.Keys, over, k)
    ensures IsStaticVictim(ViewOf(cfg, items, L), k)
  {
    assert ConsistentAt(cfg, items, tenants, true);
    var g := ViewOf(cfg, items, L);
    SomeOverMeans(cfg, items, tenants, L);
    OverMeans(cfg, items, tenants, L, items[k].tenant);
    forall j | Candidate(g, j) ensures g.items[k].priority <= g.items[j].priority {
      var t := items[j].tenant;
      OverMeans(cfg, items, tenants, L, t);
      RootBelow(items, tenants, j);
    }
  }

  lemma {:induction false} RootBelow(items: Items, tenants: Tenants, j: Digest)
    requires Placed(items, tenants) && Heaps(items, tenants) && j in items
    ensures items[j].tenant in tenants
    ensures var h := tenants[items[j].tenant].h;
            h != [] && h[0] in items && items[h[0]].tenant == items[j].tenant && items[h[0]].priority <= items[j].priority
  {
    var t := items[j].tenant;
    assert ListOf(items, tenants, t) && HeapOf(items, tenants, t);
    HeapRoot(tenants[t].h, items, j);
  }

  /** The discounted value of a tenant's root. */
  function RootScore(weight: real, ts: Tenant, priority: real): (s: real)
    requires weight >= 0.0
  {
    Discounted(priority, weight, OverageOf(ts.quota, ts.bytes))
  }

  /** k's score is no larger than any root's among `seen`. */
  ghost predicate LeastScore(weight: real, items: Items, tenants: Tenants, seen: set<Blob>, k: Digest, score: real)
    requires weight >= 0.0
  {
    && k in items && items[k].tenant in tenants && score == RootScore(weight, tenants[items[k].tenant], items[k].priority)
    && (forall t :: t in seen && t in tenants && tenants[t].h != [] ==>
          tenants[t].h[0] in items && score <= RootScore(weight, tenants[t], items[tenants[t].h[0]].priority))
  }

  lemma {:induction false} ScoreMeans(cfg: Config, items: Items, tenants: Tenants, L: real, k: Digest)
    requires Consistent(cfg, items, tenants) && cfg.weight >= 0.0 && k in items
    ensures items[k].tenant in tenants
    ensures Score(ViewOf(cfg, items, L), k) == RootScore(cfg.weight, tenants[items[k].tenant], items[k].priority)
  {
    assert ConsistentAt(cfg, items, tenants, true);
    assert TotalAt(cfg, items, tenants, items[k].tenant);
  }

  /** The discount is one positive factor per tenant, so it keeps each heap's order. */
  lemma {:induction false} DiscountMonotone(weight: real, ts: Tenant, a: real, b: real)
    requires weight >= 0.0 && a <= b
    ensures RootScore(weight, ts, a) <= RootScore(weight, ts, b)
  {
    var o := OverageOf(ts.quota, ts.bytes);
    assert weight * o >= 0.0;
    DivideMonotone(a, b, 1.0 + weight * o);
  }

  lemma {:induction false} DivideMonotone(a: real, b: real, d: real)
    requires a <= b && d > 0.0
    ensures a / d <= b / d
  {
    assert b / d - a / d == (b - a) / d;
  }

  lemma {:induction false} LeastScoreIsVictim(cfg: Config, items: Items, tenants: Tenants, L: real, k: Digest, score: real)
    requires Consistent(cfg, items, tenants) && cfg.weight >= 0.0
    requires LeastScore(cfg.weight, items, tenants, tenants.Keys, k, score)
    ensures IsElasticVictim(ViewOf(cfg, items, L), k)
  {
    assert ConsistentAt(cfg, items, tenants, true);
    var g := ViewOf(cfg, items, L);
    ScoreMeans(cfg, items, tenants, L, k);
    forall j | j in g.items ensures Score(g, k) <= Score(g, j) {
      ScoreMeans(cfg, items, tenants, L, j);
      RootBelow(items, tenants, j);
      var ts := tenants[items[j].tenant];
      DiscountMonotone(cfg.weight, ts, items[ts.h[0]].priority, items[j].priority);
    }
  }

  /** heap.Fix on the tenant's heap after block k was given the value `it`. */
  method Reheap(items: Items, tenants: Tenants, k: Digest, it: Tracked) returns (h: seq<Digest>, its: Items)
    requires Placed(items, tenants) && Heaps(items, tenants) && k in items
    requires it.tenant == items[k].tenant && it.index == items[k].index
    ensures it.tenant in tenants && Heap(h, its)
    ensures Sifted(tenants[it.tenant].h, items[k := it], h, its, |h|)
  {
    IndexedAt(items, tenants, k);
    h, its := Fix(tenants[it.tenant].h, items[k := it], it.index, items);
  }

  /** Where a static scan stands after the tenants in `seen`, whatever their order. */
  ghost predicate StaticScan(items: Items, tenants: Tenants, seen: set<Blob>, over: bool, v: Option<Digest>) {
    && (over <==> exists t :: t in seen && t in tenants && tenants[t].h != [] && TenantOver(tenants[t]))
    && (v.None? ==> !over && forall t :: t in seen && t in tenants ==> tenants[t].h == [])
    && (v.Some? ==> LeastRoot(items, tenants, seen, over, v.value))
  }

  ghost function StaticPick(items: Items, ts: Tenant, over: bool, v: Option<Digest>): (r: (bool, Option<Digest>))
    requires ts.h != [] ==> ts.h[0] in items
    requires v.Some? ==> v.value in items
  {
    if ts.h == [] then (over, v)
    else if TenantOver(ts) && !over then (true, Some(ts.h[0]))
    else if TenantOver(ts) == over && (v.None? || items[ts.h[0]].priority < items[v.value].priority) then
      (over, Some(ts.h[0]))
    else (over, v)
  }

  lemma {:induction false} StaticStep(items: Items, tenants: Tenants, seen: set<Blob>, over: bool, v: Option<Digest>, t: Blob)
    requires StaticScan(items, tenants, seen, over, v) && t in tenants
    requires tenants[t].h != [] ==> tenants[t].h[0] in items && items[tenants[t].h[0]].tenant == t
    ensures var (over', v') := StaticPick(items, tenants[t], over, v);
            StaticScan(items, tenants, seen + {t}, over', v')
  {
    var (over', v') := StaticPick(items, tenants[t], over, v);
    assert forall u :: u in seen + {t} <==> u in seen || u == t;
    if v'.Some? {
      forall u | u in seen + {t} && u in tenants && tenants[u].h != [] && (over' ==> TenantOver(tenants[u]))
        ensures tenants[u].h[0] in items && items[v'.value].priority <= items[tenants[u].h[0]].priority
      {
      }
    }
  }

  ghost predicate ElasticScan(weight: real, items: Items, tenants: Tenants, seen: set<Blob>, v: Option<Digest>, score: real)
    requires weight >= 0.0
  {
    && (v.None? ==> forall t :: t in seen && t in tenants ==> tenants[t].h == [])
    && (v.Some? ==> LeastScore(weight, items, tenants, seen, v.value, score))
  }

  lemma {:induction false} ElasticStep(
    weight: real, items: Items, tenants: Tenants, seen: set<Blob>, v: Option<Digest>, score: real, t: Blob)
    requires weight >= 0.0 && ElasticScan(weight, items, tenants, seen, v, score) && t in tenants
    requires tenants[t].h != [] ==> tenants[t].h[0] in items && items[tenants[t].h[0]].tenant == t
    ensures if tenants[t].h == [] then ElasticScan(weight, items, tenants, seen + {t}, v, score)
            else
              var s := RootScore(weight, tenants[t], items[tenants[t].h[0]].priority);
              if v.None? || s < score then ElasticScan(weight, items, tenants, seen + {t}, Some(tenants[t].h[0]), s)
              else ElasticScan(weight, items, tenants, seen + {t}, v, score)
  {
    assert forall u :: u in seen + {t} <==> u in seen || u == t;
  }

  lemma {:induction false} StaticDone(items: Items, tenants: Tenants, over: bool, v: Option<Digest>)
    requires Placed(items, tenants) && StaticScan(items, tenants, tenants.Keys, over, v)
    ensures over == SomeOver(tenants)
    ensures v.None? <==> items == map[]
  {
    if v.None? {
      EmptyHeaps(items, tenants);
    }
  }

  /** One pass over the tenants in any order: an over-quota tenant's root outranks every other. */
  method PeekStatic(items: Items, tenants: Tenants) returns (v: Option<Digest>, over: bool)
    requires Placed(items, tenants)
    ensures over == SomeOver(tenants)
    ensures v.None? <==> items == map[]
    ensures v.Some? ==> LeastRoot(items, tenants, tenants.Keys, over, v.value)
  {
    v, over := None, false;
    var todo := tenants.Keys;
    ghost var seen: set<Blob> := {};
    while todo != {}
      invariant todo + seen == tenants.Keys && StaticScan(items, tenants, seen, over, v)
      decreases |todo|
    {
      var t :| t in todo;
      todo := todo - {t};
      var ts := tenants[t];
      RootTracked(items, tenants, t);
      StaticStep(items, tenants, seen, over, v, t);
      if |ts.h| > 0 {
        var root := ts.h[0];
        var tenantOver := TenantOver(ts);
        if tenantOver && !over {
          v, over := Some(root), true;
        } else if tenantOver == over && (v.None? || items[root].priority < items[v.value].priority) {
          v := Some(root);
        }
      }
      seen := seen + {t};
    }
    assert seen == tenants.Keys;
    StaticDone(items, tenants, over, v);
  }

  /** One pass over the tenants in any order: the least discounted root. */
  method PeekElastic(weight: real, items: Items, tenants: Tenants) returns (v: Option<Digest>, bestScore: real)
    requires weight >= 0.0 && Placed(items, tenants)
    ensures v.None? <==> items == map[]
    ensures v.Some? ==> LeastScore(weight, items, tenants, tenants.Keys, v.value, bestScore)
  {
    v, bestScore := None, 0.0;
    var todo := tenants.Keys;
    ghost var seen: set<Blob> := {};
    while todo != {}
      invariant todo + seen == tenants.Keys && ElasticScan(weight, items, tenants, seen, v, bestScore)
      decreases |todo|
    {
      var t :| t in todo;
      todo := todo - {t};
      var ts := tenants[t];
      RootTracked(items, tenants, t);
      ElasticStep(weight, items, tenants, seen, v, bestScore, t);
      if |ts.h| > 0 {
        var score := RootScore(weight, ts, items[ts.h[0]].priority);
        if v.None? || score < bestScore {
          v, bestScore := Some(ts.h[0]), score;
        }
      }
      seen := seen + {t};
    }
    assert seen == tenants.Keys;
    if v.None? {
      EmptyHeaps(items, tenants);
    }
  }

  // --- the object ------------------------------------------------------------------------------

  class GdsfPolicy {
    const cfg: Config
    var items: Items
    var tenants: Tenants
    var inflation: real

    ghost predicate Valid()
      reads this
    {
      Built(cfg) && Consistent(cfg, items, tenants)
    }

    ghost function View(): (g: Gdsf)
      reads this
    {
      ViewOf(cfg, items, inflation)
    }

    /** NewGDSF: quotas are caps. */
    constructor Static(quotas: map<Blob, int>)
      ensures Valid() && View() == Empty(StaticConfig(quotas))
    {
      cfg := StaticConfig(quotas);
      items, tenants, inflation := map[], map[], 0.0;
    }

    /** NewGDSFElastic: quotas are floors, weighed by the fairness knob. */
    constructor Elastic(quotas: map<Blob, int>, weight: real)
      ensures Valid() && View() == Empty(ElasticConfig(quotas, weight))
    {
      cfg := ElasticConfig(quotas, weight);
      items, tenants, inflation := map[], map[], 0.0;
    }

    method TenantFor(id: Blob)
      requires Valid()
      modifies this`tenants
      ensures Valid() && View() == old(View()) && id in tenants
    {
      if id !in tenants {
        NewTenantKeeps(cfg, items, tenants, id);
        tenants := tenants[id := Tenant(0, Quota(cfg, id), [])];
      }
    }

    /** In-place change of a tracked block followed by heap.Fix. */
    method Refresh(k: Digest, size: int, cost: real, freq: nat, priority: real)
      requires Valid() && k in items
      modifies this`items, this`tenants
      ensures Valid() && items.Keys == old(items.Keys)
      ensures View() == old(View()).(items := old(View()).items[k := Item(old(items[k].tenant), size, cost, freq, priority)])
    {
      assert ConsistentAt(cfg, items, tenants, true);
      var it := items[k].(size := size, cost := cost, freq := freq, priority := priority);
      var ts := tenants[it.tenant];
      var h, its := Reheap(items, tenants, k, it);
      ChangeKeeps(cfg, items, tenants, k, it, h, its);
      tenants := tenants[it.tenant := Tenant(ts.bytes + size - items[k].size, ts.quota, h)];
      items := its;
    }

    method Insert(k: Digest, tenant: Blob, size: int, cost: real, priority: real)
      requires Valid() && k !in items && tenant in tenants
      modifies this`items, this`tenants
      ensures Valid()
      ensures View() == old(View()).(items := old(View()).items[k := Item(tenant, size, cost, 1, priority)])
    {
      assert ConsistentAt(cfg, items, tenants, true);
      var it := Tracked(tenant, size, cost, 1, priority, 0);
      var ts := tenants[tenant];
      assert HeapOf(items, tenants, tenant);
      var h, its := Push(ts.h, items, k, it);
      InsertKeeps(cfg, items, tenants, k, it, h, its);
      tenants := tenants[tenant := Tenant(ts.bytes + size, ts.quota, h)];
      items := its;
    }

    method RemoveItem(k: Digest)
      requires Valid() && k in items
      modifies this`items, this`tenants
      ensures Valid() && View() == Evicted(old(View()), k)
    {
      assert ConsistentAt(cfg, items, tenants, true);
      var it := items[k];
      var ts := tenants[it.tenant];
      IndexedAt(items, tenants, k);
      var h, its := Remove(ts.h, items, it.index);
      RemoveKeeps(cfg, items, tenants, k, h, its);
      tenants := tenants[it.tenant := Tenant(ts.bytes - it.size, ts.quota, h)];
      items := its;
    }

    method RecordWrite(meta: WriteMeta)
      requires Valid()
      modifies this
      ensures Valid() && View() == Written(old(View()), meta)
    {
      if meta.key in items {
        var it := items[meta.key];
        if it.tenant != meta.tenant {
          RemoveItem(meta.key);
        } else {
          Refresh(meta.key, meta.size, meta.cost, it.freq, inflation + Value(it.freq, meta.cost, meta.size));
          return;
        }
      }
      TenantFor(meta.tenant);
      Insert(meta.key, meta.tenant, meta.size, meta.cost, inflation + Value(1, meta.cost, meta.size));
    }

    method RecordAccess(k: Digest)
      requires Valid()
      modifies this
      ensures Valid() && View() == Accessed(old(View()), k)
    {
      if k in items {
        var it := items[k];
        Refresh(k, it.size, it.cost, it.freq + 1, inflation + Value(it.freq + 1, it.cost, it.size));
      }
    }

    method RecordEvict(k: Digest)
      requires Valid()
      modifies this
      ensures Valid() && View() == Evicted(old(View()), k)
    {
      if k in items {
        RemoveItem(k);
      }
    }

    /** The next block to evict, and the aging step. Selection peeks one root per tenant, in
        whatever order the map yields them. */
    method NextVictim() returns (v: Option<Digest>)
      requires Valid()
      modifies this`inflation
      ensures Valid()
      ensures v.None? ==> old(View()).items == map[] && View() == old(View())
      ensures v.Some? ==> IsVictim(old(View()), v.value) && View() == Chosen(old(View()), v.value)
    {
      if cfg.elastic {
        v := VictimElastic();
      } else {
        v := VictimStatic();
      }
      if v.Some? && items[v.value].priority > inflation {
        inflation := items[v.value].priority;
      }
    }

    method VictimStatic() returns (v: Option<Digest>)
      requires Valid() && !cfg.elastic
      ensures v.None? <==> items == map[]
      ensures v.Some? ==> v.value in items && IsVictim(View(), v.value)
    {
      assert ConsistentAt(cfg, items, tenants, true);
      ghost var over;
      v, over := PeekStatic(items, tenants);
      if v.Some? {
        LeastRootIsVictim(cfg, items, tenants, inflation, over, v.value);
      }
    }

    method VictimElastic() returns (v: Option<Digest>)
      requires Valid() && cfg.elastic
      ensures v.None? <==> items == map[]
      ensures v.Some? ==> v.value in items && IsVictim(View(), v.value)
    {
      assert ConsistentAt(cfg, items, tenants, true);
      ghost var score;
      v, score := PeekElastic(cfg.weight, items, tenants);
      if v.Some? {
        LeastScoreIsVictim(cfg, items, tenants, inflation, v.value, score);
      }
    }

    method OverQuotaNow() returns (over: bool)
      requires Valid()
      ensures over == OverQuota(View())
    {
      if cfg.elastic {
        return false;
      }
      SomeOverMeans(cfg, items, tenants, inflation);
      var todo := tenants.Keys;
      while todo != {}
        invariant todo <= tenants.Keys
        invariant forall t :: t in tenants && t !in todo ==> !TenantOver(tenants[t])
        decreases |todo|
      {
        var t :| t in todo;
        if TenantOver(tenants[t]) {
          OverMeans(cfg, items, tenants, inflation, t);
          return true;
        }
        todo := todo - {t};
      }
      return false;
    }
  }

  lemma {:induction false} RootTracked(items: Items, tenants: Tenants, t: Blob)
    requires Placed(items, tenants) && t in tenants
    ensures tenants[t].h != [] ==> tenants[t].h[0] in items && items[tenants[t].h[0]].tenant == t
  {
    assert ListOf(items, tenants, t);
  }

  lemma {:induction false} EmptyHeaps(items: Items, tenants: Tenants)
    requires Placed(items, tenants) && forall t :: t in tenants ==> tenants[t].h == []
    ensures items == map[]
  {
    assert forall k :: k in items ==> ListOf(items, tenants, items[k].tenant);
  }

  lemma {:induction false} IndexedAt(items: Items, tenants: Tenants, k: Digest)
    requires Placed(items, tenants) && Heaps(items, tenants) && k in items
    ensures items[k].tenant in tenants
    ensures var h := tenants[items[k].tenant].h;
            Heap(h, items) && 0 <= items[k].index < |h| && h[items[k].index] == k
  {
    var t := items[k].tenant;
    assert ListOf(items, tenants, t) && HeapOf(items, tenants, t);
    var i :| 0 <= i < |tenants[t].h| && tenants[t].h[i] == k;
  }
}
