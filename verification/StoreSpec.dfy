/** One cache shard as a value: what internal/cache/store.go does, with stripes merged into one map
    and the eviction policy reduced to what it means. */
module StoreSpec {
  import opened Bytes
  import opened Sums
  import opened GdsfSpec
  import Lists
  import Lru

  // --- data ------------------------------------------------------------------------------------

  /** What a caller hands to Put. */
  datatype Draft = Draft(model: Blob, tokens: seq<I32>, kv: Blob, tenant: Blob, cost: real)

  datatype Entry = Entry(
    model: Blob, wire: Digest, version: U64, tokens: seq<I32>, kv: Blob, tenant: Blob, cost: real,
    created: int, accesses: nat, lastAccess: int)

  datatype Policy = Noop | LruOrder(order: seq<Digest>) | GdsfState(g: Gdsf)

  datatype Limits = Limits(maxBytes: int, hiWater: int, loWater: int)

  datatype Shard = Shard(entries: map<Digest, Entry>, policy: Policy, bytes: int, nudged: bool, limits: Limits)

  /** The watermarks NewStore derives; an unusable pair of fractions falls back to 0.90 / 0.75. */
  function NewLimits(maxBytes: int, hiFrac: real, loFrac: real): (l: Limits)
    ensures l.maxBytes == maxBytes && 0 <= l.loWater <= l.hiWater && (maxBytes > 0 ==> l.hiWater <= maxBytes)
  {
    var ok := 0.0 < hiFrac <= 1.0 && 0.0 < loFrac < hiFrac;
    var hi, lo := if ok then hiFrac else 0.90, if ok then loFrac else 0.75;
    if maxBytes > 0 then
      var m := maxBytes as real;
      ScaledFloor(m, 0.0, lo);
      ScaledFloor(m, lo, hi);
      ScaledFloor(m, hi, 1.0);
      Limits(maxBytes, (m * hi).Floor, (m * lo).Floor)
    else Limits(maxBytes, 0, 0)
  }

  /** A usable pair of fractions is used: each mark is the ceiling times its fraction, rounded down.
      Any other pair counts as 0.90 and 0.75. */
  lemma {:induction false} NewLimitsMeans(maxBytes: int, hiFrac: real, loFrac: real)
    requires maxBytes > 0
    ensures var l, m := NewLimits(maxBytes, hiFrac, loFrac), maxBytes as real;
            var usable := 0.0 < loFrac < hiFrac <= 1.0;
            var hi, lo := if usable then hiFrac else 0.90, if usable then loFrac else 0.75;
            && l.hiWater as real <= m * hi < l.hiWater as real + 1.0
            && l.loWater as real <= m * lo < l.loWater as real + 1.0
  {
  }

  lemma {:induction false} ScaledFloor(m: real, a: real, b: real)
    requires m > 0.0 && a <= b
    ensures (m * a).Floor <= (m * b).Floor
  {
    assert m * (b - a) >= 0.0;
    assert m * a <= m * b;
  }

  // --- keys ------------------------------------------------------------------------------------

  ghost function KeyInput(model: Blob, h: Digest): (r: Blob) {
    model + h
  }

  function StoreKey(sha: Hasher, model: Blob, h: Digest): (k: Digest) {
    sha(model + h)
  }

  /** Namespaces are disjoint: the hash suffix has a fixed length, so two different (model, hash)
      pairs are two different inputs, and without a collision two different keys. */
  lemma {:induction false} StoreKeyInjective(sha: Hasher, m1: Blob, h1: Digest, m2: Blob, h2: Digest)
    requires CollisionFreeOn(sha, {KeyInput(m1, h1), KeyInput(m2, h2)})
    ensures StoreKey(sha, m1, h1) == StoreKey(sha, m2, h2) <==> m1 == m2 && h1 == h2
  {
    KeyInputInjective(m1, h1, m2, h2);
  }

  lemma {:induction false} KeyInputInjective(m1: Blob, h1: Digest, m2: Blob, h2: Digest)
    ensures KeyInput(m1, h1) == KeyInput(m2, h2) <==> m1 == m2 && h1 == h2
  {
    var a, b := m1 + h1, m2 + h2;
    if a == b {
      assert |m1| == |m2|;
      assert a[..|m1|] == m1 && b[..|m2|] == m2;
      assert a[|m1|..] == h1 && b[|m2|..] == h2;
    }
  }

  // --- stripes ---------------------------------------------------------------------------------

  const NUM_STRIPES := 16

  /** The low eight bytes of the key, masked by the power-of-two stripe count. */
  function StripeOf(k: Digest): (i: nat)
    ensures i < NUM_STRIPES
  {
    GetLe64(k[..8]) % NUM_STRIPES
  }

  /** The stripe is the low four bits of the key's first byte. */
  lemma {:induction false} StripeMeans(k: Digest)
    ensures StripeOf(k) == k[0] % 16
  {
    FirstByteIsLowest(k[..8]);
  }

  // --- the policy seam -------------------------------------------------------------------------

  function Recorded(p: Policy, m: WriteMeta): (r: Policy) {
    match p
    case Noop => p
    case LruOrder(o) => LruOrder(Lru.Touched(o, m.key))
    case GdsfState(g) => GdsfState(Written(g, m))
  }

  function Hit(p: Policy, k: Digest): (r: Policy) {
    match p
    case Noop => p
    case LruOrder(o) => LruOrder(Lru.AccessedIn(o, k))
    case GdsfState(g) => GdsfState(Accessed(g, k))
  }

  function Dropped(p: Policy, k: Digest): (r: Policy) {
    match p
    case Noop => p
    case LruOrder(o) => LruOrder(Lists.Without(o, k))
    case GdsfState(g) => GdsfState(Evicted(g, k))
  }

  ghost function Tracked(p: Policy): (r: set<Digest>) {
    match p
    case Noop => {}
    case LruOrder(o) => set k | k in o
    case GdsfState(g) => g.items.Keys
  }

  ghost predicate PolicyOk(p: Policy) {
    match p
    case Noop => true
    case LruOrder(o) => Lists.Distinct(o)
    case GdsfState(g) => Built(g.cfg)
  }

  /** k may be named as the next victim. */
  ghost predicate Names(p: Policy, k: Digest)
    requires PolicyOk(p)
  {
    match p
    case Noop => false
    case LruOrder(o) => o != [] && k == o[|o| - 1]
    case GdsfState(g) => IsVictim(g, k)
  }

  ghost function Named(p: Policy, k: Digest): (r: Policy)
    requires PolicyOk(p) && Names(p, k)
  {
    match p
    case Noop => p
    case LruOrder(o) => p
    case GdsfState(g) => GdsfState(Chosen(g, k))
  }

  ghost predicate QuotaPressure(p: Policy) {
    p.GdsfState? && OverQuota(p.g)
  }

  // --- operations ------------------------------------------------------------------------------

  function SizeOf(e: Entry): (n: nat) {
    |e.kv|
  }

  function PrevSize(s: Shard, k: Digest): (n: nat) {
    if k in s.entries then SizeOf(s.entries[k]) else 0
  }

  ghost predicate Pressured(s: Shard) {
    (s.limits.maxBytes > 0 && s.bytes >= s.limits.hiWater) || QuotaPressure(s.policy)
  }

  ghost predicate NeedsEviction(s: Shard) {
    (s.limits.maxBytes > 0 && s.bytes > s.limits.loWater) || QuotaPressure(s.policy)
  }

  predicate OverHardLimit(s: Shard, add: int) {
    s.limits.maxBytes > 0 && s.bytes + add > s.limits.maxBytes
  }

  function MetaOf(k: Digest, e: Entry): (m: WriteMeta) {
    WriteMeta(k, e.tenant, SizeOf(e), e.cost)
  }

  /** The map, the policy and the counter move together. */
  function Accounted(s: Shard, k: Digest, e: Entry): (r: Shard) {
    Shard(s.entries[k := e], Recorded(s.policy, MetaOf(k, e)), s.bytes + SizeOf(e) - PrevSize(s, k), s.nudged, s.limits)
  }

  /** A nudge stays pending until the evictor takes it. */
  ghost function Nudge(s: Shard): (r: Shard) {
    s.(nudged := s.nudged || Pressured(s))
  }

  /** Publish a fresh entry under k, then decide the nudge. */
  ghost function Stored(s: Shard, k: Digest, e: Entry): (r: Shard) {
    Nudge(Accounted(s, k, e))
  }

  /** The uint64 counter wraps. */
  function NextVersion(v: U64): (r: U64) {
    if v == U64_MAX then 0 else v + 1
  }

  function Fresh(d: Draft, h: Digest, version: U64, created: int): (e: Entry) {
    Entry(d.model, h, version, d.tokens, d.kv, d.tenant, d.cost, created, 0, 0)
  }

  ghost function Put(sha: Hasher, s: Shard, h: Digest, d: Draft, now: int): (r: (Shard, U64)) {
    var k := StoreKey(sha, d.model, h);
    var version := if k in s.entries then NextVersion(s.entries[k].version) else 1;
    var created := if k in s.entries then s.entries[k].created else now;
    (Stored(s, k, Fresh(d, h, version, created)), version)
  }

  /** The replica side: the version is given, and a stale or duplicate delivery is dropped. */
  ghost function PutWithVersion(sha: Hasher, s: Shard, h: Digest, d: Draft, version: U64, now: int): (r: (Shard, U64)) {
    var k := StoreKey(sha, d.model, h);
    if version == 0 then (s, 0)
    else if k in s.entries && s.entries[k].version >= version then (s, s.entries[k].version)
    else
      var created := if k in s.entries then s.entries[k].created else now;
      (Stored(s, k, Fresh(d, h, version, created)), version)
  }

  function Find(sha: Hasher, s: Shard, model: Blob, h: Digest): (r: Option<Entry>) {
    var k := StoreKey(sha, model, h);
    if k in s.entries && s.entries[k].model == model then Some(s.entries[k]) else None
  }

  function Used(e: Entry, now: int): (r: Entry)
    ensures r.model == e.model && r.wire == e.wire && r.version == e.version
    ensures r.tokens == e.tokens && r.kv == e.kv && r.tenant == e.tenant
  {
    e.(accesses := e.accesses + 1, lastAccess := now)
  }

  function TouchedEntry(s: Shard, k: Digest, e: Entry): (r: Shard) {
    s.(entries := s.entries[k := e], policy := Hit(s.policy, k))
  }

  /** A hit counts as a use, both in the entry and in the policy. */
  function Get(sha: Hasher, s: Shard, model: Blob, h: Digest, now: int): (r: (Shard, Option<Entry>)) {
    var found := Find(sha, s, model, h);
    if found.None? then (s, None)
    else (TouchedEntry(s, StoreKey(sha, model, h), Used(found.value, now)), Some(Used(found.value, now)))
  }

  function Removed(s: Shard, k: Digest): (r: Shard) {
    if k !in s.entries then s
    else s.(entries := s.entries - {k}, policy := Dropped(s.policy, k), bytes := s.bytes - SizeOf(s.entries[k]))
  }

  function Delete(sha: Hasher, s: Shard, model: Blob, h: Digest): (r: (Shard, bool)) {
    if Find(sha, s, model, h).None? then (s, false) else (Removed(s, StoreKey(sha, model, h)), true)
  }

  // --- what every operation keeps --------------------------------------------------------------

  ghost function EntrySizes(entries: map<Digest, Entry>): (m: map<Digest, int>) {
    map k | k in entries :: SizeOf(entries[k])
  }

  /** The policy tracks exactly the resident keys, and GDSF with their tenants and sizes. */
  ghost predicate Mirrors(p: Policy, entries: map<Digest, Entry>) {
    && (p.Noop? || Tracked(p) == entries.Keys)
    && (p.GdsfState? ==> forall k :: k in entries && k in p.g.items ==>
          p.g.items[k].tenant == entries[k].tenant && p.g.items[k].size == SizeOf(entries[k]))
  }

  ghost predicate Counted(s: Shard) {
    s.bytes == Sum(EntrySizes(s.entries))
  }

  /** The invariant of a shard between critical sections. The unused argument of SoundAt and the
      trigger make the verifier unfold it only where SoundAt is mentioned. */
  ghost predicate Sound(s: Shard) {
    forall u: bool {:trigger SoundAt(s, u)} :: SoundAt(s, u)
  }

  ghost predicate SoundAt(s: Shard, u: bool) {
    PolicyOk(s.policy) && Mirrors(s.policy, s.entries) && Counted(s)
  }

  lemma {:induction false} LruTracks(o: seq<Digest>, k: Digest)
    requires Lists.Distinct(o)
    ensures Lists.Distinct(Lru.Touched(o, k)) && Lists.Distinct(Lists.Without(o, k)) && Lists.Distinct(Lru.AccessedIn(o, k))
    ensures Tracked(LruOrder(Lru.Touched(o, k))) == Tracked(LruOrder(o)) + {k}
    ensures Tracked(LruOrder(Lists.Without(o, k))) == Tracked(LruOrder(o)) - {k}
    ensures Tracked(LruOrder(Lru.AccessedIn(o, k))) == Tracked(LruOrder(o))
  {
    Lists.WithoutMembers(o, k);
    Lists.WithoutDistinct(o, k);
    Lists.ConsDistinct(k, Lists.Without(o, k));
  }

  lemma {:induction false} CountUpdate(entries: map<Digest, Entry>, k: Digest, e: Entry)
    ensures Sum(EntrySizes(entries[k := e]))
         == Sum(EntrySizes(entries)) + SizeOf(e) - (if k in entries then SizeOf(entries[k]) else 0)
  {
    assert EntrySizes(entries[k := e]) == EntrySizes(entries)[k := SizeOf(e)];
    SumUpdate(EntrySizes(entries), k, SizeOf(e));
  }

  lemma {:induction false} CountRemove(entries: map<Digest, Entry>, k: Digest)
    requires k in entries
    ensures Sum(EntrySizes(entries - {k})) == Sum(EntrySizes(entries)) - SizeOf(entries[k])
  {
    assert EntrySizes(entries - {k}) == EntrySizes(entries) - {k};
    SumRemove(EntrySizes(entries), k);
  }

  lemma {:induction false} StoredSound(s: Shard, k: Digest, e: Entry)
    requires Sound(s)
    ensures Sound(Stored(s, k, e))
  {
    assert SoundAt(s, true);
    CountUpdate(s.entries, k, e);
    RecordedMirrors(s.policy, s.entries, k, e);
  }

  lemma {:induction false} RecordedMirrors(p: Policy, entries: map<Digest, Entry>, k: Digest, e: Entry)
    requires PolicyOk(p) && Mirrors(p, entries)
    ensures PolicyOk(Recorded(p, MetaOf(k, e))) && Mirrors(Recorded(p, MetaOf(k, e)), entries[k := e])
  {
    if p.LruOrder? {
      LruTracks(p.order, k);
    }
  }

  lemma {:induction false} RemovedSound(s: Shard, k: Digest)
    requires Sound(s)
    ensures Sound(Removed(s, k))
  {
    assert SoundAt(s, true);
    if k in s.entries {
      CountRemove(s.entries, k);
      DroppedMirrors(s.policy, s.entries, k);
    }
  }

  lemma {:induction false} DroppedMirrors(p: Policy, entries: map<Digest, Entry>, k: Digest)
    requires PolicyOk(p) && Mirrors(p, entries)
    ensures PolicyOk(Dropped(p, k)) && Mirrors(Dropped(p, k), entries - {k})
  {
    if p.LruOrder? {
      LruTracks(p.order, k);
    }
  }

  lemma {:induction false} GetSound(sha: Hasher, s: Shard, model: Blob, h: Digest, now: int)
    requires Sound(s)
    ensures Sound(Get(sha, s, model, h, now).0)
  {
    assert SoundAt(s, true);
    var k := StoreKey(sha, model, h);
    if Find(sha, s, model, h).Some? {
      var used := Used(s.entries[k], now);
      CountUpdate(s.entries, k, used);
      HitMirrors(s.policy, s.entries, k, used);
    }
  }

  lemma {:induction false} HitMirrors(p: Policy, entries: map<Digest, Entry>, k: Digest, used: Entry)
    requires PolicyOk(p) && Mirrors(p, entries) && k in entries
    requires used.tenant == entries[k].tenant && used.kv == entries[k].kv
    ensures PolicyOk(Hit(p, k)) && Mirrors(Hit(p, k), entries[k := used])
  {
    assert entries[k := used].Keys == entries.Keys;
    if p.LruOrder? {
      LruTracks(p.order, k);
    }
  }

  lemma {:induction false} NamedSound(s: Shard, k: Digest)
    requires Sound(s) && PolicyOk(s.policy) && Names(s.policy, k)
    ensures Sound(s.(policy := Named(s.policy, k))) && k in s.entries
  {
    assert SoundAt(s, true);
    if s.policy.LruOrder? {
      assert k in s.policy.order && k in Tracked(s.policy);
    }
  }

  /** Conservation: the atomic counter, the resident bytes and the per-tenant totals are one number. */
  lemma {:induction false} BytesAgree(s: Shard, tenants: set<Blob>)
    requires Sound(s) && s.policy.GdsfState?
    requires forall k :: k in s.entries ==> s.entries[k].tenant in tenants
    ensures s.bytes == Sum(EntrySizes(s.entries)) == Sum(Totals(s.policy.g.items, tenants))
  {
    assert SoundAt(s, true);
    var items := s.policy.g.items;
    assert forall k :: k in items ==> k in s.entries;
    assert Sizes(items) == EntrySizes(s.entries);
    TotalsPartition(items, tenants);
  }

  /** With LRU or GDSF there is a victim exactly while something is resident. */
  lemma {:induction false} VictimWhileResident(s: Shard)
    requires Sound(s) && PolicyOk(s.policy) && !s.policy.Noop?
    ensures (exists k :: Names(s.policy, k)) <==> s.entries != map[]
  {
    assert SoundAt(s, true);
    match s.policy {
      case LruOrder(o) =>
        if o != [] {
          assert o[0] in Tracked(s.policy);
          assert Names(s.policy, o[|o| - 1]);
        }
      case GdsfState(g) =>
        if g.items != map[] {
          VictimExists(g);
          var k :| IsVictim(g, k);
          assert Names(s.policy, k);
        }
    }
  }

  /** An empty shard needs no eviction. */
  lemma {:induction false} EmptyIsQuiet(s: Shard)
    requires Sound(s) && s.entries == map[] && s.limits.loWater >= 0
    ensures !NeedsEviction(s)
  {
    assert SoundAt(s, true);
    assert EntrySizes(s.entries) == map[];
    if s.policy.GdsfState? {
      assert s.policy.g.items == map[];
      forall t | t in s.policy.g.cfg.quotas ensures !Over(s.policy.g, t) {
        NoItemsNoBytes(s.policy.g.items, t);
      }
    }
  }

  // --- what a store and a read leave behind ----------------------------------------------------

  /** Everything a Put leaves under its key, field by field, and what it tells the policy: a fresh
      entry with the draft's contents at the next version, never read, created when first written;
      the most recently used key, or a GDSF item with the draft's tenant, size and cost. */
  lemma {:induction false} PutLeaves(sha: Hasher, s: Shard, h: Digest, d: Draft, now: int)
    ensures var (t, v) := Put(sha, s, h, d, now);
            var k := StoreKey(sha, d.model, h);
            && v == (if k in s.entries then (s.entries[k].version + 1) % TWO64 else 1)
            && Left(s, t, k, h, d, v, now)
  {
  }

  /** Likewise for a delivered copy of a newer version; any other leaves the shard alone. */
  lemma {:induction false} PutWithVersionLeaves(sha: Hasher, s: Shard, h: Digest, d: Draft, version: U64, now: int)
    ensures var (t, v) := PutWithVersion(sha, s, h, d, version, now);
            var k := StoreKey(sha, d.model, h);
            if version == 0 then t == s && v == 0
            else if k in s.entries && s.entries[k].version >= version then t == s && v == s.entries[k].version
            else v == version && Left(s, t, k, h, d, version, now)
  {
  }

  ghost predicate Left(s: Shard, t: Shard, k: Digest, h: Digest, d: Draft, v: U64, now: int) {
    && t.entries == s.entries[k := Entry(
         d.model, h, v, d.tokens, d.kv, d.tenant, d.cost, if k in s.entries then s.entries[k].created else now, 0, 0)]
    && t.bytes == s.bytes + |d.kv| - (if k in s.entries then |s.entries[k].kv| else 0)
    && (s.policy.LruOrder? ==> t.policy.LruOrder? && t.policy.order != [] && t.policy.order[0] == k)
    && (s.policy.GdsfState? ==>
          && t.policy.GdsfState? && k in t.policy.g.items
          && t.policy.g.items[k].tenant == d.tenant && t.policy.g.items[k].size == |d.kv| && t.policy.g.items[k].cost == d.cost)
  }

  /** A hit counts one access, at this time, and changes nothing else about any entry. */
  lemma {:induction false} GetLeaves(sha: Hasher, s: Shard, model: Blob, h: Digest, now: int)
    ensures var (t, r) := Get(sha, s, model, h, now);
            var k := StoreKey(sha, model, h);
            if k in s.entries && s.entries[k].model == model
            then
              var e := s.entries[k];
              && t.entries == s.entries[k := Entry(
                   e.model, e.wire, e.version, e.tokens, e.kv, e.tenant, e.cost, e.created, e.accesses + 1, now)]
              && r == Some(t.entries[k]) && t.bytes == s.bytes && t.nudged == s.nudged
            else t == s && r.None?
  {
  }

  // --- a plain map of (model, hash) ------------------------------------------------------------

  /** Every entry sits under the key of its own model and hash. */
  ghost predicate WellKeyed(sha: Hasher, s: Shard) {
    forall k :: k in s.entries ==> k == StoreKey(sha, s.entries[k].model, s.entries[k].wire)
  }

  lemma {:induction false} StoredFinds(sha: Hasher, s: Shard, k: Digest, e: Entry, m: Blob, h: Digest)
    requires k == StoreKey(sha, e.model, e.wire)
    requires CollisionFreeOn(sha, {KeyInput(e.model, e.wire), KeyInput(m, h)})
    ensures Find(sha, Stored(s, k, e), m, h) == if (m, h) == (e.model, e.wire) then Some(e) else Find(sha, s, m, h)
  {
    StoreKeyInjective(sha, e.model, e.wire, m, h);
  }

  /** Put is a map update: the pair written reads back with the next version, every other pair is
      untouched. */
  lemma {:induction false} PutIsUpdate(sha: Hasher, s: Shard, h: Digest, d: Draft, now: int, m: Blob, g: Digest)
    requires WellKeyed(sha, s)
    requires CollisionFreeOn(sha, {KeyInput(d.model, h), KeyInput(m, g)}
               + set k | k in s.entries :: KeyInput(s.entries[k].model, s.entries[k].wire))
    ensures var (t, v) := Put(sha, s, h, d, now);
            && WellKeyed(sha, t)
            && v == (match Find(sha, s, d.model, h) case Some(e) => (e.version + 1) % TWO64 case None => 1)
            && (if (m, g) == (d.model, h)
                then (exists c :: Find(sha, t, m, g) == Some(Fresh(d, h, v, c)))
                else Find(sha, t, m, g) == Find(sha, s, m, g))
  {
    var k := StoreKey(sha, d.model, h);
    SameKeySamePair(sha, s, d.model, h);
    var version := if k in s.entries then NextVersion(s.entries[k].version) else 1;
    var created := if k in s.entries then s.entries[k].created else now;
    StoredFinds(sha, s, k, Fresh(d, h, version, created), m, g);
    assert (m, g) == (d.model, h) ==> Find(sha, Put(sha, s, h, d, now).0, m, g) == Some(Fresh(d, h, version, created));
  }

  lemma {:induction false} SameKeySamePair(sha: Hasher, s: Shard, m: Blob, h: Digest)
    requires WellKeyed(sha, s)
    requires CollisionFreeOn(sha, {KeyInput(m, h)} + set k | k in s.entries :: KeyInput(s.entries[k].model, s.entries[k].wire))
    ensures StoreKey(sha, m, h) in s.entries ==>
            s.entries[StoreKey(sha, m, h)].model == m && s.entries[StoreKey(sha, m, h)].wire == h
  {
    var k := StoreKey(sha, m, h);
    if k in s.entries {
      StoreKeyInjective(sha, m, h, s.entries[k].model, s.entries[k].wire);
    }
  }

  // --- versions --------------------------------------------------------------------------------

  /** What a copy of a positive version leaves under its key. */
  lemma {:induction false} DeliverOne(sha: Hasher, s: Shard, h: Digest, d: Draft, version: U64, now: int)
    requires version > 0
    ensures var k, t := StoreKey(sha, d.model, h), PutWithVersion(sha, s, h, d, version, now).0;
            k in t.entries && t.entries[k] ==
            if k !in s.entries then Fresh(d, h, version, now)
            else if s.entries[k].version >= version then s.entries[k]
            else Fresh(d, h, version, s.entries[k].created)
  {
  }

  /** Through any operation but a removal of it, a resident block's version never falls; only a Put
      at the very last uint64 wraps. */
  lemma {:induction false} VersionNeverFalls(sha: Hasher, s: Shard, h: Digest, d: Draft, v: U64, now: int, k: Digest)
    requires k in s.entries
    ensures k in Put(sha, s, h, d, now).0.entries && k in PutWithVersion(sha, s, h, d, v, now).0.entries
    ensures PutWithVersion(sha, s, h, d, v, now).0.entries[k].version >= s.entries[k].version
    ensures Put(sha, s, h, d, now).0.entries[k].version >= s.entries[k].version
            <==> !(k == StoreKey(sha, d.model, h) && s.entries[k].version == U64_MAX)
  {
  }
}
