/** The background evictor (internal/cache/evictor.go): the pressure drain and the TTL sweep. */
module Evictors {
  import opened Bytes
  import opened Sums
  import G = GdsfSpec
  import Lists
  import opened StoreSpec
  import opened Stores

  // --- what a drain is -------------------------------------------------------------------------

  /** One pass of the drain: eviction is needed, the policy names k, and k goes. Unfolded only where
      DrainStepAt is mentioned. */
  ghost predicate DrainStep(s: Shard, k: Digest, t: Shard) {
    forall u: bool {:trigger DrainStepAt(s, k, t, u)} :: DrainStepAt(s, k, t, u)
  }

  ghost predicate DrainStepAt(s: Shard, k: Digest, t: Shard, u: bool) {
    NeedsEviction(s) && PolicyOk(s.policy) && Names(s.policy, k) && t == OneEvicted(s, k)
  }

  /** Nothing needs to be evicted. Unfolded only where QuietAt is mentioned. */
  ghost predicate Quiet(s: Shard) {
    forall u: bool {:trigger QuietAt(s, u)} :: QuietAt(s, u)
  }

  ghost predicate QuietAt(s: Shard, u: bool) {
    !NeedsEviction(s)
  }

  /** A drain from states[0] to the last state: every eviction was needed when it was made, and took
      a block the policy named. */
  ghost predicate DrainRun(states: seq<Shard>, victims: seq<Digest>) {
    |states| == |victims| + 1 && forall i :: 0 <= i < |victims| ==> DrainStep(states[i], victims[i], states[i + 1])
  }

  lemma {:induction false} DrainStepSound(s: Shard, k: Digest, t: Shard)
    requires DrainStep(s, k, t) && Sound(s)
    ensures Sound(t) && t.limits == s.limits && k in s.entries && t.entries == s.entries - {k}
    ensures t.policy.LruOrder? <==> s.policy.LruOrder?
    ensures t.policy.GdsfState? <==> s.policy.GdsfState?
    ensures s.policy.GdsfState? ==> t.policy.g.cfg == s.policy.g.cfg
  {
    assert DrainStepAt(s, k, t, true);
    NamedSound(s, k);
    RemovedSound(s.(policy := Named(s.policy, k)), k);
  }

  class Evictor {
    const store: Store
    const ttl: int

    constructor (store: Store, ttl: int)
      ensures this.store == store && this.ttl == ttl
    {
      this.store, this.ttl := store, ttl;
    }

    /** One nudge: take it, then free until nothing more is needed or the policy runs dry. */
    method OnSignal() returns (n: nat, ghost states: seq<Shard>, ghost victims: seq<Digest>)
      requires store.Valid() && Sound(store.View())
      modifies store, Objects(store.policy)
      ensures store.Valid() && Sound(store.View())
      ensures DrainRun(states, victims) && n == |victims|
      ensures states[0] == old(store.View()).(nudged := false) && states[n] == store.View()
      ensures n > 0 ==> NeedsEviction(states[n - 1])
      ensures !store.policy.NoPolicy? ==> Quiet(store.View())
    {
      assert SoundAt(store.View(), true);
      store.evictSig := false;
      n, states, victims := Drain();
      if n > 0 {
        LastEvictionNeeded(states, victims);
      }
    }

    method Drain() returns (n: nat, ghost states: seq<Shard>, ghost victims: seq<Digest>)
      requires store.Valid() && Sound(store.View())
      modifies store, Objects(store.policy)
      ensures store.Valid() && Sound(store.View())
      ensures DrainRun(states, victims) && n == |victims|
      ensures states[0] == old(store.View()) && states[n] == store.View()
      ensures !store.policy.NoPolicy? ==> Quiet(store.View())
    {
      n, states, victims := 0, [store.View()], [];
      var v := EvictIfNeeded();
      while v.Some?
        invariant store.Valid() && Sound(store.View())
        invariant DrainRun(states, victims) && n == |victims|
        invariant states[0] == old(store.View())
        invariant if v.Some? then DrainStep(states[n], v.value, store.View()) else states[n] == store.View()
        invariant v.None? && !store.policy.NoPolicy? ==> Quiet(store.View())
        decreases |store.entries|, v.Some?
      {
        ExtendRun(states, victims, v.value, store.View());
        states, victims, n := states + [store.View()], victims + [v.value], n + 1;
        v := EvictIfNeeded();
      }
    }

    /** The loop's test and body: evict one block if eviction is needed and the policy names one. */
    method EvictIfNeeded() returns (v: Option<Digest>)
      requires store.Valid() && Sound(store.View())
      modifies store, Objects(store.policy)
      ensures store.Valid() && Sound(store.View())
      ensures v.Some? ==> DrainStep(old(store.View()), v.value, store.View()) && |store.entries| < |old(store.entries)|
      ensures v.None? ==> store.View() == old(store.View())
      ensures v.None? && !store.policy.NoPolicy? ==> Quiet(store.View())
    {
      var dry;
      v, dry := Pass();
      if v.Some? {
        DrainStepSound(old(store.View()), v.value, store.View());
        SmallerMap(old(store.entries), v.value);
      } else if dry {
        RanDry(store.View());
      }
    }

    /** `dry` tells a policy with nothing to offer from a shard with nothing to evict. */
    method Pass() returns (v: Option<Digest>, dry: bool)
      requires store.Valid()
      modifies store, Objects(store.policy)
      ensures store.Valid()
      ensures v.Some? ==> DrainStep(old(store.View()), v.value, store.View())
      ensures v.None? ==> store.View() == old(store.View())
      ensures v.None? && dry && !store.policy.NoPolicy? ==> Tracked(store.View().policy) == {}
      ensures v.None? && !dry ==> Quiet(store.View())
    {
      var more := store.NeedsEvictionNow();
      if !more {
        return None, false;
      }
      var freed;
      freed, v := store.EvictOne();
      dry := v.None?;
    }
  }

  lemma {:induction false} ExtendRun(states: seq<Shard>, victims: seq<Digest>, k: Digest, t: Shard)
    requires DrainRun(states, victims) && DrainStep(states[|victims|], k, t)
    ensures DrainRun(states + [t], victims + [k])
  {
  }

  lemma {:induction false} RanDry(s: Shard)
    requires Sound(s) && s.limits.loWater >= 0 && (s.policy.Noop? || Tracked(s.policy) == {})
    ensures !s.policy.Noop? ==> Quiet(s)
  {
    assert SoundAt(s, true);
    if !s.policy.Noop? {
      assert s.entries == map[];
      EmptyIsQuiet(s);
    }
  }

  /** Quiet, said on bytes and quotas: at or below low water, and no static quota exceeded. */
  lemma {:induction false} QuietMeans(s: Shard)
    ensures Quiet(s) <==>
            && (s.limits.maxBytes <= 0 || s.bytes <= s.limits.loWater)
            && (s.policy.GdsfState? && !s.policy.g.cfg.elastic ==>
                  forall t :: t in s.policy.g.cfg.quotas && s.policy.g.cfg.quotas[t] > 0 ==>
                    G.TenantBytes(s.policy.g.items, t) <= s.policy.g.cfg.quotas[t])
  {
    assert Quiet(s) <==> QuietAt(s, true);
    if s.policy.GdsfState? && !s.policy.g.cfg.elastic {
      var g := s.policy.g;
      G.StaticOver(g);
      assert (exists t :: G.OverCap(g, t)) <==> !forall t :: t in g.cfg.quotas && g.cfg.quotas[t] > 0 ==> !G.OverCap(g, t);
    }
  }

  // --- what a drain does -----------------------------------------------------------------------

  /** With static quotas, a block of a tenant within its quota is only taken at a step where no
      tenant is over: that step was forced by the watermark. */
  lemma {:induction false} QuotaRespected(states: seq<Shard>, victims: seq<Digest>, i: nat)
    requires DrainRun(states, victims) && i < |victims|
    requires states[i].policy.GdsfState? && !states[i].policy.g.cfg.elastic
    ensures victims[i] in states[i].policy.g.items
    ensures var s, k := states[i], victims[i];
            !G.Over(s.policy.g, s.policy.g.items[k].tenant) ==>
              !QuotaPressure(s.policy) && s.limits.maxBytes > 0 && s.bytes > s.limits.loWater
  {
    assert DrainStepAt(states[i], victims[i], states[i + 1], true);
    var g := states[i].policy.g;
    if !G.Over(g, g.items[victims[i]].tenant) {
      G.WithinQuotaGoesLast(g, victims[i]);
    }
  }

  /** A drain frees no more than needed: just before its last eviction there was still work. */
  lemma {:induction false} LastEvictionNeeded(states: seq<Shard>, victims: seq<Digest>)
    requires DrainRun(states, victims) && victims != []
    ensures DrainStep(states[|victims| - 1], victims[|victims| - 1], states[|victims|])
    ensures NeedsEviction(states[|victims| - 1])
  {
    assert DrainStepAt(states[|victims| - 1], victims[|victims| - 1], states[|victims|], true);
  }

  // --- LRU: what survives ----------------------------------------------------------------------

  /** The bytes of the listed blocks. */
  ghost function ListBytes(entries: map<Digest, Entry>, order: seq<Digest>): (r: nat)
    requires forall k :: k in order ==> k in entries
  {
    if order == [] then 0
    else ListBytes(entries, order[..|order| - 1]) + SizeOf(entries[order[|order| - 1]])
  }

  lemma {:induction false} ListBytesIsSum(entries: map<Digest, Entry>, order: seq<Digest>)
    requires Lists.Distinct(order) && (set k | k in order) == entries.Keys
    ensures ListBytes(entries, order) == Sum(EntrySizes(entries))
    decreases |order|
  {
    if order == [] {
      assert entries == map[];
      assert EntrySizes(entries) == map[];
    } else {
      var n := |order| - 1;
      var last, rest := order[n], order[..n];
      SplitLast(order);
      assert (set k | k in rest) == (entries - {last}).Keys;
      ListBytesIsSum(entries - {last}, rest);
      SameListBytes(entries - {last}, entries, rest);
      CountRemove(entries, last);
    }
  }

  lemma {:induction false} SplitLast(order: seq<Digest>)
    requires Lists.Distinct(order) && order != []
    ensures var rest, last := order[..|order| - 1], order[|order| - 1];
            && Lists.Distinct(rest) && last !in rest && (set k | k in order) == (set k | k in rest) + {last}
  {
    var rest, last := order[..|order| - 1], order[|order| - 1];
    assert order == rest + [last];
  }

  lemma {:induction false} SameListBytes(a: map<Digest, Entry>, b: map<Digest, Entry>, order: seq<Digest>)
    requires forall k :: k in order ==> k in a && k in b && a[k] == b[k]
    ensures ListBytes(a, order) == ListBytes(b, order)
    decreases |order|
  {
    if order != [] {
      SameListBytes(a, b, order[..|order| - 1]);
    }
  }

  lemma {:induction false} ListBytesMonotone(entries: map<Digest, Entry>, order: seq<Digest>, m: nat, n: nat)
    requires (forall k :: k in order ==> k in entries) && m <= n <= |order|
    ensures ListBytes(entries, order[..m]) <= ListBytes(entries, order[..n])
    decreases n - m
  {
    if m < n {
      ListBytesMonotone(entries, order, m, n - 1);
      assert order[..n][..n - 1] == order[..n - 1];
    }
  }

  /** Where an LRU drain stands after i evictions: the i least recent blocks are gone. */
  ghost predicate LruAt(s0: Shard, s: Shard, i: nat)
    requires s0.policy.LruOrder? && i <= |s0.policy.order|
    requires forall k :: k in s0.policy.order ==> k in s0.entries
  {
    var kept := s0.policy.order[..|s0.policy.order| - i];
    && s.policy == LruOrder(kept)
    && s.entries.Keys == (set k | k in kept) && (forall k :: k in s.entries ==> k in s0.entries && s.entries[k] == s0.entries[k])
    && s.bytes == ListBytes(s0.entries, kept) && s.limits == s0.limits
  }

  lemma {:induction false} LruMoves(s0: Shard, s: Shard, t: Shard, k: Digest, i: nat)
    requires Sound(s0) && s0.policy.LruOrder? && i <= |s0.policy.order|
    requires forall x :: x in s0.policy.order ==> x in s0.entries
    requires LruAt(s0, s, i) && Sound(s) && DrainStep(s, k, t)
    ensures i < |s0.policy.order| && LruAt(s0, t, i + 1)
  {
    var order := s0.policy.order;
    var kept, n := order[..|order| - i], |order| - i - 1;
    DrainStepSound(s, k, t);
    LruTakesLast(s, k, t);
    assert kept[..n] == order[..n];
    SplitLast(kept);
  }

  lemma {:induction false} LruTakesLast(s: Shard, k: Digest, t: Shard)
    requires Sound(s) && s.policy.LruOrder? && DrainStep(s, k, t)
    ensures var o := s.policy.order;
            && o != [] && k == o[|o| - 1] && t.policy == LruOrder(o[..|o| - 1]) && Lists.Distinct(o)
            && k in s.entries && t.bytes == s.bytes - SizeOf(s.entries[k])
  {
    assert SoundAt(s, true) && DrainStepAt(s, k, t, true);
    Lists.WithoutLast(s.policy.order);
    NamedSound(s, k);
  }

  lemma {:induction false} LruStart(s0: Shard)
    requires Sound(s0) && s0.policy.LruOrder? && forall k :: k in s0.policy.order ==> k in s0.entries
    ensures LruAt(s0, s0, 0)
  {
    assert SoundAt(s0, true);
    assert s0.policy.order[..|s0.policy.order|] == s0.policy.order;
    ListBytesIsSum(s0.entries, s0.policy.order);
  }

  lemma {:induction false} LruAfter(states: seq<Shard>, victims: seq<Digest>, i: nat)
    requires DrainRun(states, victims) && i <= |victims|
    requires Sound(states[0]) && states[0].policy.LruOrder?
    ensures forall k :: k in states[0].policy.order ==> k in states[0].entries
    ensures i <= |states[0].policy.order| && LruAt(states[0], states[i], i) && Sound(states[i])
    decreases i
  {
    var s0 := states[0];
    assert SoundAt(s0, true);
    assert forall k :: k in s0.policy.order ==> k in Tracked(s0.policy);
    if i == 0 {
      LruStart(s0);
    } else {
      LruAfter(states, victims, i - 1);
      assert DrainStep(states[i - 1], victims[i - 1], states[i]);
      LruMoves(s0, states[i - 1], states[i], victims[i - 1], i - 1);
      DrainStepSound(states[i - 1], victims[i - 1], states[i]);
    }
  }

  /** In a bounded LRU shard a finished drain leaves exactly the longest run of most recently used
      blocks that fits under low water: what is left fits, and any longer run would not. */
  lemma {:induction false} LruDrainLeavesLongestRun(states: seq<Shard>, victims: seq<Digest>, m: nat)
    requires DrainRun(states, victims) && Sound(states[0])
    requires states[0].policy.LruOrder? && states[0].limits.maxBytes > 0
    requires Quiet(states[|victims|])
    requires m <= |states[0].policy.order|
    ensures forall k :: k in states[0].policy.order ==> k in states[0].entries
    ensures |victims| <= |states[0].policy.order| && LruAt(states[0], states[|victims|], |victims|)
    ensures ListBytes(states[0].entries, states[0].policy.order[..m]) <= states[0].limits.loWater
            <==> m <= |states[0].policy.order| - |victims|
  {
    var n := |victims|;
    LruAfter(states, victims, n);
    if m <= |states[0].policy.order| - n {
      KeptFits(states[0], states[n], n, m);
    } else {
      LruAfter(states, victims, n - 1);
      LastEvictionNeeded(states, victims);
      OneMoreOverflows(states[0], states[n - 1], n - 1, m);
    }
  }

  /** What is left fits, and so does any shorter run. */
  lemma {:induction false} KeptFits(s0: Shard, s: Shard, i: nat, m: nat)
    requires s0.policy.LruOrder? && i <= |s0.policy.order| && (forall k :: k in s0.policy.order ==> k in s0.entries)
    requires LruAt(s0, s, i) && Quiet(s) && s0.limits.maxBytes > 0 && m <= |s0.policy.order| - i
    ensures ListBytes(s0.entries, s0.policy.order[..m]) <= s0.limits.loWater
  {
    assert QuietAt(s, true);
    ListBytesMonotone(s0.entries, s0.policy.order, m, |s0.policy.order| - i);
  }

  /** While eviction is needed, what is left does not fit, and neither does any longer run. */
  lemma {:induction false} OneMoreOverflows(s0: Shard, s: Shard, i: nat, m: nat)
    requires s0.policy.LruOrder? && i <= |s0.policy.order| && (forall k :: k in s0.policy.order ==> k in s0.entries)
    requires LruAt(s0, s, i) && NeedsEviction(s) && s0.limits.maxBytes > 0 && |s0.policy.order| - i <= m <= |s0.policy.order|
    ensures ListBytes(s0.entries, s0.policy.order[..m]) > s0.limits.loWater
  {
    ListBytesMonotone(s0.entries, s0.policy.order, |s0.policy.order| - i, m);
  }

  // --- the TTL sweep ---------------------------------------------------------------------------

  /** Idle since the last read, or since creation if never read. */
  predicate Idle(e: Entry, cutoff: int) {
    (if e.lastAccess == 0 then e.created else e.lastAccess) < cutoff
  }

  ghost function Survivors(entries: map<Digest, Entry>, cutoff: int): (r: map<Digest, Entry>) {
    map k | k in entries && !Idle(entries[k], cutoff) :: entries[k]
  }

  /** A block read at time t survives a sweep that goes back no further than t. */
  lemma {:induction false} ReadSurvives(sha: Hasher, s: Shard, model: Blob, h: Digest, t: int, ttl: int, now: int)
    requires Find(sha, s, model, h).Some? && t > 0 && t >= now - ttl
    ensures var k, after := StoreKey(sha, model, h), Get(sha, s, model, h, t).0.entries;
            k in Survivors(after, now - ttl) && Survivors(after, now - ttl)[k] == after[k]
  {
  }

  /** A block never read since it was written goes exactly when it was created before that. */
  lemma {:induction false} NeverReadGoesByAge(sha: Hasher, s: Shard, h: Digest, d: Draft, written: int, ttl: int, now: int)
    ensures var k, after := StoreKey(sha, d.model, h), Put(sha, s, h, d, written).0.entries;
            && k in after
            && (k !in Survivors(after, now - ttl) <==> (if k in s.entries then s.entries[k].created else written) < now - ttl)
  {
  }

  /** A block last read at time t goes exactly when t is before that. */
  lemma {:induction false} ReadGoesByLastRead(sha: Hasher, s: Shard, model: Blob, h: Digest, t: int, ttl: int, now: int)
    requires Find(sha, s, model, h).Some? && t != 0
    ensures StoreKey(sha, model, h) !in Survivors(Get(sha, s, model, h, t).0.entries, now - ttl) <==> t < now - ttl
  {
  }

  /** The sweep: collect the idle keys of every stripe, then evict them one by one. The count leaves
      out the empty payloads it removes. */
  method SweepIdle(store: Store, ttl: int, now: int) returns (n: nat)
    requires store.Valid() && Sound(store.View())
    modifies store, Objects(store.policy)
    ensures store.Valid() && Sound(store.View())
    ensures ttl <= 0 ==> n == 0 && store.View() == old(store.View())
    ensures ttl > 0 ==> store.entries == Survivors(old(store.entries), now - ttl)
    ensures ttl > 0 ==> n == |Counting(old(store.entries), old(store.entries).Keys - store.entries.Keys)|
  {
    n := 0;
    if ttl <= 0 {
      return;
    }
    var victims := CollectIdle(store, now - ttl);
    n := EvictAll(store, victims);
    assert old(store.entries).Keys - store.entries.Keys == victims;
  }

  /** Pass two: evict each collected key that is still there, counting those that freed bytes. */
  method EvictAll(store: Store, keys: set<Digest>) returns (n: nat)
    requires store.Valid() && Sound(store.View())
    modifies store, Objects(store.policy)
    ensures store.Valid() && Sound(store.View())
    ensures store.entries == old(store.entries) - keys
    ensures n == |Counting(old(store.entries), keys)|
  {
    ghost var before := store.entries;
    var todo := keys;
    n := 0;
    ghost var done: set<Digest> := {};
    assert Counting(before, {}) == {};
    while todo != {}
      invariant store.Valid() && Sound(store.View())
      invariant todo <= keys && done == keys - todo
      invariant store.entries == before - done
      invariant n == |Counting(before, done)|
      decreases |todo|
    {
      var h :| h in todo;
      CountOne(before, done, h);
      MinusTwice(before, done, h);
      var freed := EvictKey(store, h);
      if freed > 0 {
        n := n + 1;
      }
      todo, done := todo - {h}, done + {h};
    }
    assert done == keys;
  }

  lemma {:induction false} MinusTwice(m: map<Digest, Entry>, done: set<Digest>, h: Digest)
    ensures m - done - {h} == m - (done + {h})
    ensures h !in done ==> (h in m <==> h in m - done) && (h in m ==> (m - done)[h] == m[h])
  {
  }

  method EvictKey(store: Store, h: Digest) returns (freed: nat)
    requires store.Valid() && Sound(store.View())
    modifies store, Objects(store.policy)
    ensures store.Valid() && Sound(store.View())
    ensures store.entries == old(store.entries) - {h}
    ensures freed == if h in old(store.entries) then SizeOf(old(store.entries)[h]) else 0
  {
    RemovedSound(store.View(), h);
    var spilled;
    freed, spilled := store.Evict(h);
  }

  lemma {:induction false} CountOne(entries: map<Digest, Entry>, done: set<Digest>, h: Digest)
    requires h !in done
    ensures |Counting(entries, done + {h})|
         == |Counting(entries, done)| + if h in entries && SizeOf(entries[h]) > 0 then 1 else 0
  {
    if h in entries && SizeOf(entries[h]) > 0 {
      assert Counting(entries, done + {h}) == Counting(entries, done) + {h};
    } else {
      assert Counting(entries, done + {h}) == Counting(entries, done);
    }
  }

  /** Pass one: every stripe, every key; nothing is removed yet. */
  method CollectIdle(store: Store, cutoff: int) returns (victims: set<Digest>)
    requires store.Valid()
    ensures victims == set k | k in store.entries && Idle(store.entries[k], cutoff)
  {
    victims := {};
    assert StripedAt(store.stripes, store.entries, true);
    for i := 0 to NUM_STRIPES
      invariant victims == set k | k in store.entries && StripeOf(k) < i && Idle(store.entries[k], cutoff)
    {
      var m := store.stripes[i];
      var idle := set k | k in m && Idle(m[k], cutoff);
      victims := victims + idle;
    }
    assert forall k :: k in store.entries ==> StripeOf(k) < NUM_STRIPES;
  }

  /** The idle keys whose payload is not empty. */
  ghost function Counting(entries: map<Digest, Entry>, keys: set<Digest>): (r: set<Digest>) {
    set k | k in keys && k in entries && SizeOf(entries[k]) > 0
  }

  /** The sweep's count is of the swept blocks that held bytes. */
  lemma {:induction false} CountingMeans(entries: map<Digest, Entry>, keys: set<Digest>, k: Digest)
    ensures k in Counting(entries, keys) <==> k in keys && k in entries && |entries[k].kv| >= 1
  {
  }
}
