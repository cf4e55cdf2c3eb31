/** The striped store object (internal/cache/store.go), proved to implement the shard value of
    StoreSpec. One method call stands for one stripe-locked critical section; Wakeup takes those
    sections apart. */
module Stores {
  import opened Bytes
  import opened Sums
  import G = GdsfSpec
  import opened GdsfPolicies
  import Lru
  import opened StoreSpec

  type Stripes = s: seq<map<Digest, Entry>> | |s| == NUM_STRIPES witness seq(NUM_STRIPES, _ => map[])

  /** The stripes together are one map, and each key lives only in its own stripe. Unfolded only
      where StripedAt is mentioned. */
  ghost predicate Striped(stripes: Stripes, entries: map<Digest, Entry>) {
    forall u: bool {:trigger StripedAt(stripes, entries, u)} :: StripedAt(stripes, entries, u)
  }

  ghost predicate StripedAt(stripes: Stripes, entries: map<Digest, Entry>, u: bool) {
    && (forall k :: k in entries ==> k in stripes[StripeOf(k)] && stripes[StripeOf(k)][k] == entries[k])
    && (forall i, k :: 0 <= i < NUM_STRIPES && k in stripes[i] ==> k in entries && i == StripeOf(k))
  }

  function WithEntry(stripes: Stripes, k: Digest, e: Entry): (r: Stripes) {
    var m: map<Digest, Entry> := stripes[StripeOf(k)][k := e];
    stripes[StripeOf(k) := m]
  }

  function WithoutEntry(stripes: Stripes, k: Digest): (r: Stripes) {
    var m: map<Digest, Entry> := stripes[StripeOf(k)] - {k};
    stripes[StripeOf(k) := m]
  }

  lemma {:induction false} StripePut(stripes: Stripes, entries: map<Digest, Entry>, k: Digest, e: Entry)
    requires Striped(stripes, entries)
    ensures Striped(WithEntry(stripes, k, e), entries[k := e])
  {
    assert StripedAt(stripes, entries, true);
  }

  lemma {:induction false} StripeRemove(stripes: Stripes, entries: map<Digest, Entry>, k: Digest)
    requires Striped(stripes, entries)
    ensures Striped(WithoutEntry(stripes, k), entries - {k})
  {
    assert StripedAt(stripes, entries, true);
  }

  /** Which policy object is plugged in. */
  datatype PolicyRef = NoPolicy | UseLru(lru: Lru.LruPolicy) | UseGdsf(gdsf: GdsfPolicy)

  ghost function Objects(p: PolicyRef): (r: set<object>) {
    match p
    case NoPolicy => {}
    case UseLru(l) => {l}
    case UseGdsf(g) => {g}
  }

  class Store {
    const sha: Hasher
    const policy: PolicyRef
    const limits: Limits
    var stripes: Stripes
    var totalBytes: int
    var evictSig: bool                      // the one-slot channel holds a nudge
    ghost var entries: map<Digest, Entry>   // the stripes as one map

    ghost predicate Valid()
      reads this, Objects(policy)
    {
      && this !in Objects(policy)
      && limits.loWater >= 0
      && Striped(stripes, entries)
      && PolicyValid()
    }

    ghost predicate PolicyValid()
      reads Objects(policy)
    {
      match policy
      case NoPolicy => true
      case UseLru(l) => l.Valid()
      case UseGdsf(g) => g.Valid()
    }

    ghost function PolicyView(): (p: Policy)
      reads Objects(policy)
    {
      match policy
      case NoPolicy => Noop
      case UseLru(l) => LruOrder(l.ll)
      case UseGdsf(g) => GdsfState(g.View())
    }

    ghost function View(): (s: Shard)
      reads this, Objects(policy)
    {
      Shard(entries, PolicyView(), totalBytes, evictSig, limits)
    }

    constructor (sha: Hasher, policy: PolicyRef, maxBytes: int, hiFrac: real, loFrac: real)
      requires match policy
               case NoPolicy => true
               case UseLru(l) => l.Valid() && l.ll == []
               case UseGdsf(g) => g.Valid() && g.View() == G.Empty(g.cfg)
      ensures Valid() && this.sha == sha && this.policy == policy
      ensures View().entries == map[] && View().bytes == 0 && !View().nudged
      ensures View().limits == NewLimits(maxBytes, hiFrac, loFrac) && Sound(View())
    {
      this.sha, this.policy, this.limits := sha, policy, NewLimits(maxBytes, hiFrac, loFrac);
      stripes, totalBytes, evictSig := seq(NUM_STRIPES, _ => map[]), 0, false;
      entries := map[];
      new;
      assert EntrySizes(map[]) == map[];
    }

    method SetEntry(k: Digest, e: Entry)
      requires Striped(stripes, entries)
      modifies this`stripes, this`entries
      ensures Striped(stripes, entries) && entries == old(entries)[k := e]
      ensures this !in Objects(policy) ==> PolicyView() == old(PolicyView()) && PolicyValid() == old(PolicyValid())
    {
      StripePut(stripes, entries, k, e);
      stripes := WithEntry(stripes, k, e);
      entries := entries[k := e];
    }

    method ClearEntry(k: Digest)
      requires Striped(stripes, entries)
      modifies this`stripes, this`entries
      ensures Striped(stripes, entries) && entries == old(entries) - {k}
      ensures this !in Objects(policy) ==> PolicyView() == old(PolicyView()) && PolicyValid() == old(PolicyValid())
    {
      StripeRemove(stripes, entries, k);
      stripes := WithoutEntry(stripes, k);
      entries := entries - {k};
    }

    /** The stripe's answer for a key is the map's answer. */
    method Slot(k: Digest) returns (r: Option<Entry>)
      requires Striped(stripes, entries)
      ensures r == if k in entries then Some(entries[k]) else None
    {
      assert StripedAt(stripes, entries, true);
      var m := stripes[StripeOf(k)];
      r := if k in m then Some(m[k]) else None;
    }

    // --- the policy seam ---

    method RecordWrite(m: G.WriteMeta)
      requires PolicyValid()
      modifies Objects(policy)
      ensures PolicyValid() && PolicyView() == Recorded(old(PolicyView()), m)
    {
      match policy {
        case NoPolicy =>
        case UseLru(l) => l.RecordWrite(m.key);
        case UseGdsf(g) => g.RecordWrite(m);
      }
    }

    method RecordAccess(k: Digest)
      requires PolicyValid()
      modifies Objects(policy)
      ensures PolicyValid() && PolicyView() == Hit(old(PolicyView()), k)
    {
      match policy {
        case NoPolicy =>
        case UseLru(l) => l.RecordAccess(k);
        case UseGdsf(g) => g.RecordAccess(k);
      }
    }

    method RecordEvict(k: Digest)
      requires PolicyValid()
      modifies Objects(policy)
      ensures PolicyValid() && PolicyView() == Dropped(old(PolicyView()), k)
    {
      match policy {
        case NoPolicy =>
        case UseLru(l) => l.RecordEvict(k);
        case UseGdsf(g) => g.RecordEvict(k);
      }
    }

    method OverQuota() returns (over: bool)
      requires PolicyValid()
      ensures over == QuotaPressure(PolicyView())
    {
      match policy {
        case NoPolicy => over := false;
        case UseLru(_) => over := false;
        case UseGdsf(g) => over := g.OverQuotaNow();
      }
    }

    method NextVictim() returns (v: Option<Digest>)
      requires PolicyValid()
      modifies Objects(policy)
      ensures PolicyValid() && PolicyOk(old(PolicyView()))
      ensures v.Some? ==> Names(old(PolicyView()), v.value) && PolicyView() == Named(old(PolicyView()), v.value)
      ensures v.None? ==> PolicyView() == old(PolicyView())
      ensures v.None? && !policy.NoPolicy? ==> Tracked(PolicyView()) == {}
    {
      v := None;
      match policy {
        case NoPolicy =>
        case UseLru(l) =>
          var lv := l.NextVictim();
          if lv.Some? { v := Some(lv.value); }
        case UseGdsf(g) =>
          var gv := g.NextVictim();
          if gv.Some? { v := Some(gv.value); }
      }
    }

    // --- pressure ---

    /** Non-blocking nudge: a second one while the slot is full is dropped. */
    method SignalEvict()
      requires Valid()
      modifies this`evictSig
      ensures Valid() && View() == Nudge(old(View()))
    {
      var pressured := limits.maxBytes > 0 && totalBytes >= limits.hiWater;
      if !pressured {
        var over := OverQuota();
        if !over {
          return;
        }
      }
      evictSig := true;
    }

    method NeedsEvictionNow() returns (b: bool)
      requires Valid()
      ensures b == NeedsEviction(View())
    {
      if limits.maxBytes > 0 && totalBytes > limits.loWater {
        return true;
      }
      b := OverQuota();
    }

    // --- operations ---

    /** Map, policy and counter. */
    method Account(k: Digest, e: Entry, prevSize: nat)
      requires Valid() && prevSize == PrevSize(View(), k)
      modifies this, Objects(policy)
      ensures Valid() && View() == Accounted(old(View()), k, e)
    {
      SetEntry(k, e);
      RecordWrite(MetaOf(k, e));
      totalBytes := totalBytes + SizeOf(e) - prevSize;
    }

    method Publish(k: Digest, e: Entry, prevSize: nat)
      requires Valid() && prevSize == PrevSize(View(), k)
      modifies this, Objects(policy)
      ensures Valid() && View() == Stored(old(View()), k, e)
    {
      Account(k, e, prevSize);
      SignalEvict();
    }

    method Put(h: Digest, d: Draft, now: int) returns (version: U64)
      requires Valid()
      modifies this, Objects(policy)
      ensures Valid() && (View(), version) == StoreSpec.Put(sha, old(View()), h, d, now)
    {
      var k := StoreKey(sha, d.model, h);
      var prev := Slot(k);
      version := 1;
      var created, prevSize := now, 0;
      if prev.Some? {
        version, created, prevSize := NextVersion(prev.value.version), prev.value.created, SizeOf(prev.value);
      }
      Publish(k, Fresh(d, h, version, created), prevSize);
    }

    method PutWithVersion(h: Digest, d: Draft, version: U64, now: int) returns (stored: U64)
      requires Valid()
      modifies this, Objects(policy)
      ensures Valid() && (View(), stored) == StoreSpec.PutWithVersion(sha, old(View()), h, d, version, now)
    {
      if version == 0 {
        return 0;
      }
      var k := StoreKey(sha, d.model, h);
      var prev := Slot(k);
      var created, prevSize := now, 0;
      if prev.Some? {
        if prev.value.version >= version {
          return prev.value.version;
        }
        created, prevSize := prev.value.created, SizeOf(prev.value);
      }
      Publish(k, Fresh(d, h, version, created), prevSize);
      stored := version;
    }

    method Touch(k: Digest, used: Entry)
      requires Valid()
      modifies this, Objects(policy)
      ensures Valid()
      ensures View() == TouchedEntry(old(View()), k, used)
    {
      SetEntry(k, used);
      RecordAccess(k);
    }

    method Get(model: Blob, h: Digest, now: int) returns (r: Option<Entry>)
      requires Valid()
      modifies this, Objects(policy)
      ensures Valid() && (View(), r) == StoreSpec.Get(sha, old(View()), model, h, now)
    {
      var k := StoreKey(sha, model, h);
      var e := Slot(k);
      if e.None? || e.value.model != model {
        return None;
      }
      var used := Used(e.value, now);
      Touch(k, used);
      r := Some(used);
    }

    method Peek(model: Blob, h: Digest) returns (r: Option<Entry>)
      requires Valid()
      ensures r == Find(sha, View(), model, h)
    {
      var k := StoreKey(sha, model, h);
      var e := Slot(k);
      r := if e.Some? && e.value.model == model then e else None;
    }

    method Forget(k: Digest)
      requires Valid()
      modifies this`stripes, this`entries, Objects(policy)
      ensures Valid()
      ensures View() == old(View()).(entries := old(View()).entries - {k}, policy := Dropped(old(View()).policy, k))
    {
      ClearEntry(k);
      RecordEvict(k);
    }

    /** Drop a key from its stripe, the policy and the counter. */
    method Drop(k: Digest, size: nat)
      requires Valid() && k in entries && size == SizeOf(entries[k])
      modifies this, Objects(policy)
      ensures Valid() && View() == Removed(old(View()), k)
    {
      Forget(k);
      totalBytes := totalBytes - size;
    }

    method Delete(model: Blob, h: Digest) returns (deleted: bool)
      requires Valid()
      modifies this, Objects(policy)
      ensures Valid() && (View(), deleted) == StoreSpec.Delete(sha, old(View()), model, h)
    {
      var k := StoreKey(sha, model, h);
      var e := Slot(k);
      if e.None? || e.value.model != model {
        return false;
      }
      Drop(k, SizeOf(e.value));
      deleted := true;
    }

    /** The pressure path: the entry is handed to the cold tier before it is dropped. */
    method Evict(k: Digest) returns (freed: nat, spilled: Option<Entry>)
      requires Valid()
      modifies this, Objects(policy)
      ensures Valid() && View() == Removed(old(View()), k)
      ensures k in old(entries) ==> freed == SizeOf(old(entries)[k]) && spilled == Some(old(entries)[k])
      ensures k !in old(entries) ==> freed == 0 && spilled.None?
    {
      spilled := Slot(k);
      if spilled.None? {
        return 0, None;
      }
      freed := SizeOf(spilled.value);
      Drop(k, freed);
    }

    method EvictOne() returns (freed: nat, v: Option<Digest>)
      requires Valid()
      modifies this, Objects(policy)
      ensures Valid() && PolicyOk(old(PolicyView()))
      ensures v.Some? ==> Names(old(PolicyView()), v.value) && View() == OneEvicted(old(View()), v.value)
      ensures freed == if v.Some? then PrevSize(old(View()), v.value) else 0
      ensures v.None? ==> View() == old(View()) && (!policy.NoPolicy? ==> Tracked(PolicyView()) == {})
    {
      freed := 0;
      v := NextVictim();
      if v.Some? {
        var spilled;
        freed, spilled := Evict(v.value);
      }
    }
  }

  /** Ask the policy, then delete: one pass of the drain. */
  ghost function OneEvicted(s: Shard, k: Digest): (r: Shard)
    requires PolicyOk(s.policy) && Names(s.policy, k)
  {
    Removed(s.(policy := Named(s.policy, k)), k)
  }
}
