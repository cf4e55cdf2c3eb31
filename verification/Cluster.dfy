/** The whole cache as a step protocol, and the claims made for every run of it. */
module Clusters {
  import opened Bytes
  import opened StoreSpec
  import opened ServerSpec
  import C = ColdTier
  import Lists
  import Rings

  // --- the system ------------------------------------------------------------------------------

  // Shards come and go, replication drops, repeats and reorders, eviction spills to an object store,
  // reads go through to it and re-admit, and routing views change under everybody's feet.

  /** A block on its way: to a replica, to the object store, or back into memory. */
  datatype Copy = Copy(hash: Digest, draft: Draft, version: U64, routing: Blob)

  /** `readmits` are cold hits read but not yet put back. */
  datatype Host = Host(shard: Shard, queue: seq<Copy>, readmits: set<Copy>, view: seq<Rings.VPoint>)

  /** What clients saw: every accepted write and every successful read, in order. */
  datatype Event =
    | Wrote(model: Blob, hash: Digest, tokens: seq<I32>, kv: Blob, version: U64)      // the version minted
    | ReadBack(model: Blob, hash: Digest, tokens: seq<I32>, kv: Blob, version: U64)   // tokens and version asked for

  datatype Cluster = Cluster(
    hosts: map<Rings.Node, Host>, net: set<(Rings.Node, Copy)>, spills: set<Copy>, objects: map<Blob, Blob>, log: seq<Event>)

  datatype Action =
    | Write(n: Rings.Node, h: Digest, d: Draft, routing: Blob, now: int)
    | Forward(n: Rings.Node, rf: int)
    | Deliver(n: Rings.Node, copy: Copy, now: int)
    | Delete(n: Rings.Node, model: Blob, h: Digest)
    | Evict(n: Rings.Node, k: Digest)
    | Upload(copy: Copy)
    | Fetch(n: Rings.Node, h: Digest, req: Request, now: int)
    | ColdFetch(n: Rings.Node, h: Digest, req: Request)
    | Readmit(n: Rings.Node, copy: Copy, now: int)
    | Crash(n: Rings.Node)
    | Join(n: Rings.Node, shard: Shard)
    | SetView(n: Rings.Node, view: seq<Rings.VPoint>)

  /** Messages and spills are never taken out of their sets, so each may be lost, repeated and
      reordered at will. The same goes for cold hits waiting to be re-admitted. Token lists fit the
      cold frame's 32-bit count. */
  ghost predicate Enabled(c: Cluster, a: Action) {
    match a
    case Write(n, h, d, routing, now) => n in c.hosts && |d.tokens| < TWO32
    case Forward(n, rf) => n in c.hosts && c.hosts[n].queue != []
    case Deliver(n, copy, now) => n in c.hosts && (n, copy) in c.net
    case Delete(n, model, h) => n in c.hosts
    case Evict(n, k) => n in c.hosts && k in c.hosts[n].shard.entries
    case Upload(copy) => copy in c.spills
    case Fetch(n, h, req, now) => n in c.hosts && req.hash == h
    case ColdFetch(n, h, req) => n in c.hosts && req.hash == h
    case Readmit(n, copy, now) => n in c.hosts && copy in c.hosts[n].readmits
    case Crash(n) => n in c.hosts
    case Join(n, shard) => n !in c.hosts && shard.entries == map[]
    case SetView(n, view) => n in c.hosts
  }

  function Spilled(e: Entry): (c: Copy) {
    Copy(e.wire, Draft(e.model, e.tokens, e.kv, e.tenant, e.cost), e.version, [])
  }

  function JobOf(c: Copy): (j: Job) {
    Job(c.hash, c.draft, c.version, c.routing)
  }

  ghost function WithHost(c: Cluster, n: Rings.Node, host: Host): (r: Cluster) {
    c.(hosts := c.hosts[n := host])
  }

  ghost function WithShard(c: Cluster, n: Rings.Node, shard: Shard): (r: Cluster)
    requires n in c.hosts
  {
    WithHost(c, n, c.hosts[n].(shard := shard))
  }

  /** What the hot path answers. */
  ghost function HotAnswer(sha: Hasher, s: Shard, h: Digest, req: Request): (r: Option<Blob>) {
    var found := Find(sha, s, req.model, h);
    if found.Some? && VersionOk(req.version, found.value.version) && TokensOk(req.tokens, found.value.tokens)
    then Some(found.value.kv) else None
  }

  /** What read-through answers, with the copy it will re-admit. */
  ghost function ColdAnswer(objects: map<Blob, Blob>, h: Digest, req: Request): (r: Option<Copy>) {
    match C.Read(objects, req.model, h)
    case Hit(kv, version, tokens) =>
      if VersionOk(req.version, version) && TokensOk(req.tokens, tokens)
      then Some(Copy(h, ColdDraft(req.model, tokens, kv), version, [])) else None
    case _ => None
  }

  ghost function Next(sha: Hasher, c: Cluster, a: Action): (r: Cluster)
    requires Enabled(c, a)
  {
    match a
    case Write(n, h, d, routing, now) => AfterWrite(sha, c, n, h, d, routing, now)
    case Forward(n, rf) => AfterForward(c, n, rf)
    case Deliver(n, copy, now) =>
      WithShard(c, n, PutWithVersion(sha, c.hosts[n].shard, copy.hash, copy.draft, copy.version, now).0)
    case Delete(n, model, h) => WithShard(c, n, StoreSpec.Delete(sha, c.hosts[n].shard, model, h).0)
    case Evict(n, k) => AfterEvict(c, n, k)
    case Upload(copy) => AfterUpload(c, copy)
    case Fetch(n, h, req, now) => AfterFetch(sha, c, n, h, req, now)
    case ColdFetch(n, h, req) => AfterColdFetch(c, n, h, req)
    case Readmit(n, copy, now) =>
      WithShard(c, n, PutWithVersion(sha, c.hosts[n].shard, copy.hash, copy.draft, copy.version, now).0)
    case Crash(n) => c.(hosts := c.hosts - {n})
    case Join(n, shard) => WithHost(c, n, Host(shard, [], {}, []))
    case SetView(n, view) => WithHost(c, n, c.hosts[n].(view := view))
  }

  ghost function AfterWrite(sha: Hasher, c: Cluster, n: Rings.Node, h: Digest, d: Draft, routing: Blob, now: int): (r: Cluster)
    requires n in c.hosts
  {
    var (shard, v) := Put(sha, c.hosts[n].shard, h, d, now);
    var queue := if |c.hosts[n].queue| < QUEUE_DEPTH then c.hosts[n].queue + [Copy(h, d, v, routing)] else c.hosts[n].queue;
    WithHost(c, n, c.hosts[n].(shard := shard, queue := queue)).(log := c.log + [Wrote(d.model, h, d.tokens, d.kv, v)])
  }

  ghost function AfterForward(c: Cluster, n: Rings.Node, rf: int): (r: Cluster)
    requires n in c.hosts && c.hosts[n].queue != []
  {
    var host := c.hosts[n];
    var copy := host.queue[0];
    var targets := Targets(host.view, n, JobOf(copy), rf);
    WithHost(c, n, host.(queue := host.queue[1..])).(net := c.net + set t | t in targets :: (t, copy))
  }

  ghost function AfterEvict(c: Cluster, n: Rings.Node, k: Digest): (r: Cluster)
    requires n in c.hosts && k in c.hosts[n].shard.entries
  {
    WithShard(c, n, Removed(c.hosts[n].shard, k)).(spills := c.spills + {Spilled(c.hosts[n].shard.entries[k])})
  }

  ghost function AfterUpload(c: Cluster, copy: Copy): (r: Cluster) {
    c.(objects := c.objects[C.ObjectKey(copy.draft.model, copy.hash) := C.Encode(copy.version, copy.draft.tokens, copy.draft.kv)])
  }

  ghost function AfterFetch(sha: Hasher, c: Cluster, n: Rings.Node, h: Digest, req: Request, now: int): (r: Cluster)
    requires n in c.hosts
  {
    var answer := HotAnswer(sha, c.hosts[n].shard, h, req);
    var c' := WithShard(c, n, Get(sha, c.hosts[n].shard, req.model, h, now).0);
    if answer.None? then c' else c'.(log := c.log + [ReadBack(req.model, h, req.tokens, answer.value, req.version)])
  }

  ghost function AfterColdFetch(c: Cluster, n: Rings.Node, h: Digest, req: Request): (r: Cluster)
    requires n in c.hosts
  {
    var answer := ColdAnswer(c.objects, h, req);
    if answer.None? then c
    else
      WithHost(c, n, c.hosts[n].(readmits := c.hosts[n].readmits + {answer.value}))
        .(log := c.log + [ReadBack(req.model, h, req.tokens, answer.value.draft.kv, req.version)])
  }

  /** One step. Unfolded only where StepAt is mentioned. */
  ghost predicate Step(sha: Hasher, c: Cluster, a: Action, c': Cluster) {
    forall u: bool {:trigger StepAt(sha, c, a, c', u)} :: StepAt(sha, c, a, c', u)
  }

  ghost predicate StepAt(sha: Hasher, c: Cluster, a: Action, c': Cluster, u: bool) {
    Enabled(c, a) && c' == Next(sha, c, a)
  }

  /** A run: the actions taken and the states gone through. */
  ghost predicate Run(sha: Hasher, states: seq<Cluster>, actions: seq<Action>) {
    |states| == |actions| + 1 && forall i :: 0 <= i < |actions| ==> Step(sha, states[i], actions[i], states[i + 1])
  }

  const NOTHING := Cluster(map[], {}, {}, map[], [])

  // --- where bytes come from -------------------------------------------------------------------

  ghost predicate CopyTraced(log: seq<Event>, copy: Copy) {
    |copy.draft.tokens| < TWO32 && Wrote(copy.draft.model, copy.hash, copy.draft.tokens, copy.draft.kv, copy.version) in log
  }

  ghost predicate EntryTraced(sha: Hasher, log: seq<Event>, k: Digest, e: Entry) {
    k == StoreKey(sha, e.model, e.wire) && CopyTraced(log, Spilled(e))
  }

  ghost predicate ObjectTraced(log: seq<Event>, key: Blob, blob: Blob) {
    exists copy :: CopyTraced(log, copy)
      && key == C.ObjectKey(copy.draft.model, copy.hash) && blob == C.Encode(copy.version, copy.draft.tokens, copy.draft.kv)
  }

  ghost predicate EntriesTraced(sha: Hasher, log: seq<Event>, entries: map<Digest, Entry>) {
    forall k {:trigger EntryTraced(sha, log, k, entries[k])} :: k in entries ==> EntryTraced(sha, log, k, entries[k])
  }

  ghost predicate HostTraced(sha: Hasher, log: seq<Event>, host: Host) {
    && EntriesTraced(sha, log, host.shard.entries)
    && (forall i {:trigger CopyTraced(log, host.queue[i])} :: 0 <= i < |host.queue| ==> CopyTraced(log, host.queue[i]))
    && (forall copy {:trigger CopyTraced(log, copy)} :: copy in host.readmits ==> CopyTraced(log, copy))
  }

  ghost predicate HostsTraced(sha: Hasher, log: seq<Event>, hosts: map<Rings.Node, Host>) {
    forall n {:trigger HostTraced(sha, log, hosts[n])} :: n in hosts ==> HostTraced(sha, log, hosts[n])
  }

  ghost predicate NetTraced(log: seq<Event>, net: set<(Rings.Node, Copy)>) {
    forall n, copy {:trigger (n, copy) in net} :: (n, copy) in net ==> CopyTraced(log, copy)
  }

  ghost predicate SpillsTraced(log: seq<Event>, spills: set<Copy>) {
    forall copy {:trigger CopyTraced(log, copy)} :: copy in spills ==> CopyTraced(log, copy)
  }

  ghost predicate ObjectsTraced(log: seq<Event>, objects: map<Blob, Blob>) {
    forall key {:trigger ObjectTraced(log, key, objects[key])} :: key in objects ==> ObjectTraced(log, key, objects[key])
  }

  /** A read is explained by a write of the same bytes, for the same model and under the same store
      key, with the tokens and at the version asked for, if any were. */
  ghost predicate Explained(sha: Hasher, before: seq<Event>, e: Event) {
    e.ReadBack? ==> exists h, tokens, version ::
      && Wrote(e.model, h, tokens, e.kv, version) in before
      && StoreKey(sha, e.model, h) == StoreKey(sha, e.model, e.hash)
      && (e.tokens == [] || e.tokens == tokens)
      && (e.version == 0 || e.version == version)
  }

  ghost predicate LogExplained(sha: Hasher, log: seq<Event>) {
    forall i {:trigger Explained(sha, log[..i], log[i])} :: 0 <= i < |log| ==> Explained(sha, log[..i], log[i])
  }

  ghost predicate Traced(sha: Hasher, c: Cluster) {
    && HostsTraced(sha, c.log, c.hosts) && NetTraced(c.log, c.net)
    && SpillsTraced(c.log, c.spills) && ObjectsTraced(c.log, c.objects) && LogExplained(sha, c.log)
  }

  // --- growing the log -------------------------------------------------------------------------

  lemma {:induction false} CopyStays(log: seq<Event>, e: Event, copy: Copy)
    ensures CopyTraced(log, copy) ==> CopyTraced(log + [e], copy)
  {
  }

  lemma {:induction false} ObjectStays(log: seq<Event>, e: Event, key: Blob, blob: Blob)
    ensures ObjectTraced(log, key, blob) ==> ObjectTraced(log + [e], key, blob)
  {
    if ObjectTraced(log, key, blob) {
      var copy :| CopyTraced(log, copy)
        && key == C.ObjectKey(copy.draft.model, copy.hash) && blob == C.Encode(copy.version, copy.draft.tokens, copy.draft.kv);
      CopyStays(log, e, copy);
    }
  }

  lemma {:induction false} HostStays(sha: Hasher, log: seq<Event>, e: Event, host: Host)
    requires HostTraced(sha, log, host)
    ensures HostTraced(sha, log + [e], host)
  {
    var log' := log + [e];
    forall k | k in host.shard.entries ensures EntryTraced(sha, log', k, host.shard.entries[k]) {
      assert EntryTraced(sha, log, k, host.shard.entries[k]);
      CopyStays(log, e, Spilled(host.shard.entries[k]));
    }
    forall i | 0 <= i < |host.queue| ensures CopyTraced(log', host.queue[i]) {
      CopyStays(log, e, host.queue[i]);
    }
    forall copy | copy in host.readmits ensures CopyTraced(log', copy) {
      assert CopyTraced(log, copy);
      CopyStays(log, e, copy);
    }
  }

  lemma {:induction false} RestStays(log: seq<Event>, e: Event, net: set<(Rings.Node, Copy)>, spills: set<Copy>, objects: map<Blob, Blob>)
    requires NetTraced(log, net) && SpillsTraced(log, spills) && ObjectsTraced(log, objects)
    ensures NetTraced(log + [e], net) && SpillsTraced(log + [e], spills) && ObjectsTraced(log + [e], objects)
  {
    var log' := log + [e];
    forall n, copy | (n, copy) in net ensures CopyTraced(log', copy) {
      CopyStays(log, e, copy);
    }
    forall copy | copy in spills ensures CopyTraced(log', copy) {
      assert CopyTraced(log, copy);
      CopyStays(log, e, copy);
    }
    forall key | key in objects ensures ObjectTraced(log', key, objects[key]) {
      assert ObjectTraced(log, key, objects[key]);
      ObjectStays(log, e, key, objects[key]);
    }
  }

  lemma {:induction false} LogGrows(sha: Hasher, log: seq<Event>, e: Event)
    requires LogExplained(sha, log) && Explained(sha, log, e)
    ensures LogExplained(sha, log + [e])
  {
    var log' := log + [e];
    forall i | 0 <= i < |log'| ensures Explained(sha, log'[..i], log'[i]) {
      if i < |log| {
        assert log'[..i] == log[..i] && log'[i] == log[i];
        assert Explained(sha, log[..i], log[i]);
      } else {
        assert log'[..i] == log;
      }
    }
  }

  /** One more event: everything traced stays traced. */
  lemma {:induction false} EventKeeps(sha: Hasher, c: Cluster, e: Event)
    requires Traced(sha, c) && Explained(sha, c.log, e)
    ensures Traced(sha, c.(log := c.log + [e]))
  {
    forall n | n in c.hosts ensures HostTraced(sha, c.log + [e], c.hosts[n]) {
      HostStays(sha, c.log, e, c.hosts[n]);
    }
    RestStays(c.log, e, c.net, c.spills, c.objects);
    LogGrows(sha, c.log, e);
  }

  // --- every step ------------------------------------------------------------------------------

  lemma {:induction false} HostKeeps(sha: Hasher, c: Cluster, n: Rings.Node, host: Host)
    requires Traced(sha, c) && HostTraced(sha, c.log, host)
    ensures Traced(sha, WithHost(c, n, host))
  {
    var hosts := c.hosts[n := host];
    forall m | m in hosts ensures HostTraced(sha, c.log, hosts[m]) {
      assert m == n || hosts[m] == c.hosts[m];
    }
  }

  lemma {:induction false} ShardKeeps(sha: Hasher, c: Cluster, n: Rings.Node, shard: Shard)
    requires Traced(sha, c) && n in c.hosts && EntriesTraced(sha, c.log, shard.entries)
    ensures Traced(sha, WithShard(c, n, shard))
  {
    assert HostTraced(sha, c.log, c.hosts[n]);
    HostKeeps(sha, c, n, c.hosts[n].(shard := shard));
  }

  /** Publishing a traced draft keeps the entries traced. */
  lemma {:induction false} StoredTraced(sha: Hasher, log: seq<Event>, entries: map<Digest, Entry>, h: Digest, d: Draft, version: U64, created: int)
    requires EntriesTraced(sha, log, entries) && CopyTraced(log, Copy(h, d, version, []))
    ensures EntriesTraced(sha, log, entries[StoreKey(sha, d.model, h) := StoreSpec.Fresh(d, h, version, created)])
  {
    var k, e := StoreKey(sha, d.model, h), StoreSpec.Fresh(d, h, version, created);
    var entries' := entries[k := e];
    forall j | j in entries' ensures EntryTraced(sha, log, j, entries'[j]) {
      if j == k {
        assert EntryTraced(sha, log, k, e);
      } else {
        assert EntryTraced(sha, log, j, entries[j]);
      }
    }
  }

  lemma {:induction false} PutTraced(sha: Hasher, log: seq<Event>, s: Shard, h: Digest, d: Draft, now: int)
    requires EntriesTraced(sha, log, s.entries) && CopyTraced(log, Copy(h, d, Put(sha, s, h, d, now).1, []))
    ensures EntriesTraced(sha, log, Put(sha, s, h, d, now).0.entries)
  {
    var k := StoreKey(sha, d.model, h);
    var version := if k in s.entries then NextVersion(s.entries[k].version) else 1;
    var created := if k in s.entries then s.entries[k].created else now;
    StoredTraced(sha, log, s.entries, h, d, version, created);
  }

  lemma {:induction false} CopyPutTraced(sha: Hasher, log: seq<Event>, s: Shard, copy: Copy, now: int)
    requires EntriesTraced(sha, log, s.entries) && CopyTraced(log, copy)
    ensures EntriesTraced(sha, log, PutWithVersion(sha, s, copy.hash, copy.draft, copy.version, now).0.entries)
  {
    var k := StoreKey(sha, copy.draft.model, copy.hash);
    var created := if k in s.entries then s.entries[k].created else now;
    StoredTraced(sha, log, s.entries, copy.hash, copy.draft, copy.version, created);
  }

  lemma {:induction false} FewerTraced(sha: Hasher, log: seq<Event>, entries: map<Digest, Entry>, k: Digest)
    requires EntriesTraced(sha, log, entries)
    ensures EntriesTraced(sha, log, entries - {k})
  {
    var entries' := entries - {k};
    forall j | j in entries' ensures EntryTraced(sha, log, j, entries'[j]) {
      assert EntryTraced(sha, log, j, entries[j]);
    }
  }

  lemma {:induction false} GetTraced(sha: Hasher, log: seq<Event>, s: Shard, model: Blob, h: Digest, now: int)
    requires EntriesTraced(sha, log, s.entries)
    ensures EntriesTraced(sha, log, Get(sha, s, model, h, now).0.entries)
  {
    var found, k := Find(sha, s, model, h), StoreKey(sha, model, h);
    if found.Some? {
      var used := Used(s.entries[k], now);
      var entries' := s.entries[k := used];
      forall j | j in entries' ensures EntryTraced(sha, log, j, entries'[j]) {
        assert EntryTraced(sha, log, j, s.entries[j]);
      }
    }
  }

  /** A hot answer is explained by the entry it came from. */
  lemma {:induction false} HotExplained(sha: Hasher, log: seq<Event>, s: Shard, h: Digest, req: Request)
    requires EntriesTraced(sha, log, s.entries) && HotAnswer(sha, s, h, req).Some?
    ensures Explained(sha, log, ReadBack(req.model, h, req.tokens, HotAnswer(sha, s, h, req).value, req.version))
  {
    var k := StoreKey(sha, req.model, h);
    var e := s.entries[k];
    assert EntryTraced(sha, log, k, e);
    assert Wrote(req.model, e.wire, e.tokens, e.kv, e.version) in log;
  }

  /** A cold answer is explained by the object it came from: object keys are injective, and the
      frame decodes to what was encoded. */
  lemma {:induction false} ColdExplained(sha: Hasher, log: seq<Event>, objects: map<Blob, Blob>, h: Digest, req: Request)
    requires ObjectsTraced(log, objects) && ColdAnswer(objects, h, req).Some?
    ensures var copy := ColdAnswer(objects, h, req).value;
            CopyTraced(log, copy) && Explained(sha, log, ReadBack(req.model, h, req.tokens, copy.draft.kv, req.version))
  {
    var key := C.ObjectKey(req.model, h);
    assert ObjectTraced(log, key, objects[key]);
    var from :| CopyTraced(log, from)
      && key == C.ObjectKey(from.draft.model, from.hash) && objects[key] == C.Encode(from.version, from.draft.tokens, from.draft.kv);
    C.ObjectKeyInjective(req.model, h, from.draft.model, from.hash);
    C.DecodeEncode(from.version, from.draft.tokens, from.draft.kv);
    assert Wrote(req.model, h, from.draft.tokens, from.draft.kv, from.version) in log;
  }

  lemma {:induction false} WriteKeeps(sha: Hasher, c: Cluster, n: Rings.Node, h: Digest, d: Draft, routing: Blob, now: int)
    requires Traced(sha, c) && n in c.hosts && |d.tokens| < TWO32
    ensures Traced(sha, AfterWrite(sha, c, n, h, d, routing, now))
  {
    var (shard, v) := Put(sha, c.hosts[n].shard, h, d, now);
    var e := Wrote(d.model, h, d.tokens, d.kv, v);
    EventKeeps(sha, c, e);
    var c' := c.(log := c.log + [e]);
    assert HostTraced(sha, c'.log, c'.hosts[n]);
    PutTraced(sha, c'.log, c.hosts[n].shard, h, d, now);
    var queue := if |c.hosts[n].queue| < QUEUE_DEPTH then c.hosts[n].queue + [Copy(h, d, v, routing)] else c.hosts[n].queue;
    assert CopyTraced(c'.log, Copy(h, d, v, routing));
    HostKeeps(sha, c', n, c.hosts[n].(shard := shard, queue := queue));
  }

  lemma {:induction false} ForwardKeeps(sha: Hasher, c: Cluster, n: Rings.Node, rf: int)
    requires Traced(sha, c) && n in c.hosts && c.hosts[n].queue != []
    ensures Traced(sha, AfterForward(c, n, rf))
  {
    var host := c.hosts[n];
    assert HostTraced(sha, c.log, host) && CopyTraced(c.log, host.queue[0]);
    HostKeeps(sha, c, n, host.(queue := host.queue[1..]));
  }

  lemma {:induction false} FetchKeeps(sha: Hasher, c: Cluster, n: Rings.Node, h: Digest, req: Request, now: int)
    requires Traced(sha, c) && n in c.hosts
    ensures Traced(sha, AfterFetch(sha, c, n, h, req, now))
  {
    assert HostTraced(sha, c.log, c.hosts[n]);
    var s := c.hosts[n].shard;
    GetTraced(sha, c.log, s, req.model, h, now);
    var c' := WithShard(c, n, Get(sha, s, req.model, h, now).0);
    ShardKeeps(sha, c, n, c'.hosts[n].shard);
    var answer := HotAnswer(sha, s, h, req);
    if answer.Some? {
      HotExplained(sha, c.log, s, h, req);
      EventKeeps(sha, c', ReadBack(req.model, h, req.tokens, answer.value, req.version));
    }
  }

  lemma {:induction false} ColdFetchKeeps(sha: Hasher, c: Cluster, n: Rings.Node, h: Digest, req: Request)
    requires Traced(sha, c) && n in c.hosts
    ensures Traced(sha, AfterColdFetch(c, n, h, req))
  {
    assert HostTraced(sha, c.log, c.hosts[n]);
    var answer := ColdAnswer(c.objects, h, req);
    if answer.Some? {
      ColdExplained(sha, c.log, c.objects, h, req);
      var host := c.hosts[n].(readmits := c.hosts[n].readmits + {answer.value});
      HostKeeps(sha, c, n, host);
      EventKeeps(sha, WithHost(c, n, host), ReadBack(req.model, h, req.tokens, answer.value.draft.kv, req.version));
    }
  }

  lemma {:induction false} EvictKeeps(sha: Hasher, c: Cluster, n: Rings.Node, k: Digest)
    requires Traced(sha, c) && n in c.hosts && k in c.hosts[n].shard.entries
    ensures Traced(sha, AfterEvict(c, n, k))
  {
    var s := c.hosts[n].shard;
    assert HostTraced(sha, c.log, c.hosts[n]) && EntryTraced(sha, c.log, k, s.entries[k]);
    FewerTraced(sha, c.log, s.entries, k);
    ShardKeeps(sha, c, n, Removed(s, k));
  }

  lemma {:induction false} UploadKeeps(sha: Hasher, c: Cluster, copy: Copy)
    requires Traced(sha, c) && copy in c.spills
    ensures Traced(sha, AfterUpload(c, copy))
  {
    var key, blob := C.ObjectKey(copy.draft.model, copy.hash), C.Encode(copy.version, copy.draft.tokens, copy.draft.kv);
    var objects := c.objects[key := blob];
    assert CopyTraced(c.log, copy) && ObjectTraced(c.log, key, blob);
    forall j | j in objects ensures ObjectTraced(c.log, j, objects[j]) {
      assert j != key ==> objects[j] == c.objects[j];
    }
  }

  lemma {:induction false} StepKeeps(sha: Hasher, c: Cluster, a: Action, c': Cluster)
    requires Traced(sha, c) && Step(sha, c, a, c')
    ensures Traced(sha, c')
  {
    assert StepAt(sha, c, a, c', true);
    match a {
      case Write(n, h, d, routing, now) => WriteKeeps(sha, c, n, h, d, routing, now);
      case Forward(n, rf) => ForwardKeeps(sha, c, n, rf);
      case Deliver(n, copy, now) => CopyKeeps(sha, c, n, copy, now);
      case Delete(n, model, h) => DeleteKeeps(sha, c, n, model, h);
      case Evict(n, k) => EvictKeeps(sha, c, n, k);
      case Upload(copy) => UploadKeeps(sha, c, copy);
      case Fetch(n, h, req, now) => FetchKeeps(sha, c, n, h, req, now);
      case ColdFetch(n, h, req) => ColdFetchKeeps(sha, c, n, h, req);
      case Readmit(n, copy, now) => CopyKeeps(sha, c, n, copy, now);
      case Crash(n) => CrashKeeps(sha, c, n);
      case Join(n, shard) => HostKeeps(sha, c, n, Host(shard, [], {}, []));
      case SetView(n, view) => SetViewKeeps(sha, c, n, view);
    }
  }

  lemma {:induction false} CopyKeeps(sha: Hasher, c: Cluster, n: Rings.Node, copy: Copy, now: int)
    requires Traced(sha, c) && n in c.hosts && ((n, copy) in c.net || copy in c.hosts[n].readmits)
    ensures Traced(sha, WithShard(c, n, PutWithVersion(sha, c.hosts[n].shard, copy.hash, copy.draft, copy.version, now).0))
  {
    assert HostTraced(sha, c.log, c.hosts[n]);
    assert CopyTraced(c.log, copy);
    CopyPutTraced(sha, c.log, c.hosts[n].shard, copy, now);
    ShardKeeps(sha, c, n, PutWithVersion(sha, c.hosts[n].shard, copy.hash, copy.draft, copy.version, now).0);
  }

  lemma {:induction false} DeleteKeeps(sha: Hasher, c: Cluster, n: Rings.Node, model: Blob, h: Digest)
    requires Traced(sha, c) && n in c.hosts
    ensures Traced(sha, WithShard(c, n, StoreSpec.Delete(sha, c.hosts[n].shard, model, h).0))
  {
    assert HostTraced(sha, c.log, c.hosts[n]);
    FewerTraced(sha, c.log, c.hosts[n].shard.entries, StoreKey(sha, model, h));
    ShardKeeps(sha, c, n, StoreSpec.Delete(sha, c.hosts[n].shard, model, h).0);
  }

  lemma {:induction false} CrashKeeps(sha: Hasher, c: Cluster, n: Rings.Node)
    requires Traced(sha, c)
    ensures Traced(sha, c.(hosts := c.hosts - {n}))
  {
    var hosts := c.hosts - {n};
    forall m | m in hosts ensures HostTraced(sha, c.log, hosts[m]) {
      assert HostTraced(sha, c.log, c.hosts[m]);
    }
  }

  lemma {:induction false} SetViewKeeps(sha: Hasher, c: Cluster, n: Rings.Node, view: seq<Rings.VPoint>)
    requires Traced(sha, c) && n in c.hosts
    ensures Traced(sha, WithHost(c, n, c.hosts[n].(view := view)))
  {
    assert HostTraced(sha, c.log, c.hosts[n]);
    HostKeeps(sha, c, n, c.hosts[n].(view := view));
  }

  /** Every state of every run is traced. */
  lemma {:induction false} RunTraced(sha: Hasher, states: seq<Cluster>, actions: seq<Action>, i: nat)
    requires Run(sha, states, actions) && Traced(sha, states[0]) && i < |states|
    ensures Traced(sha, states[i])
    decreases i
  {
    if i > 0 {
      RunTraced(sha, states, actions, i - 1);
      StepKeeps(sha, states[i - 1], actions[i - 1], states[i]);
    }
  }

  // --- never serve bytes of another block ------------------------------------------------------

  /** Everything clients ever asked this hash function to name. */
  ghost function NamedInputs(log: seq<Event>): (r: set<Blob>) {
    set i | 0 <= i < |log| :: KeyInput(log[i].model, log[i].hash)
  }

  /** The i-th event is a read of bytes that an earlier event wrote for the very same block, with the
      tokens and at the version the reader named, if it named any. */
  ghost predicate ServedAsWritten(log: seq<Event>, i: nat)
    requires i < |log|
  {
    log[i].ReadBack? ==> exists j, tokens, version ::
      && 0 <= j < i && log[j] == Wrote(log[i].model, log[i].hash, tokens, log[i].kv, version)
      && (log[i].tokens == [] || log[i].tokens == tokens) && (log[i].version == 0 || log[i].version == version)
  }

  /** The one safety claim, over every run: whatever is written, lost, repeated, reordered, evicted,
      spilled, re-admitted, deleted or crashed, a read only ever returns bytes some earlier write
      stored for the same model and hash, and for the tokens and at the version asked for. */
  lemma {:induction false} NeverServesAnotherBlock(sha: Hasher, states: seq<Cluster>, actions: seq<Action>, i: nat)
    requires Run(sha, states, actions) && states[0] == NOTHING && i < |states[|actions|].log|
    requires CollisionFreeOn(sha, NamedInputs(states[|actions|].log))
    ensures ServedAsWritten(states[|actions|].log, i)
  {
    RunTraced(sha, states, actions, |actions|);
    var log := states[|actions|].log;
    assert Explained(sha, log[..i], log[i]);
    if log[i].ReadBack? {
      var h, tokens, version :| Wrote(log[i].model, h, tokens, log[i].kv, version) in log[..i]
        && StoreKey(sha, log[i].model, h) == StoreKey(sha, log[i].model, log[i].hash)
        && (log[i].tokens == [] || log[i].tokens == tokens) && (log[i].version == 0 || log[i].version == version);
      var j :| 0 <= j < i && log[..i][j] == Wrote(log[i].model, h, tokens, log[i].kv, version);
      assert log[j].hash == h && log[j].model == log[i].model;
      assert KeyInput(log[j].model, log[j].hash) in NamedInputs(log) && KeyInput(log[i].model, log[i].hash) in NamedInputs(log);
      KeyInputInjective(log[i].model, h, log[i].model, log[i].hash);
    }
  }

  /** Collision freedom cannot be dropped: two hashes with one store key let a read of the second
      return what was written for the first. */
  lemma {:induction false} CollisionServesAnotherBlock(sha: Hasher, n: Rings.Node, shard: Shard, h1: Digest, h2: Digest)
    returns (states: seq<Cluster>, actions: seq<Action>)
    requires shard.entries == map[] && h1 != h2 && StoreKey(sha, [], h1) == StoreKey(sha, [], h2)
    ensures Run(sha, states, actions) && states[0] == NOTHING
    ensures |states[|actions|].log| == 2 && !ServedAsWritten(states[|actions|].log, 1)
  {
    var d, req := Draft([], [], [7], [], 1.0), Request([], h2, 0, []);
    var join, write, fetch := Join(n, shard), Write(n, h1, d, [], 0), Fetch(n, h2, req, 0);
    var c1 := WithHost(NOTHING, n, Host(shard, [], {}, []));
    var c2 := AfterWrite(sha, c1, n, h1, d, [], 0);
    var c3 := AfterFetch(sha, c2, n, h2, req, 0);
    assert HotAnswer(sha, c2.hosts[n].shard, h2, req) == Some([7]);
    assert c3.log == [Wrote([], h1, [], [7], 1), ReadBack([], h2, [], [7], 0)];
    states, actions := [NOTHING, c1, c2, c3], [join, write, fetch];
    assert Step(sha, NOTHING, join, c1) && Step(sha, c1, write, c2) && Step(sha, c2, fetch, c3);
  }

  /** The Fetch handler is a run of these steps: the hot read, then on a miss the cold read, then the
      re-admission if there is room; it logs a read exactly when it serves one. */
  lemma {:induction false} HandlerFetchIsARun(sha: Hasher, c: Cluster, n: Rings.Node, h: Digest, req: Request, now: int)
    returns (states: seq<Cluster>, actions: seq<Action>)
    requires n in c.hosts && req.hash == h
    ensures Run(sha, states, actions) && states[0] == c
    ensures var (t, reply) := ServerSpec.Fetch(sha, c.hosts[n].shard, Moment(C.Read(c.objects, req.model, h), now), req);
            var c' := states[|actions|];
            && n in c'.hosts && c'.hosts[n].shard == t
            && c'.log == c.log + if reply.Served? then [ReadBack(req.model, h, req.tokens, reply.kv, req.version)] else []
  {
    var s, fetch := c.hosts[n].shard, Fetch(n, h, req, now);
    var c1 := AfterFetch(sha, c, n, h, req, now);
    assert Step(sha, c, fetch, c1);
    if Find(sha, s, req.model, h).Some? {
      states, actions := [c, c1], [fetch];
    } else {
      assert c1.hosts[n].shard == s && c1.log == c.log && c1.objects == c.objects;
      states, actions := ColdRun(sha, c1, n, h, req, now);
      ThenRun(sha, c, fetch, states, actions);
      states, actions := [c] + states, [fetch] + actions;
    }
  }

  lemma {:induction false} ColdRun(sha: Hasher, c: Cluster, n: Rings.Node, h: Digest, req: Request, now: int)
    returns (states: seq<Cluster>, actions: seq<Action>)
    requires n in c.hosts && req.hash == h
    ensures Run(sha, states, actions) && states[0] == c
    ensures var (t, kv) := ColdHit(sha, c.hosts[n].shard, Moment(C.Read(c.objects, req.model, h), now), h, req);
            var c' := states[|actions|];
            && n in c'.hosts && c'.hosts[n].shard == t
            && c'.log == c.log + if kv.Some? then [ReadBack(req.model, h, req.tokens, kv.value, req.version)] else []
  {
    var answer, cold := ColdAnswer(c.objects, h, req), ColdFetch(n, h, req);
    var c1 := AfterColdFetch(c, n, h, req);
    assert Step(sha, c, cold, c1);
    states, actions := [c, c1], [cold];
    if answer.Some? && !OverHardLimit(c.hosts[n].shard, |answer.value.draft.kv|) {
      var copy := answer.value;
      var c2 := WithShard(c1, n, PutWithVersion(sha, c1.hosts[n].shard, copy.hash, copy.draft, copy.version, now).0);
      assert Step(sha, c1, Readmit(n, copy, now), c2);
      states, actions := [c, c1, c2], [cold, Readmit(n, copy, now)];
    }
  }

  lemma {:induction false} ThenRun(sha: Hasher, c: Cluster, a: Action, states: seq<Cluster>, actions: seq<Action>)
    requires Run(sha, states, actions) && Step(sha, c, a, states[0])
    ensures Run(sha, [c] + states, [a] + actions)
  {
    forall i | 0 <= i < |actions| + 1 ensures Step(sha, ([c] + states)[i], ([a] + actions)[i], ([c] + states)[i + 1]) {
      if i > 0 {
        assert Step(sha, states[i - 1], actions[i - 1], states[i]);
      }
    }
  }

  // --- implicit promotion keeps data -----------------------------------------------------------

  ghost predicate Holds(c: Cluster, q: Rings.Node, k: Digest, v: U64) {
    q in c.hosts && k in c.hosts[q].shard.entries && c.hosts[q].shard.entries[k].version >= v
  }

  /** The step neither removes block k from node q nor wraps its version around. */
  ghost predicate Spares(sha: Hasher, c: Cluster, a: Action, q: Rings.Node, k: Digest) {
    match a
    case Crash(n) => n != q
    case Evict(n, j) => n != q || j != k
    case Delete(n, model, h) => n != q || StoreKey(sha, model, h) != k
    case Write(n, h, d, routing, now) =>
      n != q || StoreKey(sha, d.model, h) != k || (Holds(c, q, k, 0) ==> c.hosts[q].shard.entries[k].version < U64_MAX)
    case _ => true
  }

  /** Every step of the run from state `from` to state `to` spares it. */
  ghost predicate RunSpares(sha: Hasher, states: seq<Cluster>, actions: seq<Action>, from: nat, to: nat, q: Rings.Node, k: Digest)
    requires |states| == |actions| + 1 && to < |states|
  {
    forall i :: from <= i < to ==> Spares(sha, states[i], actions[i], q, k)
  }

  lemma {:induction false} StepHolds(sha: Hasher, c: Cluster, a: Action, c': Cluster, q: Rings.Node, k: Digest, v: U64)
    requires Step(sha, c, a, c') && Spares(sha, c, a, q, k) && Holds(c, q, k, v)
    ensures Holds(c', q, k, v)
  {
    assert StepAt(sha, c, a, c', true);
    match a {
      case Write(n, h, d, routing, now) =>
        if n == q {
          VersionNeverFalls(sha, c.hosts[n].shard, h, d, 0, now, k);
        }
      case Deliver(n, copy, now) =>
        if n == q {
          VersionNeverFalls(sha, c.hosts[n].shard, copy.hash, copy.draft, copy.version, now, k);
        }
      case Readmit(n, copy, now) =>
        if n == q {
          VersionNeverFalls(sha, c.hosts[n].shard, copy.hash, copy.draft, copy.version, now, k);
        }
      case _ =>
    }
  }

  lemma {:induction false} RunHolds(
    sha: Hasher, states: seq<Cluster>, actions: seq<Action>, from: nat, q: Rings.Node, k: Digest, v: U64, i: nat)
    requires Run(sha, states, actions) && from <= i < |states|
    requires RunSpares(sha, states, actions, from, i, q, k) && Holds(states[from], q, k, v)
    ensures Holds(states[i], q, k, v)
    decreases i
  {
    if i > from {
      RunHolds(sha, states, actions, from, q, k, v, i - 1);
      StepHolds(sha, states[i - 1], actions[i - 1], states[i], q, k, v);
    }
  }

  lemma {:induction false} DeliveredHolds(sha: Hasher, c: Cluster, q: Rings.Node, copy: Copy, now: int, c': Cluster)
    requires copy.version > 0 && Step(sha, c, Deliver(q, copy, now), c')
    ensures Holds(c', q, StoreKey(sha, copy.draft.model, copy.hash), copy.version)
  {
    assert StepAt(sha, c, Deliver(q, copy, now), c', true);
    DeliverOne(sha, c.hosts[q].shard, copy.hash, copy.draft, copy.version, now);
  }

  /** With two copies wanted, the primary's forward step addresses the second owner of the block's
      root: the routing key it was written with, or its own hash if there was none. */
  lemma {:induction false} ForwardReachesSecondOwner(c: Cluster, p: Rings.Node, q: Rings.Node, rf: int)
    requires p in c.hosts && c.hosts[p].queue != [] && rf >= 2 && p != q
    requires var copy := c.hosts[p].queue[0];
             FirstTwo(c.hosts[p].view, if copy.routing == [] then copy.hash else copy.routing, p, q)
    ensures (q, c.hosts[p].queue[0]) in AfterForward(c, p, rf).net
  {
    SecondOwnerIsTarget(c.hosts[p].view, p, q, JobOf(c.hosts[p].queue[0]), rf);
  }

  lemma {:induction false} NetGrows(sha: Hasher, states: seq<Cluster>, actions: seq<Action>, from: nat, i: nat)
    requires Run(sha, states, actions) && from <= i < |states|
    ensures states[from].net <= states[i].net
    decreases i
  {
    if i > from {
      NetGrows(sha, states, actions, from, i - 1);
      assert Step(sha, states[i - 1], actions[i - 1], states[i]);
      assert StepAt(sha, states[i - 1], actions[i - 1], states[i], true);
    }
  }

  /** The copy that a Write on a shard hands to the replicator. */
  ghost function Minted(sha: Hasher, s: Shard, h: Digest, d: Draft, routing: Blob, now: int): (r: Copy) {
    Copy(h, d, Put(sha, s, h, d, now).1, routing)
  }

  /** p's Write stores the block at the version of the copy it mints, and queues that copy last
      unless the queue is full. */
  lemma {:induction false} WriteMints(sha: Hasher, c: Cluster, p: Rings.Node, h: Digest, d: Draft, routing: Blob, now: int, c': Cluster)
    requires Step(sha, c, Write(p, h, d, routing, now), c')
    ensures p in c.hosts && p in c'.hosts
    ensures var copy := Minted(sha, c.hosts[p].shard, h, d, routing, now);
            var k, queue := StoreKey(sha, d.model, h), c'.hosts[p].queue;
            && k in c'.hosts[p].shard.entries && c'.hosts[p].shard.entries[k].version == copy.version
            && queue == if |c.hosts[p].queue| < QUEUE_DEPTH then c.hosts[p].queue + [copy] else c.hosts[p].queue
  {
    assert StepAt(sha, c, Write(p, h, d, routing, now), c', true);
  }

  /** p forwards the copy at the head of its queue while its view gives p and q as the root's first
      owners: from then on the message to q is in the network. */
  lemma {:induction false} ForwardedStays(
    sha: Hasher, states: seq<Cluster>, actions: seq<Action>, b: nat, p: Rings.Node, q: Rings.Node, copy: Copy, rf: int, i: nat)
    requires Run(sha, states, actions) && b < |actions| && b < i < |states|
    requires actions[b] == Forward(p, rf) && rf >= 2 && Heads(states[b], p, copy)
    requires FirstTwo(states[b].hosts[p].view, if copy.routing == [] then copy.hash else copy.routing, p, q)
    ensures (q, copy) in states[i].net
  {
    assert Step(sha, states[b], actions[b], states[b + 1]);
    assert StepAt(sha, states[b], Forward(p, rf), states[b + 1], true);
    var root: Blob := if copy.routing == [] then copy.hash else copy.routing;
    Lists.DedupMembers(Rings.Nodes(Rings.Clockwise(states[b].hosts[p].view, Rings.KeyHash(root))));
    ForwardReachesSecondOwner(states[b], p, q, rf);
    NetGrows(sha, states, actions, b + 1, i);
  }

  /** copy is next to leave p's replication queue. */
  ghost predicate Heads(c: Cluster, p: Rings.Node, copy: Copy) {
    p in c.hosts && c.hosts[p].queue != [] && c.hosts[p].queue[0] == copy
  }

  /** Implicit promotion keeps data, from one end of a run to the other. At step a node p takes a
      write and mints a version; at step b it forwards that copy, its view giving p and then q as the
      owners of the root (the write's routing key, or the block's own hash without one); at step c the copy is delivered to q. Then the message was there to deliver, and
      in every later state up to which q's copy is spared, q holds the block at the version p stored,
      or a later one; and whichever nodes leave p's ring, p among them and q not, the root's first
      owner is q. */
  lemma {:induction false} PromotionKeepsData(
    sha: Hasher, states: seq<Cluster>, actions: seq<Action>, a: nat, b: nat, c: nat, i: nat,
    p: Rings.Node, q: Rings.Node, h: Digest, d: Draft, routing: Blob, now: int, rf: int, later: int, gone: seq<Rings.Node>)
    requires Run(sha, states, actions) && a < b < c < i < |states|
    requires actions[a] == Write(p, h, d, routing, now) && p in states[a].hosts
    requires var copy := Minted(sha, states[a].hosts[p].shard, h, d, routing, now);
             && actions[b] == Forward(p, rf) && rf >= 2 && Heads(states[b], p, copy)
             && FirstTwo(states[b].hosts[p].view, if routing == [] then h else routing, p, q) && Rings.Sorted(states[b].hosts[p].view)
             && actions[c] == Deliver(q, copy, later) && copy.version > 0
    requires RunSpares(sha, states, actions, c + 1, i, q, StoreKey(sha, d.model, h))
    requires p in gone && q !in gone
    ensures var copy, k := Minted(sha, states[a].hosts[p].shard, h, d, routing, now), StoreKey(sha, d.model, h);
            && p in states[a + 1].hosts && k in states[a + 1].hosts[p].shard.entries
            && (q, copy) in states[c].net
            && Holds(states[i], q, k, states[a + 1].hosts[p].shard.entries[k].version)
            && Rings.Lookup(Rings.DropAll(states[b].hosts[p].view, gone), if routing == [] then h else routing) == Some(q)
  {
    var copy, k := Minted(sha, states[a].hosts[p].shard, h, d, routing, now), StoreKey(sha, d.model, h);
    assert Step(sha, states[a], actions[a], states[a + 1]) && Step(sha, states[c], actions[c], states[c + 1]);
    WriteMints(sha, states[a], p, h, d, routing, now, states[a + 1]);
    ForwardedStays(sha, states, actions, b, p, q, copy, rf, c);
    DeliveredHolds(sha, states[c], q, copy, later, states[c + 1]);
    RunHolds(sha, states, actions, c + 1, q, k, copy.version, i);
    Rings.PromotionLaw(states[b].hosts[p].view, gone, Rings.KeyHash(if routing == [] then h else routing), p, q);
  }
}
