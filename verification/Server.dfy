/** The request handlers of one shard (internal/server/server.go) and its replication queue
    (internal/server/replicator.go) as objects. */
module Servers {
  import opened Bytes
  import opened StoreSpec
  import opened Stores
  import opened ServerSpec
  import C = ColdTier
  import S = Streams
  import Lists
  import Rings
  import opened Routers

  // --- the replication queue -------------------------------------------------------------------

  class Replicator {
    const self: Rings.Node
    const rf: int
    const router: Router
    var queue: seq<Job>

    constructor (self: Rings.Node, rf: int, router: Router)
      ensures this.self == self && this.rf == rf && this.router == router && queue == []
    {
      this.self, this.rf, this.router := self, rf, router;
      queue := [];
    }

    /** Drop rather than block. */
    method Enqueue(job: Job)
      requires |queue| <= QUEUE_DEPTH
      modifies this
      ensures queue == Enqueued(old(queue), job) && |queue| <= QUEUE_DEPTH
      ensures queue == if |old(queue)| < 256 then old(queue) + [job] else old(queue)
    {
      if |queue| < QUEUE_DEPTH {
        queue := queue + [job];
      }
    }

    /** Take the oldest job and send it to every other owner of its root. The router is asked for the
        owners once and then for each connection, and membership may change in between: `connected`
        is what it answers then. `cut` says which streams break, and after how many messages. */
    method ForwardNext(connected: Rings.Node -> bool, cut: Rings.Node -> Option<nat>) returns (sent: seq<Transfer>)
      requires |queue| > 0 && router.Valid()
      modifies this
      ensures queue == old(queue)[1..]
      ensures var targets := Targets(router.ring.points, self, old(queue)[0], rf);
              && sent == Transfers(targets, connected, cut, old(queue)[0])
              && ((forall id :: id in router.pool ==> connected(id)) ==> |sent| == |targets|)
    {
      var job := queue[0];
      queue := queue[1..];
      var key := if |job.routing| == 0 then job.hash else job.routing;
      var ids := router.ring.OwnersFor(key, rf);
      sent := SendAll(ids, self, connected, cut, job);
      OwnersArePooled(router, key, rf, self, connected, cut, job);
    }
  }

  lemma {:induction false} OwnersArePooled(
    router: Router, key: Blob, rf: int, self: Rings.Node, connected: Rings.Node -> bool, cut: Rings.Node -> Option<nat>, job: Job)
    requires router.Valid()
    ensures var targets := Lists.Without(Rings.LookupN(router.ring.points, key, rf), self);
            (forall id :: id in router.pool ==> connected(id)) ==> |Transfers(targets, connected, cut, job)| == |targets|
  {
    var ids := Rings.LookupN(router.ring.points, key, rf);
    Rings.RingNodes(router.ring.pos, router.ring.vnodes, router.ring.members, router.ring.points, Rings.KeyHash(key));
    assert forall i :: 0 <= i < |ids| ==> ids[i] in router.pool;
    Lists.WithoutMembers(ids, self);
    var targets := Lists.Without(ids, self);
    assert forall i :: 0 <= i < |targets| ==> targets[i] in targets;
    if forall id :: id in router.pool ==> connected(id) {
      NobodySkipped(targets, connected, cut, job);
    }
  }

  method SendAll(ids: seq<Rings.Node>, self: Rings.Node, connected: Rings.Node -> bool, cut: Rings.Node -> Option<nat>, job: Job)
    returns (sent: seq<Transfer>)
    ensures sent == Transfers(Lists.Without(ids, self), connected, cut, job)
  {
    sent := [];
    for i := 0 to |ids|
      invariant sent == Transfers(Lists.Without(ids[..i], self), connected, cut, job)
    {
      assert ids[..i + 1] == ids[..i] + [ids[i]];
      Lists.WithoutAppend(ids[..i], [ids[i]], self);
      if ids[i] != self {
        TransfersSnoc(Lists.Without(ids[..i], self), ids[i], connected, cut, job);
        assert Lists.Without([ids[i]], self) == [ids[i]];
        if connected(ids[i]) {
          sent := sent + [SendOne(ids[i], cut(ids[i]), job)];
        }
      } else {
        assert Lists.Without(ids[..i], self) + [] == Lists.Without(ids[..i], self);
      }
    }
    assert ids[..|ids|] == ids;
  }

  // --- the handlers as methods -----------------------------------------------------------------

  method BlockOf(index: nat, r: Option<Blob>) returns (block: seq<S.BatchFrame>)
    ensures block == S.BlockFrames(index, r)
  {
    if r.None? {
      block := [S.BatchFrame(index, [], false, true)];
    } else {
      block := S.StreamBatchKV(index, r.value);
    }
  }

  method FramesOf(reply: Reply) returns (frames: seq<S.Frame>)
    ensures frames == if reply.Served? then S.Frames(reply.kv) else []
  {
    frames := [];
    if reply.Served? {
      frames := S.StreamKV(reply.kv);
    }
  }

  class Server {
    const store: Store
    const cold: C.Memory?
    const repl: Replicator?

    ghost predicate Valid()
      reads this, store, Objects(store.policy), repl
    {
      && store.Valid()
      && (repl != null ==> |repl.queue| <= QUEUE_DEPTH && (repl as object) !in Objects(store.policy))
    }

    constructor (store: Store, cold: C.Memory?, repl: Replicator?)
      requires store.Valid() && (repl != null ==> |repl.queue| <= QUEUE_DEPTH && (repl as object) !in Objects(store.policy))
      ensures Valid() && this.store == store && this.cold == cold && this.repl == repl
    {
      this.store, this.cold, this.repl := store, cold, repl;
    }

    /** What the cold tier holds. */
    ghost function ColdObjects(): (r: Option<map<Blob, Blob>>)
      reads cold
    {
      if cold == null then None else Some(cold.m)
    }

    ghost function At(req: Request, now: int): (at: Moment)
      reads cold
    {
      Answer(ColdObjects(), req, now)
    }

    method TryCold(h: Digest, req: Request, now: int) returns (r: Option<Blob>)
      requires Valid() && req.hash == h
      modifies store, Objects(store.policy)
      ensures Valid() && (store.View(), r) == ColdHit(store.sha, old(store.View()), old(At(req, now)), h, req)
    {
      if cold == null {
        return None;
      }
      var c := cold.Get(req.model, h);
      if !c.Hit? || (req.version != 0 && req.version != c.version) || (|req.tokens| > 0 && req.tokens != c.tokens) {
        return None;
      }
      if !(store.limits.maxBytes > 0 && store.totalBytes + |c.kv| > store.limits.maxBytes) {
        var v := store.PutWithVersion(h, ColdDraft(req.model, c.tokens, c.kv), c.version, now);
      }
      r := Some(c.kv);
    }

    method HandleFetch(req: Request, now: int) returns (reply: Reply, frames: seq<S.Frame>)
      requires Valid() && (cold == null || (cold as object) !in Objects(store.policy))
      modifies store, Objects(store.policy)
      ensures Valid() && (store.View(), reply) == Fetch(store.sha, old(store.View()), old(At(req, now)), req)
      ensures forall h: Digest :: req.hash == h && cold != null ==>
                (store.View(), reply) == Fetch(store.sha, old(store.View()), Moment(C.Read(old(cold.m), req.model, h), now), req)
      ensures frames == if reply.Served? then S.Frames(reply.kv) else []
    {
      if |req.hash| != 32 {
        return InvalidHash, [];
      }
      reply := Look(req.hash, req, now);
      frames := FramesOf(reply);
    }

    method Look(h: Digest, req: Request, now: int) returns (reply: Reply)
      requires Valid() && req.hash == h && (cold == null || (cold as object) !in Objects(store.policy))
      modifies store, Objects(store.policy)
      ensures Valid() && (store.View(), reply) == Fetch(store.sha, old(store.View()), old(At(req, now)), req)
    {
      var e := store.Get(req.model, h, now);
      if e.Some? {
        return Guarded(e.value, req);
      }
      var kv := TryCold(h, req, now);
      reply := if kv.None? then NotCached else Served(kv.value);
    }

    method ResolveOne(req: Request, now: int) returns (r: Option<Blob>)
      requires Valid() && (cold == null || (cold as object) !in Objects(store.policy))
      modifies store, Objects(store.policy)
      ensures Valid() && (store.View(), r) == BatchOne(store.sha, old(store.View()), old(At(req, now)), req)
    {
      if |req.hash| != 32 {
        return None;
      }
      var h: Digest := req.hash;
      var e := store.Get(req.model, h, now);
      if e.None? {
        r := TryCold(h, req, now);
      } else if (req.version != 0 && req.version != e.value.version) || (|req.tokens| > 0 && req.tokens != e.value.tokens) {
        r := None;
      } else {
        r := Some(e.value.kv);
      }
    }

    /** The whole batch over one stream, in request order. */
    method HandleBatch(reqs: seq<Request>, now: int) returns (frames: seq<S.BatchFrame>, ghost results: seq<Option<Blob>>)
      requires Valid() && (cold == null || (cold as object) !in Objects(store.policy))
      modifies store, Objects(store.policy)
      ensures Valid() && (store.View(), results) == Batch(store.sha, old(store.View()), Answers(old(ColdObjects()), reqs, now), reqs)
      ensures frames == S.BatchFrames(results)
    {
      ghost var at, s0 := Answers(ColdObjects(), reqs, now), store.View();
      frames, results := [], [];
      assert BatchSoFarAt(store.sha, s0, at, reqs, 0, s0, results, true);
      for i := 0 to |reqs|
        invariant Valid() && ColdObjects() == old(ColdObjects())
        invariant |results| == i && frames == S.BatchFrames(results)
        invariant BatchSoFar(store.sha, s0, at, reqs, i, store.View(), results)
      {
        ghost var t := store.View();
        var r := ResolveOne(reqs[i], now);
        BatchNext(store.sha, s0, at, reqs, i, t, results, store.View(), r);
        var block := BlockOf(i % TWO32, r);
        S.BatchSnoc(results, r);
        frames, results := frames + block, results + [r];
      }
      assert BatchSoFarAt(store.sha, s0, at, reqs, |reqs|, store.View(), results, true);
      assert reqs[..|reqs|] == reqs && at[..|reqs|] == at;
    }

    method HandleWrite(msgs: seq<S.WriteMsg<BlockHeader>>, end: S.End, now: int) returns (reply: WriteReply)
      requires Valid()
      modifies store, Objects(store.policy), repl
      ensures Valid()
      ensures (store.View(), reply) == (Write(store.sha, old(store.View()), S.Assemble(msgs, end), now).0,
                                        Write(store.sha, old(store.View()), S.Assemble(msgs, end), now).1)
      ensures repl != null ==>
              var job := Write(store.sha, old(store.View()), S.Assemble(msgs, end), now).2;
              repl.queue == if job.Some? then Enqueued(old(repl.queue), job.value) else old(repl.queue)
    {
      var a := S.AssembleBlock(msgs, end);
      if !a.Block? {
        return BadStream;
      }
      if |a.header.hash| != 32 {
        return BadHash;
      }
      if store.limits.maxBytes > 0 && store.totalBytes + |a.data| > store.limits.maxBytes {
        return CacheFull;
      }
      var h: Digest := a.header.hash;
      var d := HeaderDraft(a.header, a.data);
      var v := store.Put(h, d, now);
      if repl != null {
        repl.Enqueue(Job(h, d, v, a.header.routing));
      }
      reply := Accepted(v, true);
    }

    method HandleReplicate(msgs: seq<S.WriteMsg<BlockHeader>>, end: S.End, now: int) returns (reply: WriteReply)
      requires Valid()
      modifies store, Objects(store.policy)
      ensures Valid() && (store.View(), reply) == Replicate(store.sha, old(store.View()), S.Assemble(msgs, end), now)
    {
      var a := S.AssembleBlock(msgs, end);
      if !a.Block? {
        return BadStream;
      }
      if |a.header.hash| != 32 {
        return BadHash;
      }
      if a.header.version == 0 {
        return NoVersion;
      }
      var v := store.PutWithVersion(a.header.hash, HeaderDraft(a.header, a.data), a.header.version, now);
      reply := Accepted(v, v == a.header.version);
    }
  }
}
