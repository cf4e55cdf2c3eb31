/** What the request handlers of one shard do (internal/server/server.go, internal/server/replicator.go),
    as functions of the shard. */
module ServerSpec {
  import opened Bytes
  import opened StoreSpec
  import C = ColdTier
  import S = Streams
  import Lists
  import Rings

  // --- reads -----------------------------------------------------------------------------------

  /** A version of zero and an empty token list mean "any". */
  datatype Request = Request(model: Blob, hash: Blob, version: U64, tokens: seq<I32>)

  datatype Reply = Served(kv: Blob) | InvalidHash | NotCached | WrongVersion | WrongTokens

  predicate VersionOk(want: U64, have: U64) {
    want == 0 || want == have
  }

  predicate TokensOk(want: seq<I32>, have: seq<I32>) {
    want == [] || want == have
  }

  /** What a request sees of the outside: the cold tier's answer and the clock. */
  datatype Moment = Moment(cold: C.Cold, now: int)

  /** The cold copy carries no tenant and no cost. */
  function ColdDraft(model: Blob, tokens: seq<I32>, kv: Blob): (d: Draft) {
    Draft(model, tokens, kv, [], 0.0)
  }

  /** Read-through: the same guards as the hot path, then re-admission unless that would pass the
      hard limit. */
  ghost function ColdHit(sha: Hasher, s: Shard, at: Moment, h: Digest, req: Request): (r: (Shard, Option<Blob>)) {
    var c := at.cold;
    if !c.Hit? || !VersionOk(req.version, c.version) || !TokensOk(req.tokens, c.tokens) then (s, None)
    else if OverHardLimit(s, |c.kv|) then (s, Some(c.kv))
    else (PutWithVersion(sha, s, h, ColdDraft(req.model, c.tokens, c.kv), c.version, at.now).0, Some(c.kv))
  }

  /** The guards on a hot entry. */
  function Guarded(e: Entry, req: Request): (r: Reply) {
    if !VersionOk(req.version, e.version) then WrongVersion
    else if !TokensOk(req.tokens, e.tokens) then WrongTokens
    else Served(e.kv)
  }

  ghost function Fetch(sha: Hasher, s: Shard, at: Moment, req: Request): (r: (Shard, Reply)) {
    if |req.hash| != 32 then (s, InvalidHash)
    else
      var h: Digest := req.hash;
      var (t, e) := Get(sha, s, req.model, h, at.now);
      if e.None? then
        var (u, kv) := ColdHit(sha, t, at, h, req);
        if kv.Some? then (u, Served(kv.value)) else (u, NotCached)
      else (t, Guarded(e.value, req))
  }

  /** What a Fetch answers, said without its helpers. A resident block is served exactly when the version
      asked for is none or its own and the tokens asked for are none or its own; a wrong version is
      reported before wrong tokens. */
  lemma {:induction false} HotFetchMeans(sha: Hasher, s: Shard, at: Moment, h: Digest, req: Request)
    requires req.hash == h && StoreKey(sha, req.model, h) in s.entries && s.entries[StoreKey(sha, req.model, h)].model == req.model
    ensures var e, reply := s.entries[StoreKey(sha, req.model, h)], Fetch(sha, s, at, req).1;
            var version, tokens := req.version == 0 || req.version == e.version, req.tokens == [] || req.tokens == e.tokens;
            && (reply == Served(e.kv) <==> version && tokens)
            && (reply == WrongVersion <==> !version)
            && (reply == WrongTokens <==> version && !tokens)
            && (reply.Served? || reply.WrongVersion? || reply.WrongTokens?)
  {
  }

  /** A block that is not resident is served from the cold tier under the same two conditions, is not
      found otherwise, and is re-admitted at its own version exactly when it is served and fits. */
  lemma {:induction false} ColdFetchMeans(sha: Hasher, s: Shard, at: Moment, h: Digest, req: Request)
    requires req.hash == h
    requires StoreKey(sha, req.model, h) !in s.entries || s.entries[StoreKey(sha, req.model, h)].model != req.model
    ensures var (t, reply) := Fetch(sha, s, at, req);
            var c := at.cold;
            var good := c.Hit? && (req.version == 0 || req.version == c.version) && (req.tokens == [] || req.tokens == c.tokens);
            && reply == (if good then Served(c.kv) else NotCached)
            && t == (if good && (s.limits.maxBytes <= 0 || s.bytes + |c.kv| <= s.limits.maxBytes)
                     then PutWithVersion(sha, s, h, Draft(req.model, c.tokens, c.kv, [], 0.0), c.version, at.now).0
                     else s)
  {
  }

  /** A malformed hash is an error and nothing is touched. */
  lemma {:induction false} BadHashFetch(sha: Hasher, s: Shard, at: Moment, req: Request)
    ensures Fetch(sha, s, at, req).1 == InvalidHash <==> |req.hash| != 32
    ensures |req.hash| != 32 ==> Fetch(sha, s, at, req).0 == s
  {
  }

  /** One block of a batch: no error codes, just the bytes or nothing. */
  ghost function BatchResolve(sha: Hasher, s: Shard, at: Moment, h: Digest, req: Request): (r: (Shard, Option<Blob>)) {
    var (t, e) := Get(sha, s, req.model, h, at.now);
    if e.None? then ColdHit(sha, t, at, h, req)
    else if VersionOk(req.version, e.value.version) && TokensOk(req.tokens, e.value.tokens) then (t, Some(e.value.kv))
    else (t, None)
  }

  ghost function BatchOne(sha: Hasher, s: Shard, at: Moment, req: Request): (r: (Shard, Option<Blob>)) {
    if |req.hash| != 32 then (s, None) else BatchResolve(sha, s, at, req.hash, req)
  }

  /** A batch, block by block on the state the blocks before it left. */
  ghost function Batch(sha: Hasher, s: Shard, at: seq<Moment>, reqs: seq<Request>): (r: (Shard, seq<Option<Blob>>))
    requires |at| == |reqs|
    ensures |r.1| == |reqs|
    decreases |reqs|
  {
    if reqs == [] then (s, [])
    else
      var n := |reqs| - 1;
      var (t, before) := Batch(sha, s, at[..n], reqs[..n]);
      var (u, last) := BatchOne(sha, t, at[n], reqs[n]);
      (u, before + [last])
  }

  /** The same requests as separate Fetch calls, one after the other. */
  ghost function Fetches(sha: Hasher, s: Shard, at: seq<Moment>, reqs: seq<Request>): (r: (Shard, seq<Reply>))
    requires |at| == |reqs|
    ensures |r.1| == |reqs|
    decreases |reqs|
  {
    if reqs == [] then (s, [])
    else
      var n := |reqs| - 1;
      var (t, before) := Fetches(sha, s, at[..n], reqs[..n]);
      var (u, last) := Fetch(sha, t, at[n], reqs[n]);
      (u, before + [last])
  }

  function BytesOf(r: Reply): (o: Option<Blob>) {
    if r.Served? then Some(r.kv) else None
  }

  /** A batch leaves the shard as the separate calls would, re-admissions included, and finds exactly
      what they find. */
  lemma {:induction false} BatchRefinesFetches(sha: Hasher, s: Shard, at: seq<Moment>, reqs: seq<Request>)
    requires |at| == |reqs|
    ensures Batch(sha, s, at, reqs).0 == Fetches(sha, s, at, reqs).0
    ensures forall i :: 0 <= i < |reqs| ==> Batch(sha, s, at, reqs).1[i] == BytesOf(Fetches(sha, s, at, reqs).1[i])
    decreases |reqs|
  {
    if reqs != [] {
      var n := |reqs| - 1;
      BatchRefinesFetches(sha, s, at[..n], reqs[..n]);
      BatchOneIsFetch(sha, Batch(sha, s, at[..n], reqs[..n]).0, at[n], reqs[n]);
    }
  }

  lemma {:induction false} BatchOneIsFetch(sha: Hasher, s: Shard, at: Moment, req: Request)
    ensures BatchOne(sha, s, at, req).0 == Fetch(sha, s, at, req).0
    ensures BatchOne(sha, s, at, req).1 == BytesOf(Fetch(sha, s, at, req).1)
  {
  }

  /** From the request to the client's list: any merge of the batch's frames that keeps each block's
      order, cut anywhere, gives for block i what its own Fetch would have served or None, and gives
      the Fetch's answer when all its frames arrived. */
  lemma {:induction false} BatchDelivers(
    sha: Hasher, s: Shard, at: seq<Moment>, reqs: seq<Request>, stream: seq<S.BatchFrame>, failed: bool, i: nat)
    requires |at| == |reqs| && i < |reqs| && S.CutMerge(stream, Batch(sha, s, at, reqs).1)
    ensures S.Demuxed(stream, failed, i) ==
            if !failed && S.Complete(stream, Batch(sha, s, at, reqs).1, i)
            then BytesOf(Fetches(sha, s, at, reqs).1[i]) else None
  {
    BatchRefinesFetches(sha, s, at, reqs);
    S.BatchAllOrNothing(stream, Batch(sha, s, at, reqs).1, failed, i);
  }

  lemma {:induction false} ColdHitSound(sha: Hasher, s: Shard, at: Moment, h: Digest, req: Request)
    requires Sound(s)
    ensures Sound(ColdHit(sha, s, at, h, req).0)
  {
    var c := at.cold;
    if c.Hit? {
      var k := StoreKey(sha, req.model, h);
      var created := if k in s.entries then s.entries[k].created else at.now;
      StoredSound(s, k, StoreSpec.Fresh(ColdDraft(req.model, c.tokens, c.kv), h, c.version, created));
    }
  }

  /** Reading keeps the shard sound, whatever the cold tier answers. */
  lemma {:induction false} FetchSound(sha: Hasher, s: Shard, at: Moment, req: Request)
    requires Sound(s)
    ensures Sound(Fetch(sha, s, at, req).0)
  {
    if |req.hash| == 32 {
      GetSound(sha, s, req.model, req.hash, at.now);
      ColdHitSound(sha, Get(sha, s, req.model, req.hash, at.now).0, at, req.hash, req);
    }
  }

  /** The cold tier's answer to a request with a well-formed hash; there may be no cold tier. */
  ghost function Answer(objects: Option<map<Blob, Blob>>, req: Request, now: int): (at: Moment) {
    Moment(if objects.Some? && |req.hash| == 32 then C.Read(objects.value, req.model, req.hash) else C.Miss, now)
  }

  ghost function Answers(objects: Option<map<Blob, Blob>>, reqs: seq<Request>, now: int): (at: seq<Moment>)
    ensures |at| == |reqs|
    ensures forall i :: 0 <= i < |reqs| ==> at[i].now == now
    ensures forall i, h: Digest :: 0 <= i < |reqs| && reqs[i].hash == h && objects.Some? ==>
              at[i].cold == C.Read(objects.value, reqs[i].model, h)
  {
    seq(|reqs|, i requires 0 <= i < |reqs| => Answer(objects, reqs[i], now))
  }

  /** A batch done up to block i. Unfolded only where BatchSoFarAt is mentioned. */
  ghost predicate BatchSoFar(sha: Hasher, s: Shard, at: seq<Moment>, reqs: seq<Request>, i: nat, t: Shard, results: seq<Option<Blob>>) {
    forall u: bool {:trigger BatchSoFarAt(sha, s, at, reqs, i, t, results, u)} :: BatchSoFarAt(sha, s, at, reqs, i, t, results, u)
  }

  ghost predicate BatchSoFarAt(
    sha: Hasher, s: Shard, at: seq<Moment>, reqs: seq<Request>, i: nat, t: Shard, results: seq<Option<Blob>>, u: bool) {
    |at| == |reqs| && i <= |reqs| && (t, results) == Batch(sha, s, at[..i], reqs[..i])
  }

  lemma {:induction false} BatchNext(
    sha: Hasher, s: Shard, at: seq<Moment>, reqs: seq<Request>, i: nat, t: Shard, results: seq<Option<Blob>>, t': Shard, r: Option<Blob>)
    requires |at| == |reqs| && i < |reqs| && BatchSoFar(sha, s, at, reqs, i, t, results)
    requires (t', r) == BatchOne(sha, t, at[i], reqs[i])
    ensures BatchSoFar(sha, s, at, reqs, i + 1, t', results + [r])
  {
    assert BatchSoFarAt(sha, s, at, reqs, i, t, results, true);
    BatchStep(sha, s, at, reqs, i);
  }

  lemma {:induction false} BatchStep(sha: Hasher, s: Shard, at: seq<Moment>, reqs: seq<Request>, i: nat)
    requires |at| == |reqs| && i < |reqs|
    ensures var (t, before) := Batch(sha, s, at[..i], reqs[..i]);
            var (u, r) := BatchOne(sha, t, at[i], reqs[i]);
            Batch(sha, s, at[..i + 1], reqs[..i + 1]) == (u, before + [r])
  {
    assert at[..i + 1][..i] == at[..i] && reqs[..i + 1][..i] == reqs[..i];
  }

  // --- writes ----------------------------------------------------------------------------------

  datatype BlockHeader = BlockHeader(
    model: Blob, hash: Blob, tokens: seq<I32>, tenant: Blob, cost: real, version: U64, routing: Blob)

  /** One block to copy to its replicas. */
  datatype Job = Job(hash: Digest, draft: Draft, version: U64, routing: Blob)

  datatype WriteReply = Accepted(version: U64, stored: bool) | BadStream | BadHash | CacheFull | NoVersion

  function HeaderDraft(hdr: BlockHeader, kv: Blob): (d: Draft) {
    Draft(hdr.model, hdr.tokens, kv, hdr.tenant, hdr.cost)
  }

  /** Write: assemble, check admission, store, and hand the block to the replicator. */
  ghost function Write(sha: Hasher, s: Shard, a: S.Assembled<BlockHeader>, now: int): (r: (Shard, WriteReply, Option<Job>)) {
    if !a.Block? then (s, BadStream, None)
    else if |a.header.hash| != 32 then (s, BadHash, None)
    else if OverHardLimit(s, |a.data|) then (s, CacheFull, None)
    else
      var h: Digest := a.header.hash;
      var d := HeaderDraft(a.header, a.data);
      var (t, v) := Put(sha, s, h, d, now);
      (t, Accepted(v, true), Some(Job(h, d, v, a.header.routing)))
  }

  /** Replicate: no admission check, no forwarding, and the version must be set. */
  ghost function Replicate(sha: Hasher, s: Shard, a: S.Assembled<BlockHeader>, now: int): (r: (Shard, WriteReply)) {
    if !a.Block? then (s, BadStream)
    else if |a.header.hash| != 32 then (s, BadHash)
    else if a.header.version == 0 then (s, NoVersion)
    else
      var (t, v) := PutWithVersion(sha, s, a.header.hash, HeaderDraft(a.header, a.data), a.header.version, now);
      (t, Accepted(v, v == a.header.version))
  }

  function JobHeader(j: Job): (h: BlockHeader) {
    BlockHeader(j.draft.model, j.hash, j.draft.tokens, j.draft.tenant, j.draft.cost, j.version, j.routing)
  }

  // --- forwarding ------------------------------------------------------------------------------

  const QUEUE_DEPTH := 256

  function Enqueued(queue: seq<Job>, job: Job): (r: seq<Job>)
    ensures |queue| <= QUEUE_DEPTH ==> |r| <= QUEUE_DEPTH
  {
    if |queue| < QUEUE_DEPTH then queue + [job] else queue
  }

  function RoutingKey(job: Job): (key: Blob) {
    if |job.routing| == 0 then job.hash else job.routing
  }

  /** Every owner of the root but the sender itself. */
  function Targets(points: seq<Rings.VPoint>, self: Rings.Node, job: Job, rf: int): (r: seq<Rings.Node>) {
    Lists.Without(Rings.LookupN(points, RoutingKey(job), rf), self)
  }

  /** One replication stream: what was sent, and how it ended. */
  datatype Transfer = Transfer(to: Rings.Node, msgs: seq<S.WriteMsg<BlockHeader>>, end: S.End)

  /** sendOne: the whole block, unless the stream breaks after some messages. */
  function SendOne(to: Rings.Node, cut: Option<nat>, job: Job): (r: Transfer) {
    var msgs := S.Sent(JobHeader(job), job.draft.kv);
    match cut
    case None => Transfer(to, msgs, S.Eof)
    case Some(m) => Transfer(to, Lists.Take(msgs, m), S.Broken)
  }

  /** sendOne to a replica, start to finish: the copy is stored under the primary's version with the
      primary's bytes, exactly as PutWithVersion would, and is reported stored when it is the newer
      or an equal one. A stream that breaks, wherever it does, changes nothing. */
  lemma {:induction false} ForwardedCopyIsStored(sha: Hasher, s: Shard, to: Rings.Node, cut: Option<nat>, j: Job, now: int)
    requires j.version > 0
    ensures var sent := SendOne(to, cut, j);
            var (t, reply) := Replicate(sha, s, S.Assemble(sent.msgs, sent.end), now);
            if cut.Some? then t == s && reply == BadStream
            else
              var k := StoreKey(sha, j.draft.model, j.hash);
              && t == PutWithVersion(sha, s, j.hash, j.draft, j.version, now).0
              && k in t.entries && t.entries[k].version >= j.version
              && (reply == Accepted(t.entries[k].version, t.entries[k].version == j.version))
  {
    var msgs := S.Sent(JobHeader(j), j.draft.kv);
    var m := if cut.Some? && cut.value < |msgs| then cut.value else |msgs|;
    S.AssembleSent(JobHeader(j), j.draft.kv, m, SendOne(to, cut, j).end);
    assert msgs[..|msgs|] == msgs;
  }

  /** A target whose connection is gone by now is skipped; a broken stream does not stop the others. */
  function Transfers(targets: seq<Rings.Node>, connected: Rings.Node -> bool, cut: Rings.Node -> Option<nat>, job: Job): (r: seq<Transfer>)
    ensures |r| <= |targets|
  {
    if targets == [] then []
    else
      var n := |targets| - 1;
      var before := Transfers(targets[..n], connected, cut, job);
      if connected(targets[n]) then before + [SendOne(targets[n], cut(targets[n]), job)] else before
  }

  lemma {:induction false} TransfersSnoc(targets: seq<Rings.Node>, t: Rings.Node, connected: Rings.Node -> bool, cut: Rings.Node -> Option<nat>, job: Job)
    ensures Transfers(targets + [t], connected, cut, job)
         == Transfers(targets, connected, cut, job) + if connected(t) then [SendOne(t, cut(t), job)] else []
  {
    assert (targets + [t])[..|targets|] == targets;
  }

  ghost predicate Reached(sent: seq<Transfer>, t: Rings.Node) {
    exists i :: 0 <= i < |sent| && sent[i].to == t
  }

  lemma {:induction false} ReachedSnoc(sent: seq<Transfer>, x: Transfer, t: Rings.Node)
    ensures Reached(sent + [x], t) <==> Reached(sent, t) || x.to == t
  {
    var all := sent + [x];
    assert all[|sent|] == x;
    assert forall i :: 0 <= i < |sent| ==> all[i] == sent[i];
  }

  /** Exactly the targets still connected get a stream. */
  lemma {:induction false} TransfersReach(
    targets: seq<Rings.Node>, connected: Rings.Node -> bool, cut: Rings.Node -> Option<nat>, job: Job, t: Rings.Node)
    ensures Reached(Transfers(targets, connected, cut, job), t) <==> t in targets && connected(t)
  {
    if targets != [] {
      var n := |targets| - 1;
      TransfersReach(targets[..n], connected, cut, job, t);
      assert t in targets <==> t in targets[..n] || t == targets[n];
      ReachedSnoc(Transfers(targets[..n], connected, cut, job), SendOne(targets[n], cut(targets[n]), job), t);
    }
  }

  lemma {:induction false} NobodySkipped(targets: seq<Rings.Node>, connected: Rings.Node -> bool, cut: Rings.Node -> Option<nat>, job: Job)
    requires forall i :: 0 <= i < |targets| ==> connected(targets[i])
    ensures |Transfers(targets, connected, cut, job)| == |targets|
  {
    if targets != [] {
      NobodySkipped(targets[..|targets| - 1], connected, cut, job);
    }
  }

  /** The key's owners are p, then q. */
  ghost predicate FirstTwo(points: seq<Rings.VPoint>, key: Blob, p: Rings.Node, q: Rings.Node) {
    var o := Rings.Owners(points, Rings.KeyHash(key));
    |o| >= 2 && o[0] == p && o[1] == q
  }

  /** A copy goes to exactly the first rf owners of its root, apart from the sender: the root is the
      routing key it came with, or its own hash if that is empty. */
  lemma {:induction false} TargetsExactly(points: seq<Rings.VPoint>, self: Rings.Node, job: Job, rf: int, t: Rings.Node)
    ensures t in Targets(points, self, job, rf) <==>
            t != self && t in Rings.LookupN(points, if job.routing == [] then job.hash else job.routing, rf)
  {
    Lists.WithoutMembers(Rings.LookupN(points, RoutingKey(job), rf), self);
  }

  /** The primary of a root forwards its blocks to the root's second owner. */
  lemma {:induction false} SecondOwnerIsTarget(points: seq<Rings.VPoint>, self: Rings.Node, q: Rings.Node, job: Job, rf: int)
    requires rf >= 2 && q != self
    requires FirstTwo(points, if job.routing == [] then job.hash else job.routing, self, q)
    ensures q in Targets(points, self, job, rf) && self !in Targets(points, self, job, rf)
  {
    var ids := Rings.LookupN(points, if job.routing == [] then job.hash else job.routing, rf);
    assert ids[1] == q && ids[1] in ids;
    TargetsExactly(points, self, job, rf, q);
    TargetsExactly(points, self, job, rf, self);
  }
}
