/** Replica convergence (internal/cache/store.go, internal/server/server.go), over whole runs. */
module Replicas {
  import opened Bytes
  import opened StoreSpec
  import opened PlainStore

  // Copies of one block arrive late, twice and out of order, while the shard goes on serving reads,
  // naming victims and changing other blocks. Only a local Put or a removal of the block itself would
  // interfere.

  /** What a replica holds of a block, apart from when it was created and used. */
  datatype Content = Content(model: Blob, wire: Digest, version: U64, tokens: seq<I32>, kv: Blob, tenant: Blob, cost: real)

  function ContentOf(e: Entry): (c: Content) {
    Content(e.model, e.wire, e.version, e.tokens, e.kv, e.tenant, e.cost)
  }

  function ContentAt(s: Shard, k: Digest): (c: Option<Content>) {
    if k in s.entries then Some(ContentOf(s.entries[k])) else None
  }

  /** The operation delivers content c for the block under k. */
  ghost predicate Delivers(sha: Hasher, op: Op, k: Digest, c: Content) {
    && op.OpPutWithVersion? && op.version > 0 && k == StoreKey(sha, op.d.model, op.h)
    && c == ContentOf(StoreSpec.Fresh(op.d, op.h, op.version, op.now))
  }

  /** The operation neither writes the block locally nor removes it. */
  ghost predicate LeavesAlone(sha: Hasher, op: Op, k: Digest) {
    match op
    case OpPut(h, d, _) => StoreKey(sha, d.model, h) != k
    case OpDelete(model, h) => StoreKey(sha, model, h) != k
    case OpEvict(j) => j != k
    case _ => true
  }

  ghost predicate AllLeaveAlone(sha: Hasher, ops: seq<Op>, k: Digest) {
    forall i :: 0 <= i < |ops| ==> LeavesAlone(sha, ops[i], k)
  }

  /** c was there from the start, or some operation of the run delivers it. */
  ghost predicate Offered(sha: Hasher, s: Shard, ops: seq<Op>, k: Digest, c: Content) {
    ContentAt(s, k) == Some(c) || exists i :: 0 <= i < |ops| && Delivers(sha, ops[i], k, c)
  }

  /** c is offered, and nothing newer is. */
  ghost predicate Newest(sha: Hasher, s: Shard, ops: seq<Op>, k: Digest, c: Content) {
    Offered(sha, s, ops, k, c) && forall d :: Offered(sha, s, ops, k, d) ==> d.version <= c.version
  }

  /** One operation: a delivery of something newer replaces the content, anything else keeps it. */
  lemma {:induction false} StepContent(sha: Hasher, s: Shard, op: Op, k: Digest)
    requires Enabled(s, op) && LeavesAlone(sha, op, k)
    ensures var was, now := ContentAt(s, k), ContentAt(Step(sha, s, op).0, k);
            && (forall c :: Delivers(sha, op, k, c) ==>
                  now == if was.Some? && was.value.version >= c.version then was else Some(c))
            && ((forall c :: !Delivers(sha, op, k, c)) ==> now == was)
  {
    match op {
      case OpPutWithVersion(h, d, version, now) =>
        if version > 0 {
          DeliverOne(sha, s, h, d, version, now);
          if StoreKey(sha, d.model, h) == k {
            assert Delivers(sha, op, k, ContentOf(StoreSpec.Fresh(d, h, version, now)));
          }
        }
      case _ =>
    }
  }

  lemma {:induction false} OfferedFirst(sha: Hasher, s: Shard, ops: seq<Op>, k: Digest, c: Content)
    requires ops != []
    ensures Offered(sha, s, ops, k, c) <==>
            ContentAt(s, k) == Some(c) || Delivers(sha, ops[0], k, c) || exists i :: 0 <= i < |ops[1..]| && Delivers(sha, ops[1..][i], k, c)
  {
    if i :| 0 <= i < |ops| && Delivers(sha, ops[i], k, c) {
      assert i > 0 ==> ops[1..][i - 1] == ops[i];
    }
    if i :| 0 <= i < |ops[1..]| && Delivers(sha, ops[1..][i], k, c) {
      assert ops[i + 1] == ops[1..][i];
    }
  }

  /** What is newest for the rest of a run, from where its first operation leaves the block, is newest
      for the whole. */
  lemma {:induction false} NewestFirst(sha: Hasher, s: Shard, ops: seq<Op>, k: Digest, c: Content)
    requires ops != [] && Enabled(s, ops[0]) && LeavesAlone(sha, ops[0], k)
    requires Newest(sha, Step(sha, s, ops[0]).0, ops[1..], k, c)
    ensures Newest(sha, s, ops, k, c)
  {
    var t := Step(sha, s, ops[0]).0;
    StepContent(sha, s, ops[0], k);
    OfferedFirst(sha, s, ops, k, c);
    forall d | Offered(sha, s, ops, k, d) ensures d.version <= c.version {
      OfferedFirst(sha, s, ops, k, d);
      var kept := ContentAt(t, k);
      if kept.Some? {
        assert Offered(sha, t, ops[1..], k, kept.value);
      }
      assert Offered(sha, t, ops[1..], k, d) || (kept.Some? && d.version <= kept.value.version);
    }
  }

  lemma {:induction false} NothingOffered(sha: Hasher, s: Shard, ops: seq<Op>, k: Digest)
    requires ops != [] && Enabled(s, ops[0]) && LeavesAlone(sha, ops[0], k)
    requires forall c :: !Offered(sha, Step(sha, s, ops[0]).0, ops[1..], k, c)
    ensures forall c :: !Offered(sha, s, ops, k, c)
  {
    var t := Step(sha, s, ops[0]).0;
    StepContent(sha, s, ops[0], k);
    assert ContentAt(t, k).Some? ==> Offered(sha, t, ops[1..], k, ContentAt(t, k).value);
    forall c: Content | true ensures !Offered(sha, s, ops, k, c) {
      OfferedFirst(sha, s, ops, k, c);
      assert !Offered(sha, t, ops[1..], k, c);
    }
  }

  /** From any shard and through any such run, in whatever order and however often copies arrive: the
      block ends up with the newest content it started with or was offered, and is absent only if
      there was none. In particular its version never falls. */
  lemma {:induction false} NewestSurvives(sha: Hasher, s: Shard, ops: seq<Op>, k: Digest)
    requires CanRun(sha, s, ops) && AllLeaveAlone(sha, ops, k)
    ensures match ContentAt(After(sha, s, ops), k)
            case Some(c) => Newest(sha, s, ops, k, c)
            case None => forall c :: !Offered(sha, s, ops, k, c)
    decreases |ops|
  {
    if ops != [] {
      var t := Step(sha, s, ops[0]).0;
      assert forall i :: 0 <= i < |ops[1..]| ==> ops[1..][i] == ops[i + 1];
      NewestSurvives(sha, t, ops[1..], k);
      var c := ContentAt(After(sha, t, ops[1..]), k);
      if c.Some? {
        NewestFirst(sha, s, ops, k, c.value);
      } else {
        NothingOffered(sha, s, ops, k);
      }
    }
  }

  /** Equal versions carry equal contents. */
  ghost predicate Coherent(sha: Hasher, s: Shard, ops: seq<Op>, k: Digest) {
    forall c, d :: Offered(sha, s, ops, k, c) && Offered(sha, s, ops, k, d) && c.version == d.version ==> c == d
  }

  /** Two replicas that were offered the same contents, in any order, any number of times and with
      anything else in between, hold the same version, tokens and bytes. */
  lemma {:induction false} ReplicasConverge(sha: Hasher, s1: Shard, ops1: seq<Op>, s2: Shard, ops2: seq<Op>, k: Digest)
    requires CanRun(sha, s1, ops1) && AllLeaveAlone(sha, ops1, k)
    requires CanRun(sha, s2, ops2) && AllLeaveAlone(sha, ops2, k)
    requires Coherent(sha, s1, ops1, k)
    requires forall c :: Offered(sha, s1, ops1, k, c) <==> Offered(sha, s2, ops2, k, c)
    ensures ContentAt(After(sha, s1, ops1), k) == ContentAt(After(sha, s2, ops2), k)
  {
    NewestSurvives(sha, s1, ops1, k);
    NewestSurvives(sha, s2, ops2, k);
  }
}
