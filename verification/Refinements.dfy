/** The store and the handlers against the machines the run theorems are about. */
module Refinements {
  import opened Bytes
  import opened StoreSpec
  import opened ServerSpec
  import Stores
  import S = Streams
  import W = Wakeup
  import A = Admission
  import K = Clusters
  import Rings

  // --- the store's critical sections are runs of the wakeup machine ------------------------------

  /** The machine is where the shard is; other stripes and the evictor may be anywhere. */
  ghost predicate Matches(w: W.World, s: Shard) {
    w.entries == s.entries && w.policy == s.policy && w.counter == s.bytes && w.sig == s.nudged && w.limits == s.limits
  }

  ghost function Moved(w: W.World, s: Shard): (r: W.World) {
    w.(entries := s.entries, policy := s.policy, counter := s.bytes, sig := s.nudged)
  }

  /** What a store leaves behind, said on limits and bytes: a nudge is pending afterwards exactly if
      one was, or bytes are at high water, or a tenant is over its quota. */
  lemma {:induction false} StoredNudges(s: Shard, k: Digest, e: Entry)
    ensures var t := Stored(s, k, e);
            && t.limits == s.limits
            && (t.nudged <==> s.nudged || (t.limits.maxBytes > 0 && t.bytes >= t.limits.hiWater) || QuotaPressure(t.policy))
  {
  }

  /** From Loading on: compare, ask, send. */
  lemma {:induction false} SignalRun(w: W.World, i: nat) returns (run: seq<W.Action>)
    requires i in w.ops && w.ops[i].Loading?
    ensures W.CanRun(w, run)
    ensures W.After(w, run) == w.(
              ops := w.ops - {i},
              sig := w.sig || (w.limits.maxBytes > 0 && w.counter >= w.limits.hiWater) || QuotaPressure(w.policy))
  {
    var loaded := W.Next(w, W.LoadBytes(i));
    if W.High(w.limits, w.counter) {
      run := SendRun(loaded, i);
      assert loaded.ops - {i} == w.ops - {i};
    } else {
      var asked := W.Next(loaded, W.AskQuota(i));
      if QuotaPressure(w.policy) {
        run := SendRun(asked, i);
        assert asked.ops - {i} == w.ops - {i};
      } else {
        run := [];
        assert asked.ops == w.ops - {i};
      }
      W.ThenRun(loaded, W.AskQuota(i), run);
      run := [W.AskQuota(i)] + run;
    }
    W.ThenRun(w, W.LoadBytes(i), run);
    run := [W.LoadBytes(i)] + run;
  }

  lemma {:induction false} SendRun(w: W.World, i: nat) returns (run: seq<W.Action>)
    requires i in w.ops && w.ops[i].Sending?
    ensures W.CanRun(w, run) && W.After(w, run) == w.(ops := w.ops - {i}, sig := true)
  {
    run := [];
    W.ThenRun(w, W.Send(i), run);
    run := [W.Send(i)] + run;
  }

  /** Publishing an entry is a run of one writer, from taking the stripe to leaving it. */
  lemma {:induction false} StoredIsARun(w: W.World, s: Shard, k: Digest, e: Entry) returns (run: seq<W.Action>)
    requires Matches(w, s) && W.Free(w, k)
    ensures W.CanRun(w, run) && W.After(w, run) == Moved(w, Stored(s, k, e))
  {
    var i := StripeOf(k);
    var published := W.Next(w, W.Publish(k, e));
    var added := W.Next(published, W.AddBytes(i));
    run := SignalRun(added, i);
    assert added.ops - {i} == w.ops;
    StoredNudges(s, k, e);
    W.ThenRun(published, W.AddBytes(i), run);
    run := [W.AddBytes(i)] + run;
    W.ThenRun(w, W.Publish(k, e), run);
    run := [W.Publish(k, e)] + run;
  }

  /** Put and a PutWithVersion that stores are such runs, so what is proved of every interleaving of
      writers is proved of the store. */
  lemma {:induction false} PutIsARun(sha: Hasher, w: W.World, s: Shard, h: Digest, d: Draft, now: int) returns (run: seq<W.Action>)
    requires Matches(w, s) && W.Free(w, StoreKey(sha, d.model, h))
    ensures W.CanRun(w, run) && W.After(w, run) == Moved(w, Put(sha, s, h, d, now).0)
  {
    var k := StoreKey(sha, d.model, h);
    var version := if k in s.entries then NextVersion(s.entries[k].version) else 1;
    var created := if k in s.entries then s.entries[k].created else now;
    run := StoredIsARun(w, s, k, StoreSpec.Fresh(d, h, version, created));
  }

  lemma {:induction false} PutWithVersionIsARun(sha: Hasher, w: W.World, s: Shard, h: Digest, d: Draft, version: U64, now: int)
    returns (run: seq<W.Action>)
    requires Matches(w, s) && W.Free(w, StoreKey(sha, d.model, h))
    ensures W.CanRun(w, run) && W.After(w, run) == Moved(w, PutWithVersion(sha, s, h, d, version, now).0)
  {
    var k := StoreKey(sha, d.model, h);
    if version == 0 || (k in s.entries && s.entries[k].version >= version) {
      run := [];
    } else {
      var created := if k in s.entries then s.entries[k].created else now;
      run := StoredIsARun(w, s, k, StoreSpec.Fresh(d, h, version, created));
    }
  }

  lemma {:induction false} DeleteIsARun(sha: Hasher, w: W.World, s: Shard, model: Blob, h: Digest) returns (run: seq<W.Action>)
    requires Matches(w, s) && W.Free(w, StoreKey(sha, model, h))
    ensures W.CanRun(w, run) && W.After(w, run) == Moved(w, Delete(sha, s, model, h).0)
  {
    var k := StoreKey(sha, model, h);
    run := [];
    if Find(sha, s, model, h).Some? {
      var i, removed := StripeOf(k), W.Next(w, W.Remove(k));
      W.ThenRun(removed, W.SubtractBytes(i), run);
      assert removed.ops - {i} == w.ops;
      W.ThenRun(w, W.Remove(k), [W.SubtractBytes(i)] + run);
      run := [W.Remove(k)] + ([W.SubtractBytes(i)] + run);
    }
  }

  lemma {:induction false} GetIsARun(sha: Hasher, w: W.World, s: Shard, model: Blob, h: Digest, now: int) returns (run: seq<W.Action>)
    requires Matches(w, s) && W.Free(w, StoreKey(sha, model, h))
    ensures W.CanRun(w, run) && W.After(w, run) == Moved(w, Get(sha, s, model, h, now).0)
  {
    run := [];
    if Find(sha, s, model, h).Some? {
      W.ThenRun(w, W.Read(StoreKey(sha, model, h), now), run);
      run := [W.Read(StoreKey(sha, model, h), now)] + run;
    }
  }

  /** The drain's test: the evictor goes on to choose a victim exactly above low water or with a tenant
      over quota, and back to its channel otherwise. */
  lemma {:induction false} TestIsARun(w: W.World, s: Shard) returns (run: seq<W.Action>)
    requires Matches(w, s) && w.pc.CheckBytes?
    ensures W.CanRun(w, run) && W.After(w, run) == w.(pc := if NeedsEviction(s) then W.Choosing else W.Idle)
  {
    run := [];
    var tested := W.Next(w, W.TestBytes);
    if tested.pc.CheckQuota? {
      W.ThenRun(tested, W.TestQuota, run);
      run := [W.TestQuota] + run;
    }
    W.ThenRun(w, W.TestBytes, run);
    run := [W.TestBytes] + run;
  }

  /** The second half of an eviction: the counter, then the policy. */
  lemma {:induction false} FinishRun(w: W.World) returns (run: seq<W.Action>)
    requires w.pc.Freeing? && w.pc.task.Draining?
    ensures W.CanRun(w, run)
    ensures W.After(w, run) == w.(counter := w.counter - w.pc.size, policy := Dropped(w.policy, w.pc.k), pc := W.CheckBytes)
  {
    var freed := W.Next(w, W.FreeBytes);
    W.ThenRun(freed, W.Forget, []);
    W.ThenRun(w, W.FreeBytes, [W.Forget] + []);
    run := [W.FreeBytes] + ([W.Forget] + []);
  }

  /** The drain's body: the named victim goes, and the evictor is back at its test. */
  lemma {:induction false} EvictOneIsARun(w: W.World, s: Shard, k: Digest) returns (run: seq<W.Action>)
    requires Matches(w, s) && w.pc.Choosing? && PolicyOk(s.policy) && Names(s.policy, k) && k in s.entries && StripeOf(k) !in w.ops
    ensures W.CanRun(w, run) && W.After(w, run) == Moved(w, Stores.OneEvicted(s, k)).(pc := W.CheckBytes)
  {
    var chosen := W.Next(w, W.Choose(k));
    var locked := W.Next(chosen, W.LockVictim);
    run := FinishRun(locked);
    W.ThenRun(chosen, W.LockVictim, run);
    W.ThenRun(w, W.Choose(k), [W.LockVictim] + run);
    run := [W.Choose(k)] + ([W.LockVictim] + run);
  }

  // --- the write handler --------------------------------------------------------------------------

  /** Exactly which streams are refused, and why: one that did not assemble, a hash that is not 32
      bytes, a payload that would pass the ceiling, in this order. A refusal changes nothing and
      queues nothing. */
  lemma {:induction false} WriteRefuses(sha: Hasher, s: Shard, a: S.Assembled<BlockHeader>, now: int)
    ensures var (t, reply, job) := ServerSpec.Write(sha, s, a, now);
            && (reply == BadStream <==> !a.Block?)
            && (reply == BadHash <==> a.Block? && |a.header.hash| != 32)
            && (reply == CacheFull <==>
                  a.Block? && |a.header.hash| == 32 && s.limits.maxBytes > 0 && s.bytes + |a.data| > s.limits.maxBytes)
            && (reply.Accepted? <==> job.Some?)
            && (reply.Accepted? || (t == s && (reply.BadStream? || reply.BadHash? || reply.CacheFull?)))
  {
  }

  /** An accepted write is one Write step of the cluster: same shard, same log, and the copy the
      handler hands to the replicator is the one the step queues, under the version in the reply
      and with the header's routing key. */
  lemma {:induction false} HandlerWriteIsAStep(sha: Hasher, c: K.Cluster, n: Rings.Node, h: Digest, a: S.Assembled<BlockHeader>, now: int)
    requires n in c.hosts && a.Block? && a.header.hash == h && |a.header.tokens| < TWO32
    requires ServerSpec.Write(sha, c.hosts[n].shard, a, now).1.Accepted?
    ensures var (t, reply, job) := ServerSpec.Write(sha, c.hosts[n].shard, a, now);
            var d := Draft(a.header.model, a.header.tokens, a.data, a.header.tenant, a.header.cost);
            var k, write := StoreKey(sha, a.header.model, h), K.Write(n, h, d, a.header.routing, now);
            && K.Enabled(c, write)
            && var c' := K.Next(sha, c, write);
            && c'.hosts[n].shard == t
            && k in t.entries && reply == Accepted(t.entries[k].version, true)
            && c'.log == c.log + [K.Wrote(a.header.model, h, a.header.tokens, a.data, reply.version)]
            && job == Some(Job(h, d, reply.version, a.header.routing))
            && c'.hosts[n].queue == if |c.hosts[n].queue| < 256
                                    then c.hosts[n].queue + [K.Copy(h, d, reply.version, a.header.routing)]
                                    else c.hosts[n].queue
  {
  }

  /** Queueing a job in the handler and a copy in the cluster are the same thing. */
  lemma {:induction false} QueuesAgree(jobs: seq<Job>, copies: seq<K.Copy>, job: Job, copy: K.Copy)
    requires |jobs| == |copies| && K.JobOf(copy) == job && forall i :: 0 <= i < |jobs| ==> jobs[i] == K.JobOf(copies[i])
    ensures var jobs', copies' := Enqueued(jobs, job), if |copies| < 256 then copies + [copy] else copies;
            |jobs'| == |copies'| && forall i :: 0 <= i < |jobs'| ==> jobs'[i] == K.JobOf(copies'[i])
  {
  }

  /** What Replicate refuses; an accepted copy is one Deliver step of the cluster, and the reply says
      which version is resident now. */
  lemma {:induction false} HandlerReplicateIsAStep(sha: Hasher, c: K.Cluster, n: Rings.Node, a: S.Assembled<BlockHeader>, now: int)
    requires n in c.hosts
    ensures var (t, reply) := ServerSpec.Replicate(sha, c.hosts[n].shard, a, now);
            && (reply == BadStream <==> !a.Block?)
            && (reply == BadHash <==> a.Block? && |a.header.hash| != 32)
            && (reply == NoVersion <==> a.Block? && |a.header.hash| == 32 && a.header.version == 0)
            && (reply.Accepted? || t == c.hosts[n].shard)
            && (a.Block? && |a.header.hash| == 32 && a.header.version > 0 ==>
                  var h: Digest := a.header.hash;
                  var d := Draft(a.header.model, a.header.tokens, a.data, a.header.tenant, a.header.cost);
                  var copy, k := K.Copy(h, d, a.header.version, a.header.routing), StoreKey(sha, a.header.model, h);
                  && K.Next(sha, c.(net := c.net + {(n, copy)}), K.Deliver(n, copy, now)).hosts[n].shard == t
                  && k in t.entries && reply == Accepted(t.entries[k].version, t.entries[k].version == a.header.version))
  {
  }

  /** The handler's check and store are the two steps of the admission machine: CacheFull is answered
      exactly when the check is disabled, and otherwise check and store lead to the handler's shard. */
  lemma {:induction false} WriteIsAdmission(l: A.Load, w: A.World, id: nat, h: Digest, a: S.Assembled<BlockHeader>, now: int)
    requires a.Block? && a.header.hash == h && id !in w.admitted && |w.admitted| < l.handlers && |a.data| <= l.largest
    ensures var (t, reply, job) := ServerSpec.Write(l.sha, w.shard, a, now);
            var d := Draft(a.header.model, a.header.tokens, a.data, a.header.tenant, a.header.cost);
            var run := [A.Check(id, |a.data|), A.Write(id, h, d, now)];
            && (reply == CacheFull <==> !A.Enabled(l, w, A.Check(id, |a.data|)))
            && (reply != CacheFull ==> A.CanRun(l, w, run) && A.After(l, w, run) == A.World(t, w.admitted))
  {
    var check := A.Check(id, |a.data|);
    if A.Enabled(l, w, check) {
      var d := Draft(a.header.model, a.header.tokens, a.data, a.header.tenant, a.header.cost);
      AdmittedWrite(l, w, id, h, d, now);
    }
  }

  lemma {:induction false} AdmittedWrite(l: A.Load, w: A.World, id: nat, h: Digest, d: Draft, now: int)
    requires id !in w.admitted && A.Enabled(l, w, A.Check(id, |d.kv|))
    ensures var run := [A.Check(id, |d.kv|), A.Write(id, h, d, now)];
            A.CanRun(l, w, run) && A.After(l, w, run) == A.World(Put(l.sha, w.shard, h, d, now).0, w.admitted)
  {
    var check, write := A.Check(id, |d.kv|), A.Write(id, h, d, now);
    var checked := A.Next(l, w, check);
    assert checked.admitted - {id} == w.admitted;
    assert A.CanRun(l, A.Next(l, checked, write), []);
    assert [write][1..] == [] && [check, write][1..] == [write];
    assert A.CanRun(l, checked, [write]) && A.After(l, checked, [write]) == A.Next(l, checked, write);
  }
}
