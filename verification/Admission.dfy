/** Write admission (internal/server/server.go, internal/cache/store.go). */
module Admission {
  import opened Bytes
  import opened Sums
  import opened StoreSpec
  import Chains

  // The hard-limit check and the store that follows it are two steps, so admitted payloads can pile
  // up in between.

  /** `admitted` holds, per handler between its check and its store, the size it was admitted for. */
  datatype World = World(shard: Shard, admitted: map<nat, int>)

  datatype Action =
    | Check(id: nat, size: nat)                                           // Write or a cold re-admission
    | Write(id: nat, h: Digest, d: Draft, now: int)
    | Readmit(id: nat, h: Digest, d: Draft, version: U64, now: int)
    | Remove(k: Digest)                                                   // Delete, eviction, TTL sweep
    | Read(model: Blob, h: Digest, now: int)
    | Name(k: Digest)                                                     // the evictor asks for a victim

  /** At most `handlers` at a time, payloads of at most `largest` bytes. */
  datatype Load = Load(sha: Hasher, handlers: nat, largest: nat)

  /** A check that fails leaves nothing behind, so only successful ones are steps. */
  ghost predicate Enabled(l: Load, w: World, a: Action) {
    match a
    case Check(id, size) =>
      id !in w.admitted && |w.admitted| < l.handlers && size <= l.largest && !OverHardLimit(w.shard, size)
    case Write(id, h, d, now) => id in w.admitted && |d.kv| == w.admitted[id]
    case Readmit(id, h, d, version, now) => id in w.admitted && |d.kv| == w.admitted[id]
    case Remove(k) => true
    case Read(model, h, now) => true
    case Name(k) => PolicyOk(w.shard.policy) && Names(w.shard.policy, k)
  }

  ghost function Next(l: Load, w: World, a: Action): (r: World)
    requires Enabled(l, w, a)
  {
    match a
    case Check(id, size) => w.(admitted := w.admitted[id := size])
    case Write(id, h, d, now) => World(Put(l.sha, w.shard, h, d, now).0, w.admitted - {id})
    case Readmit(id, h, d, version, now) => World(PutWithVersion(l.sha, w.shard, h, d, version, now).0, w.admitted - {id})
    case Remove(k) => w.(shard := Removed(w.shard, k))
    case Read(model, h, now) => w.(shard := Get(l.sha, w.shard, model, h, now).0)
    case Name(k) => w.(shard := w.shard.(policy := Named(w.shard.policy, k)))
  }

  ghost predicate CanRun(l: Load, w: World, run: seq<Action>)
    decreases |run|
  {
    run == [] || (Enabled(l, w, run[0]) && CanRun(l, Next(l, w, run[0]), run[1..]))
  }

  ghost function After(l: Load, w: World, run: seq<Action>): (r: World)
    requires CanRun(l, w, run)
    decreases |run|
  {
    if run == [] then w else After(l, Next(l, w, run[0]), run[1..])
  }

  /** How far the other handlers can overshoot. */
  function Slack(l: Load): (n: nat)
    ensures l.handlers <= 1 ==> n == 0
  {
    if l.handlers == 0 then 0 else (l.handlers - 1) * l.largest
  }

  /** Stored bytes and bytes on their way together stay under the ceiling plus the slack. */
  ghost predicate Bounded(l: Load, w: World) {
    && |w.admitted| <= l.handlers
    && (forall id :: id in w.admitted ==> 0 <= w.admitted[id] <= l.largest)
    && w.shard.bytes + Sum(w.admitted) <= w.shard.limits.maxBytes + Slack(l)
  }

  lemma {:induction false} CheckBounded(l: Load, w: World, id: nat, size: nat)
    requires Bounded(l, w) && Enabled(l, w, Check(id, size)) && w.shard.limits.maxBytes > 0
    ensures Bounded(l, Next(l, w, Check(id, size)))
  {
    var admitted := w.admitted[id := size];
    SumUpdate(w.admitted, id, size);
    SumAtMost(w.admitted, l.largest);
    assert admitted.Keys == w.admitted.Keys + {id};
    assert |admitted.Keys| == |admitted| && |w.admitted.Keys| == |w.admitted|;
    Fits(|w.admitted|, l.handlers, l.largest);
  }

  lemma {:induction false} Fits(n: nat, handlers: nat, largest: nat)
    requires n < handlers
    ensures n * largest <= (handlers - 1) * largest
    decreases handlers
  {
    if n < handlers - 1 {
      Fits(n, handlers - 1, largest);
      OneMore(handlers - 2, largest);
    }
  }

  lemma {:induction false} StoreBounded(l: Load, w: World, id: nat, shard: Shard)
    requires Bounded(l, w) && id in w.admitted
    requires shard.limits == w.shard.limits && shard.bytes <= w.shard.bytes + w.admitted[id]
    ensures Bounded(l, World(shard, w.admitted - {id}))
  {
    SumRemove(w.admitted, id);
    SmallerMap(w.admitted, id);
  }

  lemma {:induction false} NextBounded(l: Load, w: World, a: Action)
    requires Bounded(l, w) && Enabled(l, w, a) && w.shard.limits.maxBytes > 0
    ensures Bounded(l, Next(l, w, a)) && Next(l, w, a).shard.limits == w.shard.limits
  {
    match a {
      case Check(id, size) => CheckBounded(l, w, id, size);
      case Write(id, h, d, now) => StoreBounded(l, w, id, Put(l.sha, w.shard, h, d, now).0);
      case Readmit(id, h, d, version, now) => StoreBounded(l, w, id, PutWithVersion(l.sha, w.shard, h, d, version, now).0);
      case Remove(k) =>
      case Read(model, h, now) =>
      case Name(k) =>
    }
  }

  /** In every run without Replicate, whatever is written, overwritten, re-admitted, read or evicted,
      the shard stays within its ceiling plus one largest payload for every handler but one. */
  lemma {:induction false} OvershootBound(l: Load, w: World, run: seq<Action>)
    requires Bounded(l, w) && CanRun(l, w, run) && w.shard.limits.maxBytes > 0
    ensures var r := After(l, w, run);
            && Bounded(l, r) && r.shard.limits == w.shard.limits
            && r.shard.bytes <= w.shard.limits.maxBytes + Slack(l)
            && (l.handlers <= 1 ==> r.shard.bytes <= w.shard.limits.maxBytes)
    decreases |run|
  {
    if run == [] {
      SumNonNegative(w.admitted);
    } else {
      NextBounded(l, w, run[0]);
      OvershootBound(l, Next(l, w, run[0]), run[1..]);
    }
  }

  // --- the bound is attained -------------------------------------------------------------------

  function Block(size: nat): (d: Draft) {
    Draft([], [], Fill(size, 0), [], 1.0)
  }

  /** Handlers n-1 down to 0 store their blocks. */
  function Writes(l: Load, hs: seq<Digest>, n: nat): (run: seq<Action>)
    requires n <= |hs|
  {
    if n == 0 then [] else [Write(n - 1, hs[n - 1], Block(l.largest), 0)] + Writes(l, hs, n - 1)
  }

  /** Handlers from n up are admitted; then all of them store. */
  function ChecksThenWrites(l: Load, hs: seq<Digest>, n: nat): (run: seq<Action>)
    requires n <= |hs|
    decreases |hs| - n
  {
    if n == |hs| then Writes(l, hs, n) else [Check(n, l.largest)] + ChecksThenWrites(l, hs, n + 1)
  }

  ghost function AllAdmitted(n: nat, size: int): (m: map<nat, int>) {
    if n == 0 then map[] else AllAdmitted(n - 1, size)[n - 1 := size]
  }

  ghost predicate DistinctKeys(sha: Hasher, hs: seq<Digest>) {
    forall i, j :: 0 <= i < j < |hs| ==> StoreKey(sha, [], hs[i]) != StoreKey(sha, [], hs[j])
  }

  lemma {:induction false} AdmittedKeys(n: nat, size: int)
    ensures forall id :: id in AllAdmitted(n, size) <==> 0 <= id < n
    ensures |AllAdmitted(n, size)| == n
  {
    if n > 0 {
      AdmittedKeys(n - 1, size);
      var before, all := AllAdmitted(n - 1, size), AllAdmitted(n, size);
      assert all - {n - 1} == before;
      SmallerMap(all, n - 1);
    }
  }

  lemma {:induction false} AdmittedSteps(n: nat, size: int)
    ensures AllAdmitted(n + 1, size) == AllAdmitted(n, size)[n := size]
    ensures AllAdmitted(n + 1, size) - {n} == AllAdmitted(n, size)
    ensures n !in AllAdmitted(n, size) && |AllAdmitted(n, size)| == n
  {
    AdmittedKeys(n, size);
  }

  /** The blocks have different keys, and the shard holds none of the first n. Unfolded only where
      RoomAt is mentioned. */
  ghost predicate Room(sha: Hasher, hs: seq<Digest>, n: nat, s: Shard) {
    forall u: bool {:trigger RoomAt(sha, hs, n, s, u)} :: RoomAt(sha, hs, n, s, u)
  }

  ghost predicate RoomAt(sha: Hasher, hs: seq<Digest>, n: nat, s: Shard, u: bool) {
    n <= |hs| && DistinctKeys(sha, hs) && forall i :: 0 <= i < n ==> StoreKey(sha, [], hs[i]) !in s.entries
  }

  /** The stores of n admitted handlers, on n keys the shard does not hold, add n payloads. */
  lemma {:induction false} WritesFill(l: Load, hs: seq<Digest>, n: nat, s: Shard)
    requires n <= |hs| && Room(l.sha, hs, n, s)
    ensures var w := World(s, AllAdmitted(n, l.largest));
            Ends(l, w, Writes(l, hs, n), s.bytes + Chains.Covered(n, l.largest))
    decreases n
  {
    if n > 0 {
      var t := WriteAdds(l, hs, n, s);
      WritesFill(l, hs, n - 1, t);
      ThenEnds(l, World(s, AllAdmitted(n, l.largest)), Write(n - 1, hs[n - 1], Block(l.largest), 0),
               World(t, AllAdmitted(n - 1, l.largest)), Writes(l, hs, n - 1), t.bytes + Chains.Covered(n - 1, l.largest));
    } else {
      assert EndsAt(l, World(s, AllAdmitted(0, l.largest)), [], s.bytes, true);
    }
  }

  /** The run is possible and ends with so many bytes stored. This and Steps are unfolded only where
      their At forms are mentioned. */
  ghost predicate Ends(l: Load, w: World, run: seq<Action>, bytes: int) {
    forall u: bool {:trigger EndsAt(l, w, run, bytes, u)} :: EndsAt(l, w, run, bytes, u)
  }

  ghost predicate EndsAt(l: Load, w: World, run: seq<Action>, bytes: int, u: bool) {
    CanRun(l, w, run) && After(l, w, run).shard.bytes == bytes
  }

  ghost predicate Steps(l: Load, w: World, a: Action, w': World) {
    forall u: bool {:trigger StepsAt(l, w, a, w', u)} :: StepsAt(l, w, a, w', u)
  }

  ghost predicate StepsAt(l: Load, w: World, a: Action, w': World, u: bool) {
    Enabled(l, w, a) && Next(l, w, a) == w'
  }

  lemma {:induction false} ThenEnds(l: Load, w: World, a: Action, w': World, rest: seq<Action>, bytes: int)
    requires Steps(l, w, a, w') && Ends(l, w', rest, bytes)
    ensures Ends(l, w, [a] + rest, bytes)
  {
    assert StepsAt(l, w, a, w', true) && EndsAt(l, w', rest, bytes, true);
    assert ([a] + rest)[0] == a && ([a] + rest)[1..] == rest;
  }

  /** One of the stores. */
  lemma {:induction false} WriteAdds(l: Load, hs: seq<Digest>, n: nat, s: Shard) returns (t: Shard)
    requires 0 < n <= |hs| && Room(l.sha, hs, n, s)
    ensures Steps(l, World(s, AllAdmitted(n, l.largest)), Write(n - 1, hs[n - 1], Block(l.largest), 0),
                  World(t, AllAdmitted(n - 1, l.largest)))
    ensures t.bytes == s.bytes + l.largest && Room(l.sha, hs, n - 1, t)
  {
    t := Put(l.sha, s, hs[n - 1], Block(l.largest), 0).0;
    FitsNext(l.sha, hs, n, s, l.largest);
    WriteSteps(l, n, s, hs[n - 1]);
  }

  lemma {:induction false} WriteSteps(l: Load, n: nat, s: Shard, h: Digest)
    requires n > 0
    ensures Steps(l, World(s, AllAdmitted(n, l.largest)), Write(n - 1, h, Block(l.largest), 0),
                  World(Put(l.sha, s, h, Block(l.largest), 0).0, AllAdmitted(n - 1, l.largest)))
  {
    AdmittedSteps(n - 1, l.largest);
  }

  lemma {:induction false} FitsNext(sha: Hasher, hs: seq<Digest>, n: nat, s: Shard, size: nat)
    requires 0 < n <= |hs| && Room(sha, hs, n, s)
    ensures var t := Put(sha, s, hs[n - 1], Block(size), 0).0;
            t.bytes == s.bytes + size && Room(sha, hs, n - 1, t)
  {
    assert RoomAt(sha, hs, n, s, true);
    var t := Put(sha, s, hs[n - 1], Block(size), 0).0;
    assert t.entries.Keys == s.entries.Keys + {StoreKey(sha, [], hs[n - 1])};
  }

  lemma {:induction false} CheckPasses(l: Load, n: nat, s: Shard)
    requires n < l.handlers && !OverHardLimit(s, l.largest)
    ensures Steps(l, World(s, AllAdmitted(n, l.largest)), Check(n, l.largest), World(s, AllAdmitted(n + 1, l.largest)))
  {
    AdmittedSteps(n, l.largest);
  }

  lemma {:induction false} ChecksPass(l: Load, hs: seq<Digest>, n: nat, s: Shard)
    requires n <= |hs| == l.handlers && Room(l.sha, hs, |hs|, s) && !OverHardLimit(s, l.largest)
    ensures var w := World(s, AllAdmitted(n, l.largest));
            Ends(l, w, ChecksThenWrites(l, hs, n), s.bytes + Chains.Covered(l.handlers, l.largest))
    decreases |hs| - n
  {
    if n == |hs| {
      WritesFill(l, hs, n, s);
    } else {
      CheckPasses(l, n, s);
      ChecksPass(l, hs, n + 1, s);
      ThenEnds(l, World(s, AllAdmitted(n, l.largest)), Check(n, l.largest), World(s, AllAdmitted(n + 1, l.largest)),
               ChecksThenWrites(l, hs, n + 1), s.bytes + Chains.Covered(l.handlers, l.largest));
    }
  }

  /** For every number of handlers and every payload size some run reaches the bound exactly: all
      check an empty shard that has room for one, then all store. */
  lemma {:induction false} BoundIsAttained(l: Load, hs: seq<Digest>, s: Shard)
    requires |hs| == l.handlers > 0 && l.largest > 0 && DistinctKeys(l.sha, hs)
    requires s.entries == map[] && s.bytes == 0 && s.limits.maxBytes == l.largest
    ensures var w, run := World(s, map[]), ChecksThenWrites(l, hs, 0);
            && Bounded(l, w) && CanRun(l, w, run)
            && After(l, w, run).shard.bytes == s.limits.maxBytes + Slack(l)
  {
    assert RoomAt(l.sha, hs, |hs|, s, true);
    ChecksPass(l, hs, 0, s);
    assert EndsAt(l, World(s, map[]), ChecksThenWrites(l, hs, 0), Chains.Covered(l.handlers, l.largest), true);
    SlackPlusOne(l);
    Chains.CoveredIsProduct(l.handlers, l.largest);
    var nobody: map<nat, int> := map[];
    assert Sum(nobody) == 0;
  }

  lemma {:induction false} SlackPlusOne(l: Load)
    requires l.handlers > 0
    ensures l.handlers * l.largest == Slack(l) + l.largest
  {
    OneMore(l.handlers - 1, l.largest);
  }

  /** Replicate stores without asking: from any shard and for any bound, one delivery of a new block
      passes it. */
  lemma {:induction false} ReplicateHasNoCeiling(sha: Hasher, s: Shard, h: Digest, bound: nat)
    requires StoreKey(sha, [], h) !in s.entries && s.bytes >= 0
    ensures PutWithVersion(sha, s, h, Block(bound + 1), 1, 0).0.bytes > bound
  {
    assert |Block(bound + 1).kv| == bound + 1;
  }
}
