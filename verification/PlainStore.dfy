/** The shard against the simplest store there is: one map from (model, hash) to entry. */
module PlainStore {
  import opened Bytes
  import opened Sums
  import G = GdsfSpec
  import opened StoreSpec

  // No digests, no stripes and no policy. Every interleaving of the shard's critical sections is a
  // run of single operations; naming a victim and evicting it are two.

  type Pair = (Blob, Digest)
  type Plain = map<Pair, Entry>

  datatype Op =
    | OpPut(h: Digest, d: Draft, now: int)
    | OpPutWithVersion(h: Digest, d: Draft, version: U64, now: int)
    | OpGet(model: Blob, h: Digest, now: int)
    | OpDelete(model: Blob, h: Digest)
    | OpVictim(k: Digest)
    | OpEvict(k: Digest)

  /** What the caller gets back. */
  datatype Output = Version(v: U64) | Found(e: Option<Entry>) | Gone(b: bool) | Nothing

  // --- the shard -------------------------------------------------------------------------------

  ghost predicate Enabled(s: Shard, op: Op) {
    op.OpVictim? ==> PolicyOk(s.policy) && Names(s.policy, op.k)
  }

  ghost function Step(sha: Hasher, s: Shard, op: Op): (r: (Shard, Output))
    requires Enabled(s, op)
  {
    match op
    case OpPut(h, d, now) => var (t, v) := Put(sha, s, h, d, now); (t, Version(v))
    case OpPutWithVersion(h, d, version, now) => var (t, v) := PutWithVersion(sha, s, h, d, version, now); (t, Version(v))
    case OpGet(model, h, now) => var (t, e) := Get(sha, s, model, h, now); (t, Found(e))
    case OpDelete(model, h) => var (t, b) := Delete(sha, s, model, h); (t, Gone(b))
    case OpVictim(k) => (s.(policy := Named(s.policy, k)), Nothing)
    case OpEvict(k) => (Removed(s, k), Nothing)
  }

  ghost predicate CanRun(sha: Hasher, s: Shard, ops: seq<Op>)
    decreases |ops|
  {
    ops == [] || (Enabled(s, ops[0]) && CanRun(sha, Step(sha, s, ops[0]).0, ops[1..]))
  }

  ghost function After(sha: Hasher, s: Shard, ops: seq<Op>): (r: Shard)
    requires CanRun(sha, s, ops)
    decreases |ops|
  {
    if ops == [] then s else After(sha, Step(sha, s, ops[0]).0, ops[1..])
  }

  ghost function Outputs(sha: Hasher, s: Shard, ops: seq<Op>): (r: seq<Output>)
    requires CanRun(sha, s, ops)
    decreases |ops|
  {
    if ops == [] then [] else [Step(sha, s, ops[0]).1] + Outputs(sha, Step(sha, s, ops[0]).0, ops[1..])
  }

  // --- the plain map ---------------------------------------------------------------------------

  function PlainPut(m: Plain, p: Pair, d: Draft, version: U64, now: int): (r: Plain) {
    m[p := StoreSpec.Fresh(d, p.1, version, if p in m then m[p].created else now)]
  }

  ghost function PlainStep(sha: Hasher, m: Plain, op: Op): (r: (Plain, Output)) {
    match op
    case OpPut(h, d, now) =>
      var p := (d.model, h);
      var version := if p in m then NextVersion(m[p].version) else 1;
      (PlainPut(m, p, d, version, now), Version(version))
    case OpPutWithVersion(h, d, version, now) =>
      var p := (d.model, h);
      if version == 0 then (m, Version(0))
      else if p in m && m[p].version >= version then (m, Version(m[p].version))
      else (PlainPut(m, p, d, version, now), Version(version))
    case OpGet(model, h, now) =>
      var p := (model, h);
      if p !in m then (m, Found(None)) else (m[p := Used(m[p], now)], Found(Some(Used(m[p], now))))
    case OpDelete(model, h) => (m - {(model, h)}, Gone((model, h) in m))
    case OpVictim(k) => (m, Nothing)
    case OpEvict(k) => (map p | p in m && StoreKey(sha, p.0, p.1) != k :: m[p], Nothing)
  }

  ghost function PlainAfter(sha: Hasher, m: Plain, ops: seq<Op>): (r: Plain)
    decreases |ops|
  {
    if ops == [] then m else PlainAfter(sha, PlainStep(sha, m, ops[0]).0, ops[1..])
  }

  ghost function PlainOutputs(sha: Hasher, m: Plain, ops: seq<Op>): (r: seq<Output>)
    decreases |ops|
  {
    if ops == [] then [] else [PlainStep(sha, m, ops[0]).1] + PlainOutputs(sha, PlainStep(sha, m, ops[0]).0, ops[1..])
  }

  // --- the relation ----------------------------------------------------------------------------

  ghost predicate PairIn(sha: Hasher, entries: map<Digest, Entry>, m: Plain, p: Pair)
    requires p in m
  {
    var k := StoreKey(sha, p.0, p.1);
    k in entries && entries[k] == m[p] && m[p].model == p.0 && m[p].wire == p.1
  }

  ghost predicate KeyIn(sha: Hasher, entries: map<Digest, Entry>, m: Plain, k: Digest)
    requires k in entries
  {
    var e := entries[k];
    k == StoreKey(sha, e.model, e.wire) && (e.model, e.wire) in m
  }

  /** The digests stand for exactly the pairs of the plain map. */
  ghost predicate Represents(sha: Hasher, entries: map<Digest, Entry>, m: Plain) {
    && (forall p {:trigger PairIn(sha, entries, m, p)} :: p in m ==> PairIn(sha, entries, m, p))
    && (forall k {:trigger KeyIn(sha, entries, m, k)} :: k in entries ==> KeyIn(sha, entries, m, k))
  }

  /** Every pair of the map is one of the named inputs. */
  ghost predicate Within(m: Plain, inputs: set<Blob>) {
    forall p :: p in m ==> KeyInput(p.0, p.1) in inputs
  }

  ghost function InputOf(op: Op): (r: set<Blob>) {
    match op
    case OpPut(h, d, _) => {KeyInput(d.model, h)}
    case OpPutWithVersion(h, d, _, _) => {KeyInput(d.model, h)}
    case OpGet(model, h, _) => {KeyInput(model, h)}
    case OpDelete(model, h) => {KeyInput(model, h)}
    case _ => {}
  }

  ghost function InputsOf(ops: seq<Op>): (r: set<Blob>) {
    if ops == [] then {} else InputOf(ops[0]) + InputsOf(ops[1..])
  }

  lemma {:induction false} SameKey(sha: Hasher, inputs: set<Blob>, p: Pair, q: Pair)
    requires CollisionFreeOn(sha, inputs) && KeyInput(p.0, p.1) in inputs && KeyInput(q.0, q.1) in inputs
    ensures StoreKey(sha, p.0, p.1) == StoreKey(sha, q.0, q.1) <==> p == q
  {
    StoreKeyInjective(sha, p.0, p.1, q.0, q.1);
  }

  /** A pair is in the map exactly when its digest is in the shard, and then they agree. */
  lemma {:induction false} LooksUp(sha: Hasher, inputs: set<Blob>, entries: map<Digest, Entry>, m: Plain, p: Pair)
    requires CollisionFreeOn(sha, inputs) && Represents(sha, entries, m) && Within(m, inputs) && KeyInput(p.0, p.1) in inputs
    ensures var k := StoreKey(sha, p.0, p.1);
            (k in entries <==> p in m) && (p in m ==> entries[k] == m[p] && m[p].model == p.0 && m[p].wire == p.1)
  {
    var k := StoreKey(sha, p.0, p.1);
    if k in entries {
      assert KeyIn(sha, entries, m, k);
      SameKey(sha, inputs, p, (entries[k].model, entries[k].wire));
    }
    if p in m {
      assert PairIn(sha, entries, m, p);
    }
  }

  lemma {:induction false} SetKeeps(sha: Hasher, inputs: set<Blob>, entries: map<Digest, Entry>, m: Plain, p: Pair, e: Entry)
    requires CollisionFreeOn(sha, inputs) && Represents(sha, entries, m) && Within(m, inputs) && KeyInput(p.0, p.1) in inputs
    requires e.model == p.0 && e.wire == p.1
    ensures Represents(sha, entries[StoreKey(sha, p.0, p.1) := e], m[p := e]) && Within(m[p := e], inputs)
  {
    var k := StoreKey(sha, p.0, p.1);
    var entries', m' := entries[k := e], m[p := e];
    forall q | q in m' ensures PairIn(sha, entries', m', q) {
      SameKey(sha, inputs, p, q);
      if q != p {
        assert PairIn(sha, entries, m, q);
      }
    }
    forall j | j in entries' ensures KeyIn(sha, entries', m', j) {
      if j != k {
        assert KeyIn(sha, entries, m, j);
      }
    }
  }

  /** Dropping a digest drops the pairs it stands for. */
  lemma {:induction false} DropKeeps(sha: Hasher, entries: map<Digest, Entry>, m: Plain, k: Digest)
    requires Represents(sha, entries, m)
    ensures Represents(sha, entries - {k}, map p | p in m && StoreKey(sha, p.0, p.1) != k :: m[p])
  {
    var entries', m' := entries - {k}, map p | p in m && StoreKey(sha, p.0, p.1) != k :: m[p];
    forall q | q in m' ensures PairIn(sha, entries', m', q) {
      assert PairIn(sha, entries, m, q);
    }
    forall j | j in entries' ensures KeyIn(sha, entries', m', j) {
      assert KeyIn(sha, entries, m, j);
    }
  }

  lemma {:induction false} WithoutPair(sha: Hasher, inputs: set<Blob>, m: Plain, p: Pair)
    requires CollisionFreeOn(sha, inputs) && Within(m, inputs) && KeyInput(p.0, p.1) in inputs
    ensures m - {p} == map q | q in m && StoreKey(sha, q.0, q.1) != StoreKey(sha, p.0, p.1) :: m[q]
  {
    forall q | q in m ensures StoreKey(sha, q.0, q.1) != StoreKey(sha, p.0, p.1) <==> q != p {
      SameKey(sha, inputs, p, q);
    }
  }

  lemma {:induction false} NothingToDrop(sha: Hasher, entries: map<Digest, Entry>, m: Plain, k: Digest)
    requires Represents(sha, entries, m) && k !in entries
    ensures (map p | p in m && StoreKey(sha, p.0, p.1) != k :: m[p]) == m && entries - {k} == entries
  {
    forall p | p in m ensures StoreKey(sha, p.0, p.1) != k {
      assert PairIn(sha, entries, m, p);
    }
  }

  /** One operation on the shard is the same operation on the plain map, with the same answer. */
  lemma {:induction false} StepRefines(sha: Hasher, inputs: set<Blob>, s: Shard, m: Plain, op: Op)
    requires CollisionFreeOn(sha, inputs) && InputOf(op) <= inputs && Within(m, inputs)
    requires Enabled(s, op) && Represents(sha, s.entries, m)
    ensures var (t, out), (m', out') := Step(sha, s, op), PlainStep(sha, m, op);
            Represents(sha, t.entries, m') && Within(m', inputs) && out == out'
  {
    match op {
      case OpPut(h, d, now) =>
        PutRefines(sha, inputs, s, m, h, d, now);
      case OpPutWithVersion(h, d, version, now) =>
        PutRefines(sha, inputs, s, m, h, d, now);
        var k, p := StoreKey(sha, d.model, h), (d.model, h);
        LooksUp(sha, inputs, s.entries, m, p);
        var created := if p in m then m[p].created else now;
        SetKeeps(sha, inputs, s.entries, m, p, StoreSpec.Fresh(d, h, version, created));
      case OpGet(model, h, now) =>
        var p := (model, h);
        LooksUp(sha, inputs, s.entries, m, p);
        if p in m {
          SetKeeps(sha, inputs, s.entries, m, p, Used(m[p], now));
        }
      case OpDelete(model, h) =>
        DeleteRefines(sha, inputs, s, m, model, h);
      case OpVictim(k) =>
      case OpEvict(k) =>
        EvictRefines(sha, s, m, k);
    }
  }

  lemma {:induction false} PutRefines(sha: Hasher, inputs: set<Blob>, s: Shard, m: Plain, h: Digest, d: Draft, now: int)
    requires CollisionFreeOn(sha, inputs) && Represents(sha, s.entries, m) && Within(m, inputs) && KeyInput(d.model, h) in inputs
    ensures var (t, v), (m', out) := Put(sha, s, h, d, now), PlainStep(sha, m, OpPut(h, d, now));
            Represents(sha, t.entries, m') && Within(m', inputs) && out == Version(v)
  {
    var p := (d.model, h);
    LooksUp(sha, inputs, s.entries, m, p);
    var version := if p in m then NextVersion(m[p].version) else 1;
    var created := if p in m then m[p].created else now;
    SetKeeps(sha, inputs, s.entries, m, p, StoreSpec.Fresh(d, h, version, created));
  }

  lemma {:induction false} EvictRefines(sha: Hasher, s: Shard, m: Plain, k: Digest)
    requires Represents(sha, s.entries, m)
    ensures Represents(sha, Removed(s, k).entries, map p | p in m && StoreKey(sha, p.0, p.1) != k :: m[p])
  {
    DropKeeps(sha, s.entries, m, k);
    if k !in s.entries {
      NothingToDrop(sha, s.entries, m, k);
    }
  }

  lemma {:induction false} DeleteRefines(sha: Hasher, inputs: set<Blob>, s: Shard, m: Plain, model: Blob, h: Digest)
    requires CollisionFreeOn(sha, inputs) && Represents(sha, s.entries, m) && Within(m, inputs) && KeyInput(model, h) in inputs
    ensures Represents(sha, Delete(sha, s, model, h).0.entries, m - {(model, h)})
    ensures Delete(sha, s, model, h).1 <==> (model, h) in m
  {
    var p, k := (model, h), StoreKey(sha, model, h);
    LooksUp(sha, inputs, s.entries, m, p);
    WithoutPair(sha, inputs, m, p);
    EvictRefines(sha, s, m, k);
    if p !in m {
      assert m - {p} == m;
    }
  }

  /** The shard refines the plain map over whole runs: same answers throughout, same contents at the
      end. */
  lemma {:induction false} RunRefines(sha: Hasher, inputs: set<Blob>, s: Shard, m: Plain, ops: seq<Op>)
    requires CollisionFreeOn(sha, inputs) && InputsOf(ops) <= inputs && Within(m, inputs)
    requires CanRun(sha, s, ops) && Represents(sha, s.entries, m)
    ensures Represents(sha, After(sha, s, ops).entries, PlainAfter(sha, m, ops))
    ensures Outputs(sha, s, ops) == PlainOutputs(sha, m, ops)
    decreases |ops|
  {
    if ops != [] {
      StepRefines(sha, inputs, s, m, ops[0]);
      RunRefines(sha, inputs, Step(sha, s, ops[0]).0, PlainStep(sha, m, ops[0]).0, ops[1..]);
    }
  }

  /** From an empty shard, nothing but the run's own names has to be collision free. */
  lemma {:induction false} ShardIsAPlainMap(sha: Hasher, s: Shard, ops: seq<Op>)
    requires s.entries == map[] && CanRun(sha, s, ops) && CollisionFreeOn(sha, InputsOf(ops))
    ensures Represents(sha, After(sha, s, ops).entries, PlainAfter(sha, map[], ops))
    ensures Outputs(sha, s, ops) == PlainOutputs(sha, map[], ops)
  {
    RunRefines(sha, InputsOf(ops), s, map[], ops);
  }

  // --- accounting over runs --------------------------------------------------------------------

  lemma {:induction false} StepSound(sha: Hasher, s: Shard, op: Op)
    requires Sound(s) && Enabled(s, op)
    ensures Sound(Step(sha, s, op).0)
  {
    match op {
      case OpPut(h, d, now) =>
        var k := StoreKey(sha, d.model, h);
        var version := if k in s.entries then NextVersion(s.entries[k].version) else 1;
        StoredSound(s, k, StoreSpec.Fresh(d, h, version, if k in s.entries then s.entries[k].created else now));
      case OpPutWithVersion(h, d, version, now) =>
        var k := StoreKey(sha, d.model, h);
        StoredSound(s, k, StoreSpec.Fresh(d, h, version, if k in s.entries then s.entries[k].created else now));
      case OpGet(model, h, now) => GetSound(sha, s, model, h, now);
      case OpDelete(model, h) => RemovedSound(s, StoreKey(sha, model, h));
      case OpVictim(k) => NamedSound(s, k);
      case OpEvict(k) => RemovedSound(s, k);
    }
  }

  lemma {:induction false} RunSound(sha: Hasher, s: Shard, ops: seq<Op>)
    requires Sound(s) && CanRun(sha, s, ops)
    ensures Sound(After(sha, s, ops))
    decreases |ops|
  {
    if ops != [] {
      StepSound(sha, s, ops[0]);
      RunSound(sha, Step(sha, s, ops[0]).0, ops[1..]);
    }
  }

  /** Conservation over every run: the policy tracks exactly the resident keys, and the atomic
      counter is the resident bytes; under GDSF it is also the sum of the tenants' totals. */
  lemma {:induction false} AccountsAgree(sha: Hasher, s: Shard, ops: seq<Op>, tenants: set<Blob>)
    requires Sound(s) && CanRun(sha, s, ops)
    ensures var t := After(sha, s, ops);
            && (t.policy.Noop? || Tracked(t.policy) == t.entries.Keys)
            && t.bytes == Sum(EntrySizes(t.entries))
            && (t.policy.GdsfState? && (forall k :: k in t.entries ==> t.entries[k].tenant in tenants) ==>
                t.bytes == Sum(G.Totals(t.policy.g.items, tenants)))
  {
    RunSound(sha, s, ops);
    var t := After(sha, s, ops);
    assert SoundAt(t, true);
    if t.policy.GdsfState? && forall k :: k in t.entries ==> t.entries[k].tenant in tenants {
      BytesAgree(t, tenants);
    }
  }
}
