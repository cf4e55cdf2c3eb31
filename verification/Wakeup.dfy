/** No lost wakeup: writers, deleters and the evictor interleaved action by action. */
module Wakeup {
  import opened Bytes
  import opened Sums
  import G = GdsfSpec
  import opened StoreSpec

  // --- the machine -----------------------------------------------------------------------------

  // A writer holds its stripe from the moment it publishes until it has decided about the nudge
  // (internal/cache/store.go). The counter and the policy are shared by all stripes, and the evictor
  // (internal/cache/evictor.go) reads them without any stripe lock.

  /** What the holder of a stripe lock does next. A writer goes through the first four; a deleter
      only has its bytes left to subtract. */
  datatype Op =
    | Adding(delta: int)    // entry and policy updated, counter not yet
    | Loading               // about to compare the counter with high water
    | Asking                // below high water; about to ask about quotas
    | Sending               // pressure seen; about to nudge
    | Subtracting(size: nat)

  /** What the evictor goes back to after an eviction. */
  datatype Task = Draining | Sweeping(rest: set<Digest>)

  datatype Evictor =
    | Idle
    | CheckBytes | CheckQuota | Choosing                // the drain loop
    | Sweep(rest: set<Digest>)                          // the TTL sweep
    | Evicting(k: Digest, task: Task)                   // victim known, waiting for its stripe
    | Freeing(k: Digest, size: nat, task: Task)         // out of the map, counter not yet updated
    | Forgetting(k: Digest, task: Task)                 // counter updated, policy not yet

  datatype World = World(
    entries: map<Digest, Entry>, policy: Policy, counter: int, sig: bool, limits: Limits,
    ops: map<nat, Op>, pc: Evictor)

  datatype Action =
    | Publish(k: Digest, e: Entry) | AddBytes(i: nat) | LoadBytes(i: nat) | AskQuota(i: nat) | Send(i: nat)
    | Remove(k: Digest) | SubtractBytes(i: nat)
    | Read(k: Digest, now: int)
    | Wake | TestBytes | TestQuota | Choose(k: Digest) | RunDry
    | BeginSweep(victims: set<Digest>) | NextSweep(k: Digest) | EndSweep
    | LockVictim | FreeBytes | Forget

  function Held(pc: Evictor): (r: Option<Digest>) {
    match pc
    case Freeing(k, _, _) => Some(k)
    case Forgetting(k, _) => Some(k)
    case _ => None
  }

  /** Nobody holds the stripe of k. */
  predicate Free(w: World, k: Digest) {
    var i := StripeOf(k);
    i !in w.ops && (Held(w.pc).Some? ==> StripeOf(Held(w.pc).value) != i)
  }

  predicate High(limits: Limits, counter: int) {
    limits.maxBytes > 0 && counter >= limits.hiWater
  }

  ghost predicate NoVictim(p: Policy) {
    PolicyOk(p) && forall k :: !Names(p, k)
  }

  ghost predicate Enabled(w: World, a: Action) {
    match a
    case Publish(k, e) => Free(w, k)
    case AddBytes(i) => i in w.ops && w.ops[i].Adding?
    case LoadBytes(i) => i in w.ops && w.ops[i].Loading?
    case AskQuota(i) => i in w.ops && w.ops[i].Asking?
    case Send(i) => i in w.ops && w.ops[i].Sending?
    case Remove(k) => k in w.entries && Free(w, k)
    case SubtractBytes(i) => i in w.ops && w.ops[i].Subtracting?
    case Read(k, now) => k in w.entries && Free(w, k)
    case Wake => w.pc.Idle? && w.sig
    case TestBytes => w.pc.CheckBytes?
    case TestQuota => w.pc.CheckQuota?
    case Choose(k) => w.pc.Choosing? && PolicyOk(w.policy) && Names(w.policy, k)
    case RunDry => w.pc.Choosing? && NoVictim(w.policy)
    case BeginSweep(victims) => w.pc.Idle?
    case NextSweep(k) => w.pc.Sweep? && k in w.pc.rest
    case EndSweep => w.pc.Sweep? && w.pc.rest == {}
    case LockVictim => w.pc.Evicting? && Free(w, w.pc.k)
    case FreeBytes => w.pc.Freeing?
    case Forget => w.pc.Forgetting?
  }

  function Resume(task: Task): (pc: Evictor) {
    match task
    case Draining => CheckBytes
    case Sweeping(rest) => Sweep(rest)
  }

  function OldSize(entries: map<Digest, Entry>, k: Digest): (n: nat) {
    if k in entries then SizeOf(entries[k]) else 0
  }

  ghost function Next(w: World, a: Action): (r: World)
    requires Enabled(w, a)
    ensures r.limits == w.limits
  {
    match a
    case Publish(k, e) =>
      var delta: int := SizeOf(e) - OldSize(w.entries, k);
      w.(entries := w.entries[k := e], policy := Recorded(w.policy, MetaOf(k, e)),
         ops := w.ops[StripeOf(k) := Adding(delta)])
    case AddBytes(i) => w.(counter := w.counter + w.ops[i].delta, ops := w.ops[i := Loading])
    case LoadBytes(i) => w.(ops := w.ops[i := if High(w.limits, w.counter) then Sending else Asking])
    case AskQuota(i) => w.(ops := if QuotaPressure(w.policy) then w.ops[i := Sending] else w.ops - {i})
    case Send(i) => w.(sig := true, ops := w.ops - {i})
    case Remove(k) =>
      w.(entries := w.entries - {k}, policy := Dropped(w.policy, k),
         ops := w.ops[StripeOf(k) := Subtracting(SizeOf(w.entries[k]))])
    case SubtractBytes(i) => w.(counter := w.counter - w.ops[i].size, ops := w.ops - {i})
    case Read(k, now) => w.(entries := w.entries[k := Used(w.entries[k], now)], policy := Hit(w.policy, k))
    case Wake => w.(sig := false, pc := CheckBytes)
    case TestBytes => w.(pc := if w.limits.maxBytes > 0 && w.counter > w.limits.loWater then Choosing else CheckQuota)
    case TestQuota => w.(pc := if QuotaPressure(w.policy) then Choosing else Idle)
    case Choose(k) => w.(policy := Named(w.policy, k), pc := Evicting(k, Draining))
    case RunDry => w.(pc := Idle)
    case BeginSweep(victims) => w.(pc := Sweep(victims))
    case NextSweep(k) => w.(pc := Evicting(k, Sweeping(w.pc.rest - {k})))
    case EndSweep => w.(pc := Idle)
    case LockVictim =>
      if w.pc.k !in w.entries then w.(pc := Resume(w.pc.task))
      else w.(entries := w.entries - {w.pc.k}, pc := Freeing(w.pc.k, SizeOf(w.entries[w.pc.k]), w.pc.task))
    case FreeBytes => w.(counter := w.counter - w.pc.size, pc := Forgetting(w.pc.k, w.pc.task))
    case Forget => w.(policy := Dropped(w.policy, w.pc.k), pc := Resume(w.pc.task))
  }

  ghost predicate CanRun(w: World, run: seq<Action>)
    decreases |run|
  {
    run == [] || (Enabled(w, run[0]) && CanRun(Next(w, run[0]), run[1..]))
  }

  ghost function After(w: World, run: seq<Action>): (r: World)
    requires CanRun(w, run)
    decreases |run|
  {
    if run == [] then w else After(Next(w, run[0]), run[1..])
  }

  ghost function Start(policy: Policy, limits: Limits): (w: World) {
    World(map[], policy, 0, false, limits, map[], Idle)
  }

  /** A store just built with LRU or GDSF. */
  ghost predicate FreshPolicy(policy: Policy) {
    !policy.Noop? && PolicyOk(policy) && Tracked(policy) == {}
  }

  // --- the claim -------------------------------------------------------------------------------

  ghost predicate Pressure(w: World) {
    High(w.limits, w.counter) || QuotaPressure(w.policy)
  }

  /** The evictor is inside its drain loop. */
  predicate InDrain(pc: Evictor) {
    match pc
    case CheckBytes => true
    case CheckQuota => true
    case Choosing => true
    case Evicting(_, task) => task.Draining?
    case Freeing(_, _, task) => task.Draining?
    case Forgetting(_, task) => task.Draining?
    case _ => false
  }

  /** Some writer is between its update and its signal. */
  ghost predicate Writing(ops: map<nat, Op>) {
    exists i :: i in ops && !ops[i].Subtracting?
  }

  /** Bytes of deleted blocks that the counter still shows, per stripe. */
  ghost function Departures(ops: map<nat, Op>): (m: map<nat, int>) {
    map i | i in ops && ops[i].Subtracting? :: ops[i].size
  }

  /** Somebody will look. */
  ghost predicate Attended(w: World) {
    w.sig || InDrain(w.pc) || Writing(w.ops)
  }

  /** The strict claim: pressure means that a nudge is pending, the evictor is draining, or a writer
      is between its update and its signal. */
  ghost predicate Watched(w: World) {
    Pressure(w) ==> Attended(w)
  }

  /** The claim with deletes allowed: quota pressure is always attended to, and so is every byte at or
      above high water that no delete in flight is about to take off the counter. */
  ghost predicate Awake(w: World) {
    QuotaPressure(w.policy) || High(w.limits, w.counter - Sum(Departures(w.ops))) ==> Attended(w)
  }

  // --- bytes on their way ----------------------------------------------------------------------

  /** What the counter still has to move by. */
  function Pending(op: Op): (r: int) {
    match op
    case Adding(delta) => delta
    case Subtracting(size) => 0 - size as int
    case _ => 0
  }

  /** How much of that is downwards. */
  function Debt(op: Op): (r: nat)
    ensures Pending(op) + r >= 0
  {
    if Pending(op) < 0 then -Pending(op) else 0
  }

  ghost function Pendings(ops: map<nat, Op>): (m: map<nat, int>) {
    map i | i in ops :: Pending(ops[i])
  }

  ghost function Debts(ops: map<nat, Op>): (m: map<nat, int>) {
    map i | i in ops :: Debt(ops[i])
  }

  function EvictorDebt(pc: Evictor): (n: nat) {
    if pc.Freeing? then pc.size else 0
  }

  function PendingAt(ops: map<nat, Op>, i: nat): (r: int) {
    if i in ops then Pending(ops[i]) else 0
  }

  function DebtAt(ops: map<nat, Op>, i: nat): (r: int) {
    if i in ops then Debt(ops[i]) else 0
  }

  lemma {:induction false} OpSet(ops: map<nat, Op>, i: nat, op: Op)
    ensures Sum(Pendings(ops[i := op])) == Sum(Pendings(ops)) - PendingAt(ops, i) + Pending(op)
    ensures Sum(Debts(ops[i := op])) == Sum(Debts(ops)) - DebtAt(ops, i) + Debt(op)
  {
    assert Pendings(ops[i := op]) == Pendings(ops)[i := Pending(op)];
    assert Debts(ops[i := op]) == Debts(ops)[i := Debt(op)];
    SumUpdate(Pendings(ops), i, Pending(op));
    SumUpdate(Debts(ops), i, Debt(op));
  }

  lemma {:induction false} OpDone(ops: map<nat, Op>, i: nat)
    ensures Sum(Pendings(ops - {i})) == Sum(Pendings(ops)) - PendingAt(ops, i)
    ensures Sum(Debts(ops - {i})) == Sum(Debts(ops)) - DebtAt(ops, i)
  {
    assert Pendings(ops - {i}) == Pendings(ops) - {i};
    assert Debts(ops - {i}) == Debts(ops) - {i};
    SumRemove(Pendings(ops), i);
    SumRemove(Debts(ops), i);
  }

  lemma {:induction false} DebtCovers(ops: map<nat, Op>)
    ensures Sum(Pendings(ops)) + Sum(Debts(ops)) >= 0 && Sum(Debts(ops)) >= 0
    decreases |ops|
  {
    if ops == map[] {
      assert Pendings(ops) == map[] && Debts(ops) == map[];
    } else {
      var i :| i in ops;
      SmallerMap(ops, i);
      DebtCovers(ops - {i});
      OpDone(ops, i);
    }
  }

  /** With no writer around, what is owed is what deletes have yet to take off. */
  lemma {:induction false} DebtsAreDepartures(ops: map<nat, Op>)
    ensures !Writing(ops) ==> Debts(ops) == Departures(ops)
    ensures Signalling(ops) ==> Writing(ops)
  {
  }

  // --- invariants ------------------------------------------------------------------------------

  /** The counter is the resident bytes, up to what is on its way. */
  ghost predicate CountedIn(entries: map<Digest, Entry>, counter: int, ops: map<nat, Op>, pc: Evictor) {
    forall u: bool {:trigger Counted(entries, counter, ops, pc, u)} :: Counted(entries, counter, ops, pc, u)
  }

  ghost predicate Counted(entries: map<Digest, Entry>, counter: int, ops: map<nat, Op>, pc: Evictor, u: bool) {
    counter + Sum(Pendings(ops)) - EvictorDebt(pc) == Sum(EntrySizes(entries))
  }

  ghost function HeldSet(pc: Evictor): (r: set<Digest>) {
    if Held(pc).Some? then {Held(pc).value} else {}
  }

  /** The policy tracks the resident keys and the one the evictor is about to forget. */
  ghost predicate TracksIn(policy: Policy, entries: map<Digest, Entry>, pc: Evictor) {
    forall u: bool {:trigger Tracks(policy, entries, pc, u)} :: Tracks(policy, entries, pc, u)
  }

  ghost predicate Tracks(policy: Policy, entries: map<Digest, Entry>, pc: Evictor, u: bool) {
    && !policy.Noop? && PolicyOk(policy) && Tracked(policy) == entries.Keys + HeldSet(pc)
    && (policy.GdsfState? ==> forall k :: k in policy.g.items ==> policy.g.items[k].size >= 0)
  }

  ghost predicate LockedIn(entries: map<Digest, Entry>, ops: map<nat, Op>, pc: Evictor) {
    forall u: bool {:trigger Locked(entries, ops, pc, u)} :: Locked(entries, ops, pc, u)
  }

  ghost predicate Locked(entries: map<Digest, Entry>, ops: map<nat, Op>, pc: Evictor, u: bool) {
    Held(pc).Some? ==> Held(pc).value !in entries && StripeOf(Held(pc).value) !in ops
  }

  ghost predicate Signalling(ops: map<nat, Op>) {
    exists i :: i in ops && (ops[i].Loading? || ops[i].Sending?)
  }

  /** Past its byte test, or not draining at all. */
  predicate Relaxed(pc: Evictor) {
    pc.CheckQuota? || !InDrain(pc)
  }

  ghost predicate BytesIn(limits: Limits, counter: int, sig: bool, ops: map<nat, Op>, pc: Evictor) {
    forall u: bool {:trigger BytesWatched(limits, counter, sig, ops, pc, u)} :: BytesWatched(limits, counter, sig, ops, pc, u)
  }

  ghost predicate BytesWatched(limits: Limits, counter: int, sig: bool, ops: map<nat, Op>, pc: Evictor, u: bool) {
    sig || !Relaxed(pc) || Signalling(ops) || !High(limits, counter - Sum(Debts(ops)))
  }

  ghost predicate QuotaIn(policy: Policy, sig: bool, ops: map<nat, Op>, pc: Evictor) {
    forall u: bool {:trigger QuotaWatched(policy, sig, ops, pc, u)} :: QuotaWatched(policy, sig, ops, pc, u)
  }

  ghost predicate QuotaWatched(policy: Policy, sig: bool, ops: map<nat, Op>, pc: Evictor, u: bool) {
    sig || InDrain(pc) || Writing(ops) || !QuotaPressure(policy)
  }

  /** The five together. Each is kept folded: the unused argument and the trigger make the verifier
      open it only where its At form is mentioned. */
  ghost predicate Inv(w: World) {
    && CountedIn(w.entries, w.counter, w.ops, w.pc)
    && TracksIn(w.policy, w.entries, w.pc)
    && LockedIn(w.entries, w.ops, w.pc)
    && BytesIn(w.limits, w.counter, w.sig, w.ops, w.pc)
    && QuotaIn(w.policy, w.sig, w.ops, w.pc)
  }

  /** A usable pair of watermarks: nothing to bound, or room between the marks. */
  predicate Gap(l: Limits) {
    l.maxBytes > 0 ==> 0 <= l.loWater < l.hiWater
  }

  lemma {:induction false} StartInv(policy: Policy, limits: Limits)
    requires FreshPolicy(policy) && Gap(limits)
    ensures Inv(Start(policy, limits))
  {
    var none: map<nat, Op> := map[];
    var nothing: map<Digest, Entry> := map[];
    assert Pendings(none) == map[] && Debts(none) == map[] && EntrySizes(nothing) == map[];
    QuietWhenEmpty(policy);
    if policy.GdsfState? {
      assert policy.g.items.Keys == {};
    }
  }

  lemma {:induction false} QuietWhenEmpty(policy: Policy)
    requires PolicyOk(policy) && Tracked(policy) == {}
    ensures !QuotaPressure(policy)
  {
    if policy.GdsfState? {
      forall t | t in policy.g.cfg.quotas ensures !G.Over(policy.g, t) {
        G.NoItemsNoBytes(policy.g.items, t);
      }
    }
  }

  lemma {:induction false} NoVictimEmpty(policy: Policy)
    requires NoVictim(policy) && !policy.Noop?
    ensures Tracked(policy) == {}
  {
    if policy.LruOrder? {
      if policy.order != [] {
        assert Names(policy, policy.order[|policy.order| - 1]);
      }
    } else if policy.g.items != map[] {
      G.VictimExists(policy.g);
      var k :| G.IsVictim(policy.g, k);
      assert Names(policy, k);
    }
  }

  // --- what each action keeps ------------------------------------------------------------------

  lemma {:induction false} RecordedTracks(p: Policy, m: G.WriteMeta)
    requires PolicyOk(p) && !p.Noop?
    ensures PolicyOk(Recorded(p, m)) && !Recorded(p, m).Noop? && Tracked(Recorded(p, m)) == Tracked(p) + {m.key}
  {
    if p.LruOrder? {
      LruTracks(p.order, m.key);
    }
  }

  lemma {:induction false} DroppedTracks(p: Policy, k: Digest)
    requires PolicyOk(p) && !p.Noop?
    ensures PolicyOk(Dropped(p, k)) && !Dropped(p, k).Noop? && Tracked(Dropped(p, k)) == Tracked(p) - {k}
  {
    if p.LruOrder? {
      LruTracks(p.order, k);
    }
  }

  lemma {:induction false} HitTracks(p: Policy, k: Digest)
    requires PolicyOk(p) && !p.Noop?
    ensures PolicyOk(Hit(p, k)) && !Hit(p, k).Noop? && Tracked(Hit(p, k)) == Tracked(p)
  {
    if p.LruOrder? {
      LruTracks(p.order, k);
    }
  }

  /** Dropping a block never makes a tenant go over. */
  lemma {:induction false} DroppedQuota(p: Policy, k: Digest)
    requires p.GdsfState? ==> forall j :: j in p.g.items ==> p.g.items[j].size >= 0
    ensures QuotaPressure(Dropped(p, k)) ==> QuotaPressure(p)
  {
    if p.GdsfState? && G.OverQuota(G.Evicted(p.g, k)) {
      var t :| t in p.g.cfg.quotas && G.Over(G.Evicted(p.g, k), t);
      G.TenantBytesRemove(p.g.items, k, t);
      assert G.Over(p.g, t);
    }
  }

  /** A read changes no size. */
  lemma {:induction false} HitQuota(p: Policy, k: Digest)
    ensures QuotaPressure(Hit(p, k)) ==> QuotaPressure(p)
  {
    if p.GdsfState? && G.OverQuota(G.Accessed(p.g, k)) && k in p.g.items {
      var t :| t in p.g.cfg.quotas && G.Over(G.Accessed(p.g, k), t);
      var it := p.g.items[k];
      G.TenantBytesUpdate(p.g.items, k, G.Accessed(p.g, k).items[k], t);
      assert G.Over(p.g, t);
    }
  }

  lemma {:induction false} NamedKeeps(p: Policy, k: Digest)
    requires PolicyOk(p) && Names(p, k)
    ensures PolicyOk(Named(p, k)) && Tracked(Named(p, k)) == Tracked(p) && (Named(p, k).Noop? <==> p.Noop?)
    ensures QuotaPressure(Named(p, k)) ==> QuotaPressure(p)
    ensures p.GdsfState? ==> Named(p, k).GdsfState? && Named(p, k).g.items == p.g.items
  {
    if p.GdsfState? && G.OverQuota(G.Chosen(p.g, k)) {
      var t :| t in p.g.cfg.quotas && G.Over(G.Chosen(p.g, k), t);
      assert G.Over(p.g, t);
    }
  }

  /** Giving a free stripe to somebody leaves the signalling writers where they are. */
  lemma {:induction false} SignallingElsewhere(ops: map<nat, Op>, i: nat, op: Op)
    requires i !in ops
    ensures Signalling(ops) ==> Signalling(ops[i := op])
    ensures Writing(ops) ==> Writing(ops[i := op])
  {
    var ops' := ops[i := op];
    if Signalling(ops) {
      var j :| j in ops && (ops[j].Loading? || ops[j].Sending?);
      assert ops'[j] == ops[j];
    }
    if Writing(ops) {
      var j :| j in ops && !ops[j].Subtracting?;
      assert ops'[j] == ops[j];
    }
  }

  /** A stripe whose holder was not signalling can be given up. */
  lemma {:induction false} SignallingWithout(ops: map<nat, Op>, i: nat)
    requires i in ops
    ensures !ops[i].Loading? && !ops[i].Sending? && Signalling(ops) ==> Signalling(ops - {i})
    ensures ops[i].Subtracting? && Writing(ops) ==> Writing(ops - {i})
  {
    var ops' := ops - {i};
    if !ops[i].Loading? && !ops[i].Sending? && Signalling(ops) {
      var j :| j in ops && (ops[j].Loading? || ops[j].Sending?);
      assert j in ops' && ops'[j] == ops[j];
    }
    if ops[i].Subtracting? && Writing(ops) {
      var j :| j in ops && !ops[j].Subtracting?;
      assert j in ops' && ops'[j] == ops[j];
    }
  }

  // the counter

  lemma {:induction false} CountOp(entries: map<Digest, Entry>, counter: int, ops: map<nat, Op>, pc: Evictor, i: nat, op: Op)
    requires CountedIn(entries, counter, ops, pc) && i in ops
    ensures CountedIn(entries, counter + Pending(ops[i]) - Pending(op), ops[i := op], pc)
    ensures CountedIn(entries, counter + Pending(ops[i]), ops - {i}, pc)
  {
    assert Counted(entries, counter, ops, pc, true);
    OpSet(ops, i, op);
    OpDone(ops, i);
  }

  lemma {:induction false} CountPublish(entries: map<Digest, Entry>, counter: int, ops: map<nat, Op>, pc: Evictor, i: nat, k: Digest, e: Entry)
    requires CountedIn(entries, counter, ops, pc) && i !in ops
    ensures CountedIn(entries[k := e], counter, ops[i := Adding(SizeOf(e) - OldSize(entries, k))], pc)
  {
    assert Counted(entries, counter, ops, pc, true);
    OpSet(ops, i, Adding(SizeOf(e) - OldSize(entries, k)));
    CountUpdate(entries, k, e);
  }

  lemma {:induction false} CountRemoval(entries: map<Digest, Entry>, counter: int, ops: map<nat, Op>, pc: Evictor, i: nat, k: Digest)
    requires CountedIn(entries, counter, ops, pc) && i !in ops && k in entries
    ensures CountedIn(entries - {k}, counter, ops[i := Subtracting(SizeOf(entries[k]))], pc)
  {
    assert Counted(entries, counter, ops, pc, true);
    OpSet(ops, i, Subtracting(SizeOf(entries[k])));
    CountRemove(entries, k);
  }

  lemma {:induction false} CountSameSizes(entries: map<Digest, Entry>, counter: int, ops: map<nat, Op>, pc: Evictor, k: Digest, e: Entry)
    requires CountedIn(entries, counter, ops, pc) && k in entries && e.kv == entries[k].kv
    ensures CountedIn(entries[k := e], counter, ops, pc)
  {
    assert Counted(entries, counter, ops, pc, true);
    CountUpdate(entries, k, e);
  }

  lemma {:induction false} CountEvictor(entries: map<Digest, Entry>, counter: int, ops: map<nat, Op>, pc: Evictor, counter': int, pc': Evictor)
    requires CountedIn(entries, counter, ops, pc) && counter - EvictorDebt(pc) == counter' - EvictorDebt(pc')
    ensures CountedIn(entries, counter', ops, pc')
  {
    assert Counted(entries, counter, ops, pc, true);
  }

  lemma {:induction false} CountTake(entries: map<Digest, Entry>, counter: int, ops: map<nat, Op>, pc: Evictor, k: Digest, pc': Evictor)
    requires CountedIn(entries, counter, ops, pc) && k in entries
    requires !pc.Freeing? && pc'.Freeing? && pc'.size == SizeOf(entries[k])
    ensures CountedIn(entries - {k}, counter, ops, pc')
  {
    assert Counted(entries, counter, ops, pc, true);
    CountRemove(entries, k);
  }

  // the tracked keys

  lemma {:induction false} TrackPublish(policy: Policy, entries: map<Digest, Entry>, pc: Evictor, k: Digest, e: Entry)
    requires TracksIn(policy, entries, pc)
    ensures TracksIn(Recorded(policy, MetaOf(k, e)), entries[k := e], pc)
  {
    assert Tracks(policy, entries, pc, true);
    RecordedTracks(policy, MetaOf(k, e));
  }

  lemma {:induction false} TrackRemove(policy: Policy, entries: map<Digest, Entry>, pc: Evictor, k: Digest)
    requires TracksIn(policy, entries, pc) && k !in HeldSet(pc)
    ensures TracksIn(Dropped(policy, k), entries - {k}, pc)
  {
    assert Tracks(policy, entries, pc, true);
    DroppedTracks(policy, k);
  }

  lemma {:induction false} TrackRead(policy: Policy, entries: map<Digest, Entry>, pc: Evictor, k: Digest, e: Entry)
    requires TracksIn(policy, entries, pc) && k in entries
    ensures TracksIn(Hit(policy, k), entries[k := e], pc)
  {
    assert Tracks(policy, entries, pc, true);
    HitTracks(policy, k);
    assert entries[k := e].Keys == entries.Keys;
  }

  lemma {:induction false} TrackEvictor(policy: Policy, entries: map<Digest, Entry>, pc: Evictor, pc': Evictor)
    requires TracksIn(policy, entries, pc) && Held(pc) == Held(pc')
    ensures TracksIn(policy, entries, pc')
  {
    assert Tracks(policy, entries, pc, true);
  }

  lemma {:induction false} TrackNamed(policy: Policy, entries: map<Digest, Entry>, pc: Evictor, k: Digest)
    requires TracksIn(policy, entries, pc) && PolicyOk(policy) && Names(policy, k)
    ensures TracksIn(Named(policy, k), entries, pc)
  {
    assert Tracks(policy, entries, pc, true);
    NamedKeeps(policy, k);
  }

  lemma {:induction false} TrackTake(policy: Policy, entries: map<Digest, Entry>, pc: Evictor, k: Digest, pc': Evictor)
    requires TracksIn(policy, entries, pc) && k in entries && Held(pc).None? && Held(pc') == Some(k)
    ensures TracksIn(policy, entries - {k}, pc')
  {
    assert Tracks(policy, entries, pc, true);
  }

  lemma {:induction false} TrackForget(policy: Policy, entries: map<Digest, Entry>, pc: Evictor, k: Digest, pc': Evictor)
    requires TracksIn(policy, entries, pc) && Held(pc) == Some(k) && k !in entries && Held(pc').None?
    ensures TracksIn(Dropped(policy, k), entries, pc')
  {
    assert Tracks(policy, entries, pc, true);
    DroppedTracks(policy, k);
  }

  // the evictor's lock

  lemma {:induction false} LockSteps(w: World, k: Digest, e: Entry, op: Op)
    requires LockedIn(w.entries, w.ops, w.pc) && Free(w, k)
    ensures var ops := w.ops[StripeOf(k) := op];
            LockedIn(w.entries[k := e], ops, w.pc) && LockedIn(w.entries - {k}, ops, w.pc) && LockedIn(w.entries[k := e], w.ops, w.pc)
    ensures k !in HeldSet(w.pc)
  {
    assert Locked(w.entries, w.ops, w.pc, true);
  }

  lemma {:induction false} LockOps(entries: map<Digest, Entry>, ops: map<nat, Op>, pc: Evictor, i: nat, op: Op)
    requires LockedIn(entries, ops, pc) && i in ops
    ensures LockedIn(entries, ops[i := op], pc) && LockedIn(entries, ops - {i}, pc)
  {
    assert Locked(entries, ops, pc, true);
  }

  lemma {:induction false} LockEvictor(entries: map<Digest, Entry>, ops: map<nat, Op>, pc: Evictor, pc': Evictor)
    requires LockedIn(entries, ops, pc) && (Held(pc').None? || Held(pc) == Held(pc'))
    ensures LockedIn(entries, ops, pc')
  {
    assert Locked(entries, ops, pc, true);
  }

  lemma {:induction false} LockTake(w: World, k: Digest, pc': Evictor)
    requires Free(w, k) && Held(pc') == Some(k)
    ensures LockedIn(w.entries - {k}, w.ops, pc')
  {
  }

  // the byte watch

  lemma {:induction false} BytesBegin(w: World, i: nat, op: Op)
    requires BytesIn(w.limits, w.counter, w.sig, w.ops, w.pc) && i !in w.ops
    ensures BytesIn(w.limits, w.counter, w.sig, w.ops[i := op], w.pc)
  {
    assert BytesWatched(w.limits, w.counter, w.sig, w.ops, w.pc, true);
    OpSet(w.ops, i, op);
    SignallingElsewhere(w.ops, i, op);
  }

  lemma {:induction false} BytesSignalling(w: World, counter: int, i: nat, op: Op)
    requires op.Loading? || op.Sending?
    ensures BytesIn(w.limits, counter, w.sig, w.ops[i := op], w.pc)
  {
    var ops := w.ops[i := op];
    assert ops[i] == op && Signalling(ops);
  }

  lemma {:induction false} BytesLow(w: World, ops: map<nat, Op>)
    requires !High(w.limits, w.counter)
    ensures BytesIn(w.limits, w.counter, w.sig, ops, w.pc)
  {
    DebtCovers(ops);
  }

  lemma {:induction false} BytesDone(w: World, i: nat)
    requires BytesIn(w.limits, w.counter, w.sig, w.ops, w.pc) && i in w.ops && (w.ops[i].Asking? || w.ops[i].Subtracting?)
    ensures BytesIn(w.limits, w.counter + Pending(w.ops[i]), w.sig, w.ops - {i}, w.pc)
  {
    assert BytesWatched(w.limits, w.counter, w.sig, w.ops, w.pc, true);
    OpDone(w.ops, i);
    SignallingWithout(w.ops, i);
  }

  lemma {:induction false} BytesNudged(w: World, ops: map<nat, Op>)
    ensures BytesIn(w.limits, w.counter, true, ops, w.pc)
  {
  }

  lemma {:induction false} BytesBusy(w: World, counter: int, sig: bool, pc': Evictor)
    requires !Relaxed(pc')
    ensures BytesIn(w.limits, counter, sig, w.ops, pc')
  {
  }

  lemma {:induction false} BytesEvictor(w: World, counter: int, pc': Evictor)
    requires BytesIn(w.limits, w.counter, w.sig, w.ops, w.pc)
    requires Relaxed(pc') ==> Relaxed(w.pc) && counter <= w.counter
    ensures BytesIn(w.limits, counter, w.sig, w.ops, pc')
  {
    assert BytesWatched(w.limits, w.counter, w.sig, w.ops, w.pc, true);
  }

  /** Everything resident is gone, so whatever the counter still shows is owed. */
  lemma {:induction false} BytesDry(w: World)
    requires CountedIn(w.entries, w.counter, w.ops, w.pc) && w.pc.Choosing? && w.entries == map[] && Gap(w.limits)
    ensures BytesIn(w.limits, w.counter, w.sig, w.ops, Idle)
  {
    assert Counted(w.entries, w.counter, w.ops, w.pc, true);
    assert EntrySizes(w.entries) == map[];
    DebtCovers(w.ops);
  }

  // the quota watch

  lemma {:induction false} QuotaWriter(policy: Policy, sig: bool, ops: map<nat, Op>, pc: Evictor, i: nat, op: Op)
    requires !op.Subtracting?
    ensures QuotaIn(policy, sig, ops[i := op], pc)
  {
    var ops' := ops[i := op];
    assert ops'[i] == op && Writing(ops');
  }

  lemma {:induction false} QuotaLess(policy: Policy, sig: bool, ops: map<nat, Op>, pc: Evictor, policy': Policy, ops': map<nat, Op>, pc': Evictor)
    requires QuotaIn(policy, sig, ops, pc) && (InDrain(pc) ==> InDrain(pc'))
    requires (QuotaPressure(policy') ==> QuotaPressure(policy)) && (Writing(ops) ==> Writing(ops'))
    ensures QuotaIn(policy', sig, ops', pc')
  {
    assert QuotaWatched(policy, sig, ops, pc, true);
  }

  lemma {:induction false} QuotaNone(policy: Policy, sig: bool, ops: map<nat, Op>, pc: Evictor)
    requires !QuotaPressure(policy) || InDrain(pc) || sig
    ensures QuotaIn(policy, sig, ops, pc)
  {
  }

  // --- every action keeps all five -------------------------------------------------------------

  lemma {:induction false} PublishKeeps(w: World, k: Digest, e: Entry)
    requires Inv(w) && Free(w, k)
    ensures Inv(w.(entries := w.entries[k := e], policy := Recorded(w.policy, MetaOf(k, e)),
                   ops := w.ops[StripeOf(k) := Adding(SizeOf(e) - OldSize(w.entries, k))]))
  {
    var i, op := StripeOf(k), Adding(SizeOf(e) - OldSize(w.entries, k));
    CountPublish(w.entries, w.counter, w.ops, w.pc, i, k, e);
    TrackPublish(w.policy, w.entries, w.pc, k, e);
    LockSteps(w, k, e, op);
    BytesBegin(w, i, op);
    QuotaWriter(Recorded(w.policy, MetaOf(k, e)), w.sig, w.ops, w.pc, i, op);
  }

  lemma {:induction false} AddBytesKeeps(w: World, i: nat)
    requires Inv(w) && i in w.ops && w.ops[i].Adding?
    ensures Inv(w.(counter := w.counter + w.ops[i].delta, ops := w.ops[i := Loading]))
  {
    CountOp(w.entries, w.counter, w.ops, w.pc, i, Loading);
    LockOps(w.entries, w.ops, w.pc, i, Loading);
    BytesSignalling(w, w.counter + w.ops[i].delta, i, Loading);
    QuotaWriter(w.policy, w.sig, w.ops, w.pc, i, Loading);
  }

  lemma {:induction false} LoadBytesKeeps(w: World, i: nat)
    requires Inv(w) && i in w.ops && w.ops[i].Loading?
    ensures Inv(w.(ops := w.ops[i := if High(w.limits, w.counter) then Sending else Asking]))
  {
    var op := if High(w.limits, w.counter) then Sending else Asking;
    CountOp(w.entries, w.counter, w.ops, w.pc, i, op);
    LockOps(w.entries, w.ops, w.pc, i, op);
    if High(w.limits, w.counter) {
      BytesSignalling(w, w.counter, i, op);
    } else {
      BytesLow(w, w.ops[i := op]);
    }
    QuotaWriter(w.policy, w.sig, w.ops, w.pc, i, op);
  }

  lemma {:induction false} AskQuotaKeeps(w: World, i: nat)
    requires Inv(w) && i in w.ops && w.ops[i].Asking?
    ensures Inv(w.(ops := if QuotaPressure(w.policy) then w.ops[i := Sending] else w.ops - {i}))
  {
    CountOp(w.entries, w.counter, w.ops, w.pc, i, Sending);
    LockOps(w.entries, w.ops, w.pc, i, Sending);
    if QuotaPressure(w.policy) {
      BytesSignalling(w, w.counter, i, Sending);
      QuotaWriter(w.policy, w.sig, w.ops, w.pc, i, Sending);
    } else {
      BytesDone(w, i);
      QuotaNone(w.policy, w.sig, w.ops - {i}, w.pc);
    }
  }

  lemma {:induction false} SendKeeps(w: World, i: nat)
    requires Inv(w) && i in w.ops && w.ops[i].Sending?
    ensures Inv(w.(sig := true, ops := w.ops - {i}))
  {
    CountOp(w.entries, w.counter, w.ops, w.pc, i, Sending);
    LockOps(w.entries, w.ops, w.pc, i, Sending);
    BytesNudged(w, w.ops - {i});
    QuotaNone(w.policy, true, w.ops - {i}, w.pc);
  }

  lemma {:induction false} RemoveKeeps(w: World, k: Digest)
    requires Inv(w) && k in w.entries && Free(w, k)
    ensures Inv(w.(entries := w.entries - {k}, policy := Dropped(w.policy, k),
                   ops := w.ops[StripeOf(k) := Subtracting(SizeOf(w.entries[k]))]))
  {
    var i, op := StripeOf(k), Subtracting(SizeOf(w.entries[k]));
    CountRemoval(w.entries, w.counter, w.ops, w.pc, i, k);
    LockSteps(w, k, w.entries[k], op);
    TrackRemove(w.policy, w.entries, w.pc, k);
    BytesBegin(w, i, op);
    SizesNonNegative(w.policy, w.entries, w.pc);
    DroppedQuota(w.policy, k);
    SignallingElsewhere(w.ops, i, op);
    QuotaLess(w.policy, w.sig, w.ops, w.pc, Dropped(w.policy, k), w.ops[i := op], w.pc);
  }

  lemma {:induction false} SizesNonNegative(policy: Policy, entries: map<Digest, Entry>, pc: Evictor)
    requires TracksIn(policy, entries, pc)
    ensures policy.GdsfState? ==> forall k :: k in policy.g.items ==> policy.g.items[k].size >= 0
  {
    assert Tracks(policy, entries, pc, true);
  }

  lemma {:induction false} SubtractBytesKeeps(w: World, i: nat)
    requires Inv(w) && i in w.ops && w.ops[i].Subtracting?
    ensures Inv(w.(counter := w.counter - w.ops[i].size, ops := w.ops - {i}))
  {
    CountOp(w.entries, w.counter, w.ops, w.pc, i, Loading);
    LockOps(w.entries, w.ops, w.pc, i, Loading);
    BytesDone(w, i);
    SignallingWithout(w.ops, i);
    QuotaLess(w.policy, w.sig, w.ops, w.pc, w.policy, w.ops - {i}, w.pc);
  }

  lemma {:induction false} ReadKeeps(w: World, k: Digest, now: int)
    requires Inv(w) && k in w.entries && Free(w, k)
    ensures Inv(w.(entries := w.entries[k := Used(w.entries[k], now)], policy := Hit(w.policy, k)))
  {
    var used := Used(w.entries[k], now);
    CountSameSizes(w.entries, w.counter, w.ops, w.pc, k, used);
    TrackRead(w.policy, w.entries, w.pc, k, used);
    LockSteps(w, k, used, Loading);
    HitQuota(w.policy, k);
    QuotaLess(w.policy, w.sig, w.ops, w.pc, Hit(w.policy, k), w.ops, w.pc);
  }

  /** Actions that move only the evictor. */
  lemma {:induction false} MoveKeeps(w: World, pc': Evictor)
    requires Inv(w) && Held(w.pc) == Held(pc') && EvictorDebt(w.pc) == EvictorDebt(pc')
    requires Relaxed(pc') ==> Relaxed(w.pc)
    requires InDrain(w.pc) ==> InDrain(pc')
    ensures Inv(w.(pc := pc'))
  {
    CountEvictor(w.entries, w.counter, w.ops, w.pc, w.counter, pc');
    TrackEvictor(w.policy, w.entries, w.pc, pc');
    LockEvictor(w.entries, w.ops, w.pc, pc');
    BytesEvictor(w, w.counter, pc');
    QuotaLess(w.policy, w.sig, w.ops, w.pc, w.policy, w.ops, pc');
  }

  lemma {:induction false} WakeKeeps(w: World)
    requires Inv(w) && w.pc.Idle?
    ensures Inv(w.(sig := false, pc := CheckBytes))
  {
    CountEvictor(w.entries, w.counter, w.ops, w.pc, w.counter, CheckBytes);
    TrackEvictor(w.policy, w.entries, w.pc, CheckBytes);
    LockEvictor(w.entries, w.ops, w.pc, CheckBytes);
    BytesBusy(w, w.counter, false, CheckBytes);
    QuotaNone(w.policy, false, w.ops, CheckBytes);
  }

  lemma {:induction false} TestBytesKeeps(w: World)
    requires Inv(w) && w.pc.CheckBytes? && Gap(w.limits)
    ensures Inv(w.(pc := if w.limits.maxBytes > 0 && w.counter > w.limits.loWater then Choosing else CheckQuota))
  {
    if w.limits.maxBytes > 0 && w.counter > w.limits.loWater {
      MoveKeeps(w, Choosing);
    } else {
      CountEvictor(w.entries, w.counter, w.ops, w.pc, w.counter, CheckQuota);
      TrackEvictor(w.policy, w.entries, w.pc, CheckQuota);
      LockEvictor(w.entries, w.ops, w.pc, CheckQuota);
      BytesLow(w.(pc := CheckQuota), w.ops);
      QuotaNone(w.policy, w.sig, w.ops, CheckQuota);
    }
  }

  lemma {:induction false} TestQuotaKeeps(w: World)
    requires Inv(w) && w.pc.CheckQuota?
    ensures Inv(w.(pc := if QuotaPressure(w.policy) then Choosing else Idle))
  {
    if QuotaPressure(w.policy) {
      MoveKeeps(w, Choosing);
    } else {
      CountEvictor(w.entries, w.counter, w.ops, w.pc, w.counter, Idle);
      TrackEvictor(w.policy, w.entries, w.pc, Idle);
      LockEvictor(w.entries, w.ops, w.pc, Idle);
      BytesEvictor(w, w.counter, Idle);
      QuotaNone(w.policy, w.sig, w.ops, Idle);
    }
  }

  lemma {:induction false} ChooseKeeps(w: World, k: Digest)
    requires Inv(w) && w.pc.Choosing? && PolicyOk(w.policy) && Names(w.policy, k)
    ensures Inv(w.(policy := Named(w.policy, k), pc := Evicting(k, Draining)))
  {
    TrackNamed(w.policy, w.entries, w.pc, k);
    QuotaNone(Named(w.policy, k), w.sig, w.ops, w.pc);
    MoveKeeps(w.(policy := Named(w.policy, k)), Evicting(k, Draining));
  }

  lemma {:induction false} RunDryKeeps(w: World)
    requires Inv(w) && w.pc.Choosing? && NoVictim(w.policy) && Gap(w.limits)
    ensures Inv(w.(pc := Idle))
  {
    NothingLeft(w);
    QuietWhenEmpty(w.policy);
    CountEvictor(w.entries, w.counter, w.ops, w.pc, w.counter, Idle);
    TrackEvictor(w.policy, w.entries, w.pc, Idle);
    LockEvictor(w.entries, w.ops, w.pc, Idle);
    BytesDry(w);
    QuotaNone(w.policy, w.sig, w.ops, Idle);
  }

  lemma {:induction false} NothingLeft(w: World)
    requires TracksIn(w.policy, w.entries, w.pc) && NoVictim(w.policy)
    ensures w.entries == map[] && Tracked(w.policy) == {}
  {
    assert Tracks(w.policy, w.entries, w.pc, true);
    NoVictimEmpty(w.policy);
  }

  lemma {:induction false} LockVictimKeeps(w: World)
    requires Inv(w) && w.pc.Evicting? && Free(w, w.pc.k) && w.pc.k in w.entries
    ensures Inv(w.(entries := w.entries - {w.pc.k}, pc := Freeing(w.pc.k, SizeOf(w.entries[w.pc.k]), w.pc.task)))
  {
    var k := w.pc.k;
    var pc' := Freeing(k, SizeOf(w.entries[k]), w.pc.task);
    CountTake(w.entries, w.counter, w.ops, w.pc, k, pc');
    TrackTake(w.policy, w.entries, w.pc, k, pc');
    LockTake(w, k, pc');
    BytesEvictor(w, w.counter, pc');
    QuotaLess(w.policy, w.sig, w.ops, w.pc, w.policy, w.ops, pc');
  }

  lemma {:induction false} FreeBytesKeeps(w: World)
    requires Inv(w) && w.pc.Freeing?
    ensures Inv(w.(counter := w.counter - w.pc.size, pc := Forgetting(w.pc.k, w.pc.task)))
  {
    var pc', counter := Forgetting(w.pc.k, w.pc.task), w.counter - w.pc.size;
    CountEvictor(w.entries, w.counter, w.ops, w.pc, counter, pc');
    TrackEvictor(w.policy, w.entries, w.pc, pc');
    LockEvictor(w.entries, w.ops, w.pc, pc');
    BytesEvictor(w, counter, pc');
    QuotaLess(w.policy, w.sig, w.ops, w.pc, w.policy, w.ops, pc');
  }

  lemma {:induction false} ForgetKeeps(w: World)
    requires Inv(w) && w.pc.Forgetting?
    ensures Inv(w.(policy := Dropped(w.policy, w.pc.k), pc := Resume(w.pc.task)))
  {
    var k, pc' := w.pc.k, Resume(w.pc.task);
    assert Locked(w.entries, w.ops, w.pc, true);
    CountEvictor(w.entries, w.counter, w.ops, w.pc, w.counter, pc');
    TrackForget(w.policy, w.entries, w.pc, k, pc');
    LockEvictor(w.entries, w.ops, w.pc, pc');
    BytesEvictor(w, w.counter, pc');
    SizesNonNegative(w.policy, w.entries, w.pc);
    DroppedQuota(w.policy, k);
    QuotaLess(w.policy, w.sig, w.ops, w.pc, Dropped(w.policy, k), w.ops, pc');
  }

  lemma {:induction false} NextKeeps(w: World, a: Action)
    requires Inv(w) && Enabled(w, a) && Gap(w.limits)
    ensures Inv(Next(w, a))
  {
    match a {
      case Publish(k, e) => PublishKeeps(w, k, e);
      case AddBytes(i) => AddBytesKeeps(w, i);
      case LoadBytes(i) => LoadBytesKeeps(w, i);
      case AskQuota(i) => AskQuotaKeeps(w, i);
      case Send(i) => SendKeeps(w, i);
      case Remove(k) => RemoveKeeps(w, k);
      case SubtractBytes(i) => SubtractBytesKeeps(w, i);
      case Read(k, now) => ReadKeeps(w, k, now);
      case Wake => WakeKeeps(w);
      case TestBytes => TestBytesKeeps(w);
      case TestQuota => TestQuotaKeeps(w);
      case Choose(k) => ChooseKeeps(w, k);
      case RunDry => RunDryKeeps(w);
      case BeginSweep(victims) => MoveKeeps(w, Sweep(victims));
      case NextSweep(k) => MoveKeeps(w, Evicting(k, Sweeping(w.pc.rest - {k})));
      case EndSweep => MoveKeeps(w, Idle);
      case LockVictim =>
        if w.pc.k in w.entries {
          LockVictimKeeps(w);
        } else {
          MoveKeeps(w, Resume(w.pc.task));
        }
      case FreeBytes => FreeBytesKeeps(w);
      case Forget => ForgetKeeps(w);
    }
  }

  lemma {:induction false} RunKeeps(w: World, run: seq<Action>)
    requires Inv(w) && CanRun(w, run) && Gap(w.limits)
    ensures Inv(After(w, run)) && After(w, run).limits == w.limits
    decreases |run|
  {
    if run != [] {
      NextKeeps(w, run[0]);
      RunKeeps(Next(w, run[0]), run[1..]);
    }
  }

  // --- results ---------------------------------------------------------------------------------

  lemma {:induction false} InvAwake(w: World)
    requires Inv(w)
    ensures Awake(w)
  {
    assert BytesWatched(w.limits, w.counter, w.sig, w.ops, w.pc, true);
    assert QuotaWatched(w.policy, w.sig, w.ops, w.pc, true);
    DebtsAreDepartures(w.ops);
  }

  /** In every interleaving of writers, deleters, readers, drain and sweep: quota pressure, or bytes at
      high water beyond what deletes in flight still owe, means that a nudge is pending, the evictor
      is draining, or a writer is between its update and its signal. */
  lemma {:induction false} NoLostWakeup(policy: Policy, limits: Limits, run: seq<Action>)
    requires FreshPolicy(policy) && Gap(limits) && CanRun(Start(policy, limits), run)
    ensures Awake(After(Start(policy, limits), run))
  {
    StartInv(policy, limits);
    RunKeeps(Start(policy, limits), run);
    InvAwake(After(Start(policy, limits), run));
  }

  /** Once every critical section is over and the evictor is back at its channel, the counter is the
      resident bytes, and pressure means a nudge is waiting there. */
  lemma {:induction false} QuietMeansNudged(policy: Policy, limits: Limits, run: seq<Action>)
    requires FreshPolicy(policy) && Gap(limits) && CanRun(Start(policy, limits), run)
    requires var w := After(Start(policy, limits), run); w.ops == map[] && w.pc.Idle?
    ensures var w := After(Start(policy, limits), run);
            && (Pressure(w) ==> w.sig)
            && w.counter == Sum(EntrySizes(w.entries))
            && Tracked(w.policy) == w.entries.Keys
  {
    StartInv(policy, limits);
    RunKeeps(Start(policy, limits), run);
    var w := After(Start(policy, limits), run);
    InvAwake(w);
    assert Counted(w.entries, w.counter, w.ops, w.pc, true);
    assert Tracks(w.policy, w.entries, w.pc, true);
    assert Pendings(w.ops) == map[] && Departures(w.ops) == map[];
  }

  // --- runs without deletes --------------------------------------------------------------------

  ghost predicate Deleteless(run: seq<Action>) {
    forall i :: 0 <= i < |run| ==> !run[i].Remove?
  }

  ghost predicate NobodyDeletes(ops: map<nat, Op>) {
    forall i :: i in ops ==> !ops[i].Subtracting?
  }

  lemma {:induction false} DeletelessStep(w: World, a: Action)
    requires Enabled(w, a) && !a.Remove? && NobodyDeletes(w.ops)
    ensures NobodyDeletes(Next(w, a).ops)
  {
  }

  lemma {:induction false} DeletelessRun(w: World, run: seq<Action>)
    requires CanRun(w, run) && Deleteless(run) && NobodyDeletes(w.ops)
    ensures NobodyDeletes(After(w, run).ops)
    decreases |run|
  {
    if run != [] {
      DeletelessStep(w, run[0]);
      DeletelessRun(Next(w, run[0]), run[1..]);
    }
  }

  /** Without deletes the strict claim holds in every interleaving, drain and TTL sweep included. */
  lemma {:induction false} WatchedWithoutDeletes(policy: Policy, limits: Limits, run: seq<Action>)
    requires FreshPolicy(policy) && Gap(limits) && CanRun(Start(policy, limits), run) && Deleteless(run)
    ensures Watched(After(Start(policy, limits), run))
  {
    NoLostWakeup(policy, limits, run);
    DeletelessRun(Start(policy, limits), run);
    assert Departures(After(Start(policy, limits), run).ops) == map[];
  }

  // --- why the gap is needed -------------------------------------------------------------------

  ghost predicate AlwaysAwake(policy: Policy, limits: Limits) {
    forall run :: CanRun(Start(policy, limits), run) ==> Awake(After(Start(policy, limits), run))
  }

  lemma {:induction false} ThenRun(w: World, a: Action, rest: seq<Action>)
    requires Enabled(w, a) && CanRun(Next(w, a), rest)
    ensures CanRun(w, [a] + rest) && After(w, [a] + rest) == After(Next(w, a), rest)
  {
    assert ([a] + rest)[0] == a && ([a] + rest)[1..] == rest;
  }

  /** Some tenant has no quota: its name is longer than any that has one. */
  lemma {:induction false} Unlisted(names: set<Blob>) returns (t: Blob)
    ensures forall x :: x in names ==> |x| < |t|
    decreases |names|
  {
    if names == {} {
      t := [];
    } else {
      var x :| x in names;
      t := Unlisted(names - {x});
      if |x| >= |t| {
        t := Fill(|x| + 1, 0);
      }
    }
  }

  const KEY: Digest := Fill(32, 0)

  function OneBlock(n: nat, tenant: Blob): (e: Entry) {
    Entry([], Fill(32, 0), 1, [], Fill(n, 0), tenant, 1.0, 0, 0, 0)
  }

  /** A block under no quota, alone in a shard, puts no tenant over. */
  ghost predicate Alone(policy: Policy, e: Entry) {
    && FreshPolicy(policy)
    && (policy.GdsfState? ==> e.tenant !in policy.g.cfg.quotas)
  }

  lemma {:induction false} AloneIsQuiet(policy: Policy, e: Entry)
    requires Alone(policy, e)
    ensures !QuotaPressure(Recorded(policy, MetaOf(KEY, e)))
  {
    if policy.GdsfState? {
      var g := G.Written(policy.g, MetaOf(KEY, e));
      assert policy.g.items == map[];
      forall t | t in g.cfg.quotas ensures !G.Over(g, t) {
        G.NoItemsNoBytes(g.items, t);
      }
    }
  }

  lemma {:induction false} AloneThenNothing(policy: Policy, e: Entry)
    requires Alone(policy, e)
    ensures NoVictim(Dropped(Recorded(policy, MetaOf(KEY, e)), KEY))
  {
    RecordedTracks(policy, MetaOf(KEY, e));
    var one := Recorded(policy, MetaOf(KEY, e));
    DroppedTracks(one, KEY);
    EmptyNamesNothing(Dropped(one, KEY));
  }

  lemma {:induction false} EmptyNamesNothing(p: Policy)
    requires PolicyOk(p) && Tracked(p) == {}
    ensures NoVictim(p)
  {
    if p.LruOrder? {
      FrontTracked(p.order);
    }
    assert p.GdsfState? ==> p.g.items == map[];
  }

  lemma {:induction false} FrontTracked(order: seq<Digest>)
    ensures order != [] ==> order[0] in Tracked(LruOrder(order))
  {
  }

  /** The one block is resident. */
  ghost function Holding(p: Policy, e: Entry, limits: Limits, counter: int, sig: bool, ops: map<nat, Op>, pc: Evictor): (w: World) {
    World(map[KEY := e], p, counter, sig, limits, ops, pc)
  }

  lemma {:induction false} FirstPublish(policy: Policy, e: Entry, limits: Limits)
    ensures var w0 := Start(policy, limits);
            && Enabled(w0, Publish(KEY, e))
            && Next(w0, Publish(KEY, e)) == Holding(
                 Recorded(policy, MetaOf(KEY, e)), e, limits, 0, false, map[StripeOf(KEY) := Adding(SizeOf(e))], Idle)
  {
    var none: map<Digest, Entry> := map[];
    assert none[KEY := e] == map[KEY := e];
    var free: map<nat, Op> := map[];
    assert free[StripeOf(KEY) := Adding(SizeOf(e))] == map[StripeOf(KEY) := Adding(SizeOf(e))];
  }

  /** The writer sees high water and nudges. */
  lemma {:induction false} WriterNudges(p: Policy, e: Entry, limits: Limits, i: nat, rest: seq<Action>)
    requires High(limits, SizeOf(e)) && CanRun(Holding(p, e, limits, SizeOf(e), true, map[], Idle), rest)
    ensures var w := Holding(p, e, limits, 0, false, map[i := Adding(SizeOf(e))], Idle);
            && CanRun(w, [AddBytes(i), LoadBytes(i), Send(i)] + rest)
            && After(w, [AddBytes(i), LoadBytes(i), Send(i)] + rest)
               == After(Holding(p, e, limits, SizeOf(e), true, map[], Idle), rest)
  {
    var n := SizeOf(e);
    var w := Holding(p, e, limits, 0, false, map[i := Adding(n)], Idle);
    var added := Holding(p, e, limits, n, false, map[i := Loading], Idle);
    var loaded := Holding(p, e, limits, n, false, map[i := Sending], Idle);
    assert map[i := Adding(n)][i := Loading] == map[i := Loading];
    assert map[i := Loading][i := Sending] == map[i := Sending];
    assert map[i := Sending] - {i} == map[];
    ThenRun(loaded, Send(i), rest);
    ThenRun(added, LoadBytes(i), [Send(i)] + rest);
    ThenRun(w, AddBytes(i), [LoadBytes(i)] + ([Send(i)] + rest));
    assert [AddBytes(i)] + ([LoadBytes(i)] + ([Send(i)] + rest)) == [AddBytes(i), LoadBytes(i), Send(i)] + rest;
  }

  /** From the start: one block of exactly high-water size, nudged, then whatever follows. */
  lemma {:induction false} NudgedRun(policy: Policy, e: Entry, limits: Limits, rest: seq<Action>) returns (run: seq<Action>)
    requires High(limits, SizeOf(e))
    requires CanRun(Holding(Recorded(policy, MetaOf(KEY, e)), e, limits, SizeOf(e), true, map[], Idle), rest)
    ensures CanRun(Start(policy, limits), run)
    ensures After(Start(policy, limits), run)
         == After(Holding(Recorded(policy, MetaOf(KEY, e)), e, limits, SizeOf(e), true, map[], Idle), rest)
    ensures Deleteless(rest) ==> Deleteless(run)
  {
    var i := StripeOf(KEY);
    var writes := [AddBytes(i), LoadBytes(i), Send(i)];
    WriterNudges(Recorded(policy, MetaOf(KEY, e)), e, limits, i, rest);
    FirstPublish(policy, e, limits);
    ThenRun(Start(policy, limits), Publish(KEY, e), writes + rest);
    run := [Publish(KEY, e)] + (writes + rest);
  }

  /** The evictor finds nothing above low water and goes back to sleep. */
  lemma {:induction false} EvictorSleeps(p: Policy, e: Entry, limits: Limits)
    requires limits.maxBytes > 0 && SizeOf(e) <= limits.loWater && !QuotaPressure(p)
    ensures var w := Holding(p, e, limits, SizeOf(e), true, map[], Idle);
            && CanRun(w, [Wake, TestBytes, TestQuota])
            && After(w, [Wake, TestBytes, TestQuota]) == Holding(p, e, limits, SizeOf(e), false, map[], Idle)
  {
    var n := SizeOf(e);
    ThenRun(Holding(p, e, limits, n, false, map[], CheckQuota), TestQuota, []);
    ThenRun(Holding(p, e, limits, n, false, map[], CheckBytes), TestBytes, [TestQuota]);
    ThenRun(Holding(p, e, limits, n, true, map[], Idle), Wake, [TestBytes] + [TestQuota]);
    assert [TestQuota] + [] == [TestQuota];
    assert [Wake] + ([TestBytes] + [TestQuota]) == [Wake, TestBytes, TestQuota];
  }

  /** The block is gone from the map and the policy, but the counter still shows it. */
  ghost function Departing(p: Policy, n: nat, limits: Limits, pc: Evictor): (w: World) {
    World(map[], Dropped(p, KEY), n, false, limits, map[StripeOf(KEY) := Subtracting(n)], pc)
  }

  /** The block is deleted while the evictor wakes: it sees the counter above low water, finds
      nothing to evict, and goes back to sleep before the delete has reached the counter. */
  lemma {:induction false} DeleteFools(p: Policy, e: Entry, limits: Limits)
    requires limits.maxBytes > 0 && SizeOf(e) > limits.loWater && NoVictim(Dropped(p, KEY))
    ensures var w := Holding(p, e, limits, SizeOf(e), true, map[], Idle);
            && CanRun(w, [Wake, Remove(KEY), TestBytes, RunDry])
            && After(w, [Wake, Remove(KEY), TestBytes, RunDry]) == Departing(p, SizeOf(e), limits, Idle)
  {
    var n, rest := SizeOf(e), [TestBytes] + ([RunDry] + []);
    var w, woken := Holding(p, e, limits, n, true, map[], Idle), Holding(p, e, limits, n, false, map[], CheckBytes);
    FindsNothing(p, n, limits);
    RemoveDeparts(p, e, limits);
    ThenRun(woken, Remove(KEY), rest);
    ThenRun(w, Wake, [Remove(KEY)] + rest);
    assert [Wake] + ([Remove(KEY)] + rest) == [Wake, Remove(KEY), TestBytes, RunDry];
  }

  lemma {:induction false} RemoveDeparts(p: Policy, e: Entry, limits: Limits)
    ensures var woken := Holding(p, e, limits, SizeOf(e), false, map[], CheckBytes);
            Enabled(woken, Remove(KEY)) && Next(woken, Remove(KEY)) == Departing(p, SizeOf(e), limits, CheckBytes)
  {
    assert map[KEY := e] - {KEY} == map[];
  }

  lemma {:induction false} FindsNothing(p: Policy, n: nat, limits: Limits)
    requires limits.maxBytes > 0 && n > limits.loWater && NoVictim(Dropped(p, KEY))
    ensures var w, run := Departing(p, n, limits, CheckBytes), [TestBytes] + ([RunDry] + []);
            CanRun(w, run) && After(w, run) == Departing(p, n, limits, Idle)
  {
    ThenRun(Departing(p, n, limits, Choosing), RunDry, []);
    ThenRun(Departing(p, n, limits, CheckBytes), TestBytes, [RunDry] + []);
  }

  lemma {:induction false} LoneBlock(policy: Policy, n: nat) returns (e: Entry)
    requires FreshPolicy(policy)
    ensures Alone(policy, e) && SizeOf(e) == n
  {
    var t := Unlisted(if policy.GdsfState? then policy.g.cfg.quotas.Keys else {});
    e := OneBlock(n, t);
  }

  /** Coinciding marks: a run without deletes that sleeps on pressure. */
  lemma {:induction false} SleepsOnPressure(policy: Policy, limits: Limits) returns (run: seq<Action>)
    requires FreshPolicy(policy) && limits.maxBytes > 0 && 0 <= limits.hiWater <= limits.loWater
    ensures CanRun(Start(policy, limits), run) && Deleteless(run)
    ensures !Awake(After(Start(policy, limits), run)) && !Watched(After(Start(policy, limits), run))
  {
    var e := LoneBlock(policy, limits.hiWater);
    var p := Recorded(policy, MetaOf(KEY, e));
    AloneIsQuiet(policy, e);
    EvictorSleeps(p, e, limits);
    run := NudgedRun(policy, e, limits, [Wake, TestBytes, TestQuota]);
    var w := Holding(p, e, limits, SizeOf(e), false, map[], Idle);
    assert Departures(w.ops) == map[] && !Writing(w.ops);
  }

  /** A delete in flight: the strict claim fails, although the marks are apart. */
  lemma {:induction false} DeleteHidesPressure(policy: Policy, limits: Limits) returns (run: seq<Action>)
    requires FreshPolicy(policy) && limits.maxBytes > 0 && 0 <= limits.loWater < limits.hiWater
    ensures CanRun(Start(policy, limits), run) && !Watched(After(Start(policy, limits), run))
  {
    var e := LoneBlock(policy, limits.hiWater);
    var p := Recorded(policy, MetaOf(KEY, e));
    AloneThenNothing(policy, e);
    DeleteFools(p, e, limits);
    run := NudgedRun(policy, e, limits, [Wake, Remove(KEY), TestBytes, RunDry]);
    var ops: map<nat, Op> := map[StripeOf(KEY) := Subtracting(SizeOf(e))];
    assert !Writing(ops);
  }

  /** With LRU or GDSF, whatever the quotas: no wakeup is ever lost exactly when the store is unbounded
      or low water is below high water. */
  lemma {:induction false} NoLostWakeupExactly(policy: Policy, limits: Limits)
    requires FreshPolicy(policy)
    requires limits.maxBytes > 0 ==> 0 <= limits.loWater && 0 <= limits.hiWater
    ensures AlwaysAwake(policy, limits) <==> limits.maxBytes <= 0 || limits.loWater < limits.hiWater
  {
    if limits.maxBytes <= 0 || limits.loWater < limits.hiWater {
      forall run | CanRun(Start(policy, limits), run) ensures Awake(After(Start(policy, limits), run)) {
        NoLostWakeup(policy, limits, run);
      }
    } else {
      var run := SleepsOnPressure(policy, limits);
    }
  }

  /** The strict claim over every run, or over every run in which nobody deletes. */
  ghost predicate AlwaysWatched(policy: Policy, limits: Limits, deletes: bool) {
    forall run :: CanRun(Start(policy, limits), run) && (deletes || Deleteless(run)) ==> Watched(After(Start(policy, limits), run))
  }

  /** The strict claim is kept exactly when the store is unbounded, or the marks are apart and nobody
      deletes. */
  lemma {:induction false} WatchedExactly(policy: Policy, limits: Limits, deletes: bool)
    requires FreshPolicy(policy)
    requires limits.maxBytes > 0 ==> 0 <= limits.loWater && 0 <= limits.hiWater
    ensures AlwaysWatched(policy, limits, deletes) <==> limits.maxBytes <= 0 || (limits.loWater < limits.hiWater && !deletes)
  {
    if limits.maxBytes <= 0 || (limits.loWater < limits.hiWater && !deletes) {
      forall run | CanRun(Start(policy, limits), run) && (deletes || Deleteless(run))
        ensures Watched(After(Start(policy, limits), run))
      {
        NoLostWakeup(policy, limits, run);
        RunLimits(Start(policy, limits), run);
        if limits.maxBytes > 0 {
          WatchedWithoutDeletes(policy, limits, run);
        }
      }
    } else if limits.loWater < limits.hiWater {
      var run := DeleteHidesPressure(policy, limits);
    } else {
      var run := SleepsOnPressure(policy, limits);
    }
  }

  lemma {:induction false} RunLimits(w: World, run: seq<Action>)
    requires CanRun(w, run)
    ensures After(w, run).limits == w.limits
    decreases |run|
  {
    if run != [] {
      RunLimits(Next(w, run[0]), run[1..]);
    }
  }

  /** Rounding brings the failing case about: under the default fractions a ceiling of four bytes has
      both marks at three. */
  lemma {:induction false} SmallCeilingSleeps(policy: Policy)
    requires FreshPolicy(policy)
    ensures NewLimits(4, 0.90, 0.75) == Limits(4, 3, 3)
    ensures !AlwaysAwake(policy, NewLimits(4, 0.90, 0.75))
  {
    assert NewLimits(4, 0.90, 0.75) == Limits(4, 3, 3);
    NoLostWakeupExactly(policy, Limits(4, 3, 3));
  }
}
