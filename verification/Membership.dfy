/** Membership (internal/coord/membership.go): following the registry's event log. */
module Membership {
  import opened Bytes
  import opened Rings
  import opened Routers

  // A client reads the member set at some revision, then follows the event log from the next one,
  // batch by batch, and reconciles its router after each.

  /** The registry's history. An index into it is a revision. */
  datatype Event = Joined(id: Node, addr: Addr) | Left(id: Node)

  type Members = map<Node, Addr>

  function Replay(m: Members, events: seq<Event>): (r: Members) {
    if events == [] then m
    else
      var n := |events| - 1;
      var before := Replay(m, events[..n]);
      match events[n]
      case Joined(id, addr) => before[id := addr]
      case Left(id) => before - {id}
  }

  /** The member set at a revision. */
  function Live(log: seq<Event>, r: nat): (m: Members)
    requires r <= |log|
  {
    Replay(map[], log[..r])
  }

  lemma {:induction false} ReplayAppend(m: Members, a: seq<Event>, b: seq<Event>)
    ensures Replay(m, a + b) == Replay(Replay(m, a), b)
    decreases |b|
  {
    if b == [] {
      assert a + b == a;
    } else {
      var n := |b| - 1;
      assert (a + b)[..|a| + n] == a + b[..n];
      ReplayAppend(m, a, b[..n]);
    }
  }

  /** The event at i is the last one before revision r about its id. */
  ghost predicate LastWord(log: seq<Event>, r: nat, i: nat)
    requires r <= |log|
  {
    i < r && forall j :: i < j < r ==> log[j].id != log[i].id
  }

  /** A node is live at an address exactly when the last event about it says it joined there. */
  lemma {:induction false} LiveMeans(log: seq<Event>, r: nat, id: Node, addr: Addr)
    requires r <= |log|
    ensures id in Live(log, r) && Live(log, r)[id] == addr <==>
            exists i :: 0 <= i < r && log[i] == Joined(id, addr) && LastWord(log, r, i)
    decreases r
  {
    if r == 0 {
      assert log[..0] == [];
    } else {
      LiveMeans(log, r - 1, id, addr);
      LiveNext(log, r - 1);
      if log[r - 1].id == id {
        assert LastWord(log, r, r - 1);
        assert forall i :: 0 <= i < r && log[i].id == id && LastWord(log, r, i) ==> i == r - 1;
      } else {
        forall i | 0 <= i < r - 1 && log[i] == Joined(id, addr) ensures LastWord(log, r, i) <==> LastWord(log, r - 1, i) {
        }
      }
    }
  }

  /** The revisions at which a client took a snapshot: the initial read, then the end of each batch. */
  ghost predicate Cuts(log: seq<Event>, cuts: seq<nat>) {
    && (forall i :: 0 <= i < |cuts| ==> cuts[i] <= |log|)
    && (forall i :: 0 < i < |cuts| ==> cuts[i - 1] <= cuts[i])
  }

  /** The client has followed the log exactly up to revision p. */
  ghost predicate Consumed(log: seq<Event>, cuts: seq<nat>, p: nat) {
    Cuts(log, cuts) && cuts != [] && cuts[|cuts| - 1] == p
  }

  function Reconciled(dialable: Dialable, pool: map<Node, Addr>, live: Members): (r: map<Node, Addr>) {
    map id | id in live && (id in pool || dialable(live[id])) :: if id in pool then pool[id] else live[id]
  }

  ghost function PoolAfter(dialable: Dialable, log: seq<Event>, cuts: seq<nat>): (r: map<Node, Addr>)
    requires Cuts(log, cuts)
  {
    if cuts == [] then map[]
    else
      var n := |cuts| - 1;
      Reconciled(dialable, PoolAfter(dialable, log, cuts[..n]), Live(log, cuts[n]))
  }

  // --- which clients agree ---------------------------------------------------------------------

  /** No live member moved from a usable address to a malformed one. */
  ghost predicate Settled(dialable: Dialable, log: seq<Event>, p: nat)
    requires p <= |log|
  {
    forall id, r: nat :: id in Live(log, p) && !dialable(Live(log, p)[id]) && r <= p && id in Live(log, r) ==>
      !dialable(Live(log, r)[id])
  }

  ghost predicate PoolsAgree(dialable: Dialable, log: seq<Event>, p: nat) {
    forall a, b :: Consumed(log, a, p) && Consumed(log, b, p) ==>
      PoolAfter(dialable, log, a).Keys == PoolAfter(dialable, log, b).Keys
  }

  ghost predicate WasDialable(dialable: Dialable, log: seq<Event>, id: Node, p: nat)
    requires p <= |log|
  {
    exists r: nat :: r <= p && id in Live(log, r) && dialable(Live(log, r)[id])
  }

  /** However the log was batched: pooled means live and dialled at some point; live and usable now
      means pooled. */
  lemma {:induction false} PoolBounds(dialable: Dialable, log: seq<Event>, cuts: seq<nat>, id: Node)
    requires Cuts(log, cuts) && cuts != []
    ensures var p, pool := cuts[|cuts| - 1], PoolAfter(dialable, log, cuts);
            && (id in pool ==> id in Live(log, p) && WasDialable(dialable, log, id, p))
            && (id in Live(log, p) && dialable(Live(log, p)[id]) ==> id in pool)
    decreases |cuts|
  {
    var n := |cuts| - 1;
    var p := cuts[n];
    if n > 0 {
      PoolBounds(dialable, log, cuts[..n], id);
      assert cuts[..n][n - 1] == cuts[n - 1] <= p;
      if id in PoolAfter(dialable, log, cuts[..n]) {
        assert WasDialable(dialable, log, id, cuts[n - 1]);
      }
    } else {
      assert PoolAfter(dialable, log, cuts[..n]) == map[];
    }
  }

  lemma {:induction false} SettledPool(dialable: Dialable, log: seq<Event>, cuts: seq<nat>, p: nat)
    requires Consumed(log, cuts, p) && Settled(dialable, log, p)
    ensures PoolAfter(dialable, log, cuts).Keys == set id | id in Live(log, p) && dialable(Live(log, p)[id])
  {
    forall id: Node | true
      ensures id in PoolAfter(dialable, log, cuts) <==> id in Live(log, p) && dialable(Live(log, p)[id])
    {
      PoolBounds(dialable, log, cuts, id);
    }
  }

  lemma {:induction false} TwoCuts(dialable: Dialable, log: seq<Event>, r: nat, p: nat, id: Node)
    requires r <= p <= |log|
    ensures Consumed(log, [p], p) && Consumed(log, [r, p], p)
    ensures id in PoolAfter(dialable, log, [p]) <==> id in Live(log, p) && dialable(Live(log, p)[id])
    ensures id in Live(log, p) && id in Live(log, r) && dialable(Live(log, r)[id]) ==> id in PoolAfter(dialable, log, [r, p])
  {
    assert [p][..0] == [] && [r][..0] == [] && [r, p][..1] == [r];
    assert PoolAfter(dialable, log, [p]) == Reconciled(dialable, map[], Live(log, p));
    assert PoolAfter(dialable, log, [r]) == Reconciled(dialable, map[], Live(log, r));
  }

  /** Clients that followed the same prefix pool the same members, whatever they read first and
      however events were batched, exactly when no live member moved to a malformed address. */
  lemma {:induction false} PoolsAgreeExactly(dialable: Dialable, log: seq<Event>, p: nat)
    requires p <= |log|
    ensures PoolsAgree(dialable, log, p) <==> Settled(dialable, log, p)
  {
    if Settled(dialable, log, p) {
      forall a, b | Consumed(log, a, p) && Consumed(log, b, p)
        ensures PoolAfter(dialable, log, a).Keys == PoolAfter(dialable, log, b).Keys
      {
        SettledPool(dialable, log, a, p);
        SettledPool(dialable, log, b, p);
      }
    } else {
      var id, r: nat :| id in Live(log, p) && !dialable(Live(log, p)[id]) && r <= p && id in Live(log, r) && dialable(Live(log, r)[id]);
      TwoCuts(dialable, log, r, p, id);
      assert id !in PoolAfter(dialable, log, [p]).Keys && id in PoolAfter(dialable, log, [r, p]).Keys;
    }
  }

  /** Every address ever published is usable. */
  ghost predicate AllDialable(dialable: Dialable, log: seq<Event>) {
    forall i :: 0 <= i < |log| && log[i].Joined? ==> dialable(log[i].addr)
  }

  lemma {:induction false} LiveNext(log: seq<Event>, r: nat)
    requires r < |log|
    ensures Live(log, r + 1) == match log[r] case Joined(id, addr) => Live(log, r)[id := addr] case Left(id) => Live(log, r) - {id}
  {
    var prefix := log[..r + 1];
    assert prefix[..r] == log[..r] && prefix[r] == log[r];
  }

  lemma {:induction false} AllDialableLive(dialable: Dialable, log: seq<Event>, r: nat)
    requires AllDialable(dialable, log) && r <= |log|
    ensures forall id :: id in Live(log, r) ==> dialable(Live(log, r)[id])
    decreases r
  {
    if r > 0 {
      AllDialableLive(dialable, log, r - 1);
      LiveNext(log, r - 1);
      assert log[r - 1].Joined? ==> dialable(log[r - 1].addr);
    } else {
      assert log[..r] == [];
    }
  }

  /** Placement agreement. Two clients that have followed the same prefix of the log, from whatever
      first read and in whatever batches, give the same owners for every key and count. */
  lemma {:induction false} PlacementAgreement(
    dialable: Dialable, pos: Positions, vnodes: nat, log: seq<Event>, p: nat,
    cuts1: seq<nat>, points1: seq<VPoint>, cuts2: seq<nat>, points2: seq<VPoint>, key: Blob, n: int)
    requires Consumed(log, cuts1, p) && Consumed(log, cuts2, p) && AllDialable(dialable, log)
    requires IsRing(pos, vnodes, PoolAfter(dialable, log, cuts1).Keys, points1)
    requires IsRing(pos, vnodes, PoolAfter(dialable, log, cuts2).Keys, points2)
    requires DistinctPositions(pos, vnodes, Live(log, p).Keys)
    ensures PoolAfter(dialable, log, cuts1).Keys == Live(log, p).Keys
    ensures LookupN(points1, key, n) == LookupN(points2, key, n)
  {
    AllDialableLive(dialable, log, p);
    SettledPool(dialable, log, cuts1, p);
    SettledPool(dialable, log, cuts2, p);
    assert PoolAfter(dialable, log, cuts1).Keys == Live(log, p).Keys == PoolAfter(dialable, log, cuts2).Keys;
    PlacementUnique(pos, vnodes, Live(log, p).Keys, points1, points2);
  }

  // --- the client ------------------------------------------------------------------------------

  /** A snapshot lists exactly the members, in no particular order. */
  ghost predicate Enumerates(snap: seq<Member>, members: Members) {
    && (forall i :: 0 <= i < |snap| ==> snap[i].id in members && members[snap[i].id] == snap[i].addr)
    && (forall id :: id in members ==> Listed(snap, id))
  }

  lemma {:induction false} ListsFirst(dialable: Dialable, snap: seq<Member>, members: Members, id: Node)
    requires Enumerates(snap, members)
    ensures FirstDialable(dialable, snap, id) ==
            if id in members && dialable(members[id]) then Some(members[id]) else None
  {
    FirstIsListed(dialable, snap, id);
    FirstFrom(dialable, snap, members, id);
    if id in members && dialable(members[id]) {
      var i :| 0 <= i < |snap| && snap[i].id == id;
      assert dialable(snap[i].addr);
    }
  }

  lemma {:induction false} FirstFrom(dialable: Dialable, snap: seq<Member>, members: Members, id: Node)
    requires forall i :: 0 <= i < |snap| ==> snap[i].id in members && members[snap[i].id] == snap[i].addr
    ensures FirstDialable(dialable, snap, id).Some? ==>
            id in members && FirstDialable(dialable, snap, id).value == members[id]
  {
    if snap != [] {
      FirstFrom(dialable, snap[..|snap| - 1], members, id);
    }
  }

  class Watch {
    var members: Members

    /** The initial read. */
    constructor (kvs: Members)
      ensures members == kvs
    {
      members := kvs;
    }

    /** One watch response. */
    method Apply(events: seq<Event>)
      modifies this
      ensures members == Replay(old(members), events)
    {
      for i := 0 to |events|
        invariant members == Replay(old(members), events[..i])
      {
        assert events[..i + 1][..i] == events[..i];
        match events[i] {
          case Joined(id, addr) => members := members[id := addr];
          case Left(id) => members := members - {id};
        }
      }
      assert events[..|events|] == events;
    }

    method Snapshot() returns (snap: seq<Member>)
      ensures Enumerates(snap, members)
    {
      snap := ListMembers(members);
    }
  }

  method ListMembers(members: Members) returns (snap: seq<Member>)
    ensures Enumerates(snap, members)
  {
    snap := [];
    var todo := members.Keys;
    while todo != {}
      invariant todo <= members.Keys
      invariant forall i :: 0 <= i < |snap| ==> snap[i].id in members && members[snap[i].id] == snap[i].addr
      invariant forall id :: id in members && id !in todo ==> Listed(snap, id)
      decreases |todo|
    {
      var id :| id in todo;
      ListedMore(snap, Member(id, members[id]));
      snap := snap + [Member(id, members[id])];
      todo := todo - {id};
    }
  }

  lemma {:induction false} ListedMore(m: seq<Member>, x: Member)
    ensures forall id :: Listed(m, id) || id == x.id ==> Listed(m + [x], id)
  {
    forall id | Listed(m, id) ensures Listed(m + [x], id) {
      var i :| 0 <= i < |m| && m[i].id == id;
      assert (m + [x])[i].id == id;
    }
    assert (m + [x])[|m|] == x;
  }

  /** One snapshot applied: SetMembers on any listing of the member map. */
  method ApplySnapshot(router: Router, watch: Watch)
    requires router.Valid()
    modifies router, router.ring
    ensures router.Valid() && router.pool == Reconciled(router.dialable, old(router.pool), old(watch.members))
  {
    var snap := watch.Snapshot();
    ghost var members, dialable := watch.members, router.dialable;
    router.SetMembers(snap);
    forall id: Node | true
      ensures FirstDialable(dialable, snap, id) == if id in members && dialable(members[id]) then Some(members[id]) else None
    {
      ListsFirst(dialable, snap, members, id);
    }
    assert forall id :: Listed(snap, id) <==> id in members;
  }

  /** The watch loop and the loop that drives the router: after the last batch the member map is the
      log's, no event lost or applied twice, and the pool is the specified one. */
  method Drive(router: Router, log: seq<Event>, cuts: seq<nat>)
    requires router.Valid() && router.pool == map[] && Cuts(log, cuts) && cuts != []
    modifies router, router.ring
    ensures router.Valid() && router.pool == PoolAfter(router.dialable, log, cuts)
  {
    var watch := new Watch(Live(log, cuts[0]));
    ApplySnapshot(router, watch);
    assert cuts[..1][..0] == [];
    for i := 1 to |cuts|
      invariant router.Valid() && watch.members == Live(log, cuts[i - 1])
      invariant router.pool == PoolAfter(router.dialable, log, cuts[..i])
    {
      NextBatch(log, cuts[i - 1], cuts[i]);
      watch.Apply(log[cuts[i - 1]..cuts[i]]);
      ApplySnapshot(router, watch);
      assert cuts[..i + 1][..i] == cuts[..i];
    }
    assert cuts[..|cuts|] == cuts;
  }

  lemma {:induction false} NextBatch(log: seq<Event>, a: nat, b: nat)
    requires a <= b <= |log|
    ensures Replay(Live(log, a), log[a..b]) == Live(log, b)
  {
    assert log[..a] + log[a..b] == log[..b];
    ReplayAppend(map[], log[..a], log[a..b]);
  }
}
