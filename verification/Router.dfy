/** Client-side shard routing (internal/cluster/router.go): the ring and the connection pool move
    together. A connection is represented by the address it was dialled with. */
module Routers {
  import opened Bytes
  import opened Rings

  type Addr = Blob

  datatype Member = Member(id: Node, addr: Addr)

  /** Which targets grpc.NewClient accepts: it never connects, so only a malformed one is refused. */
  type Dialable = Addr -> bool

  /** The address a new id is dialled at: the first usable one listed for it. */
  function FirstDialable(dialable: Dialable, m: seq<Member>, id: Node): (r: Option<Addr>) {
    if m == [] then None
    else
      var n := |m| - 1;
      var earlier := FirstDialable(dialable, m[..n], id);
      if earlier.None? && m[n].id == id && dialable(m[n].addr) then Some(m[n].addr) else earlier
  }

  /** How the pool looks once the first part of the list is dialled. */
  function Dialled(dialable: Dialable, pool: map<Node, Addr>, m: seq<Member>): (r: map<Node, Addr>) {
    if m == [] then pool
    else
      var n := |m| - 1;
      var before := Dialled(dialable, pool, m[..n]);
      if m[n].id !in before && dialable(m[n].addr) then before[m[n].id := m[n].addr] else before
  }

  ghost predicate Listed(m: seq<Member>, id: Node) {
    exists i :: 0 <= i < |m| && m[i].id == id
  }

  /** A known id keeps its old connection, a new one gets its first usable address. */
  lemma {:induction false} DialledAt(dialable: Dialable, pool: map<Node, Addr>, m: seq<Member>, id: Node)
    ensures var d, first := Dialled(dialable, pool, m), FirstDialable(dialable, m, id);
            && (id in d <==> id in pool || first.Some?)
            && (id in pool ==> d[id] == pool[id])
            && (id !in pool && first.Some? ==> d[id] == first.value)
  {
    if m != [] {
      DialledAt(dialable, pool, m[..|m| - 1], id);
      DialledAt(dialable, pool, m[..|m| - 1], m[|m| - 1].id);
    }
  }

  lemma {:induction false} FirstIsListed(dialable: Dialable, m: seq<Member>, id: Node)
    ensures FirstDialable(dialable, m, id).Some? <==> exists i :: 0 <= i < |m| && m[i].id == id && dialable(m[i].addr)
  {
    if m != [] {
      var n := |m| - 1;
      FirstIsListed(dialable, m[..n], id);
      if i :| 0 <= i < |m| && m[i].id == id && dialable(m[i].addr) {
        assert i < n ==> m[..n][i] == m[i];
      }
    }
  }

  /** FirstDialable is the first listed address for the id that can be dialled. */
  lemma {:induction false} FirstMeans(dialable: Dialable, m: seq<Member>, id: Node, i: nat)
    requires i < |m| && m[i].id == id && dialable(m[i].addr)
    requires forall j :: 0 <= j < i && m[j].id == id ==> !dialable(m[j].addr)
    ensures FirstDialable(dialable, m, id) == Some(m[i].addr)
    decreases |m|
  {
    var n := |m| - 1;
    if i < n {
      FirstMeans(dialable, m[..n], id, i);
    } else {
      FirstIsListed(dialable, m[..n], id);
      assert forall k :: 0 <= k < n ==> m[..n][k] == m[k];
    }
  }

  class Router {
    const ring: Ring
    const dialable: Dialable
    var pool: map<Node, Addr>

    /** The pair is one snapshot: the ring's members are the pool's keys. */
    ghost predicate Valid()
      reads this, ring
    {
      ring.Valid() && ring.members == pool.Keys
    }

    constructor (sha: Hasher, vnodes: nat, dialable: Dialable)
      requires vnodes > 0
      ensures Valid() && fresh(ring) && pool == map[] && this.dialable == dialable
      ensures ring.pos == VnodeHash(sha) && ring.vnodes == vnodes
    {
      ring := new Ring(VnodeHash(sha), vnodes);
      this.dialable := dialable;
      pool := map[];
    }

    /** Reconcile to the given list. Afterwards exactly those listed ids are pooled that were pooled
        before or have a usable address; a changed address of a known id is not dialled again. */
    method SetMembers(m: seq<Member>)
      requires Valid()
      modifies this, ring
      ensures Valid()
      ensures forall id :: id in pool <==> Listed(m, id) && (id in old(pool) || FirstDialable(dialable, m, id).Some?)
      ensures forall id :: id in pool ==>
                pool[id] == if id in old(pool) then old(pool)[id] else FirstDialable(dialable, m, id).value
    {
      var desired := Desired(m);
      AddPass(m);
      RemovePass(desired);
      forall id: Node | true
        ensures id in pool <==> Listed(m, id) && (id in old(pool) || FirstDialable(dialable, m, id).Some?)
        ensures id in pool ==> pool[id] == if id in old(pool) then old(pool)[id] else FirstDialable(dialable, m, id).value
      {
        DialledAt(dialable, old(pool), m, id);
      }
    }

    method AddPass(m: seq<Member>)
      requires Valid()
      modifies this, ring
      ensures Valid() && pool == Dialled(dialable, old(pool), m)
    {
      for i := 0 to |m|
        invariant Valid() && pool == Dialled(dialable, old(pool), m[..i])
      {
        var mem := m[i];
        assert m[..i + 1][..i] == m[..i];
        if mem.id !in pool && dialable(mem.addr) {
          pool := pool[mem.id := mem.addr];
          ring.Add(mem.id);
        }
      }
      assert m[..|m|] == m;
    }

    /** The pool is walked in no particular order. */
    method RemovePass(desired: set<Node>)
      requires Valid()
      modifies this, ring
      ensures Valid() && pool == map id | id in old(pool) && id in desired :: old(pool)[id]
    {
      var todo := pool.Keys;
      while todo != {}
        invariant Valid() && todo <= pool.Keys && pool.Keys - todo <= desired
        invariant forall id :: id in pool ==> id in old(pool) && pool[id] == old(pool)[id]
        invariant forall id :: id in old(pool) && id in desired ==> id in pool
        decreases |todo|
      {
        var id :| id in todo;
        todo := todo - {id};
        if id !in desired {
          ring.Remove(id);
          pool := pool - {id};
        }
      }
    }

    /** One connection per owner, primary first. */
    method OwnerConns(key: Blob, n: int) returns (out: seq<Addr>)
      requires Valid()
      ensures |out| == |LookupN(ring.points, key, n)|
      ensures forall i :: 0 <= i < |out| ==>
                LookupN(ring.points, key, n)[i] in pool && out[i] == pool[LookupN(ring.points, key, n)[i]]
    {
      var ids := ring.OwnersFor(key, n);
      RingNodes(ring.pos, ring.vnodes, ring.members, ring.points, KeyHash(key));
      assert forall i :: 0 <= i < |ids| ==> ids[i] in pool;
      out := [];
      for i := 0 to |ids|
        invariant |out| == i && forall k :: 0 <= k < i ==> out[k] == pool[ids[k]]
      {
        if ids[i] in pool {
          out := out + [pool[ids[i]]];
        }
      }
    }
  }

  method Desired(m: seq<Member>) returns (ids: set<Node>)
    ensures forall id :: id in ids <==> Listed(m, id)
  {
    ids := {};
    for i := 0 to |m|
      invariant forall id :: id in ids <==> Listed(m[..i], id)
    {
      ListedSnoc(m, i);
      ids := ids + {m[i].id};
    }
    assert m[..|m|] == m;
  }

  lemma {:induction false} ListedSnoc(m: seq<Member>, i: nat)
    requires i < |m|
    ensures forall id :: Listed(m[..i + 1], id) <==> Listed(m[..i], id) || id == m[i].id
  {
    forall id: Node | true ensures Listed(m[..i + 1], id) <==> Listed(m[..i], id) || id == m[i].id {
      if Listed(m[..i], id) {
        var k :| 0 <= k < i && m[..i][k].id == id;
        assert m[..i + 1][k].id == id;
      }
      assert m[..i + 1][i] == m[i];
      if Listed(m[..i + 1], id) {
        var k :| 0 <= k < i + 1 && m[..i + 1][k].id == id;
        assert k < i ==> m[..i][k] == m[..i + 1][k];
      }
    }
  }
}
