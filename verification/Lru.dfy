/** Least-recently-used eviction (internal/cache/lru.go): the recency list, and what it means in
    terms of the calls made so far. */
module Lru {
  import opened Bytes
  import opened Lists

  // --- the list as a value: front is most recent ------------------------------------------------

  function Touched(order: seq<Digest>, k: Digest): (r: seq<Digest>) {
    [k] + Without(order, k)
  }

  function AccessedIn(order: seq<Digest>, k: Digest): (r: seq<Digest>) {
    if k in order then Touched(order, k) else order
  }

  // --- against the history ---------------------------------------------------------------------

  datatype Event = Write(k: Digest) | Access(k: Digest) | Evict(k: Digest)

  function Apply(order: seq<Digest>, e: Event): (r: seq<Digest>) {
    match e
    case Write(k) => Touched(order, k)
    case Access(k) => AccessedIn(order, k)
    case Evict(k) => Without(order, k)
  }

  function OrderAfter(history: seq<Event>): (r: seq<Digest>) {
    if history == [] then []
    else Apply(OrderAfter(history[..|history| - 1]), history[|history| - 1])
  }

  /** Written at some point and not evicted since. */
  ghost predicate Live(history: seq<Event>, k: Digest) {
    exists i :: 0 <= i < |history| && history[i] == Write(k)
                && forall j :: i < j < |history| ==> history[j] != Evict(k)
  }

  /** The position of the last write or access of k, or -1. */
  ghost function LastUse(history: seq<Event>, k: Digest): (r: int) {
    if history == [] then -1
    else
      var n := |history| - 1;
      if history[n] == Write(k) || history[n] == Access(k) then n else LastUse(history[..n], k)
  }

  lemma {:induction false} LastUseSpec(history: seq<Event>, k: Digest)
    ensures var r := LastUse(history, k);
            && -1 <= r < |history|
            && (r >= 0 ==> history[r] == Write(k) || history[r] == Access(k))
            && forall i :: r < i < |history| ==> history[i] != Write(k) && history[i] != Access(k)
  {
    if history != [] {
      var n := |history| - 1;
      LastUseSpec(history[..n], k);
      assert forall i :: 0 <= i < n ==> history[i] == history[..n][i];
    }
  }

  /** More recent first. */
  ghost predicate Recent(order: seq<Digest>, history: seq<Event>) {
    forall i, j :: 0 <= i < j < |order| ==> LastUse(history, order[i]) > LastUse(history, order[j])
  }

  lemma {:induction false} WithoutRecent(order: seq<Digest>, history: seq<Event>, k: Digest)
    requires Recent(order, history)
    ensures Recent(Without(order, k), history)
  {
    if order != [] {
      var rest := order[1..];
      WithoutRecent(rest, history, k);
      WithoutMembers(rest, k);
      forall j | 0 <= j < |Without(rest, k)|
        ensures LastUse(history, order[0]) > LastUse(history, Without(rest, k)[j])
      {
        assert Without(rest, k)[j] in rest;
        var i :| 0 <= i < |rest| && rest[i] == Without(rest, k)[j];
        assert order[i + 1] == rest[i];
      }
    }
  }

  lemma {:induction false} LiveStep(history: seq<Event>, e: Event, k: Digest)
    ensures Live(history + [e], k) <==>
            (e == Write(k) || (Live(history, k) && e != Evict(k)))
  {
    var h := history + [e];
    if Live(h, k) {
      var i :| 0 <= i < |h| && h[i] == Write(k) && forall j :: i < j < |h| ==> h[j] != Evict(k);
      if i < |history| {
        assert history[i] == Write(k) && forall j :: i < j < |history| ==> h[j] == history[j];
        assert h[|history|] == e;
      }
    }
    if e == Write(k) {
      assert h[|history|] == Write(k);
    } else if Live(history, k) && e != Evict(k) {
      var i :| 0 <= i < |history| && history[i] == Write(k) && forall j :: i < j < |history| ==> history[j] != Evict(k);
      assert h[i] == Write(k);
      assert forall j :: i < j < |h| ==> h[j] == (if j < |history| then history[j] else e);
    }
  }

  lemma {:induction false} LastUseStep(history: seq<Event>, e: Event, k: Digest)
    ensures LastUse(history + [e], k) ==
            if e == Write(k) || e == Access(k) then |history| else LastUse(history, k)
  {
    assert (history + [e])[..|history|] == history;
  }

  ghost predicate Explains(order: seq<Digest>, history: seq<Event>) {
    Distinct(order) && Recent(order, history) && forall k :: k in order <==> Live(history, k)
  }

  lemma {:induction false} StillRecent(order: seq<Digest>, history: seq<Event>, e: Event)
    requires Recent(order, history) && (e.Evict? || e.k !in order)
    ensures Recent(order, history + [e])
  {
    forall i, j | 0 <= i < j < |order|
      ensures LastUse(history + [e], order[i]) > LastUse(history + [e], order[j])
    {
      assert order[i] in order && order[j] in order;
      LastUseStep(history, e, order[i]);
      LastUseStep(history, e, order[j]);
    }
  }

  lemma {:induction false} NowMostRecent(rest: seq<Digest>, history: seq<Event>, e: Event)
    requires Recent(rest, history) && !e.Evict? && e.k !in rest
    ensures Recent([e.k] + rest, history + [e])
  {
    StillRecent(rest, history, e);
    LastUseStep(history, e, e.k);
    forall j | 0 <= j < |rest| ensures LastUse(history + [e], rest[j]) < |history| {
      assert rest[j] in rest;
      LastUseStep(history, e, rest[j]);
      LastUseSpec(history, rest[j]);
    }
  }

  lemma {:induction false} ApplyExplains(order: seq<Digest>, history: seq<Event>, e: Event)
    requires Explains(order, history)
    ensures Explains(Apply(order, e), history + [e])
  {
    var rest := Without(order, e.k);
    WithoutMembers(order, e.k);
    WithoutDistinct(order, e.k);
    WithoutRecent(order, history, e.k);
    if e.Evict? {
      StillRecent(rest, history, e);
    } else if e.Access? && e.k !in order {
      StillRecent(order, history, e);
    } else {
      ConsDistinct(e.k, rest);
      NowMostRecent(rest, history, e);
    }
    forall k: Digest | true ensures k in Apply(order, e) <==> Live(history + [e], k) {
      LiveStep(history, e, k);
    }
  }

  /** After any calls: the list holds exactly the live keys, once each, most recently used first. */
  lemma {:induction false} HistoryExplains(history: seq<Event>)
    ensures Explains(OrderAfter(history), history)
  {
    if history != [] {
      var n := |history| - 1;
      HistoryExplains(history[..n]);
      ApplyExplains(OrderAfter(history[..n]), history[..n], history[n]);
      assert history == history[..n] + [history[n]];
    }
  }

  /** So the victim is the live key whose last use is oldest. */
  lemma {:induction false} VictimIsOldest(history: seq<Event>)
    requires OrderAfter(history) != []
    ensures var order := OrderAfter(history);
            var v := order[|order| - 1];
            Live(history, v) && forall k :: Live(history, k) && k != v ==> LastUse(history, v) < LastUse(history, k)
  {
    HistoryExplains(history);
    var order := OrderAfter(history);
    var v := order[|order| - 1];
    assert v in order;
    forall k | Live(history, k) && k != v ensures LastUse(history, v) < LastUse(history, k) {
      assert k in order;
      var i :| 0 <= i < |order| && order[i] == k;
    }
  }

  // --- the object ------------------------------------------------------------------------------

  class LruPolicy {
    var ll: seq<Digest>       // front first
    var items: set<Digest>    // the keys that have a list element

    ghost predicate Valid()
      reads this
    {
      Distinct(ll) && forall k :: k in items <==> k in ll
    }

    constructor ()
      ensures Valid() && ll == []
    {
      ll, items := [], {};
    }

    /** container/list: unlink the element of k. */
    method Unlink(k: Digest)
      requires Valid() && k in items
      modifies this`ll
      ensures ll == Without(old(ll), k)
      ensures Distinct(ll) && forall x :: x in ll <==> x in items && x != k
    {
      var i := 0;
      while ll[i] != k
        invariant 0 <= i < |ll| && k in ll[i..]
        decreases |ll| - i
      {
        i := i + 1;
      }
      UnlinkAt(ll, i);
      WithoutMembers(ll, k);
      WithoutDistinct(ll, k);
      ll := ll[..i] + ll[i + 1..];
    }

    method RecordAccess(k: Digest)
      requires Valid()
      modifies this
      ensures Valid() && ll == AccessedIn(old(ll), k)
    {
      if k in items {
        Unlink(k);
        ConsDistinct(k, ll);
        ll := [k] + ll;
      }
    }

    method RecordWrite(k: Digest)
      requires Valid()
      modifies this
      ensures Valid() && ll == Touched(old(ll), k)
    {
      if k in items {
        Unlink(k);
      } else {
        WithoutAbsent(ll, k);
        items := items + {k};
      }
      ConsDistinct(k, ll);
      ll := [k] + ll;
    }

    method RecordEvict(k: Digest)
      requires Valid()
      modifies this
      ensures Valid() && ll == Without(old(ll), k)
    {
      if k in items {
        Unlink(k);
        items := items - {k};
      } else {
        WithoutAbsent(ll, k);
      }
    }

    method NextVictim() returns (v: Option<Digest>)
      requires Valid()
      ensures v == if ll == [] then None else Some(ll[|ll| - 1])
    {
      v := if |ll| == 0 then None else Some(ll[|ll| - 1]);
    }
  }
}
