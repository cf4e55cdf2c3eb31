/** Lists as sequences: taking an element out, keeping first occurrences, taking the first few.

    The recency list and the owner list of a ring are both lists without repetitions from which
    elements are taken out. What follows is how these operations commute with each other and with
    appending. */
module Lists {

  function Without<T(==)>(s: seq<T>, x: T): (r: seq<T>)
    ensures |r| <= |s|
  {
    if s == [] then []
    else if s[0] == x then Without(s[1..], x)
    else [s[0]] + Without(s[1..], x)
  }

  /** First occurrences, in order. */
  function Dedup<T(==)>(s: seq<T>): (r: seq<T>)
    decreases |s|
  {
    if s == [] then [] else [s[0]] + Dedup(Without(s[1..], s[0]))
  }

  function Take<T>(s: seq<T>, n: nat): (r: seq<T>)
    ensures r <= s && |r| <= n
  {
    if n < |s| then s[..n] else s
  }

  ghost predicate Distinct<T>(s: seq<T>) {
    forall i, j :: 0 <= i < j < |s| ==> s[i] != s[j]
  }

  lemma {:induction false} WithoutMembers<T>(s: seq<T>, x: T)
    ensures forall y :: y in Without(s, x) <==> y in s && y != x
  {
    if s != [] {
      WithoutMembers(s[1..], x);
      assert forall y :: y in s <==> y == s[0] || y in s[1..];
    }
  }

  lemma {:induction false} WithoutAppend<T>(a: seq<T>, b: seq<T>, x: T)
    ensures Without(a + b, x) == Without(a, x) + Without(b, x)
  {
    if a == [] {
      assert a + b == b;
    } else {
      assert (a + b)[0] == a[0] && (a + b)[1..] == a[1..] + b;
      WithoutAppend(a[1..], b, x);
    }
  }

  lemma {:induction false} WithoutCommutes<T>(s: seq<T>, x: T, y: T)
    ensures Without(Without(s, x), y) == Without(Without(s, y), x)
  {
    if s != [] {
      WithoutCommutes(s[1..], x, y);
    }
  }

  lemma {:induction false} WithoutTwice<T>(s: seq<T>, x: T)
    ensures Without(Without(s, x), x) == Without(s, x)
  {
    if s != [] {
      WithoutTwice(s[1..], x);
    }
  }

  /** Removing an element and keeping first occurrences commute. */
  lemma {:induction false} DedupWithout<T>(s: seq<T>, x: T)
    ensures Dedup(Without(s, x)) == Without(Dedup(s), x)
    decreases |s|
  {
    if s != [] {
      var y, rest := s[0], Without(s[1..], s[0]);
      DedupWithout(rest, x);
      if y == x {
        WithoutTwice(s[1..], x);
      } else {
        WithoutCommutes(s[1..], x, y);
      }
    }
  }

  lemma {:induction false} DedupMembers<T>(s: seq<T>)
    ensures Distinct(Dedup(s)) && forall y :: y in Dedup(s) <==> y in s
    decreases |s|
  {
    if s != [] {
      var rest := Without(s[1..], s[0]);
      DedupMembers(rest);
      WithoutMembers(s[1..], s[0]);
      assert forall y :: y in s <==> y == s[0] || y in s[1..];
      forall j | 0 <= j < |Dedup(rest)| ensures Dedup(rest)[j] != s[0] {
        assert Dedup(rest)[j] in Dedup(rest);
      }
    }
  }

  lemma {:induction false} DedupSnoc<T>(s: seq<T>, x: T)
    ensures Dedup(s + [x]) == if x in s then Dedup(s) else Dedup(s) + [x]
    decreases |s|
  {
    if s == [] {
      assert s + [x] == [x];
    } else {
      var y, tail := s[0], s[1..];
      assert (s + [x])[0] == y && (s + [x])[1..] == tail + [x];
      WithoutAppend(tail, [x], y);
      WithoutMembers(tail, y);
      assert x in s <==> x == y || x in tail;
      if x != y {
        var rest := Without(tail, y);
        assert Without([x], y) == [x];
        DedupSnoc(rest, x);
        assert [y] + (Dedup(rest) + [x]) == [y] + Dedup(rest) + [x];
      } else {
        assert Without([x], y) == [];
        assert Without(tail, y) + [] == Without(tail, y);
      }
    }
  }

  lemma {:induction false} DedupPrefix<T>(s: seq<T>, n: nat)
    requires n <= |s|
    ensures Dedup(s[..n]) <= Dedup(s)
    decreases |s| - n
  {
    if n < |s| {
      DedupPrefix(s, n + 1);
      DedupLonger(s, n);
      PrefixTransitive(Dedup(s[..n]), Dedup(s[..n + 1]), Dedup(s));
    } else {
      assert s[..n] == s;
    }
  }

  lemma {:induction false} PrefixTransitive<T>(a: seq<T>, b: seq<T>, c: seq<T>)
    requires a <= b <= c
    ensures a <= c
  {
  }

  lemma {:induction false} DedupLonger<T>(s: seq<T>, n: nat)
    requires n < |s|
    ensures Dedup(s[..n]) <= Dedup(s[..n + 1])
  {
    assert s[..n + 1] == s[..n] + [s[n]];
    DedupSnoc(s[..n], s[n]);
  }

  lemma {:induction false} WithoutAbsent<T>(s: seq<T>, x: T)
    requires x !in s
    ensures Without(s, x) == s
  {
    if s != [] {
      WithoutAbsent(s[1..], x);
    }
  }

  /** The first n survivors only depend on the first n+1 elements. */
  lemma {:induction false} TakeWithout<T>(s: seq<T>, x: T, n: nat)
    requires Distinct(s)
    ensures Take(Without(s, x), n) == Take(Without(Take(s, n + 1), x), n)
    decreases |s|
  {
    if n + 1 < |s| {
      if s[0] == x {
        WithoutAbsent(s[1..], x);
        assert s[..n + 1][1..] == s[1..][..n];
        WithoutAbsent(s[1..][..n], x);
      } else if n > 0 {
        TakeWithout(s[1..], x, n - 1);
        var a, b := Without(s[1..], x), Without(Take(s[1..], n), x);
        assert s[..n + 1][1..] == s[1..][..n];
        assert Without(s, x) == [s[0]] + a && Without(s[..n + 1], x) == [s[0]] + b;
        ConsTake(s[0], a, n);
        ConsTake(s[0], b, n);
      }
    }
  }

  lemma {:induction false} ConsTake<T>(x: T, s: seq<T>, n: nat)
    requires n > 0
    ensures Take([x] + s, n) == [x] + Take(s, n - 1)
  {
  }

  lemma {:induction false} CountDistinct<T>(s: seq<T>, members: set<T>)
    requires Distinct(s) && forall y :: y in s <==> y in members
    ensures |s| == |members|
    decreases |s|
  {
    if s == [] {
      assert members == {};
    } else {
      var n := |s| - 1;
      var rest := s[..n];
      assert s == rest + [s[n]];
      CountDistinct(rest, members - {s[n]});
      assert s[n] in members;
    }
  }

  lemma {:induction false} WithoutDistinct<T>(order: seq<T>, k: T)
    requires Distinct(order)
    ensures Distinct(Without(order, k))
  {
    if order != [] {
      var rest := order[1..];
      WithoutDistinct(rest, k);
      WithoutMembers(rest, k);
      forall j | 0 <= j < |Without(rest, k)| ensures Without(rest, k)[j] != order[0] {
        assert Without(rest, k)[j] in Without(rest, k);
      }
    }
  }

  /** Taking out the last element of a distinct list is dropping it. */
  lemma {:induction false} WithoutLast<T>(order: seq<T>)
    requires order != [] && Distinct(order)
    ensures Without(order, order[|order| - 1]) == order[..|order| - 1]
  {
    if |order| > 1 {
      WithoutLast(order[1..]);
      assert order[1..][|order| - 2] == order[|order| - 1];
      assert order[..|order| - 1] == [order[0]] + order[1..][..|order| - 2];
    } else {
      assert Without(order[1..], order[0]) == [];
    }
  }

  lemma {:induction false} ConsDistinct<T>(k: T, rest: seq<T>)
    requires k !in rest && Distinct(rest)
    ensures Distinct([k] + rest)
  {
  }

  lemma {:induction false} UnlinkAt<T>(order: seq<T>, i: nat)
    requires i < |order| && Distinct(order)
    ensures Without(order, order[i]) == order[..i] + order[i + 1..]
    decreases i
  {
    if i == 0 {
      WithoutAbsent(order[1..], order[0]);
      assert order[..0] + order[1..] == order[1..];
    } else {
      var rest := order[1..];
      UnlinkAt(rest, i - 1);
      assert rest[i - 1] == order[i] && order[0] != order[i];
      assert [order[0]] + (rest[..i - 1] + rest[i..]) == order[..i] + order[i + 1..];
    }
  }

  /** First occurrences come in the order of the list: the i-th is the first element not among those
      before it. */
  lemma {:induction false} DedupOrder<T>(s: seq<T>, i: nat) returns (f: nat)
    requires i < |Dedup(s)|
    ensures f < |s| && s[f] == Dedup(s)[i] && forall g :: 0 <= g < f ==> s[g] in Dedup(s)[..i]
    decreases |s|
  {
    var n := |s| - 1;
    if s == [] {
      assert false;
    }
    var before, x := s[..n], s[n];
    assert s == before + [x];
    DedupSnoc(before, x);
    DedupMembers(before);
    if i < |Dedup(before)| {
      f := DedupOrder(before, i);
      assert Dedup(s)[..i] == Dedup(before)[..i];
    } else {
      f := n;
      assert Dedup(s)[..i] == Dedup(before);
    }
  }
}
