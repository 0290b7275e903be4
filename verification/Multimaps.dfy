/** Maps from keys to non-empty sets, and the order in which a two-level sorted map is read. */
module Multimaps {
  import opened Wrappers

  type Multimap<K, V> = map<K, set<V>>

  ghost function Pairs<K(!new), V(!new)>(m: Multimap<K, V>): (pairs: set<(K, V)>)
    ensures forall k, v :: (k, v) in pairs <==> k in m && v in m[k]
  {
    set k, v | k in m && v in m[k] :: (k, v)
  }

  /** No key without values. */
  ghost predicate Tidy<K, V>(m: Multimap<K, V>) {
    forall k :: k in m ==> m[k] != {}
  }

  function Include<K(!new), V(!new)>(m: Multimap<K, V>, k: K, v: V): (r: Multimap<K, V>)
    ensures Pairs(r) == Pairs(m) + {(k, v)}
    ensures Tidy(m) ==> Tidy(r)
  {
    m[k := (if k in m then m[k] else {}) + {v}]
  }

  /** The value goes, and with the last value the key. */
  function Discard<K(!new), V(!new)>(m: Multimap<K, V>, k: K, v: V): (r: Multimap<K, V>)
    ensures Pairs(r) == Pairs(m) - {(k, v)}
    ensures Tidy(m) ==> Tidy(r)
  {
    if k !in m then m
    else if m[k] - {v} == {} then
      assert forall x :: x in m[k] ==> x == v || x in m[k] - {v};
      m - {k}
    else m[k := m[k] - {v}]
  }

  ghost function Members<T(!new)>(s: seq<T>): (r: set<T>)
    ensures forall x :: x in r <==> x in s
  {
    set x | x in s
  }

  lemma MembersSnoc<T(!new)>(s: seq<T>, i: nat)
    requires i < |s|
    ensures Members(s[..i + 1]) == Members(s[..i]) + {s[i]}
  {
    assert s[..i + 1] == s[..i] + [s[i]];
  }

  method IncludeAll<K(!new, ==), V(!new, ==)>(m: Multimap<K, V>, pairs: seq<(K, V)>) returns (r: Multimap<K, V>)
    requires Tidy(m)
    ensures Tidy(r) && Pairs(r) == Pairs(m) + Members(pairs)
  {
    r := m;
    for i := 0 to |pairs|
      invariant Tidy(r) && Pairs(r) == Pairs(m) + Members(pairs[..i])
    {
      MembersSnoc(pairs, i);
      r := Include(r, pairs[i].0, pairs[i].1);
    }
    assert pairs[..|pairs|] == pairs;
  }

  method DiscardAll<K(!new, ==), V(!new, ==)>(m: Multimap<K, V>, pairs: seq<(K, V)>) returns (r: Multimap<K, V>)
    requires Tidy(m)
    ensures Tidy(r) && Pairs(r) == Pairs(m) - Members(pairs)
  {
    r := m;
    for i := 0 to |pairs|
      invariant Tidy(r) && Pairs(r) == Pairs(m) - Members(pairs[..i])
    {
      MembersSnoc(pairs, i);
      r := Discard(r, pairs[i].0, pairs[i].1);
    }
    assert pairs[..|pairs|] == pairs;
  }

  // ---------------------------------------------------------------------------------------
  // Sorted sets

  ghost function Pick<T>(s: set<T>): (x: T)
    requires s != {}
    ensures x in s
  {
    var x :| x in s;
    x
  }

  lemma {:induction false} HasMinimum(s: set<int>)
    requires s != {}
    ensures exists x :: IsMinimum(s, x)
    decreases |s|
  {
    var x := Pick(s);
    if s - {x} == {} {
      assert forall z :: z in s ==> z == x || z in s - {x};
      assert IsMinimum(s, x);
    } else {
      HasMinimum(s - {x});
      var y :| IsMinimum(s - {x}, y);
      assert forall z :: z in s ==> z == x || z in s - {x};
      assert IsMinimum(s, if x < y then x else y);
    }
  }

  ghost predicate IsMinimum(s: set<int>, x: int) {
    x in s && forall y :: y in s ==> x <= y
  }

  ghost predicate IsMaximum(s: set<int>, x: int) {
    x in s && forall y :: y in s ==> y <= x
  }

  lemma HasMaximum(s: set<int>)
    requires s != {}
    ensures exists x :: IsMaximum(s, x)
  {
    var negated := set x | x in s :: -x;
    assert -Pick(s) in negated;
    HasMinimum(negated);
    var m :| IsMinimum(negated, m);
    assert forall y :: y in s ==> -y in negated;
    assert IsMaximum(s, -m);
  }

  ghost function Minimum(s: set<int>): (x: int)
    requires s != {}
    ensures IsMinimum(s, x)
  {
    HasMinimum(s);
    var x :| IsMinimum(s, x);
    x
  }

  ghost function Maximum(s: set<int>): (x: int)
    requires s != {}
    ensures IsMaximum(s, x)
  {
    HasMaximum(s);
    var x :| IsMaximum(s, x);
    x
  }

  /** The members in ascending order. */
  ghost function Sorted(s: set<int>): (r: seq<int>)
    ensures |r| == |s|
    decreases |s|
  {
    if s == {} then [] else [Minimum(s)] + Sorted(s - {Minimum(s)})
  }

  lemma ConsSorted(x: int, s: set<int>, r: seq<int>)
    requires forall y :: y in s ==> x < y
    requires forall y :: y in r <==> y in s
    requires forall i, j :: 0 <= i < j < |r| ==> r[i] < r[j]
    ensures forall y :: y in [x] + r <==> y in {x} + s
    ensures forall i, j :: 0 <= i < j < |r| + 1 ==> ([x] + r)[i] < ([x] + r)[j]
  {
    assert forall i :: 0 <= i < |r| ==> r[i] in r;
  }

  lemma {:induction false} SortedMeaning(s: set<int>)
    ensures forall x :: x in Sorted(s) <==> x in s
    ensures forall i, j :: 0 <= i < j < |s| ==> Sorted(s)[i] < Sorted(s)[j]
    decreases |s|
  {
    if s != {} {
      var x := Minimum(s);
      SortedMeaning(s - {x});
      ConsSorted(x, s - {x}, Sorted(s - {x}));
      assert s == {x} + (s - {x});
    }
  }

  /** Reads a sorted set up to its n-th member. */
  method NthSmallest(s: set<int>, n: nat) returns (x: int)
    requires n < |s|
    ensures x == Sorted(s)[n]
  {
    var left: set<int>, skip: nat := s, n;
    while true
      invariant skip < |left| && Sorted(s)[n] == Sorted(left)[skip]
      decreases skip
    {
      x := FindMinimum(left);
      if skip == 0 {
        return;
      }
      left, skip := left - {x}, skip - 1;
    }
  }

  method FindMinimum(s: set<int>) returns (x: int)
    requires s != {}
    ensures x == Minimum(s)
  {
    HasMinimum(s);
    assert exists x :: x in s && forall y :: y in s ==> x <= y by {
      var x :| IsMinimum(s, x);
    }
    x :| x in s && forall y :: y in s ==> x <= y;
  }

  method FindMaximum(s: set<int>) returns (x: int)
    requires s != {}
    ensures x == Maximum(s)
  {
    HasMaximum(s);
    assert exists x :: x in s && forall y :: y in s ==> y <= x by {
      var x :| IsMaximum(s, x);
    }
    x :| x in s && forall y :: y in s ==> y <= x;
  }

  // ---------------------------------------------------------------------------------------
  // Two levels

  /** Key and value: the larger key comes first, then the smaller value. */
  predicate Before(a: (int, int), b: (int, int)) {
    a.0 > b.0 || (a.0 == b.0 && a.1 < b.1)
  }

  ghost function Tagged(k: int, values: seq<int>): (r: seq<(int, int)>)
    ensures |r| == |values| && forall i :: 0 <= i < |r| ==> r[i] == (k, values[i])
  {
    seq(|values|, i requires 0 <= i < |values| => (k, values[i]))
  }

  /** All pairs, the keys in descending order and the values of each key in ascending order. */
  ghost function Ranking(m: Multimap<int, int>): seq<(int, int)>
    decreases |m.Keys|
  {
    if m == map[] then []
    else
      HasKey(m);
      var top := Maximum(m.Keys);
      SmallerDomain(m, top);
      Tagged(top, Sorted(m[top])) + Ranking(m - {top})
  }

  lemma HasKey<K, V>(m: map<K, V>)
    requires m != map[]
    ensures m.Keys != {}
  {
  }

  lemma SmallerDomain<K, V>(m: map<K, V>, k: K)
    requires k in m
    ensures (m - {k}).Keys == m.Keys - {k} && |(m - {k}).Keys| < |m.Keys|
  {
    assert (m - {k}).Keys == m.Keys - {k};
  }

  lemma {:induction false} RankingMeaning(m: Multimap<int, int>)
    ensures forall p :: p in Ranking(m) <==> p in Pairs(m)
    ensures forall i, j :: 0 <= i < j < |Ranking(m)| ==> Before(Ranking(m)[i], Ranking(m)[j])
    decreases |m.Keys|
  {
    if m != map[] {
      HasKey(m);
      var top := Maximum(m.Keys);
      SmallerDomain(m, top);
      RankingMeaning(m - {top});
      SortedMeaning(m[top]);
      TaggedFirst(top, m[top], Ranking(m - {top}));
    }
  }

  lemma TaggedFirst(k: int, values: set<int>, rest: seq<(int, int)>)
    requires forall p :: p in rest ==> p.0 < k
    requires forall i, j :: 0 <= i < j < |rest| ==> Before(rest[i], rest[j])
    ensures var r := Tagged(k, Sorted(values)) + rest;
            && (forall p :: p in r <==> (p.0 == k && p.1 in values) || p in rest)
            && forall i, j :: 0 <= i < j < |r| ==> Before(r[i], r[j])
  {
    SortedMeaning(values);
    var first := Tagged(k, Sorted(values));
    forall p: (int, int) | p.0 == k && p.1 in values
      ensures p in first
    {
      var i :| 0 <= i < |Sorted(values)| && Sorted(values)[i] == p.1;
      assert first[i] == p;
    }
  }

  /** Where an entry of the ranking is found. */
  lemma {:induction false} EntryOfRanking(m: Multimap<int, int>, top: int, n: nat)
    requires m != map[] && top in m && top == Maximum(m.Keys)
    ensures n < |m[top]| ==> n < |Ranking(m)| && Ranking(m)[n] == (top, Sorted(m[top])[n])
    ensures n >= |m[top]| ==> (n < |Ranking(m)| <==> n - |m[top]| < |Ranking(m - {top})|)
    ensures n >= |m[top]| && n < |Ranking(m)| ==> Ranking(m)[n] == Ranking(m - {top})[n - |m[top]|]
  {
    HasKey(m);
  }

  /** Reads the ranking: the n-th entry is in the set of the highest key, which is left behind when it is too
      small. */
  method NthEntry(m: Multimap<int, int>, n: nat) returns (r: Option<(int, int)>)
    ensures r == if n < |Ranking(m)| then Some(Ranking(m)[n]) else None
  {
    var skip: nat := n;
    var later := m;
    while later != map[]
      invariant n < |Ranking(m)| <==> skip < |Ranking(later)|
      invariant n < |Ranking(m)| ==> Ranking(m)[n] == Ranking(later)[skip]
      decreases |later.Keys|
    {
      HasKey(later);
      var top := FindMaximum(later.Keys);
      EntryOfRanking(later, top, skip);
      SmallerDomain(later, top);
      if skip < |later[top]| {
        var value := NthSmallest(later[top], skip);
        return Some((top, value));
      }
      skip := skip - |later[top]|;
      later := later - {top};
    }
    return None;
  }
}
