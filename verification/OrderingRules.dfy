/**
 Ordering by score under nonce dependencies.

 An order is blocked while another order that is still to be placed uses a lower nonce of one of its
 signers.  Orders are placed greedily: always the highest score that is not blocked, and of equal scores
 the smallest hash.
 */
module OrderingRules {
  import opened Wrappers
  import opened Multimaps
  import opened Payload
  import opened Spans
  import opened Extension

  type Orders = map<Hash, Checkpoint>

  /** How orders are identified and scored.  Scores stand for any total order. */
  datatype Scoring = Scoring(bundleHash: Bundle -> Hash, score: Checkpoint -> Result<int, nat>) {
    function HashOf(c: Checkpoint): Option<Hash> {
      match c.mutation
      case Barrier => None
      case Executed(r) =>
        match r.source
        case Single(tx) => Some(tx.hash)
        case Bundled(bundle) => Some(bundleHash(bundle))
    }
  }

  /** Orders are filed under their hashes and have a score. */
  ghost predicate Sound(s: Scoring, orders: Orders) {
    forall h :: h in orders ==> s.HashOf(orders[h]) == Some(h) && s.score(orders[h]).Success?
  }

  /** `o` uses a nonce of some signer for which `p` uses a lower one. */
  ghost predicate WaitsFor(o: Checkpoint, p: Checkpoint) {
    exists t, u :: t in Transactions(o) && u in Transactions(p) && u.signer == t.signer && u.nonce < t.nonce
  }

  ghost predicate Blocked(o: Checkpoint, orders: Orders) {
    exists h :: h in orders && WaitsFor(o, orders[h])
  }

  /** Where an order stands among those that are not blocked. */
  ghost function Rank(s: Scoring, o: Checkpoint): (int, int)
    requires s.score(o).Success? && s.HashOf(o).Some?
  {
    (s.score(o).value, s.HashOf(o).value)
  }

  ghost predicate IsBest(s: Scoring, orders: Orders, o: Checkpoint) {
    && Sound(s, orders)
    && s.HashOf(o).Some? && s.HashOf(o).value in orders && orders[s.HashOf(o).value] == o
    && !Blocked(o, orders)
    && forall h {:trigger Blocked(orders[h], orders)} ::
         h in orders && Before(Rank(s, orders[h]), Rank(s, o)) ==> Blocked(orders[h], orders)
  }

  ghost predicate AllBlocked(orders: Orders) {
    forall h {:trigger Blocked(orders[h], orders)} :: h in orders ==> Blocked(orders[h], orders)
  }

  /** `placed` are the best orders, one after the other, until `rest` is left. */
  ghost predicate Greedy(s: Scoring, orders: Orders, placed: seq<Checkpoint>, rest: Orders) {
    if placed == [] then rest == orders
    else
      var o := placed[|placed| - 1];
      && s.HashOf(o).Some? && s.HashOf(o).value !in rest
      && IsBest(s, rest[s.HashOf(o).value := o], o)
      && Greedy(s, orders, placed[..|placed| - 1], rest[s.HashOf(o).value := o])
  }

  lemma {:induction false} BestIsUnique(s: Scoring, orders: Orders, o: Checkpoint, p: Checkpoint)
    requires IsBest(s, orders, o) && IsBest(s, orders, p)
    ensures o == p
  {
  }

  /** What is best has the highest score of all that are not blocked, and of equal scores the smallest hash. */
  lemma {:induction false} BestHasHighestScore(s: Scoring, orders: Orders, o: Checkpoint, h: Hash)
    requires IsBest(s, orders, o) && h in orders && !Blocked(orders[h], orders)
    ensures s.score(orders[h]).value <= s.score(o).value
    ensures s.score(orders[h]).value == s.score(o).value ==> s.HashOf(o).value <= h
  {
  }

  lemma {:induction false} GreedySnoc(s: Scoring, orders: Orders, placed: seq<Checkpoint>, rest: Orders, o: Checkpoint)
    requires Greedy(s, orders, placed, rest) && IsBest(s, rest, o)
    ensures Greedy(s, orders, placed + [o], rest - {s.HashOf(o).value})
  {
    var h := s.HashOf(o).value;
    assert (rest - {h})[h := o] == rest;
    assert (placed + [o])[..|placed|] == placed;
  }

  // ---------------------------------------------------------------------------------------
  // Nonces along a payload

  /** The nonces of each signer increase along these transactions. */
  ghost predicate Rising(txs: seq<Transaction>) {
    forall i, j :: 0 <= i < j < |txs| && txs[i].signer == txs[j].signer ==> txs[i].nonce < txs[j].nonce
  }

  ghost predicate RisingAcross(a: seq<Transaction>, b: seq<Transaction>) {
    forall t, u :: t in a && u in b && t.signer == u.signer ==> t.nonce < u.nonce
  }

  lemma {:induction false} RisingConcat(a: seq<Transaction>, b: seq<Transaction>)
    ensures Rising(a + b) <==> Rising(a) && Rising(b) && RisingAcross(a, b)
  {
    var all := a + b;
    if Rising(all) {
      forall i, j | 0 <= i < j < |a| && a[i].signer == a[j].signer
        ensures a[i].nonce < a[j].nonce
      {
        assert all[i] == a[i] && all[j] == a[j];
      }
      forall i, j | 0 <= i < j < |b| && b[i].signer == b[j].signer
        ensures b[i].nonce < b[j].nonce
      {
        assert all[|a| + i] == b[i] && all[|a| + j] == b[j];
      }
      forall t, u | t in a && u in b && t.signer == u.signer
        ensures t.nonce < u.nonce
      {
        var i :| 0 <= i < |a| && a[i] == t;
        var j :| 0 <= j < |b| && b[j] == u;
        assert all[i] == t && all[|a| + j] == u;
      }
    }
    if Rising(a) && Rising(b) && RisingAcross(a, b) {
      forall i, j | 0 <= i < j < |all| && all[i].signer == all[j].signer
        ensures all[i].nonce < all[j].nonce
      {
        assert i < |a| ==> all[i] in a;
        assert j >= |a| ==> all[j] in b;
      }
    }
  }

  ghost predicate RisingBy(orders: seq<Checkpoint>) {
    && (forall i :: 0 <= i < |orders| ==> Rising(Transactions(orders[i])))
    && forall i, j :: 0 <= i < j < |orders| ==> RisingAcross(Transactions(orders[i]), Transactions(orders[j]))
  }

  /** Order by order. */
  lemma {:induction false} RisingByOrders(orders: seq<Checkpoint>)
    ensures Rising(TransactionsIn(orders)) <==> RisingBy(orders)
    decreases |orders|
  {
    if orders != [] {
      var front, last := orders[..|orders| - 1], orders[|orders| - 1];
      RisingByOrders(front);
      RisingConcat(TransactionsIn(front), Transactions(last));
      MembersOf(front);
      assert orders == front + [last];
      assert RisingAcross(TransactionsIn(front), Transactions(last)) <==>
             forall i :: 0 <= i < |front| ==> RisingAcross(Transactions(front[i]), Transactions(last));
      RisingBySnoc(front, last);
    }
  }

  lemma {:induction false} RisingBySnoc(front: seq<Checkpoint>, last: Checkpoint)
    ensures RisingBy(front + [last]) <==>
      && RisingBy(front) && Rising(Transactions(last))
      && forall i :: 0 <= i < |front| ==> RisingAcross(Transactions(front[i]), Transactions(last))
  {
    var all := front + [last];
    assert forall i :: 0 <= i < |front| ==> all[i] == front[i];
    assert all[|front|] == last;
  }

  lemma {:induction false} MembersOf(s: Span)
    ensures forall t :: t in TransactionsIn(s) <==> exists i :: 0 <= i < |s| && t in Transactions(s[i])
    decreases |s|
  {
    if s != [] {
      var front := s[..|s| - 1];
      MembersOf(front);
      assert forall i :: 0 <= i < |front| ==> front[i] == s[i];
      forall t | t in TransactionsIn(front)
        ensures exists i :: 0 <= i < |s| && t in Transactions(s[i])
      {
        var i :| 0 <= i < |front| && t in Transactions(front[i]);
        assert t in Transactions(s[i]);
      }
    }
  }

  /** No two transactions of one signer. */
  ghost predicate OnePerSigner(o: Checkpoint) {
    forall i, j :: 0 <= i < j < |Transactions(o)| ==> Transactions(o)[i].signer != Transactions(o)[j].signer
  }

  ghost predicate NoSharedNonces(orders: Orders) {
    forall h, k :: h in orders && k in orders && h != k ==> ApartFrom(Transactions(orders[h]), Transactions(orders[k]))
  }

  ghost predicate ApartFrom(a: seq<Transaction>, b: seq<Transaction>) {
    forall t, u :: t in a && u in b && t.signer == u.signer ==> t.nonce != u.nonce
  }

  /** The orders by their hashes; of two with the same hash the later one. */
  function ByHash(s: Scoring, orders: seq<Checkpoint>): (r: Orders)
    requires AllOrders(orders)
    ensures forall h :: h in r ==> r[h] in orders && s.HashOf(r[h]) == Some(h)
    ensures forall o :: o in orders ==> s.HashOf(o).Some? && s.HashOf(o).value in r
  {
    if orders == [] then map[]
    else
      var o := orders[|orders| - 1];
      ByHash(s, orders[..|orders| - 1])[s.HashOf(o).value := o]
  }

  ghost predicate DistinctOrders(s: Scoring, orders: seq<Checkpoint>) {
    forall i, j :: 0 <= i < j < |orders| ==> s.HashOf(orders[i]) != s.HashOf(orders[j])
  }

  // ---------------------------------------------------------------------------------------
  // What the greedy order means

  lemma {:induction false} MapSize<K, V>(m: map<K, V>, k: K, v: V)
    ensures m[k := v].Keys == m.Keys + {k}
    ensures |m[k := v]| == |m| + if k in m then 0 else 1
  {
    assert |m[k := v].Keys| == |m[k := v]| && |m.Keys| == |m|;
    assert m[k := v].Keys == m.Keys + {k};
  }

  lemma {:induction false} MemberOfSnoc<T>(s: seq<T>)
    requires s != []
    ensures forall x :: x in s <==> x in s[..|s| - 1] || x == s[|s| - 1]
  {
    assert s == s[..|s| - 1] + [s[|s| - 1]];
  }

  lemma {:induction false} DistinctSnoc(s: Scoring, orders: seq<Checkpoint>)
    requires orders != []
    ensures var front, o := orders[..|orders| - 1], orders[|orders| - 1];
            DistinctOrders(s, orders) <==>
              DistinctOrders(s, front) && forall p :: p in front ==> s.HashOf(p) != s.HashOf(o)
  {
    var front, o := orders[..|orders| - 1], orders[|orders| - 1];
    if DistinctOrders(s, orders) {
      forall p | p in front
        ensures s.HashOf(p) != s.HashOf(o)
      {
        var i :| 0 <= i < |front| && front[i] == p;
        assert orders[i] == p;
      }
      assert forall i :: 0 <= i < |front| ==> front[i] == orders[i];
    }
    if DistinctOrders(s, front) && forall p :: p in front ==> s.HashOf(p) != s.HashOf(o) {
      forall i, j | 0 <= i < j < |orders|
        ensures s.HashOf(orders[i]) != s.HashOf(orders[j])
      {
        assert orders[i] == front[i] && front[i] in front;
        assert j < |front| ==> orders[j] == front[j];
      }
    }
  }

  /** Every order is placed once or is left, and the placed ones are not in the rest. */
  ghost predicate Accounted(s: Scoring, orders: Orders, placed: seq<Checkpoint>, rest: Orders) {
    && |orders| == |placed| + |rest| && rest.Keys <= orders.Keys
    && (forall h :: h in rest ==> rest[h] == orders[h])
    && (forall o :: o in placed ==> s.HashOf(o).Some? && s.HashOf(o).value in orders.Keys - rest.Keys
                                    && orders[s.HashOf(o).value] == o)
    && forall h :: h in orders.Keys - rest.Keys ==> orders[h] in placed
  }

  lemma {:induction false} GreedyAccounts(s: Scoring, orders: Orders, placed: seq<Checkpoint>, rest: Orders)
    requires Greedy(s, orders, placed, rest)
    ensures Accounted(s, orders, placed, rest)
    decreases |placed|
  {
    if placed != [] {
      var o := placed[|placed| - 1];
      GreedyAccounts(s, orders, placed[..|placed| - 1], rest[s.HashOf(o).value := o]);
      AccountForOne(s, orders, placed, rest, s.HashOf(o).value);
    }
  }

  lemma {:induction false} AccountForOne(s: Scoring, orders: Orders, placed: seq<Checkpoint>, rest: Orders, h: Hash)
    requires placed != [] && h !in rest && s.HashOf(placed[|placed| - 1]) == Some(h)
    requires Accounted(s, orders, placed[..|placed| - 1], rest[h := placed[|placed| - 1]])
    ensures Accounted(s, orders, placed, rest)
  {
    MapSize(rest, h, placed[|placed| - 1]);
    MemberOfSnoc(placed);
  }

  /** When an order was placed, it did not wait for itself or for those placed later or left. */
  lemma {:induction false} WaitsForNoneLater(s: Scoring, orders: Orders, placed: seq<Checkpoint>, rest: Orders, i: nat)
    requires Greedy(s, orders, placed, rest) && i < |placed|
    ensures forall h :: h in rest ==> !WaitsFor(placed[i], rest[h])
    ensures forall j :: i <= j < |placed| ==> !WaitsFor(placed[i], placed[j])
    decreases |placed|
  {
    var front, o := placed[..|placed| - 1], placed[|placed| - 1];
    var before := rest[s.HashOf(o).value := o];
    assert forall h :: h in rest ==> h in before && before[h] == rest[h];
    assert before[s.HashOf(o).value] == o;
    if i < |front| {
      WaitsForNoneLater(s, orders, front, before, i);
      assert forall j :: 0 <= j < |front| ==> front[j] == placed[j];
    }
  }

  lemma {:induction false} PlacedAreDistinct(s: Scoring, orders: Orders, placed: seq<Checkpoint>, rest: Orders)
    requires Greedy(s, orders, placed, rest)
    ensures DistinctOrders(s, placed)
    decreases |placed|
  {
    if placed != [] {
      var front, o := placed[..|placed| - 1], placed[|placed| - 1];
      var before := rest[s.HashOf(o).value := o];
      PlacedAreDistinct(s, orders, front, before);
      GreedyAccounts(s, orders, front, before);
      DistinctSnoc(s, placed);
      assert s.HashOf(o).value in before;
    }
  }

  /** The nonces of every signer increase along the placed orders. */
  lemma {:induction false} PlacedNoncesRise(s: Scoring, orders: Orders, placed: seq<Checkpoint>, rest: Orders)
    requires Greedy(s, orders, placed, rest) && NoSharedNonces(orders)
    requires forall h :: h in orders ==> Rising(Transactions(orders[h]))
    ensures Rising(TransactionsIn(placed))
  {
    GreedyAccounts(s, orders, placed, rest);
    PlacedAreDistinct(s, orders, placed, rest);
    forall i, j | 0 <= i < j < |placed|
      ensures RisingAcross(Transactions(placed[i]), Transactions(placed[j]))
    {
      WaitsForNoneLater(s, orders, placed, rest, i);
      var o, p := placed[i], placed[j];
      assert o in placed && p in placed && s.HashOf(o) != s.HashOf(p);
      RisesWithoutWaiting(o, p, orders, s.HashOf(o).value, s.HashOf(p).value);
    }
    assert forall o :: o in placed ==> Rising(Transactions(o));
    RisingByOrders(placed);
  }

  lemma {:induction false} RisesWithoutWaiting(o: Checkpoint, p: Checkpoint, orders: Orders, h: Hash, k: Hash)
    requires NoSharedNonces(orders) && h in orders && k in orders && h != k && orders[h] == o && orders[k] == p
    requires !WaitsFor(o, p)
    ensures RisingAcross(Transactions(o), Transactions(p))
  {
    assert ApartFrom(Transactions(o), Transactions(p));
  }

  lemma {:induction false} SelfWaits(o: Checkpoint)
    requires Rising(Transactions(o))
    ensures WaitsFor(o, o) <==> !OnePerSigner(o)
  {
    var txs := Transactions(o);
    if WaitsFor(o, o) {
      var t, u :| t in txs && u in txs && u.signer == t.signer && u.nonce < t.nonce;
      var i :| 0 <= i < |txs| && txs[i] == t;
      var j :| 0 <= j < |txs| && txs[j] == u;
      assert i < j || j < i;
    }
    if !OnePerSigner(o) {
      var i, j :| 0 <= i < j < |txs| && txs[i].signer == txs[j].signer;
      assert txs[i] in txs && txs[j] in txs;
    }
  }

  /** Of orders in a payload whose nonces increase, with at most one transaction of each signer, the
      earliest is never blocked. */
  lemma {:induction false} SomeIsNotBlocked(payload: seq<Checkpoint>, orders: Orders)
    requires Rising(TransactionsIn(payload)) && orders != map[]
    requires forall h :: h in orders ==> orders[h] in payload && OnePerSigner(orders[h])
    ensures !AllBlocked(orders)
  {
    var first, h := Earliest(payload, orders);
    forall k | k in orders
      ensures !WaitsFor(orders[h], orders[k])
    {
      var j :| first <= j < |payload| && payload[j] == orders[k];
      EarlierDoesNotWait(payload, first, j);
    }
    assert !Blocked(orders[h], orders);
  }

  lemma {:induction false} EarlierDoesNotWait(payload: seq<Checkpoint>, i: nat, j: nat)
    requires Rising(TransactionsIn(payload)) && i <= j < |payload| && OnePerSigner(payload[i])
    ensures !WaitsFor(payload[i], payload[j])
  {
    RisingByOrders(payload);
    if i == j {
      SelfWaits(payload[i]);
    } else {
      assert RisingAcross(Transactions(payload[i]), Transactions(payload[j]));
    }
  }

  lemma {:induction false} Earliest(payload: seq<Checkpoint>, orders: Orders) returns (first: nat, h: Hash)
    requires orders != map[] && forall h :: h in orders ==> orders[h] in payload
    ensures h in orders && first < |payload| && payload[first] == orders[h]
    ensures forall k :: k in orders ==> exists j :: first <= j < |payload| && payload[j] == orders[k]
  {
    var indices := set i | 0 <= i < |payload| && payload[i] in orders.Values;
    forall k | k in orders
      ensures exists j :: j in indices && payload[j] == orders[k]
    {
      var j :| 0 <= j < |payload| && payload[j] == orders[k];
      assert j in indices;
    }
    var k :| k in orders;
    var j :| j in indices && payload[j] == orders[k];
    first := Minimum(indices);
    h :| h in orders && orders[h] == payload[first];
  }

  // ---------------------------------------------------------------------------------------
  // The orders of a payload

  lemma {:induction false} ByHashSize(s: Scoring, orders: seq<Checkpoint>)
    requires AllOrders(orders)
    ensures |ByHash(s, orders)| <= |orders|
    ensures |ByHash(s, orders)| == |orders| <==> DistinctOrders(s, orders)
    decreases |orders|
  {
    if orders != [] {
      var front, o := orders[..|orders| - 1], orders[|orders| - 1];
      ByHashSize(s, front);
      MapSize(ByHash(s, front), s.HashOf(o).value, o);
      DistinctSnoc(s, orders);
      assert s.HashOf(o).value in ByHash(s, front) <==> exists p :: p in front && s.HashOf(p) == s.HashOf(o) by {
        if s.HashOf(o).value in ByHash(s, front) {
          assert ByHash(s, front)[s.HashOf(o).value] in front;
        }
      }
    }
  }

  lemma {:induction false} ByHashSharesNoNonces(s: Scoring, orders: seq<Checkpoint>)
    requires AllOrders(orders) && Rising(TransactionsIn(orders))
    ensures NoSharedNonces(ByHash(s, orders))
    ensures forall h :: h in ByHash(s, orders) ==> Rising(Transactions(ByHash(s, orders)[h]))
  {
    RisingByOrders(orders);
    var m := ByHash(s, orders);
    forall h, k | h in m && k in m && h != k
      ensures ApartFrom(Transactions(m[h]), Transactions(m[k]))
    {
      var i :| 0 <= i < |orders| && orders[i] == m[h];
      var j :| 0 <= j < |orders| && orders[j] == m[k];
      if i < j {
        AcrossIsApart(Transactions(orders[i]), Transactions(orders[j]));
      } else {
        AcrossIsApart(Transactions(orders[j]), Transactions(orders[i]));
      }
    }
  }

  lemma {:induction false} AcrossIsApart(a: seq<Transaction>, b: seq<Transaction>)
    requires RisingAcross(a, b)
    ensures ApartFrom(a, b) && ApartFrom(b, a)
  {
  }

  lemma {:induction false} NoRepeats<T>(q: seq<T>)
    requires forall i, j :: 0 <= i < j < |q| ==> q[i] != q[j]
    ensures forall x :: multiset(q)[x] == if x in q then 1 else 0
    decreases |q|
  {
    if q != [] {
      var front, last := q[..|q| - 1], q[|q| - 1];
      NoRepeats(front);
      assert q == front + [last];
      assert multiset(q) == multiset(front) + multiset{last};
    }
  }

  /** No two orders of the payload have the same hash, and none has two transactions of one signer. */
  ghost predicate Orderable(s: Scoring, payload: seq<Checkpoint>) {
    DistinctOrders(s, payload) && forall o :: o in payload ==> OnePerSigner(o)
  }

  /** All orders of the payload are placed, each once, if and only if the payload is orderable; a bundle with
      two transactions of one signer blocks itself and all that come after it. */
  lemma {:induction false} PlacesAllIff(s: Scoring, payload: seq<Checkpoint>, placed: seq<Checkpoint>, rest: Orders)
    requires AllOrders(payload) && Rising(TransactionsIn(payload))
    requires Greedy(s, ByHash(s, payload), placed, rest) && AllBlocked(rest)
    ensures |placed| <= |payload|
    ensures |placed| == |payload| <==> Orderable(s, payload)
    ensures |placed| == |payload| ==> multiset(placed) == multiset(payload)
  {
    AtMostAll(s, payload, placed, rest);
    if |placed| == |payload| {
      PlacedAllMeans(s, payload, placed, rest);
    } else if Orderable(s, payload) {
      LeftImpliesUnblocked(s, payload, rest);
    }
  }

  lemma {:induction false} AtMostAll(s: Scoring, payload: seq<Checkpoint>, placed: seq<Checkpoint>, rest: Orders)
    requires AllOrders(payload) && Greedy(s, ByHash(s, payload), placed, rest)
    ensures |placed| <= |payload|
    ensures DistinctOrders(s, payload) && |placed| != |payload| ==> rest != map[]
    ensures forall h :: h in rest ==> h in ByHash(s, payload) && rest[h] == ByHash(s, payload)[h]
  {
    ByHashSize(s, payload);
    GreedyAccounts(s, ByHash(s, payload), placed, rest);
  }

  /** Whatever is placed, the nonces of every signer increase along it. */
  lemma {:induction false} PlacedNoncesIncrease(s: Scoring, payload: seq<Checkpoint>, placed: seq<Checkpoint>,
      rest: Orders)
    requires AllOrders(payload) && Rising(TransactionsIn(payload)) && Greedy(s, ByHash(s, payload), placed, rest)
    ensures Rising(TransactionsIn(placed))
  {
    ByHashSharesNoNonces(s, payload);
    PlacedNoncesRise(s, ByHash(s, payload), placed, rest);
  }

  lemma {:induction false} LeftImpliesUnblocked(s: Scoring, payload: seq<Checkpoint>, rest: Orders)
    requires AllOrders(payload) && Rising(TransactionsIn(payload)) && rest != map[]
    requires forall h :: h in rest ==> h in ByHash(s, payload) && rest[h] == ByHash(s, payload)[h]
    requires forall o :: o in payload ==> OnePerSigner(o)
    ensures !AllBlocked(rest)
  {
    SomeIsNotBlocked(payload, rest);
  }

  lemma {:induction false} PlacedAllMeans(s: Scoring, payload: seq<Checkpoint>, placed: seq<Checkpoint>, rest: Orders)
    requires AllOrders(payload) && Rising(TransactionsIn(payload))
    requires Greedy(s, ByHash(s, payload), placed, rest) && |placed| == |payload|
    ensures Orderable(s, payload)
    ensures multiset(placed) == multiset(payload)
  {
    SameMembers(s, payload, placed, rest);
    ByHashSharesNoNonces(s, payload);
    PlacedAreDistinct(s, ByHash(s, payload), placed, rest);
    SameMultisets(s, placed, payload);
    PlacedHaveOnePerSigner(s, ByHash(s, payload), placed, rest);
  }

  lemma {:induction false} SameMultisets(s: Scoring, a: seq<Checkpoint>, b: seq<Checkpoint>)
    requires DistinctOrders(s, a) && DistinctOrders(s, b) && forall o :: o in a <==> o in b
    ensures multiset(a) == multiset(b)
  {
    NoRepeats(a);
    NoRepeats(b);
  }

  lemma {:induction false} SameMembers(s: Scoring, payload: seq<Checkpoint>, placed: seq<Checkpoint>, rest: Orders)
    requires AllOrders(payload) && Greedy(s, ByHash(s, payload), placed, rest)
    requires |placed| == |payload|
    ensures DistinctOrders(s, payload) && forall o :: o in placed <==> o in payload
  {
    var orders := ByHash(s, payload);
    ByHashSize(s, payload);
    GreedyAccounts(s, orders, placed, rest);
    assert |rest| == 0 && |rest.Keys| == |rest|;
    forall o | o in payload
      ensures o in placed
    {
      var h := s.HashOf(o).value;
      assert orders[h] in payload && s.HashOf(orders[h]) == s.HashOf(o);
      EqualHashes(s, payload, o, orders[h]);
    }
  }

  lemma {:induction false} EqualHashes(s: Scoring, orders: seq<Checkpoint>, o: Checkpoint, p: Checkpoint)
    requires DistinctOrders(s, orders) && o in orders && p in orders && s.HashOf(o) == s.HashOf(p)
    ensures o == p
  {
    var i :| 0 <= i < |orders| && orders[i] == o;
    var j :| 0 <= j < |orders| && orders[j] == p;
    assert i == j || i < j || j < i;
  }

  lemma {:induction false} PlacedHaveOnePerSigner(s: Scoring, orders: Orders, placed: seq<Checkpoint>, rest: Orders)
    requires Greedy(s, orders, placed, rest)
    requires forall h :: h in orders ==> Rising(Transactions(orders[h]))
    ensures forall o :: o in placed ==> OnePerSigner(o)
  {
    GreedyAccounts(s, orders, placed, rest);
    forall o | o in placed
      ensures OnePerSigner(o)
    {
      var i :| 0 <= i < |placed| && placed[i] == o;
      WaitsForNoneLater(s, orders, placed, rest, i);
      SelfWaits(o);
    }
  }
}
