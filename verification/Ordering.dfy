/**
 The step that orders the staged part of a payload by score.

 `SortedOrders` keeps four maps over the orders that are still to be placed.  They describe one set of
 orders, so looking at the smallest remaining nonce of each signer tells whether an order is blocked.
 */
module Ordering {
  import opened Wrappers
  import opened Multimaps
  import opened Payload
  import opened Spans
  import opened BundleExecution
  import opened Extension
  import opened OrderingRules

  /** `nonces`: signer and nonce of each transaction. */
  function NoncesOf(o: Checkpoint): (r: seq<(Address, int)>)
    ensures forall p :: p in r <==> exists t :: t in Transactions(o) && p == (t.signer, t.nonce)
  {
    var txs := Transactions(o);
    var r := seq(|txs|, i requires 0 <= i < |txs| => (txs[i].signer, txs[i].nonce as int));
    assert forall i :: 0 <= i < |txs| ==> r[i] == (txs[i].signer, txs[i].nonce);
    r
  }

  /** `signers`, each with the hash of the order. */
  function SignersOf(o: Checkpoint, h: Hash): (r: seq<(Address, Hash)>)
    ensures forall p :: p in r <==> p.1 == h && exists t :: t in Transactions(o) && p.0 == t.signer
  {
    var txs := Transactions(o);
    var r := seq(|txs|, i requires 0 <= i < |txs| => (txs[i].signer, h));
    assert forall i :: 0 <= i < |txs| ==> r[i] == (txs[i].signer, h);
    r
  }

  ghost function UsedNonces(orders: Orders): (used: set<(Address, int)>)
    ensures forall p :: p in used <==> exists h :: h in orders && p in NoncesOf(orders[h])
  {
    set h, p | h in orders && p in NoncesOf(orders[h]) :: p
  }

  ghost function Signing(orders: Orders): (signing: set<(Address, Hash)>)
    ensures forall p :: p in signing <==> p.1 in orders && p in SignersOf(orders[p.1], p.1)
  {
    set h, p | h in orders && p in SignersOf(orders[h], h) :: p
  }

  ghost function Scores(s: Scoring, orders: Orders): (scores: set<(int, int)>)
    requires Sound(s, orders)
    ensures forall p :: p in scores <==> p.1 in orders && s.score(orders[p.1]).value == p.0
  {
    set h | h in orders :: (s.score(orders[h]).value, h as int)
  }

  lemma {:induction false} AddingOne(s: Scoring, orders: Orders, h: Hash, o: Checkpoint)
    requires Sound(s, orders) && h !in orders && s.HashOf(o) == Some(h) && s.score(o).Success?
    ensures Sound(s, orders[h := o])
    ensures UsedNonces(orders[h := o]) == UsedNonces(orders) + Members(NoncesOf(o))
    ensures Signing(orders[h := o]) == Signing(orders) + Members(SignersOf(o, h))
    ensures Scores(s, orders[h := o]) == Scores(s, orders) + {(s.score(o).value, h as int)}
  {
    AddingNonces(orders, h, o);
    AddingSigners(orders, h, o);
  }

  lemma {:induction false} AddingNonces(orders: Orders, h: Hash, o: Checkpoint)
    requires h !in orders
    ensures UsedNonces(orders[h := o]) == UsedNonces(orders) + Members(NoncesOf(o))
  {
    var m := orders[h := o];
    forall p | p in UsedNonces(orders) + Members(NoncesOf(o))
      ensures p in UsedNonces(m)
    {
      if p in NoncesOf(o) {
        assert p in NoncesOf(m[h]);
      } else {
        var k :| k in orders && p in NoncesOf(orders[k]);
        assert p in NoncesOf(m[k]);
      }
    }
    forall p | p in UsedNonces(m)
      ensures p in UsedNonces(orders) + Members(NoncesOf(o))
    {
      var k :| k in m && p in NoncesOf(m[k]);
      assert k == h || p in NoncesOf(orders[k]);
    }
  }

  lemma {:induction false} AddingSigners(orders: Orders, h: Hash, o: Checkpoint)
    requires h !in orders
    ensures Signing(orders[h := o]) == Signing(orders) + Members(SignersOf(o, h))
  {
  }

  lemma {:induction false} RemovingOne(s: Scoring, orders: Orders, h: Hash)
    requires Sound(s, orders) && h in orders && NoSharedNonces(orders)
    ensures Sound(s, orders - {h}) && NoSharedNonces(orders - {h})
    ensures UsedNonces(orders - {h}) == UsedNonces(orders) - Members(NoncesOf(orders[h]))
    ensures Signing(orders - {h}) == Signing(orders) - Members(SignersOf(orders[h], h))
    ensures Scores(s, orders - {h}) == Scores(s, orders) - {(s.score(orders[h]).value, h as int)}
  {
    RemovingNonces(orders, h);
    RemovingSigners(orders, h);
  }

  lemma {:induction false} RemovingNonces(orders: Orders, h: Hash)
    requires h in orders && NoSharedNonces(orders)
    ensures UsedNonces(orders - {h}) == UsedNonces(orders) - Members(NoncesOf(orders[h]))
  {
    var m := orders - {h};
    forall p | p in UsedNonces(m)
      ensures p in UsedNonces(orders) && p !in NoncesOf(orders[h])
    {
      var k :| k in m && p in NoncesOf(m[k]);
      assert p in NoncesOf(orders[k]);
      assert ApartFrom(Transactions(orders[k]), Transactions(orders[h]));
    }
    forall p | p in UsedNonces(orders) && p !in NoncesOf(orders[h])
      ensures p in UsedNonces(m)
    {
      var k :| k in orders && p in NoncesOf(orders[k]);
      assert p in NoncesOf(m[k]);
    }
  }

  lemma {:induction false} RemovingSigners(orders: Orders, h: Hash)
    requires h in orders
    ensures Signing(orders - {h}) == Signing(orders) - Members(SignersOf(orders[h], h))
  {
  }

  ghost predicate UsesLower(used: set<(Address, int)>, p: (Address, int)) {
    exists q :: q in used && q.0 == p.0 && q.1 < p.1
  }

  /** Looking at the remaining nonces is enough. */
  lemma {:induction false} BlockedByNonces(o: Checkpoint, orders: Orders)
    ensures Blocked(o, orders) <==> exists p :: p in NoncesOf(o) && UsesLower(UsedNonces(orders), p)
  {
    if Blocked(o, orders) {
      var h :| h in orders && WaitsFor(o, orders[h]);
      var p, q := WaitsByNonces(o, orders[h]);
      assert q in UsedNonces(orders);
      assert UsesLower(UsedNonces(orders), p);
    }
    if p :| p in NoncesOf(o) && UsesLower(UsedNonces(orders), p) {
      var q :| q in UsedNonces(orders) && q.0 == p.0 && q.1 < p.1;
      var h :| h in orders && q in NoncesOf(orders[h]);
      NoncesMakeWait(o, orders[h], p, q);
    }
  }

  lemma {:induction false} WaitsByNonces(o: Checkpoint, other: Checkpoint) returns (p: (Address, int), q: (Address,
      int))
    requires WaitsFor(o, other)
    ensures p in NoncesOf(o) && q in NoncesOf(other) && q.0 == p.0 && q.1 < p.1
  {
    var t, u :| t in Transactions(o) && u in Transactions(other) && u.signer == t.signer && u.nonce < t.nonce;
    p, q := (t.signer, t.nonce), (u.signer, u.nonce);
  }

  lemma {:induction false} NoncesMakeWait(o: Checkpoint, other: Checkpoint, p: (Address, int), q: (Address, int))
    requires p in NoncesOf(o) && q in NoncesOf(other) && q.0 == p.0 && q.1 < p.1
    ensures WaitsFor(o, other)
  {
  }

  /** Some of these nonces is not the lowest of its signer. */
  method SomeUsesLower(uses: seq<(Address, int)>, nonces: Multimap<Address, int>) returns (blocked: bool)
    requires Tidy(nonces) && forall p :: p in uses ==> p in Pairs(nonces)
    ensures blocked <==> exists p :: p in uses && UsesLower(Pairs(nonces), p)
  {
    for i := 0 to |uses|
      invariant forall k :: 0 <= k < i ==> !UsesLower(Pairs(nonces), uses[k])
    {
      var (signer, nonce) := uses[i];
      assert uses[i] in uses;
      var lowest := FindMinimum(nonces[signer]);
      if lowest < nonce {
        assert (signer, lowest) in Pairs(nonces);
        assert UsesLower(Pairs(nonces), uses[i]);
        return true;
      }
    }
    blocked := false;
  }

  lemma {:induction false} FirstUnblockedIsBest(s: Scoring, orders: Orders, byScore: Multimap<int, int>, i: nat)
    requires Sound(s, orders) && Pairs(byScore) == Scores(s, orders) && i < |Ranking(byScore)|
    requires FirstBlocked(orders, Ranking(byScore), i)
    ensures var h := Ranking(byScore)[i].1;
            && h in orders && s.score(orders[h]) == Success(Ranking(byScore)[i].0)
            && (!Blocked(orders[h], orders) ==> IsBest(s, orders, orders[h]))
  {
    var r := Ranking(byScore);
    RankingMeaning(byScore);
    assert r[i] in r && r[i] in Scores(s, orders);
    var o := orders[r[i].1];
    forall h | h in orders && Before(Rank(s, orders[h]), Rank(s, o))
      ensures Blocked(orders[h], orders)
    {
      assert Rank(s, orders[h]) in Pairs(byScore);
      var j :| 0 <= j < |r| && r[j] == Rank(s, orders[h]);
      assert j < i;
      assert BlockedIn(orders, r[j].1);
    }
  }

  lemma {:induction false} NoneUnblocked(s: Scoring, orders: Orders, byScore: Multimap<int, int>)
    requires Sound(s, orders) && Pairs(byScore) == Scores(s, orders)
    requires FirstBlocked(orders, Ranking(byScore), |Ranking(byScore)|)
    ensures AllBlocked(orders)
  {
    RankingMeaning(byScore);
    forall h | h in orders
      ensures Blocked(orders[h], orders)
    {
      assert (s.score(orders[h]).value, h as int) in Pairs(byScore);
      var j :| 0 <= j < |Ranking(byScore)| && Ranking(byScore)[j] == (s.score(orders[h]).value, h as int);
      assert BlockedIn(orders, Ranking(byScore)[j].1);
    }
  }

  lemma {:induction false} UsesAreListed(o: Checkpoint, orders: Orders)
    requires o in orders.Values
    ensures forall p :: p in NoncesOf(o) ==> p in UsedNonces(orders)
  {
    var h :| h in orders && orders[h] == o;
  }

  /** The first orders of the ranking are blocked. */
  ghost predicate FirstBlocked(orders: Orders, ranking: seq<(int, int)>, n: nat) {
    n <= |ranking| && forall j {:trigger ranking[j]} :: 0 <= j < n ==> BlockedIn(orders, ranking[j].1)
  }

  lemma {:induction false} OneMoreBlocked(orders: Orders, ranking: seq<(int, int)>, n: nat)
    requires FirstBlocked(orders, ranking, n) && n < |ranking| && BlockedIn(orders, ranking[n].1)
    ensures FirstBlocked(orders, ranking, n + 1)
  {
  }

  ghost predicate BlockedIn(orders: Orders, h: int) {
    h in orders && Blocked(orders[h], orders)
  }

  /** The checkpoints that are not barriers. */
  function Executables(s: Span): (r: seq<Checkpoint>)
    ensures AllOrders(r)
  {
    if s == [] then []
    else Executables(s[..|s| - 1]) + if s[|s| - 1].IsBarrier() then [] else [s[|s| - 1]]
  }

  lemma {:induction false} SameTransactions(s: Span)
    ensures TransactionsIn(Executables(s)) == TransactionsIn(s)
    decreases |s|
  {
    if s != [] {
      var front, last := s[..|s| - 1], s[|s| - 1];
      SameTransactions(front);
      if !last.IsBarrier() {
        TransactionsSnoc(Executables(front), last);
      } else {
        assert Executables(s) == Executables(front) && TransactionsIn(s) == TransactionsIn(front);
      }
    }
  }

  lemma {:induction false} AllAreExecutables(s: Span)
    requires AllOrders(s)
    ensures Executables(s) == s
    decreases |s|
  {
    if s != [] {
      AllAreExecutables(s[..|s| - 1]);
    }
  }

  lemma {:induction false} ExecutablesOfStaging(s: Span)
    requires s != [] && s[0].IsBarrier() && AllOrders(s[1..])
    ensures Executables(s) == s[1..]
    decreases |s|
  {
    if |s| > 1 {
      var front := s[..|s| - 1];
      assert front[1..] == s[1..][..|s| - 2];
      ExecutablesOfStaging(front);
      assert s[|s| - 1] == s[1..][|s| - 2];
    }
  }

  lemma {:induction false} ExecutablesSnoc(s: Span, i: nat)
    requires i < |s|
    ensures Executables(s[..i + 1]) == Executables(s[..i]) + if s[i].IsBarrier() then [] else [s[i]]
  {
    assert s[..i + 1][..i] == s[..i];
  }

  lemma {:induction false} ByHashSnoc(s: Scoring, orders: seq<Checkpoint>, o: Checkpoint)
    requires AllOrders(orders) && !o.IsBarrier()
    ensures ByHash(s, orders + [o]) == ByHash(s, orders)[s.HashOf(o).value := o]
  {
    assert (orders + [o])[..|orders|] == orders;
  }

  lemma {:induction false} CollectOne(s: Scoring, span: Span, i: nat)
    requires i < |span|
    ensures ByHash(s, Executables(span[..i + 1])) ==
      if span[i].IsBarrier() then ByHash(s, Executables(span[..i]))
      else ByHash(s, Executables(span[..i]))[s.HashOf(span[i]).value := span[i]]
  {
    ExecutablesSnoc(span, i);
    if span[i].IsBarrier() {
      assert Executables(span[..i + 1]) == Executables(span[..i]);
    } else {
      ByHashSnoc(s, Executables(span[..i]), span[i]);
    }
  }

  lemma {:induction false} FewerShareNoNonces(more: Orders, fewer: Orders)
    requires NoSharedNonces(more) && forall h :: h in fewer ==> h in more && more[h] == fewer[h]
    ensures NoSharedNonces(fewer)
  {
  }

  lemma {:induction false} RestoreOne<K, V>(m: map<K, V>, left: set<K>, k: K)
    requires k in left && left <= m.Keys
    ensures k !in m - left && (m - left)[k := m[k]] == m - (left - {k})
  {
  }

  /** The maps are indexes of the orders. */
  ghost predicate Describes(s: Scoring, orders: Orders, bySigner: Multimap<Address, Hash>,
                            byScore: Multimap<int, int>, nonces: Multimap<Address, int>) {
    && Sound(s, orders) && NoSharedNonces(orders)
    && Tidy(bySigner) && Pairs(bySigner) == Signing(orders)
    && Tidy(byScore) && Pairs(byScore) == Scores(s, orders)
    && Tidy(nonces) && Pairs(nonces) == UsedNonces(orders)
  }

  class SortedOrders {
    const scoring: Scoring
    var bySigner: Multimap<Address, Hash>
    var byScore: Multimap<int, int>
    var nonces: Multimap<Address, int>
    var allOrders: Orders

    ghost predicate Valid()
      reads this
    {
      Describes(scoring, allOrders, bySigner, byScore, nonces)
    }

    constructor (scoring: Scoring)
      ensures Valid() && allOrders == map[] && this.scoring == scoring
    {
      this.scoring := scoring;
      bySigner, byScore, nonces, allOrders := map[], map[], map[], map[];
    }

    /** `try_from`. */
    static method TryFrom(scoring: Scoring, span: Span) returns (r: Result<SortedOrders, nat>)
      requires Rising(TransactionsIn(span))
      ensures r.Success? ==> fresh(r.value) && r.value.Valid() && r.value.scoring == scoring
      ensures r.Success? ==> r.value.allOrders == ByHash(scoring, Executables(span))
      ensures r.Failure? ==> exists o :: o in Executables(span) && scoring.score(o) == Failure(r.error)
    {
      var all := Collect(scoring, span);
      SameTransactions(span);
      ByHashSharesNoNonces(scoring, Executables(span));
      var sorted := new SortedOrders(scoring);
      var error := sorted.InsertAll(all);
      if error.Some? {
        return Failure(error.value);
      }
      r := Success(sorted);
    }

    static method Collect(scoring: Scoring, span: Span) returns (all: Orders)
      ensures all == ByHash(scoring, Executables(span))
    {
      all := map[];
      for i := 0 to |span|
        invariant all == ByHash(scoring, Executables(span[..i]))
      {
        CollectOne(scoring, span, i);
        if !span[i].IsBarrier() {
          all := all[scoring.HashOf(span[i]).value := span[i]];
        }
      }
      assert span[..|span|] == span;
    }

    method InsertAll(all: Orders) returns (error: Option<nat>)
      requires Valid() && allOrders == map[] && NoSharedNonces(all)
      requires forall h :: h in all ==> scoring.HashOf(all[h]) == Some(h)
      modifies this
      ensures error.None? ==> Valid() && allOrders == all
      ensures error.Some? ==> exists h :: h in all && scoring.score(all[h]) == Failure(error.value)
    {
      var left := all.Keys;
      while left != {}
        invariant left <= all.Keys && Valid() && allOrders == all - left
        decreases left
      {
        var hash :| hash in left;
        var score := scoring.score(all[hash]);
        if score.Failure? {
          return Some(score.error);
        }
        RestoreOne(all, left, hash);
        FewerShareNoNonces(all, all - (left - {hash}));
        Insert(all[hash], hash, score.value);
        left := left - {hash};
      }
      error := None;
    }

    /** Files one order. */
    method Insert(order: Checkpoint, hash: Hash, score: int)
      requires Valid() && hash !in allOrders && scoring.HashOf(order) == Some(hash) &&
        scoring.score(order) == Success(score)
      requires NoSharedNonces(allOrders[hash := order])
      modifies this
      ensures Valid() && allOrders == old(allOrders)[hash := order]
    {
      AddingOne(scoring, allOrders, hash, order);
      bySigner := IncludeAll(bySigner, SignersOf(order, hash));
      byScore := Include(byScore, score, hash);
      nonces := IncludeAll(nonces, NoncesOf(order));
      allOrders := allOrders[hash := order];
    }

    /** `remove_order`. */
    method RemoveOrder(order: Checkpoint, score: int)
      requires Valid() && scoring.score(order) == Success(score)
      requires exists h :: scoring.HashOf(order) == Some(h) && h in allOrders && allOrders[h] == order
      modifies this
      ensures Valid() && allOrders == old(allOrders) - {scoring.HashOf(order).value}
    {
      var hash := scoring.HashOf(order).value;
      RemovingOne(scoring, allOrders, hash);
      nonces := DiscardAll(nonces, NoncesOf(order));
      byScore := Discard(byScore, score, hash);
      bySigner := DiscardAll(bySigner, SignersOf(order, hash));
      allOrders := allOrders - {hash};
    }

    /** `nth_order_by_score`. */
    method NthOrderByScore(skip: nat) returns (r: Option<(int, int)>)
      requires Valid()
      ensures r == if skip < |Ranking(byScore)| then Some(Ranking(byScore)[skip]) else None
    {
      r := NthEntry(byScore, skip);
    }

    /** Whether some signer of the order has a lower nonce to come.  The sets of nonces looked at exist. */
    method IsBlocked(order: Checkpoint) returns (blocked: bool)
      requires Valid() && order in allOrders.Values
      ensures blocked <==> Blocked(order, allOrders)
    {
      UsesAreListed(order, allOrders);
      BlockedByNonces(order, allOrders);
      blocked := SomeUsesLower(NoncesOf(order), nonces);
    }

    /** One round of `pop_best`: the order at this position, and whether it is blocked. */
    method Candidate(skip: nat) returns (next: Option<(Checkpoint, int)>, blocked: bool)
      requires Valid() && FirstBlocked(allOrders, Ranking(byScore), skip)
      ensures next.None? ==> AllBlocked(allOrders)
      ensures next.Some? ==> skip < |Ranking(byScore)| && scoring.score(next.value.0) == Success(next.value.1)
      ensures next.Some? && !blocked ==> IsBest(scoring, allOrders, next.value.0)
      ensures next.Some? && blocked ==> FirstBlocked(allOrders, Ranking(byScore), skip + 1)
    {
      blocked := false;
      var entry := NthOrderByScore(skip);
      if entry.None? {
        NoneUnblocked(scoring, allOrders, byScore);
        return None, blocked;
      }
      var (score, hash) := entry.value;
      FirstUnblockedIsBest(scoring, allOrders, byScore, skip);
      blocked := IsBlocked(allOrders[hash]);
      next := Some((allOrders[hash], score));
      if blocked {
        OneMoreBlocked(allOrders, Ranking(byScore), skip);
      }
    }

    /** The loop of `pop_best`: skips the blocked orders. */
    method FindBest() returns (r: Option<(Checkpoint, int)>)
      requires Valid()
      ensures r.None? ==> AllBlocked(allOrders)
      ensures r.Some? ==> IsBest(scoring, allOrders, r.value.0) && scoring.score(r.value.0) == Success(r.value.1)
    {
      var skip: nat := 0;
      while true
        invariant FirstBlocked(allOrders, Ranking(byScore), skip)
        decreases |Ranking(byScore)| - skip
      {
        var blocked;
        r, blocked := Candidate(skip);
        if r.None? || !blocked {
          return;
        }
        skip := skip + 1;
      }
    }

    /** `pop_best`. */
    method PopBest() returns (r: Option<Checkpoint>)
      requires Valid()
      modifies this
      ensures Valid()
      ensures r.None? ==> AllBlocked(old(allOrders)) && allOrders == old(allOrders)
      ensures r.Some? ==> IsBest(scoring, old(allOrders), r.value)
      ensures r.Some? ==> allOrders == old(allOrders) - {scoring.HashOf(r.value).value}
    {
      var best := FindBest();
      if best.None? {
        return None;
      }
      RemoveOrder(best.value.0, best.value.1);
      r := Some(best.value.0);
    }

    /** `into_iter`: everything that can be placed, best first. */
    method IntoIter() returns (ordered: seq<Checkpoint>)
      requires Valid()
      modifies this
      ensures Valid() && Greedy(scoring, old(allOrders), ordered, allOrders) && AllBlocked(allOrders)
    {
      ordered := [];
      while true
        invariant Valid() && Greedy(scoring, old(allOrders), ordered, allOrders)
        decreases |allOrders.Keys|
      {
        ghost var before := allOrders;
        var order := PopBest();
        if order.None? {
          return;
        }
        GreedySnoc(scoring, old(allOrders), ordered, before, order.value);
        SmallerDomain(before, scoring.HashOf(order.value).value);
        ordered := ordered + [order.value];
      }
    }
  }

  // ---------------------------------------------------------------------------------------
  // The step

  ghost predicate FirstDifference(s: Scoring, a: seq<Checkpoint>, b: seq<Checkpoint>, n: nat) {
    && n < |a| && n < |b| && s.HashOf(a[n]) != s.HashOf(b[n])
    && forall i :: 0 <= i < n ==> s.HashOf(a[i]) == s.HashOf(b[i])
  }

  method FirstOutOfOrder(s: Scoring, history: Span, ordered: seq<Checkpoint>) returns (r: Option<nat>)
    ensures r.Some? ==> FirstDifference(s, history, ordered, r.value)
    ensures r.None? ==> forall i :: 0 <= i < |history| && i < |ordered| ==> s.HashOf(history[i]) == s.HashOf(ordered[i])
  {
    var i := 0;
    while i < |history| && i < |ordered|
      invariant 0 <= i <= |history| && i <= |ordered|
      invariant forall k :: 0 <= k < i ==> s.HashOf(history[k]) == s.HashOf(ordered[k])
    {
      if s.HashOf(history[i]) != s.HashOf(ordered[i]) {
        return Some(i);
      }
      i := i + 1;
    }
    r := None;
  }

  /** Applies orders one after the other. */
  method Reapply(evm: Evm, base: Checkpoint, orders: seq<Checkpoint>) returns (r: Option<Checkpoint>)
    requires AllOrders(orders)
    ensures r.Some? ==> Extends(evm, base, Sources(orders), r.value)
    ensures r.None? ==> exists i, c :: CannotApply(evm, base, orders, i, c)
  {
    var c := base;
    for i := 0 to |orders|
      invariant AllOrders(orders[..i]) && Extends(evm, base, Sources(orders[..i]), c)
    {
      var e := orders[i].mutation.result.source;
      var next := Apply(evm, c, e);
      if next.Failure? {
        assert CannotApply(evm, base, orders, i, c);
        return None;
      }
      SourcesSnoc(orders, i);
      ExtendsSnoc(evm, base, Sources(orders[..i]), c, e, next.value);
      c := next.value;
    }
    assert orders[..|orders|] == orders;
    r := Some(c);
  }

  /** After the first i orders, the next one cannot be applied. */
  ghost predicate CannotApply(evm: Evm, base: Checkpoint, orders: seq<Checkpoint>, i: int, c: Checkpoint)
    requires AllOrders(orders)
  {
    && 0 <= i < |orders| && AllOrders(orders[..i])
    && Extends(evm, base, Sources(orders[..i]), c) && Execute(evm, c, orders[i].mutation.result.source).Failure?
  }

  /** `placed` are the orders in their new order, `left` those that stayed blocked. */
  ghost predicate Placement(s: Scoring, orders: seq<Checkpoint>, placed: seq<Checkpoint>, left: Orders) {
    AllOrders(orders) && AllOrders(placed) && Greedy(s, ByHash(s, orders), placed, left) && AllBlocked(left)
  }

  /** What the step did with its placement.

      A payload whose orders all stay blocked is returned as it is.  Otherwise the staged part is always
      rebuilt from the last barrier, and the assertion on its length fails exactly if some order is left or
      two had the same hash. */
  ghost predicate Reordered(evm: Evm, s: Scoring, payload: Checkpoint, placed: seq<Checkpoint>, r: Outcome)
    requires HasBarrier(History(payload)) && AllOrders(Staged(payload)) && AllOrders(placed)
  {
    match r
    case Continue(next) =>
      if placed == [] then next == payload
      else
        && Orderable(s, Staged(payload)) && multiset(placed) == multiset(Staged(payload))
        && Extends(evm, Staging(payload)[0], Sources(placed), next)
    case Stop(_) => false
    case Panic => placed != [] && !Orderable(s, Staged(payload))
    case Fail => exists i, c :: CannotApply(evm, Staging(payload)[0], placed, i, c)
  }

  /** `OrderBy::step`. */
  method OrderBy(evm: Evm, s: Scoring, payload: Checkpoint)
    returns (r: Outcome, ghost placed: seq<Checkpoint>, ghost left: Orders)
    requires WellFormed(payload) && HasBarrier(History(payload)) && AllOrders(Staged(payload))
    requires Rising(TransactionsIn(Staged(payload)))
    ensures (r.Fail? && exists o :: o in Staged(payload) && s.score(o).Failure?)
            || (Placement(s, Staged(payload), placed, left) && Reordered(evm, s, payload, placed, r))
    ensures r.Continue? ==> KeepsSealed(payload, r.payload) && r.payload.depth == payload.depth
  {
    var ordered: Option<seq<Checkpoint>>;
    ordered, left := Sort(s, payload);
    if ordered.None? {
      return Fail, [], left;
    }
    placed := ordered.value;
    r := Rebuild(evm, s, payload, ordered.value);
    JudgeRebuilt(evm, s, payload, placed, left, r);
  }

  method Sort(s: Scoring, payload: Checkpoint) returns (ordered: Option<seq<Checkpoint>>, ghost left: Orders)
    requires WellFormed(payload) && HasBarrier(History(payload)) && AllOrders(Staged(payload))
    requires Rising(TransactionsIn(Staged(payload)))
    ensures ordered.Some? ==> Placement(s, Staged(payload), ordered.value, left)
    ensures ordered.None? ==> exists o :: o in Staged(payload) && s.score(o).Failure?
  {
    left := map[];
    OrdersOfStaging(payload);
    var sorted := SortedOrders.TryFrom(s, Staging(payload));
    if sorted.Failure? {
      return None, left;
    }
    var placed := sorted.value.IntoIter();
    left := sorted.value.allOrders;
    PlacedAreOrders(s, Staged(payload), placed, left);
    ordered := Some(placed);
  }

  /** The staged part rebuilt from these orders, whether or not they are all of its orders. */
  ghost predicate Rebuilt(evm: Evm, payload: Checkpoint, ordered: seq<Checkpoint>, r: Outcome)
    requires HasBarrier(History(payload)) && AllOrders(ordered)
  {
    if ordered == [] then r == Continue(payload)
    else
      var barrier := Staging(payload)[0];
      match r
      case Continue(next) => Extends(evm, barrier, Sources(ordered), next) && next.depth == payload.depth
      case Stop(_) => false
      case Panic => exists c :: Extends(evm, barrier, Sources(ordered), c) && c.depth != payload.depth
      case Fail => exists i, c :: CannotApply(evm, barrier, ordered, i, c)
  }

  /** Where the new order differs from the old one, and the rebuilding from there.  The first checkpoint of
      the staging history is a barrier and has no hash, so the two differ from the start. */
  method Rebuild(evm: Evm, s: Scoring, payload: Checkpoint, ordered: seq<Checkpoint>) returns (r: Outcome)
    requires WellFormed(payload) && HasBarrier(History(payload)) && AllOrders(ordered)
    ensures Rebuilt(evm, payload, ordered, r)
  {
    var history := Staging(payload);
    SealedAndStagingRebuildHistory(payload);
    var first := FirstOutOfOrder(s, history, ordered);
    BarrierComesFirst(s, history, ordered);
    if first.None? {
      return Continue(payload);
    }
    DropNone(ordered);
    var rebuilt := Reapply(evm, history[first.value], ordered[first.value..]);
    if rebuilt.None? {
      return Fail;
    }
    if rebuilt.value.depth != payload.depth {
      return Panic;
    }
    r := Continue(rebuilt.value);
  }

  lemma {:induction false} BarrierComesFirst(s: Scoring, history: Span, ordered: seq<Checkpoint>)
    requires history != [] && history[0].IsBarrier() && AllOrders(ordered)
    ensures forall n :: FirstDifference(s, history, ordered, n) ==> n == 0
    ensures ordered != [] ==> s.HashOf(history[0]) != s.HashOf(ordered[0])
  {
  }

  lemma DropNone<T>(s: seq<T>)
    ensures s[0..] == s
  {
  }

  lemma {:induction false} JudgeRebuilt(evm: Evm, s: Scoring, payload: Checkpoint, placed: seq<Checkpoint>,
      left: Orders, r: Outcome)
    requires WellFormed(payload) && HasBarrier(History(payload)) && Rising(TransactionsIn(Staged(payload)))
    requires Placement(s, Staged(payload), placed, left)
    requires Rebuilt(evm, payload, placed, r)
    ensures Reordered(evm, s, payload, placed, r)
    ensures r.Continue? ==> KeepsSealed(payload, r.payload) && r.payload.depth == payload.depth
  {
    if placed != [] {
      PlacesAllIff(s, Staged(payload), placed, left);
      SealedAndStagingRebuildHistory(payload);
      StagedShareSealed(payload, 0);
      if r.Continue? {
        ExtensionKeepsSealed(evm, Staging(payload)[0], Sources(placed), r.payload);
      }
      if r.Panic? {
        var c :| Extends(evm, Staging(payload)[0], Sources(placed), c) && c.depth != payload.depth;
        ExtensionKeepsSealed(evm, Staging(payload)[0], Sources(placed), c);
      }
    }
  }

  lemma {:induction false} OrdersOfStaging(payload: Checkpoint)
    requires WellFormed(payload) && HasBarrier(History(payload)) && AllOrders(Staged(payload))
    ensures Staging(payload) != [] && Staging(payload)[0].IsBarrier()
    ensures Executables(Staging(payload)) == Staged(payload)
    ensures TransactionsIn(Staging(payload)) == TransactionsIn(Staged(payload))
  {
    SealedAndStagingRebuildHistory(payload);
    ExecutablesOfStaging(Staging(payload));
    SameTransactions(Staging(payload));
    SameTransactions(Staged(payload));
    AllAreExecutables(Staged(payload));
  }

  lemma {:induction false} PlacedAreOrders(s: Scoring, orders: seq<Checkpoint>, placed: seq<Checkpoint>, left: Orders)
    requires AllOrders(orders) && Greedy(s, ByHash(s, orders), placed, left)
    ensures AllOrders(placed)
  {
    GreedyAccounts(s, ByHash(s, orders), placed, left);
    forall i | 0 <= i < |placed|
      ensures !placed[i].IsBarrier()
    {
      assert placed[i] in placed;
    }
  }

  /** A bundle with two transactions of one signer is never placed: of a payload with such a bundle and an
      unrelated order, only the other order is. */
  lemma {:induction false} BundleOfOneSignerIsStuck(s: Scoring, bundle: Checkpoint, other: Checkpoint,
                                                    placed: seq<Checkpoint>, left: Orders)
    requires Placement(s, [bundle, other], placed, left) && Rising(TransactionsIn([bundle, other]))
    requires !OnePerSigner(bundle) && OnePerSigner(other) && Rising(Transactions(other))
    requires s.HashOf(bundle) != s.HashOf(other)
    requires !WaitsFor(other, bundle)
    ensures placed == [other]
  {
    var orders := ByHash(s, [bundle, other]);
    GreedyAccounts(s, orders, placed, left);
    OtherIsFiled(s, bundle, other);
    OtherIsNotLeft(s, bundle, other, left);
    ByHashSharesNoNonces(s, [bundle, other]);
    PlacedHaveOnePerSigner(s, orders, placed, left);
    PlacedAreDistinct(s, orders, placed, left);
    OnlyMember(s, placed, other);
  }

  lemma {:induction false} OtherIsFiled(s: Scoring, bundle: Checkpoint, other: Checkpoint)
    requires AllOrders([bundle, other]) && s.HashOf(bundle) != s.HashOf(other)
    ensures var orders := ByHash(s, [bundle, other]);
            && s.HashOf(other).Some? && s.HashOf(other).value in orders && orders[s.HashOf(other).value] == other
            && forall h :: h in orders ==> orders[h] == bundle || orders[h] == other
  {
    var orders := ByHash(s, [bundle, other]);
    assert other in [bundle, other] && orders[s.HashOf(other).value] in [bundle, other];
  }

  lemma {:induction false} OtherIsNotLeft(s: Scoring, bundle: Checkpoint, other: Checkpoint, left: Orders)
    requires s.HashOf(other).Some? && AllBlocked(left) && Rising(Transactions(other))
    requires forall h :: h in left ==> left[h] == bundle || left[h] == other
    requires OnePerSigner(other) && !WaitsFor(other, bundle)
    ensures forall h :: h in left ==> left[h] != other
  {
    SelfWaits(other);
    forall h | h in left
      ensures Blocked(left[h], left) && left[h] != other
    {
    }
  }

  lemma {:induction false} OnlyMember(s: Scoring, placed: seq<Checkpoint>, other: Checkpoint)
    requires DistinctOrders(s, placed) && other in placed && forall o :: o in placed ==> o == other
    ensures placed == [other]
  {
    assert forall i :: 0 <= i < |placed| ==> placed[i] in placed;
    if |placed| > 1 {
      TwoOfOne(s, placed, other);
    }
  }

  lemma {:induction false} TwoOfOne(s: Scoring, placed: seq<Checkpoint>, other: Checkpoint)
    requires |placed| > 1 && forall o :: o in placed ==> o == other
    ensures !DistinctOrders(s, placed)
  {
    assert placed[0] in placed && placed[1] in placed;
  }
}
