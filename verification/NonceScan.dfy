/**
 What the scan over an order's nonces finds, told by the nonces and the nonce source alone.
 */
module NonceScan {
  import opened Wrappers
  import opened PoolState
  import opened PrioritizedPool
  import opened SimTreeState
  import opened SimTree

  /** The source fails on the i-th nonce. */
  predicate FailsAt(nonces: seq<BundleNonce>, source: NonceSource, i: int) {
    0 <= i < |nonces| && source(nonces[i].address).Failure?
  }

  /** The i-th nonce is required and has been used. */
  predicate UsedAt(nonces: seq<BundleNonce>, source: NonceSource, i: int) {
    && 0 <= i < |nonces| && source(nonces[i].address).Success?
    && !nonces[i].optional && nonces[i].nonce < source(nonces[i].address).value
  }

  /** None of the first n nonces decides the scan. */
  ghost predicate OpenUntil(nonces: seq<BundleNonce>, source: NonceSource, n: int) {
    forall j :: 0 <= j < n ==> !FailsAt(nonces, source, j) && !UsedAt(nonces, source, j)
  }

  /** The i-th nonce has not been reached. */
  predicate AheadAt(nonces: seq<BundleNonce>, source: NonceSource, i: int) {
    && 0 <= i < |nonces| && source(nonces[i].address).Success?
    && source(nonces[i].address).value < nonces[i].nonce
  }

  predicate CurrentAt(nonces: seq<BundleNonce>, source: NonceSource, i: int) {
    && 0 <= i < |nonces| && source(nonces[i].address).Success?
    && source(nonces[i].address).value == nonces[i].nonce
  }

  /** The i-th nonce is the first of its account that has not been reached, and no earlier one of the account is the
      current one. */
  ghost predicate NeededAt(nonces: seq<BundleNonce>, source: NonceSource, i: int) {
    && AheadAt(nonces, source, i)
    && forall j :: 0 <= j < i && nonces[j].address == nonces[i].address ==>
         !AheadAt(nonces, source, j) && !CurrentAt(nonces, source, j)
  }

  /** The needed ones of the first n nonces, in order. */
  ghost function NeededOf(nonces: seq<BundleNonce>, source: NonceSource, n: nat): seq<AccountNonce>
    requires n <= |nonces|
  {
    if n == 0 then []
    else
      NeededOf(nonces, source, n - 1) +
      if NeededAt(nonces, source, n - 1) then [AccountNonce(nonces[n - 1].address, nonces[n - 1].nonce)] else []
  }

  /** The accounts that a scan has dealt with. */
  ghost predicate ConsideredAre(nonces: seq<BundleNonce>, source: NonceSource, considered: set<Address>) {
    forall a :: a in considered <==> DealtWith(nonces, source, a)
  }

  ghost predicate DealtWith(nonces: seq<BundleNonce>, source: NonceSource, a: Address) {
    exists j :: 0 <= j < |nonces| && nonces[j].address == a
             && (AheadAt(nonces, source, j) || CurrentAt(nonces, source, j))
  }

  lemma {:induction false} AtPrefix(nonces: seq<BundleNonce>, n: BundleNonce, source: NonceSource, i: int)
    requires 0 <= i < |nonces|
    ensures FailsAt(nonces + [n], source, i) == FailsAt(nonces, source, i)
    ensures UsedAt(nonces + [n], source, i) == UsedAt(nonces, source, i)
    ensures AheadAt(nonces + [n], source, i) == AheadAt(nonces, source, i)
    ensures CurrentAt(nonces + [n], source, i) == CurrentAt(nonces, source, i)
    ensures NeededAt(nonces + [n], source, i) == NeededAt(nonces, source, i)
  {
    var all := nonces + [n];
    assert forall j :: 0 <= j < |nonces| ==> all[j] == nonces[j];
    forall j | 0 <= j < |nonces|
      ensures AheadAt(all, source, j) == AheadAt(nonces, source, j)
      ensures CurrentAt(all, source, j) == CurrentAt(nonces, source, j)
    {
    }
  }

  lemma {:induction false} NeededPrefix(nonces: seq<BundleNonce>, n: BundleNonce, source: NonceSource, k: nat)
    requires k <= |nonces|
    ensures NeededOf(nonces + [n], source, k) == NeededOf(nonces, source, k)
    decreases k
  {
    if k > 0 {
      NeededPrefix(nonces, n, source, k - 1);
      AtPrefix(nonces, n, source, k - 1);
    }
  }

  /** A further nonce is needed if it has not been reached and its account has not been dealt with. */
  lemma {:induction false} NeededNext(nonces: seq<BundleNonce>, n: BundleNonce, source: NonceSource)
    ensures NeededAt(nonces + [n], source, |nonces|) <==>
      AheadAt(nonces + [n], source, |nonces|) && !DealtWith(nonces, source, n.address)
  {
    var all := nonces + [n];
    forall j | 0 <= j < |nonces|
      ensures AheadAt(all, source, j) == AheadAt(nonces, source, j)
      ensures CurrentAt(all, source, j) == CurrentAt(nonces, source, j) && all[j] == nonces[j]
    {
      AtPrefix(nonces, n, source, j);
    }
    assert all[|nonces|] == n;
  }

  lemma {:induction false} ConsideredSnoc(nonces: seq<BundleNonce>, n: BundleNonce, source: NonceSource,
      considered: set<Address>)
    requires ConsideredAre(nonces, source, considered)
    ensures var all := nonces + [n];
            var more := AheadAt(all, source, |nonces|) || CurrentAt(all, source, |nonces|);
            ConsideredAre(all, source, if more then considered + {n.address} else considered)
  {
    var all := nonces + [n];
    assert all[|nonces|] == n;
    forall a
      ensures DealtWith(all, source, a) <==>
        || DealtWith(nonces, source, a)
        || (a == n.address && (AheadAt(all, source, |nonces|) || CurrentAt(all, source, |nonces|)))
    {
      forall i | 0 <= i < |nonces|
        ensures AheadAt(all, source, i) == AheadAt(nonces, source, i)
        ensures CurrentAt(all, source, i) == CurrentAt(nonces, source, i) && all[i] == nonces[i]
      {
        AtPrefix(nonces, n, source, i);
      }
      if DealtWith(nonces, source, a) {
        var j :| 0 <= j < |nonces| && nonces[j].address == a
              && (AheadAt(nonces, source, j) || CurrentAt(nonces, source, j));
        assert all[j].address == a;
      }
    }
  }

  /** What a scan says: the first nonce that decides it, or which nonces are needed. */
  ghost predicate Says(nonces: seq<BundleNonce>, source: NonceSource, s: Scan) {
    match s
    case Failed(e) =>
      exists i :: FailsAt(nonces, source, i) && OpenUntil(nonces, source, i) && source(nonces[i].address) == Failure(e)
    case Stale => exists i :: UsedAt(nonces, source, i) && OpenUntil(nonces, source, i)
    case Needs(considered, keys) =>
      && OpenUntil(nonces, source, |nonces|) && ConsideredAre(nonces, source, considered)
      && keys == NeededOf(nonces, source, |nonces|)
  }

  lemma {:induction false} OpenPrefix(nonces: seq<BundleNonce>, n: BundleNonce, source: NonceSource, i: nat)
    requires i <= |nonces|
    ensures OpenUntil(nonces + [n], source, i) <==> OpenUntil(nonces, source, i)
  {
    forall j | 0 <= j < i
      ensures FailsAt(nonces + [n], source, j) == FailsAt(nonces, source, j)
      ensures UsedAt(nonces + [n], source, j) == UsedAt(nonces, source, j)
    {
      AtPrefix(nonces, n, source, j);
    }
  }

  lemma {:induction false} DecidedStays(nonces: seq<BundleNonce>, n: BundleNonce, source: NonceSource, s: Scan)
    requires Says(nonces, source, s) && !s.Needs?
    ensures Says(nonces + [n], source, s)
  {
    var all := nonces + [n];
    var i :| (FailsAt(nonces, source, i) || UsedAt(nonces, source, i)) && OpenUntil(nonces, source, i)
          && (s.Failed? ==> FailsAt(nonces, source, i) && source(nonces[i].address) == Failure(s.error))
          && (s.Stale? ==> UsedAt(nonces, source, i));
    AtPrefix(nonces, n, source, i);
    OpenPrefix(nonces, n, source, i);
    assert all[i] == nonces[i];
  }

  lemma {:induction false} OpenSnoc(nonces: seq<BundleNonce>, n: BundleNonce, source: NonceSource)
    requires OpenUntil(nonces, source, |nonces|)
    ensures OpenUntil(nonces + [n], source, |nonces|)
    ensures var all, last := nonces + [n], |nonces|;
            !FailsAt(all, source, last) && !UsedAt(all, source, last) ==> OpenUntil(all, source, last + 1)
  {
    OpenPrefix(nonces, n, source, |nonces|);
  }

  lemma {:induction false} NeedsGoOn(nonces: seq<BundleNonce>, n: BundleNonce, source: NonceSource, s: Scan)
    requires Says(nonces, source, s) && s.Needs?
    ensures Says(nonces + [n], source, ScanNonce(s, n, source))
  {
    var all, last := nonces + [n], |nonces|;
    OpenSnoc(nonces, n, source);
    assert all[last] == n;
    if !FailsAt(all, source, last) && !UsedAt(all, source, last) {
      NeedsMore(nonces, n, source, s);
    }
  }

  lemma {:induction false} NeedsMore(nonces: seq<BundleNonce>, n: BundleNonce, source: NonceSource, s: Scan)
    requires Says(nonces, source, s) && s.Needs?
    requires !FailsAt(nonces + [n], source, |nonces|) && !UsedAt(nonces + [n], source, |nonces|)
    ensures Says(nonces + [n], source, ScanNonce(s, n, source))
  {
    var all, last, next := nonces + [n], |nonces|, ScanNonce(s, n, source);
    assert all[last] == n;
    OpenSnoc(nonces, n, source);
    NeededPrefix(nonces, n, source, last);
    NeededNext(nonces, n, source);
    ConsideredSnoc(nonces, n, source, s.considered);
    assert n.address in s.considered <==> DealtWith(nonces, source, n.address);
    assert n.address in s.considered ==> s.considered + {n.address} == s.considered;
  }

  /** The scan is stale if and only if a required nonce has been used and the source does not fail before it; it
      fails if the source does so first.  Otherwise it lists, for each account of which no earlier listed nonce is the
      current one, the first nonce that has not been reached. */
  lemma {:induction false} ScanMeaning(nonces: seq<BundleNonce>, source: NonceSource)
    ensures Says(nonces, source, ScanOrder(nonces, source))
    decreases |nonces|
  {
    if nonces != [] {
      var front, last := nonces[..|nonces| - 1], nonces[|nonces| - 1];
      ScanMeaning(front, source);
      assert nonces == front + [last];
      var s := ScanOrder(front, source);
      if s.Needs? {
        NeedsGoOn(front, last, source, s);
      } else {
        DecidedStays(front, last, source, s);
      }
    }
  }

  /** At most one of the three can be said of an order. */
  lemma {:induction false} SaysOneThing(nonces: seq<BundleNonce>, source: NonceSource, s: Scan, t: Scan)
    requires Says(nonces, source, s) && Says(nonces, source, t)
    ensures s.Failed? <==> t.Failed?
    ensures s.Stale? <==> t.Stale?
  {
  }

  /** An order can never run if and only if a required nonce of it has been used, and the source tells so. */
  lemma {:induction false} StaleIff(order: Order, source: NonceSource, t: Tree)
    requires FillersAreKnown(t)
    ensures StateOf(t, order, source) == Success(NonceState.Invalid) <==>
      exists i :: UsedAt(order.nonces, source, i) && OpenUntil(order.nonces, source, i)
  {
    ScanMeaning(order.nonces, source);
    if i :| UsedAt(order.nonces, source, i) && OpenUntil(order.nonces, source, i) {
      assert Says(order.nonces, source, Stale);
      SaysOneThing(order.nonces, source, ScanOrder(order.nonces, source), Stale);
    }
  }

  /** The orders on top of which another one is simulated: for every nonce that it needs and that is filled, the order
      that fills it, right after the orders that one was simulated on. */
  lemma {:induction false} ParentsMeaning(keys: seq<AccountNonce>, t: Tree, k: AccountNonce)
    returns (before: seq<Order>, after: seq<Order>)
    requires FillersAreKnown(t) && k in keys && k in t.fillers
    ensures Parents(keys, t) == before + t.sims[t.fillers[k]].previousOrders + [t.sims[t.fillers[k]].order] + after
    decreases |keys|
  {
    var front, last := keys[..|keys| - 1], keys[|keys| - 1];
    assert keys == front + [last];
    var sim := t.sims[t.fillers[k]];
    if k == last {
      before, after := Parents(front, t), [];
      assert before + (sim.previousOrders + [sim.order]) == before + sim.previousOrders + [sim.order] + [];
    } else {
      var b, a := ParentsMeaning(front, t, k);
      var more :=
        if last in t.fillers then t.sims[t.fillers[last]].previousOrders + [t.sims[t.fillers[last]].order] else [];
      before, after := b, a + more;
      assert (b + sim.previousOrders + [sim.order] + a) + more == b + sim.previousOrders + [sim.order] + (a + more);
    }
  }

  /** And no other orders. */
  lemma {:induction false} OnlyParents(keys: seq<AccountNonce>, t: Tree, o: Order)
    requires FillersAreKnown(t) && o in Parents(keys, t)
    ensures exists k :: k in keys && k in t.fillers && FillsFor(t, k, o)
    decreases |keys|
  {
    var front, last := keys[..|keys| - 1], keys[|keys| - 1];
    assert keys == front + [last];
    if o in Parents(front, t) {
      OnlyParents(front, t, o);
    } else {
      assert FillsFor(t, last, o);
    }
  }

  /** The order is the one whose simulation fills the nonce, or one that this was simulated on. */
  ghost predicate FillsFor(t: Tree, k: AccountNonce, o: Order)
    requires FillersAreKnown(t) && k in t.fillers
  {
    o == t.sims[t.fillers[k]].order || o in t.sims[t.fillers[k]].previousOrders
  }
}
