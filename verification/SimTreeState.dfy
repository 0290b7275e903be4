/**
 The simulation tree as plain values.

 An order is simulated once, for each account whose nonce is not there yet, some earlier simulation
 is known to bring the account exactly to the nonce that the order needs.  The tree counts what a
 waiting order lacks and keeps, for each missing nonce, the list of orders that wait for it.
 */
module SimTreeState {
  import opened Wrappers
  import opened Sequences
  import opened PoolState
  import opened PrioritizedPool

  type SimulationId = nat
  type Score = int

  datatype SimulationRequest = SimulationRequest(id: SimulationId, order: Order, parents: seq<Order>)

  datatype SimulatedResult = SimulatedResult(
    id: SimulationId,
    score: Score,
    order: Order,
    previousOrders: seq<Order>,
    noncesAfter: seq<AccountNonce>)

  datatype PendingOrder = PendingOrder(order: Order, unsatisfied: nat)

  datatype Tree = Tree(
    sims: map<SimulationId, SimulatedResult>,
    fillers: map<AccountNonce, SimulationId>,
    pendingOrders: map<OrderId, PendingOrder>,
    pendingNonces: map<AccountNonce, seq<OrderId>>,
    readyOrders: seq<SimulationRequest>)

  // ---------------------------------------------------------------------------------------
  // What an order needs, from the nonce source alone

  datatype Scan =
    | Failed(error: NonceError)
    | Stale
    | Needs(considered: set<Address>, keys: seq<AccountNonce>)

  function ScanNonce(s: Scan, n: BundleNonce, source: NonceSource): Scan {
    match s
    case Failed(_) => s
    case Stale => s
    case Needs(considered, keys) =>
      match source(n.address)
      case Failure(e) => Failed(e)
      case Success(onchain) =>
        if onchain == n.nonce then Needs(considered + {n.address}, keys)
        else if onchain > n.nonce then (if n.optional then s else Stale)
        else if n.address in considered then s
        else Needs(considered + {n.address}, keys + [Key(n)])
  }

  /** The first missing nonce of each account, in the order of the nonces. */
  function ScanOrder(nonces: seq<BundleNonce>, source: NonceSource): Scan {
    if nonces == [] then Needs({}, [])
    else ScanNonce(ScanOrder(nonces[..|nonces| - 1], source), nonces[|nonces| - 1], source)
  }

  /** Once a scan has failed or found a stale nonce, the rest does not matter. */
  lemma {:induction false} ScanEndsEarly(nonces: seq<BundleNonce>, i: nat, source: NonceSource)
    requires i <= |nonces| && !ScanOrder(nonces[..i], source).Needs?
    ensures ScanOrder(nonces, source) == ScanOrder(nonces[..i], source)
    decreases |nonces|
  {
    if i == |nonces| {
      assert nonces[..i] == nonces;
    } else {
      assert nonces[..|nonces| - 1][..i] == nonces[..i];
      ScanEndsEarly(nonces[..|nonces| - 1], i, source);
    }
  }

  lemma {:induction false} NeedsAreDistinct(nonces: seq<BundleNonce>, source: NonceSource)
    requires ScanOrder(nonces, source).Needs?
    ensures forall k :: k in ScanOrder(nonces, source).keys ==> k.account in ScanOrder(nonces, source).considered
    ensures Distinct(ScanOrder(nonces, source).keys)
    decreases |nonces|
  {
    if nonces != [] {
      NeedsAreDistinct(nonces[..|nonces| - 1], source);
    }
  }

  /** The keys that an order needs. */
  function NeededKeys(order: Order, source: NonceSource): seq<AccountNonce>
    requires ScanOrder(order.nonces, source).Needs?
  {
    ScanOrder(order.nonces, source).keys
  }

  // ---------------------------------------------------------------------------------------
  // Splitting the needed keys into missing and filled ones

  function Missing(keys: seq<AccountNonce>, fillers: map<AccountNonce, SimulationId>): seq<AccountNonce> {
    if keys == [] then []
    else
      var last := keys[|keys| - 1];
      Missing(keys[..|keys| - 1], fillers) + if last in fillers then [] else [last]
  }

  /** For each filled key, the orders of the simulation that fills it, in the order of the keys. */
  function Parents(keys: seq<AccountNonce>, t: Tree): seq<Order>
    requires FillersAreKnown(t)
  {
    if keys == [] then []
    else
      var last := keys[|keys| - 1];
      Parents(keys[..|keys| - 1], t) +
      if last in t.fillers then t.sims[t.fillers[last]].previousOrders + [t.sims[t.fillers[last]].order] else []
  }

  lemma SplitSnoc(keys: seq<AccountNonce>, key: AccountNonce, t: Tree)
    requires FillersAreKnown(t)
    ensures Missing(keys + [key], t.fillers) == Missing(keys, t.fillers) + if key in t.fillers then [] else [key]
    ensures key in t.fillers ==>
      Parents(keys + [key], t) == Parents(keys, t) + t.sims[t.fillers[key]].previousOrders +
        [t.sims[t.fillers[key]].order]
    ensures key !in t.fillers ==> Parents(keys + [key], t) == Parents(keys, t)
  {
    assert (keys + [key])[..|keys|] == keys;
  }

  lemma ScanSnoc(nonces: seq<BundleNonce>, i: nat, source: NonceSource)
    requires i < |nonces|
    ensures ScanOrder(nonces[..i + 1], source) == ScanNonce(ScanOrder(nonces[..i], source), nonces[i], source)
    ensures !ScanOrder(nonces[..i + 1], source).Needs? ==>
      ScanOrder(nonces, source) == ScanOrder(nonces[..i + 1], source)
  {
    TakeSnoc(nonces, i);
    if !ScanOrder(nonces[..i + 1], source).Needs? {
      ScanEndsEarly(nonces, i + 1, source);
    }
  }

  lemma {:induction false} MissingMembers(keys: seq<AccountNonce>, fillers: map<AccountNonce, SimulationId>)
    requires Distinct(keys)
    ensures Distinct(Missing(keys, fillers))
    ensures forall k :: k in Missing(keys, fillers) <==> k in keys && k !in fillers
    decreases |keys|
  {
    if keys != [] {
      var front, last := keys[..|keys| - 1], keys[|keys| - 1];
      MissingMembers(front, fillers);
      assert keys == front + [last];
    }
  }

  lemma {:induction false} DistinctCount<T>(s: seq<T>)
    requires Distinct(s)
    ensures |set x | x in s| == |s|
    decreases |s|
  {
    if s != [] {
      var front, last := s[..|s| - 1], s[|s| - 1];
      DistinctCount(front);
      assert s == front + [last];
      assert (set x | x in s) == (set x | x in front) + {last};
    }
  }

  // ---------------------------------------------------------------------------------------
  // The invariant

  ghost predicate FillersAreKnown(t: Tree) {
    forall k :: k in t.fillers ==> t.fillers[k] in t.sims
  }

  /** The keys that an order needs and that no simulation fills. */
  ghost function Unmet(order: Order, t: Tree, source: NonceSource): set<AccountNonce>
    requires ScanOrder(order.nonces, source).Needs?
  {
    set k | k in NeededKeys(order, source) && k !in t.fillers
  }

  ghost predicate PendingAreCounted(t: Tree, source: NonceSource) {
    forall id :: id in t.pendingOrders ==>
      var p := t.pendingOrders[id];
      && p.order.id == id
      && ScanOrder(p.order.nonces, source).Needs?
      && p.unsatisfied == |Unmet(p.order, t, source)| > 0
  }

  ghost predicate ListsAreExact(t: Tree, source: NonceSource)
    requires PendingAreCounted(t, source)
  {
    && (forall k, id :: Listed(t.pendingNonces, k, id) <==>
         id in t.pendingOrders && k in Unmet(t.pendingOrders[id].order, t, source))
    && (forall k :: k in t.pendingNonces ==> k !in t.fillers && Distinct(t.pendingNonces[k]))
  }

  ghost predicate Sound(t: Tree, source: NonceSource) {
    FillersAreKnown(t) && PendingAreCounted(t, source) && ListsAreExact(t, source)
  }

  /** The counter of a waiting order is the number of lists that name it, and no list belongs to a
      nonce that a simulation already fills. */
  lemma CounterIsNumberOfLists(t: Tree, source: NonceSource, id: OrderId)
    requires Sound(t, source) && id in t.pendingOrders
    ensures t.pendingOrders[id].unsatisfied == |set k | k in t.pendingNonces && id in t.pendingNonces[k]|
    ensures t.pendingNonces.Keys !! t.fillers.Keys
  {
    var lists := set k | k in t.pendingNonces && id in t.pendingNonces[k];
    assert forall k :: k in lists <==> Listed(t.pendingNonces, k, id);
    assert lists == Unmet(t.pendingOrders[id].order, t, source);
  }

  /** Every order that the tree still holds. */
  ghost function Held(t: Tree): multiset<Order> {
    multiset(PendingSet(t.pendingOrders)) + multiset(OrdersOf(t.readyOrders))
  }

  ghost function PendingSet(pending: map<OrderId, PendingOrder>): set<Order> {
    set id | id in pending :: pending[id].order
  }

  function OrdersOf(requests: seq<SimulationRequest>): (orders: seq<Order>)
    ensures |orders| == |requests|
  {
    seq(|requests|, i requires 0 <= i < |requests| => requests[i].order)
  }

  lemma OrdersOfSnoc(requests: seq<SimulationRequest>, r: SimulationRequest)
    ensures OrdersOf(requests + [r]) == OrdersOf(requests) + [r.order]
  {
  }

  // ---------------------------------------------------------------------------------------
  // Adding a waiting order

  function AddToLists(lists: map<AccountNonce, seq<OrderId>>, keys: seq<AccountNonce>, id: OrderId)
    : map<AccountNonce, seq<OrderId>>
  {
    if keys == [] then lists
    else Append(AddToLists(lists, keys[..|keys| - 1], id), keys[|keys| - 1], id)
  }

  lemma {:induction false} AddToListsLists(
      lists: map<AccountNonce, seq<OrderId>>, keys: seq<AccountNonce>, id: OrderId, k: AccountNonce)
    requires Distinct(keys)
    ensures k in AddToLists(lists, keys, id) <==> k in lists || k in keys
    ensures k in keys ==> AddToLists(lists, keys, id)[k] == (if k in lists then lists[k] else []) + [id]
    ensures k !in keys && k in lists ==> AddToLists(lists, keys, id)[k] == lists[k]
    decreases |keys|
  {
    if keys != [] {
      var front, last := keys[..|keys| - 1], keys[|keys| - 1];
      AddToListsLists(lists, front, id, k);
      assert keys == front + [last];
    }
  }

  function AddWaiting(t: Tree, order: Order, missing: seq<AccountNonce>): Tree {
    t.(pendingNonces := AddToLists(t.pendingNonces, missing, order.id),
       pendingOrders := t.pendingOrders[order.id := PendingOrder(order, |missing|)])
  }

  lemma AddWaitingIsCounted(t: Tree, source: NonceSource, order: Order, missing: seq<AccountNonce>)
    requires PendingAreCounted(t, source)
    requires ScanOrder(order.nonces, source).Needs?
    requires missing == Missing(NeededKeys(order, source), t.fillers) != []
    ensures PendingAreCounted(AddWaiting(t, order, missing), source)
    ensures Unmet(order, t, source) == set k | k in missing
    ensures Distinct(missing)
  {
    var t' := AddWaiting(t, order, missing);
    NeedsAreDistinct(order.nonces, source);
    MissingMembers(NeededKeys(order, source), t.fillers);
    DistinctCount(missing);
    assert Unmet(order, t', source) == set k | k in missing;
    assert missing[0] in Unmet(order, t', source);
    forall id | id in t.pendingOrders
      ensures Unmet(t.pendingOrders[id].order, t', source) == Unmet(t.pendingOrders[id].order, t, source)
    {
    }
  }

  lemma AddWaitingIsListed(t: Tree, source: NonceSource, order: Order, missing: seq<AccountNonce>)
    requires Sound(t, source) && order.id !in t.pendingOrders
    requires PendingAreCounted(AddWaiting(t, order, missing), source)
    requires ScanOrder(order.nonces, source).Needs?
    requires Distinct(missing) && Unmet(order, t, source) == set k | k in missing
    ensures ListsAreExact(AddWaiting(t, order, missing), source)
  {
    var t' := AddWaiting(t, order, missing);
    forall k
      ensures k in t'.pendingNonces <==> k in t.pendingNonces || k in missing
      ensures k in missing ==>
        t'.pendingNonces[k] == (if k in t.pendingNonces then t.pendingNonces[k] else []) + [order.id]
      ensures k !in missing && k in t.pendingNonces ==> t'.pendingNonces[k] == t.pendingNonces[k]
      ensures !Listed(t.pendingNonces, k, order.id)
    {
      AddToListsLists(t.pendingNonces, missing, order.id, k);
    }
    forall k | k in t'.pendingNonces
      ensures k !in t'.fillers && Distinct(t'.pendingNonces[k])
    {
      assert k in missing ==> k in Unmet(order, t, source);
    }
    forall k, id
      ensures Listed(t'.pendingNonces, k, id) <==>
        id in t'.pendingOrders && k in Unmet(t'.pendingOrders[id].order, t', source)
    {
      assert Listed(t'.pendingNonces, k, id) <==> Listed(t.pendingNonces, k, id) || (id == order.id && k in missing);
      assert k in Unmet(order, t', source) <==> k in missing;
    }
  }

  ghost predicate OwnIds(pending: map<OrderId, PendingOrder>) {
    forall id :: id in pending ==> pending[id].order.id == id
  }

  lemma PendingSetAdd(pending: map<OrderId, PendingOrder>, p: PendingOrder)
    requires OwnIds(pending) && p.order.id !in pending
    ensures p.order !in PendingSet(pending)
    ensures PendingSet(pending[p.order.id := p]) == PendingSet(pending) + {p.order}
  {
    var after := pending[p.order.id := p];
    forall o
      ensures o in PendingSet(after) <==> o in PendingSet(pending) + {p.order}
    {
      if o in PendingSet(pending) {
        var id :| id in pending && pending[id].order == o;
        assert id in after && after[id].order == o;
      }
      if o == p.order {
        assert after[p.order.id].order == o;
      }
    }
  }

  lemma BagAdd<T>(s: set<T>, x: T)
    requires x !in s
    ensures multiset(s + {x}) == multiset(s) + multiset{x}
  {
  }

  lemma AddWaitingIsHeld(t: Tree, source: NonceSource, order: Order, missing: seq<AccountNonce>)
    requires PendingAreCounted(t, source) && order.id !in t.pendingOrders
    ensures Held(AddWaiting(t, order, missing)) == Held(t) + multiset{order}
  {
    PendingSetAdd(t.pendingOrders, PendingOrder(order, |missing|));
    BagAdd(PendingSet(t.pendingOrders), order);
  }

  lemma AddWaitingIsSound(t: Tree, source: NonceSource, order: Order)
    requires Sound(t, source) && order.id !in t.pendingOrders
    requires ScanOrder(order.nonces, source).Needs?
    requires Missing(NeededKeys(order, source), t.fillers) != []
    ensures var t' := AddWaiting(t, order, Missing(NeededKeys(order, source), t.fillers));
            Sound(t', source) && Held(t') == Held(t) + multiset{order}
  {
    var missing := Missing(NeededKeys(order, source), t.fillers);
    AddWaitingIsCounted(t, source, order, missing);
    AddWaitingIsListed(t, source, order, missing);
    AddWaitingIsHeld(t, source, order, missing);
  }

  // ---------------------------------------------------------------------------------------
  // Filling a nonce for the first time

  ghost predicate Countable(pending: map<OrderId, PendingOrder>, ids: seq<OrderId>) {
    forall id :: id in ids ==> id in pending && pending[id].unsatisfied > 0
  }

  /** The waiting orders after the counters of `ids` went down; those that reach zero leave. */
  function Filled(pending: map<OrderId, PendingOrder>, ids: seq<OrderId>): map<OrderId, PendingOrder>
    requires Countable(pending, ids)
  {
    map id | id in pending && !(id in ids && pending[id].unsatisfied == 1) ::
      if id in ids then pending[id].(unsatisfied := pending[id].unsatisfied - 1) else pending[id]
  }

  /** The orders that leave, in the order of the list. */
  function ReadyNow(pending: map<OrderId, PendingOrder>, ids: seq<OrderId>): seq<Order>
    requires Countable(pending, ids)
  {
    if ids == [] then []
    else
      var last := ids[|ids| - 1];
      ReadyNow(pending, ids[..|ids| - 1]) + if pending[last].unsatisfied == 1 then [pending[last].order] else []
  }

  lemma {:induction false} ReadyNowMembers(pending: map<OrderId, PendingOrder>, ids: seq<OrderId>, o: Order)
    requires Countable(pending, ids)
    ensures o in ReadyNow(pending, ids) <==>
      exists id :: id in ids && pending[id].unsatisfied == 1 && pending[id].order == o
    decreases |ids|
  {
    if ids != [] {
      var front, last := ids[..|ids| - 1], ids[|ids| - 1];
      ReadyNowMembers(pending, front, o);
      assert ids == front + [last];
    }
  }

  lemma FilledSnoc(pending: map<OrderId, PendingOrder>, ids: seq<OrderId>, id: OrderId)
    requires Countable(pending, ids + [id]) && id !in ids
    ensures Countable(pending, ids)
    ensures id in Filled(pending, ids) && Filled(pending, ids)[id] == pending[id]
    ensures ReadyNow(pending, ids + [id]) ==
            ReadyNow(pending, ids) + if pending[id].unsatisfied == 1 then [pending[id].order] else []
    ensures Filled(pending, ids + [id]) ==
            if pending[id].unsatisfied == 1 then Filled(pending, ids) - {id}
            else Filled(pending, ids)[id := pending[id].(unsatisfied := pending[id].unsatisfied - 1)]
  {
    assert (ids + [id])[..|ids|] == ids;
  }

  lemma PendingSetRemove(pending: map<OrderId, PendingOrder>, id: OrderId)
    requires OwnIds(pending) && id in pending
    ensures pending[id].order in PendingSet(pending)
    ensures PendingSet(pending - {id}) == PendingSet(pending) - {pending[id].order}
  {
    assert pending == (pending - {id})[id := pending[id]];
    PendingSetAdd(pending - {id}, pending[id]);
  }

  lemma PendingSetUpdate(pending: map<OrderId, PendingOrder>, id: OrderId, n: nat)
    requires id in pending
    ensures PendingSet(pending[id := pending[id].(unsatisfied := n)]) == PendingSet(pending)
  {
    var after := pending[id := pending[id].(unsatisfied := n)];
    assert forall x :: x in pending ==> x in after && after[x].order == pending[x].order;
  }

  lemma BagRemove<T>(s: set<T>, x: T)
    requires x in s
    ensures multiset(s) == multiset(s - {x}) + multiset{x}
  {
  }

  /** No waiting order is lost when counters go down: it still waits or it is ready now. */
  lemma {:induction false} FilledConserves(pending: map<OrderId, PendingOrder>, ids: seq<OrderId>)
    requires OwnIds(pending) && Countable(pending, ids) && Distinct(ids)
    ensures OwnIds(Filled(pending, ids))
    ensures multiset(PendingSet(Filled(pending, ids))) + multiset(ReadyNow(pending, ids)) ==
      multiset(PendingSet(pending))
    decreases |ids|
  {
    if ids == [] {
      assert Filled(pending, ids) == pending;
    } else {
      var front, last := ids[..|ids| - 1], ids[|ids| - 1];
      assert ids == front + [last];
      FilledConserves(pending, front);
      FilledSnoc(pending, front, last);
      var before := Filled(pending, front);
      if pending[last].unsatisfied == 1 {
        PendingSetRemove(before, last);
        BagRemove(PendingSet(before), pending[last].order);
      } else {
        PendingSetUpdate(before, last, pending[last].unsatisfied - 1);
      }
    }
  }

  /** The first simulation that brings an account to `key`. */
  function FillKey(t: Tree, key: AccountNonce, id: SimulationId, ids: seq<OrderId>): Tree
    requires Countable(t.pendingOrders, ids)
  {
    t.(fillers := t.fillers[key := id],
       pendingNonces := t.pendingNonces - {key},
       pendingOrders := Filled(t.pendingOrders, ids))
  }

  function WaitingFor(t: Tree, key: AccountNonce): seq<OrderId> {
    if key in t.pendingNonces then t.pendingNonces[key] else []
  }

  lemma WaitingAreCountable(t: Tree, source: NonceSource, key: AccountNonce)
    requires Sound(t, source)
    ensures Countable(t.pendingOrders, WaitingFor(t, key)) && Distinct(WaitingFor(t, key))
    ensures OwnIds(t.pendingOrders)
  {
    forall id | id in WaitingFor(t, key)
      ensures id in t.pendingOrders && t.pendingOrders[id].unsatisfied > 0
    {
      assert Listed(t.pendingNonces, key, id);
    }
  }

  lemma UnmetAfterFill(t: Tree, source: NonceSource, key: AccountNonce, id: SimulationId, o: Order)
    requires ScanOrder(o.nonces, source).Needs?
    ensures Unmet(o, t.(fillers := t.fillers[key := id]), source) == Unmet(o, t, source) - {key}
  {
  }

  lemma FillKeyIsCounted(t: Tree, source: NonceSource, key: AccountNonce, id: SimulationId)
    requires Sound(t, source) && key !in t.fillers && Countable(t.pendingOrders, WaitingFor(t, key))
    ensures PendingAreCounted(FillKey(t, key, id, WaitingFor(t, key)), source)
  {
    var ids := WaitingFor(t, key);
    var t' := FillKey(t, key, id, ids);
    forall x | x in t'.pendingOrders
      ensures var p := t'.pendingOrders[x];
              && p.order.id == x && ScanOrder(p.order.nonces, source).Needs?
              && p.unsatisfied == |Unmet(p.order, t', source)| > 0
    {
      var o := t.pendingOrders[x].order;
      UnmetAfterFill(t, source, key, id, o);
      assert Unmet(o, t', source) == Unmet(o, t, source) - {key};
      assert x in ids <==> Listed(t.pendingNonces, key, x);
      assert x in ids <==> key in Unmet(o, t, source);
    }
  }

  lemma FillKeyIsListed(t: Tree, source: NonceSource, key: AccountNonce, id: SimulationId)
    requires Sound(t, source) && key !in t.fillers && Countable(t.pendingOrders, WaitingFor(t, key))
    requires PendingAreCounted(FillKey(t, key, id, WaitingFor(t, key)), source)
    ensures ListsAreExact(FillKey(t, key, id, WaitingFor(t, key)), source)
  {
    var ids := WaitingFor(t, key);
    var t' := FillKey(t, key, id, ids);
    forall k, x
      ensures Listed(t'.pendingNonces, k, x) <==>
        x in t'.pendingOrders && k in Unmet(t'.pendingOrders[x].order, t', source)
    {
      assert Listed(t'.pendingNonces, k, x) <==> Listed(t.pendingNonces, k, x) && k != key;
      if x in t.pendingOrders {
        var o := t.pendingOrders[x].order;
        UnmetAfterFill(t, source, key, id, o);
        assert Unmet(o, t', source) == Unmet(o, t, source) - {key};
        if x !in t'.pendingOrders {
          assert Listed(t.pendingNonces, key, x);
          OnlyMember(Unmet(o, t, source), key);
        }
      }
    }
  }

  lemma OnlyMember<T>(s: set<T>, x: T)
    requires x in s && |s| == 1
    ensures s == {x}
  {
    assert |s - {x}| == 0;
  }

  /** Orders that leave the waiting list have nothing missing any more. */
  lemma ReadyNowLackNothing(t: Tree, source: NonceSource, key: AccountNonce, id: SimulationId, o: Order)
    requires Sound(t, source) && key !in t.fillers && Countable(t.pendingOrders, WaitingFor(t, key))
    requires o in ReadyNow(t.pendingOrders, WaitingFor(t, key))
    ensures ScanOrder(o.nonces, source).Needs?
    ensures Missing(NeededKeys(o, source), t.fillers[key := id]) == []
  {
    var ids := WaitingFor(t, key);
    ReadyNowMembers(t.pendingOrders, ids, o);
    var x :| x in ids && t.pendingOrders[x].unsatisfied == 1 && t.pendingOrders[x].order == o;
    assert Listed(t.pendingNonces, key, x);
    OnlyMember(Unmet(o, t, source), key);
    UnmetAfterFill(t, source, key, id, o);
    NothingUnmetNothingMissing(o, t.(fillers := t.fillers[key := id]), source);
  }

  lemma NothingUnmetNothingMissing(o: Order, t: Tree, source: NonceSource)
    requires ScanOrder(o.nonces, source).Needs? && Unmet(o, t, source) == {}
    ensures Missing(NeededKeys(o, source), t.fillers) == []
  {
    NeedsAreDistinct(o.nonces, source);
    var missing := Missing(NeededKeys(o, source), t.fillers);
    MissingMembers(NeededKeys(o, source), t.fillers);
    assert forall k :: k in missing ==> k in Unmet(o, t, source);
    HasMember(missing);
  }

  lemma HasMember<T>(s: seq<T>)
    ensures s != [] ==> exists x :: x in s
  {
    if s != [] {
      assert s[0] in s;
    }
  }

  /** Filling a key keeps the tree sound and loses nothing: what leaves the waiting list is ready. */
  lemma FillKeyIsSound(t: Tree, source: NonceSource, key: AccountNonce, id: SimulationId)
    requires Sound(t, source) && key !in t.fillers && id in t.sims
    ensures Countable(t.pendingOrders, WaitingFor(t, key)) && Distinct(WaitingFor(t, key))
    ensures Sound(FillKey(t, key, id, WaitingFor(t, key)), source)
    ensures Held(FillKey(t, key, id, WaitingFor(t, key))) + multiset(ReadyNow(t.pendingOrders, WaitingFor(t, key))) ==
      Held(t)
    ensures forall o :: o in ReadyNow(t.pendingOrders, WaitingFor(t, key)) ==>
      ScanOrder(o.nonces, source).Needs? && Missing(NeededKeys(o, source), t.fillers[key := id]) == []
  {
    WaitingAreCountable(t, source, key);
    FillKeyIsCounted(t, source, key, id);
    FillKeyIsListed(t, source, key, id);
    FilledConserves(t.pendingOrders, WaitingFor(t, key));
    forall o | o in ReadyNow(t.pendingOrders, WaitingFor(t, key))
      ensures ScanOrder(o.nonces, source).Needs? && Missing(NeededKeys(o, source), t.fillers[key := id]) == []
    {
      ReadyNowLackNothing(t, source, key, id, o);
    }
  }

  /** Which simulations fill nonces once `result` is known: a result that changes exactly one nonce
      fills it, unless one with at least its score does. */
  function FillersAfter(t: Tree, result: SimulatedResult): map<AccountNonce, SimulationId>
    requires FillersAreKnown(t)
  {
    if |result.noncesAfter| != 1 then t.fillers
    else
      var key := result.noncesAfter[0];
      if key in t.fillers && result.score <= t.sims[t.fillers[key]].score then t.fillers
      else t.fillers[key := result.id]
  }

  /** The filler of a nonce is never worse than any result that could have filled it. */
  lemma BestFillerWins(t: Tree, result: SimulatedResult, key: AccountNonce)
    requires FillersAreKnown(t) && result.id in t.sims && t.sims[result.id] == result
    requires result.noncesAfter == [key]
    ensures key in FillersAfter(t, result) && FillersAfter(t, result)[key] in t.sims
    ensures t.sims[FillersAfter(t, result)[key]].score >= result.score
    ensures key in t.fillers ==>
      t.sims[FillersAfter(t, result)[key]].score >= t.sims[t.fillers[key]].score
    ensures key in t.fillers && result.score <= t.sims[t.fillers[key]].score ==>
      FillersAfter(t, result)[key] == t.fillers[key]
    ensures forall other :: other != key ==>
      (other in FillersAfter(t, result) <==> other in t.fillers) &&
      (other in t.fillers ==> FillersAfter(t, result)[other] == t.fillers[other])
  {
  }

  lemma SameFillersSameSoundness(t: Tree, t': Tree, source: NonceSource)
    requires Sound(t, source) && FillersAreKnown(t')
    requires t'.fillers.Keys == t.fillers.Keys
    requires t'.pendingOrders == t.pendingOrders && t'.pendingNonces == t.pendingNonces
    ensures Sound(t', source)
  {
    forall o: Order | ScanOrder(o.nonces, source).Needs?
      ensures Unmet(o, t', source) == Unmet(o, t, source)
    {
    }
  }
}
