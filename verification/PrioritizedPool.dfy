/**
 The prioritized order pool.

 A builder pops the best ready order, tries to include it, and reports the nonces that changed.
 Every method keeps the indexes consistent, so that the queue holds exactly the orders that can
 run now; the `expect` calls of the original are the map lookups below.
 */
module PrioritizedPool {
  import opened Wrappers
  import opened PoolState

  type NonceError = nat

  /** Where nonces of accounts come from that the pool has not seen yet. */
  type NonceSource = Address -> Result<nat, NonceError>

  lemma {:induction false} EarlyKeysExtend(nonces: seq<BundleNonce>, onchain: map<Address, nat>,
      more: map<Address, nat>)
    requires forall n :: n in nonces ==> n.address in onchain
    requires Extends(onchain, more)
    ensures EarlyKeys(nonces, more) == EarlyKeys(nonces, onchain)
    decreases |nonces|
  {
    if nonces != [] {
      EarlyKeysExtend(nonces[..|nonces| - 1], onchain, more);
    }
  }

  ghost predicate Subset(now: map<OrderId, Order>, before: map<OrderId, Order>) {
    forall id :: id in now ==> id in before && now[id] == before[id]
  }

  /** Apart from the orders in flight, only orders that can never run have been lost. */
  ghost predicate OnlyPassedLost(before: map<OrderId, Order>, now: map<OrderId, Order>, flight: set<OrderId>,
                                 onchain: map<Address, nat>) {
    && Subset(now, before)
    && forall id :: id in before && id !in now && id !in flight ==> Passed(before[id], onchain)
  }

  function Ids(orders: seq<Order>): set<OrderId> {
    set o | o in orders :: o.id
  }

  ghost predicate DistinctIds(orders: seq<Order>) {
    forall i, j :: 0 <= i < j < |orders| ==> orders[i].id != orders[j].id
  }

  lemma DropFirstId(orders: seq<Order>, i: nat)
    requires DistinctIds(orders) && i < |orders|
    ensures orders[i].id in Ids(orders[i..])
    ensures Ids(orders[i + 1..]) == Ids(orders[i..]) - {orders[i].id}
  {
    assert orders[i..][0] == orders[i] && orders[i..] == [orders[i]] + orders[i + 1..];
    forall o | o in orders[i + 1..]
      ensures o.id != orders[i].id
    {
      var j :| 0 <= j < |orders[i + 1..]| && orders[i + 1..][j] == o;
      assert o == orders[i + 1 + j];
    }
  }

  lemma PutBack(m: map<OrderId, Order>, id: OrderId)
    requires id in m
    ensures (m - {id})[id := m[id]] == m
  {
  }

  class PrioritizedOrderpool {
    var mainQueue: map<OrderId, Priority>
    var mainQueueNonces: map<Address, seq<OrderId>>
    var onchainNonces: map<Address, nat>
    var pendingOrders: map<AccountNonce, seq<OrderId>>
    var orders: map<OrderId, Order>
    ghost const catalog: Catalog

    ghost function View(): State
      reads this
    {
      State(mainQueue, mainQueueNonces, onchainNonces, pendingOrders, orders)
    }

    ghost predicate Valid()
      reads this
    {
      Consistent(View(), catalog)
    }

    constructor (ghost catalog: Catalog)
      requires IdsAreIdentities(catalog)
      ensures Valid() && this.catalog == catalog
      ensures View() == State(map[], map[], map[], map[], map[])
    {
      mainQueue, mainQueueNonces, onchainNonces, pendingOrders, orders := map[], map[], map[], map[], map[];
      this.catalog := catalog;
    }

    /** A copy of its own. */
    method Clone() returns (copy: PrioritizedOrderpool)
      requires Valid()
      ensures fresh(copy) && copy.Valid() && copy.View() == View() && copy.catalog == catalog
    {
      copy := new PrioritizedOrderpool(catalog);
      copy.mainQueue, copy.mainQueueNonces, copy.onchainNonces := mainQueue, mainQueueNonces, onchainNonces;
      copy.pendingOrders, copy.orders := pendingOrders, orders;
    }

    /** The order with the highest priority among the ready ones. */
    method PopOrder() returns (r: Option<Order>)
      requires Valid()
      modifies this
      ensures Valid()
      ensures r.None? <==> forall id :: id in old(orders) ==> !Ready(old(orders)[id], old(onchainNonces))
      ensures r.None? ==> View() == old(View())
      ensures r.Some? ==>
        var id := r.value.id;
        && id in old(orders) && old(orders)[id] == r.value && Ready(r.value, onchainNonces)
        && (forall other :: other in old(orders) && Ready(old(orders)[other], onchainNonces) ==>
              old(orders)[other].priority <= r.value.priority)
        && orders == old(orders) - {id} && |orders| < |old(orders)|
        && onchainNonces == old(onchainNonces) && pendingOrders == old(pendingOrders)
    {
      QueueIsExact(View(), catalog);
      if mainQueue == map[] {
        return None;
      }
      BestExists(mainQueue);
      var id :| IsBest(mainQueue, id);
      var order := TakeFromQueue(id);
      r := Some(order);
    }

    /** Removes an order from the queue and from everything that goes with it. */
    method TakeFromQueue(id: OrderId, ghost unsettled: set<OrderId> := {}, ghost keys: set<AccountNonce> := {})
        returns (order: Order)
      requires Inv(View(), catalog, unsettled, keys, {}) && id in mainQueue
      modifies this
      ensures Inv(View(), catalog, unsettled - {id}, keys, {})
      ensures unsettled == {} && keys == {} ==> Valid()
      ensures id in old(orders) && order == old(orders)[id] && order.id == id
      ensures order == catalog(id) && Recorded(order, onchainNonces)
      ensures orders == old(orders) - {id} && |orders| < |old(orders)|
      ensures mainQueue == old(mainQueue) - {id}
      ensures onchainNonces == old(onchainNonces) && pendingOrders == old(pendingOrders)
    {
      TakenFromQueue(View(), catalog, id, unsettled, keys);
      order := Detach(id);
      assert unsettled == {} ==> unsettled - {id} == {};
    }

    method Detach(id: OrderId) returns (order: Order)
      requires id in orders && orders[id].id == id
      modifies this
      ensures order == old(orders)[id] && View() == TakeQueued(old(View()), order)
    {
      mainQueue := mainQueue - {id};
      order := RemovePoppedOrder(id);
    }

    /** Takes an order that has left the queue out of the other indexes as well. */
    method RemovePoppedOrder(id: OrderId) returns (order: Order)
      requires id in orders && orders[id].id == id
      modifies this`mainQueueNonces, this`orders
      ensures order == old(orders)[id]
      ensures orders == old(orders) - {id}
      ensures mainQueueNonces == UnlistOrder(old(mainQueueNonces), order)
    {
      order := orders[id];
      orders := orders - {id};
      for i := 0 to |order.nonces|
        invariant orders == old(orders) - {id}
        invariant mainQueueNonces == UnlistNonces(old(mainQueueNonces), order.nonces[..i], id)
      {
        TakeSnoc(order.nonces, i);
        var a := order.nonces[i].address;
        if a in mainQueueNonces {
          mainQueueNonces := mainQueueNonces[a := Without(mainQueueNonces[a], id)];
        }
      }
      assert order.nonces[..|order.nonces|] == order.nonces;
      UnlistsOrder(old(mainQueueNonces), order);
    }

    /** The recorded nonce of an account, asking the source only the first time. */
    method Nonce(address: Address, source: NonceSource) returns (r: Result<nat, NonceError>)
      modifies this`onchainNonces
      ensures address in old(onchainNonces) ==>
        onchainNonces == old(onchainNonces) && r == Success(onchainNonces[address])
      ensures address !in old(onchainNonces) ==>
        r == source(address) &&
        onchainNonces == if r.Success? then old(onchainNonces)[address := r.value] else old(onchainNonces)
    {
      if address in onchainNonces {
        return Success(onchainNonces[address]);
      }
      r := source(address);
      if r.Success? {
        onchainNonces := onchainNonces[address := r.value];
      }
    }

    /** Adds an order, unless the pool has it or one of its nonces is used up.  The ghost parameters are
        the exceptions to the invariant while another operation is under way. */
    method InsertOrder(order: Order, source: NonceSource, ghost unsettled: set<OrderId> := {},
                       ghost keys: set<AccountNonce> := {}, ghost flight: set<OrderId> := {})
        returns (r: Result<(), NonceError>)
      requires Inv(View(), catalog, unsettled, keys, flight)
      requires order == catalog(order.id)
      modifies this
      ensures Inv(View(), catalog, unsettled, keys, if r.Success? then flight - {order.id} else flight)
      ensures Extends(old(onchainNonces), onchainNonces)
      ensures forall a :: a in onchainNonces && a !in old(onchainNonces) ==> source(a) == Success(onchainNonces[a])
      ensures Recorded(order, old(onchainNonces)) ==> r.Success? && onchainNonces == old(onchainNonces)
      ensures order.id in old(orders) ==> r.Success? && View() == old(View())
      ensures r.Success? && order.id !in old(orders) ==>
        orders == if Passed(order, onchainNonces) then old(orders) else old(orders)[order.id := order]
      ensures r.Failure? ==>
        && View() == old(View()).(onchain := onchainNonces)
        && exists n :: n in order.nonces && n.address !in onchainNonces && source(n.address) == Result.Failure(r.error)
    {
      if order.id in orders {
        return Success(());
      }
      ghost var before := View();
      var early := Classify(order, source);
      ExtendKeepsInv(before, catalog, onchainNonces, unsettled, keys, flight);
      ghost var checked := View();
      if early.Failure? {
        return Result.Failure(early.error);
      }
      match early.value {
        case None =>
          DropKeepsInv(checked, catalog, order.id, unsettled, keys, flight);
          return Success(());
        case Some(pendingNonces) =>
          NotEarlyIsReady(order, onchainNonces);
          if pendingNonces == [] {
            AddReadyKeepsInv(checked, catalog, order, unsettled, keys, flight);
            mainQueue := mainQueue[order.id := order.priority];
            PushToLists(order);
          } else {
            AddPendingKeepsInv(checked, catalog, order, unsettled, keys, flight);
            PushToPending(pendingNonces, order.id);
          }
      }
      orders := orders[order.id := order];
      r := Success(());
    }

    /** Compares the order's nonces with the recorded ones.  None: a nonce is used up; otherwise the keys
        that the order is too early for. */
    method Classify(order: Order, source: NonceSource) returns (r: Result<Option<seq<AccountNonce>>, NonceError>)
      modifies this`onchainNonces
      ensures Extends(old(onchainNonces), onchainNonces)
      ensures forall a :: a in onchainNonces && a !in old(onchainNonces) ==> source(a) == Success(onchainNonces[a])
      ensures Recorded(order, old(onchainNonces)) ==> r.Success? && onchainNonces == old(onchainNonces)
      ensures r.Success? ==> (r.value.None? <==> Passed(order, onchainNonces))
      ensures r.Success? && r.value.Some? ==>
        Recorded(order, onchainNonces) && r.value.value == EarlyKeys(order.nonces, onchainNonces)
      ensures r.Failure? ==>
        exists n :: n in order.nonces && n.address !in onchainNonces && source(n.address) == Result.Failure(r.error)
    {
      var pendingNonces: seq<AccountNonce> := [];
      for i := 0 to |order.nonces|
        invariant Extends(old(onchainNonces), onchainNonces)
        invariant forall a :: a in onchainNonces && a !in old(onchainNonces) ==> source(a) == Success(onchainNonces[a])
        invariant Recorded(order, old(onchainNonces)) ==> onchainNonces == old(onchainNonces)
        invariant forall n :: n in order.nonces[..i] ==>
          n.address in onchainNonces && (onchainNonces[n.address] <= n.nonce || n.optional)
        invariant pendingNonces == EarlyKeys(order.nonces[..i], onchainNonces)
      {
        var n := order.nonces[i];
        TakeSnoc(order.nonces, i);
        ghost var known := onchainNonces;
        var onchain := Nonce(n.address, source);
        if onchain.Failure? {
          return Result.Failure(onchain.error);
        }
        EarlyKeysExtend(order.nonces[..i], known, onchainNonces);
        if onchain.value > n.nonce && !n.optional {
          return Success(None);
        }
        if onchain.value < n.nonce && !n.optional {
          pendingNonces := pendingNonces + [Key(n)];
        }
      }
      assert order.nonces[..|order.nonces|] == order.nonces;
      r := Success(Some(pendingNonces));
    }

    method PushToLists(order: Order)
      modifies this`mainQueueNonces
      ensures mainQueueNonces == ListOrder(old(mainQueueNonces), order.nonces, order.id)
    {
      for i := 0 to |order.nonces|
        invariant mainQueueNonces == ListOrder(old(mainQueueNonces), order.nonces[..i], order.id)
      {
        mainQueueNonces := Append(mainQueueNonces, order.nonces[i].address, order.id);
        assert order.nonces[..i + 1][..i] == order.nonces[..i];
      }
      assert order.nonces[..|order.nonces|] == order.nonces;
    }

    method PushToPending(keys: seq<AccountNonce>, id: OrderId)
      modifies this`pendingOrders
      ensures pendingOrders == ListPending(old(pendingOrders), keys, id)
    {
      for i := 0 to |keys|
        invariant pendingOrders == ListPending(old(pendingOrders), keys[..i], id)
      {
        if !Listed(pendingOrders, keys[i], id) {
          pendingOrders := Append(pendingOrders, keys[i], id);
        }
        assert keys[..i + 1][..i] == keys[..i];
      }
      assert keys[..|keys|] == keys;
    }

    /** Records new nonces.  Queued orders of the changed accounts are looked at again, and so are the
        orders that waited for exactly these nonces.  The source is never asked and no error occurs; no
        order is added, and an order is dropped only for the reasons in `MayDrop`. */
    method UpdateOnchainNonces(news: seq<AccountNonce>, source: NonceSource) returns (r: Result<(), NonceError>)
      requires Valid()
      modifies this
      ensures Valid() && r.Success?
      ensures onchainNonces == Override(old(onchainNonces), news)
      ensures Subset(orders, old(orders))
      ensures forall id :: id in old(orders) && id !in orders ==>
        MayDrop(old(orders)[id], old(onchainNonces), onchainNonces, Accounts(news))
      ensures forall id :: id in orders && Ready(orders[id], old(onchainNonces)) && Uses(orders[id], Accounts(news)) ==>
        Useful(orders[id], onchainNonces)
    {
      ghost var before := View();
      var invalidated := RecordNonces(news);
      BeginUpdateKeepsInv(before, catalog, news);
      TouchedWereReady(before, catalog, Accounts(news));
      ReadyAreTouched(before, catalog, Accounts(news));
      RevalidateQueued(invalidated, source, Keys(news));
      FlushPending(news, source);
      r := Success(());
    }

    method RecordNonces(news: seq<AccountNonce>) returns (invalidated: set<OrderId>)
      modifies this`onchainNonces, this`mainQueueNonces
      ensures View() == BeginUpdate(old(View()), news)
      ensures invalidated == Touched(old(mainQueueNonces), Accounts(news))
    {
      invalidated := {};
      for i := 0 to |news|
        invariant onchainNonces == Override(old(onchainNonces), news[..i])
        invariant mainQueueNonces == old(mainQueueNonces) - Accounts(news[..i])
        invariant invalidated == Touched(old(mainQueueNonces), Accounts(news[..i]))
      {
        TakeSnoc(news, i);
        var a := news[i].account;
        onchainNonces := onchainNonces[a := news[i].nonce];
        assert Accounts(news[..i + 1]) == Accounts(news[..i]) + {a};
        if a in mainQueueNonces {
          invalidated := invalidated + set id | id in mainQueueNonces[a];
          mainQueueNonces := mainQueueNonces - {a};
        }
      }
      assert news[..|news|] == news;
    }

    /** Takes each order that may have become invalid out of the queue, and inserts it again unless a
        nonce of it is used up or nothing in it matches any more. */
    method RevalidateQueued(invalidated: set<OrderId>, source: NonceSource, ghost keys: set<AccountNonce>)
      requires Inv(View(), catalog, invalidated, keys, {})
      modifies this
      ensures Inv(View(), catalog, {}, keys, {})
      ensures onchainNonces == old(onchainNonces)
      ensures orders == KeepUseful(old(orders), invalidated, onchainNonces)
    {
      var left := invalidated;
      while left != {}
        invariant left <= invalidated
        invariant Inv(View(), catalog, left, keys, {})
        invariant onchainNonces == old(onchainNonces)
        invariant orders == KeepUseful(old(orders), invalidated - left, onchainNonces)
        decreases left
      {
        var id :| id in left;
        left := RevalidateNext(id, left, source, keys, old(orders), invalidated);
      }
      assert invalidated - {} == invalidated;
    }

    method RevalidateNext(id: OrderId, left: set<OrderId>, source: NonceSource, ghost keys: set<AccountNonce>,
                          ghost before: map<OrderId, Order>, ghost invalidated: set<OrderId>)
        returns (rest: set<OrderId>)
      requires id in left && left <= invalidated && Inv(View(), catalog, left, keys, {})
      requires orders == KeepUseful(before, invalidated - left, onchainNonces)
      modifies this
      ensures rest == left - {id} && Inv(View(), catalog, rest, keys, {})
      ensures onchainNonces == old(onchainNonces)
      ensures orders == KeepUseful(before, invalidated - rest, onchainNonces)
    {
      rest := RevalidateOne(id, left, source, keys);
      KeepUsefulOne(before, invalidated - left, id, onchainNonces);
      assert invalidated - rest == invalidated - left + {id};
    }

    method RevalidateOne(id: OrderId, left: set<OrderId>, source: NonceSource, ghost keys: set<AccountNonce>)
        returns (rest: set<OrderId>)
      requires id in left && Inv(View(), catalog, left, keys, {})
      modifies this
      ensures rest == left - {id} && Inv(View(), catalog, rest, keys, {})
      ensures onchainNonces == old(onchainNonces)
      ensures id in old(orders)
      ensures orders == if Useful(old(orders)[id], onchainNonces) then old(orders) else old(orders) - {id}
    {
      rest := left - {id};
      var order := TakeFromQueue(id, left, keys);
      PutBack(old(orders), id);
      var retain := StillUseful(order, source);
      if retain {
        Reinsert(order, source, rest, keys, {});
        assert {} - {order.id} == {};
      }
    }

    /** No nonce that matters is used up, and at least one nonce is current.  The accounts are recorded,
        so looking up their nonces cannot fail. */
    method StillUseful(order: Order, source: NonceSource) returns (r: bool)
      requires Recorded(order, onchainNonces)
      modifies this`onchainNonces
      ensures onchainNonces == old(onchainNonces)
      ensures r == Useful(order, onchainNonces)
    {
      var valid := true;
      var validNonces := 0;
      for i := 0 to |order.nonces|
        invariant onchainNonces == old(onchainNonces) && valid && validNonces >= 0
        invariant forall n :: n in order.nonces[..i] ==> onchainNonces[n.address] <= n.nonce || n.optional
        invariant validNonces > 0 <==> exists n :: n in order.nonces[..i] && onchainNonces[n.address] == n.nonce
      {
        var n := order.nonces[i];
        TakeSnoc(order.nonces, i);
        var onchain := Nonce(n.address, source);
        if onchain.value > n.nonce && !n.optional {
          valid := false;
          break;
        } else if onchain.value == n.nonce {
          validNonces := validNonces + 1;
        }
      }
      assert order.nonces[..|order.nonces|] == order.nonces;
      r := valid && validNonces > 0;
    }

    /** Inserting an order whose accounts are recorded. */
    method Reinsert(order: Order, source: NonceSource, ghost unsettled: set<OrderId>, ghost keys: set<AccountNonce>,
                    ghost flight: set<OrderId>)
      requires Inv(View(), catalog, unsettled, keys, flight)
      requires order == catalog(order.id) && Recorded(order, onchainNonces) && order.id !in orders
      modifies this
      ensures Inv(View(), catalog, unsettled, keys, flight - {order.id})
      ensures onchainNonces == old(onchainNonces)
      ensures orders == if Passed(order, onchainNonces) then old(orders) else old(orders)[order.id := order]
    {
      var inserted := InsertOrder(order, source, unsettled, keys, flight);
    }

    /** Inserts again the orders that waited for one of the new nonces. */
    method FlushPending(news: seq<AccountNonce>, source: NonceSource)
      requires Inv(View(), catalog, {}, Keys(news), {})
      modifies this
      ensures Valid()
      ensures onchainNonces == old(onchainNonces)
      ensures OnlyPassedLost(old(orders), orders, {}, onchainNonces)
    {
      assert Keys(news) - Keys(news[..0]) == Keys(news);
      for i := 0 to |news|
        invariant Inv(View(), catalog, {}, Keys(news) - Keys(news[..i]), {})
        invariant onchainNonces == old(onchainNonces)
        invariant OnlyPassedLost(old(orders), orders, {}, onchainNonces)
      {
        TakeSnoc(news, i);
        ghost var keys := Keys(news) - Keys(news[..i]);
        assert keys - {news[i]} == Keys(news) - Keys(news[..i + 1]);
        if news[i] in pendingOrders {
          FlushKey(news[i], source, keys);
        } else {
          MissingKeyKeepsInv(View(), catalog, news[i], keys);
        }
      }
      assert Keys(news) - Keys(news[..|news|]) == {};
    }

    method FlushKey(key: AccountNonce, source: NonceSource, ghost keys: set<AccountNonce>)
      requires Inv(View(), catalog, {}, keys, {}) && key in pendingOrders
      modifies this
      ensures Inv(View(), catalog, {}, keys - {key}, {})
      ensures onchainNonces == old(onchainNonces)
      ensures OnlyPassedLost(old(orders), orders, {}, onchainNonces)
    {
      TakeListedKeepsInv(View(), catalog, key, keys);
      ghost var after := TakeListed(View(), pendingOrders[key]).(pending := pendingOrders - {key});
      var pending := pendingOrders[key];
      pendingOrders := pendingOrders - {key};
      var taken := TakeOrders(pending);
      assert View() == after;
      assert Ids(taken) == old(orders).Keys - orders.Keys;
      InsertAll(taken, source, keys - {key}, old(orders));
    }

    /** Inserts the orders in flight. */
    method InsertAll(taken: seq<Order>, source: NonceSource, ghost keys: set<AccountNonce>,
                     ghost before: map<OrderId, Order>)
      requires DistinctIds(taken) && Inv(View(), catalog, {}, keys, Ids(taken))
      requires forall o :: o in taken ==> o.id in before && before[o.id] == o && o == catalog(o.id)
      requires OnlyPassedLost(before, orders, Ids(taken), onchainNonces)
      modifies this
      ensures Inv(View(), catalog, {}, keys, {})
      ensures onchainNonces == old(onchainNonces)
      ensures OnlyPassedLost(before, orders, {}, onchainNonces)
    {
      assert taken[0..] == taken;
      for i := 0 to |taken|
        invariant Inv(View(), catalog, {}, keys, Ids(taken[i..]))
        invariant onchainNonces == old(onchainNonces)
        invariant OnlyPassedLost(before, orders, Ids(taken[i..]), onchainNonces)
      {
        DropFirstId(taken, i);
        Reinsert(taken[i], source, {}, keys, Ids(taken[i..]));
      }
    }

    /** Takes the listed orders out of the pool, those that are still in it. */
    method TakeOrders(ids: seq<OrderId>) returns (taken: seq<Order>)
      requires forall id :: id in orders ==> orders[id].id == id
      modifies this`orders
      ensures orders == old(orders) - (set id | id in ids)
      ensures DistinctIds(taken)
      ensures forall o :: o in taken <==> o.id in ids && o.id in old(orders) && old(orders)[o.id] == o
    {
      taken := [];
      for i := 0 to |ids|
        invariant orders == old(orders) - (set id | id in ids[..i])
        invariant DistinctIds(taken)
        invariant forall o :: o in taken <==> o.id in ids[..i] && o.id in old(orders) && old(orders)[o.id] == o
      {
        TakeSnoc(ids, i);
        if ids[i] in orders {
          taken := taken + [orders[ids[i]]];
          orders := orders - {ids[i]};
        }
      }
      assert ids[..|ids|] == ids;
    }

    /** Takes an order out of the pool.  A ready order is removed, but not returned. */
    method RemoveOrder(id: OrderId) returns (r: Option<Order>)
      requires Valid()
      modifies this
      ensures Valid()
      ensures orders == old(orders) - {id} && onchainNonces == old(onchainNonces)
      ensures r == if id in old(orders) && !Ready(old(orders)[id], onchainNonces) then Some(old(orders)[id]) else None
    {
      QueueHoldsExactlyTheReadyOrders(View(), catalog, id);
      MinusTwice(orders, id);
      if id in mainQueue {
        var order := TakeFromQueue(id);
      }
      r := RemoveFromOrders(id);
    }

    method RemoveFromOrders(id: OrderId) returns (r: Option<Order>)
      requires Valid() && id !in mainQueue
      modifies this`orders
      ensures Valid() && orders == old(orders) - {id}
      ensures r == if id in old(orders) then Some(old(orders)[id]) else None
    {
      RemovePendingKeepsInv(View(), catalog, id);
      r := if id in orders then Some(orders[id]) else None;
      orders := orders - {id};
    }
  }

  lemma TakenFromQueue(s: State, c: Catalog, id: OrderId, unsettled: set<OrderId>, keys: set<AccountNonce>)
    requires Inv(s, c, unsettled, keys, {}) && id in s.queue
    ensures id in s.orders && s.orders[id].id == id && s.orders[id] == c(id) && Recorded(c(id), s.onchain)
    ensures Inv(TakeQueued(s, s.orders[id]), c, unsettled - {id}, keys, {})
    ensures |s.orders - {id}| < |s.orders|
  {
    TakeQueuedKeepsInv(s, c, id, unsettled, keys, {});
    assert (s.orders - {id}).Keys < s.orders.Keys;
    CardinalityOfSubset((s.orders - {id}).Keys, s.orders.Keys);
  }

  lemma TouchedWereReady(s: State, c: Catalog, accounts: set<Address>)
    requires Consistent(s, c)
    ensures forall id :: id in Touched(s.queueNonces, accounts) ==>
      Ready(c(id), s.onchain) && exists a :: a in accounts && HasAddress(c(id), a)
  {
    forall id | id in Touched(s.queueNonces, accounts)
      ensures Ready(c(id), s.onchain) && exists a :: a in accounts && HasAddress(c(id), a)
    {
      var a :| a in accounts && a in s.queueNonces && id in s.queueNonces[a];
      assert Listed(s.queueNonces, a, id);
    }
  }

  ghost predicate Uses(order: Order, accounts: set<Address>) {
    exists a :: a in accounts && HasAddress(order, a)
  }

  lemma {:induction false} ReadyAreTouched(s: State, c: Catalog, accounts: set<Address>)
    requires Consistent(s, c)
    ensures forall id :: id in s.orders && Ready(s.orders[id], s.onchain) && Uses(s.orders[id], accounts) ==>
      id in Touched(s.queueNonces, accounts)
  {
    forall id | id in s.orders && Ready(s.orders[id], s.onchain) && Uses(s.orders[id], accounts)
      ensures id in Touched(s.queueNonces, accounts)
    {
      QueueHoldsExactlyTheReadyOrders(s, c, id);
      var a :| a in accounts && HasAddress(s.orders[id], a);
      assert Listed(s.queueNonces, a, id);
    }
  }

  lemma {:induction false} NotEarlyIsReady(order: Order, onchain: map<Address, nat>)
    requires Recorded(order, onchain) && !Passed(order, onchain)
    ensures EarlyKeys(order.nonces, onchain) == [] ==> Ready(order, onchain)
  {
    EarlyKeysMembers(order.nonces, onchain);
  }

  lemma MinusTwice<K, V>(m: map<K, V>, k: K)
    ensures m - {k} - {k} == m - {k}
  {
  }

  lemma TakeSnoc<T>(s: seq<T>, i: nat)
    requires i < |s|
    ensures s[..i + 1] == s[..i] + [s[i]]
    ensures s[..i + 1][..i] == s[..i] && s[..i + 1][i] == s[i] && |s[..i + 1]| == i + 1
  {
  }

  /** Removing an order that is not queued; its entries in the pending lists go stale. */
  lemma RemovePendingKeepsInv(s: State, c: Catalog, id: OrderId)
    requires Consistent(s, c) && id !in s.queue
    ensures Consistent(s.(orders := s.orders - {id}), c)
  {
    var t := s.(orders := s.orders - {id});
    forall x | x in t.orders && x !in t.queue
      ensures Waits(t, c(x))
    {
      WaitsElsewhere(s, t, c(x));
    }
  }

  lemma {:induction false} CardinalityOfSubset<T>(a: set<T>, b: set<T>)
    requires a < b
    ensures |a| < |b|
  {
    assert b == a + (b - a) && |b - a| > 0;
  }
}
