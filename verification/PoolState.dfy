/**
 The contents of a prioritized order pool as plain values, and what it means for its indexes to
 agree with the orders it holds.
 */
module PoolState {

  type Address = nat
  type OrderId = nat
  type Priority = int

  /** One nonce that an order needs; an optional one may be stale or early. */
  datatype BundleNonce = BundleNonce(address: Address, nonce: nat, optional: bool)

  datatype AccountNonce = AccountNonce(account: Address, nonce: nat)

  datatype Order = Order(id: OrderId, nonces: seq<BundleNonce>, priority: Priority)

  /** An id determines its order: ids are hashes of the contents. */
  type Catalog = OrderId -> Order

  datatype State = State(
    queue: map<OrderId, Priority>,
    queueNonces: map<Address, seq<OrderId>>,
    onchain: map<Address, nat>,
    pending: map<AccountNonce, seq<OrderId>>,
    orders: map<OrderId, Order>)

  function Key(n: BundleNonce): AccountNonce {
    AccountNonce(n.address, n.nonce)
  }

  predicate HasAddress(order: Order, a: Address) {
    exists n :: n in order.nonces && n.address == a
  }

  /** The simple definition that all the indexes serve: every nonce that is not optional is exactly the
      one recorded for its account. */
  predicate Ready(order: Order, onchain: map<Address, nat>) {
    forall n :: n in order.nonces && !n.optional ==> n.address in onchain && onchain[n.address] == n.nonce
  }

  /** Some nonce that is not optional has been used already: the order can never run. */
  predicate Passed(order: Order, onchain: map<Address, nat>) {
    exists n :: n in order.nonces && !n.optional && n.address in onchain && onchain[n.address] > n.nonce
  }

  /** Some nonce of the order, optional or not, is the current one. */
  predicate Matches(order: Order, onchain: map<Address, nat>) {
    exists n :: n in order.nonces && n.address in onchain && onchain[n.address] == n.nonce
  }

  /** The account of every nonce is recorded, so the nonce source need not be asked. */
  predicate Recorded(order: Order, onchain: map<Address, nat>) {
    forall n :: n in order.nonces ==> n.address in onchain
  }

  predicate Listed<K(==)>(lists: map<K, seq<OrderId>>, key: K, id: OrderId) {
    key in lists && id in lists[key]
  }

  /** The order will be looked at again when the account of one of its mismatched nonces gets there. */
  ghost predicate Waits(s: State, order: Order) {
    exists n :: n in order.nonces && !n.optional
             && n.address in s.onchain && s.onchain[n.address] != n.nonce
             && Listed(s.pending, Key(n), order.id)
  }

  // ---------------------------------------------------------------------------------------
  // The invariant, with the exceptions that hold in the middle of an operation

  ghost predicate IdsAreIdentities(c: Catalog) {
    forall id: OrderId :: c(id).id == id
  }

  /** The orders are those of the catalog, and their accounts are recorded.  So are those of the
      orders in `flight`, which are taken out of the pool for a moment. */
  ghost predicate OrdersKnown(s: State, c: Catalog, flight: set<OrderId>) {
    && (forall id :: id in s.orders ==> s.orders[id] == c(id))
    && (forall id :: id in s.orders || id in flight ==> Recorded(c(id), s.onchain))
    && (forall id :: id in flight ==> id !in s.orders)
  }

  /** Queued orders are held, have their priority, and are ready unless still `unsettled`. */
  ghost predicate QueueIsReady(s: State, c: Catalog, unsettled: set<OrderId>, flight: set<OrderId>) {
    && (forall id :: id in s.queue ==> (id in s.orders || id in flight) && s.queue[id] == c(id).priority)
    && (forall id :: id in s.queue && id !in unsettled ==> Ready(c(id), s.onchain))
    && (forall id :: id in unsettled ==> id in s.queue && id in s.orders)
  }

  /** The address index lists each queued order under each of its accounts, and nothing else. */
  ghost predicate QueueIsIndexed(s: State, c: Catalog, unsettled: set<OrderId>) {
    && (forall id, a :: id in s.queue && id !in unsettled && HasAddress(c(id), a) ==> Listed(s.queueNonces, a, id))
    && (forall id, a :: Listed(s.queueNonces, a, id) ==> id in s.queue && HasAddress(c(id), a))
  }

  /** Every other order waits, or is listed under one of the `keys` that are still to be looked at. */
  ghost predicate OthersWait(s: State, c: Catalog, keys: set<AccountNonce>) {
    forall id :: id in s.orders && id !in s.queue ==>
      Waits(s, c(id)) || exists k :: k in keys && Listed(s.pending, k, id)
  }

  ghost predicate Inv(s: State, c: Catalog, unsettled: set<OrderId>, keys: set<AccountNonce>, flight: set<OrderId>) {
    && IdsAreIdentities(c)
    && OrdersKnown(s, c, flight)
    && QueueIsReady(s, c, unsettled, flight)
    && QueueIsIndexed(s, c, unsettled)
    && OthersWait(s, c, keys)
  }

  ghost predicate Consistent(s: State, c: Catalog) {
    Inv(s, c, {}, {}, {})
  }

  lemma QueueIsExact(s: State, c: Catalog)
    requires Consistent(s, c)
    ensures forall id :: id in s.queue <==> id in s.orders && Ready(s.orders[id], s.onchain)
  {
    forall id
      ensures id in s.queue <==> id in s.orders && Ready(s.orders[id], s.onchain)
    {
      QueueHoldsExactlyTheReadyOrders(s, c, id);
    }
  }

  /** What the invariant is for: the queue holds exactly the ready orders, none early and none stuck. */
  lemma QueueHoldsExactlyTheReadyOrders(s: State, c: Catalog, id: OrderId)
    requires Consistent(s, c)
    ensures id in s.queue <==> id in s.orders && Ready(s.orders[id], s.onchain)
  {
    if id in s.orders && id !in s.queue {
      assert Waits(s, c(id));
    }
  }

  // ---------------------------------------------------------------------------------------
  // Lists

  function Without(s: seq<OrderId>, id: OrderId): (r: seq<OrderId>)
    ensures forall x :: x in r <==> x in s && x != id
  {
    if s == [] then []
    else if s[0] == id then Without(s[1..], id)
    else [s[0]] + Without(s[1..], id)
  }

  function Append<K>(lists: map<K, seq<OrderId>>, key: K, id: OrderId): map<K, seq<OrderId>> {
    lists[key := (if key in lists then lists[key] else []) + [id]]
  }

  /** Appends the id under each account of the order, once per nonce. */
  function ListOrder(lists: map<Address, seq<OrderId>>, nonces: seq<BundleNonce>, id: OrderId)
    : map<Address, seq<OrderId>>
  {
    if nonces == [] then lists
    else Append(ListOrder(lists, nonces[..|nonces| - 1], id), nonces[|nonces| - 1].address, id)
  }

  lemma {:induction false} ListOrderLists(lists: map<Address, seq<OrderId>>, nonces: seq<BundleNonce>, id: OrderId,
      a: Address, x: OrderId)
    ensures Listed(ListOrder(lists, nonces, id), a, x) <==>
            Listed(lists, a, x) || (x == id && exists n :: n in nonces && n.address == a)
    decreases |nonces|
  {
    if nonces != [] {
      var front, last := nonces[..|nonces| - 1], nonces[|nonces| - 1];
      ListOrderLists(lists, front, id, a, x);
      assert nonces == front + [last];
    }
  }

  /** Takes the id off the lists of the order's accounts. */
  function UnlistOrder(lists: map<Address, seq<OrderId>>, order: Order): map<Address, seq<OrderId>> {
    map a | a in lists :: if HasAddress(order, a) then Without(lists[a], order.id) else lists[a]
  }

  /** The same, nonce by nonce. */
  function UnlistNonces(lists: map<Address, seq<OrderId>>, nonces: seq<BundleNonce>, id: OrderId)
    : map<Address, seq<OrderId>>
  {
    if nonces == [] then lists
    else
      var rest, a := UnlistNonces(lists, nonces[..|nonces| - 1], id), nonces[|nonces| - 1].address;
      if a in rest then rest[a := Without(rest[a], id)] else rest
  }

  lemma {:induction false} WithoutTwice(s: seq<OrderId>, id: OrderId)
    ensures Without(Without(s, id), id) == Without(s, id)
    decreases |s|
  {
    if s != [] {
      WithoutTwice(s[1..], id);
    }
  }

  lemma {:induction false} UnlistNoncesValue(lists: map<Address, seq<OrderId>>, nonces: seq<BundleNonce>, id: OrderId,
      a: Address)
    ensures UnlistNonces(lists, nonces, id).Keys == lists.Keys
    ensures a in lists ==>
      UnlistNonces(lists, nonces, id)[a] ==
        (if exists n :: n in nonces && n.address == a then Without(lists[a], id) else lists[a])
    decreases |nonces|
  {
    if nonces != [] {
      var front, last := nonces[..|nonces| - 1], nonces[|nonces| - 1];
      UnlistNoncesValue(lists, front, id, a);
      assert nonces == front + [last];
      if a in lists {
        WithoutTwice(lists[a], id);
      }
    }
  }

  lemma {:induction false} UnlistsOrder(lists: map<Address, seq<OrderId>>, order: Order)
    ensures UnlistNonces(lists, order.nonces, order.id) == UnlistOrder(lists, order)
  {
    forall a
      ensures UnlistNonces(lists, order.nonces, order.id).Keys == lists.Keys
      ensures a in lists ==> UnlistNonces(lists, order.nonces, order.id)[a] == UnlistOrder(lists, order)[a]
    {
      UnlistNoncesValue(lists, order.nonces, order.id, a);
    }
  }

  /** Appends the id under each key that does not list it yet. */
  function ListPending(pending: map<AccountNonce, seq<OrderId>>, keys: seq<AccountNonce>, id: OrderId)
    : map<AccountNonce, seq<OrderId>>
  {
    if keys == [] then pending
    else
      var earlier := ListPending(pending, keys[..|keys| - 1], id);
      var key := keys[|keys| - 1];
      if Listed(earlier, key, id) then earlier else Append(earlier, key, id)
  }

  lemma {:induction false} ListPendingLists(
      pending: map<AccountNonce, seq<OrderId>>, keys: seq<AccountNonce>, id: OrderId, k: AccountNonce, x: OrderId)
    ensures Listed(ListPending(pending, keys, id), k, x) <==> Listed(pending, k, x) || (x == id && k in keys)
    decreases |keys|
  {
    if keys != [] {
      var front, last := keys[..|keys| - 1], keys[|keys| - 1];
      ListPendingLists(pending, front, id, k, x);
      assert keys == front + [last];
    }
  }

  // ---------------------------------------------------------------------------------------
  // Steps of the operations, each with the exceptions it settles

  /** Recording more accounts changes nothing for orders whose accounts are recorded. */
  ghost predicate Extends(onchain: map<Address, nat>, more: map<Address, nat>) {
    forall a :: a in onchain ==> a in more && more[a] == onchain[a]
  }

  lemma ExtendKeepsInv(s: State, c: Catalog, more: map<Address, nat>,
                       unsettled: set<OrderId>, keys: set<AccountNonce>, flight: set<OrderId>)
    requires Inv(s, c, unsettled, keys, flight) && Extends(s.onchain, more)
    ensures Inv(s.(onchain := more), c, unsettled, keys, flight)
  {
    var t := s.(onchain := more);
    forall id | id in t.orders && id !in t.queue
      ensures Waits(t, c(id)) || exists k :: k in keys && Listed(t.pending, k, id)
    {
      if Waits(s, c(id)) {
        var n :| n in c(id).nonces && !n.optional && n.address in s.onchain && s.onchain[n.address] != n.nonce
              && Listed(s.pending, Key(n), c(id).id);
        assert Waits(t, c(id));
      }
    }
  }

  function AddReady(s: State, order: Order): State {
    s.(queue := s.queue[order.id := order.priority],
       queueNonces := ListOrder(s.queueNonces, order.nonces, order.id),
       orders := s.orders[order.id := order])
  }

  lemma AddReadyKeepsInv(s: State, c: Catalog, order: Order,
                         unsettled: set<OrderId>, keys: set<AccountNonce>, flight: set<OrderId>)
    requires Inv(s, c, unsettled, keys, flight)
    requires order == c(order.id) && order.id !in s.orders
    requires Recorded(order, s.onchain) && Ready(order, s.onchain)
    ensures Inv(AddReady(s, order), c, unsettled, keys, flight - {order.id})
  {
    var t := AddReady(s, order);
    forall id, a
      ensures Listed(t.queueNonces, a, id) <==> Listed(s.queueNonces, a, id) || (id == order.id && HasAddress(order, a))
    {
      ListOrderLists(s.queueNonces, order.nonces, order.id, a, id);
    }
    forall id | id in t.orders && id !in t.queue
      ensures Waits(t, c(id)) || exists k :: k in keys && Listed(t.pending, k, id)
    {
      WaitsElsewhere(s, t, c(id));
    }
  }

  /** Waiting only depends on the recorded nonces and on the pending lists. */
  lemma WaitsElsewhere(s: State, t: State, order: Order)
    requires s.onchain == t.onchain
    requires forall k :: Listed(s.pending, k, order.id) ==> Listed(t.pending, k, order.id)
    ensures Waits(s, order) ==> Waits(t, order)
  {
  }

  function AddPending(s: State, order: Order, early: seq<AccountNonce>): State {
    s.(pending := ListPending(s.pending, early, order.id), orders := s.orders[order.id := order])
  }

  /** The keys of the nonces that the order is too early for, in order. */
  function EarlyKeys(nonces: seq<BundleNonce>, onchain: map<Address, nat>): seq<AccountNonce>
    requires forall n :: n in nonces ==> n.address in onchain
  {
    if nonces == [] then []
    else
      var front, last := nonces[..|nonces| - 1], nonces[|nonces| - 1];
      EarlyKeys(front, onchain) + if onchain[last.address] < last.nonce && !last.optional then [Key(last)] else []
  }

  lemma {:induction false} EarlyKeysMembers(nonces: seq<BundleNonce>, onchain: map<Address, nat>)
    requires forall n :: n in nonces ==> n.address in onchain
    ensures forall n :: n in nonces && !n.optional && onchain[n.address] < n.nonce ==>
      Key(n) in EarlyKeys(nonces, onchain)
    ensures forall k :: k in EarlyKeys(nonces, onchain) ==>
      exists n :: n in nonces && !n.optional && onchain[n.address] < n.nonce && k == Key(n)
    decreases |nonces|
  {
    if nonces != [] {
      var front, last := nonces[..|nonces| - 1], nonces[|nonces| - 1];
      EarlyKeysMembers(front, onchain);
      assert nonces == front + [last];
    }
  }

  lemma AddPendingKeepsInv(s: State, c: Catalog, order: Order,
                           unsettled: set<OrderId>, keys: set<AccountNonce>, flight: set<OrderId>)
    requires Inv(s, c, unsettled, keys, flight)
    requires order == c(order.id) && order.id !in s.orders
    requires Recorded(order, s.onchain) && EarlyKeys(order.nonces, s.onchain) != []
    ensures Inv(AddPending(s, order, EarlyKeys(order.nonces, s.onchain)), c, unsettled, keys, flight - {order.id})
  {
    var early := EarlyKeys(order.nonces, s.onchain);
    var t := AddPending(s, order, early);
    EarlyKeysMembers(order.nonces, s.onchain);
    forall k, id
      ensures Listed(t.pending, k, id) <==> Listed(s.pending, k, id) || (id == order.id && k in early)
    {
      ListPendingLists(s.pending, early, order.id, k, id);
    }
    assert early[0] in early;
    var n :| n in order.nonces && !n.optional && s.onchain[n.address] < n.nonce && early[0] == Key(n);
    assert Listed(t.pending, Key(n), order.id);
    assert Waits(t, order);
    assert !Ready(order, s.onchain);
    forall id | id in t.orders && id !in t.queue
      ensures Waits(t, c(id)) || exists k :: k in keys && Listed(t.pending, k, id)
    {
      if id != order.id {
        WaitsElsewhere(s, t, c(id));
        if k :| k in keys && Listed(s.pending, k, id) {
          assert Listed(t.pending, k, id);
        }
      }
    }
  }

  /** An order that is dropped while in flight is not queued, unless it is ready. */
  lemma DropKeepsInv(s: State, c: Catalog, id: OrderId,
                     unsettled: set<OrderId>, keys: set<AccountNonce>, flight: set<OrderId>)
    requires Inv(s, c, unsettled, keys, flight)
    requires id !in s.orders && !Ready(c(id), s.onchain)
    ensures Inv(s, c, unsettled, keys, flight - {id})
  {
  }

  /** Takes a queued order out of the pool altogether. */
  function TakeQueued(s: State, order: Order): State {
    s.(queue := s.queue - {order.id},
       queueNonces := UnlistOrder(s.queueNonces, order),
       orders := s.orders - {order.id})
  }

  lemma TakeQueuedKeepsInv(s: State, c: Catalog, id: OrderId,
                           unsettled: set<OrderId>, keys: set<AccountNonce>, flight: set<OrderId>)
    requires Inv(s, c, unsettled, keys, flight)
    requires id in s.queue && id in s.orders
    ensures Inv(TakeQueued(s, s.orders[id]), c, unsettled - {id}, keys, flight)
  {
    var t := TakeQueued(s, c(id));
    forall x, a
      ensures Listed(t.queueNonces, a, x) <==> Listed(s.queueNonces, a, x) && !(x == id && HasAddress(c(id), a))
    {
    }
    forall x | x in t.orders && x !in t.queue
      ensures Waits(t, c(x)) || exists k :: k in keys && Listed(t.pending, k, x)
    {
      WaitsElsewhere(s, t, c(x));
    }
  }

  /** Takes a list of orders out of the pool without touching the queue. */
  function TakeListed(s: State, ids: seq<OrderId>): State {
    s.(orders := s.orders - (set id | id in ids))
  }

  lemma TakeListedKeepsInv(s: State, c: Catalog, key: AccountNonce, keys: set<AccountNonce>)
    requires Inv(s, c, {}, keys, {}) && key in s.pending
    ensures var t := TakeListed(s, s.pending[key]).(pending := s.pending - {key});
            Inv(t, c, {}, keys - {key}, s.orders.Keys - t.orders.Keys)
  {
    var t := TakeListed(s, s.pending[key]).(pending := s.pending - {key});
    forall id | id in t.orders && id !in t.queue
      ensures Waits(t, c(id)) || exists k :: k in keys - {key} && Listed(t.pending, k, id)
    {
      assert !Listed(s.pending, key, id);
      assert forall k :: Listed(s.pending, k, id) ==> Listed(t.pending, k, id);
      WaitsElsewhere(s, t, c(id));
      if k :| k in keys && Listed(s.pending, k, id) {
        assert k in keys - {key} && Listed(t.pending, k, id);
      }
    }
  }

  lemma MissingKeyKeepsInv(s: State, c: Catalog, key: AccountNonce, keys: set<AccountNonce>)
    requires Inv(s, c, {}, keys, {}) && key !in s.pending
    ensures Inv(s, c, {}, keys - {key}, {})
  {
    forall id | id in s.orders && id !in s.queue
      ensures Waits(s, c(id)) || exists k :: k in keys - {key} && Listed(s.pending, k, id)
    {
      if k :| k in keys && Listed(s.pending, k, id) {
        assert k in keys - {key};
      }
    }
  }

  // ---------------------------------------------------------------------------------------
  // New nonces

  /** The accounts' latest nonces; of two for one account the later counts. */
  function Override(onchain: map<Address, nat>, news: seq<AccountNonce>): map<Address, nat> {
    if news == [] then onchain
    else Override(onchain, news[..|news| - 1])[news[|news| - 1].account := news[|news| - 1].nonce]
  }

  function Accounts(news: seq<AccountNonce>): set<Address> {
    set k | k in news :: k.account
  }

  function Keys(news: seq<AccountNonce>): set<AccountNonce> {
    set k | k in news
  }

  lemma {:induction false} OverrideValues(onchain: map<Address, nat>, news: seq<AccountNonce>, a: Address)
    ensures a in Override(onchain, news) <==> a in onchain || a in Accounts(news)
    ensures a !in Accounts(news) && a in onchain ==> Override(onchain, news)[a] == onchain[a]
    ensures a in Accounts(news) ==> AccountNonce(a, Override(onchain, news)[a]) in news
    decreases |news|
  {
    if news != [] {
      var front, last := news[..|news| - 1], news[|news| - 1];
      OverrideValues(onchain, front, a);
      assert news == front + [last];
    }
  }

  /** Of several nonces for one account the last one counts. */
  lemma {:induction false} OverrideLast(onchain: map<Address, nat>, news: seq<AccountNonce>, i: nat)
    requires i < |news| && forall j :: i < j < |news| ==> news[j].account != news[i].account
    ensures news[i].account in Override(onchain, news) && Override(onchain, news)[news[i].account] == news[i].nonce
    decreases |news|
  {
    if i < |news| - 1 {
      OverrideLast(onchain, news[..|news| - 1], i);
    }
  }

  /** The queued orders that use a changed account. */
  function Touched(lists: map<Address, seq<OrderId>>, accounts: set<Address>): set<OrderId> {
    set a, id | a in accounts && a in lists && id in lists[a] :: id
  }

  function BeginUpdate(s: State, news: seq<AccountNonce>): State {
    s.(onchain := Override(s.onchain, news), queueNonces := s.queueNonces - Accounts(news))
  }

  lemma BeginUpdateKeepsInv(s: State, c: Catalog, news: seq<AccountNonce>)
    requires Consistent(s, c)
    ensures Inv(BeginUpdate(s, news), c, Touched(s.queueNonces, Accounts(news)), Keys(news), {})
  {
    var t, unsettled := BeginUpdate(s, news), Touched(s.queueNonces, Accounts(news));
    forall a
      ensures a in t.onchain <==> a in s.onchain || a in Accounts(news)
      ensures a !in Accounts(news) && a in s.onchain ==> t.onchain[a] == s.onchain[a]
      ensures a in Accounts(news) ==> AccountNonce(a, t.onchain[a]) in news
    {
      OverrideValues(s.onchain, news, a);
    }
    forall id | id in unsettled
      ensures id in s.queue
    {
      var a :| a in Accounts(news) && a in s.queueNonces && id in s.queueNonces[a];
      assert Listed(s.queueNonces, a, id);
    }
    forall id, a | Listed(t.queueNonces, a, id)
      ensures id in t.queue && HasAddress(c(id), a)
    {
      assert Listed(s.queueNonces, a, id);
    }
    forall id | id in t.queue && id !in unsettled
      ensures Ready(c(id), t.onchain)
    {
      forall n | n in c(id).nonces && !n.optional
        ensures n.address in t.onchain && t.onchain[n.address] == n.nonce
      {
        assert Listed(s.queueNonces, n.address, id);
      }
    }
    forall id | id in t.orders && id !in t.queue
      ensures Waits(t, c(id)) || exists k :: k in Keys(news) && Listed(t.pending, k, id)
    {
      assert Waits(s, c(id));
      var n :| n in c(id).nonces && !n.optional && n.address in s.onchain && s.onchain[n.address] != n.nonce
            && Listed(s.pending, Key(n), id);
      if t.onchain[n.address] == n.nonce {
        assert Key(n) in Keys(news) && Listed(t.pending, Key(n), id);
      } else {
        assert Waits(t, c(id));
      }
    }
  }

  /** Why an update may drop an order: it can never run, or it was ready and nothing in it matches
      any more. */
  ghost predicate MayDrop(order: Order, before: map<Address, nat>, after: map<Address, nat>, changed: set<Address>) {
    || Passed(order, after)
    || (Ready(order, before) && !Matches(order, after) && exists a :: a in changed && HasAddress(order, a))
  }

  /** No required nonce is used up, and some nonce is the current one. */
  predicate Useful(order: Order, onchain: map<Address, nat>) {
    !Passed(order, onchain) && Matches(order, onchain)
  }

  /** The orders without those of the given ones that are not useful any more. */
  function KeepUseful(orders: map<OrderId, Order>, ids: set<OrderId>, onchain: map<Address, nat>): map<OrderId, Order> {
    map id | id in orders && (id in ids ==> Useful(orders[id], onchain)) :: orders[id]
  }

  lemma {:induction false} KeepUsefulOne(orders: map<OrderId, Order>, ids: set<OrderId>, id: OrderId,
      onchain: map<Address, nat>)
    requires id !in ids && id in KeepUseful(orders, ids, onchain)
    ensures id in orders && KeepUseful(orders, ids, onchain)[id] == orders[id]
    ensures KeepUseful(orders, ids + {id}, onchain) ==
      if Useful(orders[id], onchain) then KeepUseful(orders, ids, onchain) else KeepUseful(orders, ids, onchain) - {id}
  {
  }

  // ---------------------------------------------------------------------------------------
  // Priorities

  predicate IsBest(queue: map<OrderId, Priority>, id: OrderId) {
    id in queue && forall other :: other in queue ==> queue[other] <= queue[id]
  }

  lemma {:induction false} BestExists(queue: map<OrderId, Priority>)
    requires queue.Keys != {}
    ensures exists id :: IsBest(queue, id)
    decreases |queue|
  {
    var first :| first in queue;
    var rest := queue - {first};
    if rest.Keys == {} {
      assert forall other :: other in queue && other != first ==> other in rest.Keys;
      assert IsBest(queue, first);
    } else {
      assert |rest.Keys| < |queue.Keys| by { assert rest.Keys == queue.Keys - {first}; }
      BestExists(rest);
      var best :| IsBest(rest, best);
      forall other | other in queue
        ensures queue[other] <= (if queue[first] > queue[best] then queue[first] else queue[best])
      {
        if other != first { assert other in rest; }
      }
      assert IsBest(queue, if queue[first] > queue[best] then first else best);
    }
  }
}
