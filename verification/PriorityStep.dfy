/**
 The step that appends orders by priority from a nonce-aware pool.

 It works on a copy of the pool: pop the best ready order, try to apply it, and tell the pool which nonces
 have changed.
 */
module PriorityStep {
  import opened Wrappers
  import opened Payload
  import opened BundleExecution
  import opened Extension
  import opened StateReads
  import opened PriorityRules
  import Pool = PoolState
  import PrioritizedPool

  /** The bundle behind each id, and how bundles are identified and rated. */
  datatype Book = Book(
    hash: Bundle -> Pool.OrderId,
    bundleOf: Pool.OrderId -> Bundle,
    priority: Bundle -> Pool.Priority)

  function OrderFor(book: Book, id: Pool.OrderId): Pool.Order {
    Pool.Order(id, NoncesFor(book.bundleOf(id)), book.priority(book.bundleOf(id)))
  }

  ghost predicate FiledBy(pool: PrioritizedPool.PrioritizedOrderpool, book: Book) {
    forall id :: pool.catalog(id) == OrderFor(book, id)
  }

  /** The payload as a source of nonces; reading it never fails. */
  function NonceSource(c: Checkpoint): PrioritizedPool.NonceSource {
    a => Success(NonceOf(c, a))
  }

  /** Every nonce that the order is filed under as required is the one of the payload. */
  ghost predicate NoncesMatch(order: Pool.Order, c: Checkpoint) {
    forall n :: n in order.nonces && !n.optional ==> NonceOf(c, n.address) == n.nonce
  }

  lemma {:induction false} ReadyMeansMatching(order: Pool.Order, onchain: map<Pool.Address, nat>, c: Checkpoint)
    requires Pool.Ready(order, onchain) && Coherent(onchain, c)
    ensures NoncesMatch(order, c)
  {
  }

  /** No order applied since `base` has deleted an account that has used a nonce. */
  ghost predicate NoNonceLost(base: Checkpoint, c: Checkpoint) {
    || c == base
    || (c.prev.Some? && (c.mutation.Executed? ==> LosesNoNonce(c.prev.value, c.mutation.result.state))
        && NoNonceLost(base, c.prev.value))
  }

  lemma {:induction false} NewIsNotBase(evm: Evm, base: Checkpoint, orders: seq<Executable>, c: Checkpoint,
      next: Checkpoint)
    requires WellFormed(base) && Extends(evm, base, orders, c) && next.prev == Some(c) && next.depth == c.depth + 1
    ensures next != base
  {
    ExtensionKeepsSealed(evm, base, orders, c);
  }

  /** What a call starts with: the payload and the orders and nonces of the pool. */
  datatype Call = Call(payload: Checkpoint, orders: map<Pool.OrderId, Pool.Order>, onchain: map<Pool.Address, nat>)

  /** Execution is honest, the pool agreed with the payload when the call started, and no nonce was lost since. */
  ghost predicate Trusted(evm: Evm, start: Call, c: Checkpoint) {
    Honest(evm) && Coherent(start.onchain, start.payload) && NoNonceLost(start.payload, c)
  }

  /** The pool agrees with the payload as far as it can be trusted to. */
  ghost predicate InStep(evm: Evm, start: Call, applied: seq<Executable>, c: Checkpoint,
      onchain: map<Pool.Address, nat>) {
    && Extends(evm, start.payload, applied, c) && WellFormed(start.payload)
    && (Trusted(evm, start, c) ==> Coherent(onchain, c))
  }

  lemma {:induction false} StaysInStep(evm: Evm, start: Call, applied: seq<Executable>, c: Checkpoint,
      onchain: map<Pool.Address, nat>, e: Executable, next: Checkpoint, news: seq<Pool.AccountNonce>)
    requires InStep(evm, start, applied, c, onchain)
    requires Applies(evm, c, e, next) && Changes(news, next.mutation.result.state)
    ensures InStep(evm, start, applied + [e], next, Pool.Override(onchain, news))
  {
    ExtendsSnoc(evm, start.payload, applied, c, e, next);
    NewIsNotBase(evm, start.payload, applied, c, next);
    if Trusted(evm, start, next) {
      ExecutionIsHonest(evm, c, e);
      CoherentAfterIff(onchain, news, c, next);
    }
  }

  /** A popped order, and what it was popped from and for. */
  datatype Attempt = Attempt(
    order: Pool.Order,
    orders: map<Pool.OrderId, Pool.Order>,
    onchain: map<Pool.Address, nat>,
    payload: Checkpoint)

  /** The order was the best ready one, and was filed under the nonces of the payload if the pool can be trusted. */
  ghost predicate Justified(evm: Evm, start: Call, a: Attempt) {
    && IsNext(Some(a.order), a.orders, a.onchain)
    && (Trusted(evm, start, a.payload) ==> NoncesMatch(a.order, a.payload))
  }

  ghost predicate AllJustified(evm: Evm, start: Call, attempts: seq<Attempt>) {
    forall i :: 0 <= i < |attempts| ==> Justified(evm, start, attempts[i])
  }

  /** The first order was popped from what the call started with. */
  ghost predicate Begins(start: Call, attempts: seq<Attempt>, orders: map<Pool.OrderId, Pool.Order>,
      onchain: map<Pool.Address, nat>) {
    if attempts == [] then orders == start.orders && onchain == start.onchain
    else attempts[0].orders == start.orders && attempts[0].onchain == start.onchain
  }

  /** No order was popped twice, and none that is still there was popped. */
  ghost predicate NoneTwice(attempts: seq<Attempt>, orders: map<Pool.OrderId, Pool.Order>) {
    && (forall i :: 0 <= i < |attempts| ==> attempts[i].order.id !in orders)
    && forall i, j :: 0 <= i < j < |attempts| ==> attempts[i].order.id != attempts[j].order.id
  }

  /** The pool holds the order, or the order can never run. */
  ghost predicate Filed(order: Pool.Order, orders: map<Pool.OrderId, Pool.Order>, onchain: map<Pool.Address, nat>) {
    order.id in orders || Pool.Passed(order, onchain)
  }

  ghost predicate AllFiled(book: Book, pending: seq<Bundle>, orders: map<Pool.OrderId, Pool.Order>,
      onchain: map<Pool.Address, nat>) {
    forall i :: 0 <= i < |pending| ==> Filed(OrderFor(book, book.hash(pending[i])), orders, onchain)
  }

  /** The pool keeps the nonces it has, even if they are old, and takes others from the payload. */
  ghost predicate Learns(before: map<Pool.Address, nat>, after: map<Pool.Address, nat>, c: Checkpoint) {
    && Pool.Extends(before, after)
    && forall a :: a in after && a !in before ==> after[a] == NonceOf(c, a)
  }

  /** Every order that was not there before is that of a pending bundle. */
  ghost predicate OnlyPendingAdded(book: Book, pending: seq<Bundle>, before: map<Pool.OrderId, Pool.Order>,
      orders: map<Pool.OrderId, Pool.Order>) {
    forall id :: id in orders && id !in before ==>
      orders[id] == OrderFor(book, id) && exists b :: b in pending && book.hash(b) == id
  }

  /** Files the pending bundles and forgets none that is there already. */
  method InsertPending(pool: PrioritizedPool.PrioritizedOrderpool, book: Book, pending: seq<Bundle>,
      payload: Checkpoint)
    requires pool.Valid() && FiledBy(pool, book)
    requires forall b :: b in pending ==> book.bundleOf(book.hash(b)) == b
    modifies pool
    ensures pool.Valid() && Learns(old(pool.onchainNonces), pool.onchainNonces, payload)
    ensures AllFiled(book, pending, pool.orders, pool.onchainNonces)
    ensures PrioritizedPool.Subset(old(pool.orders), pool.orders)
    ensures OnlyPendingAdded(book, pending, old(pool.orders), pool.orders)
    ensures pending == [] ==> pool.View() == old(pool.View())
  {
    for i := 0 to |pending|
      invariant pool.Valid() && Learns(old(pool.onchainNonces), pool.onchainNonces, payload)
      invariant AllFiled(book, pending[..i], pool.orders, pool.onchainNonces)
      invariant PrioritizedPool.Subset(old(pool.orders), pool.orders)
      invariant OnlyPendingAdded(book, pending, old(pool.orders), pool.orders)
      invariant i == 0 ==> pool.View() == old(pool.View())
    {
      assert pending[i] in pending;
      var order := FileUnder(book, pending[i]);
      ghost var orders, onchain := pool.orders, pool.onchainNonces;
      InsertOne(pool, order, payload);
      OneMoreFiled(book, pending, i, orders, onchain, pool.orders, pool.onchainNonces);
    }
    assert pending[..|pending|] == pending;
  }

  method FileUnder(book: Book, b: Bundle) returns (order: Pool.Order)
    requires book.bundleOf(book.hash(b)) == b
    ensures order == OrderFor(book, book.hash(b))
  {
    var nonces := BundleNonces(b);
    order := Pool.Order(book.hash(b), nonces, book.priority(b));
  }

  lemma {:induction false} OneMoreFiled(book: Book, pending: seq<Bundle>, i: nat,
                                        orders: map<Pool.OrderId, Pool.Order>, onchain: map<Pool.Address, nat>,
                                        more: map<Pool.OrderId, Pool.Order>, later: map<Pool.Address, nat>)
    requires i < |pending| && AllFiled(book, pending[..i], orders, onchain)
    requires PrioritizedPool.Subset(orders, more) && Pool.Extends(onchain, later)
    requires Filed(OrderFor(book, book.hash(pending[i])), more, later)
    ensures AllFiled(book, pending[..i + 1], more, later)
  {
    var filed := pending[..i + 1];
    forall k | 0 <= k < |filed|
      ensures Filed(OrderFor(book, book.hash(filed[k])), more, later)
    {
      if k < i {
        assert pending[..i][k] == filed[k];
        FiledStays(OrderFor(book, book.hash(filed[k])), orders, onchain, more, later);
      }
    }
  }

  lemma {:induction false} FiledStays(order: Pool.Order, orders: map<Pool.OrderId, Pool.Order>,
      onchain: map<Pool.Address, nat>,
                                      more: map<Pool.OrderId, Pool.Order>, later: map<Pool.Address, nat>)
    requires Filed(order, orders, onchain) && PrioritizedPool.Subset(orders, more) && Pool.Extends(onchain, later)
    ensures Filed(order, more, later)
  {
    if order.id !in orders {
      var n :| n in order.nonces && !n.optional && n.address in onchain && onchain[n.address] > n.nonce;
      assert later[n.address] == onchain[n.address];
    }
  }

  method InsertOne(pool: PrioritizedPool.PrioritizedOrderpool, order: Pool.Order, payload: Checkpoint)
    requires pool.Valid() && order == pool.catalog(order.id)
    modifies pool
    ensures pool.Valid() && Learns(old(pool.onchainNonces), pool.onchainNonces, payload)
    ensures Filed(order, pool.orders, pool.onchainNonces)
    ensures pool.orders == old(pool.orders) || pool.orders == old(pool.orders)[order.id := order]
    ensures PrioritizedPool.Subset(old(pool.orders), pool.orders)
  {
    var result := pool.InsertOrder(order, NonceSource(payload));
    assert {} - {order.id} == {};
  }

  lemma {:induction false} SubsetIsNoLarger(now: map<Pool.OrderId, Pool.Order>, before: map<Pool.OrderId, Pool.Order>)
    requires PrioritizedPool.Subset(now, before)
    ensures |now| <= |before|
  {
    assert before.Keys == now.Keys + (before.Keys - now.Keys);
    assert |now| == |now.Keys| && |before| == |before.Keys|;
  }

  /** The best ready order of the pool, if any is ready. */
  ghost predicate IsNext(order: Option<Pool.Order>, orders: map<Pool.OrderId, Pool.Order>,
      onchain: map<Pool.Address, nat>) {
    match order
    case None => forall id :: id in orders ==> !Pool.Ready(orders[id], onchain)
    case Some(o) =>
      && o.id in orders && orders[o.id] == o && Pool.Ready(o, onchain)
      && forall id :: id in orders && Pool.Ready(orders[id], onchain) ==> orders[id].priority <= o.priority
  }

  /** The pool has been told the nonces that these changes have left, and has dropped only orders for which that gives
      a reason. */
  ghost predicate Updated(d: Diff, news: seq<Pool.AccountNonce>, before: map<Pool.OrderId, Pool.Order>,
      was: map<Pool.Address, nat>, orders: map<Pool.OrderId, Pool.Order>, onchain: map<Pool.Address, nat>) {
    && Changes(news, d) && onchain == Pool.Override(was, news) && PrioritizedPool.Subset(orders, before)
    && forall id :: id in before && id !in orders ==> Pool.MayDrop(before[id], was, onchain, Pool.Accounts(news))
  }

  /** What trying to include an order does to the others: nothing, unless the order can be applied. */
  ghost predicate Followed(evm: Evm, e: Executable, c: Checkpoint, before: map<Pool.OrderId, Pool.Order>,
      was: map<Pool.Address, nat>, orders: map<Pool.OrderId, Pool.Order>, onchain: map<Pool.Address, nat>) {
    if Execute(evm, c, e).Success? then
      exists news :: Updated(Execute(evm, c, e).value.state, news, before, was, orders, onchain)
    else orders == before && onchain == was
  }

  lemma FollowedIsSubset(evm: Evm, e: Executable, c: Checkpoint, before: map<Pool.OrderId, Pool.Order>,
      was: map<Pool.Address, nat>, orders: map<Pool.OrderId, Pool.Order>, onchain: map<Pool.Address, nat>)
    requires Followed(evm, e, c, before, was, orders, onchain)
    ensures PrioritizedPool.Subset(orders, before)
  {
  }

  /** The orders of the pool before the i-th attempt, or now. */
  function OrdersAt(attempts: seq<Attempt>, i: nat, now: map<Pool.OrderId, Pool.Order>): map<Pool.OrderId, Pool.Order> {
    if i < |attempts| then attempts[i].orders else now
  }

  function OnchainAt(attempts: seq<Attempt>, i: nat, now: map<Pool.Address, nat>): map<Pool.Address, nat> {
    if i < |attempts| then attempts[i].onchain else now
  }

  /** From each attempt to the next, and from the last one until now, only the popped order has left the pool, and what
      the update then has dropped. */
  ghost predicate Accounted(evm: Evm, book: Book, attempts: seq<Attempt>, orders: map<Pool.OrderId, Pool.Order>,
      onchain: map<Pool.Address, nat>) {
    forall i :: 0 <= i < |attempts| ==> AccountedAt(evm, book, attempts, i, orders, onchain)
  }

  ghost predicate AccountedAt(evm: Evm, book: Book, attempts: seq<Attempt>, i: nat,
      orders: map<Pool.OrderId, Pool.Order>, onchain: map<Pool.Address, nat>)
    requires i < |attempts|
  {
    var a := attempts[i];
    Followed(evm, Bundled(book.bundleOf(a.order.id)), a.payload, a.orders - {a.order.id}, a.onchain,
             OrdersAt(attempts, i + 1, orders), OnchainAt(attempts, i + 1, onchain))
  }

  lemma {:induction false} AccountedSnoc(evm: Evm, book: Book, attempts: seq<Attempt>, a: Attempt,
      orders: map<Pool.OrderId, Pool.Order>, onchain: map<Pool.Address, nat>)
    requires Accounted(evm, book, attempts, a.orders, a.onchain)
    requires Followed(evm, Bundled(book.bundleOf(a.order.id)), a.payload, a.orders - {a.order.id}, a.onchain, orders,
                      onchain)
    ensures Accounted(evm, book, attempts + [a], orders, onchain)
  {
    var all := attempts + [a];
    forall i | 0 <= i < |all|
      ensures AccountedAt(evm, book, all, i, orders, onchain)
    {
      if i < |attempts| {
        assert AccountedAt(evm, book, attempts, i, a.orders, a.onchain);
        assert OrdersAt(all, i + 1, orders) == OrdersAt(attempts, i + 1, a.orders);
        assert OnchainAt(all, i + 1, onchain) == OnchainAt(attempts, i + 1, a.onchain);
      }
    }
  }

  /** Tries to include an order, and tells the pool what changed if that succeeds. */
  method Include(evm: Evm, orderpool: PrioritizedPool.PrioritizedOrderpool, e: Executable, c: Checkpoint,
                 ghost start: Call, ghost applied: seq<Executable>)
    returns (next: Checkpoint, ghost now: seq<Executable>)
    requires orderpool.Valid() && InStep(evm, start, applied, c, orderpool.onchainNonces)
    modifies orderpool
    ensures orderpool.Valid() && InStep(evm, start, now, next, orderpool.onchainNonces)
    ensures if Execute(evm, c, e).Success? then now == applied + [e] && Applies(evm, c, e, next)
            else now == applied && next == c
    ensures Followed(evm, e, c, old(orderpool.orders), old(orderpool.onchainNonces), orderpool.orders,
                     orderpool.onchainNonces)
  {
    next, now := c, applied;
    var result := Apply(evm, c, e);
    if result.Success? {
      var news := ChangedNonces(result.value);
      StaysInStep(evm, start, applied, c, orderpool.onchainNonces, e, result.value, news);
      var updated := orderpool.UpdateOnchainNonces(news, NonceSource(result.value));
      assert Updated(result.value.mutation.result.state, news, old(orderpool.orders), old(orderpool.onchainNonces),
                     orderpool.orders, orderpool.onchainNonces);
      next, now := result.value, applied + [e];
    }
  }

  /** Each attempt was made on the payload that the one before it left, and `c` is what the last one left: an
      order is included exactly if it can be applied. */
  ghost predicate Chained(evm: Evm, book: Book, start: Checkpoint, attempts: seq<Attempt>, c: Checkpoint) {
    if attempts == [] then c == start
    else
      var a := attempts[|attempts| - 1];
      var e := Bundled(book.bundleOf(a.order.id));
      && Chained(evm, book, start, attempts[..|attempts| - 1], a.payload)
      && if Execute(evm, a.payload, e).Success? then Applies(evm, a.payload, e, c) else c == a.payload
  }

  /** The attempts so far. */
  ghost predicate CallProgress(evm: Evm, book: Book, start: Call, attempts: seq<Attempt>, applied: seq<Executable>,
      c: Checkpoint, orders: map<Pool.OrderId, Pool.Order>, onchain: map<Pool.Address, nat>) {
    && InStep(evm, start, applied, c, onchain) && |applied| <= |attempts|
    && AllJustified(evm, start, attempts) && Chained(evm, book, start.payload, attempts, c)
    && Begins(start, attempts, orders, onchain) && NoneTwice(attempts, orders)
    && PrioritizedPool.Subset(orders, start.orders) && Accounted(evm, book, attempts, orders, onchain)
  }

  /** Takes the next order and tries to include it. */
  method Round(evm: Evm, orderpool: PrioritizedPool.PrioritizedOrderpool, book: Book, c: Checkpoint,
               ghost start: Call, ghost applied: seq<Executable>, ghost attempts: seq<Attempt>)
    returns (more: bool, next: Checkpoint, ghost now: seq<Executable>, ghost tried: seq<Attempt>)
    requires orderpool.Valid()
    requires CallProgress(evm, book, start, attempts, applied, c, orderpool.orders, orderpool.onchainNonces)
    modifies orderpool
    ensures orderpool.Valid()
    ensures CallProgress(evm, book, start, tried, now, next, orderpool.orders, orderpool.onchainNonces)
    ensures !more ==> IsNext(None, orderpool.orders, orderpool.onchainNonces) && next == c
    ensures more ==> |orderpool.orders| < |old(orderpool.orders)|
  {
    next, now, tried := c, applied, attempts;
    ghost var before, onchain := orderpool.orders, orderpool.onchainNonces;
    var order := orderpool.PopOrder();
    more := order.Some?;
    if more {
      ghost var a := Attempt(order.value, before, onchain, c);
      ghost var popped := orderpool.orders;
      JustifyAttempt(evm, start, attempts, a);
      next, now := Include(evm, orderpool, Bundled(book.bundleOf(order.value.id)), c, start, applied);
      ChainAttempt(evm, book, start.payload, attempts, a, next);
      FollowedIsSubset(evm, Bundled(book.bundleOf(order.value.id)), c, popped, onchain, orderpool.orders,
                       orderpool.onchainNonces);
      AccountedSnoc(evm, book, attempts, a, orderpool.orders, orderpool.onchainNonces);
      RecordAttempt(start, attempts, a, orderpool.orders, orderpool.onchainNonces);
      SubsetIsNoLarger(orderpool.orders, popped);
      tried := attempts + [a];
    }
  }

  lemma {:induction false} ChainAttempt(evm: Evm, book: Book, start: Checkpoint, attempts: seq<Attempt>, a: Attempt,
      next: Checkpoint)
    requires Chained(evm, book, start, attempts, a.payload)
    requires var e := Bundled(book.bundleOf(a.order.id));
             if Execute(evm, a.payload, e).Success? then Applies(evm, a.payload, e, next) else next == a.payload
    ensures Chained(evm, book, start, attempts + [a], next)
  {
    assert (attempts + [a])[..|attempts|] == attempts;
  }

  lemma {:induction false} JustifyAttempt(evm: Evm, start: Call, attempts: seq<Attempt>, a: Attempt)
    requires AllJustified(evm, start, attempts) && IsNext(Some(a.order), a.orders, a.onchain)
    requires Trusted(evm, start, a.payload) ==> Coherent(a.onchain, a.payload)
    ensures AllJustified(evm, start, attempts + [a])
  {
    if Trusted(evm, start, a.payload) {
      ReadyMeansMatching(a.order, a.onchain, a.payload);
    }
    assert Justified(evm, start, a);
  }

  lemma {:induction false} RecordAttempt(start: Call, attempts: seq<Attempt>, a: Attempt,
      orders: map<Pool.OrderId, Pool.Order>, onchain: map<Pool.Address, nat>)
    requires Begins(start, attempts, a.orders, a.onchain) && NoneTwice(attempts, a.orders) && a.order.id in a.orders
    requires PrioritizedPool.Subset(a.orders, start.orders)
    requires PrioritizedPool.Subset(orders, a.orders - {a.order.id})
    ensures Begins(start, attempts + [a], orders, onchain) && NoneTwice(attempts + [a], orders)
    ensures PrioritizedPool.Subset(orders, start.orders)
  {
  }

  /** Each round takes an order out of the pool for good, so the loop ends. */
  method IncludeAll(evm: Evm, orderpool: PrioritizedPool.PrioritizedOrderpool, book: Book, payload: Checkpoint)
    returns (r: Checkpoint, ghost applied: seq<Executable>, ghost attempts: seq<Attempt>)
    requires WellFormed(payload) && orderpool.Valid()
    modifies orderpool
    ensures var start := Call(payload, old(orderpool.orders), old(orderpool.onchainNonces));
            CallProgress(evm, book, start, attempts, applied, r, orderpool.orders, orderpool.onchainNonces)
    ensures IsNext(None, orderpool.orders, orderpool.onchainNonces)
  {
    ghost var start := Call(payload, orderpool.orders, orderpool.onchainNonces);
    r, applied, attempts := payload, [], [];
    var more := true;
    while more
      invariant orderpool.Valid()
      invariant CallProgress(evm, book, start, attempts, applied, r, orderpool.orders, orderpool.onchainNonces)
      invariant !more ==> IsNext(None, orderpool.orders, orderpool.onchainNonces)
      decreases more, |orderpool.orders|
    {
      more, r, applied, attempts := Round(evm, orderpool, book, r, start, applied, attempts);
    }
  }

  /** `AppendOrdersByPriority::step`.  The shared pool keeps its orders and is not told what became of them. */
  method Step(evm: Evm, pool: PrioritizedPool.PrioritizedOrderpool, book: Book, pending: seq<Bundle>,
      payload: Checkpoint)
    returns (r: Checkpoint, ghost applied: seq<Executable>, ghost attempts: seq<Attempt>, ghost left: Pool.State)
    requires WellFormed(payload) && pool.Valid() && FiledBy(pool, book)
    requires forall b :: b in pending ==> book.bundleOf(book.hash(b)) == b
    modifies pool
    ensures pool.Valid() && Learns(old(pool.onchainNonces), pool.onchainNonces, payload)
    ensures AllFiled(book, pending, pool.orders, pool.onchainNonces)
    ensures PrioritizedPool.Subset(old(pool.orders), pool.orders)
    ensures OnlyPendingAdded(book, pending, old(pool.orders), pool.orders)
    ensures pending == [] ==> pool.View() == old(pool.View())
    ensures WellFormed(r) && KeepsSealed(payload, r)
    ensures var start := Call(payload, pool.orders, pool.onchainNonces);
            CallProgress(evm, book, start, attempts, applied, r, left.orders, left.onchain)
    ensures IsNext(None, left.orders, left.onchain)
  {
    InsertPending(pool, book, pending, payload);
    var orderpool := pool.Clone();
    r, applied, attempts := IncludeAll(evm, orderpool, book, payload);
    left := orderpool.View();
    ExtensionKeepsSealed(evm, payload, applied, r);
  }
}
