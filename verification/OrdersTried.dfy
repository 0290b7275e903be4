/**
 Which orders a call of the step that appends by priority tries.

 No order is lost on the way: each one is still there at the end, was tried, or was dropped because of an order that
 had been applied before.
 */
module OrdersTried {
  import opened Wrappers
  import opened Payload
  import opened BundleExecution
  import opened PriorityRules
  import opened PriorityStep
  import Pool = PoolState
  import PrioritizedPool

  function Tries(book: Book, a: Attempt): Executable {
    Bundled(book.bundleOf(a.order.id))
  }

  /** The update after the i-th attempt, which was applied, dropped the order: a required nonce of it was used up, or
      it had been ready, one of its accounts changed, and none of its nonces is the recorded one any more. */
  ghost predicate DroppedAt(evm: Evm, book: Book, attempts: seq<Attempt>, i: int, id: Pool.OrderId, order: Pool.Order,
      onchain: map<Pool.Address, nat>) {
    && 0 <= i < |attempts| && id in attempts[i].orders && attempts[i].orders[id] == order
    && var a := attempts[i];
       var result := Execute(evm, a.payload, Tries(book, a));
       result.Success? && HasReason(result.value.state, order, a.onchain, OnchainAt(attempts, i + 1, onchain))
  }

  ghost predicate HasReason(d: Diff, order: Pool.Order, was: map<Pool.Address, nat>, now: map<Pool.Address, nat>) {
    exists news :: DroppedBy(d, news, order, was, now)
  }

  ghost predicate DroppedBy(d: Diff, news: seq<Pool.AccountNonce>, order: Pool.Order, was: map<Pool.Address, nat>,
      now: map<Pool.Address, nat>) {
    Changes(news, d) && now == Pool.Override(was, news) && Pool.MayDrop(order, was, now, Pool.Accounts(news))
  }

  ghost predicate Tried(attempts: seq<Attempt>, id: Pool.OrderId) {
    exists i :: 0 <= i < |attempts| && attempts[i].order.id == id
  }

  /** From the i-th attempt on. */
  lemma {:induction false} NoneLostFrom(evm: Evm, book: Book, attempts: seq<Attempt>, i: nat, id: Pool.OrderId,
      order: Pool.Order, orders: map<Pool.OrderId, Pool.Order>, onchain: map<Pool.Address, nat>)
    requires Accounted(evm, book, attempts, orders, onchain) && i <= |attempts|
    requires id in OrdersAt(attempts, i, orders) && OrdersAt(attempts, i, orders)[id] == order
    ensures || (id in orders && orders[id] == order)
            || Tried(attempts, id)
            || exists k :: DroppedAt(evm, book, attempts, k, id, order, onchain)
    decreases |attempts| - i
  {
    if i < |attempts| && attempts[i].order.id != id {
      var a, after := attempts[i], OrdersAt(attempts, i + 1, orders);
      var e := Tries(book, a);
      assert AccountedAt(evm, book, attempts, i, orders, onchain);
      if id in after {
        FollowedIsSubset(evm, e, a.payload, a.orders - {a.order.id}, a.onchain, after,
                         OnchainAt(attempts, i + 1, onchain));
        NoneLostFrom(evm, book, attempts, i + 1, id, order, orders, onchain);
      } else {
        var d := Execute(evm, a.payload, e).value.state;
        var news :| Updated(d, news, a.orders - {a.order.id}, a.onchain, after, OnchainAt(attempts, i + 1, onchain));
        assert DroppedBy(d, news, order, a.onchain, OnchainAt(attempts, i + 1, onchain));
        assert DroppedAt(evm, book, attempts, i, id, order, onchain);
      }
    }
  }

  /** Every order that the call started with is left at the end, or was tried, or was dropped for a reason. */
  lemma {:induction false} NoneLost(evm: Evm, book: Book, start: Call, attempts: seq<Attempt>, applied: seq<Executable>,
      c: Checkpoint, orders: map<Pool.OrderId, Pool.Order>, onchain: map<Pool.Address, nat>, id: Pool.OrderId)
    requires CallProgress(evm, book, start, attempts, applied, c, orders, onchain)
    requires id in start.orders
    ensures || (id in orders && orders[id] == start.orders[id])
            || Tried(attempts, id)
            || exists k :: DroppedAt(evm, book, attempts, k, id, start.orders[id], onchain)
  {
    NoneLostFrom(evm, book, attempts, 0, id, start.orders[id], orders, onchain);
  }

  // ---------------------------------------------------------------------------------------
  // Orders that nothing interferes with

  /** The changes leave the nonces of all accounts alone that the order uses. */
  ghost predicate Untouched(order: Pool.Order, d: Diff) {
    forall n :: n in order.nonces && n.address in d.accounts ==>
      NonceBefore(d.accounts[n.address]) == NonceAfter(d.accounts[n.address])
  }

  /** No order that was applied changes the nonce of an account that the order uses. */
  ghost predicate LeftAlone(evm: Evm, book: Book, attempts: seq<Attempt>, order: Pool.Order) {
    forall i :: 0 <= i < |attempts| ==> LeftAloneBy(evm, attempts[i].payload, Tries(book, attempts[i]), order)
  }

  ghost predicate LeftAloneBy(evm: Evm, c: Checkpoint, e: Executable, order: Pool.Order) {
    Execute(evm, c, e).Success? ==> Untouched(order, Execute(evm, c, e).value.state)
  }

  /** The update keeps the order, and the order stays ready. */
  lemma {:induction false} UntouchedStays(d: Diff, news: seq<Pool.AccountNonce>, order: Pool.Order,
      was: map<Pool.Address, nat>)
    requires Changes(news, d) && Untouched(order, d) && Pool.Ready(order, was)
    ensures var now := Pool.Override(was, news);
            Pool.Ready(order, now) && !Pool.MayDrop(order, was, now, Pool.Accounts(news))
  {
    forall n | n in order.nonces
      ensures n.address !in Pool.Accounts(news)
      ensures n.address in was ==>
        n.address in Pool.Override(was, news) && Pool.Override(was, news)[n.address] == was[n.address]
    {
      Pool.OverrideValues(was, news, n.address);
    }
  }

  lemma {:induction false} ReadyUntilTried(evm: Evm, book: Book, attempts: seq<Attempt>, i: nat, id: Pool.OrderId,
      order: Pool.Order, orders: map<Pool.OrderId, Pool.Order>, onchain: map<Pool.Address, nat>)
    requires Accounted(evm, book, attempts, orders, onchain) && i <= |attempts|
    requires id in OrdersAt(attempts, i, orders) && OrdersAt(attempts, i, orders)[id] == order
    requires Pool.Ready(order, OnchainAt(attempts, i, onchain)) && LeftAlone(evm, book, attempts, order)
    requires IsNext(None, orders, onchain)
    ensures Tried(attempts, id)
    decreases |attempts| - i
  {
    if i < |attempts| && attempts[i].order.id != id {
      var a, after, now := attempts[i], OrdersAt(attempts, i + 1, orders), OnchainAt(attempts, i + 1, onchain);
      var e := Tries(book, a);
      assert AccountedAt(evm, book, attempts, i, orders, onchain);
      assert LeftAloneBy(evm, a.payload, e, order);
      if Execute(evm, a.payload, e).Success? {
        var d := Execute(evm, a.payload, e).value.state;
        var news :| Updated(d, news, a.orders - {a.order.id}, a.onchain, after, now);
        UntouchedStays(d, news, order, a.onchain);
      }
      ReadyUntilTried(evm, book, attempts, i + 1, id, order, orders, onchain);
    }
  }

  /** An order that is ready when the call starts is always tried, if no order that is applied changes the nonce of an
      account that it uses. */
  lemma {:induction false} ReadyIsTried(evm: Evm, book: Book, start: Call, attempts: seq<Attempt>,
      applied: seq<Executable>, c: Checkpoint, orders: map<Pool.OrderId, Pool.Order>, onchain: map<Pool.Address, nat>,
      id: Pool.OrderId)
    requires CallProgress(evm, book, start, attempts, applied, c, orders, onchain) && IsNext(None, orders, onchain)
    requires id in start.orders && Pool.Ready(start.orders[id], start.onchain)
    requires LeftAlone(evm, book, attempts, start.orders[id])
    ensures Tried(attempts, id)
  {
    ReadyUntilTried(evm, book, attempts, 0, id, start.orders[id], orders, onchain);
  }
}
