/**
 What the shared pool knows when a step that appends by priority is called again.

 Each call works on a copy, so the shared pool is never told which nonces the call has used up.  It keeps every
 nonce that it has ever seen, across calls and across blocks.
 */
module StalePool {
  import opened Wrappers
  import opened Payload
  import opened Extension
  import opened StateReads
  import opened PriorityRules
  import opened PriorityStep
  import Pool = PoolState
  import PrioritizedPool

  /** The nonce that the newest change of the account since `start` has left, unless that deleted the account. */
  function NewestNonce(start: Checkpoint, c: Checkpoint, a: Address): Option<nat> {
    if c == start then None
    else if Touch(c, a).Some? && Touch(c, a).value.info.Some? then Some(NonceAfter(Touch(c, a).value))
    else if c.prev.Some? then NewestNonce(start, c.prev.value, a)
    else None
  }

  lemma {:induction false} NonceSince(evm: Evm, start: Checkpoint, applied: seq<Executable>, c: Checkpoint, a: Address)
    requires WellFormed(start) && Extends(evm, start, applied, c)
    ensures NonceOf(c, a) == match NewestNonce(start, c, a) case Some(n) => n case None => NonceOf(start, a)
    decreases |applied|
  {
    if applied != [] {
      var front, e := applied[..|applied| - 1], applied[|applied| - 1];
      ExtensionKeepsSealed(evm, start, front, c.prev.value);
      NewIsNotBase(evm, start, front, c.prev.value, c);
      NonceSince(evm, start, front, c.prev.value, a);
    }
  }

  /** Nonces that were those of the payload are those of the new payload if and only if no applied order has left
      another nonce for one of these accounts, not counting what a newer order has left. */
  lemma {:induction false} StillCoherentIff(evm: Evm, start: Checkpoint, applied: seq<Executable>, c: Checkpoint,
      onchain: map<Pool.Address, nat>)
    requires WellFormed(start) && Extends(evm, start, applied, c) && Coherent(onchain, start)
    ensures Coherent(onchain, c) <==>
      forall a :: a in onchain && NewestNonce(start, c, a).Some? ==> NewestNonce(start, c, a).value == onchain[a]
  {
    forall a
      ensures NonceOf(c, a) == match NewestNonce(start, c, a) case Some(n) => n case None => NonceOf(start, a)
    {
      NonceSince(evm, start, applied, c, a);
    }
    if !Coherent(onchain, c) {
      var a :| a in onchain && onchain[a] != NonceOf(c, a);
      assert NewestNonce(start, c, a) == Some(NonceOf(c, a));
    }
  }

  /** The pool has the nonces of all accounts that the order uses, and takes it for ready exactly if all the nonces
      that it requires are those of the payload. */
  ghost predicate JudgesRight(order: Pool.Order, onchain: map<Pool.Address, nat>, c: Checkpoint) {
    Pool.Recorded(order, onchain) ==> (Pool.Ready(order, onchain) <==> NoncesMatch(order, c))
  }

  /** One old nonce is enough for an order to be popped in vain and for another one to be stuck. */
  lemma {:induction false} OldNonceMisleads(onchain: map<Pool.Address, nat>, c: Checkpoint, a: Pool.Address,
      id: Pool.OrderId, p: Pool.Priority)
    requires a in onchain && onchain[a] != NonceOf(c, a)
    ensures var inVain := Pool.Order(id, [Pool.BundleNonce(a, onchain[a], false)], p);
            Pool.Ready(inVain, onchain) && !NoncesMatch(inVain, c)
    ensures var stuck := Pool.Order(id, [Pool.BundleNonce(a, NonceOf(c, a), false)], p);
            !Pool.Ready(stuck, onchain) && NoncesMatch(stuck, c) && Pool.Recorded(stuck, onchain)
  {
    var inVain := Pool.Order(id, [Pool.BundleNonce(a, onchain[a], false)], p);
    assert inVain.nonces[0] in inVain.nonces;
    var stuck := Pool.Order(id, [Pool.BundleNonce(a, NonceOf(c, a), false)], p);
    assert stuck.nonces[0] in stuck.nonces;
  }

  /** The pool is right about all orders if and only if its nonces are those of the payload. */
  lemma {:induction false} JudgesRightIff(onchain: map<Pool.Address, nat>, c: Checkpoint)
    ensures (forall order: Pool.Order :: JudgesRight(order, onchain, c)) <==> Coherent(onchain, c)
  {
    if !Coherent(onchain, c) {
      var a :| a in onchain && onchain[a] != NonceOf(c, a);
      OldNonceMisleads(onchain, c, a, 0, 0);
      assert !JudgesRight(Pool.Order(0, [Pool.BundleNonce(a, NonceOf(c, a), false)], 0), onchain, c);
    }
  }

  lemma {:induction false} FirstAttempt(evm: Evm, book: Book, start: Checkpoint, attempts: seq<Attempt>, c: Checkpoint)
    requires Chained(evm, book, start, attempts, c) && attempts != []
    ensures attempts[0].payload == start
    decreases |attempts|
  {
    if |attempts| > 1 {
      FirstAttempt(evm, book, start, attempts[..|attempts| - 1], attempts[|attempts| - 1].payload);
    }
  }

  /** The order is ready, and every other ready order has a lower priority. */
  ghost predicate IsOnlyBest(order: Pool.Order, orders: map<Pool.OrderId, Pool.Order>,
      onchain: map<Pool.Address, nat>) {
    && order.id in orders && orders[order.id] == order && Pool.Ready(order, onchain)
    && forall id :: id in orders && id != order.id && Pool.Ready(orders[id], onchain) ==>
      orders[id].priority < order.priority
  }

  /** Both are ready orders of the highest priority; if there is only one of those, it was popped twice. */
  ghost predicate PoppedAgain(first: Attempt, second: Attempt, orders: map<Pool.OrderId, Pool.Order>,
      onchain: map<Pool.Address, nat>) {
    && Pool.Ready(first.order, onchain) && Pool.Ready(second.order, onchain)
    && first.order.priority == second.order.priority
    && (IsOnlyBest(first.order, orders, onchain) ==> second.order == first.order)
  }

  /** Two calls in a row, other steps working on the payload in between and no new order coming in.  Whatever became
      of the order that the first call tried first, the second one pops it first again. */
  method CalledTwice(evm: Evm, pool: PrioritizedPool.PrioritizedOrderpool, book: Book, pending: seq<Bundle>,
                     payload: Checkpoint, between: Checkpoint -> Checkpoint)
    returns (r: Checkpoint, next: Checkpoint, ghost first: seq<Attempt>, ghost second: seq<Attempt>)
    requires WellFormed(payload) && forall c :: WellFormed(c) ==> WellFormed(between(c))
    requires pool.Valid() && FiledBy(pool, book)
    requires forall b :: b in pending ==> book.bundleOf(book.hash(b)) == b
    modifies pool
    ensures pool.Valid() && Learns(old(pool.onchainNonces), pool.onchainNonces, payload)
    ensures first == [] <==> second == []
    ensures first != [] ==> PoppedAgain(first[0], second[0], pool.orders, pool.onchainNonces)
    ensures first != [] ==> first[0].payload == payload && second[0].payload == between(r)
  {
    ghost var applied, left;
    r, applied, first, left := Step(evm, pool, book, pending, payload);
    FirstPopped(evm, book, Call(payload, pool.orders, pool.onchainNonces), first, r, left);
    next, applied, second, left := Step(evm, pool, book, [], between(r));
    FirstPopped(evm, book, Call(between(r), pool.orders, pool.onchainNonces), second, next, left);
    SameOrderNext(first, second, pool.orders, pool.onchainNonces);
  }

  lemma {:induction false} SameOrderNext(first: seq<Attempt>, second: seq<Attempt>,
      orders: map<Pool.OrderId, Pool.Order>, onchain: map<Pool.Address, nat>)
    requires IsNext(if first == [] then None else Some(first[0].order), orders, onchain)
    requires IsNext(if second == [] then None else Some(second[0].order), orders, onchain)
    ensures first == [] <==> second == []
    ensures first != [] ==> PoppedAgain(first[0], second[0], orders, onchain)
  {
  }

  /** A call starts with the best order that is ready in the shared pool. */
  lemma {:induction false} FirstPopped(evm: Evm, book: Book, start: Call, attempts: seq<Attempt>, c: Checkpoint,
      left: Pool.State)
    requires AllJustified(evm, start, attempts) && Chained(evm, book, start.payload, attempts, c)
    requires Begins(start, attempts, left.orders, left.onchain) && IsNext(None, left.orders, left.onchain)
    ensures IsNext(if attempts == [] then None else Some(attempts[0].order), start.orders, start.onchain)
    ensures attempts != [] ==> attempts[0].payload == start.payload
  {
    if attempts != [] {
      FirstAttempt(evm, book, start.payload, attempts, c);
      assert Justified(evm, start, attempts[0]);
    }
  }
}
