/**
 The simulation tree.

 The nonce source does not change while the tree lives.  The three branches of the original
 that report a bug, and its `expect` calls, are the map lookups and matches below; they are
 shown to be unreachable by the invariant.
 */
module SimTree {
  import opened Wrappers
  import opened Sequences
  import opened PoolState
  import opened PrioritizedPool
  import opened SimTreeState

  datatype NonceState =
    | Invalid
    | PendingNonces(keys: seq<AccountNonce>)
    | Ready(parents: seq<Order>)

  /** Whether an order can be simulated now, and on top of which orders. */
  function StateOf(t: Tree, order: Order, source: NonceSource): Result<NonceState, NonceError>
    requires FillersAreKnown(t)
  {
    match ScanOrder(order.nonces, source)
    case Failed(e) => Failure(e)
    case Stale => Success(Invalid)
    case Needs(_, keys) =>
      var missing := Missing(keys, t.fillers);
      Success(if missing == [] then Ready(Parents(keys, t)) else PendingNonces(missing))
  }

  /** The tree holds one more order, and everything it held before. */
  ghost predicate Accepts(before: Tree, after: Tree, order: Order) {
    && Held(after) == Held(before) + multiset{order}
    && after.sims == before.sims && after.fillers == before.fillers
  }

  /** One request was added, for this order on top of these parents. */
  ghost predicate Requests(before: seq<SimulationRequest>, after: seq<SimulationRequest>, order: Order,
      parents: seq<Order>) {
    && |after| == |before| + 1 && after[..|before|] == before
    && after[|before|].order == order && after[|before|].parents == parents
  }

  /** The tree fills every nonce that the request's order needs, and its parents are the orders that fill them. */
  ghost predicate OnItsParents(request: SimulationRequest, t: Tree, source: NonceSource) {
    && FillersAreKnown(t) && ScanOrder(request.order.nonces, source).Needs?
    && Missing(NeededKeys(request.order, source), t.fillers) == []
    && request.parents == Parents(NeededKeys(request.order, source), t)
  }

  /** All requests from the n-th on. */
  ghost predicate AllOnTheirParents(requests: seq<SimulationRequest>, n: nat, t: Tree, source: NonceSource) {
    forall i :: n <= i < |requests| ==> OnItsParents(requests[i], t, source)
  }

  lemma {:induction false} SameParents(keys: seq<AccountNonce>, t: Tree, t': Tree)
    requires FillersAreKnown(t) && t'.fillers == t.fillers && t'.sims == t.sims
    ensures Parents(keys, t') == Parents(keys, t)
    decreases |keys|
  {
    if keys != [] {
      SameParents(keys[..|keys| - 1], t, t');
    }
  }

  /** Another request does not change the parents of any. */
  lemma {:induction false} StillOnTheirParents(requests: seq<SimulationRequest>, n: nat, t: Tree, t': Tree,
      source: NonceSource, request: SimulationRequest)
    requires AllOnTheirParents(requests, n, t, source) && OnItsParents(request, t, source)
    requires t'.fillers == t.fillers && t'.sims == t.sims
    ensures AllOnTheirParents(requests + [request], n, t', source)
  {
    forall r | OnItsParents(r, t, source)
      ensures OnItsParents(r, t', source)
    {
      SameParents(NeededKeys(r.order, source), t, t');
    }
  }

  lemma {:induction false} ReleasedOnItsParents(t: Tree, t': Tree, n: nat, source: NonceSource, order: Order)
    requires AllOnTheirParents(t.readyOrders, n, t, source) && FillersAreKnown(t)
    requires ScanOrder(order.nonces, source).Needs? && Missing(NeededKeys(order, source), t.fillers) == []
    requires t'.fillers == t.fillers && t'.sims == t.sims
    requires Requests(t.readyOrders, t'.readyOrders, order, Parents(NeededKeys(order, source), t))
    ensures AllOnTheirParents(t'.readyOrders, n, t', source)
  {
    var request := t'.readyOrders[|t.readyOrders|];
    assert t'.readyOrders == t.readyOrders + [request];
    StillOnTheirParents(t.readyOrders, n, t, t', source, request);
  }

  /** What taking in one result does to the tree. */
  ghost predicate Processed(before: Tree, after: Tree, result: SimulatedResult, source: NonceSource) {
    && FillersAreKnown(before) && Sound(after, source) && Held(after) == Held(before)
    && after.sims == before.sims[result.id := result]
    && after.fillers == FillersAfter(before.(sims := after.sims), result)
    && before.readyOrders <= after.readyOrders
    && AllOnTheirParents(after.readyOrders, |before.readyOrders|, after, source)
  }

  /** The tree before the first result, and after each of them. */
  ghost predicate AllProcessed(trees: seq<Tree>, results: seq<SimulatedResult>, source: NonceSource) {
    && |trees| == |results| + 1
    && forall i :: 0 <= i < |results| ==> Processed(trees[i], trees[i + 1], results[i], source)
  }

  lemma {:induction false} AllProcessedSnoc(trees: seq<Tree>, results: seq<SimulatedResult>, n: nat,
      source: NonceSource, next: Tree)
    requires n < |results| && AllProcessed(trees, results[..n], source)
    requires Processed(trees[n], next, results[n], source)
    ensures AllProcessed(trees + [next], results[..n + 1], source)
  {
  }

  /** The simulations and the fillers after all results. */
  function Absorbed(t: Tree, results: seq<SimulatedResult>): (r: Tree)
    requires FillersAreKnown(t)
    ensures FillersAreKnown(r)
  {
    if results == [] then t
    else
      var before, last := Absorbed(t, results[..|results| - 1]), results[|results| - 1];
      var known := before.(sims := before.sims[last.id := last]);
      known.(fillers := FillersAfter(known, last))
  }

  lemma {:induction false} AllProcessedAbsorbs(trees: seq<Tree>, results: seq<SimulatedResult>, source: NonceSource)
    requires AllProcessed(trees, results, source) && FillersAreKnown(trees[0])
    ensures trees[|results|].sims == Absorbed(trees[0], results).sims
    ensures trees[|results|].fillers == Absorbed(trees[0], results).fillers
    decreases |results|
  {
    if results != [] {
      var front, last := results[..|results| - 1], results[|results| - 1];
      AllProcessedAbsorbs(trees[..|results|], front, source);
      assert Processed(trees[|front|], trees[|front| + 1], results[|front|], source);
      var known := trees[|front|].(sims := trees[|results|].sims);
      var absorbed := Absorbed(trees[0], front);
      SameFillersAfter(known, absorbed.(sims := known.sims), last);
    }
  }

  lemma {:induction false} SameFillersAfter(t: Tree, t': Tree, result: SimulatedResult)
    requires FillersAreKnown(t) && t'.sims == t.sims && t'.fillers == t.fillers
    ensures FillersAfter(t', result) == FillersAfter(t, result)
  {
  }

  lemma AddToListsSnoc(lists: map<AccountNonce, seq<OrderId>>, keys: seq<AccountNonce>, i: nat, id: OrderId)
    requires i < |keys|
    ensures AddToLists(lists, keys[..i + 1], id) == Append(AddToLists(lists, keys[..i], id), keys[i], id)
  {
    TakeSnoc(keys, i);
  }

  class SimTree {
    const nonces: NonceSource
    var sims: map<SimulationId, SimulatedResult>
    var simsThatUpdateOneNonce: map<AccountNonce, SimulationId>
    var pendingOrders: map<OrderId, PendingOrder>
    var pendingNonces: map<AccountNonce, seq<OrderId>>
    var readyOrders: seq<SimulationRequest>

    ghost function View(): Tree
      reads this
    {
      Tree(sims, simsThatUpdateOneNonce, pendingOrders, pendingNonces, readyOrders)
    }

    ghost predicate Valid()
      reads this
    {
      Sound(View(), nonces)
    }

    constructor (nonces: NonceSource)
      ensures Valid() && this.nonces == nonces
      ensures View() == Tree(map[], map[], map[], map[], [])
    {
      this.nonces := nonces;
      sims, simsThatUpdateOneNonce, pendingOrders, pendingNonces, readyOrders := map[], map[], map[], map[], [];
    }

    method GetOrderNonceState(order: Order) returns (r: Result<NonceState, NonceError>)
      requires FillersAreKnown(View())
      ensures r == StateOf(View(), order, nonces)
    {
      var considered: set<Address> := {};
      var pending: seq<AccountNonce> := [];
      var parents: seq<Order> := [];
      ghost var t := View();
      ghost var keys: seq<AccountNonce> := [];
      for i := 0 to |order.nonces|
        invariant ScanOrder(order.nonces[..i], nonces) == Needs(considered, keys)
        invariant pending == Missing(keys, t.fillers) && parents == Parents(keys, t)
      {
        var n := order.nonces[i];
        ScanSnoc(order.nonces, i, nonces);
        var onchain := nonces(n.address);
        if onchain.Failure? {
          return Failure(onchain.error);
        }
        if onchain.value == n.nonce {
          considered := considered + {n.address};
        } else if onchain.value > n.nonce {
          if !n.optional {
            return Success(Invalid);
          }
        } else {
          if n.address in considered {
            continue;
          }
          considered := considered + {n.address};
          SplitSnoc(keys, Key(n), t);
          keys := keys + [Key(n)];
          if Key(n) in simsThatUpdateOneNonce {
            var sim := sims[simsThatUpdateOneNonce[Key(n)]];
            parents := parents + sim.previousOrders;
            parents := parents + [sim.order];
            continue;
          }
          pending := pending + [Key(n)];
        }
      }
      assert order.nonces[..|order.nonces|] == order.nonces;
      r := Success(if pending == [] then Ready(parents) else PendingNonces(pending));
    }

    /** Accepts an order: it waits, or it becomes ready with its parents.  An order that is waiting
        already, or has a stale nonce, is ignored. */
    method PushOrder(order: Order) returns (r: Result<(), NonceError>)
      requires Valid()
      modifies this
      ensures Valid()
      ensures order.id in old(pendingOrders) ==> r.Success? && View() == old(View())
      ensures order.id !in old(pendingOrders) ==>
        match StateOf(old(View()), order, nonces)
        case Failure(e) => r == Failure(e) && View() == old(View())
        case Success(Invalid) => r.Success? && View() == old(View())
        case Success(PendingNonces(missing)) =>
          && r.Success? && order.id in pendingOrders
          && Accepts(old(View()), View(), order) && readyOrders == old(readyOrders)
        case Success(Ready(parents)) =>
          r.Success? && pendingOrders == old(pendingOrders) && Accepts(old(View()), View(), order)
          && Requests(old(readyOrders), readyOrders, order, parents)
    {
      if order.id in pendingOrders {
        return Success(());
      }
      var state := GetOrderNonceState(order);
      if state.Failure? {
        return Failure(state.error);
      }
      match state.value {
        case Invalid =>
        case PendingNonces(missing) =>
          AddPending(order, missing);
        case Ready(parents) =>
          AddReady(order, parents);
      }
      r := Success(());
    }

    method AddPending(order: Order, missing: seq<AccountNonce>)
      requires Valid() && order.id !in pendingOrders
      requires ScanOrder(order.nonces, nonces).Needs?
      requires missing == Missing(NeededKeys(order, nonces), simsThatUpdateOneNonce) != []
      modifies this`pendingNonces, this`pendingOrders
      ensures Valid() && order.id in pendingOrders && Accepts(old(View()), View(), order)
    {
      AddWaitingIsSound(View(), nonces, order);
      ghost var after := AddWaiting(View(), order, missing);
      for i := 0 to |missing|
        invariant pendingNonces == AddToLists(old(pendingNonces), missing[..i], order.id)
        invariant pendingOrders == old(pendingOrders)
      {
        AddToListsSnoc(old(pendingNonces), missing, i, order.id);
        pendingNonces := Append(pendingNonces, missing[i], order.id);
      }
      assert missing[..|missing|] == missing;
      pendingOrders := pendingOrders[order.id := PendingOrder(order, |missing|)];
      assert View() == after;
    }

    /** Queues an order for simulation, under a random id. */
    method AddReady(order: Order, parents: seq<Order>)
      requires Valid()
      modifies this`readyOrders
      ensures Valid() && Accepts(old(View()), View(), order)
      ensures Requests(old(readyOrders), readyOrders, order, parents)
    {
      ghost var before := View();
      var id: SimulationId := *;
      var request := SimulationRequest(id, order, parents);
      OrdersOfSnoc(readyOrders, request);
      readyOrders := readyOrders + [request];
      SameFillersSameSoundness(before, View(), nonces);
    }

    /** Hands out the oldest ready orders, at most `limit` of them. */
    method PopSimulationTasks(limit: nat) returns (tasks: seq<SimulationRequest>)
      requires Valid()
      modifies this`readyOrders
      ensures Valid()
      ensures tasks + readyOrders == old(readyOrders)
      ensures |tasks| == if limit <= |old(readyOrders)| then limit else |old(readyOrders)|
      ensures Held(View()) + multiset(OrdersOf(tasks)) == old(Held(View()))
    {
      var n := if limit <= |readyOrders| then limit else |readyOrders|;
      ghost var before := View();
      Popping(before, n);
      tasks := readyOrders[..n];
      readyOrders := readyOrders[n..];
      SameFillersSameSoundness(before, View(), nonces);
    }

    /** Takes in the result of a simulation.  If it changes exactly one nonce, it may fill that nonce:
        the first such result releases the orders that waited for it, later ones only compete on score.
        Nothing that the tree holds is lost, and no released order has to go back: each is to be simulated on top
        of the orders that now fill its nonces. */
    method ProcessSimulationTaskResult(result: SimulatedResult) returns (r: Result<(), NonceError>)
      requires Valid()
      modifies this
      ensures Valid() && r.Success?
      ensures Held(View()) == old(Held(View()))
      ensures sims == old(sims)[result.id := result]
      ensures old(readyOrders) <= readyOrders
      ensures AllOnTheirParents(readyOrders, |old(readyOrders)|, View(), nonces)
      ensures simsThatUpdateOneNonce == FillersAfter(old(View()).(sims := sims), result)
    {
      ghost var before := View();
      sims := sims[result.id := result];
      SameFillersSameSoundness(before, View(), nonces);
      var ordersReady: seq<Order> := [];
      if |result.noncesAfter| == 1 {
        var key := result.noncesAfter[0];
        if key in simsThatUpdateOneNonce {
          CompeteForNonce(key, result);
        } else {
          ordersReady := Fill(key, result.id);
        }
      }
      ReleaseAll(ordersReady);
      r := Success(());
    }

    method CompeteForNonce(key: AccountNonce, result: SimulatedResult)
      requires Valid() && key in simsThatUpdateOneNonce && result.id in sims && result.noncesAfter == [key]
      modifies this`simsThatUpdateOneNonce
      ensures Valid() && Held(View()) == old(Held(View()))
      ensures simsThatUpdateOneNonce == FillersAfter(old(View()), result)
    {
      ghost var before := View();
      var currentScore := sims[simsThatUpdateOneNonce[key]].score;
      if result.score > currentScore {
        simsThatUpdateOneNonce := simsThatUpdateOneNonce[key := result.id];
        SameFillersSameSoundness(before, View(), nonces);
      }
    }

    /** The first result for this nonce: counts down the orders that wait for it. */
    method Fill(key: AccountNonce, id: SimulationId) returns (ordersReady: seq<Order>)
      requires Valid() && key !in simsThatUpdateOneNonce && id in sims
      modifies this
      ensures Valid()
      ensures sims == old(sims) && readyOrders == old(readyOrders)
      ensures simsThatUpdateOneNonce == old(simsThatUpdateOneNonce)[key := id]
      ensures Held(View()) + multiset(ordersReady) == old(Held(View()))
      ensures forall o :: o in ordersReady ==>
        ScanOrder(o.nonces, nonces).Needs? && Missing(NeededKeys(o, nonces), simsThatUpdateOneNonce) == []
    {
      FillKeyIsSound(View(), nonces, key, id);
      ghost var after := FillKey(View(), key, id, WaitingFor(View(), key));
      simsThatUpdateOneNonce := simsThatUpdateOneNonce[key := id];
      if key in pendingNonces {
        var list := pendingNonces[key];
        pendingNonces := pendingNonces - {key};
        ordersReady := CountDown(list);
      } else {
        FilledByNone(pendingOrders);
        NoKeyToDrop(pendingNonces, key);
        ordersReady := [];
      }
      assert View() == after;
    }

    method CountDown(list: seq<OrderId>) returns (ordersReady: seq<Order>)
      requires Countable(pendingOrders, list) && Distinct(list)
      modifies this`pendingOrders
      ensures pendingOrders == Filled(old(pendingOrders), list)
      ensures ordersReady == ReadyNow(old(pendingOrders), list)
    {
      ordersReady := [];
      for i := 0 to |list|
        invariant Countable(old(pendingOrders), list[..i])
        invariant pendingOrders == Filled(old(pendingOrders), list[..i])
        invariant ordersReady == ReadyNow(old(pendingOrders), list[..i])
      {
        var id := list[i];
        TakeSnoc(list, i);
        FilledSnoc(old(pendingOrders), list[..i], id);
        var left := pendingOrders[id].unsatisfied - 1;
        if left == 0 {
          ordersReady := ordersReady + [pendingOrders[id].order];
          pendingOrders := pendingOrders - {id};
        } else {
          pendingOrders := pendingOrders[id := pendingOrders[id].(unsatisfied := left)];
        }
      }
      assert list[..|list|] == list;
    }

    /** Queues an order whose nonces are all filled, on top of the orders that fill them. */
    method Release(order: Order, ghost n: nat)
      requires Valid() && AllOnTheirParents(readyOrders, n, View(), nonces)
      requires ScanOrder(order.nonces, nonces).Needs? &&
        Missing(NeededKeys(order, nonces), simsThatUpdateOneNonce) == []
      modifies this`readyOrders
      ensures Valid() && Held(View()) == old(Held(View())) + multiset{order}
      ensures old(readyOrders) <= readyOrders && AllOnTheirParents(readyOrders, n, View(), nonces)
    {
      ghost var before := View();
      var state := GetOrderNonceState(order);
      AddReady(order, state.value.parents);
      ReleasedOnItsParents(before, View(), n, nonces, order);
    }

    /** Every released order is ready: the scan can neither fail, nor find it stale or still waiting. */
    method ReleaseAll(ordersReady: seq<Order>)
      requires Valid()
      requires forall o :: o in ordersReady ==>
        ScanOrder(o.nonces, nonces).Needs? && Missing(NeededKeys(o, nonces), simsThatUpdateOneNonce) == []
      modifies this`readyOrders
      ensures Valid()
      ensures Held(View()) == old(Held(View())) + multiset(ordersReady)
      ensures old(readyOrders) <= readyOrders
      ensures AllOnTheirParents(readyOrders, |old(readyOrders)|, View(), nonces)
    {
      for i := 0 to |ordersReady|
        invariant Valid() && old(readyOrders) <= readyOrders
        invariant Held(View()) == old(Held(View())) + multiset(ordersReady[..i])
        invariant AllOnTheirParents(readyOrders, |old(readyOrders)|, View(), nonces)
      {
        TakeSnoc(ordersReady, i);
        Release(ordersReady[i], |old(readyOrders)|);
      }
      assert ordersReady[..|ordersReady|] == ordersReady;
    }

    /** Takes in the results one after the other; `trees` is what the tree was before the first and after each. */
    method SubmitSimulationTasksResults(results: seq<SimulatedResult>)
      returns (r: Result<(), NonceError>, ghost trees: seq<Tree>)
      requires Valid()
      modifies this
      ensures Valid() && r.Success?
      ensures Held(View()) == old(Held(View()))
      ensures old(readyOrders) <= readyOrders
      ensures AllProcessed(trees, results, nonces) && trees[0] == old(View()) && trees[|results|] == View()
      ensures var absorbed := Absorbed(old(View()), results);
              sims == absorbed.sims && simsThatUpdateOneNonce == absorbed.fillers
    {
      trees := [View()];
      for i := 0 to |results|
        invariant Valid() && Held(View()) == old(Held(View())) && old(readyOrders) <= readyOrders
        invariant AllProcessed(trees, results[..i], nonces) && trees[0] == old(View()) && trees[i] == View()
      {
        ghost var before := View();
        var processed := ProcessSimulationTaskResult(results[i]);
        assert Processed(before, View(), results[i], nonces);
        AllProcessedSnoc(trees, results, i, nonces, View());
        trees := trees + [View()];
      }
      assert results[..|results|] == results;
      AllProcessedAbsorbs(trees, results, nonces);
      r := Success(());
    }
  }

  lemma FilledByNone(pending: map<OrderId, PendingOrder>)
    ensures Countable(pending, []) && Filled(pending, []) == pending && ReadyNow(pending, []) == []
  {
  }

  lemma NoKeyToDrop<K, V>(m: map<K, V>, key: K)
    requires key !in m
    ensures m - {key} == m
  {
  }

  lemma Popping(t: Tree, n: nat)
    requires n <= |t.readyOrders|
    ensures t.readyOrders[..n] + t.readyOrders[n..] == t.readyOrders
    ensures Held(t.(readyOrders := t.readyOrders[n..])) + multiset(OrdersOf(t.readyOrders[..n])) == Held(t)
  {
    assert t.readyOrders[..n] + t.readyOrders[n..] == t.readyOrders;
    OrdersOfConcat(t.readyOrders[..n], t.readyOrders[n..]);
  }

  lemma OrdersOfConcat(a: seq<SimulationRequest>, b: seq<SimulationRequest>)
    ensures OrdersOf(a + b) == OrdersOf(a) + OrdersOf(b)
  {
  }
}
