/**
 A whole Optimism block, from the prologue to the extraction of the external transactions.

 Between the two, any number of the steps that rewrite payloads run in any order, as the pipeline and its loops
 may have them.
 */
module BlockBuilding {
  import opened Wrappers
  import opened Payload
  import opened Spans
  import opened BundleExecution
  import opened Extension
  import opened NonceOrder
  import OrderingRules
  import Ordering
  import RevertRemoval
  import AppendOrders
  import AppendRules
  import PriorityStep
  import PrioritizedPool
  import Sequencer
  import Pool = PoolState
  import L = Limits

  // ---------------------------------------------------------------------------------------
  // Every step applies plain orders only

  lemma {:induction false} SettleIsPlain(evm: Evm, deposit: Deposits, c: Checkpoint, b: Bundle)
    requires RevertRemoval.Settle(evm, c, b).Some? && Plain(Bundled(b), deposit)
    ensures Plain(Bundled(RevertRemoval.Settle(evm, c, b).value), deposit)
    decreases |b.txs|
  {
    var r := RunBundle(evm, c, b).value;
    var failed := RevertRemoval.FailedOptional(b, TransactionsOf(r.source), r.results);
    if failed != [] {
      RevertRemoval.RetryIsSmaller(evm, c, b);
      RemovingShrinks(b, failed);
      RemovingKeepsDistinct(b, failed);
      SettleIsPlain(evm, deposit, c, WithoutTransactions(b, failed));
    }
  }

  lemma {:induction false} StrippedIsLawful(evm: Evm, deposit: Deposits, base: Checkpoint, orders: seq<Executable>,
      c: Checkpoint)
    requires Lawful(evm, deposit, base) && RevertRemoval.Stripped(evm, base, orders, c)
    requires forall e :: e in orders ==> Plain(e, deposit)
    ensures Lawful(evm, deposit, c)
    decreases |orders|
  {
    if orders != [] {
      var front, last := orders[..|orders| - 1], orders[|orders| - 1];
      if RevertRemoval.Attempt(evm, c, last).None? && RevertRemoval.Stripped(evm, base, front, c) {
        StrippedIsLawful(evm, deposit, base, front, c);
      } else {
        StrippedIsLawful(evm, deposit, base, front, c.prev.value);
        if last.Bundled? {
          SettleIsPlain(evm, deposit, c.prev.value, last.bundle);
        }
        assert Plain(RevertRemoval.Attempt(evm, c.prev.value, last).value, deposit);
      }
    }
  }

  ghost predicate PlainBook(book: PriorityStep.Book, deposit: Deposits) {
    forall id :: Plain(Bundled(book.bundleOf(id)), deposit)
  }

  lemma {:induction false} ChainIsLawful(evm: Evm, deposit: Deposits, book: PriorityStep.Book, start: Checkpoint,
      attempts: seq<PriorityStep.Attempt>, c: Checkpoint)
    requires Lawful(evm, deposit, start) && PlainBook(book, deposit)
    requires PriorityStep.Chained(evm, book, start, attempts, c)
    ensures Lawful(evm, deposit, c)
    decreases |attempts|
  {
    if attempts != [] {
      var a := attempts[|attempts| - 1];
      ChainIsLawful(evm, deposit, book, start, attempts[..|attempts| - 1], a.payload);
      assert Plain(Bundled(book.bundleOf(a.order.id)), deposit);
    }
  }

  lemma {:induction false} RemovalIsLawful(evm: Evm, deposit: Deposits, payload: Checkpoint, n: nat, r: Checkpoint)
    requires WellFormed(payload) && Lawful(evm, deposit, payload) && HasBarrier(History(payload))
    requires RevertRemoval.RevertsRemoved(evm, payload, n, r)
    ensures Lawful(evm, deposit, r)
  {
    var rest := Staging(payload)[n..];
    StagingIsLawful(evm, deposit, payload, n - 1);
    forall i | 0 <= i < |rest|
      ensures Plain(Sources(rest)[i], deposit)
    {
      assert rest[i] == Staging(payload)[n + i];
      StagingIsLawful(evm, deposit, payload, n + i);
    }
    StrippedIsLawful(evm, deposit, Staging(payload)[n - 1], Sources(rest), r);
  }

  lemma {:induction false} ReorderedIsLawful(evm: Evm, deposit: Deposits, s: OrderingRules.Scoring, payload: Checkpoint,
      placed: seq<Checkpoint>, r: Checkpoint)
    requires WellFormed(payload) && Lawful(evm, deposit, payload) && HasBarrier(History(payload))
    requires AllOrders(Staged(payload)) && AllOrders(placed)
    requires Ordering.Reordered(evm, s, payload, placed, Continue(r))
    ensures Lawful(evm, deposit, r)
  {
    if placed != [] {
      StagingIsLawful(evm, deposit, payload, 0);
      forall i | 0 <= i < |placed|
        ensures Plain(Sources(placed)[i], deposit)
      {
        assert placed[i] in multiset(placed);
        assert placed[i] in Staged(payload);
        var k :| 0 <= k < |Staged(payload)| && Staged(payload)[k] == placed[i];
        assert Staging(payload)[k + 1] == placed[i];
        StagingIsLawful(evm, deposit, payload, k + 1);
      }
      ExtensionIsLawful(evm, deposit, Staging(payload)[0], Sources(placed), r);
    }
  }

  // ---------------------------------------------------------------------------------------
  // Running the steps

  /** A call of one of the steps, with what it gets from elsewhere. */
  datatype Call =
    | Append(limits: L.Limits, orders: seq<Executable>, late: AppendOrders.Clock)
    | Order(scoring: OrderingRules.Scoring)
    | RemoveReverts
    | ByPriority(pending: seq<Bundle>)

  /** How a call came to its result. */
  datatype Record =
    | Appended(attempted: set<Hash>, states: seq<AppendRules.RunState>)
    | Ordered(placed: seq<Checkpoint>, left: OrderingRules.Orders)
    | Removed
    | Prioritized(start: PriorityStep.Call, applied: seq<Executable>, attempts: seq<PriorityStep.Attempt>,
                  pool: Pool.State)

  ghost predicate AppendHappened(evm: Evm, cfg: AppendRules.Config, limits: L.Limits, orders: seq<Executable>,
      late: AppendOrders.Clock, payload: Checkpoint, next: Checkpoint, r: Record) {
    && r.Appended? && 0 < |r.states| <= |orders| + 1
    && var n := |r.states| - 1;
       && r.states[0] == AppendOrders.Begin(payload) && next == r.states[n].payload
       && AppendOrders.Scan(evm, cfg, limits, r.attempted, orders[..n], r.states)
       && AppendOrders.EndsInTime(cfg, limits, orders, late, r.states)
  }

  ghost predicate OrderHappened(evm: Evm, s: OrderingRules.Scoring, payload: Checkpoint, next: Checkpoint, r: Record) {
    && r.Ordered? && HasBarrier(History(payload)) && AllOrders(Staged(payload)) && AllOrders(r.placed)
    && Ordering.Placement(s, Staged(payload), r.placed, r.left)
    && Ordering.Reordered(evm, s, payload, r.placed, Continue(next))
  }

  ghost predicate RemovalHappened(evm: Evm, payload: Checkpoint, next: Checkpoint, r: Record) {
    && r.Removed? && HasBarrier(History(payload))
    && if RevertRemoval.NoFailures(Staging(payload)) then next == payload
       else exists n :: RevertRemoval.RevertsRemoved(evm, payload, n, next)
  }

  ghost predicate PriorityHappened(evm: Evm, book: PriorityStep.Book, pending: seq<Bundle>, payload: Checkpoint,
      next: Checkpoint, r: Record) {
    && r.Prioritized? && r.start.payload == payload
    && PriorityStep.AllFiled(book, pending, r.start.orders, r.start.onchain)
    && PriorityStep.CallProgress(evm, book, r.start, r.attempts, r.applied, next, r.pool.orders, r.pool.onchain)
    && PriorityStep.IsNext(None, r.pool.orders, r.pool.onchain)
  }

  /** The call did what its step is for. */
  ghost predicate Happened(evm: Evm, cfg: AppendRules.Config, book: PriorityStep.Book, call: Call, payload: Checkpoint,
      next: Checkpoint, r: Record) {
    match call
    case Append(limits, orders, late) => AppendHappened(evm, cfg, limits, orders, late, payload, next, r)
    case Order(scoring) => OrderHappened(evm, scoring, payload, next, r)
    case RemoveReverts => RemovalHappened(evm, payload, next, r)
    case ByPriority(pending) => PriorityHappened(evm, book, pending, payload, next, r)
  }

  /** The payloads before the first call and after each. */
  ghost predicate AllHappened(evm: Evm, cfg: AppendRules.Config, book: PriorityStep.Book, calls: seq<Call>,
      payloads: seq<Checkpoint>, records: seq<Record>) {
    && |payloads| == |calls| + 1 && |records| == |calls|
    && forall i :: 0 <= i < |calls| ==> Happened(evm, cfg, book, calls[i], payloads[i], payloads[i + 1], records[i])
  }

  lemma {:induction false} AllHappenedSnoc(evm: Evm, cfg: AppendRules.Config, book: PriorityStep.Book,
      calls: seq<Call>, n: nat, payloads: seq<Checkpoint>, records: seq<Record>, next: Checkpoint, r: Record)
    requires n < |calls| && AllHappened(evm, cfg, book, calls[..n], payloads, records)
    requires Happened(evm, cfg, book, calls[n], payloads[n], next, r)
    ensures AllHappened(evm, cfg, book, calls[..n + 1], payloads + [next], records + [r])
  {
    var ps, rs := payloads + [next], records + [r];
    forall i | 0 <= i < n + 1
      ensures Happened(evm, cfg, book, calls[..n + 1][i], ps[i], ps[i + 1], rs[i])
    {
      if i < n {
        assert Happened(evm, cfg, book, calls[..n][i], payloads[i], payloads[i + 1], records[i]);
      }
    }
  }

  ghost predicate PlainCall(call: Call, book: PriorityStep.Book, deposit: Deposits) {
    match call
    case Append(_, orders, _) => forall e :: e in orders ==> Plain(e, deposit)
    case ByPriority(pending) => forall b :: b in pending ==> book.bundleOf(book.hash(b)) == b
    case _ => true
  }

  /** The payload can be handed to any step: it holds the sequencer's transactions, sealed, and plain orders. */
  ghost predicate Good(evm: Evm, deposit: Deposits, c: Checkpoint) {
    Sequencer.Protected(c) && Lawful(evm, deposit, c)
  }

  lemma {:induction false} StaysGood(evm: Evm, deposit: Deposits, c: Checkpoint, next: Checkpoint)
    requires Good(evm, deposit, c) && KeepsSealed(c, next) && Lawful(evm, deposit, next)
    ensures Good(evm, deposit, next) && next.block == c.block
  {
    Sequencer.ProtectedAlong([c, next], 1);
  }

  method Append(step: AppendOrders.AppendOrders, evm: Evm, limits: L.Limits, orders: seq<Executable>,
                late: AppendOrders.Clock, payload: Checkpoint, ghost deposit: Deposits)
    returns (r: Checkpoint, ghost record: Record)
    requires step.Valid() && Good(evm, deposit, payload) && forall e :: e in orders ==> Plain(e, deposit)
    modifies step
    ensures step.Valid() && Good(evm, deposit, r) && r.block == payload.block
    ensures AppendHappened(evm, step.cfg, limits, orders, late, payload, r, record)
  {
    ghost var attempted := step.attempted;
    var outcome;
    ghost var applied, states;
    outcome, applied, states := step.Step(evm, limits, payload, orders, late);
    r, record := outcome.payload, Appended(attempted, states);
    ExtensionIsLawful(evm, deposit, payload, applied, r);
    StaysGood(evm, deposit, payload, r);
  }

  method Order(evm: Evm, scoring: OrderingRules.Scoring, payload: Checkpoint, ghost deposit: Deposits)
    returns (r: Option<Checkpoint>, ghost record: Record)
    requires EnforcesNonces(evm, deposit) && Good(evm, deposit, payload)
    ensures r.Some? ==> Good(evm, deposit, r.value) && r.value.block == payload.block
    ensures r.Some? ==> OrderHappened(evm, scoring, payload, r.value, record)
  {
    StagedNoncesRise(evm, deposit, payload);
    var outcome;
    ghost var placed, left;
    outcome, placed, left := Ordering.OrderBy(evm, scoring, payload);
    record := Ordered(placed, left);
    if !outcome.Continue? {
      return None, record;
    }
    ReorderedIsLawful(evm, deposit, scoring, payload, placed, outcome.payload);
    StaysGood(evm, deposit, payload, outcome.payload);
    r := Some(outcome.payload);
  }

  method RemoveReverts(evm: Evm, payload: Checkpoint, ghost deposit: Deposits)
    returns (r: Checkpoint, ghost record: Record)
    requires Good(evm, deposit, payload)
    ensures Good(evm, deposit, r) && r.block == payload.block
    ensures RemovalHappened(evm, payload, r, record)
  {
    record := Removed;
    StagedAreOrders(payload);
    r := RevertRemoval.RemoveReverted(evm, payload);
    if !RevertRemoval.NoFailures(Staging(payload)) {
      ghost var n :| RevertRemoval.RevertsRemoved(evm, payload, n, r);
      RemovalIsLawful(evm, deposit, payload, n, r);
    }
    StaysGood(evm, deposit, payload, r);
  }

  method AppendByPriority(evm: Evm, pool: PrioritizedPool.PrioritizedOrderpool, book: PriorityStep.Book,
                          pending: seq<Bundle>, payload: Checkpoint, ghost deposit: Deposits)
    returns (r: Checkpoint, ghost record: Record)
    requires pool.Valid() && PriorityStep.FiledBy(pool, book) && PlainBook(book, deposit)
    requires Good(evm, deposit, payload) && forall b :: b in pending ==> book.bundleOf(book.hash(b)) == b
    modifies pool
    ensures pool.Valid() && Good(evm, deposit, r) && r.block == payload.block
    ensures PriorityHappened(evm, book, pending, payload, r, record)
  {
    ghost var applied, attempts, left;
    r, applied, attempts, left := PriorityStep.Step(evm, pool, book, pending, payload);
    record := Prioritized(PriorityStep.Call(payload, pool.orders, pool.onchainNonces), applied, attempts, left);
    ChainIsLawful(evm, deposit, book, payload, attempts, r);
    StaysGood(evm, deposit, payload, r);
  }

  method RunStep(evm: Evm, step: AppendOrders.AppendOrders, pool: PrioritizedPool.PrioritizedOrderpool,
                 book: PriorityStep.Book, call: Call, payload: Checkpoint, ghost deposit: Deposits)
    returns (r: Option<Checkpoint>, ghost record: Record)
    requires EnforcesNonces(evm, deposit) && Good(evm, deposit, payload)
    requires step.Valid() && pool.Valid() && PriorityStep.FiledBy(pool, book) && PlainBook(book, deposit)
    requires PlainCall(call, book, deposit)
    modifies step, pool
    ensures step.Valid() && pool.Valid()
    ensures r.Some? ==> Good(evm, deposit, r.value) && r.value.block == payload.block
    ensures r.Some? ==> Happened(evm, step.cfg, book, call, payload, r.value, record)
    ensures r.None? ==> call.Order?
  {
    var next;
    match call
    case Append(limits, orders, late) =>
      next, record := Append(step, evm, limits, orders, late, payload, deposit);
      r := Some(next);
    case Order(scoring) =>
      r, record := Order(evm, scoring, payload, deposit);
    case RemoveReverts =>
      next, record := RemoveReverts(evm, payload, deposit);
      r := Some(next);
    case ByPriority(pending) =>
      next, record := AppendByPriority(evm, pool, book, pending, payload, deposit);
      r := Some(next);
  }

  /** Whatever steps run, the block made of the sequencer's transactions and the extracted ones is the payload,
      transaction for transaction; and the extracted transactions respect the nonces of their signers. */
  method BuildBlock(evm: Evm, limits: Sequencer.Limits, block: Block, step: AppendOrders.AppendOrders,
                    pool: PrioritizedPool.PrioritizedOrderpool, book: PriorityStep.Book, calls: seq<Call>,
                    ghost deposit: Deposits)
    returns (payload: Option<Checkpoint>, external: seq<Transaction>, ghost payloads: seq<Checkpoint>,
             ghost records: seq<Record>)
    requires EnforcesNonces(evm, deposit)
    requires pool.Valid() && PriorityStep.FiledBy(pool, book) && PlainBook(book, deposit)
    requires forall call :: call in calls ==> PlainCall(call, book, deposit)
    modifies step, pool
    ensures payload.Some? ==>
      && payload.value.block == block && TransactionsIn(History(payload.value)) == block.sequencerTxs + external
      && OrderingRules.Rising(external)
    ensures payload.Some? ==>
      && AllHappened(evm, step.cfg, book, calls, payloads, records) && payloads[|calls|] == payload.value
      && exists start, loaded :: NewestAt(start, block) && Sequencer.Prepared(evm, limits, start, loaded, payloads[0])
    ensures payload.None? && (forall call :: call in calls ==> !call.Order?) ==>
      exists start :: NewestAt(start, block) && Sequencer.CannotLoad(evm, limits, start, block.sequencerTxs)
  {
    step.BeforeJob();
    var id: nat := *;
    var start := NewAtBlock(block, id);
    EmptyAtFirst(start);
    ghost var loaded;
    var prepared;
    prepared, loaded := Sequencer.Prologue(evm, limits, start);
    assert NewestAt(start, block);
    payloads, records := [], [];
    if prepared.Fail? {
      return None, [], payloads, records;
    }
    PreparedIsGood(evm, deposit, limits, start, loaded, prepared.payload);
    var c := prepared.payload;
    payloads := [c];
    for i := 0 to |calls|
      invariant step.Valid() && pool.Valid() && Good(evm, deposit, c) && c.block == block
      invariant AllHappened(evm, step.cfg, book, calls[..i], payloads, records)
      invariant payloads[0] == prepared.payload && payloads[i] == c
    {
      assert calls[i] in calls;
      var next;
      ghost var record;
      next, record := RunStep(evm, step, pool, book, calls[i], c, deposit);
      if next.None? {
        return None, [], payloads, records;
      }
      AllHappenedSnoc(evm, step.cfg, book, calls, i, payloads, records, next.value, record);
      c := next.value;
      payloads, records := payloads + [c], records + [record];
    }
    assert calls[..|calls|] == calls;
    external := Extract(evm, c, deposit);
    payload := Some(c);
  }

  method Extract(evm: Evm, c: Checkpoint, ghost deposit: Deposits) returns (external: seq<Transaction>)
    requires EnforcesNonces(evm, deposit) && Good(evm, deposit, c)
    ensures TransactionsIn(History(c)) == c.block.sequencerTxs + external && OrderingRules.Rising(external)
  {
    external := Sequencer.ExtractExternal(c);
    Sequencer.BlockIsPayload([c]);
    StagedNoncesRise(evm, deposit, c);
  }

  ghost predicate NewestAt(c: Checkpoint, block: Block) {
    c.block == block && c.prev.None?
  }

  lemma {:induction false} EmptyAtFirst(c: Checkpoint)
    requires WellFormed(c) && c.prev.None?
    ensures TransactionsIn(History(c)) == []
  {
    TransactionsSnoc([], c);
    assert [] + [c] == [c];
  }

  lemma {:induction false} PreparedIsGood(evm: Evm, deposit: Deposits, limits: Sequencer.Limits, start: Checkpoint,
      loaded: Checkpoint, c: Checkpoint)
    requires Sequencer.Prepared(evm, limits, start, loaded, c)
    ensures Good(evm, deposit, c)
  {
    SealedAndStagingRebuildHistory(c);
    StagedAreOrders(c);
    assert Staging(c)[|Staging(c)| - 1] == c;
  }
}
