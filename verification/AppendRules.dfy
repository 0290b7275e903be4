/**
 When the step that appends orders stops, what it skips, and what it never does.

 One run adds orders to the payload as long as they fit the limits of the scope and the caps of the step.
 */
module AppendRules {
  import opened Wrappers
  import opened Payload
  import opened Spans
  import opened BundleExecution
  import opened Extension
  import opened Gas
  import L = Limits

  const MIN_TRANSACTION_GAS := 21000
  const DATA_GAS_PER_BLOB := 131072

  datatype Config = Config(
    maxNewOrders: Option<nat>,
    maxNewBundles: Option<nat>,
    maxNewTransactions: Option<nat>,
    breakOnLimit: bool,
    hash: Executable -> Hash)

  /** The state of one run. */
  datatype RunState = RunState(payload: Checkpoint, txs: nat, bundles: nat, orders: nat, existing: set<Hash>)

  predicate AtMost(n: nat, cap: Option<nat>) {
    cap.Some? ==> n <= cap.value
  }

  /** The smaller one of the limits that are set. */
  function MaxTransactions(cfg: Config, limits: L.Limits): Option<nat> {
    if cfg.maxNewTransactions.None? then limits.maxTransactions
    else if limits.maxTransactions.None? then cfg.maxNewTransactions
    else Some(L.Min(cfg.maxNewTransactions.value, limits.maxTransactions.value))
  }

  /** So what is within it is within both. */
  lemma MaxTransactionsIff(cfg: Config, limits: L.Limits, n: nat)
    ensures AtMost(n, MaxTransactions(cfg, limits)) <==>
      AtMost(n, cfg.maxNewTransactions) && AtMost(n, limits.maxTransactions)
  {
  }

  // ---------------------------------------------------------------------------------------
  // Blobs

  /** Blob gas of the blob transactions among these. */
  function BlobGas(txs: seq<Transaction>): nat {
    if txs == [] then 0
    else BlobGas(txs[..|txs| - 1]) + (if txs[|txs| - 1].blobGas.Some? then txs[|txs| - 1].blobGas.value else 0)
  }

  predicate AllBlobs(txs: seq<Transaction>) {
    forall i :: 0 <= i < |txs| ==> txs[i].blobGas.Some?
  }

  /** What a checkpoint is counted with: a sum of optional values is missing if one of them is. */
  function CountedBlobGas(c: Checkpoint): nat {
    if AllBlobs(Transactions(c)) then BlobGas(Transactions(c)) else 0
  }

  function CountedIn(s: Span): nat {
    if s == [] then 0 else CountedIn(s[..|s| - 1]) + CountedBlobGas(s[|s| - 1])
  }

  /** Blob transactions come alone. */
  ghost predicate Unmixed(c: Checkpoint) {
    BlobGas(Transactions(c)) == 0 || AllBlobs(Transactions(c))
  }

  ghost predicate AllUnmixed(s: Span) {
    forall i :: 0 <= i < |s| ==> Unmixed(s[i])
  }

  lemma {:induction false} BlobGasConcat(a: seq<Transaction>, b: seq<Transaction>)
    ensures BlobGas(a + b) == BlobGas(a) + BlobGas(b)
    decreases |b|
  {
    if b == [] {
      assert a + b == a;
    } else {
      BlobGasConcat(a, b[..|b| - 1]);
      assert (a + b)[..|a + b| - 1] == a + b[..|b| - 1];
    }
  }

  /** The blob gas of a payload is counted right if and only if no bundle mixes blob transactions with others. */
  lemma {:induction false} CountedIffUnmixed(s: Span)
    ensures CountedIn(s) <= BlobGas(TransactionsIn(s))
    ensures CountedIn(s) == BlobGas(TransactionsIn(s)) <==> AllUnmixed(s)
    decreases |s|
  {
    if s != [] {
      var front, last := s[..|s| - 1], s[|s| - 1];
      CountedIffUnmixed(front);
      BlobGasConcat(TransactionsIn(front), Transactions(last));
      assert forall i :: 0 <= i < |front| ==> front[i] == s[i];
    }
  }

  lemma {:induction false} RemoveFirstBlobGas(txs: seq<Transaction>, h: Hash)
    ensures BlobGas(RemoveFirst(txs, h)) <= BlobGas(txs)
    decreases |txs|
  {
    if txs != [] {
      BlobGasConcat([txs[0]], txs[1..]);
      assert [txs[0]] + txs[1..] == txs;
      if txs[0].hash != h {
        RemoveFirstBlobGas(txs[1..], h);
        BlobGasConcat([txs[0]], RemoveFirst(txs[1..], h));
      }
    }
  }

  lemma {:induction false} RemovingBlobGas(b: Bundle, hashes: seq<Hash>)
    ensures BlobGas(WithoutTransactions(b, hashes).txs) <= BlobGas(b.txs)
    decreases |hashes|
  {
    if hashes != [] {
      RemovingBlobGas(b, hashes[..|hashes| - 1]);
      RemoveFirstBlobGas(WithoutTransactions(b, hashes[..|hashes| - 1]).txs, hashes[|hashes| - 1]);
    }
  }

  lemma {:induction false} RecordedBlobGas(evm: Evm, c: Checkpoint, e: Executable)
    requires Execute(evm, c, e).Success?
    ensures BlobGas(TransactionsOf(Execute(evm, c, e).value.source)) <= BlobGas(TransactionsOf(e))
  {
    if e.Bundled? {
      RemovingBlobGas(e.bundle, RunTxs(evm, c, e.bundle, e.bundle.txs).value.discarded);
    }
  }

  function MaxBlobGas(limits: L.Limits): Option<nat> {
    if limits.blobParams.Some? then Some(limits.blobParams.value.maxBlobCount * DATA_GAS_PER_BLOB) else None
  }

  // ---------------------------------------------------------------------------------------
  // Decisions

  function Hashes(txs: seq<Transaction>): (hashes: set<Hash>)
    ensures forall h :: h in hashes <==> exists i :: 0 <= i < |txs| && txs[i].hash == h
  {
    set i | 0 <= i < |txs| :: txs[i].hash
  }

  /** A limit of `should_stop`, other than the deadline, is reached. */
  predicate LimitReached(cfg: Config, limits: L.Limits, run: RunState) {
    || (cfg.maxNewOrders.Some? && run.orders >= cfg.maxNewOrders.value)
    || (MaxTransactions(cfg, limits).Some? && run.txs >= MaxTransactions(cfg, limits).value)
    || (cfg.maxNewBundles.Some? && run.bundles >= cfg.maxNewBundles.value)
    || limits.gasLimit < GasIn(History(run.payload)) + MIN_TRANSACTION_GAS
  }

  predicate ShouldSkip(cfg: Config, limits: L.Limits, run: RunState, e: Executable) {
    || (MaxTransactions(cfg, limits).Some? && |TransactionsOf(e)| + run.txs > MaxTransactions(cfg, limits).value)
    || (cfg.maxNewBundles.Some? && e.Bundled? && run.bundles >= cfg.maxNewBundles.value)
    || (exists i :: 0 <= i < |TransactionsOf(e)| && TransactionsOf(e)[i].hash in run.existing)
    || (limits.blobParams.Some?
        && BlobGas(TransactionsOf(e)) + CountedIn(History(run.payload)) > MaxBlobGas(limits).value)
  }

  /** The order fits: it is not skipped, it can be applied, and its gas fits. */
  predicate Fits(evm: Evm, cfg: Config, limits: L.Limits, run: RunState, e: Executable) {
    && !ShouldSkip(cfg, limits, run, e)
    && Execute(evm, run.payload, e).Success?
    && GasIn(History(run.payload)) + SumGas(Execute(evm, run.payload, e).value.results) <= limits.gasLimit
  }

  // ---------------------------------------------------------------------------------------
  // What the decisions mean

  /** The run stops, whatever the next order is, exactly if one more order, transaction or bundle is too much, or there
      is no gas left for the cheapest transaction. */
  lemma {:induction false} LimitReachedIff(cfg: Config, limits: L.Limits, run: RunState)
    ensures LimitReached(cfg, limits, run) <==>
      || !AtMost(run.orders + 1, cfg.maxNewOrders)
      || !AtMost(run.txs + 1, cfg.maxNewTransactions) || !AtMost(run.txs + 1, limits.maxTransactions)
      || !AtMost(run.bundles + 1, cfg.maxNewBundles)
      || TotalGas(ResultsIn(History(run.payload))) + 21000 > limits.gasLimit
  {
    MaxTransactionsIff(cfg, limits, run.txs + 1);
    GasInIsTotal(History(run.payload));
  }

  /** None of the transactions is in the payload already. */
  ghost predicate NoneKnown(txs: seq<Transaction>, payload: Checkpoint) {
    forall t, u :: t in txs && u in TransactionsIn(History(payload)) ==> t.hash != u.hash
  }

  lemma {:induction false} NoneKnownIff(txs: seq<Transaction>, payload: Checkpoint)
    ensures NoneKnown(txs, payload) <==>
      forall i :: 0 <= i < |txs| ==> txs[i].hash !in Hashes(TransactionsIn(History(payload)))
  {
    var all := TransactionsIn(History(payload));
    if NoneKnown(txs, payload) {
      forall i | 0 <= i < |txs|
        ensures txs[i].hash !in Hashes(all)
      {
        assert txs[i] in txs;
        forall k | 0 <= k < |all|
          ensures all[k].hash != txs[i].hash
        {
          assert all[k] in all;
        }
      }
    } else {
      var t, u :| t in txs && u in all && t.hash == u.hash;
      var i :| 0 <= i < |txs| && txs[i] == t;
      assert txs[i].hash in Hashes(all);
    }
  }

  /** An order is not skipped exactly if, with all of its transactions, the run stays within the caps and the payload
      within its blob gas, and repeats no transaction. */
  lemma {:induction false} NotSkippedIff(cfg: Config, limits: L.Limits, run: RunState, e: Executable)
    requires run.existing == Hashes(TransactionsIn(History(run.payload)))
    ensures !ShouldSkip(cfg, limits, run, e) <==>
      var txs := TransactionsOf(e);
      && AtMost(run.txs + |txs|, cfg.maxNewTransactions) && AtMost(run.txs + |txs|, limits.maxTransactions)
      && (e.Bundled? ==> AtMost(run.bundles + 1, cfg.maxNewBundles))
      && NoneKnown(txs, run.payload)
      && (limits.blobParams.Some? ==>
            BlobGas(txs) + CountedIn(History(run.payload)) <= limits.blobParams.value.maxBlobCount * 131072)
  {
    MaxTransactionsIff(cfg, limits, run.txs + |TransactionsOf(e)|);
    NoneKnownIff(TransactionsOf(e), run.payload);
  }

  /** An order fits exactly if it is not skipped, can be applied, and all gas together stays within the limit. */
  lemma {:induction false} FitsIff(evm: Evm, cfg: Config, limits: L.Limits, run: RunState, e: Executable)
    ensures Fits(evm, cfg, limits, run, e) <==>
      var r := Execute(evm, run.payload, e);
      && !ShouldSkip(cfg, limits, run, e) && r.Success?
      && TotalGas(ResultsIn(History(run.payload)) + r.value.results) <= limits.gasLimit
  {
    var r := Execute(evm, run.payload, e);
    if r.Success? {
      GasInIsTotal(History(run.payload));
      SumGasIsTotal(r.value.results);
      TotalGasConcat(ResultsIn(History(run.payload)), r.value.results);
    }
  }

  /** The blob gas of one transaction is its own, and that of two lists is the sum of theirs. */
  lemma {:induction false} BlobGasMeaning(tx: Transaction, a: seq<Transaction>, b: seq<Transaction>)
    ensures BlobGas([tx]) == (if tx.blobGas.Some? then tx.blobGas.value else 0)
    ensures BlobGas(a + b) == BlobGas(a) + BlobGas(b)
  {
    BlobGasConcat(a, b);
    assert [tx][..0] == [];
  }

  /** The run after an order that was included. */
  function Including(run: RunState, next: Checkpoint): RunState {
    RunState(next, run.txs + |Transactions(next)|, run.bundles + (if IsBundle(next) then 1 else 0), run.orders + 1,
             run.existing + Hashes(Transactions(next)))
  }

  predicate IsBundle(c: Checkpoint) {
    c.mutation.Executed? && c.mutation.result.source.Bundled?
  }

  // ---------------------------------------------------------------------------------------
  // What a run keeps

  function Bundles(orders: seq<Executable>): nat {
    if orders == [] then 0 else Bundles(orders[..|orders| - 1]) + if orders[|orders| - 1].Bundled? then 1 else 0
  }

  lemma {:induction false} BundlesConcat(a: seq<Executable>, b: seq<Executable>)
    ensures Bundles(a + b) == Bundles(a) + Bundles(b)
    decreases |b|
  {
    if b == [] {
      assert a + b == a;
    } else {
      BundlesConcat(a, b[..|b| - 1]);
      assert (a + b)[..|a + b| - 1] == a + b[..|b| - 1];
    }
  }

  /** Each bundle counts as one, and nothing else counts. */
  lemma {:induction false} BundlesMeaning(e: Executable, a: seq<Executable>, b: seq<Executable>)
    ensures Bundles([e]) == (if e.Bundled? then 1 else 0) && Bundles(a + b) == Bundles(a) + Bundles(b)
  {
    BundlesConcat(a, b);
    assert [e][..0] == [];
  }

  /** The counters of a run say what has been added to the payload it started with. */
  ghost predicate Counts(evm: Evm, start: Checkpoint, applied: seq<Executable>, run: RunState) {
    && WellFormed(start) && Extends(evm, start, applied, run.payload)
    && run.existing == Hashes(TransactionsIn(History(run.payload)))
    && |TransactionsIn(History(run.payload))| == |TransactionsIn(History(start))| + run.txs
    && run.orders == |applied| && run.bundles == Bundles(applied)
  }

  ghost predicate WithinCaps(cfg: Config, limits: L.Limits, run: RunState) {
    && AtMost(run.txs, MaxTransactions(cfg, limits))
    && AtMost(run.orders, cfg.maxNewOrders)
    && AtMost(run.bundles, cfg.maxNewBundles)
  }

  /** The payload keeps to the limits if it started within them; for blobs only if none come in mixed bundles. */
  ghost predicate WithinLimits(limits: L.Limits, start: Checkpoint, payload: Checkpoint) {
    && (TotalGas(ResultsIn(History(start))) <= limits.gasLimit ==>
          TotalGas(ResultsIn(History(payload))) <= limits.gasLimit)
    && (AllUnmixed(History(payload)) && AtMost(BlobGas(TransactionsIn(History(start))), MaxBlobGas(limits)) ==>
          AtMost(BlobGas(TransactionsIn(History(payload))), MaxBlobGas(limits)))
  }

  ghost predicate NoDuplicates(start: Checkpoint, applied: seq<Executable>, payload: Checkpoint) {
    DistinctHashes(TransactionsIn(History(start))) && EachDistinct(applied) ==>
      DistinctHashes(TransactionsIn(History(payload)))
  }

  /** No order repeats a transaction. */
  ghost predicate EachDistinct(orders: seq<Executable>) {
    forall e :: e in orders ==> DistinctHashes(TransactionsOf(e))
  }

  lemma {:induction false} IncludingCounts(evm: Evm, start: Checkpoint, applied: seq<Executable>, run: RunState,
      e: Executable, next: Checkpoint)
    requires Counts(evm, start, applied, run) && Applies(evm, run.payload, e, next)
    ensures Counts(evm, start, applied + [e], Including(run, next))
  {
    ExtendsSnoc(evm, start, applied, run.payload, e, next);
    HistoryGrows(run.payload, next);
    HashesConcat(TransactionsIn(History(run.payload)), Transactions(next));
    assert (applied + [e])[..|applied|] == applied;
  }

  lemma {:induction false} HistoryGrows(c: Checkpoint, next: Checkpoint)
    requires next.prev == Some(c)
    ensures TransactionsIn(History(next)) == TransactionsIn(History(c)) + Transactions(next)
    ensures GasIn(History(next)) == GasIn(History(c)) + GasUsed(next)
    ensures CountedIn(History(next)) == CountedIn(History(c)) + CountedBlobGas(next)
    ensures AllUnmixed(History(next)) ==> AllUnmixed(History(c))
  {
    assert History(next)[..|History(c)|] == History(c);
    assert forall i :: 0 <= i < |History(c)| ==> History(next)[i] == History(c)[i];
  }

  lemma HashesConcat(a: seq<Transaction>, b: seq<Transaction>)
    ensures Hashes(a + b) == Hashes(a) + Hashes(b)
  {
    forall h | h in Hashes(a) + Hashes(b)
      ensures h in Hashes(a + b)
    {
      if h in Hashes(a) {
        var i :| 0 <= i < |a| && a[i].hash == h;
        assert (a + b)[i].hash == h;
      } else {
        var i :| 0 <= i < |b| && b[i].hash == h;
        assert (a + b)[|a| + i].hash == h;
      }
    }
  }

  lemma {:induction false} IncludingKeepsCaps(evm: Evm, cfg: Config, limits: L.Limits, run: RunState, e: Executable,
      next: Checkpoint)
    requires WithinCaps(cfg, limits, run) && !LimitReached(cfg, limits, run)
    requires Fits(evm, cfg, limits, run, e) && Applies(evm, run.payload, e, next)
    ensures WithinCaps(cfg, limits, Including(run, next))
  {
    RecordedTransactions(evm, run.payload, e);
  }

  lemma {:induction false} IncludingKeepsLimits(evm: Evm, cfg: Config, limits: L.Limits, start: Checkpoint,
      run: RunState, e: Executable, next: Checkpoint)
    requires WithinLimits(limits, start, run.payload)
    requires Fits(evm, cfg, limits, run, e) && Applies(evm, run.payload, e, next)
    ensures WithinLimits(limits, start, next)
  {
    HistoryGrows(run.payload, next);
    GasInIsTotal(History(start));
    GasInIsTotal(History(run.payload));
    GasInIsTotal(History(next));
    RecordedBlobGas(evm, run.payload, e);
    BlobGasConcat(TransactionsIn(History(run.payload)), Transactions(next));
    CountedIffUnmixed(History(run.payload));
  }

  lemma {:induction false} IncludingAddsNoDuplicate(evm: Evm, cfg: Config, limits: L.Limits, start: Checkpoint,
      applied: seq<Executable>, run: RunState, e: Executable, next: Checkpoint)
    requires Counts(evm, start, applied, run) && NoDuplicates(start, applied, run.payload)
    requires !ShouldSkip(cfg, limits, run, e) && Applies(evm, run.payload, e, next)
    ensures NoDuplicates(start, applied + [e], next)
  {
    HistoryGrows(run.payload, next);
    RecordedTransactions(evm, run.payload, e);
    NothingRepeats(TransactionsIn(History(run.payload)), TransactionsOf(e), Transactions(next));
    assert e in applied + [e] && forall x :: x in applied ==> x in applied + [e];
  }

  lemma {:induction false} NothingRepeats(before: seq<Transaction>, order: seq<Transaction>, added: seq<Transaction>)
    requires forall i :: 0 <= i < |order| ==> order[i].hash !in Hashes(before)
    requires forall t :: t in added ==> t in order
    ensures DistinctHashes(before) && DistinctHashes(added) ==> DistinctHashes(before + added)
  {
    if DistinctHashes(before) && DistinctHashes(added) {
      DistinctHashesConcat(before, added);
    }
  }

  lemma DistinctHashesConcat(a: seq<Transaction>, b: seq<Transaction>)
    requires DistinctHashes(a) && DistinctHashes(b) && forall t :: t in b ==> t.hash !in Hashes(a)
    ensures DistinctHashes(a + b)
  {
    forall i, j | 0 <= i < j < |a + b|
      ensures (a + b)[i].hash != (a + b)[j].hash
    {
      if i < |a| && j >= |a| {
        assert b[j - |a|] in b;
      }
    }
  }

  /** A bundle that mixes a blob transaction with another one is counted as nothing, so a second order with as
      many blobs as a block may have is not skipped. */
  lemma {:induction false} MixedBundleIsNotCounted(cfg: Config, limits: L.Limits, block: Block,
      results: seq<TxResult>, d: Diff)
    requires MaxBlobGas(limits).Some? && MaxBlobGas(limits).value > 0 && MaxTransactions(cfg, limits).None?
    ensures var max := MaxBlobGas(limits).value;
            var mixed := Bundle([Transaction(1, 1, 0, Some(max)), Transaction(2, 2, 0, None)], [], [], 0, None, None);
            var more := Single(Transaction(3, 3, 0, Some(max)));
            var payload := ApplyWith(NewAtBlock(block, 0), Executed(ExecutionResult(Bundled(mixed), results, d)), 1);
            var run := RunState(payload, 0, 0, 0, {1, 2});
            && !ShouldSkip(cfg, limits, run, more)
            && BlobGas(TransactionsIn(History(payload))) + BlobGas(TransactionsOf(more)) > max
  {
    var max := MaxBlobGas(limits).value;
    var txs := [Transaction(1, 1, 0, Some(max)), Transaction(2, 2, 0, None)];
    var root := NewAtBlock(block, 0);
    var mixed := Bundle(txs, [], [], 0, None, None);
    var payload := ApplyWith(root, Executed(ExecutionResult(Bundled(mixed), results, d)), 1);
    HistoryGrows(root, payload);
    assert Transactions(payload) == txs && !AllBlobs(txs) by {
      assert txs[1].blobGas.None?;
    }
    assert History(root) == [root];
    assert TransactionsIn([root]) == [] && CountedIn([root]) == 0 by {
      assert [root][..0] == [];
    }
    assert txs[..1] == [txs[0]] && [txs[0]][..0] == [];
    assert BlobGas([txs[0]]) == max && BlobGas(txs) == max;
    assert [Transaction(3, 3, 0, Some(max))][..0] == [];
  }

  lemma {:induction false} SubsetIsSmaller<T>(a: set<T>, b: set<T>)
    requires a <= b
    ensures |a| <= |b|
  {
    assert b == a + (b - a);
  }
}
