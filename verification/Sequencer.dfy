/**
 Transactions that the sequencer wants at the top of an Optimism block.

 The prologue applies them and seals them with a barrier.  When the block is built, the transactions of the
 payload that come after them are extracted, because the block builder adds the sequencer's again.
 */
module Sequencer {
  import opened Wrappers
  import opened Payload
  import opened Spans
  import opened BundleExecution
  import opened Extension
  import opened Gas

  /** Limits on the sequencer's transactions, and how many bytes of data availability a checkpoint uses. */
  datatype Limits = Limits(gasLimit: nat, maxBlockDa: Option<nat>, daBytes: Checkpoint -> nat)

  function Singles(txs: seq<Transaction>): seq<Executable> {
    seq(|txs|, i requires 0 <= i < |txs| => Single(txs[i]))
  }

  /** Bytes used by the newest n checkpoints. */
  function DaOfNewest(limits: Limits, c: Checkpoint, n: nat): nat {
    if n == 0 || c.prev.None? then 0 else DaOfNewest(limits, c.prev.value, n - 1) + limits.daBytes(c)
  }

  function GasOfNewest(c: Checkpoint, n: nat): nat {
    if n == 0 || c.prev.None? then 0 else GasOfNewest(c.prev.value, n - 1) + GasUsed(c)
  }

  /** The first n transactions have been applied and are too much. */
  ghost predicate ExceedsLimits(limits: Limits, c: Checkpoint, n: nat) {
    GasOfNewest(c, n) > limits.gasLimit ||
      (limits.maxBlockDa.Some? && DaOfNewest(limits, c, n) > limits.maxBlockDa.value)
  }

  /** Each of the newest n checkpoints was within the limits when it was applied. */
  ghost predicate WithinLimits(limits: Limits, c: Checkpoint, n: nat) {
    n == 0 || (c.prev.Some? && !ExceedsLimits(limits, c, n) && WithinLimits(limits, c.prev.value, n - 1))
  }

  /** The first i transactions have been applied, one after the other and always within the limits. */
  ghost predicate Loads(evm: Evm, limits: Limits, payload: Checkpoint, txs: seq<Transaction>, i: int, c: Checkpoint) {
    && 0 <= i <= |txs| && Extends(evm, payload, Singles(txs[..i]), c) && WithinLimits(limits, c, i)
  }

  /** The i-th transaction is the first that cannot be applied within the limits. */
  ghost predicate FailsAt(evm: Evm, limits: Limits, payload: Checkpoint, txs: seq<Transaction>, i: int, c: Checkpoint) {
    && 0 <= i < |txs| && Loads(evm, limits, payload, txs, i, c)
    && (Execute(evm, c, Single(txs[i])).Failure? || TooMuch(evm, limits, c, txs[i], i + 1))
  }

  ghost predicate CannotLoad(evm: Evm, limits: Limits, payload: Checkpoint, txs: seq<Transaction>) {
    exists i, c :: FailsAt(evm, limits, payload, txs, i, c)
  }

  ghost predicate TooMuch(evm: Evm, limits: Limits, c: Checkpoint, tx: Transaction, n: nat) {
    exists next :: Applies(evm, c, Single(tx), next) && ExceedsLimits(limits, next, n)
  }

  /** The same checkpoints up to their ids. */
  ghost predicate SameContents(a: Checkpoint, b: Checkpoint) {
    && a.block == b.block && a.depth == b.depth && a.mutation == b.mutation && a.prev.Some? == b.prev.Some?
    && (a.prev.Some? ==> SameContents(a.prev.value, b.prev.value))
  }

  /** Neither execution nor the size of the data depends on ids. */
  ghost predicate IgnoresIds(evm: Evm, limits: Limits) {
    forall a, b :: SameContents(a, b) ==>
      limits.daBytes(a) == limits.daBytes(b) && forall d, tx :: evm(a, d, tx) == evm(b, d, tx)
  }

  /** It cannot be done whatever the new checkpoints are called. */
  ghost predicate SurelyCannotLoad(evm: Evm, limits: Limits, payload: Checkpoint, txs: seq<Transaction>) {
    IgnoresIds(evm, limits) && CannotLoad(evm, limits, payload, txs)
  }

  /** The data that the checkpoints of a span use. */
  function TotalDa(limits: Limits, s: Span): nat {
    if s == [] then 0 else limits.daBytes(s[0]) + TotalDa(limits, s[1..])
  }

  /** The gas of all results recorded in the span, and its data, are within the limits. */
  ghost predicate FitsIn(limits: Limits, s: Span) {
    && TotalGas(ResultsIn(s)) <= limits.gasLimit
    && (limits.maxBlockDa.Some? ==> TotalDa(limits, s) <= limits.maxBlockDa.value)
  }

  /** The k checkpoints after the first m are within the limits. */
  ghost predicate PrefixFits(limits: Limits, h: Span, m: nat, k: nat) {
    m + k <= |h| && FitsIn(limits, h[m..m + k])
  }

  /** `c` is the payload and n checkpoints more, and the first k of those are within the limits, for every k. */
  ghost predicate PrefixesFit(limits: Limits, payload: Checkpoint, c: Checkpoint, n: nat) {
    var m := |History(payload)|;
    && |History(c)| == m + n && History(payload) == History(c)[..m]
    && forall k :: 0 <= k <= n ==> PrefixFits(limits, History(c), m, k)
  }

  /** The sequencer's transactions are exactly the sealed ones. */
  ghost predicate Protected(c: Checkpoint) {
    WellFormed(c) && HasBarrier(History(c)) && TransactionsIn(Sealed(c)) == c.block.sequencerTxs
  }

  /** The sequencer's transactions have been applied within the limits and sealed, and nothing else. */
  ghost predicate Prepared(evm: Evm, limits: Limits, payload: Checkpoint, loaded: Checkpoint, r: Checkpoint) {
    && Loads(evm, limits, payload, payload.block.sequencerTxs, |payload.block.sequencerTxs|, loaded)
    && (r == loaded || (r.IsBarrier() && r.prev == Some(loaded)))
    && PrefixesFit(limits, payload, loaded, |payload.block.sequencerTxs|)
    && Protected(r) && Staged(r) == [] && r.block == payload.block
    && TransactionsIn(History(r)) == payload.block.sequencerTxs
  }

  /** `OptimismPrologue::step`. */
  method Prologue(evm: Evm, limits: Limits, payload: Checkpoint) returns (r: Outcome, ghost loaded: Checkpoint)
    requires WellFormed(payload)
    ensures r.Continue? || r.Fail?
    ensures r.Continue? ==> Prepared(evm, limits, payload, loaded, r.payload)
    ensures r.Fail? ==> TransactionsIn(History(payload)) != []
                        || CannotLoad(evm, limits, payload, payload.block.sequencerTxs)
    ensures TransactionsIn(History(payload)) != [] ==> r.Fail?
    ensures SurelyCannotLoad(evm, limits, payload, payload.block.sequencerTxs) ==> r.Fail?
  {
    loaded := payload;
    if TransactionsIn(History(payload)) != [] {
      return Fail, loaded;
    }
    var applied := ApplyAll(evm, limits, payload, payload.block.sequencerTxs);
    if applied.None? {
      return Fail, loaded;
    }
    loaded := applied.value;
    LoadedAll(evm, limits, payload, payload.block.sequencerTxs, loaded);
    LoadsFit(evm, limits, payload, payload.block.sequencerTxs, |payload.block.sequencerTxs|, loaded);
    var sealed := Seal(applied.value);
    r := Continue(sealed);
  }

  method ApplyAll(evm: Evm, limits: Limits, payload: Checkpoint, txs: seq<Transaction>) returns (r: Option<Checkpoint>)
    requires WellFormed(payload) && TransactionsIn(History(payload)) == []
    ensures r.Some? ==> Loaded(evm, limits, payload, txs, |txs|, r.value)
    ensures r.None? ==> CannotLoad(evm, limits, payload, txs)
  {
    var gasUsed: nat, daBytesUsed: nat := 0, 0;
    var current := payload;
    LoadedFirst(evm, limits, payload, txs);
    for i := 0 to |txs|
      invariant Loaded(evm, limits, payload, txs, i, current)
      invariant Metered(limits, current, i, gasUsed, daBytesUsed)
    {
      var next;
      next, gasUsed, daBytesUsed := ApplyOne(evm, limits, current, txs[i], i, gasUsed, daBytesUsed);
      if next.None? {
        FailsNow(evm, limits, payload, txs, i, current);
        return None;
      }
      ApplyNext(evm, limits, payload, txs, i, current, next.value);
      current := next.value;
    }
    r := Some(current);
  }

  /** What the newest n checkpoints have used. */
  ghost predicate Metered(limits: Limits, c: Checkpoint, n: nat, gasUsed: nat, daBytesUsed: nat) {
    gasUsed == GasOfNewest(c, n) && daBytesUsed == DaOfNewest(limits, c, n)
  }

  /** Applies one transaction, unless that is impossible or too much. */
  method ApplyOne(evm: Evm, limits: Limits, c: Checkpoint, tx: Transaction, n: nat, gasUsed: nat, daBytesUsed: nat)
    returns (r: Option<Checkpoint>, gas: nat, daBytes: nat)
    requires Metered(limits, c, n, gasUsed, daBytesUsed)
    ensures r.None? ==> Execute(evm, c, Single(tx)).Failure? || TooMuch(evm, limits, c, tx, n + 1)
    ensures r.Some? ==> Applies(evm, c, Single(tx), r.value) && !ExceedsLimits(limits, r.value, n + 1)
    ensures r.Some? ==> Metered(limits, r.value, n + 1, gas, daBytes)
  {
    gas, daBytes := gasUsed, daBytesUsed;
    var next := Apply(evm, c, Single(tx));
    if next.Failure? {
      return None, gas, daBytes;
    }
    gas := gas + GasUsed(next.value);
    daBytes := daBytes + limits.daBytes(next.value);
    if gas > limits.gasLimit {
      assert ExceedsLimits(limits, next.value, n + 1);
      return None, gas, daBytes;
    }
    if limits.maxBlockDa.Some? && daBytes > limits.maxBlockDa.value {
      assert ExceedsLimits(limits, next.value, n + 1);
      return None, gas, daBytes;
    }
    r := Some(next.value);
  }

  /** A barrier after the sequencer's transactions, unless nothing was applied at all. */
  method Seal(payload: Checkpoint) returns (r: Checkpoint)
    requires WellFormed(payload)
    ensures WellFormed(r) && HasBarrier(History(r)) && r.block == payload.block
    ensures TransactionsIn(History(r)) == TransactionsIn(History(payload))
    ensures Sealed(r) == History(r) && Staged(r) == []
    ensures r == payload || (r.IsBarrier() && r.prev == Some(payload))
  {
    if payload.depth > 0 {
      var id: nat := *;
      r := ApplyWith(payload, Barrier, id);
      ApplyExtends(payload, r);
      TransactionsSnoc(History(payload), r);
    } else {
      OnlyRoot(payload);
      r := payload;
    }
  }

  /** The first i transactions have been applied. */
  ghost predicate Loaded(evm: Evm, limits: Limits, payload: Checkpoint, txs: seq<Transaction>, i: nat, c: Checkpoint) {
    && i <= |txs| && Loads(evm, limits, payload, txs, i, c)
    && WellFormed(c) && TransactionsIn(History(c)) == txs[..i] && c.block == payload.block
  }

  lemma {:induction false} ApplyNext(evm: Evm, limits: Limits, payload: Checkpoint, txs: seq<Transaction>, i: nat,
      c: Checkpoint, next: Checkpoint)
    requires i < |txs| && Loaded(evm, limits, payload, txs, i, c) && Applies(evm, c, Single(txs[i]), next)
    requires !ExceedsLimits(limits, next, i + 1)
    ensures Loaded(evm, limits, payload, txs, i + 1, next)
  {
    ExtendsSnoc(evm, payload, Singles(txs[..i]), c, Single(txs[i]), next);
    SinglesSnoc(txs, i);
    TransactionsSnoc(History(c), next);
  }

  lemma SinglesSnoc(txs: seq<Transaction>, i: nat)
    requires i < |txs|
    ensures txs[..i + 1] == txs[..i] + [txs[i]]
    ensures Singles(txs[..i + 1]) == Singles(txs[..i]) + [Single(txs[i])]
  {
  }

  lemma {:induction false} FailsNow(evm: Evm, limits: Limits, payload: Checkpoint, txs: seq<Transaction>, i: nat,
      c: Checkpoint)
    requires i < |txs| && Loaded(evm, limits, payload, txs, i, c)
    requires Execute(evm, c, Single(txs[i])).Failure? || TooMuch(evm, limits, c, txs[i], i + 1)
    ensures CannotLoad(evm, limits, payload, txs)
  {
    assert FailsAt(evm, limits, payload, txs, i, c);
  }

  lemma {:induction false} LoadedAll(evm: Evm, limits: Limits, payload: Checkpoint, txs: seq<Transaction>,
      c: Checkpoint)
    requires Loaded(evm, limits, payload, txs, |txs|, c)
    ensures WellFormed(c) && c.block == payload.block && TransactionsIn(History(c)) == txs
    ensures Loads(evm, limits, payload, txs, |txs|, c) && !SurelyCannotLoad(evm, limits, payload, txs)
  {
    assert txs[..|txs|] == txs;
    LoadsUnlessItCannot(evm, limits, payload, txs, c);
  }

  lemma {:induction false} LoadedFirst(evm: Evm, limits: Limits, payload: Checkpoint, txs: seq<Transaction>)
    requires WellFormed(payload) && TransactionsIn(History(payload)) == []
    ensures Loaded(evm, limits, payload, txs, 0, payload)
  {
  }

  lemma {:induction false} OnlyRoot(c: Checkpoint)
    requires WellFormed(c) && c.depth == 0
    ensures HasBarrier(History(c)) && Sealed(c) == History(c) && Staged(c) == []
  {
    HistoryHasBarrier(c);
  }

  // ---------------------------------------------------------------------------------------
  // What the meters measure

  lemma {:induction false} TotalDaSnoc(limits: Limits, s: Span, c: Checkpoint)
    ensures TotalDa(limits, s + [c]) == TotalDa(limits, s) + limits.daBytes(c)
    decreases |s|
  {
    if s == [] {
      assert [c][1..] == [];
    } else {
      TotalDaSnoc(limits, s[1..], c);
      assert (s + [c])[1..] == s[1..] + [c];
    }
  }

  lemma {:induction false} NewestAreTotals(limits: Limits, c: Checkpoint, n: nat)
    requires n < |History(c)|
    ensures var newest := History(c)[|History(c)| - n..];
            GasOfNewest(c, n) == TotalGas(ResultsIn(newest)) && DaOfNewest(limits, c, n) == TotalDa(limits, newest)
    decreases n
  {
    if n > 0 {
      var h := History(c.prev.value);
      NewestAreTotals(limits, c.prev.value, n - 1);
      var newest := h[|h| - (n - 1)..];
      assert History(c)[|History(c)| - n..] == newest + [c];
      ResultsSnoc(newest, c);
      TotalGasConcat(ResultsIn(newest), ResultsOf(c));
      SumGasIsTotal(ResultsOf(c));
      TotalDaSnoc(limits, newest, c);
    } else {
      assert History(c)[|History(c)|..] == [];
    }
  }

  lemma {:induction false} LoadsFit(evm: Evm, limits: Limits, payload: Checkpoint, txs: seq<Transaction>, n: nat,
      c: Checkpoint)
    requires Loads(evm, limits, payload, txs, n, c)
    ensures PrefixesFit(limits, payload, c, n)
    decreases n
  {
    if n == 0 {
      var h := History(c);
      assert h[..|h|] == h && h[|h|..|h| + 0] == [];
      assert PrefixFits(limits, h, |h|, 0);
    } else {
      LoadsFront(evm, limits, payload, txs, n, c);
      LoadsFit(evm, limits, payload, txs, n - 1, c.prev.value);
      FitsNext(limits, payload, c, n);
    }
  }

  lemma {:induction false} FitsNext(limits: Limits, payload: Checkpoint, c: Checkpoint, n: nat)
    requires n > 0 && c.prev.Some? && PrefixesFit(limits, payload, c.prev.value, n - 1)
    requires !ExceedsLimits(limits, c, n)
    ensures PrefixesFit(limits, payload, c, n)
  {
    var h, m := History(c.prev.value), |History(payload)|;
    assert History(c)[..m] == h[..m];
    FitsLast(limits, c, m, n);
    forall k | 0 <= k < n
      ensures PrefixFits(limits, History(c), m, k)
    {
      assert PrefixFits(limits, h, m, k);
      assert History(c)[m..m + k] == h[m..m + k];
    }
  }

  lemma {:induction false} FitsLast(limits: Limits, c: Checkpoint, m: nat, n: nat)
    requires n < |History(c)| && m + n == |History(c)| && !ExceedsLimits(limits, c, n)
    ensures PrefixFits(limits, History(c), m, n)
  {
    NewestAreTotals(limits, c, n);
    assert History(c)[m..m + n] == History(c)[|History(c)| - n..];
  }

  // ---------------------------------------------------------------------------------------
  // Loading succeeds or fails, whatever the new checkpoints are called

  lemma {:induction false} SameAsItself(c: Checkpoint)
    ensures SameContents(c, c)
    decreases c
  {
    if c.prev.Some? {
      SameAsItself(c.prev.value);
    }
  }

  lemma {:induction false} SameUse(evm: Evm, limits: Limits, a: Checkpoint, b: Checkpoint, n: nat)
    requires IgnoresIds(evm, limits) && SameContents(a, b)
    ensures ExceedsLimits(limits, a, n) <==> ExceedsLimits(limits, b, n)
    ensures GasOfNewest(a, n) == GasOfNewest(b, n) && DaOfNewest(limits, a, n) == DaOfNewest(limits, b, n)
    decreases n
  {
    if n > 0 && a.prev.Some? {
      SameUse(evm, limits, a.prev.value, b.prev.value, n - 1);
    }
  }

  lemma {:induction false} SameExecution(evm: Evm, limits: Limits, a: Checkpoint, b: Checkpoint, tx: Transaction)
    requires IgnoresIds(evm, limits) && SameContents(a, b)
    ensures Execute(evm, a, Single(tx)) == Execute(evm, b, Single(tx))
    ensures forall next, other :: Applies(evm, a, Single(tx), next) && Applies(evm, b, Single(tx), other) ==>
      SameContents(next, other)
  {
    assert evm(a, NO_CHANGES, tx) == evm(b, NO_CHANGES, tx);
  }

  /** Applying the same transactions leads to the same contents. */
  lemma {:induction false} SameLoads(evm: Evm, limits: Limits, payload: Checkpoint, txs: seq<Transaction>, i: nat,
      a: Checkpoint, b: Checkpoint)
    requires IgnoresIds(evm, limits)
    requires Loads(evm, limits, payload, txs, i, a) && Loads(evm, limits, payload, txs, i, b)
    ensures SameContents(a, b)
    decreases i
  {
    if i == 0 {
      SameAsItself(a);
    } else {
      LoadsFront(evm, limits, payload, txs, i, a);
      LoadsFront(evm, limits, payload, txs, i, b);
      SameLoads(evm, limits, payload, txs, i - 1, a.prev.value, b.prev.value);
      SameExecution(evm, limits, a.prev.value, b.prev.value, txs[i - 1]);
    }
  }

  lemma {:induction false} LoadsFront(evm: Evm, limits: Limits, payload: Checkpoint, txs: seq<Transaction>, i: nat,
      c: Checkpoint)
    requires 0 < i && Loads(evm, limits, payload, txs, i, c)
    ensures c.prev.Some? && Loads(evm, limits, payload, txs, i - 1, c.prev.value)
    ensures Applies(evm, c.prev.value, Single(txs[i - 1]), c) && !ExceedsLimits(limits, c, i)
  {
    SinglesSnoc(txs, i - 1);
    var front := Singles(txs[..i - 1]);
    assert (front + [Single(txs[i - 1])])[..|front|] == front;
  }

  lemma {:induction false} LoadsUnlessFails(evm: Evm, limits: Limits, payload: Checkpoint, txs: seq<Transaction>,
      n: nat, c: Checkpoint, i: nat, other: Checkpoint)
    requires IgnoresIds(evm, limits) && i < n && Loads(evm, limits, payload, txs, n, c)
    ensures !FailsAt(evm, limits, payload, txs, i, other)
    decreases n
  {
    LoadsFront(evm, limits, payload, txs, n, c);
    if i < n - 1 {
      LoadsUnlessFails(evm, limits, payload, txs, n - 1, c.prev.value, i, other);
    } else if Loads(evm, limits, payload, txs, i, other) {
      SameLoads(evm, limits, payload, txs, i, c.prev.value, other);
      SameExecution(evm, limits, c.prev.value, other, txs[i]);
      forall next | Applies(evm, other, Single(txs[i]), next)
        ensures !ExceedsLimits(limits, next, n)
      {
        SameUse(evm, limits, c, next, n);
      }
    }
  }

  lemma {:induction false} LoadsUnlessItCannot(evm: Evm, limits: Limits, payload: Checkpoint, txs: seq<Transaction>,
      c: Checkpoint)
    requires Loads(evm, limits, payload, txs, |txs|, c)
    ensures !SurelyCannotLoad(evm, limits, payload, txs)
  {
    if SurelyCannotLoad(evm, limits, payload, txs) {
      var i, other :| FailsAt(evm, limits, payload, txs, i, other);
      LoadsUnlessFails(evm, limits, payload, txs, |txs|, c, i, other);
    }
  }

  // ---------------------------------------------------------------------------------------
  // Extraction

  /** How many of the first n sequencer transactions are at their place. */
  function InPlace(sequencer: seq<Transaction>, txs: seq<Transaction>, n: nat): (count: nat)
    requires n <= |sequencer|
    ensures count <= n && count <= |txs|
  {
    if n == 0 then 0
    else InPlace(sequencer, txs, n - 1) + if n <= |txs| && txs[n - 1].hash == sequencer[n - 1].hash then 1 else 0
  }

  ghost predicate StartsWith(sequencer: seq<Transaction>, txs: seq<Transaction>) {
    |sequencer| <= |txs| && forall i :: 0 <= i < |sequencer| ==> txs[i].hash == sequencer[i].hash
  }

  /** `extract_external_txs`. */
  method ExtractExternal(payload: Checkpoint) returns (external: seq<Transaction>)
    ensures var txs := TransactionsIn(History(payload));
            && external == txs[InPlace(payload.block.sequencerTxs, txs, |payload.block.sequencerTxs|)..]
            && (external == Except(txs, HashesOf(payload.block.sequencerTxs)) <==>
                  exists k :: LedBy(payload.block.sequencerTxs, txs, k))
  {
    var sequencer := payload.block.sequencerTxs;
    var history := History(payload);
    var transactions := TransactionsIn(history);
    var prefixLen := 0;
    for i := 0 to |sequencer|
      invariant prefixLen == InPlace(sequencer, transactions, i)
    {
      if i < |transactions| && transactions[i].hash == sequencer[i].hash {
        prefixLen := prefixLen + 1;
      }
    }
    external := transactions[prefixLen..];
    ExtractionIsExactIff(sequencer, transactions);
  }

  lemma {:induction false} InPlaceIff(sequencer: seq<Transaction>, txs: seq<Transaction>, n: nat)
    requires n <= |sequencer|
    ensures InPlace(sequencer, txs, n) == n <==>
      n <= |txs| && forall i :: 0 <= i < n ==> txs[i].hash == sequencer[i].hash
    decreases n
  {
    if n > 0 {
      InPlaceIff(sequencer, txs, n - 1);
    }
  }

  lemma {:induction false} AllInPlace(sequencer: seq<Transaction>, txs: seq<Transaction>)
    ensures InPlace(sequencer, txs, |sequencer|) == |sequencer| <==> StartsWith(sequencer, txs)
  {
    InPlaceIff(sequencer, txs, |sequencer|);
  }

  function HashesOf(txs: seq<Transaction>): (r: seq<Hash>)
    ensures |r| == |txs| && forall i :: 0 <= i < |txs| ==> r[i] == txs[i].hash
  {
    seq(|txs|, i requires 0 <= i < |txs| => txs[i].hash)
  }

  /** The first k transactions are the sequencer's first k, and no later one is the sequencer's. */
  ghost predicate LedBy(sequencer: seq<Transaction>, txs: seq<Transaction>, k: int) {
    && 0 <= k <= |sequencer| && k <= |txs|
    && (forall i :: 0 <= i < k ==> txs[i].hash == sequencer[i].hash)
    && forall i :: k <= i < |txs| ==> txs[i].hash !in HashesOf(sequencer)
  }

  lemma {:induction false} InPlaceWhenLed(sequencer: seq<Transaction>, txs: seq<Transaction>, k: nat, n: nat)
    requires LedBy(sequencer, txs, k) && n <= |sequencer|
    ensures InPlace(sequencer, txs, n) == if n <= k then n else k
    decreases n
  {
    if n > 0 {
      InPlaceWhenLed(sequencer, txs, k, n - 1);
      assert HashesOf(sequencer)[n - 1] in HashesOf(sequencer);
    }
  }

  /** Where the transactions from the k-th on are not the sequencer's, the first k must all be in place to make k. */
  lemma {:induction false} InPlaceMeansAll(sequencer: seq<Transaction>, txs: seq<Transaction>, k: nat, n: nat)
    requires k <= |txs| && k <= n <= |sequencer|
    requires forall i :: k <= i < |txs| ==> txs[i].hash !in HashesOf(sequencer)
    requires InPlace(sequencer, txs, n) == k
    ensures LedBy(sequencer, txs, k)
    decreases n
  {
    if n == k {
      InPlaceIff(sequencer, txs, n);
    } else {
      assert HashesOf(sequencer)[n - 1] in HashesOf(sequencer);
      InPlaceMeansAll(sequencer, txs, k, n - 1);
    }
  }

  lemma {:induction false} ExceptAfter(txs: seq<Transaction>, hashes: seq<Hash>, k: nat)
    requires k <= |txs| && forall i :: 0 <= i < k ==> txs[i].hash in hashes
    requires forall i :: k <= i < |txs| ==> txs[i].hash !in hashes
    ensures Except(txs, hashes) == txs[k..]
    decreases k
  {
    if k == 0 {
      ExceptNone(txs, hashes);
    } else {
      ExceptAfter(txs[1..], hashes, k - 1);
      assert txs[1..][k - 1..] == txs[k..];
    }
  }

  lemma {:induction false} ExceptMembers(txs: seq<Transaction>, hashes: seq<Hash>)
    ensures forall t :: t in Except(txs, hashes) ==> t.hash !in hashes
    decreases |txs|
  {
    if txs != [] {
      ExceptMembers(txs[1..], hashes);
    }
  }

  /** What is extracted is the payload without the sequencer's transactions if and only if the payload starts with
      some of them in their order, none being left out in between, and none of them comes later. */
  lemma {:induction false} ExtractionIsExactIff(sequencer: seq<Transaction>, txs: seq<Transaction>)
    ensures txs[InPlace(sequencer, txs, |sequencer|)..] == Except(txs, HashesOf(sequencer)) <==>
            exists k :: LedBy(sequencer, txs, k)
  {
    var n, hashes := InPlace(sequencer, txs, |sequencer|), HashesOf(sequencer);
    if k :| LedBy(sequencer, txs, k) {
      InPlaceWhenLed(sequencer, txs, k, |sequencer|);
      forall i | 0 <= i < k
        ensures txs[i].hash in hashes
      {
        assert hashes[i] == txs[i].hash;
      }
      ExceptAfter(txs, hashes, k);
    }
    if txs[n..] == Except(txs, hashes) {
      ExceptMembers(txs, hashes);
      forall i | n <= i < |txs|
        ensures txs[i].hash !in hashes
      {
        assert txs[n..][i - n] in txs[n..];
      }
      InPlaceMeansAll(sequencer, txs, n, |sequencer|);
    }
  }

  /** Matches after the first mismatch count as well: here the first transaction is not the sequencer's and gets
      lost, and one of the sequencer's is taken for an external one. */
  lemma {:induction false} MismatchLosesTransaction(a: Transaction, b: Transaction, other: Transaction)
    requires a.hash != other.hash
    ensures InPlace([a, b], [other, b], 2) == 1 && [other, b][1..] == [b]
  {
    assert InPlace([a, b], [other, b], 0) == 0;
    assert InPlace([a, b], [other, b], 1) == 0;
  }

  // ---------------------------------------------------------------------------------------
  // From the prologue to the block

  lemma {:induction false} SealedTellsBlock(c: Checkpoint)
    requires WellFormed(c) && HasBarrier(History(c))
    ensures Sealed(c) != [] && Sealed(c)[0].block == c.block
  {
    HistoryIsPathFromRoot(c);
    RootIsAncestor(c);
    SealedAndStagingRebuildHistory(c);
    assert Sealed(c)[0] == History(c)[0] == Root(c);
  }

  /** The payloads of a run of steps, from the end of the prologue. */
  ghost predicate IsRun(payloads: seq<Checkpoint>) {
    && payloads != [] && Protected(payloads[0])
    && forall i :: 0 <= i < |payloads| - 1 ==> KeepsSealed(payloads[i], payloads[i + 1])
  }

  lemma {:induction false} ProtectedAlong(payloads: seq<Checkpoint>, i: nat)
    requires IsRun(payloads) && i < |payloads|
    ensures Protected(payloads[i]) && payloads[i].block == payloads[0].block
    decreases i
  {
    if i > 0 {
      ProtectedAlong(payloads, i - 1);
      assert KeepsSealed(payloads[i - 1], payloads[i - 1 + 1]);
      SealedTellsBlock(payloads[i - 1]);
      SealedTellsBlock(payloads[i]);
    }
  }

  /** After any run of steps, the sequencer's transactions followed by what is extracted are the payload. */
  lemma {:induction false} BlockIsPayload(payloads: seq<Checkpoint>)
    requires IsRun(payloads)
    ensures var c := payloads[|payloads| - 1];
            var txs := TransactionsIn(History(c));
            var external := txs[InPlace(c.block.sequencerTxs, txs, |c.block.sequencerTxs|)..];
            && c.block.sequencerTxs + external == txs
            && HasBarrier(History(c)) && external == TransactionsIn(Staged(c))
  {
    var c := payloads[|payloads| - 1];
    ProtectedAlong(payloads, |payloads| - 1);
    StagedAreOrders(c);
    AllInPlace(c.block.sequencerTxs, TransactionsIn(History(c)));
  }
}
