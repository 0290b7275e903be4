/**
 Executing transactions and bundles.

 A bundle runs its transactions one after the other.  Optional transactions that are invalid or fail
 are taken out of the bundle; others make the bundle fail unless they are allowed to.
 */
module BundleExecution {
  import opened Wrappers
  import opened Payload

  datatype Eligibility = Eligible | TemporarilyIneligible | PermanentlyIneligible

  datatype ExecutionError =
    | InvalidTransaction(error: nat)
    | InvalidBundleTransaction(tx: Hash, error: nat)
    | BundleTransactionReverted(tx: Hash)
    | IneligibleBundle(eligibility: Eligibility)

  /** `eligibility_at`. */
  function EligibilityAt(b: Bundle, timestamp: nat, number: nat): Eligibility {
    if b.txs == [] then PermanentlyIneligible
    else if b.maxTimestamp.Some? && b.maxTimestamp.value < timestamp then PermanentlyIneligible
    else if b.blockNumber != 0 && b.blockNumber < number then PermanentlyIneligible
    else if b.minTimestamp.Some? && b.minTimestamp.value > timestamp then TemporarilyIneligible
    else if b.blockNumber != 0 && b.blockNumber > number then TemporarilyIneligible
    else Eligible
  }

  /** What is permanently ineligible is so at every later block. */
  lemma PermanentStays(b: Bundle, timestamp: nat, number: nat, laterTimestamp: nat, laterNumber: nat)
    requires EligibilityAt(b, timestamp, number) == PermanentlyIneligible
    requires timestamp <= laterTimestamp && number <= laterNumber
    ensures EligibilityAt(b, laterTimestamp, laterNumber) == PermanentlyIneligible
  {
  }

  ghost predicate AdmittedFrom(b: Bundle, timestamp: nat, number: nat) {
    exists t: nat, n: nat :: timestamp <= t && number <= n && EligibilityAt(b, t, n) == Eligible
  }

  /** This block or a later one admits the bundle if and only if it is not permanently ineligible and its window of
      timestamps is not empty.  The latter is not looked at: a bundle with an empty window counts as temporarily
      ineligible until the window is over. */
  lemma AdmittedFromIff(b: Bundle, timestamp: nat, number: nat)
    ensures AdmittedFrom(b, timestamp, number) <==>
      && EligibilityAt(b, timestamp, number) != PermanentlyIneligible
      && (b.minTimestamp.Some? && b.maxTimestamp.Some? ==> b.minTimestamp.value <= b.maxTimestamp.value)
  {
    if EligibilityAt(b, timestamp, number) == PermanentlyIneligible {
      forall t: nat, n: nat | timestamp <= t && number <= n
        ensures EligibilityAt(b, t, n) != Eligible
      {
        PermanentStays(b, timestamp, number, t, n);
      }
    } else if b.minTimestamp.Some? && b.maxTimestamp.Some? ==> b.minTimestamp.value <= b.maxTimestamp.value {
      var t := if b.minTimestamp.Some? && timestamp < b.minTimestamp.value then b.minTimestamp.value else timestamp;
      var n := if b.blockNumber != 0 then b.blockNumber else number;
      assert EligibilityAt(b, t, n) == Eligible;
    }
  }

  /** A block admits the bundle exactly if it is the one that the bundle asks for, within the bundle's window. */
  lemma EligibleIff(b: Bundle, timestamp: nat, number: nat)
    ensures EligibilityAt(b, timestamp, number) == Eligible <==>
      && b.txs != [] && (b.blockNumber == 0 || b.blockNumber == number)
      && (b.minTimestamp.Some? ==> b.minTimestamp.value <= timestamp)
      && (b.maxTimestamp.Some? ==> timestamp <= b.maxTimestamp.value)
  {
  }

  function RemoveFirst(txs: seq<Transaction>, tx: Hash): seq<Transaction> {
    if txs == [] then []
    else if txs[0].hash == tx then txs[1..]
    else [txs[0]] + RemoveFirst(txs[1..], tx)
  }

  function WithoutHash(hashes: seq<Hash>, tx: Hash): (r: seq<Hash>)
    ensures forall h :: h in r <==> h in hashes && h != tx
  {
    if hashes == [] then []
    else (if hashes[0] == tx then [] else [hashes[0]]) + WithoutHash(hashes[1..], tx)
  }

  /** `without_transaction`: the first transaction with the hash goes, and so do its marks. */
  function WithoutTransaction(b: Bundle, tx: Hash): Bundle {
    b.(txs := RemoveFirst(b.txs, tx),
       reverting := WithoutHash(b.reverting, tx),
       dropping := WithoutHash(b.dropping, tx))
  }

  function WithoutTransactions(b: Bundle, txs: seq<Hash>): Bundle {
    if txs == [] then b else WithoutTransaction(WithoutTransactions(b, txs[..|txs| - 1]), txs[|txs| - 1])
  }

  // ---------------------------------------------------------------------------------------
  // The loop

  datatype Progress = Progress(results: seq<TxResult>, discarded: seq<Hash>, state: Diff)

  /** A transaction stays in the bundle if it ran, and succeeded or was allowed to fail. */
  predicate Included(b: Bundle, tx: Hash, o: TxOutcome) {
    o.Ran? && (o.result.success || b.IsAllowedToFail(tx))
  }

  function RunOne(b: Bundle, p: Progress, tx: Hash, o: TxOutcome): Result<Progress, ExecutionError> {
    if Included(b, tx, o) then Success(Progress(p.results + [o.result], p.discarded, Commit(p.state, o.changes)))
    else if b.IsOptional(tx) then Success(p.(discarded := p.discarded + [tx]))
    else if o.Ran? then Failure(BundleTransactionReverted(tx))
    else Failure(InvalidBundleTransaction(tx, o.error))
  }

  function RunTxs(evm: Evm, c: Checkpoint, b: Bundle, txs: seq<Transaction>): Result<Progress, ExecutionError> {
    if txs == [] then Success(Progress([], [], NO_CHANGES))
    else
      match RunTxs(evm, c, b, txs[..|txs| - 1])
      case Failure(e) => Failure(e)
      case Success(p) =>
        var tx := txs[|txs| - 1];
        RunOne(b, p, tx.hash, evm(c, p.state, tx))
  }

  function RunBundle(evm: Evm, c: Checkpoint, b: Bundle): Result<ExecutionResult, ExecutionError> {
    var eligibility := EligibilityAt(b, c.block.timestamp, c.block.number);
    if eligibility != Eligible then Failure(IneligibleBundle(eligibility))
    else
      match RunTxs(evm, c, b, b.txs)
      case Failure(e) => Failure(e)
      case Success(p) => Success(ExecutionResult(Bundled(WithoutTransactions(b, p.discarded)), p.results, p.state))
  }

  lemma {:induction false} FailureStays(evm: Evm, c: Checkpoint, b: Bundle, txs: seq<Transaction>, i: nat)
    requires i <= |txs| && RunTxs(evm, c, b, txs[..i]).Failure?
    ensures RunTxs(evm, c, b, txs) == RunTxs(evm, c, b, txs[..i])
    decreases |txs|
  {
    if i == |txs| {
      assert txs[..i] == txs;
    } else {
      assert txs[..|txs| - 1][..i] == txs[..i];
      FailureStays(evm, c, b, txs[..|txs| - 1], i);
    }
  }

  lemma RunTxsSnoc(evm: Evm, c: Checkpoint, b: Bundle, txs: seq<Transaction>, i: nat)
    requires i < |txs| && RunTxs(evm, c, b, txs[..i]).Success?
    ensures var p := RunTxs(evm, c, b, txs[..i]).value;
            RunTxs(evm, c, b, txs[..i + 1]) == RunOne(b, p, txs[i].hash, evm(c, p.state, txs[i]))
  {
    assert txs[..i + 1][..i] == txs[..i];
  }

  /** `execute_bundle`. */
  method ExecuteBundle(evm: Evm, c: Checkpoint, bundle: Bundle) returns (r: Result<ExecutionResult, ExecutionError>)
    ensures r == RunBundle(evm, c, bundle)
  {
    var eligible := EligibilityAt(bundle, c.block.timestamp, c.block.number);
    if eligible != Eligible {
      return Failure(IneligibleBundle(eligible));
    }
    var db := NO_CHANGES;
    var discarded: seq<Hash> := [];
    var results: seq<TxResult> := [];
    var txs := bundle.txs;
    for i := 0 to |txs|
      invariant RunTxs(evm, c, bundle, txs[..i]) == Success(Progress(results, discarded, db))
    {
      RunTxsSnoc(evm, c, bundle, txs, i);
      var tx := txs[i].hash;
      var optional := bundle.IsOptional(tx);
      var allowedToFail := bundle.IsAllowedToFail(tx);
      var outcome := evm(c, db, txs[i]);
      if outcome.Ran? && (outcome.result.success || allowedToFail) {
        results := results + [outcome.result];
        db := Commit(db, outcome.changes);
      } else if optional {
        discarded := discarded + [tx];
      } else {
        FailureStays(evm, c, bundle, txs, i + 1);
        return Failure(if outcome.Ran? then BundleTransactionReverted(tx)
                       else InvalidBundleTransaction(tx, outcome.error));
      }
    }
    assert txs[..|txs|] == txs;
    var reduced := bundle;
    for i := 0 to |discarded|
      invariant reduced == WithoutTransactions(bundle, discarded[..i])
    {
      reduced := WithoutTransaction(reduced, discarded[i]);
      assert discarded[..i + 1][..i] == discarded[..i];
    }
    assert discarded[..|discarded|] == discarded;
    r := Success(ExecutionResult(Bundled(reduced), results, db));
  }

  // ---------------------------------------------------------------------------------------
  // What it means

  /** The state changes of running these transactions, and only these, in this order. */
  function StateAfter(evm: Evm, c: Checkpoint, txs: seq<Transaction>): Diff {
    if txs == [] then NO_CHANGES
    else
      var before := StateAfter(evm, c, txs[..|txs| - 1]);
      match evm(c, before, txs[|txs| - 1])
      case Invalid(_) => before
      case Ran(_, changes) => Commit(before, changes)
  }

  /** The outcome of each of the transactions in that run. */
  function OutcomeAt(evm: Evm, c: Checkpoint, txs: seq<Transaction>, i: nat): TxOutcome
    requires i < |txs|
  {
    evm(c, StateAfter(evm, c, txs[..i]), txs[i])
  }

  /** A transaction is kept if, run right after the ones kept before it, it is to be included. */
  function Kept(evm: Evm, c: Checkpoint, b: Bundle, txs: seq<Transaction>): seq<Transaction> {
    if txs == [] then []
    else
      var before := Kept(evm, c, b, txs[..|txs| - 1]);
      var tx := txs[|txs| - 1];
      if Included(b, tx.hash, evm(c, StateAfter(evm, c, before), tx)) then before + [tx] else before
  }

  /** The first i transactions ran; the next one must not be dropped, and cannot be kept. */
  ghost predicate Offends(evm: Evm, c: Checkpoint, b: Bundle, txs: seq<Transaction>, i: nat)
    requires i < |txs|
  {
    && !b.IsOptional(txs[i].hash)
    && !Included(b, txs[i].hash, evm(c, StateAfter(evm, c, Kept(evm, c, b, txs[..i])), txs[i]))
  }

  /** The transactions without those that have one of the hashes. */
  function Except(txs: seq<Transaction>, hashes: seq<Hash>): seq<Transaction> {
    if txs == [] then []
    else (if txs[0].hash in hashes then [] else [txs[0]]) + Except(txs[1..], hashes)
  }

  predicate Has(txs: seq<Transaction>, h: Hash) {
    exists i :: 0 <= i < |txs| && txs[i].hash == h
  }

  ghost predicate DistinctHashes(txs: seq<Transaction>) {
    forall i, j :: 0 <= i < j < |txs| ==> txs[i].hash != txs[j].hash
  }

  /** `results` are the outcomes of running exactly `txs`, each of which was to be included. */
  ghost predicate LinesUp(evm: Evm, c: Checkpoint, b: Bundle, txs: seq<Transaction>, results: seq<TxResult>) {
    && |results| == |txs|
    && forall i :: 0 <= i < |txs| ==>
         var o := OutcomeAt(evm, c, txs, i);
         Included(b, txs[i].hash, o) && o.result == results[i]
  }

  lemma {:induction false} RunTxsMeaning(evm: Evm, c: Checkpoint, b: Bundle, txs: seq<Transaction>)
    ensures var r, kept := RunTxs(evm, c, b, txs), Kept(evm, c, b, txs);
            && (r.Success? <==> forall i :: 0 <= i < |txs| ==> !Offends(evm, c, b, txs, i))
            && (r.Success? ==> r.value.state == StateAfter(evm, c, kept) && LinesUp(evm, c, b, kept, r.value.results))
            && (r.Success? ==> forall h :: h in r.value.discarded ==> b.IsOptional(h))
  {
    SucceedsUnlessOffended(evm, c, b, txs);
    if RunTxs(evm, c, b, txs).Success? {
      ResultsLineUp(evm, c, b, txs);
      DiscardedAreOptional(evm, c, b, txs);
    }
  }

  /** The error of a failing bundle: that of the first transaction that must not be dropped and cannot be kept. */
  ghost predicate FirstOffence(evm: Evm, c: Checkpoint, b: Bundle, txs: seq<Transaction>, i: nat, error: ExecutionError)
    requires i < |txs|
  {
    var o := evm(c, StateAfter(evm, c, Kept(evm, c, b, txs[..i])), txs[i]);
    && Offends(evm, c, b, txs, i) && (forall j :: 0 <= j < i ==> !Offends(evm, c, b, txs, j))
    && error ==
         if o.Ran? then BundleTransactionReverted(txs[i].hash) else InvalidBundleTransaction(txs[i].hash, o.error)
  }

  lemma {:induction false} FailureMeaning(evm: Evm, c: Checkpoint, b: Bundle, txs: seq<Transaction>)
    requires RunTxs(evm, c, b, txs).Failure?
    ensures exists i :: 0 <= i < |txs| && FirstOffence(evm, c, b, txs, i, RunTxs(evm, c, b, txs).error)
    decreases |txs|
  {
    var n := |txs| - 1;
    var front := txs[..n];
    OffendsInPrefix(evm, c, b, txs);
    if RunTxs(evm, c, b, front).Failure? {
      FailureMeaning(evm, c, b, front);
      var i :| 0 <= i < n && FirstOffence(evm, c, b, front, i, RunTxs(evm, c, b, front).error);
      assert txs[..n][..i] == txs[..i];
      assert FirstOffence(evm, c, b, txs, i, RunTxs(evm, c, b, txs).error);
    } else {
      SucceedsUnlessOffended(evm, c, b, front);
      ResultsLineUp(evm, c, b, front);
      assert FirstOffence(evm, c, b, txs, n, RunTxs(evm, c, b, txs).error);
    }
  }

  lemma {:induction false} ResultsLineUp(evm: Evm, c: Checkpoint, b: Bundle, txs: seq<Transaction>)
    requires RunTxs(evm, c, b, txs).Success?
    ensures var r, kept := RunTxs(evm, c, b, txs).value, Kept(evm, c, b, txs);
            r.state == StateAfter(evm, c, kept) && LinesUp(evm, c, b, kept, r.results)
    decreases |txs|
  {
    if txs != [] {
      var front, tx := txs[..|txs| - 1], txs[|txs| - 1];
      ResultsLineUp(evm, c, b, front);
      var r, before := RunTxs(evm, c, b, front).value, Kept(evm, c, b, front);
      if Included(b, tx.hash, evm(c, r.state, tx)) {
        LinesUpSnoc(evm, c, b, before, tx, r.results);
      }
    }
  }

  /** What becomes of the i-th transaction, by the marks of the bundle.  If it runs, and succeeds or is marked as
      allowed to fail, its result and its changes are taken in.  If not, it is left out if it is marked as one that may
      be dropped; else the bundle fails. */
  lemma {:induction false} TurnMeaning(evm: Evm, c: Checkpoint, b: Bundle, txs: seq<Transaction>, i: nat)
    requires i < |txs| && RunTxs(evm, c, b, txs[..i]).Success?
    ensures var p, tx := RunTxs(evm, c, b, txs[..i]).value, txs[i];
            var o, after := evm(c, p.state, tx), RunTxs(evm, c, b, txs[..i + 1]);
            if o.Ran? && (o.result.success || tx.hash in b.reverting) then
              after.Success? && after.value.results == p.results + [o.result] && after.value.discarded == p.discarded
              && after.value.state == Commit(p.state, o.changes)
            else if tx.hash in b.dropping then
              after.Success? && after.value.results == p.results && after.value.state == p.state
              && after.value.discarded == p.discarded + [tx.hash]
            else
              after.Failure?
  {
    RunTxsSnoc(evm, c, b, txs, i);
  }

  lemma {:induction false} DiscardedAreOptional(evm: Evm, c: Checkpoint, b: Bundle, txs: seq<Transaction>)
    requires RunTxs(evm, c, b, txs).Success?
    ensures forall h :: h in RunTxs(evm, c, b, txs).value.discarded ==> b.IsOptional(h) && Has(txs, h)
    decreases |txs|
  {
    if txs != [] {
      var front := txs[..|txs| - 1];
      DiscardedAreOptional(evm, c, b, front);
      assert txs[|txs| - 1] == txs[|front|];
      forall h | Has(front, h)
        ensures Has(txs, h)
      {
        var i :| 0 <= i < |front| && front[i].hash == h;
        assert txs[i].hash == h;
      }
    }
  }

  lemma {:induction false} SucceedsUnlessOffended(evm: Evm, c: Checkpoint, b: Bundle, txs: seq<Transaction>)
    ensures RunTxs(evm, c, b, txs).Success? <==> forall i :: 0 <= i < |txs| ==> !Offends(evm, c, b, txs, i)
    decreases |txs|
  {
    if txs != [] {
      var front, tx := txs[..|txs| - 1], txs[|txs| - 1];
      SucceedsUnlessOffended(evm, c, b, front);
      OffendsInPrefix(evm, c, b, txs);
      if RunTxs(evm, c, b, front).Success? {
        ResultsLineUp(evm, c, b, front);
        assert Offends(evm, c, b, txs, |front|) <==> RunTxs(evm, c, b, txs).Failure?;
      } else {
        var i :| 0 <= i < |front| && Offends(evm, c, b, front, i);
        assert Offends(evm, c, b, txs, i);
      }
    }
  }

  lemma {:induction false} OffendsInPrefix(evm: Evm, c: Checkpoint, b: Bundle, txs: seq<Transaction>)
    requires txs != []
    ensures forall i :: 0 <= i < |txs| - 1 ==>
      (Offends(evm, c, b, txs[..|txs| - 1], i) <==> Offends(evm, c, b, txs, i))
  {
    forall i | 0 <= i < |txs| - 1
      ensures Offends(evm, c, b, txs[..|txs| - 1], i) <==> Offends(evm, c, b, txs, i)
    {
      assert txs[..|txs| - 1][..i] == txs[..i];
    }
  }

  lemma {:induction false} LinesUpSnoc(evm: Evm, c: Checkpoint, b: Bundle, txs: seq<Transaction>, tx: Transaction,
      results: seq<TxResult>)
    requires LinesUp(evm, c, b, txs, results)
    requires Included(b, tx.hash, evm(c, StateAfter(evm, c, txs), tx))
    ensures var o := evm(c, StateAfter(evm, c, txs), tx);
            LinesUp(evm, c, b, txs + [tx], results + [o.result])
    ensures StateAfter(evm, c, txs + [tx]) ==
      Commit(StateAfter(evm, c, txs), evm(c, StateAfter(evm, c, txs), tx).changes)
  {
    var all := txs + [tx];
    assert all[..|txs|] == txs;
    forall i | 0 <= i < |txs|
      ensures OutcomeAt(evm, c, all, i) == OutcomeAt(evm, c, txs, i)
    {
      assert all[..i] == txs[..i];
    }
  }

  // ---------------------------------------------------------------------------------------
  // The reduced bundle

  lemma {:induction false} RemoveFirstOfDistinct(txs: seq<Transaction>, tx: Hash)
    requires DistinctHashes(txs)
    ensures RemoveFirst(txs, tx) == Except(txs, [tx])
    decreases |txs|
  {
    if txs != [] {
      if txs[0].hash == tx {
        ExceptNone(txs[1..], [tx]);
      } else {
        RemoveFirstOfDistinct(txs[1..], tx);
      }
    }
  }

  lemma {:induction false} ExceptSnoc(txs: seq<Transaction>, last: Transaction, hashes: seq<Hash>)
    ensures Except(txs + [last], hashes) == Except(txs, hashes) + if last.hash in hashes then [] else [last]
    decreases |txs|
  {
    if txs != [] {
      assert (txs + [last])[1..] == txs[1..] + [last];
      ExceptSnoc(txs[1..], last, hashes);
    }
  }

  lemma {:induction false} ExceptNone(txs: seq<Transaction>, hashes: seq<Hash>)
    requires forall i :: 0 <= i < |txs| ==> txs[i].hash !in hashes
    ensures Except(txs, hashes) == txs
    decreases |txs|
  {
    if txs != [] {
      ExceptNone(txs[1..], hashes);
    }
  }

  /** Members keep their order and no hash is new. */
  lemma {:induction false} ExceptKeepsDistinct(txs: seq<Transaction>, hashes: seq<Hash>)
    requires DistinctHashes(txs)
    ensures DistinctHashes(Except(txs, hashes))
    ensures forall t :: t in Except(txs, hashes) <==> t in txs && t.hash !in hashes
    decreases |txs|
  {
    if txs != [] {
      ExceptKeepsDistinct(txs[1..], hashes);
      var rest := Except(txs[1..], hashes);
      forall i | 0 <= i < |rest|
        ensures rest[i].hash != txs[0].hash
      {
        assert rest[i] in txs[1..];
      }
    }
  }

  lemma {:induction false} ExceptTwice(txs: seq<Transaction>, hashes: seq<Hash>, tx: Hash)
    ensures Except(Except(txs, hashes), [tx]) == Except(txs, hashes + [tx])
    decreases |txs|
  {
    if txs != [] {
      ExceptTwice(txs[1..], hashes, tx);
      var rest := Except(txs[1..], hashes);
      assert ([txs[0]] + rest)[1..] == rest && [] + rest == rest;
      if txs[0].hash in hashes {
        assert Except(txs, hashes) == rest;
      }
    }
  }

  lemma {:induction false} ReducedTransactions(b: Bundle, hashes: seq<Hash>)
    requires DistinctHashes(b.txs)
    ensures WithoutTransactions(b, hashes).txs == Except(b.txs, hashes)
    decreases |hashes|
  {
    if hashes == [] {
      ExceptNone(b.txs, []);
    } else {
      var front, last := hashes[..|hashes| - 1], hashes[|hashes| - 1];
      ReducedTransactions(b, front);
      ExceptKeepsDistinct(b.txs, front);
      RemoveFirstOfDistinct(Except(b.txs, front), last);
      ExceptTwice(b.txs, front, last);
      assert hashes == front + [last];
    }
  }

  /** The marks of removed transactions are removed with them. */
  lemma {:induction false} ReducedMarks(b: Bundle, hashes: seq<Hash>, h: Hash)
    ensures WithoutTransactions(b, hashes).IsOptional(h) <==> b.IsOptional(h) && h !in hashes
    ensures WithoutTransactions(b, hashes).IsAllowedToFail(h) <==> b.IsAllowedToFail(h) && h !in hashes
    decreases |hashes|
  {
    if hashes != [] {
      var front, last := hashes[..|hashes| - 1], hashes[|hashes| - 1];
      ReducedMarks(b, front, h);
      assert hashes == front + [last];
    }
  }

  /** Nothing else about the bundle changes. */
  lemma {:induction false} ReducedRest(b: Bundle, hashes: seq<Hash>)
    ensures var r := WithoutTransactions(b, hashes);
            && r.blockNumber == b.blockNumber && r.minTimestamp == b.minTimestamp && r.maxTimestamp == b.maxTimestamp
    decreases |hashes|
  {
    if hashes != [] {
      ReducedRest(b, hashes[..|hashes| - 1]);
    }
  }

  lemma {:induction false} KeptAreNotDiscarded(evm: Evm, c: Checkpoint, b: Bundle, txs: seq<Transaction>)
    requires DistinctHashes(txs) && RunTxs(evm, c, b, txs).Success?
    ensures Kept(evm, c, b, txs) == Except(txs, RunTxs(evm, c, b, txs).value.discarded)
    decreases |txs|
  {
    if txs != [] {
      var front, last := txs[..|txs| - 1], txs[|txs| - 1];
      KeptAreNotDiscarded(evm, c, b, front);
      ResultsLineUp(evm, c, b, front);
      DiscardedAreOptional(evm, c, b, front);
      var p := RunTxs(evm, c, b, front).value;
      LastIsNew(txs);
      assert last.hash !in p.discarded;
      if Included(b, last.hash, evm(c, p.state, last)) {
        ExceptSnoc(front, last, p.discarded);
      } else {
        ExceptIgnores(front, p.discarded, last.hash);
        ExceptSnoc(front, last, p.discarded + [last.hash]);
      }
    }
  }

  lemma {:induction false} LastIsNew(txs: seq<Transaction>)
    requires txs != [] && DistinctHashes(txs)
    ensures var front, last := txs[..|txs| - 1], txs[|txs| - 1];
            txs == front + [last] && DistinctHashes(front) &&
            forall i :: 0 <= i < |front| ==> front[i].hash != last.hash
  {
  }

  lemma {:induction false} ExceptIgnores(txs: seq<Transaction>, hashes: seq<Hash>, other: Hash)
    requires forall i :: 0 <= i < |txs| ==> txs[i].hash != other
    ensures Except(txs, hashes + [other]) == Except(txs, hashes)
    decreases |txs|
  {
    if txs != [] {
      ExceptIgnores(txs[1..], hashes, other);
    }
  }

  /** What executing a bundle without repeated transactions means.  It fails exactly if the bundle is not
      eligible or some transaction that is not optional cannot be kept; otherwise exactly the kept
      transactions remain, the results are theirs one by one, and the state is that of running only them. */
  lemma BundleMeaning(evm: Evm, c: Checkpoint, b: Bundle)
    requires DistinctHashes(b.txs)
    ensures var r, kept := RunBundle(evm, c, b), Kept(evm, c, b, b.txs);
            && (r.Success? <==>
                 && EligibilityAt(b, c.block.timestamp, c.block.number) == Eligible
                 && forall i :: 0 <= i < |b.txs| ==> !Offends(evm, c, b, b.txs, i))
            && (r.Success? ==>
                 && r.value.source.Bundled? && r.value.source.bundle.txs == kept
                 && LinesUp(evm, c, b, kept, r.value.results)
                 && r.value.state == StateAfter(evm, c, kept))
  {
    RunTxsMeaning(evm, c, b, b.txs);
    if RunBundle(evm, c, b).Success? {
      KeptAreNotDiscarded(evm, c, b, b.txs);
      ReducedTransactions(b, RunTxs(evm, c, b, b.txs).value.discarded);
    }
  }

  /** Kept transactions are transactions of the bundle in their order, and all that are not optional
      are kept when the bundle succeeds. */
  lemma KeptIsWhatRemains(evm: Evm, c: Checkpoint, b: Bundle, tx: Transaction)
    requires DistinctHashes(b.txs) && RunBundle(evm, c, b).Success?
    ensures tx in Kept(evm, c, b, b.txs) ==> tx in b.txs
    ensures tx in b.txs && tx !in Kept(evm, c, b, b.txs) ==> b.IsOptional(tx.hash)
  {
    KeptAreNotDiscarded(evm, c, b, b.txs);
    RunTxsMeaning(evm, c, b, b.txs);
    ExceptKeepsDistinct(b.txs, RunTxs(evm, c, b, b.txs).value.discarded);
  }

  /** A successful bundle is never empty, whatever its transactions do, if and only if one of them is not
      optional.  A bundle of optional transactions that are all dropped is not rejected. */
  lemma NeverEmptyIff(b: Bundle, c: Checkpoint)
    requires DistinctHashes(b.txs)
    requires EligibilityAt(b, c.block.timestamp, c.block.number) == Eligible
    ensures (forall evm: Evm ::
               RunBundle(evm, c, b).Success? ==> TransactionsOf(RunBundle(evm, c, b).value.source) != [])
            <==> exists tx :: tx in b.txs && !b.IsOptional(tx.hash)
  {
    if tx :| tx in b.txs && !b.IsOptional(tx.hash) {
      forall evm: Evm | RunBundle(evm, c, b).Success?
        ensures TransactionsOf(RunBundle(evm, c, b).value.source) != []
      {
        KeptIsWhatRemains(evm, c, b, tx);
        BundleMeaning(evm, c, b);
      }
    } else {
      var evm: Evm := (c, d, tx) => Invalid(0);
      AllInvalid(evm, c, b, b.txs);
      BundleMeaning(evm, c, b);
      assert RunBundle(evm, c, b).Success?;
    }
  }

  lemma {:induction false} AllInvalid(evm: Evm, c: Checkpoint, b: Bundle, txs: seq<Transaction>)
    requires forall c, d, tx :: evm(c, d, tx) == Invalid(0)
    requires forall tx :: tx in txs ==> b.IsOptional(tx.hash)
    ensures Kept(evm, c, b, txs) == []
    ensures forall i :: 0 <= i < |txs| ==> !Offends(evm, c, b, txs, i)
    decreases |txs|
  {
    if txs != [] {
      AllInvalid(evm, c, b, txs[..|txs| - 1]);
      OffendsInPrefix(evm, c, b, txs);
    }
  }

  lemma {:induction false} RemoveFirstShrinks(txs: seq<Transaction>, h: Hash)
    ensures |RemoveFirst(txs, h)| == |txs| - if Has(txs, h) then 1 else 0
    ensures forall t :: t in RemoveFirst(txs, h) ==> t in txs
    decreases |txs|
  {
    if txs != [] && txs[0].hash != h {
      RemoveFirstShrinks(txs[1..], h);
      if Has(txs, h) {
        var i :| 0 <= i < |txs| && txs[i].hash == h;
        assert txs[1..][i - 1].hash == h;
      }
    }
  }

  lemma {:induction false} RemovingShrinks(b: Bundle, hashes: seq<Hash>)
    ensures |WithoutTransactions(b, hashes).txs| <= |b.txs|
    ensures hashes != [] && Has(b.txs, hashes[0]) ==> |WithoutTransactions(b, hashes).txs| < |b.txs|
    ensures forall t :: t in WithoutTransactions(b, hashes).txs ==> t in b.txs
    decreases |hashes|
  {
    if hashes != [] {
      var front := hashes[..|hashes| - 1];
      RemovingShrinks(b, front);
      RemoveFirstShrinks(WithoutTransactions(b, front).txs, hashes[|hashes| - 1]);
      if |hashes| == 1 {
        assert front == [] && WithoutTransactions(b, front) == b;
      }
    }
  }

  lemma {:induction false} RemoveFirstKeepsDistinct(txs: seq<Transaction>, h: Hash)
    requires DistinctHashes(txs)
    ensures DistinctHashes(RemoveFirst(txs, h))
  {
    RemoveFirstOfDistinct(txs, h);
    ExceptKeepsDistinct(txs, [h]);
  }

  lemma {:induction false} RemovingKeepsDistinct(b: Bundle, hashes: seq<Hash>)
    requires DistinctHashes(b.txs)
    ensures DistinctHashes(WithoutTransactions(b, hashes).txs)
    decreases |hashes|
  {
    if hashes != [] {
      RemovingKeepsDistinct(b, hashes[..|hashes| - 1]);
      RemoveFirstKeepsDistinct(WithoutTransactions(b, hashes[..|hashes| - 1]).txs, hashes[|hashes| - 1]);
    }
  }

  // ---------------------------------------------------------------------------------------
  // Single transactions and checkpoints

  function Execute(evm: Evm, c: Checkpoint, e: Executable): Result<ExecutionResult, ExecutionError> {
    match e
    case Bundled(bundle) => RunBundle(evm, c, bundle)
    case Single(tx) =>
      match evm(c, NO_CHANGES, tx)
      case Invalid(error) => Failure(InvalidTransaction(error))
      case Ran(result, changes) => Success(ExecutionResult(e, [result], changes))
  }

  /** A loose transaction is executed whether it succeeds or not, unless it is invalid. */
  lemma SingleMeaning(evm: Evm, c: Checkpoint, tx: Transaction)
    ensures var o, r := evm(c, NO_CHANGES, tx), Execute(evm, c, Single(tx));
            && (r.Success? <==> o.Ran?)
            && (o.Ran? ==> r.value.source == Single(tx) && r.value.results == [o.result] && r.value.state == o.changes)
            && (o.Invalid? ==> r.error == InvalidTransaction(o.error))
  {
  }

  /** What is recorded has no transaction that the order does not have. */
  lemma {:induction false} RecordedTransactions(evm: Evm, c: Checkpoint, e: Executable)
    requires Execute(evm, c, e).Success?
    ensures var recorded := TransactionsOf(Execute(evm, c, e).value.source);
            && |recorded| <= |TransactionsOf(e)| && (forall t :: t in recorded ==> t in TransactionsOf(e))
            && (DistinctHashes(TransactionsOf(e)) ==> DistinctHashes(recorded))
  {
    if e.Bundled? {
      var discarded := RunTxs(evm, c, e.bundle, e.bundle.txs).value.discarded;
      RemovingShrinks(e.bundle, discarded);
      if DistinctHashes(e.bundle.txs) {
        RemovingKeepsDistinct(e.bundle, discarded);
      }
    }
  }

  /** `next` is what applying the executable to the checkpoint yields. */
  ghost predicate Applies(evm: Evm, c: Checkpoint, e: Executable, next: Checkpoint) {
    && Execute(evm, c, e).Success?
    && next == ApplyWith(c, Executed(Execute(evm, c, e).value), next.id)
  }

  method Apply(evm: Evm, c: Checkpoint, e: Executable) returns (r: Result<Checkpoint, ExecutionError>)
    ensures r.Success? ==> Applies(evm, c, e, r.value)
    ensures r.Failure? ==> Execute(evm, c, e) == Failure(r.error)
  {
    var result: Result<ExecutionResult, ExecutionError>;
    match e {
      case Bundled(bundle) =>
        result := ExecuteBundle(evm, c, bundle);
      case Single(tx) =>
        var outcome := evm(c, NO_CHANGES, tx);
        result := match outcome
                  case Invalid(error) => Failure(InvalidTransaction(error))
                  case Ran(res, changes) => Success(ExecutionResult(e, [res], changes));
    }
    if result.Failure? {
      return Failure(result.error);
    }
    var id: nat := *;
    r := Success(ApplyWith(c, Executed(result.value), id));
  }
}
