/**
 The nonces along the staged part of a payload.

 Execution only runs a transaction that has the nonce its signer is at, deposits excepted.  So the nonces of each
 signer rise, however the steps have put the payload together, as long as no order repeats a transaction.
 */
module NonceOrder {
  import opened Wrappers
  import opened Payload
  import opened Spans
  import opened BundleExecution
  import opened Extension
  import opened StateReads
  import opened PriorityRules
  import opened OrderingRules

  type Deposits = Transaction -> bool

  /** A transaction runs only with the nonce that its signer is at, and uses it up.  No nonce is ever lowered. */
  ghost predicate EnforcesNonces(evm: Evm, deposit: Deposits) {
    forall c, d, tx {:trigger UsesNonce(c, d, tx, evm(c, d, tx).changes)} ::
      !deposit(tx) && evm(c, d, tx).Ran? ==> UsesNonce(c, d, tx, evm(c, d, tx).changes)
  }

  ghost predicate NoDeposits(txs: seq<Transaction>, deposit: Deposits) {
    forall tx :: tx in txs ==> !deposit(tx)
  }

  /** No transaction twice, and no deposit. */
  ghost predicate Plain(e: Executable, deposit: Deposits) {
    DistinctHashes(TransactionsOf(e)) && NoDeposits(TransactionsOf(e), deposit)
  }

  ghost predicate UsesNonce(c: Checkpoint, d: Diff, tx: Transaction, changes: Diff) {
    && tx.nonce == NonceIn(c, d, tx.signer) < NonceIn(c, Commit(d, changes), tx.signer)
    && NotLowered(c, d, Commit(d, changes))
  }

  ghost predicate NotLowered(c: Checkpoint, before: Diff, after: Diff) {
    forall a {:trigger NonceIn(c, after, a)} :: NonceIn(c, before, a) <= NonceIn(c, after, a)
  }

  /** The transactions use nonces that were free before them and are used up after them, rising for each signer. */
  ghost predicate UseNonces(c: Checkpoint, txs: seq<Transaction>, after: Diff) {
    && Rising(txs) && NotLowered(c, NO_CHANGES, after)
    && forall tx :: tx in txs ==> NonceOf(c, tx.signer) <= tx.nonce < NonceIn(c, after, tx.signer)
  }

  lemma {:induction false} OneMoreUses(c: Checkpoint, txs: seq<Transaction>, before: Diff, tx: Transaction, after: Diff)
    requires UseNonces(c, txs, before) && NotLowered(c, before, after)
    requires tx.nonce == NonceIn(c, before, tx.signer) < NonceIn(c, after, tx.signer)
    ensures UseNonces(c, txs + [tx], after)
  {
    RisingConcat(txs, [tx]);
    forall t | t in txs + [tx]
      ensures NonceOf(c, t.signer) <= t.nonce < NonceIn(c, after, t.signer)
    {
      assert NonceIn(c, NO_CHANGES, t.signer) <= NonceIn(c, before, t.signer) <= NonceIn(c, after, t.signer);
    }
    forall a
      ensures NonceIn(c, NO_CHANGES, a) <= NonceIn(c, after, a)
    {
      assert NonceIn(c, NO_CHANGES, a) <= NonceIn(c, before, a);
    }
  }

  lemma {:induction false} LinedUpUse(evm: Evm, deposit: Deposits, c: Checkpoint, b: Bundle, txs: seq<Transaction>,
      results: seq<TxResult>)
    requires EnforcesNonces(evm, deposit) && NoDeposits(txs, deposit) && LinesUp(evm, c, b, txs, results)
    ensures UseNonces(c, txs, StateAfter(evm, c, txs))
    decreases |txs|
  {
    if txs != [] {
      var front, last := txs[..|txs| - 1], txs[|txs| - 1];
      LinesUpFront(evm, c, b, txs, results);
      LinedUpUse(evm, deposit, c, b, front, results[..|front|]);
      assert OutcomeAt(evm, c, txs, |front|).Ran?;
      NextUses(evm, deposit, c, front, last);
      assert txs == front + [last];
    }
  }

  lemma {:induction false} NextUses(evm: Evm, deposit: Deposits, c: Checkpoint, txs: seq<Transaction>,
      tx: Transaction)
    requires EnforcesNonces(evm, deposit) && !deposit(tx) && UseNonces(c, txs, StateAfter(evm, c, txs))
    requires evm(c, StateAfter(evm, c, txs), tx).Ran?
    ensures UseNonces(c, txs + [tx], StateAfter(evm, c, txs + [tx]))
  {
    var before := StateAfter(evm, c, txs);
    var changes := evm(c, before, tx).changes;
    assert UsesNonce(c, before, tx, changes);
    OneMoreUses(c, txs, before, tx, Commit(before, changes));
    assert (txs + [tx])[..|txs|] == txs;
  }

  lemma {:induction false} LinesUpFront(evm: Evm, c: Checkpoint, b: Bundle, txs: seq<Transaction>,
      results: seq<TxResult>)
    requires LinesUp(evm, c, b, txs, results) && txs != []
    ensures LinesUp(evm, c, b, txs[..|txs| - 1], results[..|txs| - 1])
  {
    var front := txs[..|txs| - 1];
    forall i | 0 <= i < |front|
      ensures OutcomeAt(evm, c, front, i) == OutcomeAt(evm, c, txs, i)
    {
      assert front[..i] == txs[..i];
    }
  }

  /** What is recorded of an order has rising nonces. */
  lemma {:induction false} ExecutionUses(evm: Evm, deposit: Deposits, c: Checkpoint, e: Executable)
    requires EnforcesNonces(evm, deposit) && Plain(e, deposit) && Execute(evm, c, e).Success?
    ensures var r := Execute(evm, c, e).value;
            UseNonces(c, TransactionsOf(r.source), r.state)
  {
    match e
    case Bundled(b) =>
      BundleMeaning(evm, c, b);
      RecordedTransactions(evm, c, e);
      LinedUpUse(evm, deposit, c, b, Kept(evm, c, b, b.txs), RunBundle(evm, c, b).value.results);
    case Single(tx) =>
      var changes := evm(c, NO_CHANGES, tx).changes;
      assert UsesNonce(c, NO_CHANGES, tx, changes);
      forall a
        ensures NonceIn(c, Commit(NO_CHANGES, changes), a) == NonceIn(c, changes, a)
      {
      }
      OneMoreUses(c, [], NO_CHANGES, tx, changes);
      assert [] + [tx] == [tx];
  }

  /** Since the last barrier, only plain orders were applied. */
  ghost predicate Lawful(evm: Evm, deposit: Deposits, c: Checkpoint) {
    c.IsBarrier() || (c.prev.Some? && LawfulStep(evm, deposit, c.prev.value, c) && Lawful(evm, deposit, c.prev.value))
  }

  ghost predicate LawfulStep(evm: Evm, deposit: Deposits, c: Checkpoint, next: Checkpoint) {
    exists e :: Plain(e, deposit) && Applies(evm, c, e, next)
  }

  /** The nonces of each signer rise along the transactions, and all of them are used up. */
  ghost predicate RiseTo(txs: seq<Transaction>, c: Checkpoint) {
    Rising(txs) && forall tx :: tx in txs ==> tx.nonce < NonceOf(c, tx.signer)
  }

  /** What the ordering of a payload relies on. */
  lemma {:induction false} StagedNoncesRise(evm: Evm, deposit: Deposits, c: Checkpoint)
    requires EnforcesNonces(evm, deposit) && WellFormed(c) && Lawful(evm, deposit, c)
    ensures HasBarrier(History(c)) && AllOrders(Staged(c)) && RiseTo(TransactionsIn(Staged(c)), c)
    decreases c
  {
    StagedAreOrders(c);
    if c.IsBarrier() {
      NothingStaged(c);
    } else {
      var p := c.prev.value;
      StagedNoncesRise(evm, deposit, p);
      StagedSnoc(p, c);
      var e :| Plain(e, deposit) && Applies(evm, p, e, c);
      ExecutionUses(evm, deposit, p, e);
      TransactionsSnoc(Staged(p), c);
      RiseOnwards(TransactionsIn(Staged(p)), p, c);
    }
  }

  lemma {:induction false} NothingStaged(c: Checkpoint)
    requires WellFormed(c) && c.IsBarrier()
    ensures HasBarrier(History(c)) && Staging(c) == [c] && Staged(c) == []
  {
    SealedAndStagingRebuildHistory(c);
    assert Staging(c)[|Staging(c)| - 1] == c;
  }

  lemma {:induction false} StagedSnoc(p: Checkpoint, c: Checkpoint)
    requires WellFormed(c) && c.prev == Some(p) && !c.IsBarrier()
    ensures HasBarrier(History(p)) && HasBarrier(History(c))
    ensures Staging(c) == Staging(p) + [c] && Staged(c) == Staged(p) + [c]
  {
    ApplyExtends(p, c);
    SealedAndStagingRebuildHistory(p);
  }

  lemma {:induction false} RiseOnwards(txs: seq<Transaction>, p: Checkpoint, c: Checkpoint)
    requires c.prev == Some(p) && c.mutation.Executed? && UseNonces(p, Transactions(c), c.mutation.result.state)
    requires RiseTo(txs, p)
    ensures RiseTo(txs + Transactions(c), c)
  {
    var d := c.mutation.result.state;
    RisingConcat(txs, Transactions(c));
    forall a
      ensures NonceOf(p, a) <= NonceIn(p, d, a) == NonceOf(c, a)
    {
      NonceAfterApplying(p, c, a);
      assert NonceIn(p, NO_CHANGES, a) <= NonceIn(p, d, a);
    }
  }

  // ---------------------------------------------------------------------------------------
  // What keeps a payload lawful

  lemma {:induction false} ExtensionIsLawful(evm: Evm, deposit: Deposits, base: Checkpoint, orders: seq<Executable>,
      c: Checkpoint)
    requires Lawful(evm, deposit, base) && Extends(evm, base, orders, c)
    requires forall e :: e in orders ==> Plain(e, deposit)
    ensures Lawful(evm, deposit, c)
    decreases |orders|
  {
    if orders != [] {
      var front, last := orders[..|orders| - 1], orders[|orders| - 1];
      ExtensionIsLawful(evm, deposit, base, front, c.prev.value);
      assert Plain(last, deposit) && Applies(evm, c.prev.value, last, c);
    }
  }

  /** Every checkpoint since the last barrier is lawful, and its order is plain. */
  lemma {:induction false} StagingIsLawful(evm: Evm, deposit: Deposits, c: Checkpoint, i: nat)
    requires WellFormed(c) && Lawful(evm, deposit, c) && HasBarrier(History(c)) && i < |Staging(c)|
    ensures Lawful(evm, deposit, Staging(c)[i])
    ensures Staging(c)[i].mutation.Executed? ==> Plain(Staging(c)[i].mutation.result.source, deposit)
    decreases c
  {
    if c.IsBarrier() {
      NothingStaged(c);
    } else {
      StagedSnoc(c.prev.value, c);
      if i == |Staging(c)| - 1 {
        var e :| Plain(e, deposit) && Applies(evm, c.prev.value, e, c);
        RecordedTransactions(evm, c.prev.value, e);
      } else {
        StagingIsLawful(evm, deposit, c.prev.value, i);
      }
    }
  }
}
