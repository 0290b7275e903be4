/**
 What becomes of the orders that are applied again after reverted transactions have been taken out.

 Nothing here mentions how the step goes about it: an order's fate is told by what running it, and the retries of it,
 comes to on top of what is kept before it.
 */
module RevertFates {
  import opened Wrappers
  import opened Payload
  import opened Spans
  import opened BundleExecution
  import opened Extension
  import opened RepeatedTransactions
  import opened RevertRemoval

  // ---------------------------------------------------------------------------------------
  // The retries of a bundle

  /** The optional transactions that are recorded as failed when the bundle is run. */
  function FailedIn(evm: Evm, c: Checkpoint, b: Bundle): seq<Hash> {
    match RunBundle(evm, c, b)
    case Failure(_) => []
    case Success(r) => FailedOptional(b, TransactionsOf(r.source), r.results)
  }

  /** The versions of the bundle that are tried, each without what has failed of the one before, up to one that cannot
      be applied or of which nothing optional fails. */
  ghost predicate Tries(evm: Evm, c: Checkpoint, b: Bundle, tries: seq<Bundle>) {
    && tries != [] && tries[0] == b && FailedIn(evm, c, tries[|tries| - 1]) == []
    && forall i :: 0 <= i < |tries| - 1 ==> TriedAgain(evm, c, tries[i], tries[i + 1])
  }

  ghost predicate TriedAgain(evm: Evm, c: Checkpoint, b: Bundle, next: Bundle) {
    FailedIn(evm, c, b) != [] && next == WithoutTransactions(b, FailedIn(evm, c, b))
  }

  /** The last version can be applied. */
  ghost predicate Succeeds(evm: Evm, c: Checkpoint, tries: seq<Bundle>) {
    tries != [] && RunBundle(evm, c, tries[|tries| - 1]).Success?
  }

  /** Settling a bundle is trying it until there is no reason to go on. */
  lemma {:induction false} SettleTries(evm: Evm, c: Checkpoint, b: Bundle) returns (tries: seq<Bundle>)
    ensures Tries(evm, c, b, tries)
    ensures Settle(evm, c, b) == if Succeeds(evm, c, tries) then Some(tries[|tries| - 1]) else None
    decreases |b.txs|
  {
    tries := [b];
    if FailedIn(evm, c, b) != [] {
      RetryIsSmaller(evm, c, b);
      var later := SettleTries(evm, c, WithoutTransactions(b, FailedIn(evm, c, b)));
      TriesCons(evm, c, b, later);
      tries := [b] + later;
    }
  }

  lemma {:induction false} TriesCons(evm: Evm, c: Checkpoint, b: Bundle, later: seq<Bundle>)
    requires later != [] && Tries(evm, c, later[0], later) && TriedAgain(evm, c, b, later[0])
    ensures Tries(evm, c, b, [b] + later) && (Succeeds(evm, c, [b] + later) <==> Succeeds(evm, c, later))
  {
    var tries := [b] + later;
    forall i | 0 <= i < |tries| - 1
      ensures TriedAgain(evm, c, tries[i], tries[i + 1])
    {
      if i > 0 {
        assert TriedAgain(evm, c, later[i - 1], later[i - 1 + 1]);
      }
    }
  }

  /** The tries are determined. */
  lemma {:induction false} TriesAreUnique(evm: Evm, c: Checkpoint, b: Bundle, tries: seq<Bundle>, others: seq<Bundle>)
    requires Tries(evm, c, b, tries) && Tries(evm, c, b, others)
    ensures tries == others
    decreases |tries|
  {
    if |tries| > 1 {
      assert TriedAgain(evm, c, tries[0], tries[0 + 1]);
    }
    if |others| > 1 {
      assert TriedAgain(evm, c, others[0], others[0 + 1]);
      TriesTail(evm, c, tries);
      TriesTail(evm, c, others);
      TriesAreUnique(evm, c, tries[1], tries[1..], others[1..]);
    }
  }

  lemma {:induction false} TriesTail(evm: Evm, c: Checkpoint, tries: seq<Bundle>)
    requires |tries| > 1 && Tries(evm, c, tries[0], tries)
    ensures Tries(evm, c, tries[1], tries[1..])
  {
    forall i | 0 <= i < |tries[1..]| - 1
      ensures TriedAgain(evm, c, tries[1..][i], tries[1..][i + 1])
    {
      assert TriedAgain(evm, c, tries[i + 1], tries[i + 1 + 1]);
    }
  }

  // ---------------------------------------------------------------------------------------
  // The fate of an order

  /** All of what is recorded has succeeded. */
  ghost predicate AllSucceed(r: ExecutionResult) {
    forall i :: 0 <= i < |r.results| ==> r.results[i].success
  }

  /** From `c`, a loose transaction leads to `next`: it is applied if that is possible and it succeeds. */
  ghost predicate SingleFate(evm: Evm, c: Checkpoint, e: Executable, next: Checkpoint) {
    if Execute(evm, c, e).Success? && AllSucceed(Execute(evm, c, e).value) then Applies(evm, c, e, next) else next == c
  }

  /** So does a bundle: its last version is applied if that is possible. */
  ghost predicate BundleFate(evm: Evm, c: Checkpoint, b: Bundle, tries: seq<Bundle>, next: Checkpoint) {
    && Tries(evm, c, b, tries)
    && if Succeeds(evm, c, tries) then Applies(evm, c, Bundled(tries[|tries| - 1]), next) else next == c
  }

  ghost predicate Fate(evm: Evm, c: Checkpoint, e: Executable, next: Checkpoint) {
    match e
    case Single(_) => SingleFate(evm, c, e, next)
    case Bundled(b) => exists tries :: BundleFate(evm, c, b, tries, next)
  }

  /** What is kept, before the first order and after each. */
  ghost predicate Fates(evm: Evm, base: Checkpoint, orders: seq<Executable>, kept: seq<Checkpoint>) {
    && |kept| == |orders| + 1 && kept[0] == base
    && forall i :: 0 <= i < |orders| ==> Fate(evm, kept[i], orders[i], kept[i + 1])
  }

  lemma {:induction false} AttemptIsFate(evm: Evm, c: Checkpoint, e: Executable, next: Checkpoint)
    requires if Attempt(evm, c, e).None? then next == c else Applies(evm, c, Attempt(evm, c, e).value, next)
    ensures Fate(evm, c, e, next)
  {
    if e.Bundled? {
      var tries := SettleTries(evm, c, e.bundle);
      assert BundleFate(evm, c, e.bundle, tries, next);
    }
  }

  /** Applying the orders again, as the step does, leads each of them to its fate. */
  lemma {:induction false} StrippedFates(evm: Evm, base: Checkpoint, orders: seq<Executable>, c: Checkpoint)
    returns (kept: seq<Checkpoint>)
    requires Stripped(evm, base, orders, c)
    ensures Fates(evm, base, orders, kept) && kept[|orders|] == c
    decreases |orders|
  {
    if orders == [] {
      kept := [c];
    } else {
      var front, last := orders[..|orders| - 1], orders[|orders| - 1];
      var before := if Attempt(evm, c, last).None? && Stripped(evm, base, front, c) then c else c.prev.value;
      var earlier := StrippedFates(evm, base, front, before);
      AttemptIsFate(evm, before, last, c);
      FatesSnoc(evm, base, front, earlier, last, c);
      assert orders == front + [last];
      kept := earlier + [c];
    }
  }

  lemma {:induction false} FatesSnoc(evm: Evm, base: Checkpoint, orders: seq<Executable>, kept: seq<Checkpoint>,
      e: Executable, next: Checkpoint)
    requires Fates(evm, base, orders, kept) && Fate(evm, kept[|orders|], e, next)
    ensures Fates(evm, base, orders + [e], kept + [next])
  {
    var all, longer := orders + [e], kept + [next];
    forall i | 0 <= i < |all|
      ensures Fate(evm, longer[i], all[i], longer[i + 1])
    {
      assert i < |orders| ==> all[i] == orders[i] && longer[i] == kept[i] && longer[i + 1] == kept[i + 1];
    }
  }

  // ---------------------------------------------------------------------------------------
  // What that means for an order

  /** No removable failure: nothing has failed of a loose transaction, and nothing optional of a bundle. */
  ghost predicate RunsClean(evm: Evm, c: Checkpoint, e: Executable) {
    && Execute(evm, c, e).Success?
    && match e
       case Single(_) => AllSucceed(Execute(evm, c, e).value)
       case Bundled(b) => FailedIn(evm, c, b) == []
  }

  /** An order that runs without a removable failure stays as it is. */
  lemma {:induction false} CleanOrderStays(evm: Evm, c: Checkpoint, e: Executable, next: Checkpoint)
    requires Fate(evm, c, e, next) && RunsClean(evm, c, e)
    ensures Applies(evm, c, e, next)
  {
    if e.Bundled? {
      var tries :| BundleFate(evm, c, e.bundle, tries, next);
      TriesAreUnique(evm, c, e.bundle, tries, [e.bundle]);
    }
  }

  /** The order cannot be applied, or is a loose transaction that fails, or is a bundle of which the last retry cannot
      be applied. */
  ghost predicate CannotStay(evm: Evm, c: Checkpoint, e: Executable) {
    || Execute(evm, c, e).Failure?
    || (e.Single? && !AllSucceed(Execute(evm, c, e).value))
    || (e.Bundled? && exists tries :: Tries(evm, c, e.bundle, tries) && !Succeeds(evm, c, tries))
  }

  /** Otherwise the order leaves a checkpoint behind. */
  lemma {:induction false} AbsentIff(evm: Evm, c: Checkpoint, e: Executable, next: Checkpoint)
    requires Fate(evm, c, e, next)
    ensures next == c <==> CannotStay(evm, c, e)
    ensures next != c ==> next.prev == Some(c) && next.mutation.Executed?
  {
    NextIsNew(evm, c, next);
    if e.Bundled? {
      var tries :| BundleFate(evm, c, e.bundle, tries, next);
      if Execute(evm, c, e).Failure? {
        TriesAreUnique(evm, c, e.bundle, tries, [e.bundle]);
      }
      if others :| Tries(evm, c, e.bundle, others) && !Succeeds(evm, c, others) {
        TriesAreUnique(evm, c, e.bundle, tries, others);
      }
    }
  }

  lemma {:induction false} NextIsNew(evm: Evm, c: Checkpoint, next: Checkpoint)
    ensures forall e :: Applies(evm, c, e, next) ==> next.prev == Some(c) && next.mutation.Executed? && next != c
  {
    forall e | Applies(evm, c, e, next)
      ensures next.depth == c.depth + 1
    {
    }
  }

  // ---------------------------------------------------------------------------------------
  // Why a transaction is taken out of a bundle

  /** In this run of the bundle a transaction with this hash could not be included where its turn was. */
  ghost predicate NotIncluded(evm: Evm, c: Checkpoint, b: Bundle, h: Hash) {
    exists k :: 0 <= k < |b.txs| && b.txs[k].hash == h && TurnedDown(evm, c, b, k)
  }

  ghost predicate TurnedDown(evm: Evm, c: Checkpoint, b: Bundle, k: nat)
    requires k < |b.txs|
  {
    !Included(b, b.txs[k].hash, evm(c, StateAfter(evm, c, Kept(evm, c, b, b.txs[..k])), b.txs[k]))
  }

  /** In this run a transaction with this hash was included and failed. */
  ghost predicate IncludedButFailed(evm: Evm, c: Checkpoint, b: Bundle, h: Hash) {
    && RunBundle(evm, c, b).Success?
    && var txs := TransactionsOf(RunBundle(evm, c, b).value.source);
       exists i :: 0 <= i < |txs| && txs[i].hash == h && FailedThere(evm, c, txs, i)
  }

  ghost predicate FailedThere(evm: Evm, c: Checkpoint, txs: seq<Transaction>, i: nat)
    requires i < |txs|
  {
    var o := OutcomeAt(evm, c, txs, i);
    o.Ran? && !o.result.success
  }

  ghost predicate GoodReason(evm: Evm, c: Checkpoint, tries: seq<Bundle>, h: Hash) {
    exists i :: 0 <= i < |tries| && (NotIncluded(evm, c, tries[i], h) || IncludedButFailed(evm, c, tries[i], h))
  }

  lemma {:induction false} DiscardedIsTurnedDown(evm: Evm, c: Checkpoint, b: Bundle, n: nat, h: Hash)
    requires n <= |b.txs| && RunTxs(evm, c, b, b.txs[..n]).Success?
    requires h in RunTxs(evm, c, b, b.txs[..n]).value.discarded
    ensures exists k :: 0 <= k < n && b.txs[k].hash == h && TurnedDown(evm, c, b, k)
    decreases n
  {
    if n > 0 {
      assert b.txs[..n][..n - 1] == b.txs[..n - 1];
      ResultsLineUp(evm, c, b, b.txs[..n - 1]);
      if h in RunTxs(evm, c, b, b.txs[..n - 1]).value.discarded {
        DiscardedIsTurnedDown(evm, c, b, n - 1, h);
      } else {
        assert TurnedDown(evm, c, b, n - 1);
      }
    }
  }

  lemma {:induction false} FailedHasFailed(evm: Evm, c: Checkpoint, b: Bundle, h: Hash)
    requires ResultsBelong(evm, c, b) && h in FailedIn(evm, c, b)
    ensures b.IsOptional(h) && IncludedButFailed(evm, c, b, h)
  {
    var r := RunBundle(evm, c, b).value;
    var txs := TransactionsOf(r.source);
    var at := FailedOptionalMeaning(b, txs, r.results);
    var k :| 0 <= k < |at| && FailedIn(evm, c, b)[k] == h;
    assert FailedAt(b, txs, r.results, at[k]);
    assert FailedThere(evm, c, txs, at[k]);
  }

  lemma {:induction false} RemoveFirstKeepsOrder(txs: seq<Transaction>, h: Hash)
    ensures HashesAreIdentities(txs) ==> HashesAreIdentities(RemoveFirst(txs, h))
    ensures forall g :: Consecutive(txs, g) ==> Consecutive(RemoveFirst(txs, h), g)
  {
    var gap := RemovedAt(txs, h);
    var rest := RemoveFirst(txs, h);
    forall g | Consecutive(txs, g)
      ensures Consecutive(rest, g)
    {
      forall i, k, j | 0 <= i < k < j < |rest| && rest[i].hash == g && rest[j].hash == g
        ensures rest[k].hash == g
      {
        assert txs[Behind(gap, i)].hash == g && txs[Behind(gap, j)].hash == g;
        assert txs[Behind(gap, k)].hash == g;
      }
    }
    if HashesAreIdentities(txs) {
      forall i, j | 0 <= i < j < |rest| && rest[i].hash == rest[j].hash
        ensures rest[i] == rest[j]
      {
        assert txs[Behind(gap, i)] == rest[i] && txs[Behind(gap, j)] == rest[j];
      }
    }
  }

  /** Where a position was before the transaction at `gap` was taken out. */
  function Behind(gap: nat, i: nat): nat {
    if i < gap then i else i + 1
  }

  lemma {:induction false} RemovedAt(txs: seq<Transaction>, h: Hash) returns (gap: nat)
    ensures forall i :: 0 <= i < |RemoveFirst(txs, h)| ==>
      Behind(gap, i) < |txs| && RemoveFirst(txs, h)[i] == txs[Behind(gap, i)]
    decreases |txs|
  {
    if txs == [] || txs[0].hash == h {
      gap := 0;
    } else {
      var later := RemovedAt(txs[1..], h);
      gap := later + 1;
    }
  }

  lemma {:induction false} RemovingKeepsOrder(b: Bundle, hashes: seq<Hash>)
    requires HashesAreIdentities(b.txs) && OptionalAreConsecutive(b)
    ensures var r := WithoutTransactions(b, hashes);
            HashesAreIdentities(r.txs) && OptionalAreConsecutive(r)
    decreases |hashes|
  {
    if hashes != [] {
      var front, last := hashes[..|hashes| - 1], hashes[|hashes| - 1];
      RemovingKeepsOrder(b, front);
      RemoveFirstKeepsOrder(WithoutTransactions(b, front).txs, last);
    }
  }

  /** Each hash is optional in the bundle, and there was a good reason to take it out. */
  ghost predicate AllForGoodReason(evm: Evm, c: Checkpoint, b: Bundle, tries: seq<Bundle>, removed: seq<Hash>) {
    forall h :: h in removed ==> b.IsOptional(h) && GoodReason(evm, c, tries, h)
  }

  lemma {:induction false} LaterReasons(evm: Evm, c: Checkpoint, b: Bundle, tries: seq<Bundle>, removed: seq<Hash>)
    requires |tries| > 1 && tries[0] == b && TriedAgain(evm, c, b, tries[1]) && ResultsBelong(evm, c, b)
    requires AllForGoodReason(evm, c, tries[1], tries[1..], removed)
    ensures AllForGoodReason(evm, c, b, tries, FailedIn(evm, c, b) + removed)
  {
    var failed := FailedIn(evm, c, b);
    forall h | h in failed + removed
      ensures b.IsOptional(h) && GoodReason(evm, c, tries, h)
    {
      if h in failed {
        FailedHasFailed(evm, c, b, h);
        assert IncludedButFailed(evm, c, tries[0], h);
      } else {
        ReducedMarks(b, failed, h);
        var i :| 0 <= i < |tries[1..]|
              && (NotIncluded(evm, c, tries[1..][i], h) || IncludedButFailed(evm, c, tries[1..][i], h));
        assert tries[i + 1] == tries[1..][i];
      }
    }
  }

  /** What is kept of a bundle lacks only optional transactions, each of which failed, or could not be included, in one
      of the tries.  Failures are put down to the right transactions if the occurrences of each optional one are
      consecutive. */
  lemma {:induction false} TakenOutForGoodReason(evm: Evm, c: Checkpoint, b: Bundle, tries: seq<Bundle>)
    returns (removed: seq<Hash>)
    requires Tries(evm, c, b, tries) && Succeeds(evm, c, tries)
    requires HashesAreIdentities(b.txs) && OptionalAreConsecutive(b)
    ensures RunBundle(evm, c, tries[|tries| - 1]).value.source == Bundled(WithoutTransactions(b, removed))
    ensures AllForGoodReason(evm, c, b, tries, removed)
    decreases |tries|
  {
    ConsecutiveDoNoHarm(evm, c, b);
    if |tries| == 1 {
      removed := RunTxs(evm, c, b, b.txs).value.discarded;
      DiscardedAreOptional(evm, c, b, b.txs);
      assert b.txs[..|b.txs|] == b.txs;
      forall h | h in removed
        ensures GoodReason(evm, c, tries, h)
      {
        DiscardedIsTurnedDown(evm, c, b, |b.txs|, h);
        assert NotIncluded(evm, c, tries[0], h);
      }
    } else {
      assert TriedAgain(evm, c, tries[0], tries[0 + 1]);
      TriesTail(evm, c, tries);
      RemovingKeepsOrder(b, FailedIn(evm, c, b));
      var later := TakenOutForGoodReason(evm, c, tries[1], tries[1..]);
      LaterReasons(evm, c, b, tries, later);
      WithoutBoth(b, FailedIn(evm, c, b), later);
      removed := FailedIn(evm, c, b) + later;
    }
  }

  /** Runs transaction 1 only once, and 2 without success. */
  function OnceAndFailing(c: Checkpoint, d: Diff, tx: Transaction): TxOutcome {
    if tx.hash == 1 then
      if 1 in d.accounts then Invalid(0)
      else Ran(TxResult(true, 0), Diff(map[1 := AccountDiff(None, None, map[])], map[]))
    else Ran(TxResult(tx.hash != 2, 0), NO_CHANGES)
  }

  /** In the bundle [t, u, w, t], in which t and w are optional and u may fail, the failure of u is put down to w. */
  lemma FaultlessIsBlamed(c: Checkpoint)
    ensures var t, u, w := Transaction(1, 1, 0, None), Transaction(2, 2, 0, None), Transaction(3, 3, 0, None);
            var b := Bundle([t, u, w, t], [2], [1, 3], 0, None, None);
            && FailedIn(OnceAndFailing, c, b) == [3]
            && !NotIncluded(OnceAndFailing, c, b, 3) && !IncludedButFailed(OnceAndFailing, c, b, 3)
  {
    var t, u, w := Transaction(1, 1, 0, None), Transaction(2, 2, 0, None), Transaction(3, 3, 0, None);
    var b := Bundle([t, u, w, t], [2], [1, 3], 0, None, None);
    FaultyRun(c, b, t, u, w);
    WithoutFirst(b, t, u, w);
    BlameSecond(b, t, u, w);
  }

  /** What the first n transactions come to. */
  ghost predicate RunTo(c: Checkpoint, b: Bundle, n: nat, results: seq<TxResult>, discarded: seq<Hash>) {
    n <= |b.txs| &&
    var r := RunTxs(OnceAndFailing, c, b, b.txs[..n]);
    && r.Success? && r.value.results == results && r.value.discarded == discarded
    && (1 in r.value.state.accounts <==> n > 0)
  }

  /** Only transaction 1 is dropped, unless it is the first. */
  lemma RunFurther(c: Checkpoint, b: Bundle, n: nat, results: seq<TxResult>)
    requires n < |b.txs| && (n == 0 ==> b.txs[0].hash == 1)
    requires b.IsOptional(1) && b.IsAllowedToFail(2) && RunTo(c, b, n, results, [])
    ensures var h := b.txs[n].hash;
            if h == 1 && n > 0 then RunTo(c, b, n + 1, results, [1])
            else RunTo(c, b, n + 1, results + [TxResult(h != 2, 0)], [])
  {
    RunTxsSnoc(OnceAndFailing, c, b, b.txs, n);
  }

  lemma FaultyRun(c: Checkpoint, b: Bundle, t: Transaction, u: Transaction, w: Transaction)
    requires t.hash == 1 && u.hash == 2 && w.hash == 3
    requires b == Bundle([t, u, w, t], [2], [1, 3], 0, None, None)
    ensures var r := RunTxs(OnceAndFailing, c, b, b.txs);
            && r.Success? && r.value.discarded == [1]
            && r.value.results == [TxResult(true, 0), TxResult(false, 0), TxResult(true, 0)]
  {
    assert b.txs[..0] == [] && b.txs[..4] == b.txs;
    RunFurther(c, b, 0, []);
    RunFurther(c, b, 1, [] + [TxResult(true, 0)]);
    RunFurther(c, b, 2, [] + [TxResult(true, 0)] + [TxResult(false, 0)]);
    RunFurther(c, b, 3, [] + [TxResult(true, 0)] + [TxResult(false, 0)] + [TxResult(true, 0)]);
  }

  lemma WithoutFirst(b: Bundle, t: Transaction, u: Transaction, w: Transaction)
    requires b.txs == [t, u, w, t]
    ensures WithoutTransactions(b, [t.hash]).txs == [u, w, t]
  {
    assert [t.hash][..0] == [];
    assert WithoutTransactions(b, []) == b;
  }

  lemma BlameSecond(b: Bundle, t: Transaction, u: Transaction, w: Transaction)
    requires w.hash == 3 && b.IsOptional(3)
    ensures FailedOptional(b, [u, w, t], [TxResult(true, 0), TxResult(false, 0), TxResult(true, 0)]) == [3]
  {
    assert [u, w, t][1..] == [w, t] && [w, t][1..] == [t] && [t][1..] == [];
    var results := [TxResult(true, 0), TxResult(false, 0), TxResult(true, 0)];
    assert results[1..] == [TxResult(false, 0), TxResult(true, 0)] && results[1..][1..] == [TxResult(true, 0)];
    assert FailedOptional(b, [t], [TxResult(true, 0)]) == [];
    assert FailedOptional(b, [w, t], results[1..]) == [3];
  }

  // ---------------------------------------------------------------------------------------
  // The step

  /** A checkpoint counts as failed if anything of a loose transaction has failed, or anything optional of a bundle. */
  lemma {:induction false} RemovableFailureIff(r: ExecutionResult)
    ensures RemovableFailure(r) <==>
      match r.source
      case Single(_) => !AllSucceed(r)
      case Bundled(b) => FailedOptional(b, b.txs, r.results) != []
  {
  }

  /** The orders after the first removable failure, that one included, go to their fates one after the other. */
  lemma {:induction false} RemovalFates(evm: Evm, payload: Checkpoint, n: nat, r: Checkpoint)
    returns (kept: seq<Checkpoint>)
    requires HasBarrier(History(payload)) && RevertsRemoved(evm, payload, n, r)
    ensures var rest := Staging(payload)[n..];
            AllOrders(rest) && Fates(evm, Staging(payload)[n - 1], Sources(rest), kept) && kept[|rest|] == r
  {
    kept := StrippedFates(evm, Staging(payload)[n - 1], Sources(Staging(payload)[n..]), r);
  }
}
