/**
 The step that takes reverted transactions out of the staged part of a payload.

 Everything before the first removable failure is kept as it is.  The orders after it are applied again,
 one by one: a loose transaction that fails is left out, and a bundle is retried without its optional
 transactions that failed until none of them does.
 */
module RevertRemoval {
  import opened Wrappers
  import opened Payload
  import opened Spans
  import opened BundleExecution
  import opened Extension
  import opened Sequences

  /** A failure that could be removed: of a loose transaction, or of an optional one in a bundle. */
  predicate RemovableFailure(r: ExecutionResult) {
    match r.source
    case Single(_) => exists i :: 0 <= i < |r.results| && !r.results[i].success
    case Bundled(bundle) =>
      exists i :: 0 <= i < |r.results| && i < |bundle.txs| && !r.results[i].success &&
        bundle.IsOptional(bundle.txs[i].hash)
  }

  /** `has_failures`. */
  predicate HasFailures(c: Checkpoint) {
    c.mutation.Executed? && RemovableFailure(c.mutation.result)
  }

  ghost predicate NoFailures(s: Span) {
    forall i :: 0 <= i < |s| ==> !HasFailures(s[i])
  }

  /** The hashes of transactions that failed, of those that are optional in the bundle. */
  function FailedOptional(b: Bundle, txs: seq<Transaction>, results: seq<TxResult>): (failed: seq<Hash>)
    ensures forall h :: h in failed ==> b.IsOptional(h) && exists t :: t in txs && t.hash == h
    ensures failed == [] <==>
      forall i :: 0 <= i < |txs| && i < |results| ==> results[i].success || !b.IsOptional(txs[i].hash)
  {
    if txs == [] || results == [] then []
    else
      (if !results[0].success && b.IsOptional(txs[0].hash) then [txs[0].hash] else [])
      + FailedOptional(b, txs[1..], results[1..])
  }

  predicate FailedAt(b: Bundle, txs: seq<Transaction>, results: seq<TxResult>, i: int) {
    0 <= i < |txs| && i < |results| && !results[i].success && b.IsOptional(txs[i].hash)
  }

  /** The positions of all failures of optional transactions, in order. */
  ghost predicate Failures(b: Bundle, txs: seq<Transaction>, results: seq<TxResult>, at: seq<nat>) {
    && (forall k :: 0 <= k < |at| ==> FailedAt(b, txs, results, at[k]))
    && (forall k, l :: 0 <= k < l < |at| ==> at[k] < at[l])
    && forall i :: FailedAt(b, txs, results, i) ==> i in at
  }

  /** The same failures, one position further on. */
  function Shifted(at: seq<nat>): (r: seq<nat>)
    ensures |r| == |at| && forall k :: 0 <= k < |at| ==> r[k] == at[k] + 1
  {
    seq(|at|, k requires 0 <= k < |at| => at[k] + 1)
  }

  lemma {:induction false} FailedAtTail(b: Bundle, txs: seq<Transaction>, results: seq<TxResult>, i: nat)
    requires txs != [] && results != []
    ensures FailedAt(b, txs, results, i + 1) <==> FailedAt(b, txs[1..], results[1..], i)
  {
  }

  /** All failures but one at the first position. */
  ghost predicate LaterFailures(b: Bundle, txs: seq<Transaction>, results: seq<TxResult>, at: seq<nat>) {
    && (forall k :: 0 <= k < |at| ==> at[k] > 0 && FailedAt(b, txs, results, at[k]))
    && (forall k, l :: 0 <= k < l < |at| ==> at[k] < at[l])
    && forall i :: FailedAt(b, txs, results, i) && i > 0 ==> i in at
  }

  lemma {:induction false} FailuresShift(b: Bundle, txs: seq<Transaction>, results: seq<TxResult>, tail: seq<nat>)
    requires txs != [] && results != [] && Failures(b, txs[1..], results[1..], tail)
    ensures LaterFailures(b, txs, results, Shifted(tail))
  {
    var later := Shifted(tail);
    forall i | FailedAt(b, txs, results, i) && i > 0
      ensures i in later
    {
      FailedAtTail(b, txs, results, i - 1);
      var k :| 0 <= k < |tail| && tail[k] == i - 1;
      assert later[k] == i;
    }
    forall k | 0 <= k < |later|
      ensures later[k] > 0 && FailedAt(b, txs, results, later[k])
    {
      assert FailedAt(b, txs[1..], results[1..], tail[k]);
      FailedAtTail(b, txs, results, tail[k]);
    }
  }

  lemma {:induction false} FailuresCons(b: Bundle, txs: seq<Transaction>, results: seq<TxResult>, later: seq<nat>)
    requires LaterFailures(b, txs, results, later)
    ensures Failures(b, txs, results, if FailedAt(b, txs, results, 0) then [0] + later else later)
  {
    var at := if FailedAt(b, txs, results, 0) then [0] + later else later;
    forall i | FailedAt(b, txs, results, i)
      ensures i in at
    {
      assert i > 0 ==> i in later;
    }
  }

  /** The hashes of the transactions at these positions. */
  ghost predicate HashesAt(txs: seq<Transaction>, at: seq<nat>, hashes: seq<Hash>) {
    && |hashes| == |at|
    && forall k :: 0 <= k < |at| ==> at[k] < |txs| && hashes[k] == txs[at[k]].hash
  }

  lemma {:induction false} HashesShift(txs: seq<Transaction>, tail: seq<nat>, hashes: seq<Hash>)
    requires txs != [] && HashesAt(txs[1..], tail, hashes)
    ensures HashesAt(txs, Shifted(tail), hashes)
    ensures HashesAt(txs, [0] + Shifted(tail), [txs[0].hash] + hashes)
  {
  }

  /** One hash for each failure, in order. */
  lemma {:induction false} FailedOptionalMeaning(b: Bundle, txs: seq<Transaction>, results: seq<TxResult>)
    returns (at: seq<nat>)
    ensures Failures(b, txs, results, at) && HashesAt(txs, at, FailedOptional(b, txs, results))
    decreases |txs|
  {
    if txs == [] || results == [] {
      at := [];
    } else {
      var tail := FailedOptionalMeaning(b, txs[1..], results[1..]);
      var hashes := FailedOptional(b, txs[1..], results[1..]);
      FailuresShift(b, txs, results, tail);
      FailuresCons(b, txs, results, Shifted(tail));
      HashesShift(txs, tail, hashes);
      if FailedAt(b, txs, results, 0) {
        at := [0] + Shifted(tail);
        assert FailedOptional(b, txs, results) == [txs[0].hash] + hashes;
      } else {
        at := Shifted(tail);
        assert FailedOptional(b, txs, results) == [] + hashes == hashes;
      }
    }
  }

  // ---------------------------------------------------------------------------------------
  // Retrying a bundle

  /** What failed belongs to the bundle, so retrying without it has strictly fewer transactions. */
  lemma {:induction false} RetryIsSmaller(evm: Evm, c: Checkpoint, b: Bundle)
    requires RunBundle(evm, c, b).Success?
    ensures var r := RunBundle(evm, c, b).value;
            var failed := FailedOptional(b, TransactionsOf(r.source), r.results);
            failed != [] ==> |WithoutTransactions(b, failed).txs| < |b.txs|
  {
    var r := RunBundle(evm, c, b).value;
    var failed := FailedOptional(b, TransactionsOf(r.source), r.results);
    RemovingShrinks(b, RunTxs(evm, c, b, b.txs).value.discarded);
    if failed != [] {
      assert failed[0] in failed;
      var t :| t in TransactionsOf(r.source) && t.hash == failed[0];
      assert t in b.txs;
      RemovingShrinks(b, failed);
    }
  }

  /** The version of the bundle that is kept, if any is. */
  function Settle(evm: Evm, c: Checkpoint, b: Bundle): Option<Bundle>
    decreases |b.txs|
  {
    match RunBundle(evm, c, b)
    case Failure(_) => None
    case Success(r) =>
      var failed := FailedOptional(b, TransactionsOf(r.source), r.results);
      RetryIsSmaller(evm, c, b);
      if failed == [] then Some(b) else Settle(evm, c, WithoutTransactions(b, failed))
  }

  method TryBundle(evm: Evm, prefix: Checkpoint, original: Bundle) returns (r: Option<Checkpoint>)
    ensures r.Some? <==> Settle(evm, prefix, original).Some?
    ensures r.Some? ==> Applies(evm, prefix, Bundled(Settle(evm, prefix, original).value), r.value)
  {
    var bundle := original;
    while true
      invariant Settle(evm, prefix, bundle) == Settle(evm, prefix, original)
      decreases |bundle.txs|
    {
      var next := Apply(evm, prefix, Bundled(bundle));
      if next.Failure? {
        return None;
      }
      RetryIsSmaller(evm, prefix, bundle);
      var result := next.value.mutation.result;
      var failed := FailedOptional(bundle, TransactionsOf(result.source), result.results);
      if failed == [] {
        return Some(next.value);
      }
      bundle := RemoveAll(bundle, failed);
    }
  }

  method RemoveAll(bundle: Bundle, hashes: seq<Hash>) returns (r: Bundle)
    ensures r == WithoutTransactions(bundle, hashes)
  {
    r := bundle;
    for i := 0 to |hashes|
      invariant r == WithoutTransactions(bundle, hashes[..i])
    {
      r := WithoutTransaction(r, hashes[i]);
      assert hashes[..i + 1][..i] == hashes[..i];
    }
    assert hashes[..|hashes|] == hashes;
  }

  // ---------------------------------------------------------------------------------------
  // The orders that are kept

  /** What an order is applied as, if it is kept. */
  function Attempt(evm: Evm, c: Checkpoint, e: Executable): Option<Executable> {
    match e
    case Single(_) =>
      var r := Execute(evm, c, e);
      if r.Success? && !RemovableFailure(r.value) then Some(e) else None
    case Bundled(b) =>
      var settled := Settle(evm, c, b);
      if settled.Some? then Some(Bundled(settled.value)) else None
  }

  /** `c` is `base` with those of the orders, one after the other, that can be kept. */
  ghost predicate Stripped(evm: Evm, base: Checkpoint, orders: seq<Executable>, c: Checkpoint) {
    if orders == [] then c == base
    else
      var front, last := orders[..|orders| - 1], orders[|orders| - 1];
      || (Attempt(evm, c, last).None? && Stripped(evm, base, front, c))
      || (c.prev.Some? && Attempt(evm, c.prev.value, last).Some?
          && Applies(evm, c.prev.value, Attempt(evm, c.prev.value, last).value, c)
          && Stripped(evm, base, front, c.prev.value))
  }

  lemma {:induction false} StrippedSnoc(evm: Evm, base: Checkpoint, orders: seq<Executable>, c: Checkpoint,
      e: Executable, next: Checkpoint)
    requires Stripped(evm, base, orders, c)
    requires if Attempt(evm, c, e).None? then next == c else Applies(evm, c, Attempt(evm, c, e).value, next)
    ensures Stripped(evm, base, orders + [e], next)
  {
    assert (orders + [e])[..|orders|] == orders;
  }

  /** One order of the rest. */
  method TryOrder(evm: Evm, prefix: Checkpoint, e: Executable) returns (r: Checkpoint)
    ensures if Attempt(evm, prefix, e).None? then r == prefix
            else Applies(evm, prefix, Attempt(evm, prefix, e).value, r)
  {
    match e
    case Single(_) =>
      var next := Apply(evm, prefix, e);
      if next.Failure? || HasFailures(next.value) {
        return prefix;
      }
      r := next.value;
    case Bundled(bundle) =>
      var next := TryBundle(evm, prefix, bundle);
      r := if next.Some? then next.value else prefix;
  }

  /** The same order, or the bundle without some of its optional transactions. */
  ghost predicate ReducedFrom(result: Executable, original: Executable) {
    match original
    case Single(_) => result == original
    case Bundled(b) => exists hashes :: AllOptional(b, hashes) && result == Bundled(WithoutTransactions(b, hashes))
  }

  ghost predicate AllOptional(b: Bundle, hashes: seq<Hash>) {
    forall h :: h in hashes ==> b.IsOptional(h)
  }

  /** A subsequence of the orders, each the same or reduced. */
  ghost predicate Thinned(kept: seq<Executable>, orders: seq<Executable>) {
    if orders == [] then kept == []
    else
      var front := orders[..|orders| - 1];
      || Thinned(kept, front)
      || (kept != [] && ReducedFrom(kept[|kept| - 1], orders[|orders| - 1]) && Thinned(kept[..|kept| - 1], front))
  }

  lemma {:induction false} WithoutBoth(b: Bundle, first: seq<Hash>, second: seq<Hash>)
    ensures WithoutTransactions(WithoutTransactions(b, first), second) == WithoutTransactions(b, first + second)
    decreases |second|
  {
    if second == [] {
      assert first + second == first;
    } else {
      var front := second[..|second| - 1];
      WithoutBoth(b, first, front);
      assert (first + second)[..|first + second| - 1] == first + front;
    }
  }

  lemma {:induction false} ReducingTwice(b: Bundle, first: seq<Hash>, second: seq<Hash>)
    requires AllOptional(b, first) && AllOptional(WithoutTransactions(b, first), second)
    ensures AllOptional(b, first + second)
    ensures WithoutTransactions(WithoutTransactions(b, first), second) == WithoutTransactions(b, first + second)
  {
    WithoutBoth(b, first, second);
    forall h | h in second
      ensures b.IsOptional(h)
    {
      ReducedMarks(b, first, h);
    }
  }

  /** What a bundle settles on runs, has no removable failure, and lacks only optional transactions. */
  lemma {:induction false} SettleMeaning(evm: Evm, c: Checkpoint, b: Bundle) returns (removed: seq<Hash>)
    requires Settle(evm, c, b).Some?
    ensures var r := RunBundle(evm, c, Settle(evm, c, b).value);
            && r.Success? && !RemovableFailure(r.value)
            && AllOptional(b, removed) && r.value.source == Bundled(WithoutTransactions(b, removed))
    decreases |b.txs|
  {
    var r := RunBundle(evm, c, b).value;
    var failed := FailedOptional(b, TransactionsOf(r.source), r.results);
    RetryIsSmaller(evm, c, b);
    if failed == [] {
      removed := RunTxs(evm, c, b, b.txs).value.discarded;
      RunTxsMeaning(evm, c, b, b.txs);
      forall h | r.source.bundle.IsOptional(h)
        ensures b.IsOptional(h)
      {
        ReducedMarks(b, removed, h);
      }
    } else {
      var later := SettleMeaning(evm, c, WithoutTransactions(b, failed));
      ReducingTwice(b, failed, later);
      removed := failed + later;
    }
  }

  lemma {:induction false} AttemptMeaning(evm: Evm, c: Checkpoint, e: Executable)
    requires Attempt(evm, c, e).Some?
    ensures var r := Execute(evm, c, Attempt(evm, c, e).value);
            r.Success? && !RemovableFailure(r.value) && ReducedFrom(r.value.source, e)
  {
    if e.Bundled? {
      var removed := SettleMeaning(evm, c, e.bundle);
    }
  }

  /** `added` has been put on top of the staging history of `base`. */
  ghost predicate StagedOn(base: Checkpoint, c: Checkpoint, added: Span) {
    && WellFormed(c) && HasBarrier(History(base)) && HasBarrier(History(c))
    && Sealed(c) == Sealed(base) && Staging(c) == Staging(base) + added
  }

  /** Only orders without removable failures, a subsequence of the given ones. */
  ghost predicate Clean(added: Span, orders: seq<Executable>) {
    AllOrders(added) && NoFailures(added) && Thinned(Sources(added), orders)
  }

  /** The orders that are kept are a subsequence of the orders, and none of them has a removable failure. */
  lemma {:induction false} StrippedMeaning(evm: Evm, base: Checkpoint, orders: seq<Executable>, c: Checkpoint)
    returns (added: Span)
    requires WellFormed(base) && Stripped(evm, base, orders, c)
    ensures StagedOn(base, c, added) && Clean(added, orders)
    decreases |orders|
  {
    if orders == [] {
      HistoryHasBarrier(base);
      added := [];
      assert Staging(c) == Staging(base) + [];
    } else {
      var front, last := orders[..|orders| - 1], orders[|orders| - 1];
      assert orders == front + [last];
      if Attempt(evm, c, last).None? && Stripped(evm, base, front, c) {
        added := StrippedMeaning(evm, base, front, c);
        ThinnedSkip(Sources(added), front, last);
      } else {
        var before := StrippedMeaning(evm, base, front, c.prev.value);
        AttemptMeaning(evm, c.prev.value, last);
        StageOne(base, c.prev.value, before, c);
        CleanOne(before, front, c, last);
        added := before + [c];
      }
    }
  }

  lemma {:induction false} StageOne(base: Checkpoint, c: Checkpoint, added: Span, next: Checkpoint)
    requires StagedOn(base, c, added)
    requires WellFormed(next) && next.prev == Some(c) && !next.IsBarrier()
    ensures StagedOn(base, next, added + [next])
  {
    ApplyExtends(c, next);
    Associative(Staging(base), added, [next]);
  }

  lemma {:induction false} CleanOne(added: Span, orders: seq<Executable>, next: Checkpoint, e: Executable)
    requires Clean(added, orders)
    requires !next.IsBarrier() && !HasFailures(next) && ReducedFrom(next.mutation.result.source, e)
    ensures Clean(added + [next], orders + [e])
  {
    SourcesAppend(added, next);
    ThinnedSnoc(Sources(added), orders, next.mutation.result.source, e);
  }

  lemma {:induction false} SourcesAppend(s: Span, c: Checkpoint)
    requires AllOrders(s) && !c.IsBarrier()
    ensures AllOrders(s + [c]) && Sources(s + [c]) == Sources(s) + [c.mutation.result.source]
  {
  }

  lemma {:induction false} ThinnedSkip(kept: seq<Executable>, orders: seq<Executable>, e: Executable)
    requires Thinned(kept, orders)
    ensures Thinned(kept, orders + [e])
  {
    assert (orders + [e])[..|orders|] == orders;
  }

  lemma {:induction false} ThinnedSnoc(kept: seq<Executable>, orders: seq<Executable>, k: Executable, e: Executable)
    requires Thinned(kept, orders) && ReducedFrom(k, e)
    ensures Thinned(kept + [k], orders + [e])
  {
    assert (kept + [k])[..|kept|] == kept && (orders + [e])[..|orders|] == orders;
  }

  lemma {:induction false} ThinnedAfter(prefix: seq<Executable>, kept: seq<Executable>, orders: seq<Executable>)
    requires Thinned(kept, orders)
    ensures Thinned(prefix + kept, prefix + orders)
    decreases |orders|
  {
    if orders == [] {
      ThinnedSelf(prefix);
      assert prefix + kept == prefix && prefix + orders == prefix;
    } else {
      var front, last := orders[..|orders| - 1], orders[|orders| - 1];
      Associative(prefix, front, [last]);
      assert orders == front + [last];
      if Thinned(kept, front) {
        ThinnedAfter(prefix, kept, front);
        ThinnedSkip(prefix + kept, prefix + front, last);
      } else {
        var before, k := kept[..|kept| - 1], kept[|kept| - 1];
        ThinnedAfter(prefix, before, front);
        ThinnedSnoc(prefix + before, prefix + front, k, last);
        Associative(prefix, before, [k]);
        assert kept == before + [k];
      }
    }
  }

  lemma {:induction false} ThinnedSelf(orders: seq<Executable>)
    ensures Thinned(orders, orders)
    decreases |orders|
  {
    if orders != [] {
      ThinnedSelf(orders[..|orders| - 1]);
      var e := orders[|orders| - 1];
      if e.Bundled? {
        assert AllOptional(e.bundle, []) && WithoutTransactions(e.bundle, []) == e.bundle;
      }
    }
  }

  // ---------------------------------------------------------------------------------------
  // The step

  ghost predicate FirstFailure(s: Span, n: nat) {
    n < |s| && HasFailures(s[n]) && NoFailures(s[..n])
  }

  method FindFailure(history: Span) returns (n: Option<nat>)
    ensures n.Some? ==> FirstFailure(history, n.value)
    ensures n.None? ==> NoFailures(history)
  {
    for i := 0 to |history|
      invariant NoFailures(history[..i])
    {
      if HasFailures(history[i]) {
        return Some(i);
      }
    }
    n := None;
  }

  /** Applies what can be kept of the remaining orders. */
  method ExtendWith(evm: Evm, base: Checkpoint, orders: Span) returns (prefix: Checkpoint)
    requires AllOrders(orders)
    ensures Stripped(evm, base, Sources(orders), prefix)
  {
    prefix := base;
    var remaining := orders;
    ghost var done: nat := 0;
    while remaining != []
      invariant done <= |orders| && remaining == orders[done..]
      invariant AllOrders(orders[..done]) && Stripped(evm, base, Sources(orders[..done]), prefix)
      decreases |remaining|
    {
      var checkpoint := remaining[0];
      var e := checkpoint.mutation.result.source;
      var next := TryOrder(evm, prefix, e);
      SourcesSnoc(orders, done);
      StrippedSnoc(evm, base, Sources(orders[..done]), prefix, e, next);
      prefix := next;
      remaining := remaining[1..];
      done := done + 1;
    }
    assert orders[..done] == orders;
  }

  /** The step keeps everything before the first removable failure, and of the rest what can be kept. */
  ghost predicate RevertsRemoved(evm: Evm, payload: Checkpoint, n: nat, r: Checkpoint)
    requires HasBarrier(History(payload))
  {
    && FirstFailure(Staging(payload), n) && 0 < n && AllOrders(Staging(payload)[n..])
    && Stripped(evm, Staging(payload)[n - 1], Sources(Staging(payload)[n..]), r)
  }

  /** `RemoveRevertedTransactions::step`. */
  method RemoveReverted(evm: Evm, payload: Checkpoint) returns (r: Checkpoint)
    requires WellFormed(payload) && HasBarrier(History(payload)) && AllOrders(Staged(payload))
    ensures NoFailures(Staging(payload)) ==> r == payload
    ensures !NoFailures(Staging(payload)) ==> exists n :: RevertsRemoved(evm, payload, n, r)
    ensures KeepsSealed(payload, r) && NoFailures(Staging(r))
    ensures AllOrders(Staged(r)) && Thinned(Sources(Staged(r)), Sources(Staged(payload)))
  {
    var history := Staging(payload);
    StartOfStaging(payload);
    if payload.depth == 0 {
      return payload;
    }
    var prefixLen := FindFailure(history);
    if prefixLen.None? {
      return payload;
    }
    var n := prefixLen.value;
    var valid, remaining := history[..n], history[n..];
    r := ExtendWith(evm, valid[|valid| - 1], remaining);
    assert RevertsRemoved(evm, payload, n, r);
    RemovalMeaning(evm, payload, n, r);
  }

  lemma {:induction false} RemovalMeaning(evm: Evm, payload: Checkpoint, n: nat, r: Checkpoint)
    requires WellFormed(payload) && HasBarrier(History(payload)) && AllOrders(Staged(payload))
    requires RevertsRemoved(evm, payload, n, r)
    ensures KeepsSealed(payload, r) && NoFailures(Staging(r))
    ensures AllOrders(Staged(r)) && Thinned(Sources(Staged(r)), Sources(Staged(payload)))
  {
    var history := Staging(payload);
    StagedShareSealed(payload, n - 1);
    var added := StrippedMeaning(evm, history[n - 1], Sources(history[n..]), r);
    StagedAfter(payload, n, added, r);
    CleanAfter(history, n, added);
  }

  lemma {:induction false} StagedAfter(payload: Checkpoint, n: nat, added: Span, r: Checkpoint)
    requires WellFormed(payload) && HasBarrier(History(payload)) && 0 < n <= |Staging(payload)|
    requires StagedOn(Staging(payload)[n - 1], r, added)
    ensures KeepsSealed(payload, r) && Staging(r) == Staging(payload)[..n] + added
  {
    StagedShareSealed(payload, n - 1);
  }

  lemma {:induction false} StartOfStaging(payload: Checkpoint)
    requires WellFormed(payload) && HasBarrier(History(payload))
    ensures Staging(payload) != [] && !HasFailures(Staging(payload)[0])
    ensures payload.depth == 0 ==> NoFailures(Staging(payload))
    ensures AllOrders(Staged(payload)) ==> Thinned(Sources(Staged(payload)), Sources(Staged(payload)))
  {
    SealedAndStagingRebuildHistory(payload);
    HistoryIsPathFromRoot(payload);
    if AllOrders(Staged(payload)) {
      ThinnedSelf(Sources(Staged(payload)));
    }
  }

  lemma {:induction false} CleanAfter(history: Span, n: nat, added: Span)
    requires 0 < n <= |history| && AllOrders(history[1..]) && AllOrders(history[n..])
    requires NoFailures(history[..n]) && Clean(added, Sources(history[n..]))
    ensures NoFailures(history[..n] + added)
    ensures AllOrders((history[..n] + added)[1..])
    ensures Thinned(Sources((history[..n] + added)[1..]), Sources(history[1..]))
  {
    var kept := history[1..n];
    SplitHistory(history, n, added);
    assert forall i :: 0 <= i < |kept| ==> kept[i] == history[1..][i];
    SourcesConcat(kept, added);
    SourcesConcat(kept, history[n..]);
    ThinnedAfter(Sources(kept), Sources(added), Sources(history[n..]));
  }

  lemma SplitHistory<T>(s: seq<T>, n: nat, t: seq<T>)
    requires 0 < n <= |s|
    ensures (s[..n] + t)[1..] == s[1..n] + t && s[1..] == s[1..n] + s[n..]
  {
  }

  lemma {:induction false} SourcesConcat(a: Span, b: Span)
    requires AllOrders(a) && AllOrders(b)
    ensures AllOrders(a + b) && Sources(a + b) == Sources(a) + Sources(b)
  {
  }
}
