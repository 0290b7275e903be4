/**
 Bundles that repeat a transaction.

 The results of a bundle are listed in the order in which its transactions ran, but a transaction that is taken
 out is looked up by its hash, and of several the first one goes.  Whether the results still belong to the
 transactions that remain depends on where the repetitions are.
 */
module RepeatedTransactions {
  import opened Wrappers
  import opened Payload
  import opened BundleExecution

  /** A hash stands for one transaction. */
  ghost predicate HashesAreIdentities(txs: seq<Transaction>) {
    forall i, j :: 0 <= i < j < |txs| && txs[i].hash == txs[j].hash ==> txs[i] == txs[j]
  }

  /** Nothing comes between two occurrences of the hash but further occurrences. */
  ghost predicate Consecutive(txs: seq<Transaction>, h: Hash) {
    forall i, k, j :: 0 <= i < k < j < |txs| && txs[i].hash == h && txs[j].hash == h ==> txs[k].hash == h
  }

  ghost predicate OptionalAreConsecutive(b: Bundle) {
    forall h :: b.IsOptional(h) ==> Consecutive(b.txs, h)
  }

  /** If the bundle succeeds, its results are those of the transactions that remain, one by one. */
  ghost predicate ResultsBelong(evm: Evm, c: Checkpoint, b: Bundle) {
    var r := RunBundle(evm, c, b);
    r.Success? ==> LinesUp(evm, c, b, TransactionsOf(r.value.source), r.value.results)
  }

  // ---------------------------------------------------------------------------------------
  // Consecutive repetitions do no harm

  lemma {:induction false} KeptMembers(evm: Evm, c: Checkpoint, b: Bundle, txs: seq<Transaction>)
    ensures forall t :: t in Kept(evm, c, b, txs) ==> t in txs
    decreases |txs|
  {
    if txs != [] {
      KeptMembers(evm, c, b, txs[..|txs| - 1]);
    }
  }

  /** The occurrences of a transaction, if there are any, are at the end. */
  ghost predicate EndsIn(txs: seq<Transaction>, x: Transaction) {
    exists k :: BlockFrom(txs, x, k)
  }

  ghost predicate BlockFrom(txs: seq<Transaction>, x: Transaction, k: int) {
    && 0 <= k <= |txs|
    && (forall i :: 0 <= i < k ==> txs[i].hash != x.hash)
    && forall i :: k <= i < |txs| ==> txs[i] == x
  }

  lemma {:induction false} NoneEarlier(txs: seq<Transaction>, n: nat)
    requires n < |txs| && Consecutive(txs, txs[n].hash) && (n > 0 ==> txs[n - 1].hash != txs[n].hash)
    ensures forall t :: t in txs[..n] ==> t.hash != txs[n].hash
  {
    forall j | 0 <= j < n
      ensures txs[j].hash != txs[n].hash
    {
      var earlier, before, x := txs[j], txs[n - 1], txs[n];
    }
  }

  lemma {:induction false} KeptEndIn(evm: Evm, c: Checkpoint, b: Bundle, txs: seq<Transaction>, n: nat)
    requires n < |txs| && HashesAreIdentities(txs) && Consecutive(txs, txs[n].hash)
    ensures EndsIn(Kept(evm, c, b, txs[..n]), txs[n])
    decreases n
  {
    var x, kept := txs[n], Kept(evm, c, b, txs[..n]);
    if n > 0 && txs[n - 1].hash == x.hash {
      assert txs[n - 1] == x && txs[..n][..n - 1] == txs[..n - 1];
      KeptEndIn(evm, c, b, txs, n - 1);
      EndsInSnoc(Kept(evm, c, b, txs[..n - 1]), x);
    } else {
      KeptMembers(evm, c, b, txs[..n]);
      NoneEarlier(txs, n);
      assert forall i :: 0 <= i < |kept| ==> kept[i] in txs[..n];
      assert BlockFrom(kept, x, |kept|);
    }
  }

  lemma EndsInSnoc(txs: seq<Transaction>, x: Transaction)
    requires EndsIn(txs, x)
    ensures EndsIn(txs + [x], x)
  {
    var k :| BlockFrom(txs, x, k);
    assert BlockFrom(txs + [x], x, k);
  }

  /** Taking out the first of equal transactions is as good as taking out the last. */
  lemma {:induction false} RemoveFirstOfBlock(txs: seq<Transaction>, x: Transaction, rest: seq<Transaction>)
    requires EndsIn(txs, x)
    ensures RemoveFirst(txs + [x] + rest, x.hash) == txs + rest
    decreases |txs|
  {
    var all := txs + [x] + rest;
    var k :| BlockFrom(txs, x, k);
    if txs == [] {
      assert all[1..] == rest && txs + rest == rest;
    } else if k == 0 {
      assert all[1..] == txs + rest;
    } else {
      var tail := txs[1..];
      assert BlockFrom(tail, x, k - 1);
      RemoveFirstOfBlock(tail, x, rest);
      assert all[1..] == tail + [x] + rest;
      assert [txs[0]] + (tail + rest) == txs + rest;
    }
  }

  /** What was taken out so far leaves the kept transactions and those that are still to run. */
  lemma {:induction false} ReducedSoFar(evm: Evm, c: Checkpoint, b: Bundle, n: nat)
    requires n <= |b.txs| && HashesAreIdentities(b.txs) && OptionalAreConsecutive(b)
    requires RunTxs(evm, c, b, b.txs[..n]).Success?
    ensures WithoutTransactions(b, RunTxs(evm, c, b, b.txs[..n]).value.discarded).txs
            == Kept(evm, c, b, b.txs[..n]) + b.txs[n..]
    decreases n
  {
    if n == 0 {
      assert b.txs[..0] == [] && [] + b.txs[0..] == b.txs;
    } else {
      var front, x, rest := b.txs[..n - 1], b.txs[n - 1], b.txs[n..];
      OneMore(evm, c, b, n);
      ReducedSoFar(evm, c, b, n - 1);
      ResultsLineUp(evm, c, b, front);
      var kept := Kept(evm, c, b, front);
      Regroup(kept, b.txs, n);
      if b.IsOptional(x.hash) {
        KeptEndIn(evm, c, b, b.txs, n - 1);
        RemoveFirstOfBlock(kept, x, rest);
      }
    }
  }

  /** Either the next transaction is kept, or one with its hash is taken out of what there is. */
  lemma {:induction false} OneMore(evm: Evm, c: Checkpoint, b: Bundle, n: nat)
    requires 0 < n <= |b.txs| && RunTxs(evm, c, b, b.txs[..n]).Success?
    ensures RunTxs(evm, c, b, b.txs[..n - 1]).Success?
    ensures var x := b.txs[n - 1];
            var p, q := RunTxs(evm, c, b, b.txs[..n - 1]).value, RunTxs(evm, c, b, b.txs[..n]).value;
            if Included(b, x.hash, evm(c, p.state, x)) then q.discarded == p.discarded
            else b.IsOptional(x.hash) &&
                 WithoutTransactions(b, q.discarded).txs == RemoveFirst(WithoutTransactions(b, p.discarded).txs, x.hash)
    ensures var x := b.txs[n - 1];
            var before := Kept(evm, c, b, b.txs[..n - 1]);
            Kept(evm, c, b, b.txs[..n]) ==
              if Included(b, x.hash, evm(c, StateAfter(evm, c, before), x)) then before + [x] else before
  {
    assert b.txs[..n][..n - 1] == b.txs[..n - 1];
    var p := RunTxs(evm, c, b, b.txs[..n - 1]).value;
    assert (p.discarded + [b.txs[n - 1].hash])[..|p.discarded|] == p.discarded;
  }

  lemma Regroup(kept: seq<Transaction>, txs: seq<Transaction>, n: nat)
    requires 0 < n <= |txs|
    ensures kept + txs[n - 1..] == kept + [txs[n - 1]] + txs[n..]
  {
    assert txs[n - 1..] == [txs[n - 1]] + txs[n..];
  }

  lemma {:induction false} ConsecutiveDoNoHarm(evm: Evm, c: Checkpoint, b: Bundle)
    requires HashesAreIdentities(b.txs) && OptionalAreConsecutive(b)
    ensures ResultsBelong(evm, c, b)
  {
    if RunBundle(evm, c, b).Success? {
      assert b.txs[..|b.txs|] == b.txs;
      ReducedSoFar(evm, c, b, |b.txs|);
      ResultsLineUp(evm, c, b, b.txs);
      assert Kept(evm, c, b, b.txs) + b.txs[|b.txs|..] == Kept(evm, c, b, b.txs);
    }
  }

  // ---------------------------------------------------------------------------------------
  // Others do

  /** Uses the hash as gas, and runs the transaction with hash `h` only once. */
  function FirstOnly(h: Hash): Evm {
    (c: Checkpoint, d: Diff, tx: Transaction) =>
      if tx.hash == h && h in d.accounts then Invalid(0)
      else
        var changes := if tx.hash == h then Diff(map[h := AccountDiff(None, None, map[])], map[]) else NO_CHANGES;
        Ran(TxResult(true, tx.hash), changes)
  }

  /** The transactions without all but the first occurrence. */
  function KeepFirst(txs: seq<Transaction>, h: Hash): (r: seq<Transaction>)
    ensures txs != [] ==> r != [] && r[0] == txs[0]
  {
    if txs == [] then []
    else
      var front, last := txs[..|txs| - 1], txs[|txs| - 1];
      KeepFirst(front, h) + if last.hash == h && Has(front, h) then [] else [last]
  }

  /** The transactions without all but the last occurrence. */
  function KeepLast(txs: seq<Transaction>, h: Hash): seq<Transaction> {
    if txs == [] then []
    else (if txs[0].hash == h && Has(txs[1..], h) then [] else [txs[0]]) + KeepLast(txs[1..], h)
  }

  function Count(txs: seq<Transaction>, h: Hash): nat {
    if txs == [] then 0 else (if txs[0].hash == h then 1 else 0) + Count(txs[1..], h)
  }

  /** The first occurrence taken out, n times. */
  function Times(txs: seq<Transaction>, h: Hash, n: nat): seq<Transaction> {
    if n == 0 then txs else RemoveFirst(Times(txs, h, n - 1), h)
  }

  lemma {:induction false} CountSnoc(txs: seq<Transaction>, last: Transaction, h: Hash)
    ensures Count(txs + [last], h) == Count(txs, h) + if last.hash == h then 1 else 0
    decreases |txs|
  {
    if txs != [] {
      assert (txs + [last])[1..] == txs[1..] + [last];
      CountSnoc(txs[1..], last, h);
    }
  }

  lemma {:induction false} CountHas(txs: seq<Transaction>, h: Hash)
    ensures Has(txs, h) <==> Count(txs, h) > 0
    decreases |txs|
  {
    if txs != [] {
      CountHas(txs[1..], h);
      if Has(txs[1..], h) {
        var i :| 0 <= i < |txs[1..]| && txs[1..][i].hash == h;
        assert txs[i + 1].hash == h;
      }
      if Has(txs, h) && txs[0].hash != h {
        var i :| 0 <= i < |txs| && txs[i].hash == h;
        assert txs[1..][i - 1].hash == h;
      }
    }
  }

  lemma {:induction false} TimesSkips(txs: seq<Transaction>, h: Hash, n: nat)
    requires txs != [] && txs[0].hash != h
    ensures Times(txs, h, n) == [txs[0]] + Times(txs[1..], h, n)
    decreases n
  {
    if n > 0 {
      TimesSkips(txs, h, n - 1);
      assert ([txs[0]] + Times(txs[1..], h, n - 1))[1..] == Times(txs[1..], h, n - 1);
    }
  }

  lemma {:induction false} TimesDrops(txs: seq<Transaction>, h: Hash, n: nat)
    requires txs != [] && txs[0].hash == h && n > 0
    ensures Times(txs, h, n) == Times(txs[1..], h, n - 1)
    decreases n
  {
    if n > 1 {
      TimesDrops(txs, h, n - 1);
    } else {
      assert Times(txs, h, 0) == txs;
    }
  }

  lemma {:induction false} KeepLastIsTimes(txs: seq<Transaction>, h: Hash)
    ensures KeepLast(txs, h) == Times(txs, h, if Count(txs, h) == 0 then 0 else Count(txs, h) - 1)
    decreases |txs|
  {
    if txs != [] {
      KeepLastIsTimes(txs[1..], h);
      CountHas(txs[1..], h);
      if txs[0].hash != h {
        TimesSkips(txs, h, if Count(txs, h) == 0 then 0 else Count(txs, h) - 1);
      } else if Count(txs[1..], h) > 0 {
        TimesDrops(txs, h, Count(txs, h) - 1);
      }
    }
  }

  lemma {:induction false} WithoutSame(b: Bundle, hashes: seq<Hash>, h: Hash)
    requires forall i :: 0 <= i < |hashes| ==> hashes[i] == h
    ensures WithoutTransactions(b, hashes).txs == Times(b.txs, h, |hashes|)
    decreases |hashes|
  {
    if hashes != [] {
      WithoutSame(b, hashes[..|hashes| - 1], h);
    }
  }

  /** What a bundle comes to if only the first occurrence of an optional transaction can run. */
  ghost predicate RanFirstOnly(r: Result<Progress, ExecutionError>, txs: seq<Transaction>, h: Hash) {
    && r.Success?
    && |r.value.results| == |KeepFirst(txs, h)|
    && (forall i :: 0 <= i < |r.value.results| ==> r.value.results[i] == TxResult(true, KeepFirst(txs, h)[i].hash))
    && (h in r.value.state.accounts <==> Has(txs, h))
    && |r.value.discarded| == (if Count(txs, h) == 0 then 0 else Count(txs, h) - 1)
    && forall i :: 0 <= i < |r.value.discarded| ==> r.value.discarded[i] == h
  }

  lemma {:induction false} HasSnoc(txs: seq<Transaction>, h: Hash)
    requires txs != []
    ensures Has(txs, h) <==> Has(txs[..|txs| - 1], h) || txs[|txs| - 1].hash == h
  {
    var front := txs[..|txs| - 1];
    if Has(front, h) {
      var i :| 0 <= i < |front| && front[i].hash == h;
      assert txs[i].hash == h;
    }
    if Has(txs, h) && txs[|txs| - 1].hash != h {
      var i :| 0 <= i < |txs| && txs[i].hash == h;
      assert front[i].hash == h;
    }
  }

  lemma {:induction false} FirstOnlyRuns(c: Checkpoint, b: Bundle, txs: seq<Transaction>, h: Hash)
    requires b.IsOptional(h)
    ensures RanFirstOnly(RunTxs(FirstOnly(h), c, b, txs), txs, h)
    decreases |txs|
  {
    if txs != [] {
      var front, last := txs[..|txs| - 1], txs[|txs| - 1];
      FirstOnlyRuns(c, b, front, h);
      assert txs == front + [last];
      CountSnoc(front, last, h);
      CountHas(front, h);
      HasSnoc(txs, h);
    }
  }

  // ---------------------------------------------------------------------------------------
  // The first and the last occurrence are at different places

  lemma {:induction false} KeepFirstCons(txs: seq<Transaction>, h: Hash)
    requires txs != [] && txs[0].hash != h
    ensures KeepFirst(txs, h) == [txs[0]] + KeepFirst(txs[1..], h)
    decreases |txs|
  {
    if |txs| > 1 {
      var front, last := txs[..|txs| - 1], txs[|txs| - 1];
      var tail := txs[1..];
      KeepFirstCons(front, h);
      assert tail[..|tail| - 1] == front[1..] && tail[|tail| - 1] == last;
      HasTail(front, h);
      var more := if last.hash == h && Has(front, h) then [] else [last];
      assert KeepFirst(tail, h) == KeepFirst(front[1..], h) + more;
      assert ([txs[0]] + KeepFirst(front[1..], h)) + more == [txs[0]] + (KeepFirst(front[1..], h) + more);
    } else {
      assert txs[..0] == [] && txs[1..] == [];
    }
  }

  lemma HasTail(txs: seq<Transaction>, h: Hash)
    requires txs != [] && txs[0].hash != h
    ensures Has(txs, h) <==> Has(txs[1..], h)
  {
    CountHas(txs, h);
    CountHas(txs[1..], h);
  }

  ghost predicate Apart(txs: seq<Transaction>, h: Hash, i: nat, k: nat, j: nat) {
    i < k < j < |txs| && txs[i].hash == h && txs[k].hash != h && txs[j].hash == h
  }

  lemma {:induction false} LastComesLater(txs: seq<Transaction>, h: Hash, k: nat, j: nat)
    requires k < j < |txs| && txs[k].hash != h && txs[j].hash == h
    ensures KeepLast(txs, h) != [] && KeepLast(txs, h)[0].hash != h
    decreases |txs|
  {
    if txs[0].hash == h {
      assert txs[1..][k - 1] == txs[k] && txs[1..][j - 1] == txs[j];
      LastComesLater(txs[1..], h, k - 1, j - 1);
    }
  }

  lemma {:induction false} PlacesDiffer(txs: seq<Transaction>, h: Hash, i: nat, k: nat, j: nat) returns (n: nat)
    requires Apart(txs, h, i, k, j)
    ensures n < |KeepFirst(txs, h)| && n < |KeepLast(txs, h)| && KeepFirst(txs, h)[n].hash != KeepLast(txs, h)[n].hash
    decreases |txs|
  {
    if txs[0].hash == h {
      assert txs[1..][k - 1] == txs[k] && txs[1..][j - 1] == txs[j];
      LastComesLater(txs[1..], h, k - 1, j - 1);
      n := 0;
    } else {
      assert Apart(txs[1..], h, i - 1, k - 1, j - 1);
      var m := PlacesDiffer(txs[1..], h, i - 1, k - 1, j - 1);
      KeepFirstCons(txs, h);
      n := m + 1;
    }
  }

  lemma {:induction false} OthersShift(c: Checkpoint, b: Bundle, h: Hash)
    requires EligibilityAt(b, c.block.timestamp, c.block.number) == Eligible
    requires b.IsOptional(h) && !Consecutive(b.txs, h)
    ensures !ResultsBelong(FirstOnly(h), c, b)
  {
    var i, k, j :| 0 <= i < k < j < |b.txs| && b.txs[i].hash == h && b.txs[j].hash == h && b.txs[k].hash != h;
    assert Apart(b.txs, h, i, k, j);
    FirstOnlyRuns(c, b, b.txs, h);
    KeepLastRemains(c, b, h);
    var results := RunTxs(FirstOnly(h), c, b, b.txs).value.results;
    var n := PlacesDiffer(b.txs, h, i, k, j);
    GasTellsHash(c, b, KeepLast(b.txs, h), results, h);
    assert results[n] == TxResult(true, KeepFirst(b.txs, h)[n].hash);
  }

  lemma {:induction false} KeepLastRemains(c: Checkpoint, b: Bundle, h: Hash)
    requires EligibilityAt(b, c.block.timestamp, c.block.number) == Eligible && b.IsOptional(h)
    ensures var r := RunBundle(FirstOnly(h), c, b);
            r.Success? && r.value.source.Bundled? && r.value.source.bundle.txs == KeepLast(b.txs, h)
  {
    FirstOnlyRuns(c, b, b.txs, h);
    WithoutSame(b, RunTxs(FirstOnly(h), c, b, b.txs).value.discarded, h);
    KeepLastIsTimes(b.txs, h);
  }

  lemma {:induction false} GasTellsHash(c: Checkpoint, b: Bundle, txs: seq<Transaction>, results: seq<TxResult>,
      h: Hash)
    ensures LinesUp(FirstOnly(h), c, b, txs, results) ==>
      |results| == |txs| && forall i :: 0 <= i < |txs| ==> results[i].gasUsed == txs[i].hash
  {
    if LinesUp(FirstOnly(h), c, b, txs, results) {
      forall i | 0 <= i < |txs|
        ensures results[i].gasUsed == txs[i].hash
      {
        assert OutcomeAt(FirstOnly(h), c, txs, i).Ran?;
      }
    }
  }

  /** The results of a successful bundle belong to the transactions that remain, whatever the transactions do, if
      and only if all occurrences of each optional transaction are next to each other. */
  lemma {:induction false} ResultsBelongIff(b: Bundle, c: Checkpoint)
    requires HashesAreIdentities(b.txs) && EligibilityAt(b, c.block.timestamp, c.block.number) == Eligible
    ensures (forall evm: Evm :: ResultsBelong(evm, c, b)) <==> OptionalAreConsecutive(b)
  {
    if OptionalAreConsecutive(b) {
      forall evm: Evm
        ensures ResultsBelong(evm, c, b)
      {
        ConsecutiveDoNoHarm(evm, c, b);
      }
    } else {
      var h :| b.IsOptional(h) && !Consecutive(b.txs, h);
      OthersShift(c, b, h);
    }
  }

  /** The bundle [t, u, t], in which t is optional: the results can belong to other transactions than they line up
      with, because the second occurrence is dropped, but the first one is taken out of the bundle. */
  lemma RepeatedTransactionShiftsResults(c: Checkpoint)
    ensures var t, u := Transaction(1, 1, 0, None), Transaction(2, 2, 0, None);
            var r := RunBundle(FirstOnly(1), c, Bundle([t, u, t], [], [1], 0, None, None));
            && r.Success? && r.value.source.bundle.txs == [u, t]
            && r.value.results == [TxResult(true, 1), TxResult(true, 2)]
  {
    var t, u := Transaction(1, 1, 0, None), Transaction(2, 2, 0, None);
    var b := Bundle([t, u, t], [], [1], 0, None, None);
    FirstAndLastOfThree(t, u);
    FirstOnlyRuns(c, b, b.txs, 1);
    KeepLastRemains(c, b, 1);
  }

  lemma {:induction false} FirstAndLastOfThree(t: Transaction, u: Transaction)
    requires t.hash != u.hash
    ensures KeepFirst([t, u, t], t.hash) == [t, u] && KeepLast([t, u, t], t.hash) == [u, t]
  {
    var h := t.hash;
    assert [] + [t] == [t] && [t] + [u] == [t, u] && [t, u] + [t] == [t, u, t] && [t] + [] == [t];
    assert [u] + [t] == [u, t] && [t] + [u, t] == [t, u, t];
    KeepFirstSnoc([], t, h);
    KeepFirstSnoc([t], u, h);
    KeepFirstSnoc([t, u], t, h);
    assert [t, u][0].hash == h;
    KeepLastCons(t, [], h);
    KeepLastCons(u, [t], h);
    KeepLastCons(t, [u, t], h);
    assert [u, t][1].hash == h;
  }

  lemma {:induction false} KeepFirstSnoc(txs: seq<Transaction>, last: Transaction, h: Hash)
    ensures KeepFirst(txs + [last], h) == KeepFirst(txs, h) + if last.hash == h && Has(txs, h) then [] else [last]
  {
    assert (txs + [last])[..|txs|] == txs;
  }

  lemma {:induction false} KeepLastCons(first: Transaction, txs: seq<Transaction>, h: Hash)
    ensures KeepLast([first] + txs, h) == (if first.hash == h && Has(txs, h) then [] else [first]) + KeepLast(txs, h)
  {
    assert ([first] + txs)[1..] == txs;
  }
}
