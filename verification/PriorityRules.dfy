/**
 What the nonces cached by a prioritized pool have to do with the payload.

 The pool takes it that the nonces it was told are those of the payload.  They are as long as no applied
 order deletes an account that has used a nonce.
 */
module PriorityRules {
  import opened Wrappers
  import opened Payload
  import opened BundleExecution
  import opened StateReads
  import Pool = PoolState

  // ---------------------------------------------------------------------------------------
  // The nonces of a bundle

  function NonceFor(b: Bundle, tx: Transaction): Pool.BundleNonce {
    Pool.BundleNonce(tx.signer, tx.nonce, b.IsOptional(tx.hash))
  }

  predicate NotAfter(a: Pool.BundleNonce, b: Pool.BundleNonce) {
    a.address < b.address || (a.address == b.address && a.nonce <= b.nonce)
  }

  /** Puts a nonce after all that are not greater, as a stable sort does. */
  function InsertSorted(sorted: seq<Pool.BundleNonce>, n: Pool.BundleNonce): (r: seq<Pool.BundleNonce>)
    ensures forall m :: m in r <==> m in sorted || m == n
  {
    if sorted == [] || NotAfter(sorted[|sorted| - 1], n) then sorted + [n]
    else
      assert sorted == sorted[..|sorted| - 1] + [sorted[|sorted| - 1]];
      InsertSorted(sorted[..|sorted| - 1], n) + [sorted[|sorted| - 1]]
  }

  function SortedNonces(b: Bundle, txs: seq<Transaction>): (r: seq<Pool.BundleNonce>)
    ensures forall m :: m in r <==> exists tx :: tx in txs && m == NonceFor(b, tx)
  {
    if txs == [] then []
    else
      assert txs == txs[..|txs| - 1] + [txs[|txs| - 1]];
      InsertSorted(SortedNonces(b, txs[..|txs| - 1]), NonceFor(b, txs[|txs| - 1]))
  }

  /** Keeps the first of successive nonces of one account. */
  function DedupByAddress(nonces: seq<Pool.BundleNonce>): seq<Pool.BundleNonce> {
    if |nonces| <= 1 then nonces
    else
      var front, last := nonces[..|nonces| - 1], nonces[|nonces| - 1];
      DedupByAddress(front) + if front[|front| - 1].address == last.address then [] else [last]
  }

  /** The nonces under which the pool files a bundle. */
  function NoncesFor(b: Bundle): seq<Pool.BundleNonce> {
    DedupByAddress(SortedNonces(b, b.txs))
  }

  /** `BundleWithNonces::new`. */
  method BundleNonces(b: Bundle) returns (nonces: seq<Pool.BundleNonce>)
    ensures nonces == NoncesFor(b)
  {
    nonces := [];
    for i := 0 to |b.txs|
      invariant nonces == SortedNonces(b, b.txs[..i])
    {
      assert b.txs[..i + 1][..i] == b.txs[..i];
      nonces := InsertSorted(nonces, NonceFor(b, b.txs[i]));
    }
    assert b.txs[..|b.txs|] == b.txs;
    nonces := DedupByAddress(nonces);
  }

  ghost predicate Ascending(nonces: seq<Pool.BundleNonce>) {
    forall i, j :: 0 <= i < j < |nonces| ==> NotAfter(nonces[i], nonces[j])
  }

  lemma {:induction false} InsertKeepsAscending(sorted: seq<Pool.BundleNonce>, n: Pool.BundleNonce)
    requires Ascending(sorted)
    ensures Ascending(InsertSorted(sorted, n))
    decreases |sorted|
  {
    if sorted != [] && !NotAfter(sorted[|sorted| - 1], n) {
      var front, last := sorted[..|sorted| - 1], sorted[|sorted| - 1];
      InsertKeepsAscending(front, n);
      var r := InsertSorted(front, n);
      forall i | 0 <= i < |r|
        ensures NotAfter(r[i], last)
      {
        assert r[i] in r;
      }
    }
  }

  lemma {:induction false} SortedNoncesAscend(b: Bundle, txs: seq<Transaction>)
    ensures Ascending(SortedNonces(b, txs))
    decreases |txs|
  {
    if txs != [] {
      SortedNoncesAscend(b, txs[..|txs| - 1]);
      InsertKeepsAscending(SortedNonces(b, txs[..|txs| - 1]), NonceFor(b, txs[|txs| - 1]));
    }
  }

  /** One nonce for each account, and the lowest. */
  ghost predicate LowestOf(nonces: seq<Pool.BundleNonce>, all: seq<Pool.BundleNonce>) {
    && (forall n :: n in nonces ==> n in all)
    && (forall i, j :: 0 <= i < j < |nonces| ==> nonces[i].address < nonces[j].address)
    && forall m {:trigger Covered(nonces, m)} :: m in all ==> Covered(nonces, m)
  }

  /** A nonce of the same account that is not higher. */
  ghost predicate Covered(nonces: seq<Pool.BundleNonce>, m: Pool.BundleNonce) {
    exists n :: n in nonces && n.address == m.address && n.nonce <= m.nonce
  }

  lemma {:induction false} DedupKeepsLowest(nonces: seq<Pool.BundleNonce>)
    requires Ascending(nonces)
    ensures LowestOf(DedupByAddress(nonces), nonces)
    ensures nonces != [] ==>
      var d := DedupByAddress(nonces); d != [] && d[|d| - 1].address == nonces[|nonces| - 1].address
    decreases |nonces|
  {
    if |nonces| > 1 {
      var front, last := nonces[..|nonces| - 1], nonces[|nonces| - 1];
      DedupKeepsLowest(front);
      assert nonces == front + [last];
      DedupSnoc(front, last, DedupByAddress(front));
    }
  }

  lemma {:induction false} DedupSnoc(front: seq<Pool.BundleNonce>, last: Pool.BundleNonce, d: seq<Pool.BundleNonce>)
    requires front != [] && Ascending(front + [last]) && LowestOf(d, front)
    requires d != [] && d[|d| - 1].address == front[|front| - 1].address
    ensures LowestOf(d + if front[|front| - 1].address == last.address then [] else [last], front + [last])
  {
    var all := front + [last];
    assert all[|front| - 1] == front[|front| - 1] && all[|front|] == last;
    assert NotAfter(all[|front| - 1], all[|front|]);
    var r := d + if front[|front| - 1].address == last.address then [] else [last];
    forall m | m in all
      ensures Covered(r, m)
    {
      if m in front {
        assert Covered(d, m);
      } else if front[|front| - 1].address == last.address {
        assert Covered(d, front[|front| - 1]);
      } else {
        assert last in r;
      }
    }
    assert forall i :: 0 <= i < |d| ==> d[i].address <= d[|d| - 1].address;
  }

  /** A bundle is filed under the lowest nonce of each of its signers. */
  lemma {:induction false} NoncesForMeaning(b: Bundle)
    ensures forall i, j :: 0 <= i < j < |NoncesFor(b)| ==> NoncesFor(b)[i].address != NoncesFor(b)[j].address
    ensures forall n :: n in NoncesFor(b) ==> exists tx :: tx in b.txs && n == NonceFor(b, tx)
    ensures forall tx :: tx in b.txs ==> Covered(NoncesFor(b), NonceFor(b, tx))
  {
    var all := SortedNonces(b, b.txs);
    SortedNoncesAscend(b, b.txs);
    DedupKeepsLowest(all);
    forall tx | tx in b.txs
      ensures Covered(NoncesFor(b), NonceFor(b, tx))
    {
      assert NonceFor(b, tx) in all;
    }
  }

  // ---------------------------------------------------------------------------------------
  // Honest execution

  function NonceBefore(d: AccountDiff): nat {
    if d.original.Some? then d.original.value.nonce else 0
  }

  function NonceAfter(d: AccountDiff): nat {
    if d.info.Some? then d.info.value.nonce else 0
  }

  /** The nonce that a transaction finds. */
  function NonceIn(c: Checkpoint, d: Diff, a: Address): nat {
    if a in d.accounts then NonceAfter(d.accounts[a]) else NonceOf(c, a)
  }

  ghost predicate OriginalsAreRight(c: Checkpoint, before: Diff, changes: Diff) {
    forall a :: a in changes.accounts ==> NonceBefore(changes.accounts[a]) == NonceIn(c, before, a)
  }

  /** Execution reports the accounts as it found them. */
  ghost predicate Honest(evm: Evm) {
    forall c, d, tx :: evm(c, d, tx).Ran? ==> OriginalsAreRight(c, d, evm(c, d, tx).changes)
  }

  lemma {:induction false} CommitKeepsOriginals(c: Checkpoint, first: Diff, second: Diff)
    requires OriginalsAreRight(c, NO_CHANGES, first) && OriginalsAreRight(c, first, second)
    ensures OriginalsAreRight(c, NO_CHANGES, Commit(first, second))
  {
  }

  lemma {:induction false} RunKeepsOriginals(evm: Evm, c: Checkpoint, b: Bundle, txs: seq<Transaction>)
    requires Honest(evm) && RunTxs(evm, c, b, txs).Success?
    ensures OriginalsAreRight(c, NO_CHANGES, RunTxs(evm, c, b, txs).value.state)
    decreases |txs|
  {
    if txs != [] {
      RunKeepsOriginals(evm, c, b, txs[..|txs| - 1]);
      var before := RunTxs(evm, c, b, txs[..|txs| - 1]).value.state;
      var o := evm(c, before, txs[|txs| - 1]);
      if Included(b, txs[|txs| - 1].hash, o) {
        CommitKeepsOriginals(c, before, o.changes);
      }
    }
  }

  /** So does the execution of a whole order. */
  lemma {:induction false} ExecutionIsHonest(evm: Evm, c: Checkpoint, e: Executable)
    requires Honest(evm) && Execute(evm, c, e).Success?
    ensures OriginalsAreRight(c, NO_CHANGES, Execute(evm, c, e).value.state)
  {
    if e.Bundled? {
      RunKeepsOriginals(evm, c, e.bundle, e.bundle.txs);
    }
  }

  // ---------------------------------------------------------------------------------------
  // Coherence

  /** The cached nonces are those of the payload. */
  ghost predicate Coherent(onchain: map<Pool.Address, nat>, c: Checkpoint) {
    forall a :: a in onchain ==> onchain[a] == NonceOf(c, a)
  }

  /** The execution changed the account's nonce to this one. */
  ghost predicate IsChanged(k: Pool.AccountNonce, d: Diff) {
    && k.account in d.accounts
    && NonceBefore(d.accounts[k.account]) != NonceAfter(d.accounts[k.account]) == k.nonce
  }

  /** The accounts whose nonce an execution changed, each once, with their new nonces. */
  ghost predicate Changes(news: seq<Pool.AccountNonce>, d: Diff) {
    && (forall k :: k in news <==> IsChanged(k, d))
    && forall i, j :: 0 <= i < j < |news| ==> news[i].account != news[j].account
  }

  /** In terms of the accounts: one that did not exist, or does not any more, has nonce zero. */
  lemma IsChangedIff(k: Pool.AccountNonce, d: Diff)
    ensures IsChanged(k, d) <==>
      && k.account in d.accounts
      && match (d.accounts[k.account].original, d.accounts[k.account].info)
         case (None, None) => false
         case (None, Some(i)) => 0 != i.nonce == k.nonce
         case (Some(o), None) => o.nonce != 0 == k.nonce
         case (Some(o), Some(i)) => o.nonce != i.nonce == k.nonce
  {
  }

  /** `changed_nonces`: in any order of the accounts. */
  method ChangedNonces(c: Checkpoint) returns (news: seq<Pool.AccountNonce>)
    ensures c.mutation.Executed? ==> Changes(news, c.mutation.result.state)
    ensures c.mutation.Barrier? ==> news == []
  {
    news := [];
    if c.mutation.Barrier? {
      return;
    }
    var accounts := c.mutation.result.state.accounts;
    var left := accounts.Keys;
    while left != {}
      invariant left <= accounts.Keys
      invariant Changes(news, Diff(accounts - left, map[]))
      decreases left
    {
      var a :| a in left;
      var oldNonce, newNonce := NonceBefore(accounts[a]), NonceAfter(accounts[a]);
      ChangesOne(news, accounts, left, a);
      if oldNonce != newNonce {
        news := news + [Pool.AccountNonce(a, newNonce)];
      }
      left := left - {a};
    }
    assert accounts - {} == accounts;
  }

  lemma {:induction false} ChangesOne(news: seq<Pool.AccountNonce>, accounts: map<Address, AccountDiff>,
      left: set<Address>, a: Address)
    requires a in left && left <= accounts.Keys && Changes(news, Diff(accounts - left, map[]))
    ensures var d := accounts[a];
            Changes(if NonceBefore(d) != NonceAfter(d) then news + [Pool.AccountNonce(a, NonceAfter(d))] else news,
                    Diff(accounts - (left - {a}), map[]))
  {
    var more := accounts - (left - {a});
    assert forall x :: x in more <==> x in accounts - left || x == a;
    assert forall i :: 0 <= i < |news| ==> news[i] in news;
  }

  /** No account is deleted that has used a nonce. */
  ghost predicate LosesNoNonce(c: Checkpoint, d: Diff) {
    forall a :: a in d.accounts && d.accounts[a].info.None? ==> NonceOf(c, a) == 0
  }

  /** After an order has been applied and the changed nonces reported, the cached nonces are right again if and
      only if the order deletes no account that has used a nonce. */
  lemma {:induction false} CoherentAfterIff(onchain: map<Pool.Address, nat>, news: seq<Pool.AccountNonce>,
      c: Checkpoint, next: Checkpoint)
    requires Coherent(onchain, c) && next.prev == Some(c) && next.mutation.Executed?
    requires OriginalsAreRight(c, NO_CHANGES, next.mutation.result.state)
    requires Changes(news, next.mutation.result.state)
    ensures Coherent(Pool.Override(onchain, news), next) <==> LosesNoNonce(c, next.mutation.result.state)
  {
    var d := next.mutation.result.state;
    if LosesNoNonce(c, d) {
      forall a | a in Pool.Override(onchain, news)
        ensures Pool.Override(onchain, news)[a] == NonceOf(next, a)
      {
        Pool.OverrideValues(onchain, news, a);
        NonceAfterApplying(c, next, a);
        if a in d.accounts && NonceBefore(d.accounts[a]) != NonceAfter(d.accounts[a]) {
          assert Pool.AccountNonce(a, NonceAfter(d.accounts[a])) in news;
        }
      }
    } else {
      var a :| a in d.accounts && d.accounts[a].info.None? && NonceOf(c, a) != 0;
      NonceAfterApplying(c, next, a);
      assert Pool.AccountNonce(a, 0) in news;
      Pool.OverrideValues(onchain, news, a);
    }
  }

  lemma {:induction false} NonceAfterApplying(c: Checkpoint, next: Checkpoint, a: Address)
    requires next.prev == Some(c) && next.mutation.Executed?
    ensures var d := next.mutation.result.state;
            NonceOf(next, a) ==
              if a in d.accounts && d.accounts[a].info.Some? then NonceAfter(d.accounts[a]) else NonceOf(c, a)
  {
  }
}
