/**
 What the nonces that a bundle is filed under leave out.

 Only the lowest nonce of each signer is filed, and whether it is required is decided by the transaction that has it.
 An optional transaction can so take the place of a required one with a higher nonce.
 */
module FiledNonces {
  import opened Wrappers
  import opened Payload
  import opened PriorityRules
  import Pool = PoolState

  /** The first of the nonces that is of the account. */
  function HeadOf(nonces: seq<Pool.BundleNonce>, a: Address): Option<Pool.BundleNonce> {
    if nonces == [] then None
    else
      var earlier, last := HeadOf(nonces[..|nonces| - 1], a), nonces[|nonces| - 1];
      if earlier.Some? then earlier else if last.address == a then Some(last) else None
  }

  lemma {:induction false} HeadIsMember(nonces: seq<Pool.BundleNonce>, a: Address)
    ensures HeadOf(nonces, a).Some? ==> HeadOf(nonces, a).value in nonces && HeadOf(nonces, a).value.address == a
    ensures HeadOf(nonces, a).None? ==> forall n :: n in nonces ==> n.address != a
    decreases |nonces|
  {
    if nonces != [] {
      HeadIsMember(nonces[..|nonces| - 1], a);
      assert nonces == nonces[..|nonces| - 1] + [nonces[|nonces| - 1]];
    }
  }

  lemma {:induction false} HeadSnoc(nonces: seq<Pool.BundleNonce>, n: Pool.BundleNonce, a: Address)
    ensures HeadOf(nonces + [n], a) ==
      if HeadOf(nonces, a).Some? then HeadOf(nonces, a) else if n.address == a then Some(n) else None
  {
    assert (nonces + [n])[..|nonces|] == nonces;
  }

  /** The nonce becomes the first of its account if it is lower than all that there are. */
  function Headed(head: Option<Pool.BundleNonce>, n: Pool.BundleNonce, a: Address): Option<Pool.BundleNonce> {
    if n.address == a && (head.None? || n.nonce < head.value.nonce) then Some(n) else head
  }

  lemma {:induction false} HeadOfInserted(sorted: seq<Pool.BundleNonce>, n: Pool.BundleNonce, a: Address)
    requires Ascending(sorted)
    ensures HeadOf(InsertSorted(sorted, n), a) == Headed(HeadOf(sorted, a), n, a)
    decreases |sorted|
  {
    if sorted == [] {
      HeadSnoc([], n, a);
    } else {
      var front, last := sorted[..|sorted| - 1], sorted[|sorted| - 1];
      HeadIsMember(sorted, a);
      if NotAfter(last, n) {
        HeadSnoc(sorted, n, a);
      } else {
        HeadOfInserted(front, n, a);
        HeadSnoc(InsertSorted(front, n), last, a);
        HeadIsMember(front, a);
      }
    }
  }

  lemma {:induction false} HeadOfDeduped(nonces: seq<Pool.BundleNonce>, a: Address)
    requires Ascending(nonces)
    ensures HeadOf(DedupByAddress(nonces), a) == HeadOf(nonces, a)
    decreases |nonces|
  {
    if |nonces| > 1 {
      var front, last := nonces[..|nonces| - 1], nonces[|nonces| - 1];
      HeadOfDeduped(front, a);
      HeadSnoc(DedupByAddress(front), last, a);
      HeadIsMember(front, a);
      assert front[|front| - 1] in front;
      assert DedupByAddress(front) + [] == DedupByAddress(front);
    }
  }

  ghost predicate DistinctAddresses(nonces: seq<Pool.BundleNonce>) {
    forall i, j :: 0 <= i < j < |nonces| ==> nonces[i].address != nonces[j].address
  }

  lemma {:induction false} OnlyHeads(nonces: seq<Pool.BundleNonce>, n: Pool.BundleNonce)
    requires DistinctAddresses(nonces)
    ensures n in nonces <==> HeadOf(nonces, n.address) == Some(n)
  {
    HeadIsMember(nonces, n.address);
  }

  /** The i-th transaction has the lowest nonce of its signer, and no earlier one has the same. */
  ghost predicate Leads(txs: seq<Transaction>, i: int) {
    && 0 <= i < |txs|
    && forall j :: 0 <= j < |txs| && txs[j].signer == txs[i].signer ==>
         txs[i].nonce < txs[j].nonce || (txs[i].nonce == txs[j].nonce && i <= j)
  }

  lemma {:induction false} LeadsSnoc(txs: seq<Transaction>, last: Transaction, i: nat)
    requires i < |txs|
    ensures Leads(txs + [last], i) <==>
      Leads(txs, i) && (last.signer == txs[i].signer ==> txs[i].nonce <= last.nonce)
    ensures Leads(txs + [last], |txs|) <==>
      forall j :: 0 <= j < |txs| && txs[j].signer == last.signer ==> last.nonce < txs[j].nonce
  {
    var all := txs + [last];
    assert all[|txs|] == last && forall j :: 0 <= j < |txs| ==> all[j] == txs[j];
  }

  /** Where the first nonce of an account comes from. */
  ghost predicate LedBy(b: Bundle, txs: seq<Transaction>, head: Option<Pool.BundleNonce>, a: Address) {
    match head
    case None => forall i :: 0 <= i < |txs| ==> txs[i].signer != a
    case Some(n) => exists i :: Leads(txs, i) && txs[i].signer == a && n == NonceFor(b, txs[i])
  }

  lemma {:induction false} LedBySnoc(b: Bundle, txs: seq<Transaction>, last: Transaction,
      head: Option<Pool.BundleNonce>, a: Address)
    requires LedBy(b, txs, head, a)
    ensures LedBy(b, txs + [last], Headed(head, NonceFor(b, last), a), a)
  {
    var all := txs + [last];
    assert all[|txs|] == last && forall j :: 0 <= j < |txs| ==> all[j] == txs[j];
    if head.Some? {
      var i :| Leads(txs, i) && txs[i].signer == a && head.value == NonceFor(b, txs[i]);
      LeadsSnoc(txs, last, i);
      if last.signer == a && last.nonce < txs[i].nonce {
        assert Leads(all, |txs|);
      } else {
        assert Leads(all, i);
      }
    } else if last.signer == a {
      assert Leads(all, |txs|);
    }
  }

  lemma {:induction false} SortedIsLed(b: Bundle, txs: seq<Transaction>, a: Address)
    ensures LedBy(b, txs, HeadOf(SortedNonces(b, txs), a), a)
    decreases |txs|
  {
    if txs != [] {
      var front, last := txs[..|txs| - 1], txs[|txs| - 1];
      SortedIsLed(b, front, a);
      SortedNoncesAscend(b, front);
      HeadOfInserted(SortedNonces(b, front), NonceFor(b, last), a);
      LedBySnoc(b, front, last, HeadOf(SortedNonces(b, front), a), a);
      assert txs == front + [last];
    }
  }

  lemma {:induction false} OnlyOneLeads(txs: seq<Transaction>, i: nat, j: nat)
    requires Leads(txs, i) && Leads(txs, j) && txs[i].signer == txs[j].signer
    ensures i == j
  {
  }

  lemma {:induction false} FiledIsLed(b: Bundle, a: Address)
    ensures DistinctAddresses(NoncesFor(b)) && LedBy(b, b.txs, HeadOf(NoncesFor(b), a), a)
  {
    SortedNoncesAscend(b, b.txs);
    SortedIsLed(b, b.txs, a);
    HeadOfDeduped(SortedNonces(b, b.txs), a);
    NoncesForMeaning(b);
  }

  /** A bundle is filed under exactly the nonces of the transactions that lead those of their signers. */
  lemma {:induction false} FiledAreLeading(b: Bundle, n: Pool.BundleNonce)
    ensures n in NoncesFor(b) <==> exists i :: Leads(b.txs, i) && n == NonceFor(b, b.txs[i])
  {
    FiledIsLed(b, n.address);
    OnlyHeads(NoncesFor(b), n);
    if i :| Leads(b.txs, i) && n == NonceFor(b, b.txs[i]) {
      var head := HeadOf(NoncesFor(b), n.address).value;
      var j :| Leads(b.txs, j) && b.txs[j].signer == n.address && head == NonceFor(b, b.txs[j]);
      OnlyOneLeads(b.txs, i, j);
    }
  }

  // ---------------------------------------------------------------------------------------
  // What readiness says about required transactions

  predicate IsRequired(b: Bundle, tx: Transaction) {
    !b.IsOptional(tx.hash)
  }

  /** No required transaction of the same signer has a lower nonce. */
  ghost predicate LowestRequired(b: Bundle, tx: Transaction) {
    && tx in b.txs && IsRequired(b, tx)
    && forall u :: u in b.txs && IsRequired(b, u) && u.signer == tx.signer ==> tx.nonce <= u.nonce
  }

  /** The first required transaction of every signer can run now. */
  ghost predicate RequiredCanStart(b: Bundle, onchain: map<Pool.Address, nat>) {
    forall tx :: LowestRequired(b, tx) ==> tx.signer in onchain && onchain[tx.signer] == tx.nonce
  }

  /** An optional transaction leads those of its signer, although one of them is required. */
  ghost predicate OptionalInPlace(b: Bundle, i: int, tx: Transaction) {
    && Leads(b.txs, i) && !IsRequired(b, b.txs[i])
    && tx in b.txs && IsRequired(b, tx) && tx.signer == b.txs[i].signer
  }

  function Filed(b: Bundle, id: Pool.OrderId, p: Pool.Priority): Pool.Order {
    Pool.Order(id, NoncesFor(b), p)
  }

  lemma {:induction false} LeadIndex(b: Bundle, tx: Transaction) returns (i: nat)
    requires tx in b.txs
    ensures Leads(b.txs, i) && b.txs[i].signer == tx.signer && b.txs[i].nonce <= tx.nonce
  {
    NoncesForMeaning(b);
    assert Covered(NoncesFor(b), NonceFor(b, tx));
    var n :| n in NoncesFor(b) && n.address == tx.signer && n.nonce <= tx.nonce;
    FiledAreLeading(b, n);
    i :| Leads(b.txs, i) && n == NonceFor(b, b.txs[i]);
  }

  lemma {:induction false} ReadyMeansStart(b: Bundle, onchain: map<Pool.Address, nat>, id: Pool.OrderId,
      p: Pool.Priority)
    requires Pool.Ready(Filed(b, id, p), onchain) && forall i, tx :: !OptionalInPlace(b, i, tx)
    ensures RequiredCanStart(b, onchain)
  {
    forall tx | LowestRequired(b, tx)
      ensures tx.signer in onchain && onchain[tx.signer] == tx.nonce
    {
      var i := LeadIndex(b, tx);
      assert !OptionalInPlace(b, i, tx);
      FiledAreLeading(b, NonceFor(b, b.txs[i]));
      assert b.txs[i] in b.txs;
    }
  }

  /** The filed nonces by account. */
  function FiledAt(nonces: seq<Pool.BundleNonce>): map<Pool.Address, nat> {
    if nonces == [] then map[]
    else FiledAt(nonces[1..])[nonces[0].address := nonces[0].nonce]
  }

  lemma {:induction false} FiledAtValues(nonces: seq<Pool.BundleNonce>, n: Pool.BundleNonce)
    requires n in nonces
    requires DistinctAddresses(nonces)
    ensures n.address in FiledAt(nonces) && FiledAt(nonces)[n.address] == n.nonce
    decreases |nonces|
  {
    if n != nonces[0] {
      var k :| 0 <= k < |nonces| && nonces[k] == n;
      assert nonces[1..][k - 1] == n;
      FiledAtValues(nonces[1..], n);
    }
  }

  lemma {:induction false} OptionalHides(b: Bundle, i: nat, tx: Transaction, id: Pool.OrderId, p: Pool.Priority)
    returns (onchain: map<Pool.Address, nat>)
    requires OptionalInPlace(b, i, tx)
    ensures Pool.Ready(Filed(b, id, p), onchain) && !RequiredCanStart(b, onchain)
    ensures tx.signer in onchain && onchain[tx.signer] > tx.nonce
  {
    var low := FirstRequired(b, tx);
    onchain := FiledAt(NoncesFor(b))[tx.signer := tx.nonce + 1];
    forall n | n in NoncesFor(b) && !n.optional
      ensures n.address in onchain && onchain[n.address] == n.nonce
    {
      FiledIsLed(b, n.address);
      FiledAtValues(NoncesFor(b), n);
      NotOptionalIsElsewhere(b, i, n);
    }
  }

  lemma {:induction false} NotOptionalIsElsewhere(b: Bundle, i: nat, n: Pool.BundleNonce)
    requires Leads(b.txs, i) && !IsRequired(b, b.txs[i]) && n in NoncesFor(b) && !n.optional
    ensures n.address != b.txs[i].signer
  {
    FiledAreLeading(b, n);
    var j :| Leads(b.txs, j) && n == NonceFor(b, b.txs[j]);
    if b.txs[j].signer == b.txs[i].signer {
      OnlyOneLeads(b.txs, i, j);
    }
  }

  lemma {:induction false} FirstRequired(b: Bundle, tx: Transaction) returns (low: Transaction)
    requires tx in b.txs && IsRequired(b, tx)
    ensures LowestRequired(b, low) && low.signer == tx.signer && low.nonce <= tx.nonce
    decreases tx.nonce
  {
    if u :| u in b.txs && IsRequired(b, u) && u.signer == tx.signer && u.nonce < tx.nonce {
      low := FirstRequired(b, u);
    } else {
      low := tx;
    }
  }

  /** The pool takes a bundle for ready only when the first required transaction of each of its signers can run, if
      and only if no optional transaction leads those of a signer that has a required one as well. */
  lemma {:induction false} ReadinessCoversRequiredIff(b: Bundle, id: Pool.OrderId, p: Pool.Priority)
    ensures (forall onchain: map<Pool.Address, nat> ::
               Pool.Ready(Filed(b, id, p), onchain) ==> RequiredCanStart(b, onchain))
            <==> forall i, tx :: !OptionalInPlace(b, i, tx)
  {
    if i, tx :| OptionalInPlace(b, i, tx) {
      var onchain := OptionalHides(b, i, tx, id, p);
    } else {
      forall onchain: map<Pool.Address, nat> | Pool.Ready(Filed(b, id, p), onchain)
        ensures RequiredCanStart(b, onchain)
      {
        ReadyMeansStart(b, onchain, id, p);
      }
    }
  }
}
