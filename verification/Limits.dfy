/**
 Payload limits and how an inner scope's limits are clamped by its enclosing scope's.
 */
module Limits {
  import opened Wrappers

  datatype BlobParams = BlobParams(
    targetBlobCount: nat,
    maxBlobCount: nat,
    updateFraction: nat,
    minBlobFee: nat,
    maxBlobsPerTx: nat,
    blobBaseCost: nat)

  datatype Limits = Limits(
    gasLimit: nat,
    blobParams: Option<BlobParams>,
    maxTransactions: Option<nat>,
    deadline: Option<nat>)

  function Min(a: nat, b: nat): nat {
    if a <= b then a else b
  }

  /** Rust's `Option::min`: None is the smallest value. */
  function OptionMin(a: Option<nat>, b: Option<nat>): Option<nat> {
    if a.Some? && b.Some? then Some(Min(a.value, b.value)) else None
  }

  function ClampBlobs(a: BlobParams, b: BlobParams): BlobParams {
    BlobParams(
      Min(a.targetBlobCount, b.targetBlobCount),
      Min(a.maxBlobCount, b.maxBlobCount),
      Min(a.updateFraction, b.updateFraction),
      Min(a.minBlobFee, b.minBlobFee),
      Min(a.maxBlobsPerTx, b.maxBlobsPerTx),
      Min(a.blobBaseCost, b.blobBaseCost))
  }

  function Clamp(a: Limits, b: Limits): Limits {
    Limits(
      Min(a.gasLimit, b.gasLimit),
      if a.blobParams.Some? && b.blobParams.Some? then Some(ClampBlobs(a.blobParams.value, b.blobParams.value))
      else if a.blobParams.Some? then a.blobParams
      else b.blobParams,
      OptionMin(a.maxTransactions, b.maxTransactions),
      OptionMin(a.deadline, b.deadline))
  }

  predicate BlobsNoLooser(a: BlobParams, b: BlobParams) {
    && a.targetBlobCount <= b.targetBlobCount
    && a.maxBlobCount <= b.maxBlobCount
    && a.updateFraction <= b.updateFraction
    && a.minBlobFee <= b.minBlobFee
    && a.maxBlobsPerTx <= b.maxBlobsPerTx
    && a.blobBaseCost <= b.blobBaseCost
  }

  /** The gas and blob limits of `a` allow nothing that those of `b` forbid; no blob
      parameters mean no blob limit. */
  predicate NoLooser(a: Limits, b: Limits) {
    && a.gasLimit <= b.gasLimit
    && (b.blobParams.Some? ==> a.blobParams.Some? && BlobsNoLooser(a.blobParams.value, b.blobParams.value))
  }

  /** A cap that allows nothing that another cap forbids; no cap means unlimited. */
  predicate CapNoLooser(a: Option<nat>, b: Option<nat>) {
    b.Some? ==> a.Some? && a.value <= b.value
  }

  /** For gas and blobs, clamping yields exactly the loosest limits within both arguments. */
  lemma ClampIsMeet(a: Limits, b: Limits, c: Limits)
    ensures NoLooser(c, Clamp(a, b)) <==> NoLooser(c, a) && NoLooser(c, b)
  {
    if a.blobParams.Some? && b.blobParams.Some? && c.blobParams.Some? {
      var x, y, z := a.blobParams.value, b.blobParams.value, c.blobParams.value;
      assert BlobsNoLooser(z, ClampBlobs(x, y)) <==> BlobsNoLooser(z, x) && BlobsNoLooser(z, y);
    }
  }

  lemma NoLooserTransitive(a: Limits, b: Limits, c: Limits)
    requires NoLooser(a, b) && NoLooser(b, c)
    ensures NoLooser(a, c)
  {
  }

  /** The limits that clamping combines like options, where no value counts as the smallest. */
  datatype CapKind = TransactionCap | Deadline

  function Cap(kind: CapKind, limits: Limits): Option<nat> {
    match kind
    case TransactionCap => limits.maxTransactions
    case Deadline => limits.deadline
  }

  /** Clamping keeps to the cap of one side if and only if that side has none or the other side has one too.  So it
      keeps to both if and only if both sides have one or neither has. */
  lemma ClampKeepsCapsIff(kind: CapKind, a: Limits, b: Limits)
    ensures CapNoLooser(Cap(kind, Clamp(a, b)), Cap(kind, a)) <==> Cap(kind, a).None? || Cap(kind, b).Some?
    ensures CapNoLooser(Cap(kind, Clamp(a, b)), Cap(kind, b)) <==> Cap(kind, b).None? || Cap(kind, a).Some?
    ensures Cap(kind, Clamp(a, b)).Some? <==> Cap(kind, a).Some? && Cap(kind, b).Some?
    ensures (forall x :: CapNoLooser(x, Cap(kind, Clamp(a, b))) <==>
                         CapNoLooser(x, Cap(kind, a)) && CapNoLooser(x, Cap(kind, b))) <==>
            (Cap(kind, a).Some? <==> Cap(kind, b).Some?)
  {
    if Cap(kind, a).Some? != Cap(kind, b).Some? {
      assert CapNoLooser(None, Cap(kind, Clamp(a, b)));
    }
  }
}
