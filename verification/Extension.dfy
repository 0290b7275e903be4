/**
 Payloads built on top of an earlier checkpoint by applying orders.

 Every step that rewrites the payload ends with such an extension of a checkpoint of its input, which is
 why none of them can change what the last barrier has sealed.
 */
module Extension {
  import opened Wrappers
  import opened Payload
  import opened Spans
  import opened BundleExecution

  /** What a step does with the payload. */
  datatype Outcome = Continue(payload: Checkpoint) | Stop(payload: Checkpoint) | Fail | Panic

  /** `c` is `base` with these orders applied, first to last. */
  ghost predicate Extends(evm: Evm, base: Checkpoint, orders: seq<Executable>, c: Checkpoint) {
    if orders == [] then c == base
    else
      && c.prev.Some?
      && Applies(evm, c.prev.value, orders[|orders| - 1], c)
      && Extends(evm, base, orders[..|orders| - 1], c.prev.value)
  }

  /** What every step that rewrites the payload does. */
  ghost predicate KeepsSealed(before: Checkpoint, after: Checkpoint) {
    && WellFormed(after) && HasBarrier(History(before)) && HasBarrier(History(after))
    && Sealed(after) == Sealed(before)
  }

  lemma {:induction false} ExtendsSnoc(evm: Evm, base: Checkpoint, orders: seq<Executable>, c: Checkpoint,
      e: Executable, next: Checkpoint)
    requires Extends(evm, base, orders, c) && Applies(evm, c, e, next)
    ensures Extends(evm, base, orders + [e], next)
  {
    assert (orders + [e])[..|orders|] == orders;
  }

  /** Applying orders keeps the sealed history and lengthens the staging history by one checkpoint each. */
  lemma {:induction false} ExtensionKeepsSealed(evm: Evm, base: Checkpoint, orders: seq<Executable>, c: Checkpoint)
    requires WellFormed(base) && Extends(evm, base, orders, c)
    ensures WellFormed(c) && c.block == base.block && c.depth == base.depth + |orders|
    ensures HasBarrier(History(base)) && HasBarrier(History(c))
    ensures Sealed(c) == Sealed(base)
    ensures |Staging(c)| == |Staging(base)| + |orders| && Staging(base) <= Staging(c)
    decreases |orders|
  {
    if orders == [] {
      HistoryHasBarrier(base);
    } else {
      ExtensionKeepsSealed(evm, base, orders[..|orders| - 1], c.prev.value);
      ApplyExtends(c.prev.value, c);
    }
  }

  /** Taking the newest order off. */
  lemma {:induction false} WithoutNewest(c: Checkpoint)
    requires WellFormed(c) && HasBarrier(History(c)) && |Staging(c)| > 1
    ensures !c.IsBarrier() && c.prev.Some? && WellFormed(c.prev.value) && HasBarrier(History(c.prev.value))
    ensures Sealed(c) == Sealed(c.prev.value) && Staging(c) == Staging(c.prev.value) + [c]
  {
    SealedAndStagingRebuildHistory(c);
    assert Staging(c)[|Staging(c)| - 1] == c;
    ApplyExtends(c.prev.value, c);
  }

  /** Every checkpoint that is not sealed, and the last barrier, have the same sealed history. */
  lemma {:induction false} StagedShareSealed(c: Checkpoint, i: nat)
    requires WellFormed(c) && HasBarrier(History(c)) && i < |Staging(c)|
    ensures var s := Staging(c)[i];
            && WellFormed(s) && s.block == c.block && HasBarrier(History(s))
            && Sealed(s) == Sealed(c) && Staging(s) == Staging(c)[..i + 1]
            && s.depth + |Staging(c)| == c.depth + i + 1
    decreases c
  {
    if i < |Staging(c)| - 1 {
      WithoutNewest(c);
      StagedShareSealed(c.prev.value, i);
      TakeOfSnoc(Staging(c.prev.value), c, i + 1);
    } else {
      LastOfDrop(History(c), LastBarrier(History(c)));
    }
  }

  lemma {:induction false} TakeOfSnoc<T>(s: seq<T>, x: T, n: nat)
    requires n <= |s|
    ensures (s + [x])[..n] == s[..n]
  {
  }

  lemma {:induction false} LastOfDrop<T>(s: seq<T>, n: nat)
    requires n < |s|
    ensures |s[n..]| > 0 && s[n..][|s[n..]| - 1] == s[|s| - 1] && s[n..][..|s[n..]|] == s[n..]
  {
  }

  /** No barrier among them. */
  ghost predicate AllOrders(s: Span) {
    forall i :: 0 <= i < |s| ==> !s[i].IsBarrier()
  }

  /** The orders that a span was built from. */
  ghost function Sources(s: Span): (orders: seq<Executable>)
    requires AllOrders(s)
    ensures |orders| == |s| && forall i :: 0 <= i < |s| ==> orders[i] == s[i].mutation.result.source
  {
    seq(|s|, i requires 0 <= i < |s| => s[i].mutation.result.source)
  }

  lemma {:induction false} SourcesSnoc(s: Span, i: nat)
    requires AllOrders(s) && i < |s|
    ensures AllOrders(s[..i]) && AllOrders(s[..i + 1])
    ensures Sources(s[..i + 1]) == Sources(s[..i]) + [s[i].mutation.result.source]
  {
  }

  /** The orders of the payload that are not sealed, in their order. */
  function Staged(c: Checkpoint): Span
    requires HasBarrier(History(c))
  {
    Staging(c)[1..]
  }

  /** What is not sealed. */
  lemma {:induction false} StagedAreOrders(c: Checkpoint)
    requires WellFormed(c)
    ensures HasBarrier(History(c)) && |Staging(c)| == |Staged(c)| + 1
    ensures AllOrders(Staged(c))
    ensures TransactionsIn(History(c)) == TransactionsIn(Sealed(c)) + TransactionsIn(Staged(c))
  {
    SealedAndStagingRebuildHistory(c);
    TransactionsConcat(Sealed(c), Staged(c));
  }
}
