/**
 Linear stretches of history.

 A checkpoint only knows its predecessor.  A span lists the checkpoints between two of them in
 chronological order; the history of a payload, its sealed part and its staging part are spans.
 */
module Spans {
  import opened Wrappers
  import opened Payload
  import opened Sequences

  type Span = seq<Checkpoint>

  /** The checkpoints from the ancestor `a` to `c`, both included, oldest first. */
  function PathFrom(a: Checkpoint, c: Checkpoint): (path: Span)
    requires IsAncestor(a, c)
    ensures path != [] && path[0] == a && path[|path| - 1] == c
  {
    if a == c then [c] else PathFrom(a, c.prev.value) + [c]
  }

  /** Each checkpoint of the span is the predecessor of the next one. */
  ghost predicate Linked(s: Span) {
    forall i :: 0 <= i < |s| - 1 ==> s[i + 1].prev == Some(s[i])
  }

  lemma {:induction false} PathIsLinked(a: Checkpoint, c: Checkpoint)
    requires IsAncestor(a, c) && WellFormed(c)
    ensures Linked(PathFrom(a, c)) && WellFormed(a)
    ensures a.depth <= c.depth && |PathFrom(a, c)| == c.depth - a.depth + 1
    decreases c
  {
    if a != c {
      PathIsLinked(a, c.prev.value);
    }
  }

  /** There is no other linked span between the two. */
  lemma {:induction false} LinkedSpanIsPath(s: Span)
    requires s != [] && Linked(s) && WellFormed(s[|s| - 1])
    ensures IsAncestor(s[0], s[|s| - 1]) && s == PathFrom(s[0], s[|s| - 1])
    decreases |s|
  {
    if |s| > 1 {
      var front, last := s[..|s| - 1], s[|s| - 1];
      assert s[|s| - 2 + 1].prev == Some(s[|s| - 2]);
      LinkedSpanIsPath(front);
      PathIsLinked(s[0], s[|s| - 2]);
      assert s == front + [last];
    }
  }

  /** Equally deep ancestors of one checkpoint are the same. */
  lemma {:induction false} AncestorAtDepth(a: Checkpoint, b: Checkpoint, c: Checkpoint)
    requires WellFormed(c) && IsAncestor(a, c) && IsAncestor(b, c) && a.depth == b.depth
    ensures a == b
    decreases c
  {
    PathIsLinked(a, c);
    PathIsLinked(b, c);
    if a != c && b != c {
      AncestorAtDepth(a, b, c.prev.value);
    } else if a == c && b != c {
      PathIsLinked(b, c.prev.value);
    } else if a != c {
      PathIsLinked(a, c.prev.value);
    }
  }

  function Related(a: Checkpoint, b: Checkpoint): Option<Span> {
    if IsAncestor(a, b) then Some(PathFrom(a, b))
    else if IsAncestor(b, a) then Some(PathFrom(b, a))
    else None
  }

  /** `Span::between`: the path between two checkpoints, if one is an ancestor of the other. */
  method Between(start: Checkpoint, end: Checkpoint) returns (span: Option<Span>)
    requires WellFormed(start) && WellFormed(end)
    ensures span == Related(start, end)
  {
    if start == end {
      return Some([start]);
    }
    var ancestor, descendant := end, start;
    if start.depth < end.depth {
      ancestor, descendant := start, end;
    }
    DeeperIsNoAncestor(descendant, ancestor);

    var checkpoints: Span := [descendant];
    var current := descendant;
    while current.prev.Some?
      invariant WellFormed(current) && current != ancestor && IsAncestor(current, descendant)
      invariant IsAncestor(ancestor, descendant) <==> IsAncestor(ancestor, current)
      invariant checkpoints == Reverse(PathFrom(current, descendant))
      decreases current
    {
      var prev := current.prev.value;
      if prev.depth < ancestor.depth {
        DeeperIsNoAncestor(ancestor, prev);
        return None;
      }
      PathPrepend(current, descendant);
      ReverseCons(prev, PathFrom(current, descendant));
      checkpoints := checkpoints + [prev];
      if prev == ancestor {
        ReverseReverse(PathFrom(prev, descendant));
        return Some(Reverse(checkpoints));
      }
      current := prev;
    }
    span := None;
  }

  lemma {:induction false} PathPrepend(a: Checkpoint, c: Checkpoint)
    requires WellFormed(c) && IsAncestor(a, c) && a.prev.Some?
    ensures IsAncestor(a.prev.value, c)
    ensures PathFrom(a.prev.value, c) == [a.prev.value] + PathFrom(a, c)
    decreases c
  {
    PathIsLinked(a, c);
    if a != c {
      PathPrepend(a, c.prev.value);
    }
  }

  lemma {:induction false} DeeperIsNoAncestor(a: Checkpoint, c: Checkpoint)
    requires WellFormed(c) && a != c && a.depth >= c.depth
    ensures !IsAncestor(a, c)
  {
    if IsAncestor(a, c) {
      PathIsLinked(a, c.prev.value);
    }
  }

  /** The order of the arguments does not matter. */
  lemma {:induction false} BetweenIsSymmetric(a: Checkpoint, b: Checkpoint)
    requires WellFormed(a) && WellFormed(b)
    ensures Related(a, b) == Related(b, a)
  {
    if a != b && IsAncestor(a, b) && IsAncestor(b, a) {
      PathIsLinked(a, b);
      PathIsLinked(b, a);
      DeeperIsNoAncestor(a, b);
    }
  }

  // ---------------------------------------------------------------------------------------
  // History

  function Root(c: Checkpoint): Checkpoint {
    if c.prev.None? then c else Root(c.prev.value)
  }

  method FindRoot(c: Checkpoint) returns (root: Checkpoint)
    ensures root == Root(c)
  {
    var current := c;
    while current.prev.Some?
      invariant Root(current) == Root(c)
      decreases current
    {
      current := current.prev.value;
    }
    root := current;
  }

  lemma {:induction false} RootIsAncestor(c: Checkpoint)
    requires WellFormed(c)
    ensures IsAncestor(Root(c), c) && Root(c).depth == 0 && Root(c).IsBarrier() && WellFormed(Root(c))
    ensures Root(c).block == c.block
    decreases c
  {
    if c.prev.Some? {
      RootIsAncestor(c.prev.value);
    }
  }

  /** All checkpoints of the payload, oldest first. */
  function History(c: Checkpoint): (h: Span)
    ensures h != [] && h[|h| - 1] == c
  {
    if c.prev.None? then [c] else History(c.prev.value) + [c]
  }

  lemma {:induction false} HistoryIsPathFromRoot(c: Checkpoint)
    requires WellFormed(c)
    ensures IsAncestor(Root(c), c) && History(c) == PathFrom(Root(c), c)
    ensures |History(c)| == c.depth + 1 && Linked(History(c)) && History(c)[0].IsBarrier()
    decreases c
  {
    RootIsAncestor(c);
    PathIsLinked(Root(c), c);
    if c.prev.Some? {
      HistoryIsPathFromRoot(c.prev.value);
    }
  }

  /** `history`: the expectation that root and checkpoint are related always holds. */
  method GetHistory(c: Checkpoint) returns (h: Span)
    requires WellFormed(c)
    ensures h == History(c)
  {
    var root := FindRoot(c);
    RootIsAncestor(c);
    HistoryIsPathFromRoot(c);
    BetweenIsSymmetric(c, root);
    var span := Between(c, root);
    h := span.value;
  }

  /** The position of the last barrier; there is always one in a history. */
  function LastBarrier(s: Span): (i: nat)
    requires exists k :: 0 <= k < |s| && s[k].IsBarrier()
    ensures i < |s| && s[i].IsBarrier()
    ensures forall k :: i < k < |s| ==> !s[k].IsBarrier()
  {
    if s[|s| - 1].IsBarrier() then |s| - 1
    else
      var k :| 0 <= k < |s| && s[k].IsBarrier();
      assert s[..|s| - 1][k].IsBarrier();
      LastBarrier(s[..|s| - 1])
  }

  ghost predicate HasBarrier(s: Span) {
    exists k :: 0 <= k < |s| && s[k].IsBarrier()
  }

  lemma {:induction false} HistoryHasBarrier(c: Checkpoint)
    requires WellFormed(c)
    ensures HasBarrier(History(c))
  {
    HistoryIsPathFromRoot(c);
    assert History(c)[0].IsBarrier();
  }

  /** From the last barrier on. */
  function Staging(c: Checkpoint): Span
    requires HasBarrier(History(c))
  {
    History(c)[LastBarrier(History(c))..]
  }

  /** Up to the last barrier. */
  function Sealed(c: Checkpoint): Span
    requires HasBarrier(History(c))
  {
    History(c)[..LastBarrier(History(c)) + 1]
  }

  /** Sealed and staging history overlap in the last barrier, and together they are the history. */
  lemma {:induction false} SealedAndStagingRebuildHistory(c: Checkpoint)
    requires WellFormed(c)
    ensures HasBarrier(History(c))
    ensures Sealed(c) != [] && Staging(c) != []
    ensures Sealed(c)[|Sealed(c)| - 1] == Staging(c)[0] && Staging(c)[0].IsBarrier()
    ensures forall i :: 0 < i < |Staging(c)| ==> !Staging(c)[i].IsBarrier()
    ensures Sealed(c) + Staging(c)[1..] == History(c)
  {
    HistoryHasBarrier(c);
    SplitAt(History(c), LastBarrier(History(c)));
  }

  lemma SplitAt<T>(s: seq<T>, i: nat)
    requires i < |s|
    ensures s[..i + 1][i] == s[i] && s[i..][0] == s[i] && s[..i + 1] + s[i..][1..] == s
    ensures forall k :: 0 <= k < |s[i..]| ==> s[i..][k] == s[i + k]
  {
  }

  /** Applying an order extends the staging history; placing a barrier seals everything. */
  lemma {:induction false} ApplyExtends(c: Checkpoint, next: Checkpoint)
    requires WellFormed(c) && WellFormed(next) && next.prev == Some(c)
    ensures HasBarrier(History(c)) && HasBarrier(History(next))
    ensures History(next) == History(c) + [next]
    ensures !next.IsBarrier() ==> Sealed(next) == Sealed(c) && Staging(next) == Staging(c) + [next]
    ensures next.IsBarrier() ==> Sealed(next) == History(next) && Staging(next) == [next]
  {
    HistoryHasBarrier(c);
    LastBarrierOfSnoc(History(c), next);
    if !next.IsBarrier() {
      SlicesOfSnoc(History(c), next, LastBarrier(History(c)));
    }
  }

  lemma {:induction false} LastBarrierOfSnoc(s: Span, c: Checkpoint)
    requires HasBarrier(s)
    ensures HasBarrier(s + [c])
    ensures LastBarrier(s + [c]) == if c.IsBarrier() then |s| else LastBarrier(s)
  {
    var all := s + [c];
    var i := LastBarrier(s);
    assert all[i] == s[i] && all[|s|] == c;
    if !c.IsBarrier() {
      assert forall k :: i < k < |all| ==> all[k] == if k < |s| then s[k] else c;
    }
  }

  lemma SlicesOfSnoc<T>(s: seq<T>, x: T, i: nat)
    requires i < |s|
    ensures (s + [x])[i..] == s[i..] + [x] && (s + [x])[..i + 1] == s[..i + 1]
  {
  }

  /** Transactions of a span, in payload order. */
  function TransactionsIn(s: Span): seq<Transaction> {
    if s == [] then [] else TransactionsIn(s[..|s| - 1]) + Transactions(s[|s| - 1])
  }

  function GasIn(s: Span): nat {
    if s == [] then 0 else GasIn(s[..|s| - 1]) + GasUsed(s[|s| - 1])
  }

  lemma {:induction false} TransactionsSnoc(s: Span, c: Checkpoint)
    ensures TransactionsIn(s + [c]) == TransactionsIn(s) + Transactions(c)
    ensures GasIn(s + [c]) == GasIn(s) + GasUsed(c)
  {
    assert (s + [c])[..|s|] == s;
  }

  lemma {:induction false} TransactionsConcat(s: Span, t: Span)
    ensures TransactionsIn(s + t) == TransactionsIn(s) + TransactionsIn(t)
    decreases |t|
  {
    if t == [] {
      assert s + t == s;
    } else {
      var front, last := t[..|t| - 1], t[|t| - 1];
      TransactionsConcat(s, front);
      TransactionsSnoc(s + front, last);
      assert s + t == (s + front) + [last];
      Associative(TransactionsIn(s), TransactionsIn(front), Transactions(last));
    }
  }
}
