/**
 The gas of a payload: that of every result recorded in it, whether the transaction succeeded or not.
 */
module Gas {
  import opened Payload
  import opened Spans
  import opened Sequences

  function TotalGas(results: seq<TxResult>): nat {
    if results == [] then 0 else results[0].gasUsed + TotalGas(results[1..])
  }

  function ResultsOf(c: Checkpoint): seq<TxResult> {
    if c.mutation.Executed? then c.mutation.result.results else []
  }

  /** The results recorded in a span, oldest first. */
  function ResultsIn(s: Span): seq<TxResult> {
    if s == [] then [] else ResultsOf(s[0]) + ResultsIn(s[1..])
  }

  lemma {:induction false} TotalGasConcat(a: seq<TxResult>, b: seq<TxResult>)
    ensures TotalGas(a + b) == TotalGas(a) + TotalGas(b)
    decreases |a|
  {
    if a == [] {
      assert a + b == b;
    } else {
      TotalGasConcat(a[1..], b);
      assert (a + b)[1..] == a[1..] + b;
    }
  }

  lemma {:induction false} TotalGasOne(r: TxResult)
    ensures TotalGas([r]) == r.gasUsed
  {
    assert [r][1..] == [];
  }

  /** What one checkpoint is said to use. */
  lemma {:induction false} SumGasIsTotal(results: seq<TxResult>)
    ensures SumGas(results) == TotalGas(results)
    decreases |results|
  {
    if results != [] {
      var front, last := results[..|results| - 1], results[|results| - 1];
      SumGasIsTotal(front);
      TotalGasConcat(front, [last]);
      TotalGasOne(last);
      assert results == front + [last];
    }
  }

  /** The gas of one result is its own, and that of two lists is the sum of theirs. */
  lemma {:induction false} SumGasMeaning(r: TxResult, a: seq<TxResult>, b: seq<TxResult>)
    ensures SumGas([r]) == r.gasUsed && SumGas(a + b) == SumGas(a) + SumGas(b)
  {
    SumGasIsTotal([r]);
    TotalGasOne(r);
    SumGasIsTotal(a);
    SumGasIsTotal(b);
    SumGasIsTotal(a + b);
    TotalGasConcat(a, b);
  }

  lemma {:induction false} ResultsConcat(s: Span, t: Span)
    ensures ResultsIn(s + t) == ResultsIn(s) + ResultsIn(t)
    decreases |s|
  {
    if s == [] {
      assert s + t == t && [] + ResultsIn(t) == ResultsIn(t);
    } else {
      ResultsConcat(s[1..], t);
      assert (s + t)[1..] == s[1..] + t;
      Associative(ResultsOf(s[0]), ResultsIn(s[1..]), ResultsIn(t));
    }
  }

  lemma {:induction false} ResultsSnoc(s: Span, c: Checkpoint)
    ensures ResultsIn(s + [c]) == ResultsIn(s) + ResultsOf(c)
  {
    ResultsConcat(s, [c]);
    assert [c][1..] == [] && ResultsOf(c) + [] == ResultsOf(c);
  }

  lemma {:induction false} GasUsedIsTotal(c: Checkpoint)
    ensures GasUsed(c) == TotalGas(ResultsOf(c))
  {
    SumGasIsTotal(ResultsOf(c));
  }

  /** What a span is said to use is the gas of all results recorded in it. */
  lemma {:induction false} GasInIsTotal(s: Span)
    ensures GasIn(s) == TotalGas(ResultsIn(s))
    decreases |s|
  {
    if s != [] {
      var front, last := s[..|s| - 1], s[|s| - 1];
      GasInIsTotal(front);
      ResultsSnoc(front, last);
      TotalGasConcat(ResultsIn(front), ResultsOf(last));
      GasUsedIsTotal(last);
      assert s == front + [last];
    }
  }
}
