/**
 When a run is cut short.

 Entering an empty nested pipeline makes the navigator report that there is no next step, so
 everything that was still to come is lost.  `CanHalt` decides from the shape of the tree
 alone whether some run does that.  It is not enough to look for empty pipelines: one that
 sits behind a loop that no step can break out of is never reached.
 */
module EmptyPipelines {
  import opened Wrappers
  import opened Pipelines
  import opened Navigator
  import opened StructuredRuns
  import opened Refinement

  /** Some pass over the items gets past all items before item i. */
  ghost predicate CanReach(p: Pipeline, i: nat)
    requires i <= |p.steps|
    decreases p, 0
  {
    forall j :: 0 <= j < i && p.steps[j].Nested? ==> CanFinish(p.steps[j].pipeline, p.steps[j].behavior)
  }

  /** Some run breaks out of the body of the pipeline. */
  ghost predicate CanBreak(p: Pipeline)
    decreases p, 1
  {
    exists i :: 0 <= i < |p.steps| && p.steps[i].Step? && CanReach(p, i)
  }

  /** Some run gets to the end of the pipeline. */
  ghost predicate CanFinish(p: Pipeline, b: Behavior)
    decreases p, 2
  {
    && !p.IsEmpty()
    && (p.prologue.Some? || p.steps == [] || CanBreak(p) || (b.Once? && CanReach(p, |p.steps|)))
  }

  /** Some run enters an empty pipeline. */
  ghost predicate CanHalt(p: Pipeline) {
    p.IsEmpty() ||
    exists i :: 0 <= i < |p.steps| && p.steps[i].Nested? && CanReach(p, i) && CanHalt(p.steps[i].pipeline)
  }

  // Every run does only what the predicates allow.

  lemma {:induction false} ItemsStayWithin(p: Pipeline, pre: Path, i: nat, outs: seq<Output>)
    requires i <= |p.steps| && CanReach(p, i)
    ensures RunItems(p, pre, i, outs).status.Finished? ==> CanReach(p, |p.steps|)
    ensures RunItems(p, pre, i, outs).status.Broken? ==> CanBreak(p)
    ensures RunItems(p, pre, i, outs).status.Halted? ==> CanHalt(p)
    decreases |outs|, p, 0, |p.steps| - i
  {
    if i < |p.steps| {
      if p.steps[i].Nested? {
        PipelineStaysWithin(p.steps[i].pipeline, p.steps[i].behavior, pre + [i + STEP0_INDEX], outs);
      }
      var o := RunItem(p, pre, i, outs);
      if o.status.Finished? {
        ItemsStayWithin(p, pre, i + 1, o.status.rest);
      }
    }
  }

  lemma {:induction false} BodyStaysWithin(p: Pipeline, b: Behavior, pre: Path, outs: seq<Output>)
    requires p.steps != []
    ensures RunBody(p, b, pre, outs).status.Finished? ==> CanBreak(p) || (b.Once? && CanReach(p, |p.steps|))
    ensures RunBody(p, b, pre, outs).status.Halted? ==> CanHalt(p)
    decreases |outs|, p, 1, 0
  {
    ItemsStayWithin(p, pre, 0, outs);
    var o := RunItems(p, pre, 0, outs);
    if o.status.Finished? && b.Loop? {
      BodyStaysWithin(p, b, pre, o.status.rest);
    }
  }

  lemma {:induction false} PipelineStaysWithin(p: Pipeline, b: Behavior, pre: Path, outs: seq<Output>)
    ensures RunPipeline(p, b, pre, outs).status.Finished? ==> CanFinish(p, b)
    ensures RunPipeline(p, b, pre, outs).status.Halted? ==> CanHalt(p)
    decreases |outs|, p, 3, 0
  {
    if p.prologue.None? {
      RestStaysWithin(p, b, pre, outs);
    } else if outs != [] {
      RestStaysWithin(p, b, pre, outs[1..]);
    }
  }

  lemma {:induction false} RestStaysWithin(p: Pipeline, b: Behavior, pre: Path, outs: seq<Output>)
    ensures p.steps != [] && RunAfterPrologue(p, b, pre, outs).status.Finished? ==>
      CanBreak(p) || (b.Once? && CanReach(p, |p.steps|))
    ensures RunAfterPrologue(p, b, pre, outs).status.Halted? ==> CanHalt(p)
    decreases |outs|, p, 2, 0
  {
    if p.steps != [] {
      BodyStaysWithin(p, b, pre, outs);
    }
  }

  // Everything the predicates allow is done by some run, built back to front.

  lemma {:induction false} ReachRun(p: Pipeline, pre: Path, k: nat, i: nat, more: seq<Output>)
    returns (outs: seq<Output>)
    requires k <= i <= |p.steps| && CanReach(p, i)
    ensures RunItems(p, pre, k, outs).status == RunItems(p, pre, i, more).status
    decreases p, 0, i - k
  {
    if k == i {
      outs := more;
    } else {
      outs := ReachRun(p, pre, k + 1, i, more);
      if p.steps[k].Step? {
        var rest := outs;
        outs := [Ok] + outs;
        assert outs[1..] == rest;
      } else {
        outs := FinishRun(p.steps[k].pipeline, p.steps[k].behavior, pre + [k + STEP0_INDEX], outs);
      }
    }
  }

  lemma {:induction false} FinishRun(p: Pipeline, b: Behavior, pre: Path, more: seq<Output>) returns (outs: seq<Output>)
    requires CanFinish(p, b)
    ensures RunPipeline(p, b, pre, outs).status == Finished(more)
    decreases p, 1, 0
  {
    var tail := if p.epilogue.Some? then [Ok] + more else more;
    assert RunEpilogue(p, pre, tail).status == Finished(more) by {
      assert ([Ok] + more)[1..] == more;
    }
    if p.prologue.Some? {
      outs := [Break] + tail;
      assert outs[1..] == tail;
    } else if p.steps == [] {
      outs := tail;
    } else if CanBreak(p) {
      var i :| 0 <= i < |p.steps| && p.steps[i].Step? && CanReach(p, i);
      assert ([Break] + tail)[1..] == tail;
      outs := ReachRun(p, pre, 0, i, [Break] + tail);
      assert RunItem(p, pre, i, [Break] + tail).status == Broken(tail);
      assert RunItems(p, pre, 0, outs).status == Broken(tail);
    } else {
      outs := ReachRun(p, pre, 0, |p.steps|, tail);
      assert RunItems(p, pre, 0, outs).status == Finished(tail);
    }
    if p.prologue.None? {
      assert RunBody(p, b, pre, outs).status == Finished(tail);
      assert RunAfterPrologue(p, b, pre, outs).status == Finished(more);
    }
  }

  lemma {:induction false} HaltRun(p: Pipeline, b: Behavior, pre: Path) returns (outs: seq<Output>)
    requires CanHalt(p)
    ensures RunPipeline(p, b, pre, outs).status.Halted?
    decreases p, 2, 0
  {
    if p.IsEmpty() {
      outs := [];
    } else {
      var i :| 0 <= i < |p.steps| && p.steps[i].Nested? && CanReach(p, i) && CanHalt(p.steps[i].pipeline);
      outs := HaltRun(p.steps[i].pipeline, p.steps[i].behavior, pre + [i + STEP0_INDEX]);
      assert RunItem(p, pre, i, outs).status.Halted?;
      outs := ReachRun(p, pre, 0, i, outs);
      assert RunBody(p, b, pre, outs).status.Halted?;
      assert RunAfterPrologue(p, b, pre, outs).status.Halted?;
      if p.prologue.Some? {
        var rest := outs;
        outs := [Ok] + outs;
        assert outs[1..] == rest;
      }
    }
  }

  /** No run of a pipeline is cut short if and only if no empty pipeline can be reached in it. */
  lemma NeverCutShortIff(p: Pipeline)
    ensures (forall outs :: !RunPipeline(p, Once, [], outs).status.Halted?) <==> !CanHalt(p)
  {
    if CanHalt(p) {
      var outs := HaltRun(p, Once, []);
    } else {
      forall outs
        ensures !RunPipeline(p, Once, [], outs).status.Halted?
      {
        PipelineStaysWithin(p, Once, [], outs);
      }
    }
  }

  lemma {:induction false} NoEmptyNestedNeverHalts(p: Pipeline)
    requires !p.IsEmpty() && NoEmptyNested(p)
    ensures !CanHalt(p)
    decreases p
  {
    forall i | 0 <= i < |p.steps| && p.steps[i].Nested?
      ensures !CanHalt(p.steps[i].pipeline)
    {
      NoEmptyNestedNeverHalts(p.steps[i].pipeline);
    }
  }

  /** A step, an empty nested pipeline, another step: the second step never runs. */
  lemma EmptyPipelineSwallowsSuccessor()
    ensures var p := Pipeline(None, None, [Step(0), Nested(Once, Pipeline(None, None, [], None)), Step(1)], None);
            Fits(p) && FlatRun(Entrypoint(p), [Ok, Ok]) == Flat([[1]], Some([Ok]))
  {
    var p := Pipeline(None, None, [Step(0), Nested(Once, Pipeline(None, None, [], None)), Step(1)], None);
    var nav := Nav([1], [p]);
    assert Entrypoint(p) == Some(nav);
    assert ReplaceLeaf([1], 2) == [2];
    assert NextOk(nav) == Enter(Nav([2], [p])) == None;
    assert [Ok, Ok][1..] == [Ok];
  }
}
