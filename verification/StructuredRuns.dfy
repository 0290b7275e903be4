/**
 What a pipeline run means.

 `RunPipeline` is a recursive interpreter over the tree: prologue, then the items once or
 again and again until a step breaks, then the epilogue, then whatever the parent does next.
 */
module StructuredRuns {
  import opened Wrappers
  import opened Pipelines

  /** What a step returned.  A failing step ends the run at once and needs no navigation. */
  datatype Output = Ok | Break

  /** How a (part of a) run ended: the part is complete, a step of it broke out of it, the
      outputs were used up while a step was running, or the run met an empty nested pipeline,
      after which nothing else is executed. */
  datatype Status =
    | Finished(rest: seq<Output>)
    | Broken(rest: seq<Output>)
    | Awaiting
    | Halted(rest: seq<Output>)

  datatype Outcome = Outcome(visited: seq<Path>, status: Status)

  function After(visited: seq<Path>, o: Outcome): Outcome {
    Outcome(visited + o.visited, o.status)
  }

  /** The outputs that are left when a part is over; each part uses up some of them. */
  ghost predicate Consumes(o: Outcome, outs: seq<Output>) {
    o.status.Finished? || o.status.Broken? ==> |o.status.rest| < |outs|
  }

  // ---------------------------------------------------------------------------------------
  // The recursive interpreter

  function RunStep(here: Path, outs: seq<Output>): Outcome {
    if outs == [] then Outcome([here], Awaiting)
    else if outs[0].Break? then Outcome([here], Broken(outs[1..]))
    else Outcome([here], Finished(outs[1..]))
  }

  function RunItem(p: Pipeline, pre: Path, i: nat, outs: seq<Output>): (o: Outcome)
    requires i < |p.steps|
    ensures Consumes(o, outs)
    decreases |outs|, p, 0, 0
  {
    var here := pre + [i + STEP0_INDEX];
    match p.steps[i]
    case Step(_) => RunStep(here, outs)
    case Nested(b, nested) => RunPipeline(nested, b, here, outs)
  }

  /** Items i, i + 1, ... of the pipeline, once. */
  function RunItems(p: Pipeline, pre: Path, i: nat, outs: seq<Output>): (o: Outcome)
    requires i <= |p.steps|
    ensures i < |p.steps| ==> Consumes(o, outs)
    ensures i == |p.steps| ==> o == Outcome([], Finished(outs))
    decreases |outs|, p, 1, |p.steps| - i
  {
    if i == |p.steps| then Outcome([], Finished(outs))
    else
      var o := RunItem(p, pre, i, outs);
      if o.status.Finished? then After(o.visited, RunItems(p, pre, i + 1, o.status.rest)) else o
  }

  /** The body of the pipeline: one pass over the items, or passes until a step breaks. */
  function RunBody(p: Pipeline, b: Behavior, pre: Path, outs: seq<Output>): (o: Outcome)
    ensures p.steps == [] ==> o == Outcome([], Finished(outs))
    ensures p.steps != [] ==> Consumes(o, outs)
    ensures !o.status.Broken?
    decreases |outs|, p, 2, 0
  {
    if p.steps == [] then Outcome([], Finished(outs))
    else
      var o := RunItems(p, pre, 0, outs);
      match o.status
      case Finished(rest) => if b.Loop? then After(o.visited, RunBody(p, b, pre, rest)) else o
      case Broken(rest) => Outcome(o.visited, Finished(rest))
      case _ => o
  }

  /** An epilogue that breaks is an epilogue that is over. */
  function RunEpilogue(p: Pipeline, pre: Path, outs: seq<Output>): (o: Outcome)
    ensures !o.status.Broken?
  {
    if p.epilogue.None? then Outcome([], Finished(outs))
    else
      var o := RunStep(pre + [EPILOGUE_INDEX], outs);
      if o.status.Broken? then Outcome(o.visited, Finished(o.status.rest)) else o
  }

  /** Body and epilogue; a prologue that breaks skips the body. */
  function RunAfterPrologue(p: Pipeline, b: Behavior, pre: Path, outs: seq<Output>): (o: Outcome)
    ensures !o.status.Broken?
    ensures p.steps != [] || p.epilogue.Some? ==> Consumes(o, outs)
    ensures o.status.Finished? ==> |o.status.rest| <= |outs|
    decreases |outs|, p, 3, 0
  {
    var o := RunBody(p, b, pre, outs);
    if o.status.Finished? then After(o.visited, RunEpilogue(p, pre, o.status.rest)) else o
  }

  function RunPipeline(p: Pipeline, b: Behavior, pre: Path, outs: seq<Output>): (o: Outcome)
    ensures Consumes(o, outs) && !o.status.Broken?
    decreases |outs|, p, 4, 0
  {
    if p.IsEmpty() then Outcome([], Halted(outs))
    else if p.prologue.None? then RunAfterPrologue(p, b, pre, outs)
    else
      var o := RunStep(pre + [PROLOGUE_INDEX], outs);
      match o.status
      case Finished(rest) => After(o.visited, RunAfterPrologue(p, b, pre, rest))
      case Broken(rest) => After(o.visited, RunEpilogue(p, pre, rest))
      case _ => o
  }
}
