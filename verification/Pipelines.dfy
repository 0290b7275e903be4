/**
 The shape of a pipeline and of the paths that address its steps.

 A pipeline owns an optional prologue, an optional epilogue and a list of items; an item is
 a step or a nested pipeline that runs once or in a loop.  A path is the list of indices
 that leads from the top-level pipeline to an item: 0 is a prologue, the largest machine
 word is an epilogue, and item number i has index i + 1.
 */
module Pipelines {
  import opened Wrappers

  type StepId = nat
  type FactoryId = nat

  datatype Behavior = Once | Loop

  datatype Item = Step(step: StepId) | Nested(behavior: Behavior, pipeline: Pipeline)

  datatype Pipeline = Pipeline(
    prologue: Option<StepId>,
    epilogue: Option<StepId>,
    steps: seq<Item>,
    limits: Option<FactoryId>)
  {
    predicate IsEmpty() {
      prologue.None? && epilogue.None? && steps == []
    }
  }

  type Path = seq<nat>

  const PROLOGUE_INDEX: nat := 0
  const STEP0_INDEX: nat := PROLOGUE_INDEX + 1
  const EPILOGUE_INDEX: nat := 0xFFFF_FFFF_FFFF_FFFF

  /** A vector never holds so many items that an item's index could be taken for an
      epilogue's. */
  ghost predicate Fits(p: Pipeline) {
    && |p.steps| < EPILOGUE_INDEX - STEP0_INDEX
    && forall i :: 0 <= i < |p.steps| && p.steps[i].Nested? ==> Fits(p.steps[i].pipeline)
  }

  /** No pipeline nested in p, at any depth, is empty. */
  ghost predicate NoEmptyNested(p: Pipeline) {
    forall i :: 0 <= i < |p.steps| && p.steps[i].Nested? ==>
      !p.steps[i].pipeline.IsEmpty() && NoEmptyNested(p.steps[i].pipeline)
  }

  /** `index` addresses the nested pipeline `q` in `p`. */
  predicate NestedAt(p: Pipeline, index: nat, q: Pipeline) {
    && STEP0_INDEX <= index
    && index - STEP0_INDEX < |p.steps|
    && p.steps[index - STEP0_INDEX].Nested?
    && p.steps[index - STEP0_INDEX].pipeline == q
  }

  /** `index` addresses something that can be executed directly in `p`. */
  predicate StepAt(p: Pipeline, index: nat) {
    if index == PROLOGUE_INDEX then p.prologue.Some?
    else if index == EPILOGUE_INDEX then p.epilogue.Some?
    else index - STEP0_INDEX < |p.steps| && p.steps[index - STEP0_INDEX].Step?
  }

  /** The step instance behind an index for which `StepAt` holds. */
  function InstanceAt(p: Pipeline, index: nat): StepId
    requires StepAt(p, index)
  {
    if index == PROLOGUE_INDEX then p.prologue.value
    else if index == EPILOGUE_INDEX then p.epilogue.value
    else p.steps[index - STEP0_INDEX].step
  }

  /** `path` leads to an executable step of `p`. */
  predicate IsStepPath(p: Pipeline, path: Path)
    decreases |path|
  {
    if |path| == 0 then false
    else if |path| == 1 then StepAt(p, path[0])
    else
      && STEP0_INDEX <= path[0]
      && path[0] - STEP0_INDEX < |p.steps|
      && p.steps[path[0] - STEP0_INDEX].Nested?
      && IsStepPath(p.steps[path[0] - STEP0_INDEX].pipeline, path[1..])
  }

  /** The scope that a step runs in: the path of its enclosing pipeline. */
  function ScopeOf(step: Path): (scope: Path)
    requires step != []
  {
    step[..|step| - 1]
  }
}
