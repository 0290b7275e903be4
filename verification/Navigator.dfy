/**
 The flat navigator.

 A navigator is a path together with the pipelines it passes through, outermost first.  The
 functions below move it to the next step to run.  Their preconditions are exactly the
 situations in which no `expect`, `assert!` or `unreachable!` of the original fires; `AtStep` is the
 invariant under which all of them hold, and every public move re-establishes it.
 */
module Navigator {
  import opened Wrappers
  import opened Pipelines

  datatype Nav = Nav(path: Path, ancestors: seq<Pipeline>)

  function Last<T>(s: seq<T>): T
    requires s != []
  {
    s[|s| - 1]
  }

  function ReplaceLeaf(path: Path, leaf: nat): Path
    requires path != []
  {
    path[..|path| - 1] + [leaf]
  }

  /** Each pipeline on the way is the item that the path selects in the one before it. */
  ghost predicate Chain(path: Path, ancestors: seq<Pipeline>) {
    && |path| == |ancestors| > 0
    && (forall k :: 0 <= k < |ancestors| ==> Fits(ancestors[k]))
    && forall k :: 0 <= k < |ancestors| - 1 ==> NestedAt(ancestors[k], path[k], ancestors[k + 1])
  }

  /** The navigator points at a step that exists, so that `Instance` cannot fail. */
  ghost predicate AtStep(nav: Nav) {
    && Chain(nav.path, nav.ancestors)
    && StepAt(Last(nav.ancestors), Last(nav.path))
  }

  predicate IsPrologue(path: Path)
    requires path != []
  {
    Last(path) == PROLOGUE_INDEX
  }

  predicate IsEpilogue(path: Path)
    requires path != []
  {
    Last(path) == EPILOGUE_INDEX
  }

  function Instance(nav: Nav): StepId
    requires AtStep(nav)
  {
    InstanceAt(Last(nav.ancestors), Last(nav.path))
  }

  function Join(nav: Nav, other: Nav): Nav {
    Nav(nav.path + other.path, nav.ancestors + other.ancestors)
  }

  /** Digs from the item that the navigator points at down to its first executable step.
      The second precondition is the assertion that the original makes about a prologue or
      epilogue path. */
  function Enter(nav: Nav): (r: Option<Nav>)
    requires Chain(nav.path, nav.ancestors)
    requires IsPrologue(nav.path) || IsEpilogue(nav.path) ==>
      Last(nav.ancestors).prologue.Some? || Last(nav.ancestors).epilogue.Some?
    ensures r.Some? ==> Chain(r.value.path, r.value.ancestors)
    ensures r.Some? ==> nav.path <= r.value.path && nav.ancestors <= r.value.ancestors
    ensures r.Some? && (IsPrologue(nav.path) || IsEpilogue(nav.path) ==> StepAt(Last(nav.ancestors), Last(nav.path)))
            ==> AtStep(r.value)
    decreases Last(nav.ancestors), 0
  {
    var enclosing := Last(nav.ancestors);
    if IsPrologue(nav.path) || IsEpilogue(nav.path) then
      Some(nav)
    else
      var index := Last(nav.path) - STEP0_INDEX;
      if index >= |enclosing.steps| then
        None
      else
        match enclosing.steps[index]
        case Step(_) => Some(nav)
        case Nested(_, nested) =>
          match Entrypoint(nested)
          case None => None
          case Some(inner) =>
            ChainJoin(nav, inner);
            Some(Join(nav, inner))
  }

  lemma ChainJoin(nav: Nav, inner: Nav)
    requires Chain(nav.path, nav.ancestors) && Chain(inner.path, inner.ancestors)
    requires NestedAt(Last(nav.ancestors), Last(nav.path), inner.ancestors[0])
    ensures Chain(Join(nav, inner).path, Join(nav, inner).ancestors)
    ensures Last(Join(nav, inner).path) == Last(inner.path)
    ensures Last(Join(nav, inner).ancestors) == Last(inner.ancestors)
  {
  }

  /** The first executable step of a pipeline. */
  function Entrypoint(pipeline: Pipeline): (r: Option<Nav>)
    requires Fits(pipeline)
    ensures r.Some? ==> AtStep(r.value) && r.value.ancestors[0] == pipeline
    decreases pipeline, 1
  {
    if pipeline.IsEmpty() then None
    else if pipeline.prologue.Some? then Some(Nav([PROLOGUE_INDEX], [pipeline]))
    else if pipeline.steps == [] then
      if pipeline.epilogue.Some? then Some(Nav([EPILOGUE_INDEX], [pipeline])) else None
    else Enter(Nav([STEP0_INDEX], [pipeline]))
  }

  /** How the pipeline that encloses the current item is repeated.  The top-level pipeline
      runs once; for every other one the grandparent knows. */
  function BehaviorOf(nav: Nav): Behavior
    requires Chain(nav.path, nav.ancestors)
  {
    if |nav.path| == 1 then Once
    else
      var n := |nav.path|;
      assert NestedAt(nav.ancestors[n - 2], nav.path[n - 2], nav.ancestors[n - 1]);
      nav.ancestors[n - 2].steps[nav.path[n - 2] - STEP0_INDEX].behavior
  }

  /** The pipeline that encloses the current item, as an item of its own parent. */
  function Ancestor(nav: Nav): (r: Option<Nav>)
    requires Chain(nav.path, nav.ancestors)
    ensures r.Some? <==> |nav.path| > 1
    ensures r.Some? ==> Chain(r.value.path, r.value.ancestors) && |r.value.path| == |nav.path| - 1
    ensures r.Some? ==> r.value.ancestors[0] == nav.ancestors[0]
  {
    if |nav.path| == 1 then None
    else
      var n := |nav.path|;
      assert NestedAt(nav.ancestors[n - 2], nav.path[n - 2], nav.ancestors[n - 1]);
      Some(Nav(nav.path[..n - 1], nav.ancestors[..n - 1]))
  }

  /** The step that follows when the loop of the enclosing pipeline is over. */
  function AfterLoop(nav: Nav): (r: Option<Nav>)
    requires Chain(nav.path, nav.ancestors)
    ensures r.Some? ==> AtStep(r.value) && r.value.ancestors[0] == nav.ancestors[0]
    decreases |nav.path|, 1
  {
    if Last(nav.ancestors).epilogue.Some? then
      Some(Nav(ReplaceLeaf(nav.path, EPILOGUE_INDEX), nav.ancestors))
    else
      NextInParent(nav)
  }

  /** The step that follows the prologue of the enclosing pipeline. */
  function AfterPrologue(nav: Nav): (r: Option<Nav>)
    requires Chain(nav.path, nav.ancestors)
    ensures r.Some? ==> AtStep(r.value) && r.value.ancestors[0] == nav.ancestors[0]
    decreases |nav.path|, 2
  {
    if Last(nav.ancestors).steps == [] then AfterLoop(nav)
    else Enter(Nav(ReplaceLeaf(nav.path, STEP0_INDEX), nav.ancestors))
  }

  /** The step that follows the enclosing pipeline in its parent. */
  function NextInParent(nav: Nav): (r: Option<Nav>)
    requires Chain(nav.path, nav.ancestors)
    ensures r.Some? ==> AtStep(r.value) && r.value.ancestors[0] == nav.ancestors[0]
    decreases |nav.path|, 0
  {
    match Ancestor(nav)
    case None => None
    case Some(up) =>
      assert NestedAt(Last(up.ancestors), Last(up.path), Last(nav.ancestors));
      var index := Last(up.path) - STEP0_INDEX;
      if index + 1 >= |Last(up.ancestors).steps| then
        match BehaviorOf(up)
        case Loop => AfterPrologue(up)
        case Once => AfterLoop(up)
      else
        Enter(Nav(ReplaceLeaf(up.path, Last(up.path) + 1), up.ancestors))
  }

  /** The next step after the current one returned `ControlFlow::Ok`. */
  function NextOk(nav: Nav): (r: Option<Nav>)
    requires AtStep(nav)
    ensures r.Some? ==> AtStep(r.value) && r.value.ancestors[0] == nav.ancestors[0]
  {
    if IsEpilogue(nav.path) then NextInParent(nav)
    else if IsPrologue(nav.path) then AfterPrologue(nav)
    else
      var position := Last(nav.path) - STEP0_INDEX;
      var isLast := position + 1 >= |Last(nav.ancestors).steps|;
      if isLast then
        match BehaviorOf(nav)
        case Loop => Enter(Nav(ReplaceLeaf(nav.path, STEP0_INDEX), nav.ancestors))
        case Once => AfterLoop(nav)
      else
        Enter(Nav(ReplaceLeaf(nav.path, Last(nav.path) + 1), nav.ancestors))
  }

  /** The next step after the current one returned `ControlFlow::Break`. */
  function NextBreak(nav: Nav): (r: Option<Nav>)
    requires AtStep(nav)
    ensures r.Some? ==> AtStep(r.value) && r.value.ancestors[0] == nav.ancestors[0]
  {
    if IsEpilogue(nav.path) then NextInParent(nav) else AfterLoop(nav)
  }
}
