/**
 The executor of a pipeline run.

 Between two steps the executor keeps only the path of the step.  Its methods are the
 transitions of its state machine; the steps themselves, block building and the job hooks
 are parameters.
 */
module Executor {
  import opened Wrappers
  import opened Pipelines
  import opened Navigator
  import opened StepPaths
  import opened StructuredRuns
  import opened Refinement
  import opened StepIteration
  import opened StepRuns
  import opened Limits
  import opened Scopes

  type Failure = nat

  /** What a step does before or after a job. */
  type Hook = (StepId, Limits) -> Option<Failure>

  type Payload = nat

  datatype ControlFlow = Fail(error: Failure) | BreakWith(payload: CheckpointId) | OkWith(payload: CheckpointId)

  datatype Cursor =
    | Initializing(checkpoint: CheckpointId)
    | BeforeStep(path: Path, input: CheckpointId)
    | StepInProgress(running: Path, step: StepId, input: CheckpointId, limits: Limits)
    | Finalizing(output: Result<Payload, Failure>)

  // ---------------------------------------------------------------------------------------
  // The navigator after a sequence of outputs

  function Reach(nav: Option<Nav>, outs: seq<Output>): (r: Option<Nav>)
    requires nav.Some? ==> AtStep(nav.value)
    ensures r.Some? ==> AtStep(r.value)
    decreases |outs|
  {
    if nav.None? || outs == [] then nav else Reach(NextStep(nav.value, outs[0]), outs[1..])
  }

  lemma {:induction false} ReachRoot(nav: Option<Nav>, outs: seq<Output>)
    requires nav.Some? ==> AtStep(nav.value)
    ensures Reach(nav, outs).Some? ==> nav.Some? && Reach(nav, outs).value.ancestors[0] == nav.value.ancestors[0]
    decreases |outs|
  {
    if nav.Some? && outs != [] {
      ReachRoot(NextStep(nav.value, outs[0]), outs[1..]);
    }
  }

  lemma {:induction false} ReachSnoc(nav: Option<Nav>, outs: seq<Output>, o: Output)
    requires nav.Some? ==> AtStep(nav.value)
    requires Reach(nav, outs).Some?
    ensures Reach(nav, outs + [o]) == NextStep(Reach(nav, outs).value, o)
    decreases |outs|
  {
    if outs == [] {
      assert [o][1..] == [];
    } else {
      assert (outs + [o])[1..] == outs[1..] + [o];
      ReachSnoc(NextStep(nav.value, outs[0]), outs[1..], o);
    }
  }

  /** One more output adds the step that it leads to, or ends the run. */
  lemma {:induction false} FlatRunSnoc(nav: Option<Nav>, outs: seq<Output>, o: Output)
    requires nav.Some? ==> AtStep(nav.value)
    requires Reach(nav, outs).Some?
    ensures FlatRun(nav, outs).left.None?
    ensures var next := NextStep(Reach(nav, outs).value, o);
            FlatRun(nav, outs + [o]) ==
            (if next.Some? then Flat(FlatRun(nav, outs).visited + [next.value.path], None)
             else Flat(FlatRun(nav, outs).visited, Some([])))
    decreases |outs|
  {
    if outs == [] {
      assert [o][1..] == [];
    } else {
      assert (outs + [o])[1..] == outs[1..] + [o];
      FlatRunSnoc(NextStep(nav.value, outs[0]), outs[1..], o);
    }
  }

  /** The step iterator lists exactly the paths of steps; each of them binds to a navigator that
      stands at that very step, and has a scope. */
  lemma {:induction false} ListedStepIsUsable(p: Pipeline, path: Path, root: Scope)
    requires Fits(p) && Mirrors(root, p)
    ensures path in Preorder(p, []) <==> IsStepPath(p, path)
    ensures IsStepPath(p, path) ==>
      && Enterable(path, p)
      && Resolve(path, p).Some? && Resolve(path, p).value.path == path && AtStep(Resolve(path, p).value)
      && Get(root, ScopeOf(path)).Some?
  {
    PreorderMembers(p, [], path);
    assert path[0..] == path;
    if IsStepPath(p, path) {
      StepPathsAreNavigable(path, p);
      ResolveAtStep(Nav(path, AncestorsOf(path, p).value));
      StepHasScope(root, p, path);
    }
  }

  /** The recursive interpreter, given these outputs, visits exactly these steps and then has nothing
      left to visit. */
  ghost predicate CompletedRun(p: Pipeline, outs: seq<Output>, visited: seq<Path>) {
    var o := RunPipeline(p, Once, [], outs);
    o.visited == visited && (o.status == Finished([]) || o.status == Halted([]))
  }

  /** One transition: the path kept by the executor recovers the navigator, and its next step is
      the one that the recursive interpreter visits next. */
  lemma {:induction false} OneStepOn(p: Pipeline, outs: seq<Output>, o: Output)
    requires Fits(p) && Reach(Entrypoint(p), outs).Some?
    ensures var current := Reach(Entrypoint(p), outs).value;
            var next := NextStep(current, o);
            && Enterable(current.path, p) && Resolve(current.path, p) == Some(current)
            && Reach(Entrypoint(p), outs + [o]) == next
            && (next.Some? ==> IsStepPath(p, next.value.path))
            && FlatRun(Entrypoint(p), outs + [o]).visited ==
                 FlatRun(Entrypoint(p), outs).visited + (if next.Some? then [next.value.path] else [])
            && (next.None? ==> CompletedRun(p, outs + [o], FlatRun(Entrypoint(p), outs).visited))
  {
    ReachRoot(Entrypoint(p), outs);
    ResolveAtStep(Reach(Entrypoint(p), outs).value);
    ReachSnoc(Entrypoint(p), outs, o);
    FlatRunSnoc(Entrypoint(p), outs, o);
    FlatRefinesStructured(p, outs + [o]);
    var next := NextStep(Reach(Entrypoint(p), outs).value, o);
    if next.Some? {
      AtStepIsStepPath(next.value);
    }
  }

  /** The first failure of a hook, one call after the other. */
  function FirstFailure(hook: Hook, calls: seq<HookCall>): Option<Failure> {
    if calls == [] then None
    else
      var failure := hook(calls[0].step, calls[0].limits);
      if failure.Some? then failure else FirstFailure(hook, calls[1..])
  }

  /** What comes of a hook on all steps of the pipeline. */
  function HookOutcome(p: Pipeline, root: Scope, hook: Hook): Option<Failure>
    requires Mirrors(root, p)
  {
    FirstFailure(hook, HookCalls(p, root))
  }

  /** A failing hook takes the place of the result. */
  function AfterHooks(failed: Option<Failure>, result: Result<Payload, Failure>): Result<Payload, Failure> {
    if failed.Some? then Result.Failure(failed.value) else result
  }

  /** The next path and those after it. */
  function Ahead<T>(next: Option<T>, rest: seq<T>): seq<T> {
    if next.Some? then [next.value] + rest else rest
  }

  /** The hook has been called on some of the steps without a failure, and those ahead are the others. */
  ghost predicate Calling(p: Pipeline, root: Scope, hook: Hook, called: seq<Path>, ahead: seq<Path>)
    requires Mirrors(root, p)
  {
    && called + ahead == Preorder(p, []) && |Preorder(p, [])| == |HookCalls(p, root)|
    && FirstFailure(hook, HookCalls(p, root)[|called|..]) == HookOutcome(p, root, hook)
  }

  lemma {:induction false} CallingFirst(p: Pipeline, root: Scope, hook: Hook)
    requires Fits(p) && Mirrors(root, p)
    ensures Calling(p, root, hook, [], Preorder(p, []))
    ensures var all := Preorder(p, []); all != [] ==> Ahead(Some(all[0]), all[1..]) == all
  {
    HookCallsAt(p, root, []);
    assert HookCalls(p, root)[0..] == HookCalls(p, root);
  }

  /** The next path leads to the step and the limits of the next call. */
  lemma {:induction false} CallingNext(p: Pipeline, root: Scope, hook: Hook, called: seq<Path>, path: Path,
      rest: seq<Path>)
    requires Fits(p) && Mirrors(root, p) && Calling(p, root, hook, called, Ahead(Some(path), rest))
    ensures |called| < |HookCalls(p, root)|
    ensures var call := HookCalls(p, root)[|called|];
            var failure := hook(call.step, call.limits);
            && IsStepPath(p, path) && StepOf(p, path) == call.step
            && Get(root, ScopeOf(path)).Some? && Get(root, ScopeOf(path)).value.limits == call.limits
            && (failure.Some? ==> HookOutcome(p, root, hook) == failure)
            && (failure.None? ==> Calling(p, root, hook, called + [path], rest))
    ensures rest != [] ==> Ahead(Some(rest[0]), rest[1..]) == rest
  {
    var calls, n, ahead := HookCalls(p, root), |called|, Ahead(Some(path), rest);
    assert ahead[0] == path && ahead[1..] == rest;
    assert called + ahead == called + [path] + rest;
    HookCallsAt(p, root, []);
    assert Preorder(p, [])[n] == path;
    assert CallAt(p, root, [], path, calls[n]) && path[0..] == path;
    assert calls[n..][0] == calls[n] && calls[n..][1..] == calls[n + 1..];
  }

  lemma {:induction false} CallingLast(p: Pipeline, root: Scope, hook: Hook, called: seq<Path>)
    requires Mirrors(root, p) && Calling(p, root, hook, called, [])
    ensures HookOutcome(p, root, hook).None? && called == Preorder(p, [])
  {
    assert called + [] == called;
  }

  /** Starting the step at the next path keeps to the run of the recursive interpreter. */
  lemma {:induction false} StartedIsExecuted(p: Pipeline, outs: seq<Output>, visited: seq<Path>,
      started: seq<StepId>, path: Path, step: StepId)
    requires Fits(p) && Read(p, [], visited, started)
    requires IsStepPath(p, path) && StepOf(p, path) == step
    requires RunPipeline(p, Once, [], outs).visited == visited + [path]
    ensures Read(p, [], visited + [path], started + [step])
    ensures started + [step] == ExecutePipeline(p, Once, outs).executed
  {
    assert path[0..] == path;
    ReadConcat(p, [], visited, [path], started, [step]);
    SamePipeline(p, Once, [], outs);
    ReadIsUnique(p, [], visited + [path], started + [step], ExecutePipeline(p, Once, outs).executed);
  }

  class PipelineExecutor {
    var cursor: Cursor
    const pipeline: Pipeline
    const scope: RootScope
    const factories: Factories

    /** The paths on which `before_job` was called. */
    ghost var prepared: seq<Path>
    /** The steps started so far, by path and by instance, and what the completed ones returned. */
    ghost var visited: seq<Path>
    ghost var started: seq<StepId>
    ghost var outs: seq<Output>

    ghost predicate Valid()
      reads this, scope
    {
      && Fits(pipeline)
      && scope.pipeline == pipeline
      && Read(pipeline, [], visited, started)
      && match cursor
         case Initializing(_) =>
           scope.Idle() && scope.current == [] && visited == [] && outs == [] && prepared == []
         case BeforeStep(path, _) =>
           && RunsAt(path)
           && FlatRun(Entrypoint(pipeline), outs).visited == visited + [path]
         case StepInProgress(path, _, _, _) =>
           && RunsAt(path)
           && FlatRun(Entrypoint(pipeline), outs).visited == visited
         case Finalizing(_) =>
           scope.Idle() || scope.Running()
    }

    /** The step at `path` is next or in progress. */
    ghost predicate RunsAt(path: Path)
      requires Fits(pipeline)
      reads this, scope
    {
      && Reach(Entrypoint(pipeline), outs).Some?
      && Reach(Entrypoint(pipeline), outs).value.path == path
      && IsStepPath(pipeline, path)
      && prepared == Preorder(pipeline, [])
      && scope.Running()
      && scope.current == if outs == [] then [] else ScopeOf(path)
    }

    constructor (pipeline: Pipeline, factories: Factories, checkpoint: CheckpointId, platform: Limits)
      requires Fits(pipeline)
      ensures Valid() && cursor == Initializing(checkpoint) && this.pipeline == pipeline
      ensures fresh(scope) && scope.platform == platform && this.factories == factories
      ensures scope.root == Build(pipeline, factories, checkpoint, platform) && scope.log == []
    {
      var s := new RootScope(pipeline, factories, checkpoint, platform);
      scope := s;
      this.pipeline := pipeline;
      this.factories := factories;
      cursor := Initializing(checkpoint);
      prepared, visited, started, outs := [], [], [], [];
    }

    /** Calls the hook on the step at the path. */
    method CallHook(path: Path, hook: Hook) returns (error: Option<Failure>)
      requires Fits(pipeline) && scope.pipeline == pipeline && scope.Valid()
      requires IsStepPath(pipeline, path)
      ensures Get(scope.root, ScopeOf(path)).Some?
      ensures error == hook(StepOf(pipeline, path), Get(scope.root, ScopeOf(path)).value.limits)
    {
      ListedStepIsUsable(pipeline, path, scope.root);
      InstanceIsStep(pipeline, path);
      var nav := BindNavigator(path, pipeline);
      var limits := scope.LimitsOf(path);
      error := hook(Instance(nav.value), limits.value);
    }

    method CallNext(hook: Hook, ghost called: seq<Path>, path: Path, ghost rest: seq<Path>)
      returns (error: Option<Failure>)
      requires Fits(pipeline) && scope.pipeline == pipeline && scope.Valid()
      requires Calling(pipeline, scope.root, hook, called, Ahead(Some(path), rest))
      ensures error.Some? ==> error == HookOutcome(pipeline, scope.root, hook)
      ensures error.None? ==> Calling(pipeline, scope.root, hook, called + [path], rest)
      ensures rest != [] ==> Ahead(Some(rest[0]), rest[1..]) == rest
    {
      CallingNext(pipeline, scope.root, hook, called, path, rest);
      error := CallHook(path, hook);
    }

    /** Calls a job hook on every step, in the order of the step iterator, until one fails.  That every
        path binds to a navigator at a step with limits is what the hook calls rely on. */
    method CallHooks(hook: Hook) returns (error: Option<Failure>, ghost called: seq<Path>)
      requires Fits(pipeline) && scope.pipeline == pipeline && scope.Valid()
      ensures error == HookOutcome(pipeline, scope.root, hook)
      ensures error.None? ==> called == Preorder(pipeline, [])
    {
      CallingFirst(pipeline, scope.root, hook);
      var steps := new StepPathIter(pipeline);
      called := [];
      var path := steps.Next();
      ghost var rest := steps.Rest();
      while path.Some?
        invariant steps.Valid() && fresh(steps) && rest == steps.Rest()
        invariant path.None? ==> rest == []
        invariant Calling(pipeline, scope.root, hook, called, Ahead(path, rest))
        decreases |rest|, path.Some?
      {
        error := CallNext(hook, called, path.value, rest);
        called := called + [path.value];
        if error.Some? {
          return;
        }
        path := steps.Next();
        rest := steps.Rest();
      }
      CallingLast(pipeline, scope.root, hook, called);
      error := None;
    }

    /** `before_job` on every step; then the first step, or straight to the end. */
    method Initialize(beforeJob: Hook, buildEmpty: Result<Payload, Failure>)
      requires Valid() && cursor.Initializing?
      modifies this, scope
      ensures Valid() && outs == [] && visited == [] && started == []
      ensures cursor.BeforeStep? || cursor.Finalizing?
      ensures cursor.BeforeStep? ==>
        && cursor.input == old(cursor).checkpoint
        && (IsActive(scope.root, ScopeOf(cursor.path)) <==> |cursor.path| == 1)
        && RootEntered(old(scope.root), scope.root, old(cursor).checkpoint)
      ensures cursor.BeforeStep? <==>
        old(HookOutcome(pipeline, scope.root, beforeJob)).None? && Entrypoint(pipeline).Some?
      ensures cursor.Finalizing? ==>
        && scope.Idle() && scope.root == old(scope.root)
        && cursor.output == AfterHooks(old(HookOutcome(pipeline, scope.root, beforeJob)), buildEmpty)
    {
      var checkpoint := cursor.checkpoint;
      var error;
      error, prepared := CallHooks(beforeJob);
      if error.Some? {
        cursor := Finalizing(Result.Failure(error.value));
        return;
      }
      var navigator := Entrypoint(pipeline);
      if navigator.None? {
        cursor := Finalizing(buildEmpty);
        return;
      }
      EnterFirst(navigator.value);
    }

    /** Only the root is active, with limits renewed from its own. */
    ghost predicate RootEntered(before: Scope, after: Scope, checkpoint: CheckpointId) {
      Renewed(before, after, factories, checkpoint, before.limits) && after.nested == before.nested
    }

    /** Enters the root scope, and the first step is next. */
    method EnterFirst(navigator: Nav)
      requires Fits(pipeline) && scope.pipeline == pipeline && scope.Idle() && scope.current == []
      requires visited == [] && started == [] && outs == [] && prepared == Preorder(pipeline, [])
      requires cursor.Initializing? && Entrypoint(pipeline) == Some(navigator)
      modifies this`cursor, scope
      ensures Valid() && cursor == BeforeStep(navigator.path, old(cursor).checkpoint)
      ensures IsActive(scope.root, ScopeOf(cursor.path)) <==> |cursor.path| == 1
      ensures RootEntered(old(scope.root), scope.root, old(cursor).checkpoint)
    {
      scope.Enter(factories, cursor.checkpoint);
      AtStepIsStepPath(navigator);
      StepHasScope(scope.root, pipeline, navigator.path);
      cursor := BeforeStep(navigator.path, cursor.checkpoint);
    }

    /** The pending step begins: its limits are looked up and it is bound to its instance.  Its
        `before_job` has been called, and it is the step that the recursive interpreter executes. */
    method StartStep()
      requires Valid() && cursor.BeforeStep?
      modifies this
      ensures Valid() && cursor.StepInProgress? && cursor.running == old(cursor).path
      ensures cursor.input == old(cursor).input
      ensures visited == old(visited) + [cursor.running] && outs == old(outs)
      ensures visited == RunPipeline(pipeline, Once, [], outs).visited
      ensures started == old(started) + [cursor.step] == ExecutePipeline(pipeline, Once, outs).executed
      ensures cursor.running in prepared
      ensures scope.LimitsAre(ScopeOf(cursor.running), cursor.limits)
      ensures outs != [] ==> forall around :: around <= ScopeOf(cursor.running) ==> IsActive(scope.root, around)
    {
      var path := cursor.path;
      ListedStepIsUsable(pipeline, path, scope.root);
      FlatRefinesStructured(pipeline, outs);
      InstanceIsStep(pipeline, path);
      var nav := BindNavigator(path, pipeline);
      var limits := scope.LimitsOf(path);
      forall around | outs != [] && around <= ScopeOf(path)
        ensures IsActive(scope.root, around)
      {
        PrefixHasScope(scope.root, ScopeOf(path), around);
      }
      cursor := StepInProgress(path, Instance(nav.value), cursor.input, limits.value);
      visited, started := visited + [path], started + [cursor.step];
      StartedIsExecuted(pipeline, outs, old(visited), old(started), path, cursor.step);
    }

    /** The running step has returned: the run fails, goes on with the next step, or is over. */
    method AdvanceCursor(output: ControlFlow, build: CheckpointId -> Result<Payload, Failure>)
      requires Valid() && cursor.StepInProgress?
      modifies this, scope
      ensures Valid() && visited == old(visited) && started == old(started)
      ensures output.Fail? ==> cursor == Finalizing(Result.Failure(output.error)) && outs == old(outs)
      ensures !output.Fail? ==>
        && outs == old(outs) + [if output.OkWith? then Ok else Break]
        && (cursor.BeforeStep? || cursor.Finalizing?)
        && (cursor.BeforeStep? ==> cursor.input == output.payload && scope.current == ScopeOf(cursor.path))
        && (cursor.Finalizing? ==> cursor.output == build(output.payload) && CompletedRun(pipeline, outs, visited))
        && (cursor.Finalizing? ==> started == ExecutePipeline(pipeline, Once, outs).executed)
      ensures scope.Running()
      ensures cursor.BeforeStep? ==>
        Switched(old(scope.root), scope.root, old(scope.current), ScopeOf(cursor.path), factories, output.payload)
      ensures cursor.Finalizing? ==> scope.root == old(scope.root)
    {
      if output.Fail? {
        cursor := Finalizing(Result.Failure(output.error));
        return;
      }
      var o := if output.OkWith? then Ok else Break;
      var next := FindNext(cursor.running, o);
      outs := outs + [o];
      if next.None? {
        SamePipeline(pipeline, Once, [], outs);
        ReadIsUnique(pipeline, [], visited, started, ExecutePipeline(pipeline, Once, outs).executed);
        cursor := Finalizing(build(output.payload));
        return;
      }
      MoveTo(next.value, output.payload);
    }

    /** The step after the one at `path`, which the path alone leads to. */
    method FindNext(path: Path, o: Output) returns (next: Option<Path>)
      requires Valid() && cursor.StepInProgress? && path == cursor.running
      ensures next.Some? ==>
        && Reach(Entrypoint(pipeline), outs + [o]).Some?
        && Reach(Entrypoint(pipeline), outs + [o]).value.path == next.value
        && IsStepPath(pipeline, next.value)
        && FlatRun(Entrypoint(pipeline), outs + [o]).visited == visited + [next.value]
      ensures next.None? ==> CompletedRun(pipeline, outs + [o], visited)
    {
      OneStepOn(pipeline, outs, o);
      var navigator := BindNavigator(path, pipeline);
      var step := NextStep(navigator.value, o);
      next := if step.Some? then Some(step.value.path) else None;
    }

    /** The scopes follow, and the step waits for its turn. */
    method MoveTo(path: Path, input: CheckpointId)
      requires Fits(pipeline) && scope.pipeline == pipeline && scope.Running()
      requires IsStepPath(pipeline, path) && prepared == Preorder(pipeline, [])
      requires outs != [] && Reach(Entrypoint(pipeline), outs).Some?
      requires Reach(Entrypoint(pipeline), outs).value.path == path
      requires FlatRun(Entrypoint(pipeline), outs).visited == visited + [path]
      requires Read(pipeline, [], visited, started)
      modifies this`cursor, scope
      ensures Valid() && cursor == BeforeStep(path, input)
      ensures scope.Running() && scope.current == ScopeOf(path)
      ensures Switched(old(scope.root), scope.root, old(scope.current), ScopeOf(path), factories, input)
    {
      scope.SwitchContext(path, factories, input);
      cursor := BeforeStep(path, input);
    }

    /** `after_job` on every step; then every scope is left.  A failing hook ends the job before that. */
    method Finish(afterJob: Hook) returns (output: Result<Payload, Failure>)
      requires Valid() && cursor.Finalizing?
      modifies scope
      ensures Valid()
      ensures output == AfterHooks(old(HookOutcome(pipeline, scope.root, afterJob)), cursor.output)
      ensures if old(HookOutcome(pipeline, scope.root, afterJob)).None? then
                scope.Idle() && AllLimitsKept(scope.root, old(scope.root))
              else scope.root == old(scope.root)
    {
      var error;
      ghost var called;
      error, called := CallHooks(afterJob);
      if error.Some? {
        return Result.Failure(error.value);
      }
      assert IsActive(scope.root, []) <==> scope.root.entered;
      if scope.root.entered {
        scope.Leave();
      }
      output := cursor.output;
    }
  }
}
