/**
 The steps themselves.

 The executor addresses steps by paths.  Here the recursive interpreter, and the order in which job hooks are called,
 read the steps off the tree of pipelines while they walk it, without any path.
 */
module StepRuns {
  import opened Wrappers
  import opened Pipelines
  import opened Navigator
  import opened StepPaths
  import opened StructuredRuns
  import opened StepIteration
  import opened Limits
  import opened Scopes

  // ---------------------------------------------------------------------------------------
  // The recursive interpreter

  /** The steps executed, and how the part of the run ended. */
  datatype Steps = Steps(executed: seq<StepId>, status: Status)

  function Then(executed: seq<StepId>, o: Steps): Steps {
    Steps(executed + o.executed, o.status)
  }

  ghost predicate UsesUp(o: Steps, outs: seq<Output>) {
    o.status.Finished? || o.status.Broken? ==> |o.status.rest| < |outs|
  }

  function ExecuteStep(step: StepId, outs: seq<Output>): Steps {
    if outs == [] then Steps([step], Awaiting)
    else if outs[0].Break? then Steps([step], Broken(outs[1..]))
    else Steps([step], Finished(outs[1..]))
  }

  function ExecuteItem(item: Item, outs: seq<Output>): (o: Steps)
    ensures UsesUp(o, outs)
    decreases |outs|, item, 0, 0
  {
    match item
    case Step(step) => ExecuteStep(step, outs)
    case Nested(b, nested) => ExecutePipeline(nested, b, outs)
  }

  /** The items from the i-th on, once. */
  function ExecuteItems(p: Pipeline, i: nat, outs: seq<Output>): (o: Steps)
    requires i <= |p.steps|
    ensures i < |p.steps| ==> UsesUp(o, outs)
    ensures i == |p.steps| ==> o == Steps([], Finished(outs))
    decreases |outs|, p, 1, |p.steps| - i
  {
    if i == |p.steps| then Steps([], Finished(outs))
    else
      var o := ExecuteItem(p.steps[i], outs);
      if o.status.Finished? then Then(o.executed, ExecuteItems(p, i + 1, o.status.rest)) else o
  }

  function ExecuteBody(p: Pipeline, b: Behavior, outs: seq<Output>): (o: Steps)
    ensures p.steps == [] ==> o == Steps([], Finished(outs))
    ensures p.steps != [] ==> UsesUp(o, outs)
    ensures !o.status.Broken?
    decreases |outs|, p, 2, 0
  {
    if p.steps == [] then Steps([], Finished(outs))
    else
      var o := ExecuteItems(p, 0, outs);
      match o.status
      case Finished(rest) => if b.Loop? then Then(o.executed, ExecuteBody(p, b, rest)) else o
      case Broken(rest) => Steps(o.executed, Finished(rest))
      case _ => o
  }

  function ExecuteEpilogue(p: Pipeline, outs: seq<Output>): (o: Steps)
    ensures !o.status.Broken?
  {
    if p.epilogue.None? then Steps([], Finished(outs))
    else
      var o := ExecuteStep(p.epilogue.value, outs);
      if o.status.Broken? then Steps(o.executed, Finished(o.status.rest)) else o
  }

  function ExecuteAfterPrologue(p: Pipeline, b: Behavior, outs: seq<Output>): (o: Steps)
    ensures !o.status.Broken?
    ensures p.steps != [] || p.epilogue.Some? ==> UsesUp(o, outs)
    ensures o.status.Finished? ==> |o.status.rest| <= |outs|
    decreases |outs|, p, 3, 0
  {
    var o := ExecuteBody(p, b, outs);
    if o.status.Finished? then Then(o.executed, ExecuteEpilogue(p, o.status.rest)) else o
  }

  /** Prologue, items and epilogue; an empty pipeline ends the run. */
  function ExecutePipeline(p: Pipeline, b: Behavior, outs: seq<Output>): (o: Steps)
    ensures UsesUp(o, outs) && !o.status.Broken?
    decreases |outs|, p, 4, 0
  {
    if p.IsEmpty() then Steps([], Halted(outs))
    else if p.prologue.None? then ExecuteAfterPrologue(p, b, outs)
    else
      var o := ExecuteStep(p.prologue.value, outs);
      match o.status
      case Finished(rest) => Then(o.executed, ExecuteAfterPrologue(p, b, rest))
      case Broken(rest) => Then(o.executed, ExecuteEpilogue(p, rest))
      case _ => o
  }

  // ---------------------------------------------------------------------------------------
  // Steps at paths

  /** The step that a path leads to. */
  function StepOf(p: Pipeline, path: Path): StepId
    requires IsStepPath(p, path)
    decreases |path|
  {
    if |path| == 1 then InstanceAt(p, path[0])
    else StepOf(p.steps[path[0] - STEP0_INDEX].pipeline, path[1..])
  }

  /** The navigator bound to a path has the step at that path as its instance. */
  lemma {:induction false} InstanceIsStep(p: Pipeline, path: Path)
    requires Fits(p) && IsStepPath(p, path)
    ensures AncestorsOf(path, p).Some? && AtStep(Nav(path, AncestorsOf(path, p).value))
    ensures Instance(Nav(path, AncestorsOf(path, p).value)) == StepOf(p, path)
    decreases |path|
  {
    StepPathsAreNavigable(path, p);
    if |path| > 1 {
      InstanceIsStep(p.steps[path[0] - STEP0_INDEX].pipeline, path[1..]);
    }
  }

  /** The path, without the prefix, leads to the step. */
  ghost predicate Leads(p: Pipeline, pre: Path, path: Path, step: StepId) {
    && pre <= path && IsStepPath(p, path[|pre|..]) && StepOf(p, path[|pre|..]) == step
  }

  /** One by one, the paths lead to the steps. */
  ghost predicate Read(p: Pipeline, pre: Path, paths: seq<Path>, steps: seq<StepId>) {
    && |paths| == |steps|
    && forall i :: 0 <= i < |paths| ==> Leads(p, pre, paths[i], steps[i])
  }

  lemma {:induction false} ReadConcat(p: Pipeline, pre: Path, a: seq<Path>, b: seq<Path>, s: seq<StepId>,
      t: seq<StepId>)
    requires Read(p, pre, a, s) && Read(p, pre, b, t)
    ensures Read(p, pre, a + b, s + t)
  {
  }

  lemma {:induction false} ReadOne(p: Pipeline, pre: Path, index: nat)
    requires StepAt(p, index)
    ensures Read(p, pre, [pre + [index]], [InstanceAt(p, index)])
  {
    assert (pre + [index])[|pre|..] == [index];
  }

  lemma {:induction false} ReadNested(p: Pipeline, pre: Path, i: nat, paths: seq<Path>, steps: seq<StepId>)
    requires i < |p.steps| && p.steps[i].Nested?
    requires Read(p.steps[i].pipeline, pre + [i + STEP0_INDEX], paths, steps)
    ensures Read(p, pre, paths, steps)
  {
    var here := pre + [i + STEP0_INDEX];
    forall k | 0 <= k < |paths|
      ensures Leads(p, pre, paths[k], steps[k])
    {
      assert Leads(p.steps[i].pipeline, here, paths[k], steps[k]);
      assert paths[k][|pre|..][1..] == paths[k][|here|..];
      assert paths[k][|pre|] == here[|pre|];
    }
  }

  /** What is read is determined. */
  lemma {:induction false} ReadIsUnique(p: Pipeline, pre: Path, paths: seq<Path>, s: seq<StepId>, t: seq<StepId>)
    requires Read(p, pre, paths, s) && Read(p, pre, paths, t)
    ensures s == t
  {
    forall i | 0 <= i < |paths|
      ensures s[i] == t[i]
    {
      assert Leads(p, pre, paths[i], s[i]) && Leads(p, pre, paths[i], t[i]);
    }
  }

  // ---------------------------------------------------------------------------------------
  // Both interpreters do the same

  ghost predicate SameRun(p: Pipeline, pre: Path, o: Outcome, s: Steps) {
    o.status == s.status && Read(p, pre, o.visited, s.executed)
  }

  lemma {:induction false} SameRunAfter(p: Pipeline, pre: Path, o: Outcome, s: Steps, more: Outcome, others: Steps)
    requires SameRun(p, pre, o, s) && SameRun(p, pre, more, others)
    ensures SameRun(p, pre, After(o.visited, more), Then(s.executed, others))
  {
    ReadConcat(p, pre, o.visited, more.visited, s.executed, others.executed);
  }

  lemma {:induction false} SameStep(p: Pipeline, pre: Path, index: nat, outs: seq<Output>)
    requires StepAt(p, index)
    ensures SameRun(p, pre, RunStep(pre + [index], outs), ExecuteStep(InstanceAt(p, index), outs))
  {
    ReadOne(p, pre, index);
  }

  lemma {:induction false} SameItem(p: Pipeline, pre: Path, i: nat, outs: seq<Output>)
    requires Fits(p) && i < |p.steps|
    ensures SameRun(p, pre, RunItem(p, pre, i, outs), ExecuteItem(p.steps[i], outs))
    decreases |outs|, p, 0, 0
  {
    match p.steps[i]
    case Step(_) => SameStep(p, pre, i + STEP0_INDEX, outs);
    case Nested(b, nested) =>
      SamePipeline(nested, b, pre + [i + STEP0_INDEX], outs);
      ReadNested(p, pre, i, RunItem(p, pre, i, outs).visited, ExecuteItem(p.steps[i], outs).executed);
  }

  lemma {:induction false} SameItems(p: Pipeline, pre: Path, i: nat, outs: seq<Output>)
    requires Fits(p) && i <= |p.steps|
    ensures SameRun(p, pre, RunItems(p, pre, i, outs), ExecuteItems(p, i, outs))
    decreases |outs|, p, 1, |p.steps| - i
  {
    if i < |p.steps| {
      SameItem(p, pre, i, outs);
      var o, s := RunItem(p, pre, i, outs), ExecuteItem(p.steps[i], outs);
      if o.status.Finished? {
        SameItems(p, pre, i + 1, o.status.rest);
        SameRunAfter(p, pre, o, s, RunItems(p, pre, i + 1, o.status.rest), ExecuteItems(p, i + 1, s.status.rest));
      }
    }
  }

  lemma {:induction false} SameBody(p: Pipeline, b: Behavior, pre: Path, outs: seq<Output>)
    requires Fits(p)
    ensures SameRun(p, pre, RunBody(p, b, pre, outs), ExecuteBody(p, b, outs))
    decreases |outs|, p, 2, 0
  {
    if p.steps != [] {
      SameItems(p, pre, 0, outs);
      var o, s := RunItems(p, pre, 0, outs), ExecuteItems(p, 0, outs);
      if o.status.Finished? && b.Loop? {
        SameBody(p, b, pre, o.status.rest);
        SameRunAfter(p, pre, o, s, RunBody(p, b, pre, o.status.rest), ExecuteBody(p, b, s.status.rest));
      }
    }
  }

  lemma {:induction false} SameEpilogue(p: Pipeline, pre: Path, outs: seq<Output>)
    requires Fits(p)
    ensures SameRun(p, pre, RunEpilogue(p, pre, outs), ExecuteEpilogue(p, outs))
  {
    if p.epilogue.Some? {
      SameStep(p, pre, EPILOGUE_INDEX, outs);
    }
  }

  lemma {:induction false} SameAfterPrologue(p: Pipeline, b: Behavior, pre: Path, outs: seq<Output>)
    requires Fits(p)
    ensures SameRun(p, pre, RunAfterPrologue(p, b, pre, outs), ExecuteAfterPrologue(p, b, outs))
    decreases |outs|, p, 3, 0
  {
    SameBody(p, b, pre, outs);
    var o, s := RunBody(p, b, pre, outs), ExecuteBody(p, b, outs);
    if o.status.Finished? {
      SameEpilogue(p, pre, o.status.rest);
      SameRunAfter(p, pre, o, s, RunEpilogue(p, pre, o.status.rest), ExecuteEpilogue(p, s.status.rest));
    }
  }

  /** The paths that the one interpreter visits lead to the steps that the other one executes. */
  lemma {:induction false} SamePipeline(p: Pipeline, b: Behavior, pre: Path, outs: seq<Output>)
    requires Fits(p)
    ensures SameRun(p, pre, RunPipeline(p, b, pre, outs), ExecutePipeline(p, b, outs))
    decreases |outs|, p, 4, 0
  {
    if !p.IsEmpty() && p.prologue.None? {
      SameAfterPrologue(p, b, pre, outs);
    } else if !p.IsEmpty() {
      SameStep(p, pre, PROLOGUE_INDEX, outs);
      var o, s := RunStep(pre + [PROLOGUE_INDEX], outs), ExecuteStep(p.prologue.value, outs);
      match o.status {
        case Finished(rest) =>
          SameAfterPrologue(p, b, pre, rest);
          SameRunAfter(p, pre, o, s, RunAfterPrologue(p, b, pre, rest), ExecuteAfterPrologue(p, b, rest));
        case Broken(rest) =>
          SameEpilogue(p, pre, rest);
          SameRunAfter(p, pre, o, s, RunEpilogue(p, pre, rest), ExecuteEpilogue(p, rest));
        case Awaiting =>
        case Halted(_) =>
      }
    }
  }

  // ---------------------------------------------------------------------------------------
  // Job hooks

  /** A call of a hook: on which step, and with which limits. */
  datatype HookCall = HookCall(step: StepId, limits: Limits)

  /** The calls of a hook on all steps: prologue, items and epilogue of each pipeline, with the limits of its scope. */
  function HookCalls(p: Pipeline, s: Scope): seq<HookCall>
    requires Mirrors(s, p)
    decreases p, 1, 0
  {
    (if p.prologue.Some? then [HookCall(p.prologue.value, s.limits)] else [])
    + ItemCalls(p, s, 0)
    + (if p.epilogue.Some? then [HookCall(p.epilogue.value, s.limits)] else [])
  }

  function ItemCalls(p: Pipeline, s: Scope, i: nat): seq<HookCall>
    requires Mirrors(s, p) && i <= |p.steps|
    decreases p, 0, |p.steps| - i
  {
    if i == |p.steps| then []
    else
      (match p.steps[i]
       case Step(step) => [HookCall(step, s.limits)]
       case Nested(_, nested) =>
         assert HasNested(p, i + STEP0_INDEX);
         HookCalls(nested, s.nested[i + STEP0_INDEX]))
      + ItemCalls(p, s, i + 1)
  }

  /** The path, without the prefix, leads to the step, and to the scope with the limits. */
  ghost predicate CallAt(p: Pipeline, s: Scope, pre: Path, path: Path, call: HookCall) {
    && Leads(p, pre, path, call.step)
    && Get(s, ScopeOf(path[|pre|..])).Some? && Get(s, ScopeOf(path[|pre|..])).value.limits == call.limits
  }

  ghost predicate CallsAt(p: Pipeline, s: Scope, pre: Path, paths: seq<Path>, calls: seq<HookCall>) {
    && |paths| == |calls|
    && forall i :: 0 <= i < |paths| ==> CallAt(p, s, pre, paths[i], calls[i])
  }

  lemma {:induction false} CallsConcat(p: Pipeline, s: Scope, pre: Path, a: seq<Path>, b: seq<Path>, c: seq<HookCall>,
      d: seq<HookCall>)
    requires CallsAt(p, s, pre, a, c) && CallsAt(p, s, pre, b, d)
    ensures CallsAt(p, s, pre, a + b, c + d)
  {
  }

  lemma {:induction false} CallOne(p: Pipeline, s: Scope, pre: Path, index: nat)
    requires StepAt(p, index)
    ensures CallsAt(p, s, pre, [pre + [index]], [HookCall(InstanceAt(p, index), s.limits)])
  {
    assert (pre + [index])[|pre|..] == [index] && ScopeOf([index]) == [];
  }

  lemma {:induction false} CallNested(p: Pipeline, s: Scope, pre: Path, i: nat, paths: seq<Path>, calls: seq<HookCall>)
    requires Mirrors(s, p) && i < |p.steps| && p.steps[i].Nested? && i + STEP0_INDEX in s.nested
    requires CallsAt(p.steps[i].pipeline, s.nested[i + STEP0_INDEX], pre + [i + STEP0_INDEX], paths, calls)
    ensures CallsAt(p, s, pre, paths, calls)
  {
    var here, nested, inner := pre + [i + STEP0_INDEX], p.steps[i].pipeline, s.nested[i + STEP0_INDEX];
    forall k | 0 <= k < |paths|
      ensures CallAt(p, s, pre, paths[k], calls[k])
    {
      assert CallAt(nested, inner, here, paths[k], calls[k]);
      assert paths[k][|pre|..][1..] == paths[k][|here|..];
      assert paths[k][|pre|] == here[|pre|];
      assert ScopeOf(paths[k][|pre|..])[1..] == ScopeOf(paths[k][|here|..]);
    }
  }

  lemma {:induction false} ItemCallsAt(p: Pipeline, s: Scope, pre: Path, i: nat)
    requires Fits(p) && Mirrors(s, p) && i <= |p.steps|
    ensures CallsAt(p, s, pre, ItemsFrom(p, pre, i), ItemCalls(p, s, i))
    decreases p, 0, |p.steps| - i
  {
    if i < |p.steps| {
      ItemCallsAt(p, s, pre, i + 1);
      match p.steps[i] {
        case Step(step) =>
          CallOne(p, s, pre, i + STEP0_INDEX);
          CallsConcat(p, s, pre, [pre + [i + STEP0_INDEX]], ItemsFrom(p, pre, i + 1), [HookCall(step, s.limits)],
                      ItemCalls(p, s, i + 1));
        case Nested(_, nested) =>
          assert HasNested(p, i + STEP0_INDEX);
          var inner := s.nested[i + STEP0_INDEX];
          HookCallsAt(nested, inner, pre + [i + STEP0_INDEX]);
          CallNested(p, s, pre, i, ItemAt(p, pre, i), HookCalls(nested, inner));
          CallsConcat(p, s, pre, ItemAt(p, pre, i), ItemsFrom(p, pre, i + 1), HookCalls(nested, inner),
                      ItemCalls(p, s, i + 1));
      }
    }
  }

  /** The paths that the step iterator yields lead to the steps and limits of the hook calls, one by one. */
  lemma {:induction false} HookCallsAt(p: Pipeline, s: Scope, pre: Path)
    requires Fits(p) && Mirrors(s, p)
    ensures CallsAt(p, s, pre, Preorder(p, pre), HookCalls(p, s))
    decreases p, 1, 0
  {
    var first := if p.prologue.Some? then [HookCall(p.prologue.value, s.limits)] else [];
    var last := if p.epilogue.Some? then [HookCall(p.epilogue.value, s.limits)] else [];
    if p.prologue.Some? {
      CallOne(p, s, pre, PROLOGUE_INDEX);
    }
    if p.epilogue.Some? {
      CallOne(p, s, pre, EPILOGUE_INDEX);
    }
    ItemCallsAt(p, s, pre, 0);
    CallsConcat(p, s, pre, PrologueOf(p, pre), ItemsFrom(p, pre, 0), first, ItemCalls(p, s, 0));
    CallsConcat(p, s, pre, PrologueOf(p, pre) + ItemsFrom(p, pre, 0), EpilogueOf(p, pre), first + ItemCalls(p, s, 0),
                last);
  }
}
