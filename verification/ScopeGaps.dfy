/**
 The scope of the first step.

 Starting a run enters the root scope only, although the first step may be in a nested pipeline.
 */
module ScopeGaps {
  import opened Wrappers
  import opened Pipelines
  import opened Navigator
  import opened StepPaths
  import opened Limits
  import opened Scopes

  /** The scope tree when the first step is about to run. */
  function AtStart(p: Pipeline, f: Factories, c: CheckpointId, platform: Limits): Scope {
    var root := Build(p, f, c, platform);
    EnterScope(root, f, c, root.limits)
  }

  lemma {:induction false} EntryBelowNested(p: Pipeline)
    requires Fits(p) && Entrypoint(p).Some?
    requires p.prologue.None? && p.steps != [] && p.steps[0].Nested?
    ensures |Entrypoint(p).value.path| > 1
  {
    assert Entrypoint(p) == Enter(Nav([STEP0_INDEX], [p]));
  }

  /** The scope of the first step is active when it runs if and only if the top-level pipeline has a
      prologue, has no items, or starts with a step. */
  lemma {:induction false} FirstStepInActiveScopeIff(p: Pipeline, f: Factories, c: CheckpointId, platform: Limits)
    requires Fits(p) && Entrypoint(p).Some?
    ensures IsActive(AtStart(p, f, c, platform), ScopeOf(Entrypoint(p).value.path)) <==>
            p.prologue.Some? || p.steps == [] || p.steps[0].Step?
  {
    var root, scope := Build(p, f, c, platform), ScopeOf(Entrypoint(p).value.path);
    if p.prologue.Some? || p.steps == [] || p.steps[0].Step? {
      assert scope == [];
    } else {
      EntryBelowNested(p);
      BuildInactive(p, f, c, platform, scope);
      assert Get(AtStart(p, f, c, platform), scope) == Get(root, scope);
    }
  }

  /** Halves the gas of the enclosing scope. */
  function Halving(id: FactoryId, c: CheckpointId, enclosing: Limits): Limits {
    enclosing.(gasLimit := enclosing.gasLimit / 2)
  }

  /** Entering the root applies its factory a second time, so a first step in a nested pipeline can
      run with twice the gas of the scope around it. */
  lemma NestedFirstStepExceedsRoot()
    ensures var inner := Pipeline(None, None, [Step(0)], None);
            var p := Pipeline(None, None, [Nested(Once, inner)], Some(0));
            var s := AtStart(p, Halving, 0, Limits(100, None, None, None));
            && Fits(p) && Entrypoint(p).Some? && Entrypoint(p).value.path == [1, 1]
            && s.limits.gasLimit == 25
            && Get(s, [1]).Some? && Get(s, [1]).value.limits.gasLimit == 50
  {
    var inner := Pipeline(None, None, [Step(0)], None);
    var p := Pipeline(None, None, [Nested(Once, inner)], Some(0));
    assert Entrypoint(inner) == Some(Nav([1], [inner]));
    assert Entrypoint(p) == Some(Nav([1] + [1], [p] + [inner]));
    var platform := Limits(100, None, None, None);
    var root := Build(p, Halving, 0, platform);
    assert HasNested(p, 1) && root.limits.gasLimit == 50;
    assert root.nested[1] == Build(inner, Halving, 0, root.limits);
    var s := AtStart(p, Halving, 0, platform);
    assert Get(s, [1]) == Get(s.nested[1], [][..]);
  }

  // ---------------------------------------------------------------------------------------
  // The limits of the first step

  /** The limits that the first step runs with. */
  function FirstStepLimits(p: Pipeline, f: Factories, c: CheckpointId, platform: Limits): Limits
    requires Fits(p) && Entrypoint(p).Some?
  {
    StartHasScope(p, f, c, platform);
    Get(AtStart(p, f, c, platform), ScopeOf(Entrypoint(p).value.path)).value.limits
  }

  lemma {:induction false} StartHasScope(p: Pipeline, f: Factories, c: CheckpointId, platform: Limits)
    requires Fits(p) && Entrypoint(p).Some?
    ensures var q := ScopeOf(Entrypoint(p).value.path);
            && HasPath(p, q) && Get(AtStart(p, f, c, platform), q).Some?
            && Get(Build(p, f, c, platform), q).Some?
  {
    var path := Entrypoint(p).value.path;
    AtStepIsStepPath(Entrypoint(p).value);
    BuildMirrors(p, f, c, platform);
    StepHasScope(Build(p, f, c, platform), p, path);
    assert Mirrors(AtStart(p, f, c, platform), p);
    StepHasScope(AtStart(p, f, c, platform), p, path);
    ScopePathExists(p, path);
  }

  /** The path leads from pipeline to nested pipeline. */
  predicate HasPath(p: Pipeline, path: Path) {
    path == [] || (HasNested(p, path[0]) && HasPath(p.steps[path[0] - STEP0_INDEX].pipeline, path[1..]))
  }

  lemma {:induction false} ScopePathExists(p: Pipeline, step: Path)
    requires IsStepPath(p, step)
    ensures HasPath(p, ScopeOf(step))
    decreases |step|
  {
    if |step| > 1 {
      ScopePathExists(p.steps[step[0] - STEP0_INDEX].pipeline, step[1..]);
      assert ScopeOf(step)[1..] == ScopeOf(step[1..]);
    }
  }

  /** The outermost limits factory on the way from a pipeline down to one nested in it, its own not counted. */
  function FirstFactory(p: Pipeline, path: Path): Option<FactoryId>
    requires HasPath(p, path)
    decreases |path|
  {
    if path == [] then None
    else
      var inner := p.steps[path[0] - STEP0_INDEX].pipeline;
      if inner.limits.Some? then inner.limits else FirstFactory(inner, path[1..])
  }

  lemma ClampSelf(limits: Limits)
    ensures Clamp(limits, limits) == limits
  {
  }

  /** Without factories on the way the limits are those of the enclosing scope; the first factory makes its limits
      from those; whatever comes after it is no looser. */
  lemma {:induction false} BuiltLimits(p: Pipeline, f: Factories, c: CheckpointId, enclosing: Limits, path: Path)
    requires HasPath(p, path)
    ensures var built := Build(p, f, c, enclosing);
            && Get(built, path).Some? && NoLooser(Get(built, path).value.limits, built.limits)
            && (FirstFactory(p, path).None? ==> Get(built, path).value.limits == built.limits)
            && (FirstFactory(p, path).Some? ==>
                  NoLooser(Get(built, path).value.limits, ScopeLimits(FirstFactory(p, path), f, c, built.limits)))
    decreases |path|
  {
    if path != [] {
      var built, inner := Build(p, f, c, enclosing), p.steps[path[0] - STEP0_INDEX].pipeline;
      BuiltLimits(inner, f, c, built.limits, path[1..]);
      var limits := ScopeLimits(inner.limits, f, c, built.limits);
      assert built.nested[path[0]] == Build(inner, f, c, built.limits) && built.nested[path[0]].limits == limits;
      ScopeLimitsNoLooser(inner.limits, f, c, built.limits);
      NoLooserTransitive(Get(built, path).value.limits, limits, built.limits);
      if inner.limits.None? {
        ClampSelf(built.limits);
      }
    }
  }

  /** Makes the limits of the factory `root` depend on what it is given: 50 gas from anything but 50, and 10 from 50.
      Any other factory takes one from 50 and leaves the rest alone. */
  function Uneven(root: FactoryId): Factories {
    (id: FactoryId, c: CheckpointId, enclosing: Limits) =>
      enclosing.(gasLimit := if id == root then (if enclosing.gasLimit == 50 then 10 else 50)
                             else if enclosing.gasLimit == 50 then 49 else enclosing.gasLimit)
  }

  lemma {:induction false} UnevenLimits(p: Pipeline, root: FactoryId, c: CheckpointId, enclosing: Limits, path: Path)
    requires HasPath(p, path) && FirstFactory(p, path) != Some(root)
    requires Build(p, Uneven(root), c, enclosing).limits.gasLimit == 50
    ensures var built := Build(p, Uneven(root), c, enclosing);
            Get(built, path).Some? && Get(built, path).value.limits.gasLimit >= 49
    decreases |path|
  {
    if path != [] {
      var built, inner := Build(p, Uneven(root), c, enclosing), p.steps[path[0] - STEP0_INDEX].pipeline;
      assert built.nested[path[0]] == Build(inner, Uneven(root), c, built.limits);
      if inner.limits.None? {
        UnevenLimits(inner, root, c, built.limits, path[1..]);
      } else {
        UnevenLimitsStay(inner, root, c, built.limits, path[1..]);
      }
    }
  }

  lemma {:induction false} UnevenLimitsStay(p: Pipeline, root: FactoryId, c: CheckpointId, enclosing: Limits,
      path: Path)
    requires HasPath(p, path) && Build(p, Uneven(root), c, enclosing).limits.gasLimit == 49
    ensures var built := Build(p, Uneven(root), c, enclosing);
            Get(built, path).Some? && Get(built, path).value.limits.gasLimit == 49
    decreases |path|
  {
    if path != [] {
      var built, inner := Build(p, Uneven(root), c, enclosing), p.steps[path[0] - STEP0_INDEX].pipeline;
      assert built.nested[path[0]] == Build(inner, Uneven(root), c, built.limits);
      UnevenLimitsStay(inner, root, c, built.limits, path[1..]);
    }
  }

  /** Where the first step is right in the root, or the root has no factory, or the outermost factory on the way is
      the root's own. */
  predicate FirstStepIsBounded(p: Pipeline)
    requires Fits(p) && Entrypoint(p).Some?
  {
    StartHasScope(p, (id: FactoryId, c: CheckpointId, enclosing: Limits) => enclosing, 0, Limits(0, None, None, None));
    var q := ScopeOf(Entrypoint(p).value.path);
    q == [] || p.limits.None? || FirstFactory(p, q) == p.limits
  }

  lemma {:induction false} BoundedFirstStep(p: Pipeline, f: Factories, c: CheckpointId, platform: Limits)
    requires Fits(p) && Entrypoint(p).Some? && FirstStepIsBounded(p)
    ensures NoLooser(FirstStepLimits(p, f, c, platform), AtStart(p, f, c, platform).limits)
  {
    StartHasScope(p, f, c, platform);
    var root, q := Build(p, f, c, platform), ScopeOf(Entrypoint(p).value.path);
    if q != [] {
      assert Get(AtStart(p, f, c, platform), q) == Get(root, q);
      BuiltLimits(p, f, c, platform, q);
      if p.limits.None? {
        ClampSelf(root.limits);
      }
    }
  }

  /** The first step never runs with limits looser than those of the active root, whatever the factories make of
      them, if and only if it is bounded in this sense. */
  lemma {:induction false} FirstStepLimitsIff(p: Pipeline)
    requires Fits(p) && Entrypoint(p).Some?
    ensures FirstStepIsBounded(p) <==>
      forall f: Factories, c, platform ::
        NoLooser(FirstStepLimits(p, f, c, platform), AtStart(p, f, c, platform).limits)
  {
    if FirstStepIsBounded(p) {
      forall f: Factories, c, platform
        ensures NoLooser(FirstStepLimits(p, f, c, platform), AtStart(p, f, c, platform).limits)
      {
        BoundedFirstStep(p, f, c, platform);
      }
    } else {
      var f, platform := Uneven(p.limits.value), Limits(100, None, None, None);
      StartHasScope(p, f, 0, platform);
      var root, q := Build(p, f, 0, platform), ScopeOf(Entrypoint(p).value.path);
      assert Get(AtStart(p, f, 0, platform), q) == Get(root, q);
      UnevenLimits(p, p.limits.value, 0, platform, q);
      assert !NoLooser(FirstStepLimits(p, f, 0, platform), AtStart(p, f, 0, platform).limits);
    }
  }
}
