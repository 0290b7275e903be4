/**
 Pipelines that start over without leaving their scope.

 A scope is renewed when the path of the scope changes from one step to the next.  When a pipeline is over and
 the next step is the first one of that same pipeline again, the path stays what it was.
 */
module ScopeReentry {
  import opened Wrappers
  import opened Pipelines
  import opened Navigator
  import opened StepPaths
  import opened Scopes

  /** The nearest pipeline around that repeats has a single item, and those between have nothing but that item. */
  ghost predicate RepeatsAlone(nav: Nav)
    requires Chain(nav.path, nav.ancestors)
    decreases |nav.path|
  {
    && Ancestor(nav).Some?
    && var up := Ancestor(nav).value;
       var outer := Last(up.ancestors);
       && |outer.steps| == 1
       && (BehaviorOf(up).Loop? || (outer.prologue.None? && outer.epilogue.None? && RepeatsAlone(up)))
  }

  /** The first step of the enclosing pipeline. */
  ghost function FirstAgain(nav: Nav): Option<Nav>
    requires Chain(nav.path, nav.ancestors) && |nav.path| > 1
  {
    match Entrypoint(Last(nav.ancestors))
    case None => None
    case Some(inner) => Some(Join(Ancestor(nav).value, inner))
  }

  lemma {:induction false} EnterIsFirstAgain(nav: Nav)
    requires Chain(nav.path, nav.ancestors) && |nav.path| > 1
    ensures var up := Ancestor(nav).value;
            && NestedAt(Last(up.ancestors), Last(up.path), Last(nav.ancestors))
            && Enter(up) == FirstAgain(nav)
  {
    var n := |nav.path|;
    assert NestedAt(nav.ancestors[n - 2], nav.path[n - 2], nav.ancestors[n - 1]);
  }

  lemma {:induction false} EntrypointHead(p: Pipeline)
    requires Fits(p) && Entrypoint(p).Some?
    ensures Entrypoint(p).value.path[0] ==
      if p.prologue.Some? then PROLOGUE_INDEX else if p.steps == [] then EPILOGUE_INDEX else STEP0_INDEX
  {
  }

  /** The entry of a pipeline with nothing but one nested item is the entry of that item. */
  lemma {:induction false} FirstAgainOutside(nav: Nav)
    requires Chain(nav.path, nav.ancestors) && |nav.path| > 2
    requires var outer := nav.ancestors[|nav.ancestors| - 2];
             outer.prologue.None? && outer.epilogue.None? && |outer.steps| == 1
    ensures FirstAgain(Ancestor(nav).value) == FirstAgain(nav)
  {
    EnterIsFirstAgain(nav);
    var up := Ancestor(nav).value;
    var nested, outer := Last(nav.ancestors), Last(up.ancestors);
    EnterIsFirstAgain(up);
    EntryOfWrapper(outer, nested);
    if Entrypoint(nested).Some? {
      var top, inner := Ancestor(up).value, Entrypoint(nested).value;
      Splice(top.path, up.path, STEP0_INDEX, inner.path);
      Splice(top.ancestors, up.ancestors, outer, inner.ancestors);
    }
  }

  lemma {:induction false} EntryOfWrapper(outer: Pipeline, nested: Pipeline)
    requires Fits(outer) && outer.prologue.None? && outer.epilogue.None? && |outer.steps| == 1
    requires NestedAt(outer, STEP0_INDEX, nested)
    ensures Entrypoint(outer) ==
      match Entrypoint(nested)
      case None => None
      case Some(inner) => Some(Join(Nav([STEP0_INDEX], [outer]), inner))
  {
  }

  lemma Splice<T>(top: seq<T>, up: seq<T>, x: T, rest: seq<T>)
    requires |up| == |top| + 1 && top == up[..|top|] && up[|top|] == x
    ensures top + ([x] + rest) == up + rest
  {
    assert up == top + [x];
  }

  lemma {:induction false} AloneStartsOver(nav: Nav)
    requires Chain(nav.path, nav.ancestors) && RepeatsAlone(nav)
    ensures NextInParent(nav) == FirstAgain(nav)
    decreases |nav.path|
  {
    EnterIsFirstAgain(nav);
    var up := Ancestor(nav).value;
    var outer := Last(up.ancestors);
    if BehaviorOf(up).Loop? {
      assert ReplaceLeaf(up.path, STEP0_INDEX) == up.path;
    } else {
      AloneStartsOver(up);
      FirstAgainOutside(nav);
    }
  }

  /** The item after a nested pipeline, or the first item of a body that starts again, or the epilogue. */
  lemma {:induction false} MovesOnOutside(nav: Nav)
    requires Chain(nav.path, nav.ancestors) && |nav.path| > 1 && NextInParent(nav).Some?
    requires var up := Ancestor(nav).value;
             var outer := Last(up.ancestors);
             && (Last(up.path) - STEP0_INDEX + 1 < |outer.steps| || BehaviorOf(up).Loop? || outer.epilogue.Some?)
             && (BehaviorOf(up).Loop? ==> |outer.steps| != 1)
    ensures !(ScopeOf(nav.path) <= NextInParent(nav).value.path)
  {
    EnterIsFirstAgain(nav);
    var up, next := Ancestor(nav).value, NextInParent(nav);
    var outer := Last(up.ancestors);
    if Last(up.path) - STEP0_INDEX + 1 < |outer.steps| {
      assert ReplaceLeaf(up.path, Last(up.path) + 1) <= next.value.path;
      DifferentLeaf(up.path, Last(up.path) + 1, next.value.path);
    } else if BehaviorOf(up).Loop? {
      assert next == AfterPrologue(up);
      AfterPrologueIsFirst(up);
      DifferentLeaf(up.path, STEP0_INDEX, next.value.path);
    } else {
      assert next == AfterLoop(up);
      DifferentLeaf(up.path, EPILOGUE_INDEX, next.value.path);
    }
  }

  /** The pipeline around starts over alone, but the nested one is not what it starts with. */
  lemma {:induction false} MovesOnWithin(nav: Nav, next: Nav)
    requires Chain(nav.path, nav.ancestors) && |nav.path| > 2
    requires var up := Ancestor(nav).value;
             var outer := Last(up.ancestors);
             && FirstAgain(up) == Some(next)
             && (|outer.steps| != 1 || outer.prologue.Some?) && Last(up.path) - STEP0_INDEX + 1 >= |outer.steps|
    ensures !(ScopeOf(nav.path) <= next.path)
  {
    EnterIsFirstAgain(nav);
    var up := Ancestor(nav).value;
    var outer := Last(up.ancestors);
    EntrypointHead(outer);
    var head := Entrypoint(outer).value.path[0];
    assert next.path[|up.path| - 1] == head;
    DifferentLeaf(up.path, head, next.path);
  }

  lemma {:induction false} OthersMoveOn(nav: Nav)
    requires Chain(nav.path, nav.ancestors) && |nav.path| > 1 && !RepeatsAlone(nav)
    ensures NextInParent(nav).Some? ==> !(ScopeOf(nav.path) <= NextInParent(nav).value.path)
    decreases |nav.path|
  {
    EnterIsFirstAgain(nav);
    var up, next := Ancestor(nav).value, NextInParent(nav);
    var outer := Last(up.ancestors);
    if next.Some? {
      if Last(up.path) - STEP0_INDEX + 1 < |outer.steps| || BehaviorOf(up).Loop? || outer.epilogue.Some? {
        MovesOnOutside(nav);
      } else {
        assert next == AfterLoop(up) == NextInParent(up);
        assert Ancestor(up).Some?;
        if RepeatsAlone(up) {
          AloneStartsOver(up);
          MovesOnWithin(nav, next.value);
        } else {
          OthersMoveOn(up);
          assert ScopeOf(up.path) <= up.path;
        }
      }
    }
  }

  lemma {:induction false} AfterPrologueIsFirst(nav: Nav)
    requires Chain(nav.path, nav.ancestors) && Last(nav.ancestors).steps != [] && AfterPrologue(nav).Some?
    ensures ReplaceLeaf(nav.path, STEP0_INDEX) <= AfterPrologue(nav).value.path
  {
  }

  lemma {:induction false} DifferentLeaf(path: Path, leaf: nat, longer: Path)
    requires path != [] && leaf != Last(path) && |path| <= |longer| && longer[|path| - 1] == leaf
    ensures !(path <= longer)
  {
  }

  /** When a pipeline is over, the next step is in that same pipeline if and only if it is the only item of a
      repeating one, or only wrapped inside the only item; then its next round begins. */
  lemma {:induction false} StartsOverIff(nav: Nav)
    requires Chain(nav.path, nav.ancestors) && |nav.path| > 1 && NextInParent(nav).Some?
    ensures ScopeOf(nav.path) <= NextInParent(nav).value.path <==> RepeatsAlone(nav)
    ensures RepeatsAlone(nav) ==> NextInParent(nav) == FirstAgain(nav)
  {
    if RepeatsAlone(nav) {
      AloneStartsOver(nav);
      assert Ancestor(nav).value.path == ScopeOf(nav.path);
    } else {
      OthersMoveOn(nav);
    }
  }

  // ---------------------------------------------------------------------------------------
  // The scope of that pipeline

  /** The events of a switch. */
  function SwitchEvents(prev: Path, next: Path): seq<Event> {
    Lefts(Ascent(prev, CommonPrefix(prev, next))) + Entereds(Descent(CommonPrefix(prev, next), next))
  }

  /** Of the scopes that are active, exactly those around which the next step is not are left; none of them is
      entered. */
  lemma {:induction false} LeftIff(prev: Path, next: Path, q: Path)
    requires q <= prev
    ensures Left(q) in SwitchEvents(prev, next) <==> !(q <= next)
    ensures Entered(q) !in SwitchEvents(prev, next)
  {
    var common := CommonPrefix(prev, next);
    var up, down := Ascent(prev, common), Descent(common, next);
    if q <= next {
      CommonPrefixIsLongest(prev, next, q);
    } else {
      assert |q| > |common|;
      assert up[|prev| - |q|] == q;
      assert SwitchEvents(prev, next)[|prev| - |q|] == Left(q);
    }
  }

  /** After the last step of a pipeline, wherever in it that step was: the scope of the pipeline is neither left
      nor entered, and keeps its limits and its count of entries, if and only if the pipeline starts over alone.
      In every other case it is left. */
  lemma {:induction false} ScopeIsKeptIff(nav: Nav, prev: Path, before: Scope, after: Scope, f: Factories,
      c: CheckpointId)
    requires Chain(nav.path, nav.ancestors) && |nav.path| > 1 && NextInParent(nav).Some?
    requires ScopeOf(nav.path) <= prev && IsActive(before, ScopeOf(nav.path))
    requires Switched(before, after, prev, ScopeOf(NextInParent(nav).value.path), f, c)
    ensures var q, next := ScopeOf(nav.path), ScopeOf(NextInParent(nav).value.path);
            && (RepeatsAlone(nav) <==> Left(q) !in SwitchEvents(prev, next))
            && Entered(q) !in SwitchEvents(prev, next)
            && Get(after, q).Some?
            && (RepeatsAlone(nav) ==> SameFields(Get(after, q).value, Get(before, q).value))
            && (RepeatsAlone(nav) <==> IsActive(after, q))
  {
    var q, step := ScopeOf(nav.path), NextInParent(nav).value.path;
    StartsOverIff(nav);
    if RepeatsAlone(nav) {
      assert |step| > |q|;
    }
    assert q <= ScopeOf(step) <==> q <= step && |q| < |step|;
    LeftIff(prev, ScopeOf(step), q);
    assert SwitchedAt(before, after, q, prev, ScopeOf(step), f, c);
    CommonPrefixIsLongest(q, q, q);
    if q <= ScopeOf(step) {
      CommonPrefixIsLongest(prev, ScopeOf(step), q);
    }
  }
}
