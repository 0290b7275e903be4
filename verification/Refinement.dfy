/**
 Why the flat navigator implements structured pipelines.

 `FlatRun` iterates the navigator.  `FlatRefinesStructured` states that on every pipeline and
 every finite sequence of step outputs it visits the steps that the recursive interpreter visits,
 in the same order, and ends in the same way.
 */
module Refinement {
  import opened Wrappers
  import opened Pipelines
  import opened Navigator
  import opened StructuredRuns
  import opened Sequences

  // ---------------------------------------------------------------------------------------
  // Iterating the navigator

  /** The steps that are visited and, once there is no next step, the outputs left over. */
  datatype Flat = Flat(visited: seq<Path>, left: Option<seq<Output>>)

  function FlatAfter(visited: seq<Path>, f: Flat): Flat {
    Flat(visited + f.visited, f.left)
  }

  function NextStep(nav: Nav, out: Output): (r: Option<Nav>)
    requires AtStep(nav)
    ensures r.Some? ==> AtStep(r.value) && r.value.ancestors[0] == nav.ancestors[0]
  {
    match out
    case Ok => NextOk(nav)
    case Break => NextBreak(nav)
  }

  function FlatRun(nav: Option<Nav>, outs: seq<Output>): Flat
    requires nav.Some? ==> AtStep(nav.value)
    decreases |outs|
  {
    if nav.None? then Flat([], Some(outs))
    else if outs == [] then Flat([nav.value.path], None)
    else FlatAfter([nav.value.path], FlatRun(NextStep(nav.value, outs[0]), outs[1..]))
  }

  /** A structured outcome as the navigator shows it. */
  function AsFlat(o: Outcome): Flat {
    Flat(o.visited, if o.status.Awaiting? then None else Some(o.status.rest))
  }

  /** The flat run that goes on with `next` where a structured part finishes and with `broken` where
      it was broken out of. */
  function Continue(o: Outcome, next: Option<Nav>, broken: Option<Nav>): Flat
    requires next.Some? ==> AtStep(next.value)
    requires broken.Some? ==> AtStep(broken.value)
  {
    match o.status
    case Finished(rest) => FlatAfter(o.visited, FlatRun(next, rest))
    case Broken(rest) => FlatAfter(o.visited, FlatRun(broken, rest))
    case _ => AsFlat(o)
  }

  lemma FlatAfterAfter(v: seq<Path>, w: seq<Path>, f: Flat)
    ensures FlatAfter(v, FlatAfter(w, f)) == FlatAfter(v + w, f)
  {
    assert v + (w + f.visited) == (v + w) + f.visited;
  }

  lemma ContinueAfter(v: seq<Path>, o: Outcome, next: Option<Nav>, broken: Option<Nav>)
    requires next.Some? ==> AtStep(next.value)
    requires broken.Some? ==> AtStep(broken.value)
    ensures FlatAfter(v, Continue(o, next, broken)) == Continue(After(v, o), next, broken)
  {
    match o.status
    case Finished(rest) => FlatAfterAfter(v, o.visited, FlatRun(next, rest));
    case Broken(rest) => FlatAfterAfter(v, o.visited, FlatRun(broken, rest));
    case _ =>
  }

  /** Running one part after another. */
  lemma Sequence(o: Outcome, more: Outcome, next: Option<Nav>, out: Option<Nav>, last: Option<Nav>, broken: Option<Nav>)
    requires next.Some? ==> AtStep(next.value)
    requires out.Some? ==> AtStep(out.value)
    requires last.Some? ==> AtStep(last.value)
    requires broken.Some? ==> AtStep(broken.value)
    requires o.status.Finished? && FlatRun(next, o.status.rest) == Continue(more, last, broken)
    ensures Continue(o, next, out) == Continue(After(o.visited, more), last, broken)
  {
    ContinueAfter(o.visited, more, last, broken);
  }

  // ---------------------------------------------------------------------------------------
  // Refinement

  /** The pipeline `p` is the innermost of `ancestors`, reached along `pre`, and repeats as `b`. */
  ghost predicate Located(p: Pipeline, b: Behavior, pre: Path, ancestors: seq<Pipeline>) {
    && |ancestors| == |pre| + 1
    && Chain(pre + [STEP0_INDEX], ancestors)
    && Last(ancestors) == p
    && BehaviorOf(Nav(pre + [STEP0_INDEX], ancestors)) == b
  }

  lemma {:induction false} LeafChain(pre: Path, ancestors: seq<Pipeline>, leaf: nat)
    requires |ancestors| == |pre| + 1 && Chain(pre + [STEP0_INDEX], ancestors)
    ensures Chain(pre + [leaf], ancestors)
  {
    forall k | 0 <= k < |ancestors| - 1
      ensures NestedAt(ancestors[k], (pre + [leaf])[k], ancestors[k + 1])
    {
      assert NestedAt(ancestors[k], (pre + [STEP0_INDEX])[k], ancestors[k + 1]);
    }
  }

  /** The last index of a path is irrelevant to everything around the pipeline it is in. */
  lemma {:induction false} LeafBehavior(p: Pipeline, b: Behavior, pre: Path, ancestors: seq<Pipeline>, leaf: nat)
    requires Located(p, b, pre, ancestors)
    ensures Chain(pre + [leaf], ancestors)
    ensures BehaviorOf(Nav(pre + [leaf], ancestors)) == b
  {
    LeafChain(pre, ancestors, leaf);
  }

  lemma {:induction false} LeafNextInParent(p: Pipeline, b: Behavior, pre: Path, ancestors: seq<Pipeline>, leaf: nat)
    requires Located(p, b, pre, ancestors)
    ensures Chain(pre + [leaf], ancestors)
    ensures NextInParent(Nav(pre + [leaf], ancestors)) == NextInParent(Nav(pre + [STEP0_INDEX], ancestors))
  {
    LeafChain(pre, ancestors, leaf);
    assert (pre + [leaf])[..|pre|] == pre == (pre + [STEP0_INDEX])[..|pre|];
    assert Ancestor(Nav(pre + [leaf], ancestors)) == Ancestor(Nav(pre + [STEP0_INDEX], ancestors));
  }

  lemma {:induction false} LeafAfterLoop(p: Pipeline, b: Behavior, pre: Path, ancestors: seq<Pipeline>, leaf: nat)
    requires Located(p, b, pre, ancestors)
    ensures Chain(pre + [leaf], ancestors)
    ensures AfterLoop(Nav(pre + [leaf], ancestors)) == AfterLoop(Nav(pre + [STEP0_INDEX], ancestors))
  {
    LeafNextInParent(p, b, pre, ancestors, leaf);
    ReplaceLeafOfHere(pre, leaf, EPILOGUE_INDEX);
    ReplaceLeafOfHere(pre, STEP0_INDEX, EPILOGUE_INDEX);
  }

  lemma {:induction false} LeafAfterPrologue(p: Pipeline, b: Behavior, pre: Path, ancestors: seq<Pipeline>, leaf: nat)
    requires Located(p, b, pre, ancestors)
    ensures Chain(pre + [leaf], ancestors)
    ensures AfterPrologue(Nav(pre + [leaf], ancestors)) == AfterPrologue(Nav(pre + [STEP0_INDEX], ancestors))
  {
    LeafAfterLoop(p, b, pre, ancestors, leaf);
    ReplaceLeafOfHere(pre, leaf, STEP0_INDEX);
    ReplaceLeafOfHere(pre, STEP0_INDEX, STEP0_INDEX);
  }

  lemma ReplaceLeafOfHere(pre: Path, leaf: nat, x: nat)
    ensures ReplaceLeaf(pre + [leaf], x) == pre + [x]
  {
  }

  function Here(pre: Path, ancestors: seq<Pipeline>, leaf: nat): Nav {
    Nav(pre + [leaf], ancestors)
  }

  /** Where the navigator goes when the last item of a body is over. */
  function Again(p: Pipeline, b: Behavior, pre: Path, ancestors: seq<Pipeline>): (r: Option<Nav>)
    requires Located(p, b, pre, ancestors)
    ensures r.Some? ==> AtStep(r.value)
  {
    if b.Loop? then Enter(Here(pre, ancestors, STEP0_INDEX)) else AfterLoop(Here(pre, ancestors, STEP0_INDEX))
  }

  /** Where the navigator goes when item i of a body is over. */
  function Following(p: Pipeline, b: Behavior, pre: Path, ancestors: seq<Pipeline>, i: nat): (r: Option<Nav>)
    requires Located(p, b, pre, ancestors) && i < |p.steps|
    ensures r.Some? ==> AtStep(r.value)
  {
    LeafBehavior(p, b, pre, ancestors, i + 1 + STEP0_INDEX);
    if i + 1 == |p.steps| then Again(p, b, pre, ancestors)
    else Enter(Here(pre, ancestors, i + 1 + STEP0_INDEX))
  }

  lemma {:induction false} EpilogueRefines(p: Pipeline, b: Behavior, pre: Path, ancestors: seq<Pipeline>,
      outs: seq<Output>)
    requires Located(p, b, pre, ancestors)
    ensures FlatRun(AfterLoop(Here(pre, ancestors, STEP0_INDEX)), outs)
         == Continue(RunEpilogue(p, pre, outs), NextInParent(Here(pre, ancestors, STEP0_INDEX)), None)
  {
    LeafNextInParent(p, b, pre, ancestors, STEP0_INDEX);
    LeafNextInParent(p, b, pre, ancestors, EPILOGUE_INDEX);
    if p.epilogue.None? {
      assert AfterLoop(Here(pre, ancestors, STEP0_INDEX)) == NextInParent(Here(pre, ancestors, STEP0_INDEX));
    } else {
      var here := Here(pre, ancestors, EPILOGUE_INDEX);
      assert AfterLoop(Here(pre, ancestors, STEP0_INDEX)) == Some(here);
      if outs != [] {
        assert NextStep(here, outs[0]) == NextInParent(here);
      }
    }
  }

  lemma {:induction false} StepMoves(p: Pipeline, b: Behavior, pre: Path, ancestors: seq<Pipeline>, i: nat)
    requires Located(p, b, pre, ancestors) && i < |p.steps| && p.steps[i].Step?
    ensures AtStep(Here(pre, ancestors, i + STEP0_INDEX))
    ensures Enter(Here(pre, ancestors, i + STEP0_INDEX)) == Some(Here(pre, ancestors, i + STEP0_INDEX))
    ensures NextBreak(Here(pre, ancestors, i + STEP0_INDEX)) == AfterLoop(Here(pre, ancestors, STEP0_INDEX))
  {
    LeafAfterLoop(p, b, pre, ancestors, i + STEP0_INDEX);
  }

  /** What follows the last item. */
  lemma {:induction false} LastIsFollowed(p: Pipeline, b: Behavior, pre: Path, ancestors: seq<Pipeline>, i: nat)
    requires Located(p, b, pre, ancestors) && i + 1 == |p.steps|
    ensures var up := Here(pre, ancestors, i + STEP0_INDEX);
            && Chain(up.path, up.ancestors) && BehaviorOf(up) == b
            && Following(p, b, pre, ancestors, i) == if b.Loop? then AfterPrologue(up) else AfterLoop(up)
  {
    LeafBehavior(p, b, pre, ancestors, i + STEP0_INDEX);
    if b.Loop? {
      LeafAfterPrologue(p, b, pre, ancestors, i + STEP0_INDEX);
      ReplaceLeafOfHere(pre, STEP0_INDEX, STEP0_INDEX);
    } else {
      LeafAfterLoop(p, b, pre, ancestors, i + STEP0_INDEX);
    }
  }

  lemma {:induction false} StepMovesOn(p: Pipeline, b: Behavior, pre: Path, ancestors: seq<Pipeline>, i: nat)
    requires Located(p, b, pre, ancestors) && i < |p.steps| && p.steps[i].Step?
    requires AtStep(Here(pre, ancestors, i + STEP0_INDEX))
    ensures NextOk(Here(pre, ancestors, i + STEP0_INDEX)) == Following(p, b, pre, ancestors, i)
  {
    if i + 1 == |p.steps| {
      LastIsFollowed(p, b, pre, ancestors, i);
    } else {
      ReplaceLeafOfHere(pre, i + STEP0_INDEX, i + 1 + STEP0_INDEX);
    }
  }

  /** A single step at item i leads to `Following` or, when it breaks, out of the loop. */
  lemma {:induction false} StepRefines(
      p: Pipeline, b: Behavior, pre: Path, ancestors: seq<Pipeline>, i: nat, outs: seq<Output>)
    requires Located(p, b, pre, ancestors) && i < |p.steps| && p.steps[i].Step?
    ensures Chain(pre + [i + STEP0_INDEX], ancestors)
    ensures FlatRun(Enter(Here(pre, ancestors, i + STEP0_INDEX)), outs)
         == Continue(RunStep(pre + [i + STEP0_INDEX], outs), Following(p, b, pre, ancestors, i),
                     AfterLoop(Here(pre, ancestors, STEP0_INDEX)))
  {
    StepMoves(p, b, pre, ancestors, i);
    StepMovesOn(p, b, pre, ancestors, i);
  }

  /** A pipeline as an item of its parent. */
  lemma {:induction false} NestedIsLocated(p: Pipeline, b: Behavior, pre: Path, ancestors: seq<Pipeline>, i: nat)
    requires Located(p, b, pre, ancestors) && i < |p.steps| && p.steps[i].Nested?
    ensures Located(p.steps[i].pipeline, p.steps[i].behavior, pre + [i + STEP0_INDEX],
                    ancestors + [p.steps[i].pipeline])
  {
    LeafChain(pre, ancestors, i + STEP0_INDEX);
    var path, all := pre + [i + STEP0_INDEX] + [STEP0_INDEX], ancestors + [p.steps[i].pipeline];
    ChainExtends(pre + [i + STEP0_INDEX], ancestors, p.steps[i].pipeline, STEP0_INDEX);
    assert path[|path| - 2] == i + STEP0_INDEX && all[|all| - 2] == p;
  }

  lemma ChainExtends(path: Path, ancestors: seq<Pipeline>, nested: Pipeline, leaf: nat)
    requires Chain(path, ancestors) && NestedAt(Last(ancestors), Last(path), nested)
    ensures Chain(path + [leaf], ancestors + [nested])
  {
    var inner, all := path + [leaf], ancestors + [nested];
    forall k | 0 <= k < |all| - 1
      ensures NestedAt(all[k], inner[k], all[k + 1])
    {
      if k < |ancestors| - 1 {
        assert NestedAt(ancestors[k], path[k], ancestors[k + 1]);
      }
    }
  }

  lemma {:induction false} NestedFollowing(p: Pipeline, b: Behavior, pre: Path, ancestors: seq<Pipeline>, i: nat)
    requires Located(p, b, pre, ancestors) && i < |p.steps| && p.steps[i].Nested?
    requires Chain(pre + [i + STEP0_INDEX] + [STEP0_INDEX], ancestors + [p.steps[i].pipeline])
    ensures NextInParent(Here(pre + [i + STEP0_INDEX], ancestors + [p.steps[i].pipeline], STEP0_INDEX))
         == Following(p, b, pre, ancestors, i)
  {
    AncestorOfNested(pre + [i + STEP0_INDEX], ancestors, p.steps[i].pipeline);
    if i + 1 == |p.steps| {
      LastIsFollowed(p, b, pre, ancestors, i);
    } else {
      ReplaceLeafOfHere(pre, i + STEP0_INDEX, i + 1 + STEP0_INDEX);
    }
  }

  lemma {:induction false} AncestorOfNested(here: Path, ancestors: seq<Pipeline>, nested: Pipeline)
    requires Chain(here + [STEP0_INDEX], ancestors + [nested]) && |here| == |ancestors| > 0
    ensures Ancestor(Here(here, ancestors + [nested], STEP0_INDEX)) == Some(Nav(here, ancestors))
  {
    var nav := Here(here, ancestors + [nested], STEP0_INDEX);
    assert nav.path[..|nav.path| - 1] == here && nav.ancestors[..|nav.path| - 1] == ancestors;
  }

  /** The entrypoint of a pipeline, seen from the top-level pipeline. */
  function EntryIn(p: Pipeline, pre: Path, ancestors: seq<Pipeline>): Option<Nav>
    requires Fits(p) && |ancestors| == |pre| + 1
  {
    match Entrypoint(p)
    case None => None
    case Some(n) => Some(Nav(pre + n.path, ancestors[..|pre|] + n.ancestors))
  }

  lemma {:induction false} EntryInContext(p: Pipeline, b: Behavior, pre: Path, ancestors: seq<Pipeline>)
    requires Located(p, b, pre, ancestors)
    ensures p.prologue.Some? ==> EntryIn(p, pre, ancestors) == Some(Here(pre, ancestors, PROLOGUE_INDEX))
    ensures p.prologue.None? && !p.IsEmpty() ==>
      EntryIn(p, pre, ancestors) == AfterPrologue(Here(pre, ancestors, STEP0_INDEX))
  {
    assert ancestors[..|pre|] + [p] == ancestors;
    ReplaceLeafOfHere(pre, STEP0_INDEX, EPILOGUE_INDEX);
    ReplaceLeafOfHere(pre, STEP0_INDEX, STEP0_INDEX);
    if p.prologue.None? && p.steps != [] {
      EnterInContext(p, pre, ancestors);
    }
  }

  /** Entering the first item commutes with looking at the pipeline from further out. */
  lemma {:induction false} EnterInContext(p: Pipeline, pre: Path, ancestors: seq<Pipeline>)
    requires Fits(p) && p.steps != []
    requires |ancestors| == |pre| + 1 && Chain(pre + [STEP0_INDEX], ancestors) && Last(ancestors) == p
    ensures match Enter(Nav([STEP0_INDEX], [p]))
            case None => Enter(Here(pre, ancestors, STEP0_INDEX)).None?
            case Some(n) =>
              Enter(Here(pre, ancestors, STEP0_INDEX)) == Some(Nav(pre + n.path, ancestors[..|pre|] + n.ancestors))
  {
    assert ancestors[..|pre|] + [p] == ancestors;
    if p.steps[0].Nested? && Entrypoint(p.steps[0].pipeline).Some? {
      var inner := Entrypoint(p.steps[0].pipeline).value;
      Associative(pre, [STEP0_INDEX], inner.path);
      Associative(ancestors[..|pre|], [p], inner.ancestors);
    }
  }

  lemma {:induction false} ItemRefines(
      p: Pipeline, b: Behavior, pre: Path, ancestors: seq<Pipeline>, i: nat, outs: seq<Output>)
    requires Located(p, b, pre, ancestors) && i < |p.steps|
    ensures Chain(pre + [i + STEP0_INDEX], ancestors)
    ensures FlatRun(Enter(Here(pre, ancestors, i + STEP0_INDEX)), outs)
         == Continue(RunItem(p, pre, i, outs), Following(p, b, pre, ancestors, i),
                     AfterLoop(Here(pre, ancestors, STEP0_INDEX)))
    decreases |outs|, p, 0, 0
  {
    match p.steps[i] {
      case Step(_) =>
        StepRefines(p, b, pre, ancestors, i, outs);
      case Nested(c, nested) =>
        var here := pre + [i + STEP0_INDEX];
        LeafBehavior(p, b, pre, ancestors, i + STEP0_INDEX);
        NestedIsLocated(p, b, pre, ancestors, i);
        NestedFollowing(p, b, pre, ancestors, i);
        PipelineRefines(nested, c, here, ancestors + [nested], outs);
        EntryInParent(nested, here, ancestors);
    }
  }

  lemma {:induction false} ItemsRefine(
      p: Pipeline, b: Behavior, pre: Path, ancestors: seq<Pipeline>, i: nat, outs: seq<Output>)
    requires Located(p, b, pre, ancestors) && i < |p.steps|
    ensures Chain(pre + [i + STEP0_INDEX], ancestors)
    ensures FlatRun(Enter(Here(pre, ancestors, i + STEP0_INDEX)), outs)
         == Continue(RunItems(p, pre, i, outs), Again(p, b, pre, ancestors),
                     AfterLoop(Here(pre, ancestors, STEP0_INDEX)))
    decreases |outs|, p, 1, |p.steps| - i
  {
    ItemRefines(p, b, pre, ancestors, i, outs);
    var o := RunItem(p, pre, i, outs);
    if o.status.Finished? {
      FollowingRefines(p, b, pre, ancestors, i, o.status.rest);
      var out := AfterLoop(Here(pre, ancestors, STEP0_INDEX));
      Sequence(o, RunItems(p, pre, i + 1, o.status.rest), Following(p, b, pre, ancestors, i), out,
               Again(p, b, pre, ancestors), out);
    }
  }

  lemma {:induction false} FollowingRefines(
      p: Pipeline, b: Behavior, pre: Path, ancestors: seq<Pipeline>, i: nat, outs: seq<Output>)
    requires Located(p, b, pre, ancestors) && i < |p.steps|
    ensures FlatRun(Following(p, b, pre, ancestors, i), outs)
         == Continue(RunItems(p, pre, i + 1, outs), Again(p, b, pre, ancestors),
                     AfterLoop(Here(pre, ancestors, STEP0_INDEX)))
    decreases |outs|, p, 1, |p.steps| - i
  {
    if i + 1 < |p.steps| {
      ItemsRefine(p, b, pre, ancestors, i + 1, outs);
    } else {
      NoItemLeft(p, pre, outs, Again(p, b, pre, ancestors), AfterLoop(Here(pre, ancestors, STEP0_INDEX)));
    }
  }

  lemma {:induction false} NoItemLeft(p: Pipeline, pre: Path, outs: seq<Output>, next: Option<Nav>, broken: Option<Nav>)
    requires (next.Some? ==> AtStep(next.value)) && (broken.Some? ==> AtStep(broken.value))
    ensures Continue(RunItems(p, pre, |p.steps|, outs), next, broken) == FlatRun(next, outs)
  {
    assert [] + FlatRun(next, outs).visited == FlatRun(next, outs).visited;
  }

  lemma EntryInParent(nested: Pipeline, here: Path, ancestors: seq<Pipeline>)
    requires Fits(nested) && Chain(here, ancestors) && NestedAt(Last(ancestors), Last(here), nested)
    requires Last(here) != EPILOGUE_INDEX
    ensures EntryIn(nested, here, ancestors + [nested]) == Enter(Nav(here, ancestors))
  {
    assert (ancestors + [nested])[..|here|] == ancestors;
  }

  lemma {:induction false} BodyRefines(
      p: Pipeline, b: Behavior, pre: Path, ancestors: seq<Pipeline>, outs: seq<Output>)
    requires Located(p, b, pre, ancestors) && p.steps != []
    ensures FlatRun(Enter(Here(pre, ancestors, STEP0_INDEX)), outs)
         == Continue(RunBody(p, b, pre, outs), AfterLoop(Here(pre, ancestors, STEP0_INDEX)), None)
    decreases |outs|, p, 2, 0
  {
    ItemsRefine(p, b, pre, ancestors, 0, outs);
    var o := RunItems(p, pre, 0, outs);
    var more := o;
    if o.status.Finished? && b.Loop? {
      BodyRefines(p, b, pre, ancestors, o.status.rest);
      more := RunBody(p, b, pre, o.status.rest);
    }
    OnePass(b, o, more, Again(p, b, pre, ancestors), AfterLoop(Here(pre, ancestors, STEP0_INDEX)));
  }

  /** One pass over the items, and what comes after it. */
  lemma {:induction false} OnePass(b: Behavior, o: Outcome, more: Outcome, again: Option<Nav>, out: Option<Nav>)
    requires (again.Some? ==> AtStep(again.value)) && (out.Some? ==> AtStep(out.value))
    requires o.status.Finished? && b.Loop? ==> FlatRun(again, o.status.rest) == Continue(more, out, None)
    requires b.Once? ==> again == out
    ensures Continue(o, again, out) == Continue(
      match o.status
      case Finished(rest) => if b.Loop? then After(o.visited, more) else o
      case Broken(rest) => Outcome(o.visited, Finished(rest))
      case _ => o, out, None)
  {
    if o.status.Finished? && b.Loop? {
      Sequence(o, more, again, out, out, None);
    }
  }

  lemma {:induction false} AfterPrologueRefines(
      p: Pipeline, b: Behavior, pre: Path, ancestors: seq<Pipeline>, outs: seq<Output>)
    requires Located(p, b, pre, ancestors)
    ensures FlatRun(AfterPrologue(Here(pre, ancestors, STEP0_INDEX)), outs)
         == Continue(RunAfterPrologue(p, b, pre, outs), NextInParent(Here(pre, ancestors, STEP0_INDEX)), None)
    decreases |outs|, p, 3, 0
  {

    var o := RunBody(p, b, pre, outs);
    if p.steps != [] {
      BodyRefines(p, b, pre, ancestors, outs);
    }
    if o.status.Finished? {
      EpilogueRefines(p, b, pre, ancestors, o.status.rest);
      ContinueAfter(o.visited, RunEpilogue(p, pre, o.status.rest), NextInParent(Here(pre, ancestors, STEP0_INDEX)),
        None);
    }
  }

  lemma {:induction false} PipelineRefines(
      p: Pipeline, b: Behavior, pre: Path, ancestors: seq<Pipeline>, outs: seq<Output>)
    requires Located(p, b, pre, ancestors)
    ensures EntryIn(p, pre, ancestors).Some? ==> AtStep(EntryIn(p, pre, ancestors).value)
    ensures FlatRun(EntryIn(p, pre, ancestors), outs)
         == Continue(RunPipeline(p, b, pre, outs), NextInParent(Here(pre, ancestors, STEP0_INDEX)), None)
    decreases |outs|, p, 4, 0
  {
    EntryInContext(p, b, pre, ancestors);
    if p.prologue.Some? {
      PrologueRefines(p, b, pre, ancestors, outs);
    } else if !p.IsEmpty() {
      AfterPrologueRefines(p, b, pre, ancestors, outs);
    }
  }

  lemma {:induction false} PrologueRefines(
      p: Pipeline, b: Behavior, pre: Path, ancestors: seq<Pipeline>, outs: seq<Output>)
    requires Located(p, b, pre, ancestors) && p.prologue.Some?
    ensures AtStep(Here(pre, ancestors, PROLOGUE_INDEX))
    ensures FlatRun(Some(Here(pre, ancestors, PROLOGUE_INDEX)), outs)
         == Continue(RunPipeline(p, b, pre, outs), NextInParent(Here(pre, ancestors, STEP0_INDEX)), None)
    decreases |outs|, p, 3, 1
  {
    LeafAfterLoop(p, b, pre, ancestors, PROLOGUE_INDEX);
    LeafAfterPrologue(p, b, pre, ancestors, PROLOGUE_INDEX);
    var here := Here(pre, ancestors, PROLOGUE_INDEX);
    var next := NextInParent(Here(pre, ancestors, STEP0_INDEX));
    var after := AfterPrologue(Here(pre, ancestors, STEP0_INDEX));
    var out := AfterLoop(Here(pre, ancestors, STEP0_INDEX));
    assert NextOk(here) == after && NextBreak(here) == out;
    if outs != [] {
      if outs[0].Ok? {
        AfterPrologueRefines(p, b, pre, ancestors, outs[1..]);
        ContinueAfter([here.path], RunAfterPrologue(p, b, pre, outs[1..]), next, None);
      } else {
        EpilogueRefines(p, b, pre, ancestors, outs[1..]);
        ContinueAfter([here.path], RunEpilogue(p, pre, outs[1..]), next, None);
      }
    }
  }

  /** The navigator implements the recursive interpreter, on every pipeline and every finite
      sequence of outputs: same steps, same order, same end. */
  lemma FlatRefinesStructured(p: Pipeline, outs: seq<Output>)
    requires Fits(p)
    ensures FlatRun(Entrypoint(p), outs) == AsFlat(RunPipeline(p, Once, [], outs))
  {
    assert [] + [STEP0_INDEX] == [STEP0_INDEX];
    PipelineRefines(p, Once, [], [p], outs);
    assert EntryIn(p, [], [p]) == Entrypoint(p) by {
      if Entrypoint(p).Some? {
        var n := Entrypoint(p).value;
        assert [] + n.path == n.path && [p][..0] + n.ancestors == n.ancestors;
      }
    }
    assert NextInParent(Here([], [p], STEP0_INDEX)) == None;
    var o := RunPipeline(p, Once, [], outs);
    if o.status.Finished? {
      assert o.visited + [] == o.visited;
    }
  }
}
