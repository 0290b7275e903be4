/**
 The iterator over all steps of a pipeline.

 The executor calls `before_job` and `after_job` on every path that this iterator yields.
 It keeps an explicit stack of frames; what it still has to yield is the recursive preorder
 of the frames' unvisited parts.
 */
module StepIteration {
  import opened Wrappers
  import opened Pipelines
  import opened Navigator
  import opened Sequences

  // ---------------------------------------------------------------------------------------
  // The recursive order

  function Preorder(p: Pipeline, pre: Path): seq<Path>
    decreases p, 2, 0
  {
    PrologueOf(p, pre) + ItemsFrom(p, pre, 0) + EpilogueOf(p, pre)
  }

  function PrologueOf(p: Pipeline, pre: Path): seq<Path> {
    if p.prologue.Some? then [pre + [PROLOGUE_INDEX]] else []
  }

  function EpilogueOf(p: Pipeline, pre: Path): seq<Path> {
    if p.epilogue.Some? then [pre + [EPILOGUE_INDEX]] else []
  }

  function ItemsFrom(p: Pipeline, pre: Path, i: nat): seq<Path>
    requires i <= |p.steps|
    decreases p, 1, |p.steps| - i
  {
    if i == |p.steps| then [] else ItemAt(p, pre, i) + ItemsFrom(p, pre, i + 1)
  }

  function ItemAt(p: Pipeline, pre: Path, i: nat): seq<Path>
    requires i < |p.steps|
    decreases p, 0, 0
  {
    var here := pre + [i + STEP0_INDEX];
    match p.steps[i]
    case Step(_) => [here]
    case Nested(_, nested) => Preorder(nested, here)
  }

  /** A path below `pre` whose next index is `index`. */
  ghost predicate Below(path: Path, pre: Path, index: nat) {
    |pre| < |path| && pre <= path && path[|pre|] == index
  }

  ghost predicate StepBelow(p: Pipeline, pre: Path, path: Path) {
    pre <= path && IsStepPath(p, path[|pre|..])
  }

  /** Item i alone contributes the steps whose next index is that of item i. */
  lemma {:induction false} ItemMembers(p: Pipeline, pre: Path, i: nat, path: Path)
    requires Fits(p) && i < |p.steps|
    ensures path in ItemAt(p, pre, i) <==> StepBelow(p, pre, path) && path[|pre|] == i + STEP0_INDEX
    decreases p, 0
  {
    var here := pre + [i + STEP0_INDEX];
    if p.steps[i].Nested? {
      PreorderMembers(p.steps[i].pipeline, here, path);
    }
    if Below(path, pre, i + STEP0_INDEX) {
      assert here <= path && path[|pre|..][1..] == path[|here|..];
      assert |path| == |here| ==> path == here;
    }
  }

  lemma {:induction false} ItemsFromMembers(p: Pipeline, pre: Path, i: nat, path: Path)
    requires Fits(p) && i <= |p.steps|
    ensures path in ItemsFrom(p, pre, i) <==>
            StepBelow(p, pre, path) && i + STEP0_INDEX <= path[|pre|] <= |p.steps|
    decreases p, 1, |p.steps| - i
  {
    if i < |p.steps| {
      ItemMembers(p, pre, i, path);
      ItemsFromMembers(p, pre, i + 1, path);
    }
  }

  /** The preorder lists exactly the executable steps of the tree. */
  lemma {:induction false} PreorderMembers(p: Pipeline, pre: Path, path: Path)
    requires Fits(p)
    ensures path in Preorder(p, pre) <==> StepBelow(p, pre, path)
    decreases p, 2, 0
  {
    ItemsFromMembers(p, pre, 0, path);
    if |path| == |pre| + 1 && pre <= path {
      assert path == pre + [path[|pre|]];
    }
  }

  lemma {:induction false} ItemsFromDistinct(p: Pipeline, pre: Path, i: nat)
    requires Fits(p) && i <= |p.steps|
    ensures Distinct(ItemsFrom(p, pre, i))
    decreases p, |p.steps| - i
  {
    if i < |p.steps| {
      ItemsFromDistinct(p, pre, i + 1);
      if p.steps[i].Nested? {
        PreorderDistinct(p.steps[i].pipeline, pre + [i + STEP0_INDEX]);
      }
      forall path | path in ItemAt(p, pre, i)
        ensures path !in ItemsFrom(p, pre, i + 1)
      {
        ItemMembers(p, pre, i, path);
        ItemsFromMembers(p, pre, i + 1, path);
      }
      DistinctConcat(ItemAt(p, pre, i), ItemsFrom(p, pre, i + 1));
    }
  }

  /** No step is listed twice. */
  lemma {:induction false} PreorderDistinct(p: Pipeline, pre: Path)
    requires Fits(p)
    ensures Distinct(Preorder(p, pre))
    decreases p, |p.steps| + 1
  {
    var first, items, last := PrologueOf(p, pre), ItemsFrom(p, pre, 0), EpilogueOf(p, pre);
    ItemsFromDistinct(p, pre, 0);
    ItemsFromMembers(p, pre, 0, pre + [PROLOGUE_INDEX]);
    ItemsFromMembers(p, pre, 0, pre + [EPILOGUE_INDEX]);
    assert (pre + [PROLOGUE_INDEX])[|pre|] != (pre + [EPILOGUE_INDEX])[|pre|];
    DistinctConcat(first, items);
    DistinctConcat(first + items, last);
  }

  // ---------------------------------------------------------------------------------------
  // The iterator

  datatype Frame = Frame(
    pipeline: Pipeline,
    path: Path,
    nextIx: nat,
    yieldedPrologue: bool,
    yieldedEpilogue: bool)

  ghost predicate ValidStack(stack: seq<Frame>) {
    forall k :: 0 <= k < |stack| ==> stack[k].nextIx <= |stack[k].pipeline.steps|
  }

  ghost function FrameRest(f: Frame): seq<Path>
    requires f.nextIx <= |f.pipeline.steps|
  {
    (if f.yieldedPrologue then [] else PrologueOf(f.pipeline, f.path)) +
    ItemsFrom(f.pipeline, f.path, f.nextIx) +
    (if f.yieldedEpilogue then [] else EpilogueOf(f.pipeline, f.path))
  }

  /** What a stack still yields: the top frame's part first. */
  ghost function StackRest(stack: seq<Frame>): seq<Path>
    requires ValidStack(stack)
  {
    if stack == [] then [] else FrameRest(Last(stack)) + StackRest(stack[..|stack| - 1])
  }

  /** Work left in a stack, counting the frames themselves. */
  ghost function FrameWork(f: Frame): nat
    requires f.nextIx <= |f.pipeline.steps|
  {
    1 + ItemsWork(f.pipeline, f.nextIx)
  }

  ghost function ItemsWork(p: Pipeline, i: nat): nat
    requires i <= |p.steps|
    decreases p, |p.steps| - i
  {
    if i == |p.steps| then 0
    else (if p.steps[i].Step? then 1 else 2 + ItemsWork(p.steps[i].pipeline, 0)) + ItemsWork(p, i + 1)
  }

  ghost function StackWork(stack: seq<Frame>): nat
    requires ValidStack(stack)
  {
    if stack == [] then 0 else FrameWork(Last(stack)) + StackWork(stack[..|stack| - 1])
  }

  lemma {:induction false} Push(base: seq<Frame>, f: Frame)
    requires ValidStack(base) && f.nextIx <= |f.pipeline.steps|
    ensures ValidStack(base + [f])
    ensures StackRest(base + [f]) == FrameRest(f) + StackRest(base)
    ensures StackWork(base + [f]) == FrameWork(f) + StackWork(base)
  {
    assert (base + [f])[..|base|] == base;
  }

  lemma ReplaceTop<T>(base: seq<T>, f: T, g: T)
    ensures (base + [f])[|base| := g] == base + [g]
  {
  }

  lemma SplitTop<T>(s: seq<T>)
    requires s != []
    ensures s == s[..|s| - 1] + [s[|s| - 1]]
  {
  }

  lemma {:induction false} InitialStack(p: Pipeline)
    ensures ValidStack([Frame(p, [], 0, false, false)])
    ensures StackRest([Frame(p, [], 0, false, false)]) == Preorder(p, [])
  {
    var f := Frame(p, [], 0, false, false);
    assert [] + [f] == [f];
    Push([], f);
    assert FrameRest(f) == Preorder(p, []);
  }

  /** The top frame yields one path. */
  lemma {:induction false} TopYields(base: seq<Frame>, f: Frame, g: Frame, x: Path)
    requires ValidStack(base) && f.nextIx <= |f.pipeline.steps| && g.nextIx <= |g.pipeline.steps|
    requires FrameRest(f) == [x] + FrameRest(g)
    ensures Yields(base + [f], x, base + [g])
  {
    Push(base, f);
    Push(base, g);
    Associative([x], FrameRest(g), StackRest(base));
    HeadTail(x, StackRest(base + [g]));
  }

  lemma HeadTail<T>(x: T, s: seq<T>)
    ensures ([x] + s)[0] == x && ([x] + s)[1..] == s
  {
  }

  /** The top frame descends into a nested pipeline. */
  lemma {:induction false} TopDescends(base: seq<Frame>, f: Frame, g: Frame, inner: Frame)
    requires ValidStack(base) && f.nextIx <= |f.pipeline.steps|
    requires g.nextIx <= |g.pipeline.steps| && inner.nextIx <= |inner.pipeline.steps|
    requires FrameRest(f) == FrameRest(inner) + FrameRest(g)
    requires FrameWork(f) > FrameWork(inner) + FrameWork(g)
    ensures ValidStack(base + [g] + [inner])
    ensures StackRest(base + [f]) == StackRest(base + [g] + [inner])
    ensures StackWork(base + [f]) > StackWork(base + [g] + [inner])
  {
    Push(base, f);
    Push(base, g);
    Push(base + [g], inner);
    Associative(FrameRest(inner), FrameRest(g), StackRest(base));
  }

  /** The top frame is done. */
  lemma {:induction false} TopEnds(base: seq<Frame>, f: Frame)
    requires ValidStack(base) && f.nextIx <= |f.pipeline.steps| && FrameRest(f) == []
    ensures ValidStack(base)
    ensures StackRest(base + [f]) == StackRest(base)
    ensures StackWork(base + [f]) > StackWork(base)
  {
    Push(base, f);
  }

  /** What a frame yields next, case by case. */
  lemma {:induction false} FrameMoves(f: Frame)
    requires f.nextIx <= |f.pipeline.steps|
    ensures !f.yieldedPrologue && f.pipeline.prologue.Some? ==>
      FrameRest(f) == [f.path + [PROLOGUE_INDEX]] + FrameRest(f.(yieldedPrologue := true))
    ensures (f.yieldedPrologue || f.pipeline.prologue.None?) && f.nextIx == |f.pipeline.steps|
            && !f.yieldedEpilogue && f.pipeline.epilogue.Some?
            ==> FrameRest(f) == [f.path + [EPILOGUE_INDEX]] + FrameRest(f.(yieldedEpilogue := true))
    ensures (f.yieldedPrologue || f.pipeline.prologue.None?) && f.nextIx == |f.pipeline.steps|
            && (f.yieldedEpilogue || f.pipeline.epilogue.None?)
            ==> FrameRest(f) == []
  {
  }

  lemma {:induction false} FrameItem(f: Frame)
    requires f.yieldedPrologue || f.pipeline.prologue.None?
    requires f.nextIx < |f.pipeline.steps|
    ensures var here := f.path + [f.nextIx + STEP0_INDEX];
            var advanced := f.(nextIx := f.nextIx + 1);
            match f.pipeline.steps[f.nextIx]
            case Step(_) => FrameRest(f) == [here] + FrameRest(advanced)
            case Nested(_, nested) =>
              var inner := Frame(nested, here, 0, false, false);
              && FrameRest(f) == FrameRest(inner) + FrameRest(advanced)
              && FrameWork(f) > FrameWork(inner) + FrameWork(advanced)
  {
    var p, here := f.pipeline, f.path + [f.nextIx + STEP0_INDEX];
    var tail := if f.yieldedEpilogue then [] else EpilogueOf(p, f.path);
    var later := ItemsFrom(p, f.path, f.nextIx + 1);
    assert FrameRest(f.(nextIx := f.nextIx + 1)) == later + tail;
    assert FrameRest(f) == (ItemAt(p, f.path, f.nextIx) + later) + tail;
    Associative(ItemAt(p, f.path, f.nextIx), later, tail);
    if p.steps[f.nextIx].Nested? {
      var nested := p.steps[f.nextIx].pipeline;
      assert FrameRest(Frame(nested, here, 0, false, false)) == Preorder(nested, here);
    }
  }

  /** A stack yields `x` and becomes `next`. */
  ghost predicate Yields(stack: seq<Frame>, x: Path, next: seq<Frame>) {
    && ValidStack(stack) && ValidStack(next)
    && StackRest(stack) != [] && StackRest(stack)[0] == x && StackRest(stack)[1..] == StackRest(next)
  }

  /** A stack becomes a smaller one that yields the same. */
  ghost predicate Unwinds(stack: seq<Frame>, next: seq<Frame>) {
    && ValidStack(stack) && ValidStack(next)
    && StackRest(stack) == StackRest(next) && StackWork(stack) > StackWork(next)
  }

  lemma PrologueMove(base: seq<Frame>, f: Frame)
    requires ValidStack(base) && f.nextIx <= |f.pipeline.steps|
    requires !f.yieldedPrologue && f.pipeline.prologue.Some?
    ensures Yields(base + [f], f.path + [PROLOGUE_INDEX], base + [f.(yieldedPrologue := true)])
  {
    FrameMoves(f);
    Push(base, f);
    TopYields(base, f, f.(yieldedPrologue := true), f.path + [PROLOGUE_INDEX]);
  }

  lemma ItemMove(base: seq<Frame>, f: Frame)
    requires ValidStack(base) && f.nextIx < |f.pipeline.steps|
    requires f.yieldedPrologue || f.pipeline.prologue.None?
    ensures var here, g := f.path + [f.nextIx + STEP0_INDEX], f.(nextIx := f.nextIx + 1);
            match f.pipeline.steps[f.nextIx]
            case Step(_) => Yields(base + [f], here, base + [g])
            case Nested(_, nested) => Unwinds(base + [f], base + [g] + [Frame(nested, here, 0, false, false)])
  {
    var here, g := f.path + [f.nextIx + STEP0_INDEX], f.(nextIx := f.nextIx + 1);
    FrameItem(f);
    Push(base, f);
    match f.pipeline.steps[f.nextIx]
    case Step(_) => TopYields(base, f, g, here);
    case Nested(_, nested) => TopDescends(base, f, g, Frame(nested, here, 0, false, false));
  }

  /** The same on the whole stack. */
  lemma ItemTaken(stack: seq<Frame>)
    requires ValidStack(stack) && stack != []
    requires var f := stack[|stack| - 1];
             f.nextIx < |f.pipeline.steps| && (f.yieldedPrologue || f.pipeline.prologue.None?)
    ensures var f := stack[|stack| - 1];
            var here, next := f.path + [f.nextIx + STEP0_INDEX], stack[|stack| - 1 := f.(nextIx := f.nextIx + 1)];
            match f.pipeline.steps[f.nextIx]
            case Step(_) => Yields(stack, here, next)
            case Nested(_, nested) => Unwinds(stack, next + [Frame(nested, here, 0, false, false)])
  {
    var base, f := stack[..|stack| - 1], stack[|stack| - 1];
    SplitTop(stack);
    ItemMove(base, f);
    ReplaceTop(base, f, f.(nextIx := f.nextIx + 1));
  }

  lemma LastMove(base: seq<Frame>, f: Frame)
    requires ValidStack(base) && f.nextIx == |f.pipeline.steps|
    requires f.yieldedPrologue || f.pipeline.prologue.None?
    ensures !f.yieldedEpilogue && f.pipeline.epilogue.Some? ==>
      Yields(base + [f], f.path + [EPILOGUE_INDEX], base + [f.(yieldedEpilogue := true)])
    ensures f.yieldedEpilogue || f.pipeline.epilogue.None? ==> Unwinds(base + [f], base)
  {
    FrameMoves(f);
    Push(base, f);
    if !f.yieldedEpilogue && f.pipeline.epilogue.Some? {
      TopYields(base, f, f.(yieldedEpilogue := true), f.path + [EPILOGUE_INDEX]);
    } else {
      TopEnds(base, f);
    }
  }

  class StepPathIter {
    var stack: seq<Frame>

    ghost predicate Valid()
      reads this
    {
      ValidStack(stack)
    }

    /** The paths that are still to be yielded. */
    ghost function Rest(): seq<Path>
      reads this
      requires Valid()
    {
      StackRest(stack)
    }

    constructor (pipeline: Pipeline)
      ensures Valid() && Rest() == Preorder(pipeline, [])
    {
      stack := [Frame(pipeline, [], 0, false, false)];
      InitialStack(pipeline);
    }

    /** The next item of the top frame: a step is yielded, a nested pipeline is descended into. */
    method TakeItem() returns (yielded: Option<Path>)
      requires Valid() && stack != []
      requires var f := stack[|stack| - 1];
               f.nextIx < |f.pipeline.steps| && (f.yieldedPrologue || f.pipeline.prologue.None?)
      modifies this
      ensures yielded.Some? ==> Yields(old(stack), yielded.value, stack)
      ensures yielded.None? ==> Unwinds(old(stack), stack)
    {
      var top := |stack| - 1;
      var frame := stack[top];
      var ix := frame.nextIx;
      var here := frame.path + [ix + STEP0_INDEX];
      ItemTaken(stack);
      stack := stack[top := frame.(nextIx := ix + 1)];
      match frame.pipeline.steps[ix] {
        case Step(_) => return Some(here);
        case Nested(_, nested) =>
          stack := stack + [Frame(nested, here, 0, false, false)];
          return None;
      }
    }

    /** One round of the iterator's loop: the top frame yields a path, descends or is popped. */
    method Round() returns (yielded: Option<Path>)
      requires Valid() && stack != []
      modifies this
      ensures yielded.Some? ==> Yields(old(stack), yielded.value, stack)
      ensures yielded.None? ==> Unwinds(old(stack), stack)
    {
      var top := |stack| - 1;
      var frame := stack[top];
      ghost var base := stack[..top];
      SplitTop(stack);

      if !frame.yieldedPrologue && frame.pipeline.prologue.Some? {
        PrologueMove(base, frame);
        ReplaceTop(base, frame, frame.(yieldedPrologue := true));
        stack := stack[top := frame.(yieldedPrologue := true)];
        return Some(frame.path + [PROLOGUE_INDEX]);
      }

      if frame.nextIx < |frame.pipeline.steps| {
        yielded := TakeItem();
        return;
      }

      LastMove(base, frame);
      if !frame.yieldedEpilogue && frame.pipeline.epilogue.Some? {
        ReplaceTop(base, frame, frame.(yieldedEpilogue := true));
        stack := stack[top := frame.(yieldedEpilogue := true)];
        return Some(frame.path + [EPILOGUE_INDEX]);
      }

      stack := stack[..top];
      return None;
    }

    method Next() returns (path: Option<Path>)
      requires Valid()
      modifies this
      ensures Valid()
      ensures old(Rest()) == [] ==> path.None? && Rest() == []
      ensures old(Rest()) != [] ==> path == Some(old(Rest())[0]) && Rest() == old(Rest())[1..]
    {
      while stack != []
        invariant Valid() && Rest() == old(Rest())
        decreases StackWork(stack)
      {
        path := Round();
        if path.Some? {
          return;
        }
      }
      path := None;
    }
  }
}
