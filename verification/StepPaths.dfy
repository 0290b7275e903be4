/**
 The loops of `StepPath`: binding a path to a pipeline, the lowest common ancestor of two
 paths and the intermediate paths between an ancestor and its descendant.
 */
module StepPaths {
  import opened Wrappers
  import opened Pipelines
  import opened Navigator
  import opened Sequences

  /** The pipelines that a path passes through, or None when an inner index does not lead to a
      nested pipeline. */
  function AncestorsOf(path: Path, root: Pipeline): (r: Option<seq<Pipeline>>)
    requires path != []
    ensures r.Some? ==> |r.value| == |path| && r.value[0] == root
    decreases |path|
  {
    if |path| == 1 then Some([root])
    else if path[0] < STEP0_INDEX || path[0] - STEP0_INDEX >= |root.steps| then None
    else
      match root.steps[path[0] - STEP0_INDEX]
      case Step(_) => None
      case Nested(_, pipeline) =>
        match AncestorsOf(path[1..], pipeline)
        case None => None
        case Some(rest) => Some([root] + rest)
  }

  lemma {:induction false} AncestorsFormChain(path: Path, root: Pipeline)
    requires path != [] && Fits(root) && AncestorsOf(path, root).Some?
    ensures Chain(path, AncestorsOf(path, root).value)
    decreases |path|
  {
    if |path| > 1 {
      var nested := root.steps[path[0] - STEP0_INDEX].pipeline;
      AncestorsFormChain(path[1..], nested);
      var rest := AncestorsOf(path[1..], nested).value;
      var all := [root] + rest;
      forall k | 0 <= k < |all| - 1
        ensures NestedAt(all[k], path[k], all[k + 1])
      {
        if k > 0 {
          assert NestedAt(rest[k - 1], path[1..][k - 1], rest[k]);
        }
      }
    }
  }

  /** A chain is determined by its path and its first pipeline. */
  lemma {:induction false} ChainIsResolved(path: Path, ancestors: seq<Pipeline>)
    requires Chain(path, ancestors)
    ensures AncestorsOf(path, ancestors[0]) == Some(ancestors)
    decreases |path|
  {
    if |path| > 1 {
      assert NestedAt(ancestors[0], path[0], ancestors[1]);
      forall k | 0 <= k < |ancestors[1..]| - 1
        ensures NestedAt(ancestors[1..][k], path[1..][k], ancestors[1..][k + 1])
      {
        assert NestedAt(ancestors[k + 1], path[k + 1], ancestors[k + 2]);
      }
      ChainIsResolved(path[1..], ancestors[1..]);
      assert ancestors == [ancestors[0]] + ancestors[1..];
    } else {
      assert ancestors == [ancestors[0]];
    }
  }

  /** The assertion of `enter` about a resolved prologue or epilogue path. */
  predicate Enterable(path: Path, root: Pipeline)
    requires path != []
  {
    var ancestors := AncestorsOf(path, root);
    ancestors.Some? && (IsPrologue(path) || IsEpilogue(path)) ==>
      Last(ancestors.value).prologue.Some? || Last(ancestors.value).epilogue.Some?
  }

  /** What binding a path to a pipeline yields. */
  function Resolve(path: Path, root: Pipeline): (r: Option<Nav>)
    requires path != [] && Fits(root) && Enterable(path, root)
  {
    match AncestorsOf(path, root)
    case None => None
    case Some(ancestors) => AncestorsFormChain(path, root); Enter(Nav(path, ancestors))
  }

  function Under(outer: seq<Pipeline>, inner: Option<seq<Pipeline>>): Option<seq<Pipeline>> {
    match inner
    case None => None
    case Some(rest) => Some(outer + rest)
  }

  lemma UnderOnce(outer: seq<Pipeline>, inner: Option<seq<Pipeline>>)
    requires outer != []
    ensures Under(outer[..|outer| - 1], Under([Last(outer)], inner)) == Under(outer, inner)
    ensures forall p :: (outer + [p])[..|outer + [p]| - 1] == outer
  {
    if inner.Some? {
      assert outer[..|outer| - 1] + ([Last(outer)] + inner.value) == outer + inner.value;
    }
  }

  /** `StepPath::navigator`. */
  method BindNavigator(path: Path, root: Pipeline) returns (r: Option<Nav>)
    requires path != [] && Fits(root) && Enterable(path, root)
    ensures r == Resolve(path, root)
  {
    var ancestors := [root];
    var lastRoot := path[0];
    var current: Path := path;
    assert ancestors[..|ancestors| - 1] == [];
    assert AncestorsOf(path, root).Some? ==> [] + AncestorsOf(path, root).value == AncestorsOf(path, root).value;
    while |current| > 1
      invariant current != [] && lastRoot == current[0]
      invariant ancestors != []
      invariant AncestorsOf(path, root) == Under(ancestors[..|ancestors| - 1], AncestorsOf(current, Last(ancestors)))
      decreases |current|
    {
      var enclosing := Last(ancestors);
      if lastRoot < STEP0_INDEX || lastRoot - STEP0_INDEX >= |enclosing.steps| {
        return None;
      }
      match enclosing.steps[lastRoot - STEP0_INDEX] {
        case Step(_) => return None;
        case Nested(_, pipeline) =>
          UnderOnce(ancestors, AncestorsOf(current[1..], pipeline));
          ancestors := ancestors + [pipeline];
      }
      current := current[1..];
      lastRoot := current[0];
    }
    assert ancestors[..|ancestors| - 1] + [Last(ancestors)] == ancestors;
    AncestorsFormChain(path, root);
    r := Enter(Nav(path, ancestors));
  }

  /** A navigator that stands at a step is recovered from its path alone, which is all that
      the executor keeps between two steps. */
  lemma ResolveAtStep(nav: Nav)
    requires AtStep(nav)
    ensures Enterable(nav.path, nav.ancestors[0])
    ensures Resolve(nav.path, nav.ancestors[0]) == Some(nav)
  {
    ChainIsResolved(nav.path, nav.ancestors);
  }

  /** The paths of steps are exactly the paths at which a navigator can stand. */
  lemma {:induction false} StepPathsAreNavigable(path: Path, root: Pipeline)
    requires Fits(root)
    ensures IsStepPath(root, path) <==>
            path != [] && AncestorsOf(path, root).Some? && AtStep(Nav(path, AncestorsOf(path, root).value))
    decreases |path|
  {
    if path != [] && AncestorsOf(path, root).Some? {
      AncestorsFormChain(path, root);
    }
    if |path| > 1 && 0 <= path[0] - STEP0_INDEX < |root.steps| && root.steps[path[0] - STEP0_INDEX].Nested? {
      var nested := root.steps[path[0] - STEP0_INDEX].pipeline;
      StepPathsAreNavigable(path[1..], nested);
      if AncestorsOf(path[1..], nested).Some? {
        var rest := AncestorsOf(path[1..], nested).value;
        AncestorsFormChain(path[1..], nested);
        assert Last([root] + rest) == Last(rest) && Last(path) == Last(path[1..]);
      }
    }
  }

  lemma {:induction false} AtStepIsStepPath(nav: Nav)
    requires AtStep(nav)
    ensures IsStepPath(nav.ancestors[0], nav.path)
  {
    ChainIsResolved(nav.path, nav.ancestors);
    StepPathsAreNavigable(nav.path, nav.ancestors[0]);
  }

  /** The longest path that is a prefix of both. */
  function CommonPrefix(a: Path, b: Path): (c: Path)
    ensures c <= a && c <= b
    ensures |c| < |a| && |c| < |b| ==> a[|c|] != b[|c|]
  {
    if a == [] || b == [] || a[0] != b[0] then [] else [a[0]] + CommonPrefix(a[1..], b[1..])
  }

  /** Every common prefix is a prefix of the result: it is the lowest common ancestor. */
  lemma {:induction false} CommonPrefixIsLongest(a: Path, b: Path, p: Path)
    requires p <= a && p <= b
    ensures p <= CommonPrefix(a, b)
  {
    if p != [] {
      CommonPrefixIsLongest(a[1..], b[1..], p[1..]);
    }
  }

  /** `StepPath::common_ancestor`. */
  method CommonAncestor(a: Path, b: Path) returns (common: Path)
    ensures common == CommonPrefix(a, b)
  {
    common := [];
    var i := 0;
    while i < |a| && i < |b|
      invariant i <= |a| && i <= |b| && common == a[..i] == b[..i]
    {
      if a[i] == b[i] {
        common := common + [a[i]];
      } else {
        break;
      }
      i := i + 1;
    }
    CommonPrefixIsLongest(a, b, common);
  }

  /** The paths that lead from `top` down to `bottom`, `bottom` included and `top` not. */
  function Descent(top: Path, bottom: Path): (paths: seq<Path>)
    requires top <= bottom
  {
    seq(|bottom| - |top|, k requires 0 <= k < |bottom| - |top| => bottom[..|top| + k + 1])
  }

  /** The same paths, deepest first. */
  function Ascent(bottom: Path, top: Path): (paths: seq<Path>)
    requires top <= bottom
  {
    seq(|bottom| - |top|, k requires 0 <= k < |bottom| - |top| => bottom[..|bottom| - k])
  }

  lemma DescentStep(top: Path, current: Path, leaf: nat)
    requires top <= current
    ensures Descent(top, current + [leaf]) == Descent(top, current) + [current + [leaf]]
  {
    var longer, shorter := Descent(top, current + [leaf]), Descent(top, current);
    forall k | 0 <= k < |shorter|
      ensures longer[k] == shorter[k]
    {
    }
    assert longer[|shorter|] == current + [leaf];
  }

  /** One more path on the way down. */
  lemma DescentNext(top: Path, current: Path, bottom: Path)
    requires top <= current <= bottom && current != bottom
    ensures var next := current + [bottom[|current|]];
            top <= next <= bottom && Descent(top, next) == Descent(top, current) + [next]
  {
    DescentStep(top, current, bottom[|current|]);
  }

  lemma AscentIsReverse(bottom: Path, top: Path)
    requires top <= bottom
    ensures Ascent(bottom, top) == Reverse(Descent(top, bottom))
  {
  }

  /** `StepPath::between`. */
  method Between(a: Path, b: Path) returns (paths: seq<Path>)
    ensures a <= b ==> paths == Descent(a, b)
    ensures b <= a ==> paths == Ascent(a, b)
    ensures !(a <= b) && !(b <= a) ==> paths == []
  {
    if !(a <= b) && !(b <= a) {
      return [];
    }
    var ancestor := CommonAncestor(a, b);
    CommonPrefixIsLongest(a, b, if a <= b then a else b);
    paths := [];
    if ancestor == a {
      var current := a;
      while current != b
        invariant a <= current <= b
        invariant paths == Descent(a, current)
        decreases |b| - |current|
      {
        DescentNext(a, current, b);
        current := current + [b[|current|]];
        paths := paths + [current];
      }
    } else if ancestor == b {
      var current := b;
      while current != a
        invariant b <= current <= a
        invariant paths == Descent(b, current)
        decreases |a| - |current|
      {
        DescentNext(b, current, a);
        current := current + [a[|current|]];
        paths := paths + [current];
      }
      AscentIsReverse(a, b);
      paths := Reverse(paths);
    }
  }
}
