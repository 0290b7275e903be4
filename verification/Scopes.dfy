/**
 The tree of execution scopes.

 Every pipeline has a scope with its own limits.  While a step runs, the scopes of the
 pipelines around it are active; moving to a step in another pipeline leaves scopes up to the
 lowest common ancestor, deepest first, and enters scopes down to the new one, outermost
 first, renewing their limits on the way.
 */
module Scopes {
  import opened Wrappers
  import opened Pipelines
  import opened Navigator
  import opened StepPaths
  import opened Limits

  /** A payload checkpoint, as far as a limits factory can tell. */
  type CheckpointId = nat

  /** `ScopedLimits::create` of every limits factory. */
  type Factories = (FactoryId, CheckpointId, Limits) -> Limits

  datatype Scope = Scope(
    limits: Limits,
    factory: Option<FactoryId>,
    entered: bool,
    enterCounter: nat,
    nested: map<nat, Scope>)

  const MAX_COUNTER: nat := 0xFFFF_FFFF

  // ---------------------------------------------------------------------------------------
  // One scope

  function ScopeLimits(factory: Option<FactoryId>, f: Factories, c: CheckpointId, enclosing: Limits): Limits {
    Clamp(if factory.Some? then f(factory.value, c, enclosing) else enclosing, enclosing)
  }

  predicate HasNested(p: Pipeline, index: nat) {
    STEP0_INDEX <= index <= |p.steps| && p.steps[index - STEP0_INDEX].Nested?
  }

  /** The tree of scopes for a pipeline, before anything is entered. */
  function Build(p: Pipeline, f: Factories, c: CheckpointId, enclosing: Limits): Scope {
    var limits := ScopeLimits(p.limits, f, c, enclosing);
    Scope(limits, p.limits, false, 0,
          map k: nat | k <= |p.steps| && HasNested(p, k) :: Build(p.steps[k - STEP0_INDEX].pipeline, f, c, limits))
  }

  /** The loop of `rooted_at` and of `inner` over the items of a pipeline. */
  method BuildScope(p: Pipeline, f: Factories, c: CheckpointId, enclosing: Limits) returns (s: Scope)
    ensures s == Build(p, f, c, enclosing)
    decreases p
  {
    var limits := ScopeLimits(p.limits, f, c, enclosing);
    var nested: map<nat, Scope> := map[];
    for ix := 0 to |p.steps|
      invariant nested == map k: nat | k <= ix && HasNested(p, k) ::
                            Build(p.steps[k - STEP0_INDEX].pipeline, f, c, limits)
    {
      if p.steps[ix].Nested? {
        var inner := BuildScope(p.steps[ix].pipeline, f, c, limits);
        nested := nested[ix + STEP0_INDEX := inner];
      }
    }
    s := Scope(limits, p.limits, false, 0, nested);
  }

  function EnterScope(s: Scope, f: Factories, c: CheckpointId, enclosing: Limits): Scope
    requires !s.entered
  {
    s.(limits := ScopeLimits(s.factory, f, c, enclosing),
       entered := true,
       enterCounter := Min(s.enterCounter + 1, MAX_COUNTER))
  }

  /** Leaving a scope leaves the active scopes inside it as well. */
  function LeaveScope(s: Scope): Scope
    requires s.entered
  {
    s.(entered := false,
       nested := map k | k in s.nested :: if s.nested[k].entered then LeaveScope(s.nested[k]) else s.nested[k])
  }

  // ---------------------------------------------------------------------------------------
  // The tree

  function Get(s: Scope, path: Path): Option<Scope>
    decreases |path|
  {
    if path == [] then Some(s)
    else if path[0] in s.nested then Get(s.nested[path[0]], path[1..])
    else None
  }

  function Put(s: Scope, path: Path, t: Scope): Scope
    requires Get(s, path).Some?
    decreases |path|
  {
    if path == [] then t
    else s.(nested := s.nested[path[0] := Put(s.nested[path[0]], path[1..], t)])
  }

  /** The same scope, apart from what is nested in it. */
  ghost predicate SameFields(s: Scope, t: Scope) {
    s.limits == t.limits && s.factory == t.factory && s.entered == t.entered && s.enterCounter == t.enterCounter
  }

  /** Replacing a scope without touching what is nested in it changes that scope only. */
  lemma {:induction false} GetPut(s: Scope, at: Path, t: Scope, path: Path)
    requires Get(s, at).Some? && t.nested == Get(s, at).value.nested
    ensures Get(Put(s, at, t), path).Some? <==> Get(s, path).Some?
    ensures Get(s, path).Some? ==>
      SameFields(Get(Put(s, at, t), path).value, if path == at then t else Get(s, path).value)
    decreases |at|
  {
    if at != [] && path != [] && path[0] == at[0] {
      GetPut(s.nested[at[0]], at[1..], t, path[1..]);
      assert path == [path[0]] + path[1..] && at == [at[0]] + at[1..];
    }
  }

  predicate IsActive(s: Scope, path: Path) {
    Get(s, path).Some? && Get(s, path).value.entered
  }

  /** The scopes mirror the pipeline. */
  ghost predicate Mirrors(s: Scope, p: Pipeline) {
    && s.factory == p.limits
    && (forall k :: k in s.nested <==> HasNested(p, k))
    && forall k :: k in s.nested ==> Mirrors(s.nested[k], p.steps[k - STEP0_INDEX].pipeline)
  }

  lemma {:induction false} BuildMirrors(p: Pipeline, f: Factories, c: CheckpointId, enclosing: Limits)
    ensures Mirrors(Build(p, f, c, enclosing), p)
    decreases p
  {
    var s := Build(p, f, c, enclosing);
    forall k | k in s.nested
      ensures Mirrors(s.nested[k], p.steps[k - STEP0_INDEX].pipeline)
    {
      BuildMirrors(p.steps[k - STEP0_INDEX].pipeline, f, c, s.limits);
    }
  }

  lemma {:induction false} PutMirrors(s: Scope, at: Path, t: Scope, p: Pipeline)
    requires Mirrors(s, p) && Get(s, at).Some?
    requires t.nested == Get(s, at).value.nested && t.factory == Get(s, at).value.factory
    ensures Mirrors(Put(s, at, t), p)
    decreases |at|
  {
    if at != [] {
      var inner := p.steps[at[0] - STEP0_INDEX].pipeline;
      PutMirrors(s.nested[at[0]], at[1..], t, inner);
      NestedMirrors(s, at[0], Put(s.nested[at[0]], at[1..], t), p);
    }
  }

  lemma {:induction false} NestedMirrors(s: Scope, k: nat, t: Scope, p: Pipeline)
    requires Mirrors(s, p) && k in s.nested && Mirrors(t, p.steps[k - STEP0_INDEX].pipeline)
    ensures Mirrors(s.(nested := s.nested[k := t]), p)
  {
  }

  /** Every executable step has a scope. */
  lemma {:induction false} StepHasScope(s: Scope, p: Pipeline, step: Path)
    requires Mirrors(s, p) && IsStepPath(p, step)
    ensures Get(s, ScopeOf(step)).Some?
    decreases |step|
  {
    if |step| > 1 {
      StepHasScope(s.nested[step[0]], p.steps[step[0] - STEP0_INDEX].pipeline, step[1..]);
      assert ScopeOf(step)[1..] == ScopeOf(step[1..]);
    }
  }

  lemma {:induction false} PrefixHasScope(s: Scope, path: Path, prefix: Path)
    requires Get(s, path).Some? && prefix <= path
    ensures Get(s, prefix).Some?
    decreases |path|
  {
    if prefix != [] {
      PrefixHasScope(s.nested[path[0]], path[1..], prefix[1..]);
    }
  }

  // ---------------------------------------------------------------------------------------
  // Invariants

  /** The active scopes are exactly those of `path` and of the pipelines around it. */
  ghost predicate ActiveExactly(s: Scope, path: Path) {
    forall q :: Get(s, q).Some? ==> (IsActive(s, q) <==> q <= path)
  }

  ghost predicate AllInactive(s: Scope) {
    forall q :: !IsActive(s, q)
  }

  function Parent(path: Path): Path
    requires path != []
  {
    path[..|path| - 1]
  }

  /** Every active scope stays within its parent's limits, and the root within the platform's. */
  ghost predicate Tight(s: Scope, platform: Limits) {
    && NoLooser(s.limits, platform)
    && forall q :: q != [] && IsActive(s, q) && Get(s, Parent(q)).Some? ==>
         NoLooser(Get(s, q).value.limits, Get(s, Parent(q)).value.limits)
  }

  lemma {:induction false} ScopeLimitsNoLooser(factory: Option<FactoryId>, f: Factories, c: CheckpointId,
      enclosing: Limits)
    ensures NoLooser(ScopeLimits(factory, f, c, enclosing), enclosing)
  {
    var inner := if factory.Some? then f(factory.value, c, enclosing) else enclosing;
    ClampIsMeet(inner, enclosing, Clamp(inner, enclosing));
  }

  /** A scope with no active scope inside is left by clearing its own mark. */
  lemma {:induction false} LeaveInnermost(s: Scope, at: Path)
    requires ActiveExactly(s, at) && Get(s, at).Some?
    ensures Get(s, at).value.entered
    ensures LeaveScope(Get(s, at).value) == Get(s, at).value.(entered := false)
  {
    var t := Get(s, at).value;
    assert IsActive(s, at);
    forall k | k in t.nested
      ensures !t.nested[k].entered
    {
      GetExtends(s, at, k);
      assert !(at + [k] <= at);
    }
    assert LeaveScope(t).nested == t.nested;
  }

  lemma {:induction false} GetExtends(s: Scope, at: Path, k: nat)
    requires Get(s, at).Some? && k in Get(s, at).value.nested
    ensures Get(s, at + [k]) == Some(Get(s, at).value.nested[k])
    decreases |at|
  {
    if at != [] {
      GetExtends(s.nested[at[0]], at[1..], k);
      assert (at + [k])[1..] == at[1..] + [k];
    } else {
      assert [] + [k] == [k];
    }
  }

  lemma {:induction false} LeaveStep(s: Scope, at: Path, p: Pipeline, platform: Limits)
    requires at != [] && Get(s, at).Some?
    requires Mirrors(s, p) && ActiveExactly(s, at) && Tight(s, platform)
    ensures Get(s, at).value.entered
    ensures var s' := Put(s, at, LeaveScope(Get(s, at).value));
            && Mirrors(s', p) && ActiveExactly(s', Parent(at)) && Tight(s', platform)
            && SameScopes(s', s)
  {
    LeaveInnermost(s, at);
    var t := Get(s, at).value.(entered := false);
    PutMirrors(s, at, t, p);
    forall q
      ensures Get(Put(s, at, t), q).Some? <==> Get(s, q).Some?
      ensures Get(s, q).Some? ==>
        SameFields(Get(Put(s, at, t), q).value, if q == at then t else Get(s, q).value)
    {
      GetPut(s, at, t, q);
    }
    forall q | Get(s, q).Some? && q != at
      ensures q <= at <==> q <= Parent(at)
    {
    }
  }

  lemma {:induction false} EnterStep(s: Scope, at: Path, p: Pipeline, platform: Limits, f: Factories, c: CheckpointId)
    requires at != [] && Get(s, at).Some?
    requires Mirrors(s, p) && ActiveExactly(s, Parent(at)) && Tight(s, platform)
    ensures !Get(s, at).value.entered && Get(s, Parent(at)).Some?
    ensures var enclosing := Get(s, Parent(at)).value.limits;
            var t := EnterScope(Get(s, at).value, f, c, enclosing);
            var s' := Put(s, at, t);
            && Mirrors(s', p) && ActiveExactly(s', at) && Tight(s', platform)
            && Get(s', at).Some? && Get(s', at).value.limits == t.limits
            && SameScopes(s', s)
  {
    PrefixHasScope(s, at, Parent(at));
    assert !(at <= Parent(at));
    assert !IsActive(s, at);
    var enclosing := Get(s, Parent(at)).value.limits;
    var t := EnterScope(Get(s, at).value, f, c, enclosing);
    ScopeLimitsNoLooser(t.factory, f, c, enclosing);
    PutMirrors(s, at, t, p);
    var s' := Put(s, at, t);
    forall q
      ensures Get(s', q).Some? <==> Get(s, q).Some?
      ensures Get(s, q).Some? ==> SameFields(Get(s', q).value, if q == at then t else Get(s, q).value)
    {
      GetPut(s, at, t, q);
    }
    forall q | Get(s, q).Some? && q != at
      ensures q <= at <==> q <= Parent(at)
    {
    }
    forall q | q != [] && IsActive(s', q) && Get(s', Parent(q)).Some?
      ensures NoLooser(Get(s', q).value.limits, Get(s', Parent(q)).value.limits)
    {
      if q != at {
        assert q <= Parent(at) && Parent(q) != at;
        assert IsActive(s, q);
      }
    }
  }

  /** Leaving a scope deactivates everything in it. */
  lemma {:induction false} LeaveDeactivates(s: Scope, path: Path)
    requires s.entered && ActiveExactly(s, path)
    ensures AllInactive(LeaveScope(s))
    decreases |path|
  {
    var t := LeaveScope(s);
    forall q
      ensures !IsActive(t, q)
    {
      if q != [] && q[0] in s.nested {
        var k := q[0];
        var inner := s.nested[k];
        assert Get(s, [k]) == Some(inner) by { assert Get(inner, []) == Some(inner); }
        assert q == [k] + q[1..];
        if inner.entered {
          assert IsActive(s, [k]) && [k] <= path;
          ActiveInside(s, k, path);
          LeaveDeactivates(inner, path[1..]);
          assert t.nested[k] == LeaveScope(inner) && !IsActive(t.nested[k], q[1..]);
        } else {
          assert Get(t, q) == Get(s, q);
          assert q <= path ==> [k] <= path;
        }
      }
    }
  }

  lemma {:induction false} ActiveInside(s: Scope, k: nat, path: Path)
    requires k in s.nested && [k] <= path && ActiveExactly(s, path)
    ensures ActiveExactly(s.nested[k], path[1..])
  {
    forall r | Get(s.nested[k], r).Some?
      ensures IsActive(s.nested[k], r) <==> r <= path[1..]
    {
      var q := [k] + r;
      assert q[1..] == r && path == [k] + path[1..];
      assert Get(s, q) == Get(s.nested[k], r);
      assert IsActive(s, q) <==> q <= path;
      assert q <= path <==> r <= path[1..];
    }
  }

  lemma {:induction false} BuildInactive(p: Pipeline, f: Factories, c: CheckpointId, enclosing: Limits, path: Path)
    ensures !IsActive(Build(p, f, c, enclosing), path)
    decreases |path|
  {
    var s := Build(p, f, c, enclosing);
    if path != [] && path[0] in s.nested {
      BuildInactive(p.steps[path[0] - STEP0_INDEX].pipeline, f, c, s.limits, path[1..]);
    }
  }

  ghost predicate SameScopes(s: Scope, t: Scope) {
    forall q :: Get(s, q).Some? <==> Get(t, q).Some?
  }

  lemma {:induction false} AscentEnds(prev: Path, common: Path)
    requires common <= prev
    ensures prev[..|prev| - 0] == prev && prev[..|prev| - |Ascent(prev, common)|] == common
  {
  }

  lemma {:induction false} AscentAt(prev: Path, common: Path, i: nat)
    requires common <= prev && i < |Ascent(prev, common)|
    ensures Ascent(prev, common)[i] == prev[..|prev| - i]
    ensures Parent(prev[..|prev| - i]) == prev[..|prev| - (i + 1)]
  {
  }

  lemma {:induction false} DescentEnds(common: Path, next: Path)
    requires common <= next
    ensures next[..|common| + 0] == common && next[..|common| + |Descent(common, next)|] == next
  {
  }

  lemma {:induction false} NextDown(root: Scope, common: Path, next: Path, i: nat)
    requires common <= next && i < |Descent(common, next)| && Get(root, next).Some?
    ensures var s := Descent(common, next)[i];
            && s != [] && s == next[..|common| + (i + 1)] && Parent(s) == next[..|common| + i] && common <= Parent(s)
            && Get(root, s).Some?
  {
    DescentAt(common, next, i);
    PrefixHasScope(root, next, Descent(common, next)[i]);
  }

  lemma {:induction false} DescentAt(common: Path, next: Path, i: nat)
    requires common <= next && i < |Descent(common, next)|
    ensures Descent(common, next)[i] == next[..|common| + (i + 1)]
    ensures Parent(next[..|common| + (i + 1)]) == next[..|common| + i]
  {
  }

  // ---------------------------------------------------------------------------------------
  // What a switch changes

  /** Only the scope at `at` was replaced, by one with the fields of `t`. */
  ghost predicate OnlyAt(before: Scope, after: Scope, at: Path, t: Scope) {
    && SameScopes(after, before)
    && forall q :: Get(before, q).Some? ==> SameFields(Get(after, q).value, if q == at then t else Get(before, q).value)
  }

  lemma {:induction false} PutOnlyAt(s: Scope, at: Path, t: Scope)
    requires Get(s, at).Some? && t.nested == Get(s, at).value.nested
    ensures OnlyAt(s, Put(s, at, t), at, t)
  {
    forall q
      ensures Get(Put(s, at, t), q).Some? <==> Get(s, q).Some?
      ensures Get(s, q).Some? ==>
        SameFields(Get(Put(s, at, t), q).value, if q == at then t else Get(s, q).value)
    {
      GetPut(s, at, t, q);
    }
  }

  /** The scopes on the way from `top` down to `bottom`, without `top`. */
  predicate OnTheWay(q: Path, top: Path, bottom: Path) {
    q <= bottom && !(q <= top)
  }

  /** The scopes on the way were left, and nothing else has changed. */
  ghost predicate WayLeft(before: Scope, after: Scope, top: Path, bottom: Path) {
    && SameScopes(after, before)
    && forall q :: Get(before, q).Some? ==>
         var s := Get(before, q).value;
         SameFields(Get(after, q).value, if OnTheWay(q, top, bottom) then s.(entered := false) else s)
  }

  /** Entered once more, with limits made by its factory within those of the scope around it. */
  ghost predicate Renewed(before: Scope, after: Scope, f: Factories, c: CheckpointId, enclosing: Limits) {
    && after.entered && after.factory == before.factory
    && after.limits == ScopeLimits(before.factory, f, c, enclosing)
    && after.enterCounter == Min(before.enterCounter + 1, MAX_COUNTER)
  }

  /** The scopes on the way were entered, each within the limits of the one around it, and nothing else has
      changed. */
  ghost predicate WayEntered(before: Scope, after: Scope, top: Path, bottom: Path, f: Factories, c: CheckpointId) {
    && SameScopes(after, before)
    && forall q :: EnteredOrSame(before, after, q, OnTheWay(q, top, bottom), f, c)
  }

  ghost predicate EnteredOrSame(before: Scope, after: Scope, q: Path, entered: bool, f: Factories, c: CheckpointId)
    requires SameScopes(after, before)
  {
    Get(before, q).Some? ==>
      if entered then
        && q != [] && Get(after, Parent(q)).Some?
        && Renewed(Get(before, q).value, Get(after, q).value, f, c, Get(after, Parent(q)).value.limits)
      else SameFields(Get(after, q).value, Get(before, q).value)
  }

  lemma {:induction false} LeftOneMore(before: Scope, now: Scope, after: Scope, top: Path, bottom: Path)
    requires WayLeft(before, now, top, bottom) && top != [] && top <= bottom && Get(now, top).Some?
    requires OnlyAt(now, after, top, Get(now, top).value.(entered := false))
    ensures WayLeft(before, after, Parent(top), bottom)
  {
    forall q | Get(before, q).Some?
      ensures Get(after, q).Some?
      ensures OnTheWay(q, Parent(top), bottom) <==> q == top || OnTheWay(q, top, bottom)
    {
    }
  }

  lemma {:induction false} EnteredOneMore(before: Scope, now: Scope, after: Scope, top: Path, at: Path, f: Factories,
      c: CheckpointId)
    requires at != [] && top <= Parent(at) && Get(now, at).Some? && Get(now, Parent(at)).Some?
    requires WayEntered(before, now, top, Parent(at), f, c) && !Get(now, at).value.entered
    requires OnlyAt(now, after, at, EnterScope(Get(now, at).value, f, c, Get(now, Parent(at)).value.limits))
    ensures WayEntered(before, after, top, at, f, c)
  {
    assert EnteredOrSame(before, now, at, OnTheWay(at, top, Parent(at)), f, c) && !OnTheWay(at, top, Parent(at));
    forall q
      ensures EnteredOrSame(before, after, q, OnTheWay(q, top, at), f, c)
    {
      assert EnteredOrSame(before, now, q, OnTheWay(q, top, Parent(at)), f, c);
      assert OnTheWay(q, top, at) <==> q == at || OnTheWay(q, top, Parent(at));
      assert q != [] && q != at && OnTheWay(q, top, at) ==> Parent(q) != at;
      assert Parent(at) != at;
    }
  }

  /** What `switch_context` does to the tree: the scopes from the old one up to the common ancestor are left,
      those down to the new one are renewed, and all others, the common ancestor included, stay as they are. */
  ghost predicate Switched(before: Scope, after: Scope, prev: Path, next: Path, f: Factories, c: CheckpointId) {
    && SameScopes(after, before)
    && forall q :: SwitchedAt(before, after, q, prev, next, f, c)
  }

  ghost predicate SwitchedAt(before: Scope, after: Scope, q: Path, prev: Path, next: Path, f: Factories,
      c: CheckpointId)
    requires SameScopes(after, before)
  {
    Get(before, q).Some? ==>
      var common := CommonPrefix(prev, next);
      var s, t := Get(before, q).value, Get(after, q).value;
      if OnTheWay(q, common, next) then
        q != [] && Get(after, Parent(q)).Some? && Renewed(s, t, f, c, Get(after, Parent(q)).value.limits)
      else SameFields(t, if OnTheWay(q, common, prev) then s.(entered := false) else s)
  }

  lemma {:induction false} LeftThenEntered(before: Scope, now: Scope, after: Scope, prev: Path, next: Path,
      f: Factories, c: CheckpointId)
    requires WayLeft(before, now, CommonPrefix(prev, next), prev)
    requires WayEntered(now, after, CommonPrefix(prev, next), next, f, c)
    ensures Switched(before, after, prev, next, f, c)
  {
    var common := CommonPrefix(prev, next);
    forall q
      ensures SwitchedAt(before, after, q, prev, next, f, c)
    {
      assert EnteredOrSame(now, after, q, OnTheWay(q, common, next), f, c);
      if OnTheWay(q, common, next) && q <= prev {
        CommonPrefixIsLongest(prev, next, q);
      }
    }
  }

  // ---------------------------------------------------------------------------------------
  // Caps

  ghost predicate NoCap(s: Scope, kind: CapKind) {
    forall q :: Get(s, q).Some? ==> Cap(kind, Get(s, q).value.limits).None?
  }

  /** Without a cap of the platform no scope has one. */
  ghost predicate CappedByPlatform(s: Scope, platform: Limits) {
    forall kind :: Cap(kind, platform).None? ==> NoCap(s, kind)
  }

  lemma {:induction false} BuildHasNoCap(p: Pipeline, f: Factories, c: CheckpointId, enclosing: Limits, kind: CapKind,
      q: Path)
    requires Cap(kind, enclosing).None? && Get(Build(p, f, c, enclosing), q).Some?
    ensures Cap(kind, Get(Build(p, f, c, enclosing), q).value.limits).None?
    decreases |q|
  {
    if q != [] {
      var s := Build(p, f, c, enclosing);
      BuildHasNoCap(p.steps[q[0] - STEP0_INDEX].pipeline, f, c, s.limits, kind, q[1..]);
    }
  }

  lemma {:induction false} BuiltWithinPlatform(p: Pipeline, f: Factories, c: CheckpointId, platform: Limits)
    ensures CappedByPlatform(Build(p, f, c, platform), platform)
  {
    forall kind, q | Cap(kind, platform).None? && Get(Build(p, f, c, platform), q).Some?
      ensures Cap(kind, Get(Build(p, f, c, platform), q).value.limits).None?
    {
      BuildHasNoCap(p, f, c, platform, kind, q);
    }
  }

  lemma {:induction false} SwitchedHasNoCap(before: Scope, after: Scope, prev: Path, next: Path, f: Factories,
      c: CheckpointId, kind: CapKind, q: Path)
    requires Switched(before, after, prev, next, f, c) && NoCap(before, kind) && Get(after, q).Some?
    ensures Cap(kind, Get(after, q).value.limits).None?
    decreases |q|
  {
    assert Get(before, q).Some?;
    assert SwitchedAt(before, after, q, prev, next, f, c);
    if OnTheWay(q, CommonPrefix(prev, next), next) {
      SwitchedHasNoCap(before, after, prev, next, f, c, kind, Parent(q));
    }
  }

  lemma {:induction false} SwitchedWithinPlatform(before: Scope, after: Scope, prev: Path, next: Path, f: Factories,
      c: CheckpointId, platform: Limits)
    requires Switched(before, after, prev, next, f, c) && CappedByPlatform(before, platform)
    ensures CappedByPlatform(after, platform)
  {
    forall kind, q | Cap(kind, platform).None? && Get(after, q).Some?
      ensures Cap(kind, Get(after, q).value.limits).None?
    {
      SwitchedHasNoCap(before, after, prev, next, f, c, kind, q);
    }
  }

  lemma {:induction false} EnteredWithinPlatform(s: Scope, f: Factories, c: CheckpointId, platform: Limits)
    requires !s.entered && CappedByPlatform(s, platform)
    ensures CappedByPlatform(EnterScope(s, f, c, s.limits), platform)
  {
    var t := EnterScope(s, f, c, s.limits);
    forall kind, q | Cap(kind, platform).None? && Get(t, q).Some?
      ensures Cap(kind, Get(t, q).value.limits).None?
    {
      assert NoCap(s, kind) && Get(s, []).Some?;
      if q != [] {
        assert Get(t, q) == Get(s, q);
      }
    }
  }

  ghost predicate LimitsKept(after: Scope, before: Scope) {
    after.limits == before.limits && after.factory == before.factory && after.enterCounter == before.enterCounter
  }

  ghost predicate AllLimitsKept(after: Scope, before: Scope) {
    && SameScopes(after, before)
    && forall q :: Get(before, q).Some? ==> LimitsKept(Get(after, q).value, Get(before, q).value)
  }

  /** Leaving changes no limits and no counters. */
  lemma {:induction false} LeaveKeepsLimits(s: Scope, q: Path)
    requires s.entered && Get(LeaveScope(s), q).Some?
    ensures Get(s, q).Some? && LimitsKept(Get(LeaveScope(s), q).value, Get(s, q).value)
    decreases |q|
  {
    if q != [] && s.nested[q[0]].entered {
      LeaveKeepsLimits(s.nested[q[0]], q[1..]);
    }
  }

  lemma {:induction false} LeaveKeepsScopes(s: Scope, q: Path)
    requires s.entered
    ensures Get(LeaveScope(s), q).Some? <==> Get(s, q).Some?
    decreases |q|
  {
    if q != [] && q[0] in s.nested && s.nested[q[0]].entered {
      LeaveKeepsScopes(s.nested[q[0]], q[1..]);
    }
  }

  lemma {:induction false} LeaveKeepsAllLimits(s: Scope)
    requires s.entered
    ensures AllLimitsKept(LeaveScope(s), s)
  {
    forall q
      ensures Get(LeaveScope(s), q).Some? <==> Get(s, q).Some?
      ensures Get(s, q).Some? ==> LimitsKept(Get(LeaveScope(s), q).value, Get(s, q).value)
    {
      LeaveKeepsScopes(s, q);
      if Get(s, q).Some? {
        LeaveKeepsLimits(s, q);
      }
    }
  }

  lemma {:induction false} LeftWithinPlatform(s: Scope, platform: Limits)
    requires s.entered && CappedByPlatform(s, platform)
    ensures CappedByPlatform(LeaveScope(s), platform)
  {
    forall kind, q | Cap(kind, platform).None? && Get(LeaveScope(s), q).Some?
      ensures Cap(kind, Get(LeaveScope(s), q).value.limits).None?
    {
      LeaveKeepsLimits(s, q);
    }
  }

  /** Some choice of factories gives some scope a cap if and only if the platform has one: a factory cannot impose a
      transaction cap or a deadline of its own. */
  lemma {:induction false} CapsComeFromPlatformIff(p: Pipeline, platform: Limits, kind: CapKind)
    ensures (exists f: Factories, c, q :: HasCap(Build(p, f, c, platform), q, kind)) <==> Cap(kind, platform).Some?
  {
    if Cap(kind, platform).Some? {
      var f: Factories := (id: FactoryId, c: CheckpointId, enclosing: Limits) => enclosing;
      assert HasCap(Build(p, f, 0, platform), [], kind);
    } else {
      forall f: Factories, c, q
        ensures !HasCap(Build(p, f, c, platform), q, kind)
      {
        if Get(Build(p, f, c, platform), q).Some? {
          BuildHasNoCap(p, f, c, platform, kind, q);
        }
      }
    }
  }

  ghost predicate HasCap(s: Scope, q: Path, kind: CapKind) {
    Get(s, q).Some? && Cap(kind, Get(s, q).value.limits).Some?
  }

  // ---------------------------------------------------------------------------------------
  // The root scope

  datatype Event = Left(scope: Path) | Entered(scope: Path)

  function Lefts(paths: seq<Path>): (events: seq<Event>)
    ensures |events| == |paths|
  {
    seq(|paths|, i requires 0 <= i < |paths| => Left(paths[i]))
  }

  function Entereds(paths: seq<Path>): (events: seq<Event>)
    ensures |events| == |paths|
  {
    seq(|paths|, i requires 0 <= i < |paths| => Entered(paths[i]))
  }

  lemma {:induction false} LeftsSnoc(paths: seq<Path>, i: nat)
    requires i < |paths|
    ensures Lefts(paths[..i + 1]) == Lefts(paths[..i]) + [Left(paths[i])]
  {
  }

  lemma {:induction false} EnteredsSnoc(paths: seq<Path>, i: nat)
    requires i < |paths|
    ensures Entereds(paths[..i + 1]) == Entereds(paths[..i]) + [Entered(paths[i])]
  {
  }

  class RootScope {
    var root: Scope
    var current: Path
    ghost const pipeline: Pipeline
    ghost const platform: Limits

    /** What was entered and left so far. */
    ghost var log: seq<Event>

    ghost predicate Valid()
      reads this
    {
      && Mirrors(root, pipeline) && Get(root, current).Some?
      && NoLooser(root.limits, platform) && CappedByPlatform(root, platform)
    }

    /** Nothing has been entered, or everything has been left again. */
    ghost predicate Idle()
      reads this
    {
      Valid() && AllInactive(root)
    }

    ghost predicate Running()
      reads this
    {
      Valid() && ActiveExactly(root, current) && Tight(root, platform)
    }

    /** The scopes mirror the pipeline, those on the way to `path` are active, and the limits
        of the active ones are nested. */
    ghost predicate Sound(path: Path)
      reads this
    {
      Mirrors(root, pipeline) && ActiveExactly(root, path) && Tight(root, platform)
    }

    ghost predicate LimitsAre(path: Path, limits: Limits)
      reads this
    {
      Get(root, path).Some? && Get(root, path).value.limits == limits
    }

    constructor (pipeline: Pipeline, f: Factories, c: CheckpointId, platform: Limits)
      ensures this.pipeline == pipeline && this.platform == platform
      ensures Idle() && current == [] && log == []
      ensures root == Build(pipeline, f, c, platform)
    {
      var s := BuildScope(pipeline, f, c, platform);
      root := s;
      current := [];
      this.pipeline := pipeline;
      this.platform := platform;
      log := [];
      BuildMirrors(pipeline, f, c, platform);
      ScopeLimitsNoLooser(pipeline.limits, f, c, platform);
      BuiltWithinPlatform(pipeline, f, c, platform);
      forall q
        ensures !IsActive(s, q)
      {
        BuildInactive(pipeline, f, c, platform, q);
      }
    }

    /** Limits of the scope that a step runs in. */
    method LimitsOf(step: Path) returns (limits: Option<Limits>)
      requires step != []
      ensures Valid() && IsStepPath(pipeline, step) ==> limits.Some?
      ensures Valid() && limits.Some? ==>
        forall kind :: Cap(kind, platform).None? ==> Cap(kind, limits.value).None?
      ensures limits == match Get(root, ScopeOf(step)) case None => None case Some(s) => Some(s.limits)
    {
      if Valid() && IsStepPath(pipeline, step) {
        StepHasScope(root, pipeline, step);
      }
      var s := Get(root, ScopeOf(step));
      limits := match s case None => None case Some(t) => Some(t.limits);
    }

    /** The root scope renews its limits from its own current ones. */
    method Enter(f: Factories, c: CheckpointId)
      requires Idle() && current == []
      modifies this
      ensures Running() && current == []
      ensures !old(root).entered && root == EnterScope(old(root), f, c, old(root).limits)
      ensures Renewed(old(root), root, f, c, old(root).limits) && root.nested == old(root).nested
      ensures log == old(log) + [Entered([])]
    {
      var before := root;
      assert !IsActive(before, []);
      EnteredWithinPlatform(root, f, c, platform);
      root := EnterScope(root, f, c, root.limits);
      log := log + [Entered([])];
      ScopeLimitsNoLooser(before.factory, f, c, before.limits);
      NoLooserTransitive(root.limits, before.limits, platform);
      forall q | q != [] && Get(root, q).Some?
        ensures !IsActive(root, q)
      {
        assert Get(root, q) == Get(before, q) && !IsActive(before, q);
      }
    }

    method SwitchContext(nextStep: Path, f: Factories, c: CheckpointId)
      requires Running() && IsStepPath(pipeline, nextStep)
      modifies this
      ensures Running() && current == ScopeOf(nextStep)
      ensures var prev, next := old(current), ScopeOf(nextStep);
              var common := CommonPrefix(prev, next);
              log == old(log) + Lefts(Ascent(prev, common)) + Entereds(Descent(common, next))
      ensures Switched(old(root), root, old(current), ScopeOf(nextStep), f, c)
    {
      var next := ScopeOf(nextStep);
      var prev := current;
      StepHasScope(root, pipeline, nextStep);
      current := next;
      if prev != next {
        var common := CommonAncestor(prev, next);
        LeaveUp(prev, common);
        ghost var between := root;
        EnterDown(common, next, f, c);
        LeftThenEntered(old(root), between, root, prev, next, f, c);
        SwitchedWithinPlatform(old(root), root, prev, next, f, c, platform);
      } else {
        CommonPrefixIsLongest(prev, next, prev);
      }
    }

    /** Leaves the scopes from `prev` up to, but not including, `common`. */
    method LeaveUp(prev: Path, common: Path)
      requires common <= prev && Get(root, prev).Some?
      requires Sound(prev)
      modifies this`root, this`log
      ensures Sound(common) && WayLeft(old(root), root, common, prev)
      ensures log == old(log) + Lefts(Ascent(prev, common))
    {
      var up := Between(prev, common);
      AscentEnds(prev, common);
      for i := 0 to |up|
        invariant up == Ascent(prev, common)
        invariant Sound(prev[..|prev| - i]) && WayLeft(old(root), root, prev[..|prev| - i], prev)
        invariant log == old(log) + Lefts(up[..i])
      {
        AscentAt(prev, common, i);
        PrefixHasScope(old(root), prev, up[i]);
        LeaveNext(up[i], old(root), prev);
        LeftsSnoc(up, i);
      }
      assert up[..|up|] == up;
    }

    method LeaveNext(s: Path, ghost before: Scope, ghost prev: Path)
      requires s != [] && Get(root, s).Some? && s <= prev
      requires Sound(s) && WayLeft(before, root, s, prev)
      modifies this`root, this`log
      ensures Sound(Parent(s)) && WayLeft(before, root, Parent(s), prev)
      ensures log == old(log) + [Left(s)]
    {
      LeaveAt(s);
      LeftOneMore(before, old(root), root, s, prev);
    }

    method LeaveAt(s: Path)
      requires s != [] && Get(root, s).Some?
      requires Sound(s)
      modifies this`root, this`log
      ensures Sound(Parent(s))
      ensures OnlyAt(old(root), root, s, Get(old(root), s).value.(entered := false))
      ensures log == old(log) + [Left(s)]
    {
      LeaveStep(root, s, pipeline, platform);
      LeaveInnermost(root, s);
      PutOnlyAt(root, s, LeaveScope(Get(root, s).value));
      root := Put(root, s, LeaveScope(Get(root, s).value));
      log := log + [Left(s)];
    }

    /** Enters the scopes below `common` down to `next`, each within the limits of the one around it. */
    method EnterDown(common: Path, next: Path, f: Factories, c: CheckpointId)
      requires common <= next && Get(root, next).Some?
      requires Sound(common)
      modifies this`root, this`log
      ensures Sound(next) && WayEntered(old(root), root, common, next, f, c)
      ensures log == old(log) + Entereds(Descent(common, next))
    {
      PrefixHasScope(root, next, common);
      var enclosing := Get(root, common).value.limits;
      var down := Between(common, next);
      ghost var at := common;
      DescentEnds(common, next);
      for i := 0 to |down|
        invariant down == Descent(common, next) && at == next[..|common| + i]
        invariant Sound(at) && LimitsAre(at, enclosing) && WayEntered(old(root), root, common, at, f, c)
        invariant log == old(log) + Entereds(down[..i])
      {
        NextDown(old(root), common, next, i);
        enclosing := EnterNext(down[i], enclosing, f, c, old(root), common);
        EnteredsSnoc(down, i);
        at := down[i];
      }
      assert down[..|down|] == down;
    }

    method EnterNext(s: Path, enclosing: Limits, f: Factories, c: CheckpointId, ghost before: Scope, ghost common: Path)
      returns (limits: Limits)
      requires s != [] && Get(root, s).Some? && LimitsAre(Parent(s), enclosing) && common <= Parent(s)
      requires Sound(Parent(s)) && WayEntered(before, root, common, Parent(s), f, c)
      modifies this`root, this`log
      ensures Sound(s) && LimitsAre(s, limits) && WayEntered(before, root, common, s, f, c)
      ensures log == old(log) + [Entered(s)]
    {
      limits := EnterAt(s, enclosing, f, c);
      EnteredOneMore(before, old(root), root, common, s, f, c);
    }

    method EnterAt(s: Path, enclosing: Limits, f: Factories, c: CheckpointId) returns (limits: Limits)
      requires s != [] && Get(root, s).Some? && LimitsAre(Parent(s), enclosing)
      requires Sound(Parent(s))
      modifies this`root, this`log
      ensures Sound(s) && LimitsAre(s, limits)
      ensures !Get(old(root), s).value.entered
      ensures OnlyAt(old(root), root, s, EnterScope(Get(old(root), s).value, f, c, enclosing))
      ensures log == old(log) + [Entered(s)]
    {
      EnterStep(root, s, pipeline, platform, f, c);
      var t := EnterScope(Get(root, s).value, f, c, enclosing);
      PutOnlyAt(root, s, t);
      root := Put(root, s, t);
      limits := t.limits;
      log := log + [Entered(s)];
    }

    method Leave()
      requires Running()
      modifies this
      ensures Idle() && current == old(current) && AllLimitsKept(root, old(root))
      ensures log == old(log) + [Left([])]
    {
      assert IsActive(root, []);
      LeaveDeactivates(root, current);
      LeaveKeepsShape(root, pipeline, current);
      LeftWithinPlatform(root, platform);
      LeaveKeepsAllLimits(root);
      root := LeaveScope(root);
      log := log + [Left([])];
    }
  }

  lemma {:induction false} LeaveKeepsShape(s: Scope, p: Pipeline, path: Path)
    requires s.entered && Mirrors(s, p)
    ensures Mirrors(LeaveScope(s), p) && LeaveScope(s).limits == s.limits
    ensures Get(s, path).Some? ==> Get(LeaveScope(s), path).Some?
    decreases s
  {
    var t := LeaveScope(s);
    forall k | k in t.nested
      ensures Mirrors(t.nested[k], p.steps[k - STEP0_INDEX].pipeline)
      ensures path != [] && path[0] == k && Get(s.nested[k], path[1..]).Some? ==> Get(t.nested[k], path[1..]).Some?
    {
      if s.nested[k].entered {
        LeaveKeepsShape(s.nested[k], p.steps[k - STEP0_INDEX].pipeline, if path == [] then [] else path[1..]);
      }
    }
  }
}
