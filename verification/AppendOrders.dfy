/**
 The step that appends the best orders of the pool to the payload.

 The step remembers the orders it has attempted since the job began, so that an order that a later step
 removes again is not appended a second time.
 */
module AppendOrders {
  import opened Wrappers
  import opened Payload
  import opened Spans
  import opened BundleExecution
  import opened Extension
  import opened AppendRules
  import L = Limits

  /** The gas limit is compared with the gas of the whole payload. */
  lemma {:induction false} GasOfCandidate(evm: Evm, cfg: Config, limits: L.Limits, run: RunState, e: Executable,
      next: Checkpoint)
    requires !ShouldSkip(cfg, limits, run, e) && Applies(evm, run.payload, e, next)
    ensures Fits(evm, cfg, limits, run, e) <==> GasIn(History(next)) <= limits.gasLimit
  {
    HistoryGrows(run.payload, next);
  }

  /** Whether the deadline has passed when the step looks at the clock for the i-th time. */
  type Clock = nat -> bool

  function Begin(payload: Checkpoint): RunState {
    RunState(payload, 0, 0, 0, Hashes(TransactionsIn(History(payload))))
  }

  /** The state of one run of the step. */
  class Run {
    const evm: Evm
    const cfg: Config
    const limits: L.Limits
    var payload: Checkpoint
    var txsIncluded: nat
    var bundlesIncluded: nat
    var ordersIncluded: nat
    var maxTransactions: Option<nat>
    var existingTxs: set<Hash>

    ghost function State(): RunState
      reads this
    {
      RunState(payload, txsIncluded, bundlesIncluded, ordersIncluded, existingTxs)
    }

    ghost predicate Valid()
      reads this
    {
      maxTransactions == MaxTransactions(cfg, limits)
    }

    constructor (evm: Evm, cfg: Config, limits: L.Limits, payload: Checkpoint)
      ensures Valid() && this.evm == evm && this.cfg == cfg && this.limits == limits
      ensures State() == Begin(payload)
    {
      this.evm, this.cfg, this.limits, this.payload := evm, cfg, limits, payload;
      txsIncluded, bundlesIncluded, ordersIncluded := 0, 0, 0;
      maxTransactions := MaxTransactions(cfg, limits);
      existingTxs := Hashes(TransactionsIn(History(payload)));
    }

    /** `should_stop`. */
    method ShouldStop(deadlineReached: bool) returns (stop: bool)
      requires Valid()
      ensures stop <==> deadlineReached || LimitReached(cfg, limits, State())
    {
      if deadlineReached {
        return true;
      }
      if cfg.maxNewOrders.Some? && ordersIncluded >= cfg.maxNewOrders.value {
        return true;
      }
      if maxTransactions.Some? && txsIncluded >= maxTransactions.value {
        return true;
      }
      if cfg.maxNewBundles.Some? && bundlesIncluded >= cfg.maxNewBundles.value {
        return true;
      }
      var used := GasIn(History(payload));
      var remainingGas := if used <= limits.gasLimit then limits.gasLimit - used else 0;
      stop := remainingGas < MIN_TRANSACTION_GAS;
    }

    /** `should_skip`. */
    method SkipOrder(order: Executable) returns (skip: bool)
      requires Valid()
      ensures skip <==> ShouldSkip(cfg, limits, State(), order)
    {
      var txs := TransactionsOf(order);
      if maxTransactions.Some? && |txs| + txsIncluded > maxTransactions.value {
        return true;
      }
      if cfg.maxNewBundles.Some? && order.Bundled? && bundlesIncluded >= cfg.maxNewBundles.value {
        return true;
      }
      for i := 0 to |txs|
        invariant forall k :: 0 <= k < i ==> txs[k].hash !in existingTxs
      {
        if txs[i].hash in existingTxs {
          return true;
        }
      }
      skip := limits.blobParams.Some? && BlobGas(txs) + CountedIn(History(payload)) > MaxBlobGas(limits).value;
    }

    /** `try_include`: exactly the orders that fit are included. */
    method TryInclude(order: Executable) returns (ghost included: bool)
      requires Valid()
      modifies this
      ensures Valid()
      ensures included <==> Fits(evm, cfg, limits, old(State()), order)
      ensures included ==> Applies(evm, old(payload), order, payload) && State() == Including(old(State()), payload)
      ensures !included ==> State() == old(State())
    {
      included := false;
      var skip := SkipOrder(order);
      if skip {
        return;
      }
      var candidate := Apply(evm, payload, order);
      if candidate.Failure? {
        return;
      }
      GasOfCandidate(evm, cfg, limits, State(), order, candidate.value);
      if GasIn(History(candidate.value)) > limits.gasLimit {
        return;
      }
      Include(candidate.value);
      included := true;
    }

    method Include(candidate: Checkpoint)
      requires Valid()
      modifies this
      ensures Valid() && State() == Including(old(State()), candidate)
    {
      var txs := Transactions(candidate);
      ordersIncluded := ordersIncluded + 1;
      txsIncluded := txsIncluded + |txs|;
      bundlesIncluded := bundlesIncluded + if IsBundle(candidate) then 1 else 0;
      existingTxs := existingTxs + Hashes(txs);
      payload := candidate;
    }

    /** `end`. */
    method End() returns (r: Outcome)
      ensures r == if cfg.breakOnLimit && txsIncluded == 0 then Stop(payload) else Continue(payload)
    {
      r := if cfg.breakOnLimit && txsIncluded == 0 then Stop(payload) else Continue(payload);
    }
  }

  /** Everything a run keeps. */
  ghost predicate Sane(evm: Evm, cfg: Config, limits: L.Limits, start: Checkpoint, applied: seq<Executable>,
      run: RunState) {
    && Counts(evm, start, applied, run) && WithinCaps(cfg, limits, run)
    && WithinLimits(limits, start, run.payload) && NoDuplicates(start, applied, run.payload)
  }

  lemma {:induction false} IncludingKeepsSane(evm: Evm, cfg: Config, limits: L.Limits, start: Checkpoint,
      applied: seq<Executable>, run: RunState, e: Executable, next: Checkpoint)
    requires Sane(evm, cfg, limits, start, applied, run) && !LimitReached(cfg, limits, run)
    requires Fits(evm, cfg, limits, run, e) && Applies(evm, run.payload, e, next)
    ensures Sane(evm, cfg, limits, start, applied + [e], Including(run, next))
  {
    IncludingCounts(evm, start, applied, run, e, next);
    IncludingKeepsCaps(evm, cfg, limits, run, e, next);
    IncludingKeepsLimits(evm, cfg, limits, start, run, e, next);
    IncludingAddsNoDuplicate(evm, cfg, limits, start, applied, run, e, next);
  }

  /** The orders were not attempted before, and no two of them have the same hash. */
  ghost predicate FreshOrders(cfg: Config, applied: seq<Executable>, before: set<Hash>, attempted: set<Hash>) {
    && before <= attempted && |before| + |applied| <= |attempted|
    && (forall e :: e in applied ==> cfg.hash(e) in attempted - before)
    && forall i, j :: 0 <= i < j < |applied| ==> cfg.hash(applied[i]) != cfg.hash(applied[j])
  }

  lemma {:induction false} AttemptOne(cfg: Config, applied: seq<Executable>, before: set<Hash>, attempted: set<Hash>,
      e: Executable)
    requires FreshOrders(cfg, applied, before, attempted) && cfg.hash(e) !in attempted
    ensures FreshOrders(cfg, applied, before, attempted + {cfg.hash(e)})
    ensures FreshOrders(cfg, applied + [e], before, attempted + {cfg.hash(e)})
  {
    assert forall i :: 0 <= i < |applied| ==> applied[i] in applied;
  }

  /** An order is taken if it was never attempted in this job and fits. */
  ghost predicate IsTaken(evm: Evm, cfg: Config, limits: L.Limits, attempted: set<Hash>, run: RunState, e: Executable) {
    cfg.hash(e) !in attempted && Fits(evm, cfg, limits, run, e)
  }

  /** The state of the run before and after looking at an order. */
  ghost predicate Considered(evm: Evm, cfg: Config, limits: L.Limits, attempted: set<Hash>, run: RunState,
      e: Executable, next: RunState) {
    if IsTaken(evm, cfg, limits, attempted, run, e) then
      Applies(evm, run.payload, e, next.payload) && next == Including(run, next.payload)
    else next == run
  }

  ghost function OrderHashes(cfg: Config, orders: seq<Executable>): set<Hash> {
    set e | e in orders :: cfg.hash(e)
  }

  /** The states of a run that looks at these orders, one after the other. */
  ghost predicate Scan(evm: Evm, cfg: Config, limits: L.Limits, attempted: set<Hash>, orders: seq<Executable>,
      states: seq<RunState>) {
    && |states| == |orders| + 1
    && forall i :: 0 <= i < |orders| ==>
         && !LimitReached(cfg, limits, states[i])
         && Considered(evm, cfg, limits, attempted + OrderHashes(cfg, orders[..i]), states[i], orders[i], states[i + 1])
  }

  lemma {:induction false} ScanSnoc(evm: Evm, cfg: Config, limits: L.Limits, attempted: set<Hash>,
      orders: seq<Executable>, n: nat, states: seq<RunState>, next: RunState)
    requires n < |orders| && Scan(evm, cfg, limits, attempted, orders[..n], states)
    requires !LimitReached(cfg, limits, states[n])
    requires Considered(evm, cfg, limits, attempted + OrderHashes(cfg, orders[..n]), states[n], orders[n], next)
    ensures Scan(evm, cfg, limits, attempted, orders[..n + 1], states + [next])
    ensures attempted + OrderHashes(cfg, orders[..n + 1]) ==
      attempted + OrderHashes(cfg, orders[..n]) + {cfg.hash(orders[n])}
  {
    var seen, all := orders[..n + 1], states + [next];
    assert seen == orders[..n] + [orders[n]];
    forall i | 0 <= i < |seen|
      ensures !LimitReached(cfg, limits, all[i])
      ensures Considered(evm, cfg, limits, attempted + OrderHashes(cfg, seen[..i]), all[i], seen[i], all[i + 1])
    {
      assert seen[..i] == orders[..n][..i] && seen[i] == orders[i];
      assert i < n ==> seen[i] == orders[..n][i] && all[i] == states[i] && all[i + 1] == states[i + 1];
      assert i == n ==> orders[..n][..i] == orders[..n];
    }
  }

  /** A run ends at the deadline, at a limit, or after the last order, and not before. */
  ghost predicate EndsInTime(cfg: Config, limits: L.Limits, orders: seq<Executable>, late: Clock,
      states: seq<RunState>) {
    0 < |states| <= |orders| + 1 &&
    var n := |states| - 1;
    && (forall i :: 0 <= i < n ==> !late(i))
    && (late(n) || LimitReached(cfg, limits, states[n]) || n == |orders|)
  }

  /** What holds after some of the orders have been looked at. */
  ghost predicate Underway(evm: Evm, cfg: Config, limits: L.Limits, start: Checkpoint, orders: seq<Executable>,
                           applied: seq<Executable>, before: set<Hash>, attempted: set<Hash>, run: RunState) {
    && Sane(evm, cfg, limits, start, applied, run)
    && FreshOrders(cfg, applied, before, attempted)
    && FromOrders(cfg, orders, applied, before, attempted)
  }

  ghost predicate FromOrders(cfg: Config, orders: seq<Executable>, applied: seq<Executable>, before: set<Hash>,
      attempted: set<Hash>) {
    && (forall e :: e in applied ==> e in orders)
    && forall h :: h in attempted - before ==> exists e :: e in orders && cfg.hash(e) == h
  }

  lemma {:induction false} FromOrdersNext(cfg: Config, orders: seq<Executable>, applied: seq<Executable>,
      before: set<Hash>, attempted: set<Hash>, e: Executable)
    requires FromOrders(cfg, orders, applied, before, attempted) && e in orders
    ensures FromOrders(cfg, orders, applied, before, attempted + {cfg.hash(e)})
    ensures FromOrders(cfg, orders, applied + [e], before, attempted + {cfg.hash(e)})
  {
    var after := attempted + {cfg.hash(e)};
    forall h | h in after - before
      ensures exists x :: x in orders && cfg.hash(x) == h
    {
      assert h in attempted - before || h == cfg.hash(e);
    }
  }

  lemma {:induction false} UnderwayNext(evm: Evm, cfg: Config, limits: L.Limits, start: Checkpoint,
      orders: seq<Executable>, applied: seq<Executable>, before: set<Hash>, attempted: set<Hash>, run: RunState,
      e: Executable, next: RunState)
    requires Underway(evm, cfg, limits, start, orders, applied, before, attempted, run)
    requires e in orders && !LimitReached(cfg, limits, run)
    requires Considered(evm, cfg, limits, attempted, run, e, next)
    ensures var now := if IsTaken(evm, cfg, limits, attempted, run, e) then applied + [e] else applied;
            Underway(evm, cfg, limits, start, orders, now, before, attempted + {cfg.hash(e)}, next)
  {
    if cfg.hash(e) in attempted {
      assert attempted + {cfg.hash(e)} == attempted;
    } else {
      AttemptOne(cfg, applied, before, attempted, e);
      FromOrdersNext(cfg, orders, applied, before, attempted, e);
      if Fits(evm, cfg, limits, run, e) {
        IncludingKeepsSane(evm, cfg, limits, start, applied, run, e, next.payload);
      }
    }
  }

  lemma {:induction false} UnderwayFirst(evm: Evm, cfg: Config, limits: L.Limits, start: Checkpoint,
      orders: seq<Executable>, attempted: set<Hash>)
    requires WellFormed(start)
    ensures Underway(evm, cfg, limits, start, orders, [], attempted, attempted,
                     Begin(start))
  {
  }

  /** So a whole run keeps everything that one step keeps. */
  lemma {:induction false} ScanKeepsUnderway(evm: Evm, cfg: Config, limits: L.Limits, start: Checkpoint,
      orders: seq<Executable>, before: set<Hash>, n: nat, states: seq<RunState>) returns (applied: seq<Executable>)
    requires WellFormed(start) && n <= |orders|
    requires Scan(evm, cfg, limits, before, orders[..n], states) && states[0] == Begin(start)
    ensures Underway(evm, cfg, limits, start, orders, applied, before, before + OrderHashes(cfg, orders[..n]),
      states[n])
    decreases n
  {
    if n == 0 {
      UnderwayFirst(evm, cfg, limits, start, orders, before);
      assert before + OrderHashes(cfg, orders[..0]) == before;
      applied := [];
    } else {
      ScanPrefix(evm, cfg, limits, before, orders, n, states);
      var earlier := ScanKeepsUnderway(evm, cfg, limits, start, orders, before, n - 1, states[..n]);
      var seen := before + OrderHashes(cfg, orders[..n - 1]);
      UnderwayNext(evm, cfg, limits, start, orders, earlier, before, seen, states[n - 1], orders[n - 1], states[n]);
      var taken := IsTaken(evm, cfg, limits, seen, states[n - 1], orders[n - 1]);
      applied := if taken then earlier + [orders[n - 1]] else earlier;
    }
  }

  lemma {:induction false} ScanPrefix(evm: Evm, cfg: Config, limits: L.Limits, attempted: set<Hash>,
      orders: seq<Executable>, n: nat, states: seq<RunState>)
    requires 0 < n <= |orders| && Scan(evm, cfg, limits, attempted, orders[..n], states)
    ensures Scan(evm, cfg, limits, attempted, orders[..n - 1], states[..n])
    ensures !LimitReached(cfg, limits, states[n - 1])
    ensures Considered(evm, cfg, limits, attempted + OrderHashes(cfg, orders[..n - 1]), states[n - 1], orders[n - 1],
      states[n])
    ensures attempted + OrderHashes(cfg, orders[..n]) ==
      attempted + OrderHashes(cfg, orders[..n - 1]) + {cfg.hash(orders[n - 1])}
  {
    var all, front := orders[..n], orders[..n - 1];
    assert all == front + [orders[n - 1]] && all[..n - 1] == front;
    forall i | 0 <= i < |front|
      ensures !LimitReached(cfg, limits, states[..n][i])
      ensures Considered(evm, cfg, limits, attempted + OrderHashes(cfg, front[..i]), states[..n][i], front[i],
        states[..n][i + 1])
    {
      assert front[..i] == all[..i] && front[i] == all[i];
    }
  }

  /** A run that added transactions has attempted an order for the first time. */
  lemma {:induction false} AddingMeansAttempting(evm: Evm, cfg: Config, limits: L.Limits, start: Checkpoint,
      orders: seq<Executable>, applied: seq<Executable>, before: set<Hash>, attempted: set<Hash>, run: RunState)
    requires Underway(evm, cfg, limits, start, orders, applied, before, attempted, run)
    ensures |before| <= |attempted| && (run.txs > 0 ==> |before| < |attempted|)
  {
  }

  class AppendOrders {
    const cfg: Config
    var attempted: set<Hash>
    /** How often the step has let a surrounding loop go on, since the job began. */
    ghost var rounds: nat

    ghost predicate Valid()
      reads this
    {
      cfg.breakOnLimit ==> rounds <= |attempted|
    }

    constructor (cfg: Config)
      ensures Valid() && this.cfg == cfg && attempted == {}
    {
      this.cfg := cfg;
      attempted, rounds := {}, 0;
    }

    /** `before_job`. */
    method BeforeJob()
      modifies this
      ensures Valid() && attempted == {} && rounds == 0
    {
      attempted, rounds := {}, 0;
    }

    /** Looks at one order. */
    method Consider(run: Run, order: Executable)
      requires run.Valid() && run.cfg == cfg
      modifies this`attempted, run
      ensures run.Valid() && attempted == old(attempted) + {cfg.hash(order)}
      ensures Considered(run.evm, cfg, run.limits, old(attempted), old(run.State()), order, run.State())
    {
      if cfg.hash(order) in attempted {
        assert attempted + {cfg.hash(order)} == attempted;
        return;
      }
      attempted := attempted + {cfg.hash(order)};
      ghost var included := run.TryInclude(order);
    }

    /** The loop: orders are looked at one after the other, up to the deadline, a limit, or the last one. */
    method LookAtAll(run: Run, orders: seq<Executable>, late: Clock) returns (ghost states: seq<RunState>)
      requires run.Valid() && run.cfg == cfg
      modifies this`attempted, run
      ensures run.Valid() && 0 < |states| <= |orders| + 1
      ensures states[0] == old(run.State()) && states[|states| - 1] == run.State()
      ensures Scan(run.evm, cfg, run.limits, old(attempted), orders[..|states| - 1], states)
      ensures attempted == old(attempted) + OrderHashes(cfg, orders[..|states| - 1])
      ensures EndsInTime(cfg, run.limits, orders, late, states)
    {
      states := [run.State()];
      var next: nat := 0;
      while true
        invariant next <= |orders| && run.Valid()
        invariant forall i :: 0 <= i < next ==> !late(i)
        invariant |states| == next + 1 && states[0] == old(run.State()) && states[next] == run.State()
        invariant Scan(run.evm, cfg, run.limits, old(attempted), orders[..next], states)
        invariant attempted == old(attempted) + OrderHashes(cfg, orders[..next])
        decreases |orders| - next
      {
        var stop := run.ShouldStop(late(next));
        if stop || next == |orders| {
          return;
        }
        Consider(run, orders[next]);
        ScanSnoc(run.evm, cfg, run.limits, old(attempted), orders, next, states, run.State());
        states := states + [run.State()];
        next := next + 1;
      }
    }

    /** `step`. */
    method Step(evm: Evm, limits: L.Limits, payload: Checkpoint, orders: seq<Executable>, late: Clock)
      returns (r: Outcome, ghost applied: seq<Executable>, ghost states: seq<RunState>)
      requires Valid() && WellFormed(payload)
      modifies this
      ensures Valid() && rounds == old(rounds) + if r.Continue? then 1 else 0
      ensures 0 < |states| <= |orders| + 1 && states[0] == Begin(payload)
      ensures Scan(evm, cfg, limits, old(attempted), orders[..|states| - 1], states)
      ensures attempted == old(attempted) + OrderHashes(cfg, orders[..|states| - 1])
      ensures EndsInTime(cfg, limits, orders, late, states)
      ensures Underway(evm, cfg, limits, payload, orders, applied, old(attempted), attempted, states[|states| - 1])
      ensures var last := states[|states| - 1];
              && KeepsSealed(payload, last.payload)
              && r == if cfg.breakOnLimit && last.txs == 0 then Stop(last.payload) else Continue(last.payload)
    {
      var run := new Run(evm, cfg, limits, payload);
      states := LookAtAll(run, orders, late);
      r := run.End();
      applied := ScanKeepsUnderway(evm, cfg, limits, payload, orders, old(attempted), |states| - 1, states);
      ExtensionKeepsSealed(evm, payload, applied, run.payload);
      AddingMeansAttempting(evm, cfg, limits, payload, orders, applied, old(attempted), attempted, run.State());
      rounds := rounds + if r.Continue? then 1 else 0;
    }
  }

  ghost function PoolHashes(cfg: Config, pool: set<Executable>): set<Hash> {
    set e | e in pool :: cfg.hash(e)
  }

  lemma {:induction false} FreshOrdersConcat(cfg: Config, earlier: seq<Executable>, later: seq<Executable>,
      a: set<Hash>, b: set<Hash>, c: set<Hash>)
    requires FreshOrders(cfg, earlier, a, b) && FreshOrders(cfg, later, b, c)
    ensures FreshOrders(cfg, earlier + later, a, c)
  {
    var all := earlier + later;
    forall i | 0 <= i < |all|
      ensures i < |earlier| ==> all[i] in earlier && cfg.hash(all[i]) in b - a
      ensures i >= |earlier| ==> all[i] in later && cfg.hash(all[i]) in c - b
    {
    }
  }

  /** One round of a loop: what was attempted comes from the pool, and going on takes an order that was not. */
  lemma {:induction false} RoundAttempts(evm: Evm, cfg: Config, limits: L.Limits, start: Checkpoint,
      orders: seq<Executable>, pool: set<Executable>, applied: seq<Executable>, before: set<Hash>, attempted: set<Hash>,
      run: RunState)
    requires Underway(evm, cfg, limits, start, orders, applied, before, attempted, run)
    requires before <= PoolHashes(cfg, pool) && forall e :: e in orders ==> e in pool
    ensures attempted <= PoolHashes(cfg, pool) && |attempted| <= |PoolHashes(cfg, pool)|
    ensures run.txs > 0 ==> |before| < |attempted|
  {
    AddingMeansAttempting(evm, cfg, limits, start, orders, applied, before, attempted, run);
    forall h | h in attempted
      ensures h in PoolHashes(cfg, pool)
    {
      if h !in before {
        assert h in attempted - before;
        var e :| e in orders && cfg.hash(e) == h;
      }
    }
    SubsetIsSmaller(attempted, PoolHashes(cfg, pool));
  }

  /** A loop that goes on as long as the step lets it, as in a job with the default settings.  In each round the pool
      offers some orders in some sequence, the scope has some limits, the deadline passes some time, and the other steps
      of the loop turn the payload into any other one.  The loop is left after at most as many rounds as the pool has
      distinct orders, and none of them is applied a second time, even if another step has taken it out of the payload
      again. */
  method RepeatWhileAppending(step: AppendOrders, evm: Evm, pool: set<Executable>, limits: nat -> L.Limits,
      offered: nat -> seq<Executable>, late: nat -> Clock, others: (nat, Checkpoint) -> Checkpoint, payload: Checkpoint)
    returns (r: Checkpoint, rounds: nat, ghost applied: seq<Executable>)
    requires step.cfg.breakOnLimit && WellFormed(payload)
    requires forall k, e :: e in offered(k) ==> e in pool
    requires forall k, c :: WellFormed(c) ==> WellFormed(others(k, c))
    modifies step
    ensures WellFormed(r) && rounds <= |PoolHashes(step.cfg, pool)|
    ensures FreshOrders(step.cfg, applied, {}, step.attempted) && step.attempted <= PoolHashes(step.cfg, pool)
  {
    step.BeforeJob();
    r, rounds, applied := payload, 0, [];
    while true
      invariant step.Valid() && WellFormed(r) && rounds == step.rounds
      invariant FreshOrders(step.cfg, applied, {}, step.attempted)
      invariant step.attempted <= PoolHashes(step.cfg, pool)
      decreases |PoolHashes(step.cfg, pool)| - |step.attempted|
    {
      ghost var before := step.attempted;
      SubsetIsSmaller(before, PoolHashes(step.cfg, pool));
      var outcome;
      ghost var added, states;
      outcome, added, states := step.Step(evm, limits(rounds), others(rounds, r), offered(rounds), late(rounds));
      FreshOrdersConcat(step.cfg, applied, added, {}, before, step.attempted);
      RoundAttempts(evm, step.cfg, limits(rounds), others(rounds, r), offered(rounds), pool, added, before,
                    step.attempted, states[|states| - 1]);
      r, applied := outcome.payload, applied + added;
      if outcome.Stop? {
        return;
      }
      rounds := rounds + 1;
    }
  }
}
