/** Per-tick solve preparation (services/arb-solver/src/solve-core.ts, lines 376-563): the liveness masks,
    fingerprints and dual certificates that let a tick be skipped, and what a skip is worth. */
module SolvePrep {
  import opened Wrappers
  import opened Graph
  import opened Omega
  import opened Lp
  import opened FacetLp
  import opened LpBuilder
  import opened StateEnumerator
  import opened Completeness
  import opened Routing
  import opened Liveness
  import opened SkipFilter
  import opened SolveCore

  datatype Engine = Vrep | FacetEngine | Hybrid

  /** The priced legs of a cluster; `owner[i]` is the question of variable i, -1 for G. */
  datatype LegSet = LegSet(vars: seq<LPVar>, objective: seq<real>, owner: seq<int>, gIndex: Option<nat>)

  ghost predicate LegsOf(legs: LegSet, qids: seq<int>) {
    && |legs.vars| == |legs.owner| == |legs.objective| && GPlaced(legs.owner, legs.gIndex)
    && forall i :: 0 <= i < |legs.owner| && legs.owner[i] >= 0 ==> legs.owner[i] in qids
  }

  function WorldProblem(legs: LegSet, states: seq<World>): (lp: LPProblem)
    requires |legs.vars| == |legs.owner| == |legs.objective|
    ensures Rectangular(lp)
  {
    LPProblem(legs.objective, WorldRows(legs.vars, legs.owner, legs.gIndex, states),
              seq(|states|, _ => Target(legs.gIndex)), legs.vars, legs.gIndex, None)
  }

  function FacetProblem(legs: LegSet, c: Cluster, unquoted: set<int>): (lp: LPProblem)
    requires |legs.vars| == |legs.owner| == |legs.objective|
    ensures Rectangular(lp)
  {
    LPProblem(legs.objective, [], [], legs.vars, legs.gIndex, Some(FormOf(c, unquoted, legs.owner)))
  }

  predicate UsesFacets(engine: Engine, relaxed: bool, states: seq<World>) {
    engine.FacetEngine? || (engine.Hybrid? && (relaxed || states == []))
  }

  /** None when there is nothing to solve: no usable leg, or a stateless cluster under the row engine. */
  function ProblemFor(engine: Engine, c: Cluster, relaxed: bool, states: seq<World>, unquoted: set<int>,
                      legs: Option<LegSet>): (lp: Option<LPProblem>)
    requires legs.Some? ==> LegsOf(legs.value, c.qids)
    ensures lp.Some? ==> Rectangular(lp.value)
  {
    if !UsesFacets(engine, relaxed, states) && (relaxed || states == []) then None
    else if legs.None? then None
    else if UsesFacets(engine, relaxed, states) then Some(FacetProblem(legs.value, c, unquoted))
    else Some(WorldProblem(legs.value, states))
  }

  datatype Prep = SkipTick | SkipFilter | SkipQuotedFraction(fraction: real) | Solve(lp: LPProblem)

  datatype Options = Options(dedup: bool, skipFilter: bool, theta: real, floor: real, engine: Engine, maxStates: nat)

  /** Share of the cluster's questions that have a usable quote. */
  function QuotedFraction(total: nat, unquoted: nat): real
    requires total > 0
  {
    (total as real - unquoted as real) / total as real
  }

  // ---------- One tick of liveness, on values ----------

  /** The cluster carries exactly the states its recorded mask calls for. */
  ghost predicate InStep(c: Cluster, relaxed: bool, states: seq<World>, mask: multiset<int>, cap: nat) {
    !relaxed ==> states == MaskedStates(c, mask, cap)
  }

  lemma {:induction false} DemoteNothing(sets: seq<OutcomeSet>)
    ensures DemoteByIds(sets, {}) == sets
  {
    if sets != [] { DemoteNothing(sets[..|sets| - 1]); }
  }

  lemma {:induction false} NoMask(c: Cluster, cap: nat)
    ensures MaskedStates(c, multiset{}, cap) == StatesOf(Enumerate(c, cap))
  {
    assert IdsIn(multiset{}) == {};
    DemoteNothing(c.sets);
    assert c.(sets := c.sets) == c;
  }

  lemma {:induction false} RepairedStates(c: Cluster, states: seq<World>, cap: nat)
    ensures var r := RepairOf(c, states, cap); r.Repaired? ==> r.outcome == Enumerate(c.(sets := r.sets), cap)
  {
  }

  /** A freshly routed cluster with no recorded mask is in step, whatever load time decided about it. */
  lemma {:induction false} RoutedInStep(c: Cluster, cfg: Config, feasible: Feasibility, present: bool)
    ensures var r := Route(c, cfg, feasible, present);
            InStep(c.(sets := r.sets), r.relaxed, r.states, multiset{}, cfg.maxStates)
  {
    var r, o := Route(c, cfg, feasible, present), Enumerate(c, cfg.maxStates);
    RouteCases(c, cfg, feasible, present);
    if StatesOf(o) != [] { RepairedStates(c, StatesOf(o), cfg.maxStates); }
    NoMask(c.(sets := r.sets), cfg.maxStates);
    assert c.(sets := c.sets) == c;
  }

  method CollectDead(sets: seq<OutcomeSet>, unquoted: set<int>) returns (demote: seq<int>)
    ensures demote == DeadIds(sets, unquoted)
  {
    demote := [];
    for i := 0 to |sets|
      invariant demote == DeadIds(sets[..i], unquoted)
    {
      var os := sets[i];
      assert sets[..i + 1][..i] == sets[..i];
      if !os.setType.Categorical? || !os.exhaustive { continue; }
      if AnyIn(os.slots, unquoted) { demote := demote + [os.setId]; }
    }
    assert sets[..|sets|] == sets;
  }

  method ReenumerateStates(c: Cluster, mask: multiset<int>, cap: nat) returns (states: seq<World>)
    ensures states == MaskedStates(c, mask, cap)
  {
    var outcome: Outcome;
    if mask == multiset{} {
      NoMask(c, cap);
      outcome := EnumerateStatesMeta(c, cap);
    } else {
      outcome := EnumerateStatesMeta(c.(sets := DemoteByIds(c.sets, IdsIn(mask))), cap);
    }
    states := StatesOf(outcome);
  }

  // ---------- One tick, on values ----------

  datatype Caches<F> = Caches(fingerprints: map<int, F>, certs: map<int, Cert>, masks: map<int, multiset<int>>)

  ghost predicate AllStored<F>(caches: Caches<F>) {
    forall id :: id in caches.certs ==> Stored(caches.certs[id])
  }

  function MaskIn<F>(caches: Caches<F>, id: int): multiset<int> {
    if id in caches.masks then caches.masks[id] else multiset{}
  }

  function CertIn<F>(caches: Caches<F>, id: int): Option<Cert> {
    if id in caches.certs then Some(caches.certs[id]) else None
  }

  /** A routed cluster as a tick sees it. */
  datatype Loaded = Loaded(shape: Cluster, relaxed: bool, degenerate: bool, states: seq<World>)

  /** What the price cache supplies on a tick. */
  datatype Quotes<F> = Quotes(unquoted: set<int>, fingerprint: F, legs: Option<LegSet>)

  datatype Ticked<F> = Ticked(prep: Prep, caches: Caches<F>, states: seq<World>)

  predicate Refused(k: Loaded, opts: Options) {
    k.degenerate || (!UsesFacets(opts.engine, k.relaxed, k.states) && k.relaxed)
  }

  predicate TooQuiet(k: Loaded, unquoted: set<int>, opts: Options) {
    |k.shape.qids| > 0 && QuotedFraction(|k.shape.qids|, |unquoted|) < opts.floor
  }

  predicate MaskMoves<F>(caches: Caches<F>, id: int, k: Loaded, unquoted: set<int>) {
    !k.relaxed && MaskIn(caches, id) != MaskOf(k.shape.sets, unquoted)
  }

  /** The liveness step: on a transition the stored certificate and fingerprint go too. */
  function Settle<F>(caches: Caches<F>, id: int, k: Loaded, unquoted: set<int>, cap: nat): (Caches<F>, seq<World>) {
    if MaskMoves(caches, id, k, unquoted) then
      var mask := MaskOf(k.shape.sets, unquoted);
      (Caches(caches.fingerprints - {id}, caches.certs - {id}, caches.masks[id := mask]),
       MaskedStates(k.shape, mask, cap))
    else (caches, k.states)
  }

  /** Whatever the mask history, the tick leaves the cluster with the states its dead sets call for, and
      the recorded mask names exactly those sets. */
  lemma {:induction false} SettleInStep<F>(caches: Caches<F>, id: int, k: Loaded, unquoted: set<int>, cap: nat)
    requires InStep(k.shape, k.relaxed, k.states, MaskIn(caches, id), cap)
    ensures var (settled, states) := Settle(caches, id, k, unquoted, cap);
            InStep(k.shape, k.relaxed, states, MaskIn(settled, id), cap) &&
            (!k.relaxed ==> MaskIn(settled, id) == MaskOf(k.shape.sets, unquoted))
  {
  }

  function Finish<F(==)>(caches: Caches<F>, id: int, k: Loaded, states: seq<World>, q: Quotes<F>,
                         opts: Options): Ticked<F>
    requires AllStored(caches) && (q.legs.Some? ==> LegsOf(q.legs.value, k.shape.qids))
  {
    var lp := ProblemFor(opts.engine, k.shape, k.relaxed, states, q.unquoted, q.legs);
    if lp.None? then Ticked(SkipTick, caches, states)
    else if opts.skipFilter && Skips(CertIn(caches, id), lp.value, opts.theta, EPS)
      then Ticked(SkipFilter, caches, states)
    else Ticked(Solve(lp.value), caches, states)
  }

  function AfterSettle<F(==)>(settled: Caches<F>, id: int, k: Loaded, changed: bool, states: seq<World>, q: Quotes<F>,
                              opts: Options): Ticked<F>
    requires AllStored(settled) && (q.legs.Some? ==> LegsOf(q.legs.value, k.shape.qids))
  {
    if changed && !UsesFacets(opts.engine, k.relaxed, k.states) && states == [] then Ticked(SkipTick, settled, states)
    else if !opts.dedup then Finish(settled, id, k, states, q, opts)
    else if id in settled.fingerprints && settled.fingerprints[id] == q.fingerprint
      then Ticked(SkipTick, settled, states)
    else Finish(settled.(fingerprints := settled.fingerprints[id := q.fingerprint]), id, k, states, q, opts)
  }

  function Tick<F(==)>(caches: Caches<F>, id: int, k: Loaded, q: Quotes<F>, opts: Options): Ticked<F>
    requires AllStored(caches) && (q.legs.Some? ==> LegsOf(q.legs.value, k.shape.qids))
  {
    if Refused(k, opts) then Ticked(SkipTick, caches, k.states)
    else if TooQuiet(k, q.unquoted, opts) then
      Ticked(SkipQuotedFraction(QuotedFraction(|k.shape.qids|, |q.unquoted|)), caches, k.states)
    else
      var settled := Settle(caches, id, k, q.unquoted, opts.maxStates);
      AfterSettle(settled.0, id, k, MaskMoves(caches, id, k, q.unquoted), settled.1, q, opts)
  }

  // ---------- The caches ----------

  class SolveState<F(==)> {
    var fingerprints: map<int, F>
    var certs: map<int, Cert>
    var masks: map<int, multiset<int>>

    /** Whatever the solver returned, only usable certificates are kept. */
    ghost predicate Valid()
      reads this
    {
      forall id :: id in certs ==> Stored(certs[id])
    }

    function Contents(): Caches<F>
      reads this
    {
      Caches(fingerprints, certs, masks)
    }

    function MaskAt(id: int): multiset<int>
      reads this
    {
      if id in masks then masks[id] else multiset{}
    }

    function CertAt(id: int): Option<Cert>
      reads this
    {
      if id in certs then Some(certs[id]) else None
    }

    constructor ()
      ensures Valid() && fingerprints == map[] && certs == map[] && masks == map[]
    {
      fingerprints, certs, masks := map[], map[], map[];
    }

    /** After a solve: an untrusted result removes the certificate instead of keeping an old one. */
    method RefreshCert(id: int, lp: LPProblem, result: LPResult)
      requires Valid() && Rectangular(lp)
      modifies this`certs
      ensures Valid() && certs == old(certs) - {id} + (if id in certs then map[id := certs[id]] else map[])
      ensures id in certs <==> lp.facetForm.None? && result.status == Optimal && lp.gIndex.None? &&
                               result.rowDual.Some? && |result.rowDual.value| == |lp.constraints|
      ensures id in certs ==> certs[id] == CertFrom(lp, result.optimalCost, result.rowDual.value)
    {
      var cert := BuildCert(lp, result);
      if cert.Some? {
        BuiltIsStored(lp, result.optimalCost, result.rowDual.value);
        certs := certs[id := cert.value];
      } else {
        certs := certs - {id};
      }
    }

    /** Re-enumerates only when the set of dead Σ = 1 sets changed. */
    method ApplyLivenessDemotion(cluster: ClusterNode, ghost c: Cluster, unquoted: set<int>, maxStates: nat)
      returns (changed: bool)
      requires c == cluster.Shape()
      modifies this`masks, cluster`validStates
      ensures cluster.Shape() == c
      ensures changed <==> !cluster.relaxed && old(MaskAt(cluster.id)) != MaskOf(c.sets, unquoted)
      ensures masks == if changed then old(masks)[cluster.id := MaskOf(c.sets, unquoted)] else old(masks)
      ensures cluster.validStates == if changed then MaskedStates(c, MaskOf(c.sets, unquoted), maxStates)
                else old(cluster.validStates)
    {
      if cluster.relaxed { return false; }
      var demote := CollectDead(cluster.Shape().sets, unquoted);
      var mask := multiset(demote);
      if mask == MaskAt(cluster.id) { return false; }
      var states := ReenumerateStates(cluster.Shape(), mask, maxStates);
      masks := masks[cluster.id := mask];
      assert cluster.Shape() == c;
      cluster.SetStates(states);
      changed := true;
    }

    method FinishSolve(id: int, k: Loaded, states: seq<World>, q: Quotes<F>, opts: Options) returns (prep: Prep)
      requires Valid() && (q.legs.Some? ==> LegsOf(q.legs.value, k.shape.qids))
      ensures Ticked(prep, Contents(), states) == Finish(Contents(), id, k, states, q, opts)
    {
      var lp := ProblemFor(opts.engine, k.shape, k.relaxed, states, q.unquoted, q.legs);
      if lp.None? { return SkipTick; }
      if opts.skipFilter {
        var decision := DecideSkip(CertAt(id), lp.value, opts.theta, EPS);
        if decision.skip { return SkipFilter; }
      }
      prep := Solve(lp.value);
    }

    /** Must come before the fingerprint and the skip filter: no certificate survives a transition. */
    method LivenessStep(cluster: ClusterNode, ghost k: Loaded, unquoted: set<int>, maxStates: nat)
      returns (changed: bool)
      requires Valid() && k == Loaded(cluster.Shape(), cluster.relaxed, cluster.degenerate, cluster.validStates)
      modifies this, cluster`validStates
      ensures Valid() && cluster.Shape() == k.shape && changed == old(MaskMoves(Contents(), cluster.id, k, unquoted))
      ensures (Contents(), cluster.validStates) == Settle(old(Contents()), cluster.id, k, unquoted, maxStates)
    {
      hide MaskedStates, MaskOf;
      changed := ApplyLivenessDemotion(cluster, k.shape, unquoted, maxStates);
      if changed { Forget(cluster.id); }
      assert cluster.Shape() == k.shape;
    }

    method Forget(id: int)
      requires Valid()
      modifies this`certs, this`fingerprints
      ensures Valid() && Contents() == old(Caches(fingerprints - {id}, certs - {id}, masks))
    {
      certs, fingerprints := certs - {id}, fingerprints - {id};
    }

    /** Skips a tick whose fingerprint repeats; otherwise remembers it. */
    method SeenBefore(id: int, fingerprint: F) returns (seen: bool)
      modifies this`fingerprints
      ensures seen == old(id in fingerprints && fingerprints[id] == fingerprint)
      ensures fingerprints == if seen then old(fingerprints) else old(fingerprints)[id := fingerprint]
    {
      if id in fingerprints && fingerprints[id] == fingerprint { return true; }
      fingerprints := fingerprints[id := fingerprint];
      seen := false;
    }

    /** The part of a tick after the liveness step. */
    method AfterLiveness(id: int, k: Loaded, changed: bool, states: seq<World>, q: Quotes<F>, opts: Options)
      returns (prep: Prep)
      requires Valid() && (q.legs.Some? ==> LegsOf(q.legs.value, k.shape.qids))
      modifies this`fingerprints
      ensures Valid() && Ticked(prep, Contents(), states) ==
                AfterSettle(old(Contents()), id, k, changed, states, q, opts)
    {
      var facetPath := UsesFacets(opts.engine, k.relaxed, k.states);
      if changed && !facetPath && |states| == 0 { return SkipTick; }
      if opts.dedup {
        var seen := SeenBefore(id, q.fingerprint);
        if seen { return SkipTick; }
      }
      prep := FinishSolve(id, k, states, q, opts);
    }

    /** The whole tick for one cluster: new caches, new states and the verdict, on every path. */
    method PrepareClusterForSolve(cluster: ClusterNode, q: Quotes<F>, opts: Options) returns (prep: Prep)
      requires Valid() && (q.legs.Some? ==> LegsOf(q.legs.value, cluster.qids))
      modifies this, cluster`validStates
      ensures Valid() && cluster.Shape() == old(cluster.Shape())
      ensures Ticked(prep, Contents(), cluster.validStates) ==
              Tick(old(Contents()), cluster.id, old(Loaded(cluster.Shape(), cluster.relaxed, cluster.degenerate,
                                                           cluster.validStates)), q, opts)
    {
      var k := Loaded(cluster.Shape(), cluster.relaxed, cluster.degenerate, cluster.validStates);
      if Refused(k, opts) { return SkipTick; }
      var total := |k.shape.qids|;
      if total > 0 {
        var fraction := QuotedFraction(total, |q.unquoted|);
        if fraction < opts.floor { return SkipQuotedFraction(fraction); }
      }
      var changed := LivenessStep(cluster, k, q.unquoted, opts.maxStates);
      prep := AfterLiveness(cluster.id, k, changed, cluster.validStates, q, opts);
    }
  }
}
