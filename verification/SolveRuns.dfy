/** Whole runs of the solving daemon (services/arb-solver/src/index.ts with solve-core.ts): reloads, ticks and
    finished solves in any order, and what its shortcuts guarantee on every one of them. */
module SolveRuns {
  import opened Wrappers
  import opened Graph
  import opened Omega
  import opened Lp
  import opened LpBuilder
  import opened StateEnumerator
  import opened Completeness
  import opened Routing
  import opened EnumerationOwner
  import opened Liveness
  import opened SkipFilter
  import opened SolvePrep

  datatype Daemon<F> = Daemon(clusters: map<int, Loaded>, caches: Caches<F>)

  /** Reload covers graph loads and belt refreshes: ids are reassigned and every cache is dropped. */
  datatype Event<F> =
    | Reload(graph: map<int, Cluster>, feasible: Feasibility, present: bool)
    | TickOf(id: int, quotes: Quotes<F>, opts: Options)
    | Solved(id: int, lp: LPProblem, result: LPResult)

  function LoadedFrom(c: Cluster, r: Routed): Loaded {
    Loaded(c.(sets := r.sets), r.relaxed, r.degenerate, r.states)
  }

  function Start<F>(): Daemon<F> {
    Daemon(map[], Caches(map[], map[], map[]))
  }

  ghost predicate Trusted(lp: LPProblem, result: LPResult) {
    lp.facetForm.None? && result.status == Optimal && lp.gIndex.None? &&
    result.rowDual.Some? && |result.rowDual.value| == |lp.constraints|
  }

  /** The certificates after a solve, as `RefreshCert` leaves them. */
  ghost function AfterSolve(certs: map<int, Cert>, id: int, lp: LPProblem, result: LPResult): map<int, Cert>
    requires Rectangular(lp)
  {
    if Trusted(lp, result) then certs[id := CertFrom(lp, result.optimalCost, result.rowDual.value)] else certs - {id}
  }

  /** Events the daemon can see: a tick for a known cluster with legs of its questions, under the run's
      enumeration cap; a solver that returns non-negative row duals. */
  ghost predicate Possible<F>(d: Daemon<F>, e: Event<F>, cfg: Config) {
    match e
    case Reload(_, _, _) => true
    case TickOf(id, q, opts) =>
      && id in d.clusters && AllStored(d.caches) && opts.maxStates == cfg.maxStates
      && (q.legs.Some? ==> LegsOf(q.legs.value, d.clusters[id].shape.qids))
    case Solved(id, lp, result) =>
      Rectangular(lp) && (result.rowDual.Some? ==> forall s :: 0 <= s < |result.rowDual.value| ==>
                                                                 result.rowDual.value[s] >= 0.0)
  }

  ghost function Step<F>(d: Daemon<F>, e: Event<F>, cfg: Config): Daemon<F>
    requires Possible(d, e, cfg)
  {
    match e
    case Reload(graph, feasible, present) =>
      Daemon(map id | id in graph :: LoadedFrom(graph[id], Route(graph[id], cfg, feasible, present)),
             Caches(map[], map[], map[]))
    case TickOf(id, q, opts) =>
      var t := Tick(d.caches, id, d.clusters[id], q, opts);
      Daemon(d.clusters[id := d.clusters[id].(states := t.states)], t.caches)
    case Solved(id, lp, result) => d.(caches := d.caches.(certs := AfterSolve(d.caches.certs, id, lp, result)))
  }

  /** A run: `ds[i + 1]` is what event i makes of `ds[i]`, from a fresh daemon on. */
  ghost predicate Run<F>(ds: seq<Daemon<F>>, es: seq<Event<F>>, cfg: Config) {
    && |ds| == |es| + 1 && ds[0] == Start()
    && forall i :: 0 <= i < |es| ==> Possible(ds[i], es[i], cfg) && ds[i + 1] == Step(ds[i], es[i], cfg)
  }

  // ---------- The invariant of every run ----------

  ghost predicate Usable(c: Cert) {
    Stored(c) && forall s :: 0 <= s < |c.rowDual| ==> c.rowDual[s] >= 0.0
  }

  /** What load time established: a cluster that may be solved shows every question both ways. */
  ghost predicate Sound(k: Loaded, cap: nat) {
    !k.degenerate && StatesOf(Enumerate(k.shape, cap)) != [] ==>
      forall q :: q in k.shape.qids ==> BothValues(StatesOf(Enumerate(k.shape, cap)), q)
  }

  ghost predicate Good<F>(d: Daemon<F>, cfg: Config) {
    && (forall id :: id in d.clusters ==>
          InStep(d.clusters[id].shape, d.clusters[id].relaxed, d.clusters[id].states, MaskIn(d.caches, id),
                 cfg.maxStates) &&
          Sound(d.clusters[id], cfg.maxStates))
    && (forall id :: id in d.caches.certs ==> Usable(d.caches.certs[id]))
  }

  lemma {:induction false} LoadedSound(c: Cluster, cfg: Config, feasible: Feasibility, present: bool)
    ensures Sound(LoadedFrom(c, Route(c, cfg, feasible, present)), cfg.maxStates)
    ensures var k := LoadedFrom(c, Route(c, cfg, feasible, present));
            InStep(k.shape, k.relaxed, k.states, multiset{}, cfg.maxStates)
  {
    var r := Route(c, cfg, feasible, present);
    RoutedInStep(c, cfg, feasible, present);
    NoMask(c.(sets := r.sets), cfg.maxStates);
    if !r.degenerate && r.states != [] { RepairTheorem(c, cfg, feasible, present); }
    if r.relaxed { RelaxedHasNoStates(c, cfg, feasible, present); }
  }

  lemma {:induction false} RelaxedHasNoStates(c: Cluster, cfg: Config, feasible: Feasibility, present: bool)
    requires Route(c, cfg, feasible, present).relaxed
    ensures var r := Route(c, cfg, feasible, present);
            r.sets == c.sets && StatesOf(Enumerate(c.(sets := r.sets), cfg.maxStates)) == []
  {
    assert c.(sets := c.sets) == c;
  }

  lemma {:induction false} TickKeepsCerts<F>(caches: Caches<F>, id: int, k: Loaded, q: Quotes<F>, opts: Options,
                                             other: int)
    requires AllStored(caches) && (q.legs.Some? ==> LegsOf(q.legs.value, k.shape.qids))
    requires other in Tick(caches, id, k, q, opts).caches.certs
    ensures other in caches.certs && Tick(caches, id, k, q, opts).caches.certs[other] == caches.certs[other]
  {
    hide MaskedStates, MaskOf, ProblemFor, Skips;
  }

  lemma {:induction false} TickMasks<F>(caches: Caches<F>, id: int, k: Loaded, q: Quotes<F>, opts: Options)
    requires AllStored(caches) && (q.legs.Some? ==> LegsOf(q.legs.value, k.shape.qids))
    requires InStep(k.shape, k.relaxed, k.states, MaskIn(caches, id), opts.maxStates)
    ensures var t := Tick(caches, id, k, q, opts);
            && InStep(k.shape, k.relaxed, t.states, MaskIn(t.caches, id), opts.maxStates)
            && forall other :: other != id ==> MaskIn(t.caches, other) == MaskIn(caches, other)
  {
    hide MaskedStates, MaskOf, AfterSettle;
    SettleInStep(caches, id, k, q.unquoted, opts.maxStates);
    if GetsThrough(k, q.unquoted, opts) {
      var settled := Settle(caches, id, k, q.unquoted, opts.maxStates);
      AfterSettleKeeps(settled.0, id, k, MaskMoves(caches, id, k, q.unquoted), settled.1, q, opts);
    }
  }

  /** Dedup and the skip filter move neither masks nor states. */
  lemma {:induction false} AfterSettleKeeps<F>(settled: Caches<F>, id: int, k: Loaded, changed: bool,
                                               states: seq<World>, q: Quotes<F>, opts: Options)
    requires AllStored(settled) && (q.legs.Some? ==> LegsOf(q.legs.value, k.shape.qids))
    ensures var t := AfterSettle(settled, id, k, changed, states, q, opts);
            t.caches.masks == settled.masks && t.states == states && t.caches.certs == settled.certs
  {
    hide ProblemFor, Skips;
  }

  /** The tick got past the degenerate, relaxed and quiet-cluster gates. */
  predicate GetsThrough(k: Loaded, unquoted: set<int>, opts: Options) {
    !Refused(k, opts) && !TooQuiet(k, unquoted, opts)
  }

  lemma {:induction false} StepKeepsGood<F>(d: Daemon<F>, e: Event<F>, cfg: Config)
    requires Good(d, cfg) && Possible(d, e, cfg)
    ensures Good(Step(d, e, cfg), cfg)
  {
    match e
    case Reload(graph, feasible, present) =>
      forall id | id in graph ensures
        var k := LoadedFrom(graph[id], Route(graph[id], cfg, feasible, present));
        Sound(k, cfg.maxStates) && InStep(k.shape, k.relaxed, k.states, multiset{}, cfg.maxStates)
      {
        LoadedSound(graph[id], cfg, feasible, present);
      }
    case TickOf(id, q, opts) =>
      TickKeepsGood(d, id, q, opts, cfg);
    case Solved(id, lp, result) =>
      if Trusted(lp, result) { BuiltIsStored(lp, result.optimalCost, result.rowDual.value); }
  }

  lemma {:induction false} TickKeepsGood<F>(d: Daemon<F>, id: int, q: Quotes<F>, opts: Options, cfg: Config)
    requires Good(d, cfg) && Possible(d, TickOf(id, q, opts), cfg)
    ensures Good(Step(d, TickOf(id, q, opts), cfg), cfg)
  {
    hide Tick, InStep, Enumerate, LegsOf;
    var k := d.clusters[id];
    var t := Tick(d.caches, id, k, q, opts);
    TickMasks(d.caches, id, k, q, opts);
    forall other | other in t.caches.certs ensures Usable(t.caches.certs[other]) {
      TickKeepsCerts(d.caches, id, k, q, opts, other);
    }
  }

  /** On every run, at every moment: every cluster carries the states its recorded mask calls for, every
      solvable cluster had both values of every question at load, and every certificate is usable. */
  lemma {:induction false} EveryRunGood<F>(ds: seq<Daemon<F>>, es: seq<Event<F>>, cfg: Config, i: nat)
    requires Run(ds, es, cfg) && i < |ds|
    ensures Good(ds[i], cfg)
  {
    if i > 0 {
      EveryRunGood(ds, es, cfg, i - 1);
      StepKeepsGood(ds[i - 1], es[i - 1], cfg);
    }
  }

  // ---------- A tick's states ----------

  lemma {:induction false} SameDemotion(sets: seq<OutcomeSet>, ids: set<int>, qs: set<int>)
    ensures SetConstraints(DemoteByIds(sets, ids), qs, {}) == SetConstraints(DemoteSets(sets, ids), qs, {})
  {
    if sets != [] {
      var m := |sets| - 1;
      SameDemotion(sets[..m], ids, qs);
      var a, b := DemoteByIds(sets, ids), DemoteSets(sets, ids);
      assert a[..m] == DemoteByIds(sets[..m], ids) && b[..m] == DemoteSets(sets[..m], ids);
      OneDemotion(sets[m], ids, qs);
    }
  }

  lemma {:induction false} OneDemotion(os: OutcomeSet, ids: set<int>, qs: set<int>)
    ensures SetConstraint(DemoteById(os, ids), qs, {}) == SetConstraint(DemoteSet(os, ids), qs, {})
  {
  }

  /** Demoting for a tick keeps every load-time state. */
  lemma {:induction false} MaskKeepsStates(c: Cluster, mask: multiset<int>, cap: nat, w: World)
    requires MaskedStates(c, mask, cap) != [] && w in StatesOf(Enumerate(c, cap))
    ensures w in MaskedStates(c, mask, cap)
  {
    SameDemotion(c.sets, IdsIn(mask), QidSet(c));
    SameEnumeration(c.(sets := DemoteByIds(c.sets, IdsIn(mask))), c.(sets := DemoteSets(c.sets, IdsIn(mask))), cap);
    DemotionKeepsStates(c, IdsIn(mask), cap, w);
  }

  lemma {:induction false} SameEnumeration(c: Cluster, d: Cluster, cap: nat)
    requires c.qids == d.qids && c.edges == d.edges
    requires SetConstraints(c.sets, QidSet(c), {}) == SetConstraints(d.sets, QidSet(d), {})
    ensures Enumerate(c, cap) == Enumerate(d, cap)
  {
    assert Interpret(c, {}) == Interpret(d, {});
  }

  /** No question of a solvable cluster is ever pinned on a later tick, provided load time found states. */
  lemma {:induction false} NeverPinnedLater(k: Loaded, mask: multiset<int>, cap: nat, q: int)
    requires Sound(k, cap) && !k.degenerate && StatesOf(Enumerate(k.shape, cap)) != [] && q in k.shape.qids
    requires MaskedStates(k.shape, mask, cap) != []
    ensures BothValues(MaskedStates(k.shape, mask, cap), q)
  {
    hide Enumerate;
    var base := StatesOf(Enumerate(k.shape, cap));
    var yes :| yes in base && Yes(yes, q);
    var no :| no in base && !Yes(no, q);
    MaskKeepsStates(k.shape, mask, cap, yes);
    MaskKeepsStates(k.shape, mask, cap, no);
  }

  /** Liveness over runs: after every tick that gets past the gates, an enumerated cluster's mask names exactly
      its dead Σ = 1 sets, and its states are exactly the worlds of Ω with this tick's unquoted questions,
      though it re-enumerates only on transitions. */
  lemma {:induction false} TickStatesAreOmega<F>(ds: seq<Daemon<F>>, es: seq<Event<F>>, cfg: Config, i: nat, w: World)
    requires Run(ds, es, cfg) && i < |es| && es[i].TickOf?
    requires var k := ds[i].clusters[es[i].id]; !k.relaxed && GetsThrough(k, es[i].quotes.unquoted, es[i].opts)
    ensures var k := ds[i].clusters[es[i].id];
            var mask := MaskOf(k.shape.sets, es[i].quotes.unquoted);
            && MaskIn(ds[i + 1].caches, es[i].id) == mask
            && ds[i + 1].clusters[es[i].id].states == MaskedStates(k.shape, mask, cfg.maxStates)
            && (Enumerable(k.shape, es[i].quotes.unquoted, cfg.maxStates) ==>
                (w in ds[i + 1].clusters[es[i].id].states <==> InOmega(k.shape, es[i].quotes.unquoted, w)))
  {
    var id, q, opts := es[i].id, es[i].quotes, es[i].opts;
    var k := ds[i].clusters[id];
    EveryRunGood(ds, es, cfg, i);
    TickSettles(ds[i].caches, id, k, q, opts);
    if Enumerable(k.shape, q.unquoted, cfg.maxStates) { MaskedStatesAreOmega(k.shape, q.unquoted, cfg.maxStates, w); }
  }

  /** Distinct set ids, no set with a repeated slot, and a demoted enumeration within the cap. */
  ghost predicate Readable(c: Cluster, unquoted: set<int>, cap: nat) {
    && DistinctIds(c.sets) && Distinct(c.qids) && PlainSets(TickSets(c, unquoted))
    && Enumerate(Demoted(c, unquoted), cap).Ok?
  }

  /** ... and sets compatible with the owners of their slots. */
  ghost predicate Enumerable(c: Cluster, unquoted: set<int>, cap: nat) {
    Readable(c, unquoted, cap) && AllCompatible(TickSets(c, unquoted))
  }

  /** On every run, a tick's states are the tick's Ω exactly when no merged candidate of the tick slips past the
      hard edges; without hard edges, exactly when its sets are compatible with the owners of their slots. */
  lemma {:induction false} TickStatesExactIff<F>(ds: seq<Daemon<F>>, es: seq<Event<F>>, cfg: Config, i: nat)
    requires Run(ds, es, cfg) && i < |es| && es[i].TickOf?
    requires var k := ds[i].clusters[es[i].id];
             && !k.relaxed && GetsThrough(k, es[i].quotes.unquoted, es[i].opts)
             && Readable(k.shape, es[i].quotes.unquoted, cfg.maxStates)
    ensures var k, unquoted := ds[i].clusters[es[i].id], es[i].quotes.unquoted;
            TickExact(k.shape, unquoted, ds[i + 1].clusters[es[i].id].states) <==>
              forall x :: !Slips(Demoted(k.shape, unquoted), cfg.maxStates, x)
    ensures var k, unquoted := ds[i].clusters[es[i].id], es[i].quotes.unquoted;
            EdgeConstraints(k.shape.edges, QidSet(k.shape)) == [] ==>
              (TickExact(k.shape, unquoted, ds[i + 1].clusters[es[i].id].states) <==>
                 AllCompatible(TickSets(k.shape, unquoted)))
  {
    hide InOmega, AllCompatible, PlainSets, MaskedStates, Enumerate, EdgeConstraints, Slips;
    var k := ds[i].clusters[es[i].id];
    EveryRunGood(ds, es, cfg, i);
    TickSettles(ds[i].caches, es[i].id, k, es[i].quotes, es[i].opts);
    MaskedStatesExactWithEdges(k.shape, es[i].quotes.unquoted, cfg.maxStates);
    if EdgeConstraints(k.shape.edges, QidSet(k.shape)) == [] {
      MaskedStatesExactIff(k.shape, es[i].quotes.unquoted, cfg.maxStates);
    }
  }

  ghost predicate TickExact(c: Cluster, unquoted: set<int>, states: seq<World>) {
    forall w :: w in states <==> InOmega(c, unquoted, w)
  }

  lemma {:induction false} TickSettles<F>(caches: Caches<F>, id: int, k: Loaded, q: Quotes<F>, opts: Options)
    requires AllStored(caches) && (q.legs.Some? ==> LegsOf(q.legs.value, k.shape.qids))
    requires !k.relaxed && GetsThrough(k, q.unquoted, opts) &&
             InStep(k.shape, k.relaxed, k.states, MaskIn(caches, id), opts.maxStates)
    ensures var t := Tick(caches, id, k, q, opts);
            MaskIn(t.caches, id) == MaskOf(k.shape.sets, q.unquoted) &&
            t.states == MaskedStates(k.shape, MaskOf(k.shape.sets, q.unquoted), opts.maxStates)
  {
    hide MaskedStates, MaskOf, ProblemFor, Skips;
  }

  // ---------- What a skipped solve is worth ----------

  lemma {:induction false} RowsAreCovering(legs: LegSet, states: seq<World>)
    requires |legs.vars| == |legs.owner| == |legs.objective| && legs.gIndex.None?
    ensures CoveringLP(WorldProblem(legs, states))
  {
  }

  lemma {:induction false} ColumnHas(rows: seq<seq<real>>, i: nat, k: nat, s: nat)
    requires s < k && Entry(rows, s, i) > 0.0
    ensures s in Column(rows, i, k)
  {
    if s < k - 1 { ColumnHas(rows, i, k - 1, s); }
  }

  /** A leg on a question that is YES in one row's world and NO in another's pays in some row. */
  lemma {:induction false} PaysSomewhere(legs: LegSet, states: seq<World>, i: nat)
    requires |legs.vars| == |legs.owner| == |legs.objective| && legs.gIndex.None? && i < |legs.vars|
    requires BothValues(states, legs.owner[i])
    ensures Column(WorldProblem(legs, states).constraints, i, |states|) != []
  {
    var rows := WorldProblem(legs, states).constraints;
    var w :| w in states && (Yes(w, legs.owner[i]) <==> legs.vars[i].side == YES);
    var s :| 0 <= s < |states| && states[s] == w;
    assert rows[s][i] == RowEntry(legs.vars, legs.owner, None, states[s], i) == 1.0;
    ColumnHas(rows, i, |states|, s);
  }

  lemma {:induction false} SameColumns(c: Cert, legs: LegSet, states: seq<World>)
    requires |legs.vars| == |legs.owner| == |legs.objective| && legs.gIndex.None?
    requires Stored(c) && KeyOf(WorldProblem(legs, states)) == c.key
    ensures |c.colStates| == |legs.vars|
    ensures forall i :: 0 <= i < |legs.vars| ==>
              c.colStates[i] == Column(WorldProblem(legs, states).constraints, i, |states|)
  {
    assert ColStates(WorldProblem(legs, states)) == c.colStates;
  }

  /** No column is passed over by the bound for lack of a paying row, unless it costs something anyway. */
  lemma {:induction false} ColumnsCovered(c: Cert, legs: LegSet, states: seq<World>, qids: seq<int>)
    requires LegsOf(legs, qids) && legs.gIndex.None? && Stored(c) && KeyOf(WorldProblem(legs, states)) == c.key
    requires (forall q :: q in qids ==> BothValues(states, q)) ||
             (forall i :: 0 <= i < |legs.objective| ==> legs.objective[i] >= 0.0)
    ensures UncoveredCostly(c, WorldProblem(legs, states))
  {
    SameColumns(c, legs, states);
    forall i | 0 <= i < |legs.objective| && c.colStates[i] == [] ensures legs.objective[i] >= 0.0 {
      if forall q :: q in qids ==> BothValues(states, q) {
        assert legs.owner[i] in qids;
        PaysSomewhere(legs, states, i);
        assert false;
      }
    }
  }

  /** The problem a tick posed. */
  function PosedBy<F>(k: Loaded, q: Quotes<F>, opts: Options, states: seq<World>): Option<LPProblem>
    requires q.legs.Some? ==> LegsOf(q.legs.value, k.shape.qids)
  {
    ProblemFor(opts.engine, k.shape, k.relaxed, states, q.unquoted, q.legs)
  }

  lemma {:induction false} SkippedBecause<F>(caches: Caches<F>, id: int, k: Loaded, q: Quotes<F>, opts: Options)
    requires AllStored(caches) && (q.legs.Some? ==> LegsOf(q.legs.value, k.shape.qids))
    requires Tick(caches, id, k, q, opts).prep == SkipFilter
    ensures var t := Tick(caches, id, k, q, opts);
            && GetsThrough(k, q.unquoted, opts) && PosedBy(k, q, opts, t.states).Some? && id in caches.certs
            && Skips(Some(caches.certs[id]), PosedBy(k, q, opts, t.states).value, opts.theta, EPS)
  {
    hide MaskedStates, MaskOf, ProblemFor, Penalty, KeyOf, LegsOf, Stored;
    var t := Tick(caches, id, k, q, opts);
    assert CertIn(t.caches, id).Some? ==> CertIn(t.caches, id) == CertIn(caches, id);
  }

  lemma {:induction false} SkippedRowProblem<F>(k: Loaded, q: Quotes<F>, opts: Options, states: seq<World>, c: Cert)
    requires (q.legs.Some? ==> LegsOf(q.legs.value, k.shape.qids)) && PosedBy(k, q, opts, states).Some? && Stored(c)
    requires Skips(Some(c), PosedBy(k, q, opts, states).value, opts.theta, EPS)
    ensures q.legs.Some? && q.legs.value.gIndex.None? && !k.relaxed && states != []
    ensures PosedBy(k, q, opts, states).value == WorldProblem(q.legs.value, states)
    ensures KeyOf(WorldProblem(q.legs.value, states)) == c.key
  {
  }

  /** Skip-filter soundness over runs. On any run of reloads, ticks and solves with a solver that returns
      non-negative duals, a tick that skips on a stored certificate skips a problem in which every capped
      basket that pays in all of the tick's worlds costs at least theta, up to EPS times the shares in
      columns whose violation the filter tolerates. Costs must be non-negative only for a cluster that had
      no states when it was loaded. */
  lemma {:induction false} SkipSoundOverRuns<F>(ds: seq<Daemon<F>>, es: seq<Event<F>>, cfg: Config, i: nat,
                                                x: seq<real>)
    requires Run(ds, es, cfg) && i < |es| && es[i].TickOf?
    requires Tick(ds[i].caches, es[i].id, ds[i].clusters[es[i].id], es[i].quotes, es[i].opts).prep == SkipFilter
    requires var k := ds[i].clusters[es[i].id];
             StatesOf(Enumerate(k.shape, cfg.maxStates)) != [] ||
             (es[i].quotes.legs.Some? && forall j :: 0 <= j < |es[i].quotes.legs.value.objective| ==>
                                                       es[i].quotes.legs.value.objective[j] >= 0.0)
    ensures var k, q, opts := ds[i].clusters[es[i].id], es[i].quotes, es[i].opts;
            var lp := PosedBy(k, q, opts, ds[i + 1].clusters[es[i].id].states);
            && lp.Some? && es[i].id in ds[i].caches.certs
            && (FeasibleBasket(lp.value, x) ==>
                Cost(lp.value.objective, x, |x|) >= opts.theta +
                  EPS - EPS * SmallShares(ds[i].caches.certs[es[i].id], lp.value, x, |x|))
  {
    hide Tick, InStep, Enumerate, LegsOf, Skips, GetsThrough, PosedBy, MaskedStates, MaskOf, WorldProblem, Cost,
         SmallShares;
    var id, q, opts := es[i].id, es[i].quotes, es[i].opts;
    var k := ds[i].clusters[id];
    var states := ds[i + 1].clusters[id].states;
    EveryRunGood(ds, es, cfg, i);
    SkippedBecause(ds[i].caches, id, k, q, opts);
    var c := ds[i].caches.certs[id];
    SkippedRowProblem(k, q, opts, states, c);
    SkipPays(k, cfg, q, opts, states, ds[i].caches, id, x);
  }

  lemma {:induction false} SkipPays<F>(k: Loaded, cfg: Config, q: Quotes<F>, opts: Options, states: seq<World>,
                                       caches: Caches<F>, id: int, x: seq<real>)
    requires q.legs.Some? && LegsOf(q.legs.value, k.shape.qids) && q.legs.value.gIndex.None? && AllStored(caches)
    requires id in caches.certs && Usable(caches.certs[id]) && Sound(k, cfg.maxStates) &&
             opts.maxStates == cfg.maxStates
    requires InStep(k.shape, k.relaxed, k.states, MaskIn(caches, id), cfg.maxStates) && GetsThrough(k, q.unquoted, opts)
    requires !k.relaxed && states == Tick(caches, id, k, q, opts).states && states != []
    requires Skips(Some(caches.certs[id]), WorldProblem(q.legs.value, states), opts.theta, EPS)
    requires StatesOf(Enumerate(k.shape, cfg.maxStates)) != [] ||
             forall j :: 0 <= j < |q.legs.value.objective| ==> q.legs.value.objective[j] >= 0.0
    ensures var lp := WorldProblem(q.legs.value, states);
            FeasibleBasket(lp, x) ==>
              Cost(lp.objective, x, |x|) >= opts.theta + EPS - EPS * SmallShares(caches.certs[id], lp, x, |x|)
  {
    hide Tick, Enumerate, MaskedStates, MaskOf, Cost, SmallShares, Penalty, KeyOf, WorldRows;
    var c, legs := caches.certs[id], q.legs.value;
    var lp := WorldProblem(legs, states);
    TickSettles(caches, id, k, q, opts);
    if StatesOf(Enumerate(k.shape, cfg.maxStates)) != [] {
      forall question | question in k.shape.qids ensures BothValues(states, question) {
        NeverPinnedLater(k, MaskOf(k.shape.sets, q.unquoted), cfg.maxStates, question);
      }
    }
    ColumnsCovered(c, legs, states, k.shape.qids);
    RowsAreCovering(legs, states);
    if FeasibleBasket(lp, x) { SkipSound(c, lp, opts.theta, EPS, x); }
  }

  /** On every run, a tick that poses world rows for a cluster with load-time states poses them over states
      that show every question both ways: nothing that was unpinned at load is pinned later. */
  lemma {:induction false} TickShowsBoth<F>(ds: seq<Daemon<F>>, es: seq<Event<F>>, cfg: Config, i: nat, question: int)
    requires Run(ds, es, cfg) && i < |es| && es[i].TickOf?
    requires var k := ds[i].clusters[es[i].id];
             !k.relaxed && GetsThrough(k, es[i].quotes.unquoted, es[i].opts) && question in k.shape.qids &&
             StatesOf(Enumerate(k.shape, cfg.maxStates)) != []
    ensures var states := ds[i + 1].clusters[es[i].id].states; states != [] ==> BothValues(states, question)
  {
    hide Tick, Enumerate, MaskedStates, MaskOf, LegsOf;
    var id, q, opts := es[i].id, es[i].quotes, es[i].opts;
    var k := ds[i].clusters[id];
    EveryRunGood(ds, es, cfg, i);
    TickSettles(ds[i].caches, id, k, q, opts);
    if ds[i + 1].clusters[id].states != [] {
      NeverPinnedLater(k, MaskOf(k.shape.sets, q.unquoted), cfg.maxStates, question);
    }
  }
}
