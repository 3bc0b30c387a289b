/** Fingerprint dedup over whole runs: a tick passed over because its fingerprint repeats would have posed the problem
    an earlier tick of the same cluster already posed. */
module DedupRuns {
  import opened Wrappers
  import opened Graph
  import opened Lp
  import opened StateEnumerator
  import opened Routing
  import opened Liveness
  import opened SkipFilter
  import opened PriceCaches
  import opened LegBuilder
  import opened SolvePrep
  import opened SolveRuns
  import opened Fingerprint

  /** The tick got past every gate and the dedup test: it stored its fingerprint and went on to pose its problem. */
  ghost predicate Reaches<F>(caches: Caches<F>, id: int, k: Loaded, q: Quotes<F>, opts: Options)
    requires AllStored(caches) && (q.legs.Some? ==> LegsOf(q.legs.value, k.shape.qids))
  {
    && !Refused(k, opts) && !TooQuiet(k, q.unquoted, opts) && opts.dedup
    && var s := Settle(caches, id, k, q.unquoted, opts.maxStates);
       Tick(caches, id, k, q, opts) == Finish(s.0.(fingerprints := s.0.fingerprints[id := q.fingerprint]), id, k, s.1,
                                              q, opts)
  }

  /** What became of a problem: none to pose, passed over on a certificate, or handed to the solver. */
  ghost predicate Posed(prep: Prep, lp: Option<LPProblem>, opts: Options) {
    if lp.None? then prep.SkipTick? else prep == Solve(lp.value) || (prep.SkipFilter? && opts.skipFilter)
  }

  lemma {:induction false} ReachedPoses<F>(caches: Caches<F>, id: int, k: Loaded, q: Quotes<F>, opts: Options)
    requires AllStored(caches) && (q.legs.Some? ==> LegsOf(q.legs.value, k.shape.qids)) &&
             Reaches(caches, id, k, q, opts)
    ensures var t := Tick(caches, id, k, q, opts); Posed(t.prep, ProblemFor(opts.engine, k.shape, k.relaxed, t.states,
                                                                            q.unquoted, q.legs), opts)
  {
    hide ProblemFor, Skips, Tick, Settle;
  }

  lemma {:induction false} AfterSettleStores<F>(settled: Caches<F>, id: int, k: Loaded, changed: bool,
                                                states: seq<World>, q: Quotes<F>, opts: Options)
    requires AllStored(settled) && (q.legs.Some? ==> LegsOf(q.legs.value, k.shape.qids))
    ensures var t := AfterSettle(settled, id, k, changed, states, q, opts);
            || t.caches.fingerprints == settled.fingerprints
            || (opts.dedup && t == Finish(settled.(fingerprints := settled.fingerprints[id := q.fingerprint]), id, k,
                                          states, q, opts) &&
                t.caches.fingerprints == settled.fingerprints[id := q.fingerprint])
    ensures AfterSettle(settled, id, k, changed, states, q, opts).states == states
  {
    hide ProblemFor, Skips;
  }

  /** The fingerprint a tick leaves under its own id is its own, stored on the way to its problem, or was there
      before. */
  lemma {:induction false} TickStores<F>(caches: Caches<F>, id: int, k: Loaded, q: Quotes<F>, opts: Options)
    requires AllStored(caches) && (q.legs.Some? ==> LegsOf(q.legs.value, k.shape.qids))
    ensures var t := Tick(caches, id, k, q, opts);
            id in t.caches.fingerprints ==>
              (t.caches.fingerprints[id] == q.fingerprint && Reaches(caches, id, k, q, opts)) ||
              (id in caches.fingerprints && t.caches.fingerprints[id] == caches.fingerprints[id] &&
               t.states == k.states)
    ensures forall other :: other != id ==>
              ((other in Tick(caches, id, k, q, opts).caches.fingerprints <==> other in caches.fingerprints) &&
               (other in caches.fingerprints ==>
                  Tick(caches, id, k, q, opts).caches.fingerprints[other] == caches.fingerprints[other]))
  {
    hide MaskedStates, MaskOf, AfterSettle, Finish;
    if GetsThrough(k, q.unquoted, opts) {
      var settled := Settle(caches, id, k, q.unquoted, opts.maxStates);
      AfterSettleStores(settled.0, id, k, MaskMoves(caches, id, k, q.unquoted), settled.1, q, opts);
    }
  }

  /** A stored fingerprint belongs to an earlier tick of the cluster that reached its problem, and the cluster is as
      that tick left it. */
  lemma {:induction false} StoredFrom<F>(ds: seq<Daemon<F>>, es: seq<Event<F>>, cfg: Config, j: nat, id: int)
    returns (i: nat)
    requires Run(ds, es, cfg) && j < |ds| && id in ds[j].caches.fingerprints
    ensures i < j && es[i].TickOf? && es[i].id == id && es[i].quotes.fingerprint == ds[j].caches.fingerprints[id]
    ensures Possible(ds[i], es[i], cfg) && Reaches(ds[i].caches, id, ds[i].clusters[id], es[i].quotes, es[i].opts)
    ensures id in ds[i + 1].clusters && id in ds[j].clusters && ds[i + 1].clusters[id] == ds[j].clusters[id]
  {
    hide Tick, LegsOf, Route, AfterSolve, Reaches;
    assert j > 0;
    var before, e := ds[j - 1], es[j - 1];
    assert ds[j] == Step(before, e, cfg);
    match e
    case Reload(_, _, _) =>
      assert false;
    case Solved(_, _, _) =>
      i := StoredFrom(ds, es, cfg, j - 1, id);
    case TickOf(id', q, opts) =>
      TickStores(before.caches, id', before.clusters[id'], q, opts);
      if id' != id {
        i := StoredFrom(ds, es, cfg, j - 1, id);
      } else if Reaches(before.caches, id, before.clusters[id], q, opts) &&
             ds[j].caches.fingerprints[id] == q.fingerprint {
        i := j - 1;
      } else {
        i := StoredFrom(ds, es, cfg, j - 1, id);
      }
  }

  /** The quotes of a tick are read off one moment of a cache fed with positive times; its legs may be read later, as
      long as no book crosses an age limit in between. */
  ghost predicate QuotesFrom(q: Quotes<seq<MarketPrint>>, t: Moment, later: int, ms: seq<Market>, venue: Venue,
                             qids: set<int>) {
    && Reachable(t) && NoneAges(t, later, ms)
    && q.fingerprint == Prints(ms, QuotesOf(t, ms))
    && q.legs == PricedLegs(ms, QuotesOf(t.(now := later), ms), venue)
    && q.unquoted == UnquotedOf(qids, ms, QuotesOf(t, ms), venue.limits)
  }

  /** Every tick reads its cluster's own markets. */
  ghost predicate FedFromCache(ds: seq<Daemon<seq<MarketPrint>>>, es: seq<Event<seq<MarketPrint>>>,
                               marketsOf: seq<int> -> seq<Market>, venue: Venue)
    requires |ds| == |es| + 1
  {
    forall i :: 0 <= i < |es| && es[i].TickOf? && es[i].id in ds[i].clusters ==>
      exists t, later :: QuotesFrom(es[i].quotes, t, later, marketsOf(ds[i].clusters[es[i].id].shape.qids), venue,
                                    SetOf(ds[i].clusters[es[i].id].shape.qids))
  }

  lemma {:induction false} ShapeKept<F>(ds: seq<Daemon<F>>, es: seq<Event<F>>, cfg: Config, i: nat)
    requires Run(ds, es, cfg) && i < |es| && es[i].TickOf?
    ensures es[i].id in ds[i].clusters && es[i].id in ds[i + 1].clusters
    ensures ds[i + 1].clusters[es[i].id].shape == ds[i].clusters[es[i].id].shape
    ensures ds[i + 1].clusters[es[i].id].relaxed == ds[i].clusters[es[i].id].relaxed
  {
    hide Tick, LegsOf;
  }

  /** What tick i of a run prepared. */
  ghost function PrepAt<F>(ds: seq<Daemon<F>>, es: seq<Event<F>>, cfg: Config, i: nat): Prep
    requires Run(ds, es, cfg) && i < |es| && es[i].TickOf? && Possible(ds[i], es[i], cfg)
  {
    Tick(ds[i].caches, es[i].id, ds[i].clusters[es[i].id], es[i].quotes, es[i].opts).prep
  }

  /** The problem tick j of a run would pose over the states its cluster has. */
  ghost function ProblemAt<F>(ds: seq<Daemon<F>>, es: seq<Event<F>>, cfg: Config, j: nat): Option<LPProblem>
    requires Run(ds, es, cfg) && j < |es| && es[j].TickOf? && Possible(ds[j], es[j], cfg)
  {
    var k := ds[j].clusters[es[j].id];
    ProblemFor(es[j].opts.engine, k.shape, k.relaxed, k.states, es[j].quotes.unquoted, es[j].quotes.legs)
  }

  /** Dedup soundness over runs. If a tick's fingerprint is the one on record, some earlier tick of the same cluster
      passed every gate with the same legs and the same unquoted questions, and left the states the cluster has now.
      Under the same engine that tick posed exactly the problem this tick would pose: it handed it to the solver, or
      passed it over on a certificate, or there was none. */
  lemma {:induction false} RepeatIsOldProblem(ds: seq<Daemon<seq<MarketPrint>>>, es: seq<Event<seq<MarketPrint>>>,
                                              cfg: Config, j: nat,
                                              marketsOf: seq<int> -> seq<Market>, venue: Venue) returns (i: nat)
    requires Run(ds, es, cfg) && FedFromCache(ds, es, marketsOf, venue) && j < |es| && es[j].TickOf?
    requires es[j].id in ds[j].caches.fingerprints && ds[j].caches.fingerprints[es[j].id] == es[j].quotes.fingerprint
    ensures i < j && es[i].TickOf? && es[i].id == es[j].id && Possible(ds[i], es[i], cfg) && Possible(ds[j], es[j], cfg)
    ensures Reaches(ds[i].caches, es[i].id, ds[i].clusters[es[i].id], es[i].quotes, es[i].opts)
    ensures es[i].quotes.legs == es[j].quotes.legs && es[i].quotes.unquoted == es[j].quotes.unquoted
    ensures es[i].id in ds[i + 1].clusters && ds[i + 1].clusters[es[i].id] == ds[j].clusters[es[j].id]
    ensures es[i].opts.engine == es[j].opts.engine ==>
              Posed(PrepAt(ds, es, cfg, i), ProblemAt(ds, es, cfg, j), es[i].opts)
  {
    hide Step, QuotesOf, PricedLegs, UnquotedOf, Reachable, Prints, Reaches;
    var id := es[j].id;
    i := StoredFrom(ds, es, cfg, j, id);
    ShapeKept(ds, es, cfg, i);
    ShapeKept(ds, es, cfg, j);
    var k := ds[j].clusters[id];
    var ms := marketsOf(k.shape.qids);
    SameLegs(es[i].quotes, es[j].quotes, ms, venue, k);
    PosedBefore(ds, es, cfg, i, j);
  }

  lemma {:induction false} SameLegs(q: Quotes<seq<MarketPrint>>, q': Quotes<seq<MarketPrint>>, ms: seq<Market>,
                                    venue: Venue, k: Loaded)
    requires q.fingerprint == q'.fingerprint
    requires exists t, later :: QuotesFrom(q, t, later, ms, venue, SetOf(k.shape.qids))
    requires exists t, later :: QuotesFrom(q', t, later, ms, venue, SetOf(k.shape.qids))
    ensures q.legs == q'.legs && q.unquoted == q'.unquoted
  {
    hide QuotesOf, PricedLegs, UnquotedOf, Reachable, Prints;
    var t, later :| QuotesFrom(q, t, later, ms, venue, SetOf(k.shape.qids));
    var t', later' :| QuotesFrom(q', t', later', ms, venue, SetOf(k.shape.qids));
    EqualPrintsPoseSame(t, t', ms, venue, Vrep, k.shape, k.relaxed, k.states);
  }

  lemma {:induction false} PosedBefore<F>(ds: seq<Daemon<F>>, es: seq<Event<F>>, cfg: Config, i: nat, j: nat)
    requires Run(ds, es, cfg) && i < j < |es| && es[i].TickOf? && es[j].TickOf? && es[i].id == es[j].id
    requires Possible(ds[i], es[i], cfg) && Possible(ds[j], es[j], cfg)
    requires Reaches(ds[i].caches, es[i].id, ds[i].clusters[es[i].id], es[i].quotes, es[i].opts)
    requires es[i].quotes.legs == es[j].quotes.legs && es[i].quotes.unquoted == es[j].quotes.unquoted
    requires es[i].id in ds[i + 1].clusters && ds[i + 1].clusters[es[i].id] == ds[j].clusters[es[j].id]
    ensures es[i].opts.engine == es[j].opts.engine ==>
              Posed(PrepAt(ds, es, cfg, i), ProblemAt(ds, es, cfg, j), es[i].opts)
  {
    hide Tick, Reaches, ProblemFor, LegsOf, Posed;
    ReachedPoses(ds[i].caches, es[i].id, ds[i].clusters[es[i].id], es[i].quotes, es[i].opts);
    assert ds[i + 1] == Step(ds[i], es[i], cfg);
  }
}
