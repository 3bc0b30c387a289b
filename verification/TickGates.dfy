/** The gates a tick passes before its problem is posed (services/arb-solver/src/solve-core.ts, lines 504-563), read off
    the cluster and its quotes alone. */
module TickGates {
  import opened Wrappers
  import opened Graph
  import opened Lp
  import opened FacetLp
  import opened LpBuilder
  import opened StateEnumerator
  import opened Liveness
  import opened SkipFilter
  import opened SolvePrep

  lemma {:induction false} ShareBelow(n: nat, u: nat, floor: real)
    requires n > 0
    ensures (n as real - u as real) / n as real < floor <==> n as real - u as real < floor * n as real
  {
    var share := (n as real - u as real) / n as real;
    assert share * n as real == n as real - u as real;
    if share < floor { Scale(share, floor, n as real); }
    if share >= floor { ScaleWeak(floor, share, n as real); }
  }

  lemma {:induction false} Scale(a: real, b: real, n: real)
    requires a < b && n > 0.0
    ensures a * n < b * n
  {
  }

  lemma {:induction false} ScaleWeak(a: real, b: real, n: real)
    requires a <= b && n > 0.0
    ensures a * n <= b * n
  {
  }

  /** A degenerate cluster is never solved, nor a relaxed one by the row engine: the tick changes nothing. */
  lemma {:induction false} RefusedTick<F>(caches: Caches<F>, id: int, k: Loaded, q: Quotes<F>, opts: Options)
    requires AllStored(caches) && (q.legs.Some? ==> LegsOf(q.legs.value, k.shape.qids))
    requires k.degenerate || (k.relaxed && opts.engine.Vrep?)
    ensures Tick(caches, id, k, q, opts) == Ticked(SkipTick, caches, k.states)
  {
  }

  /** Any other tick stops for lack of quotes if and only if the cluster has questions and fewer of them are quoted than
      the floor's share; it then reports the quoted share and changes nothing. */
  lemma {:induction false} QuietIff<F>(caches: Caches<F>, id: int, k: Loaded, q: Quotes<F>, opts: Options)
    requires AllStored(caches) && (q.legs.Some? ==> LegsOf(q.legs.value, k.shape.qids))
    requires !k.degenerate && !(k.relaxed && opts.engine.Vrep?)
    ensures var n, u := |k.shape.qids| as real, |q.unquoted| as real;
            var t := Tick(caches, id, k, q, opts);
            && (t.prep.SkipQuotedFraction? <==> n > 0.0 && n - u < opts.floor * n)
            && (t.prep.SkipQuotedFraction? ==> t.prep.fraction * n == n - u && t.caches == caches &&
                                               t.states == k.states)
  {
    hide AfterSettle, Settle, MaskMoves;
    var n := |k.shape.qids|;
    if n > 0 { ShareBelow(n, |q.unquoted|, opts.floor); }
    if !TooQuiet(k, q.unquoted, opts) {
      var s := Settle(caches, id, k, q.unquoted, opts.maxStates);
      SettleStored(caches, id, k, q.unquoted, opts.maxStates);
      SettledNotQuiet(s.0, id, k, MaskMoves(caches, id, k, q.unquoted), s.1, q, opts);
    }
  }

  lemma {:induction false} SettleStored<F>(caches: Caches<F>, id: int, k: Loaded, unquoted: set<int>, cap: nat)
    requires AllStored(caches)
    ensures AllStored(Settle(caches, id, k, unquoted, cap).0)
  {
    hide MaskOf, MaskedStates;
  }

  lemma {:induction false} SettledNotQuiet<F>(settled: Caches<F>, id: int, k: Loaded, changed: bool, states: seq<World>,
                                              q: Quotes<F>, opts: Options)
    requires AllStored(settled) && (q.legs.Some? ==> LegsOf(q.legs.value, k.shape.qids))
    ensures !AfterSettle(settled, id, k, changed, states, q, opts).prep.SkipQuotedFraction?
  {
    hide ProblemFor, Skips;
  }

  /** A cluster quoted in full is never too quiet, whatever floor up to 1 is set. */
  lemma {:induction false} QuotedInFull<F>(caches: Caches<F>, id: int, k: Loaded, q: Quotes<F>, opts: Options)
    requires AllStored(caches) && (q.legs.Some? ==> LegsOf(q.legs.value, k.shape.qids))
    requires q.unquoted == {} && opts.floor <= 1.0
    ensures !Tick(caches, id, k, q, opts).prep.SkipQuotedFraction?
  {
    hide Tick;
    if k.degenerate || (k.relaxed && opts.engine.Vrep?) {
      RefusedTick(caches, id, k, q, opts);
    } else {
      QuietIff(caches, id, k, q, opts);
      ScaleWeakly(opts.floor, |k.shape.qids| as real);
    }
  }

  lemma {:induction false} ScaleWeakly(floor: real, n: real)
    requires floor <= 1.0 && n >= 0.0
    ensures floor * n <= n
  {
  }

  /** Quoting more questions never makes a tick too quiet, whatever the caches hold. */
  lemma {:induction false} MoreQuotes<F>(caches: Caches<F>, caches': Caches<F>, id: int, k: Loaded, q: Quotes<F>,
                                         q': Quotes<F>, opts: Options)
    requires AllStored(caches) && (q.legs.Some? ==> LegsOf(q.legs.value, k.shape.qids))
    requires AllStored(caches') && (q'.legs.Some? ==> LegsOf(q'.legs.value, k.shape.qids))
    requires q'.unquoted <= q.unquoted && !Tick(caches, id, k, q, opts).prep.SkipQuotedFraction?
    ensures !Tick(caches', id, k, q', opts).prep.SkipQuotedFraction?
  {
    hide Tick;
    if k.degenerate || (k.relaxed && opts.engine.Vrep?) {
      RefusedTick(caches', id, k, q', opts);
    } else {
      QuietIff(caches, id, k, q, opts);
      QuietIff(caches', id, k, q', opts);
      SubsetSize(q'.unquoted, q.unquoted);
    }
  }

  lemma {:induction false} SubsetSize(a: set<int>, b: set<int>)
    requires a <= b
    ensures |a| <= |b|
  {
    assert b == a + (b - a);
  }

  // ---------- What is posed ----------

  /** Which form a posed problem has: the facets exactly under the facet engine, or under the hybrid engine when the
      cluster is relaxed or has no states; otherwise one row per state, and never none. */
  lemma {:induction false} PosedForm<F>(caches: Caches<F>, id: int, k: Loaded, q: Quotes<F>, opts: Options)
    requires AllStored(caches) && (q.legs.Some? ==> LegsOf(q.legs.value, k.shape.qids))
    requires Tick(caches, id, k, q, opts).prep.Solve?
    ensures var t := Tick(caches, id, k, q, opts);
            && !k.degenerate && q.legs.Some?
            && t.prep.lp.objective == q.legs.value.objective && t.prep.lp.variables == q.legs.value.vars
            && t.prep.lp.gIndex == q.legs.value.gIndex
            && (t.prep.lp.facetForm.Some? <==>
                  opts.engine.FacetEngine? || (opts.engine.Hybrid? && (k.relaxed || t.states == [])))
            && (t.prep.lp.facetForm.Some? ==>
                  t.prep.lp.facetForm.value == FormOf(k.shape, q.unquoted, q.legs.value.owner))
            && (t.prep.lp.facetForm.None? ==>
                  t.states != [] && !k.relaxed && |t.prep.lp.constraints| == |t.states| &&
                  t.prep.lp.constraints == WorldRows(q.legs.value.vars, q.legs.value.owner, q.legs.value.gIndex,
                                                     t.states))
  {
    hide Skips, MaskedStates, MaskOf, FormOf, WorldRows;
    if !Refused(k, opts) && !TooQuiet(k, q.unquoted, opts) {
      var s := Settle(caches, id, k, q.unquoted, opts.maxStates);
      PosedAfter(s.0, id, k, MaskMoves(caches, id, k, q.unquoted), s.1, q, opts);
    }
  }

  lemma {:induction false} PosedAfter<F>(settled: Caches<F>, id: int, k: Loaded, changed: bool, states: seq<World>,
                                         q: Quotes<F>, opts: Options)
    requires AllStored(settled) && (q.legs.Some? ==> LegsOf(q.legs.value, k.shape.qids))
    requires AfterSettle(settled, id, k, changed, states, q, opts).prep.Solve?
    ensures var t := AfterSettle(settled, id, k, changed, states, q, opts);
            t.states == states && Some(t.prep.lp) ==
              ProblemFor(opts.engine, k.shape, k.relaxed, states, q.unquoted, q.legs)
  {
    hide ProblemFor, Skips;
  }

  // ---------- When one is posed ----------

  /** A tick of a fresh cluster, with nothing cached under its id and its recorded mask in step, poses its problem
      whenever there is one: enough quotes, a usable leg, and states or an engine that needs none. */
  lemma {:induction false} FreshTickPoses<F>(caches: Caches<F>, id: int, k: Loaded, q: Quotes<F>, opts: Options)
    requires AllStored(caches) && (q.legs.Some? ==> LegsOf(q.legs.value, k.shape.qids))
    requires id !in caches.fingerprints && id !in caches.certs
    requires k.relaxed || MaskIn(caches, id) == MaskOf(k.shape.sets, q.unquoted)
    requires !k.degenerate && !(k.relaxed && opts.engine.Vrep?)
    requires var n, u := |k.shape.qids| as real, |q.unquoted| as real; !(n > 0.0 && n - u < opts.floor * n)
    ensures Tick(caches, id, k, q, opts).prep.Solve? <==> q.legs.Some? && (k.states != [] || !opts.engine.Vrep?)
  {
    hide MaskOf, MaskedStates, FacetProblem, WorldProblem;
    QuietIff(caches, id, k, q, opts);
    NothingSkips(caches, id, opts.theta);
  }

  /** The stored fingerprint is this tick's own, and still stands when the dedup test is made. */
  ghost predicate Repeats<F>(caches: Caches<F>, id: int, moved: bool, q: Quotes<F>, opts: Options) {
    opts.dedup && !moved && id in caches.fingerprints && caches.fingerprints[id] == q.fingerprint
  }

  /** A transition that leaves no state where the row engine is in charge: the tick ends before the dedup test. */
  ghost predicate EmptiedNow(k: Loaded, moved: bool, states: seq<World>, opts: Options) {
    moved && states == [] && (opts.engine.Vrep? || (opts.engine.Hybrid? && k.states != []))
  }

  /** Exactly when a tick that is neither refused nor too quiet gets to a problem, and when it is then passed over:
      it has a usable leg and states (or an engine that needs none), was not emptied by a transition, and does not
      repeat the recorded fingerprint. The certificate consulted is the recorded one, unless a transition took it. */
  lemma {:induction false} PosedIff<F>(caches: Caches<F>, id: int, k: Loaded, q: Quotes<F>, opts: Options)
    requires AllStored(caches) && (q.legs.Some? ==> LegsOf(q.legs.value, k.shape.qids))
    requires !k.degenerate && !(k.relaxed && opts.engine.Vrep?)
    requires var n, u := |k.shape.qids| as real, |q.unquoted| as real; !(n > 0.0 && n - u < opts.floor * n)
    ensures var t := Tick(caches, id, k, q, opts);
            var moved := !k.relaxed && (if id in caches.masks then caches.masks[id] else multiset{}) !=
                                       MaskOf(k.shape.sets, q.unquoted);
            var reaches := !EmptiedNow(k, moved, t.states, opts) && !Repeats(caches, id, moved, q, opts);
            && (t.prep.Solve? || t.prep.SkipFilter? <==>
                  reaches && q.legs.Some? && !(opts.engine.Vrep? && t.states == []))
            && (t.prep.SkipFilter? ==> opts.skipFilter && !moved && id in caches.certs)
            && t.caches.fingerprints == (if reaches && opts.dedup then caches.fingerprints[id := q.fingerprint]
                                         else if moved then caches.fingerprints - {id} else caches.fingerprints)
  {
    hide MaskOf, MaskedStates, ProblemFor, Skips, QuotedFraction;
    QuietIff(caches, id, k, q, opts);
    var s := Settle(caches, id, k, q.unquoted, opts.maxStates);
    SettleStored(caches, id, k, q.unquoted, opts.maxStates);
    PosedIffAfter(s.0, id, k, MaskMoves(caches, id, k, q.unquoted), s.1, q, opts);
    ProblemIff(opts.engine, k.shape, k.relaxed, s.1, q);
  }

  lemma {:induction false} ProblemIff<F>(engine: Engine, c: Cluster, relaxed: bool, states: seq<World>, q: Quotes<F>)
    requires (q.legs.Some? ==> LegsOf(q.legs.value, c.qids)) && !(relaxed && engine.Vrep?)
    ensures ProblemFor(engine, c, relaxed, states, q.unquoted, q.legs).Some? <==>
              q.legs.Some? && !(engine.Vrep? && states == [])
  {
    hide FacetProblem, WorldProblem;
  }

  lemma {:induction false} PosedIffAfter<F>(settled: Caches<F>, id: int, k: Loaded, changed: bool, states: seq<World>,
                                            q: Quotes<F>, opts: Options)
    requires AllStored(settled) && (q.legs.Some? ==> LegsOf(q.legs.value, k.shape.qids))
    ensures var t := AfterSettle(settled, id, k, changed, states, q, opts);
            var was := settled.fingerprints;
            var reaches := !(changed && states == [] && !UsesFacets(opts.engine, k.relaxed, k.states)) &&
                           !(opts.dedup && id in was && was[id] == q.fingerprint);
            && t.states == states
            && (t.prep.Solve? || t.prep.SkipFilter? <==>
                  reaches && ProblemFor(opts.engine, k.shape, k.relaxed, states, q.unquoted, q.legs).Some?)
            && (t.prep.SkipFilter? ==> opts.skipFilter && CertIn(settled, id).Some?)
            && t.caches.fingerprints == (if reaches && opts.dedup then was[id := q.fingerprint] else was)
  {
    hide ProblemFor, KeyOf, Penalty;
  }

  /** The recorded mask holds the id of every categorical Σ = 1 set with an unquoted slot, and no other. */
  lemma {:induction false} MaskIff(sets: seq<OutcomeSet>, unquoted: set<int>, id: int)
    ensures id in MaskOf(sets, unquoted) <==>
              exists i :: 0 <= i < |sets| && sets[i].setId == id &&
                          sets[i].setType.Categorical? && sets[i].exhaustive &&
                          exists q :: q in sets[i].slots && q in unquoted
  {
    hide Dead, DeadIds;
    DeadMember(sets, unquoted, id);
    forall os: OutcomeSet
      ensures Dead(os, unquoted) <==>
                os.setType.Categorical? && os.exhaustive && exists q :: q in os.slots && q in unquoted
    {
      DeadIff(os, unquoted);
    }
  }

  lemma {:induction false} DeadIff(os: OutcomeSet, unquoted: set<int>)
    ensures Dead(os, unquoted) <==>
              os.setType.Categorical? && os.exhaustive && exists q :: q in os.slots && q in unquoted
  {
  }

  lemma {:induction false} NothingSkips<F>(caches: Caches<F>, id: int, theta: real)
    requires id !in caches.certs
    ensures CertIn(caches, id) == None && forall lp :: Rectangular(lp) ==> !Skips(None, lp, theta, EPS)
  {
  }

  /** A transition of the dead Σ = 1 sets re-enumerates and forgets the certificate of this cluster, and of no
      other; without one, states and certificates stay. */
  lemma {:induction false} TransitionForgets<F>(caches: Caches<F>, id: int, k: Loaded, q: Quotes<F>, opts: Options)
    requires AllStored(caches) && (q.legs.Some? ==> LegsOf(q.legs.value, k.shape.qids))
    requires GetsPast(k, q, opts)
    ensures var t := Tick(caches, id, k, q, opts);
            var moved := !k.relaxed && (if id in caches.masks then caches.masks[id]
                                                                   else multiset{}) != MaskOf(k.shape.sets, q.unquoted);
            && t.caches.certs == (if moved then caches.certs - {id} else caches.certs)
            && t.caches.masks == (if moved then caches.masks[id := MaskOf(k.shape.sets, q.unquoted)] else caches.masks)
            && (!moved ==> t.states == k.states)
            && (id in t.caches.fingerprints ==>
                  t.caches.fingerprints[id] == q.fingerprint || (!moved && id in caches.fingerprints))
  {
    hide AfterSettle, MaskOf, MaskedStates;
    var s := Settle(caches, id, k, q.unquoted, opts.maxStates);
    AfterSettleKeeps(s.0, id, k, MaskMoves(caches, id, k, q.unquoted), s.1, q, opts);
  }

  lemma {:induction false} AfterSettleKeeps<F>(settled: Caches<F>, id: int, k: Loaded, changed: bool,
                                               states: seq<World>,
                                               q: Quotes<F>, opts: Options)
    requires AllStored(settled) && (q.legs.Some? ==> LegsOf(q.legs.value, k.shape.qids))
    ensures var t := AfterSettle(settled, id, k, changed, states, q, opts);
            && t.caches.certs == settled.certs && t.caches.masks == settled.masks && t.states == states
            && (t.caches.fingerprints == settled.fingerprints ||
                t.caches.fingerprints == settled.fingerprints[id := q.fingerprint])
  {
    hide ProblemFor, Skips;
  }

  /** Neither refused nor too quiet. */
  ghost predicate GetsPast<F>(k: Loaded, q: Quotes<F>, opts: Options) {
    !Refused(k, opts) && !TooQuiet(k, q.unquoted, opts)
  }
}
