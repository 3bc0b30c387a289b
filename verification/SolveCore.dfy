/** Clusters as the solver holds them (services/arb-solver/src/solve-core.ts): load-time routing that
    rewrites a cluster but never the graph's shared set objects, and per-tick solve preparation over the
    liveness masks, fingerprints and dual certificates. */
module SolveCore {
  import opened Wrappers
  import opened Graph
  import opened Omega
  import opened Lp
  import opened FacetLp
  import opened LpBuilder
  import opened StateEnumerator
  import opened Completeness
  import opened Routing
  import opened Liveness
  import opened SkipFilter

  /** An outcome set of the graph, shared by reference with the clusters built from it. */
  class OutcomeSetRef {
    const setId: int
    const setType: SetType
    var slots: seq<int>
    var exhaustive: bool

    constructor (os: OutcomeSet)
      ensures Value() == os
    {
      setId, setType, slots, exhaustive := os.setId, os.setType, os.slots, os.exhaustive;
    }

    function Value(): OutcomeSet
      reads this
    {
      OutcomeSet(setId, setType, slots, exhaustive)
    }
  }

  function Values(refs: seq<OutcomeSetRef>): (r: seq<OutcomeSet>)
    reads refs
    ensures |r| == |refs|
  {
    seq(|refs|, i requires 0 <= i < |refs| reads refs => refs[i].Value())
  }

  class ClusterNode {
    const id: int
    const qids: seq<int>
    const edges: seq<Edge>
    var outcomeSets: seq<OutcomeSetRef>
    var validStates: seq<World>
    var pinned: seq<int>
    var degenerate: bool
    var relaxed: bool
    var demotedSetIds: seq<int>

    constructor (id: int, qids: seq<int>, edges: seq<Edge>, sets: seq<OutcomeSetRef>)
      ensures this.id == id && this.qids == qids && this.edges == edges && outcomeSets == sets
      ensures FreshAs(Cluster(qids, Values(sets), edges))
    {
      this.id, this.qids, this.edges, outcomeSets := id, qids, edges, sets;
      validStates, pinned, degenerate, relaxed, demotedSetIds := [], [], false, false, [];
    }

    function Shape(): Cluster
      reads this, outcomeSets
    {
      Cluster(qids, Values(outcomeSets), edges)
    }

    ghost predicate Unrouted()
      reads this
    {
      validStates == [] && pinned == [] && !degenerate && !relaxed && demotedSetIds == []
    }

    /** Takes over a repaired enumeration and the set objects it belongs to. */
    method Adopt(copies: seq<OutcomeSetRef>, states: seq<World>, demoted: seq<int>)
      modifies this
      ensures outcomeSets == copies && Values(outcomeSets) == old(Values(copies))
      ensures validStates == states && demotedSetIds == demoted
      ensures pinned == old(pinned) && degenerate == old(degenerate) && relaxed == old(relaxed)
    {
      outcomeSets := copies;
      validStates := states;
      demotedSetIds := demoted;
    }

    method SetStates(states: seq<World>)
      modifies this`validStates
      ensures validStates == states && Values(outcomeSets) == old(Values(outcomeSets)) && Shape() == old(Shape())
    {
      validStates := states;
    }

    /** A pinned question makes the cluster degenerate. */
    method Pin(questions: seq<int>)
      modifies this`pinned, this`degenerate
      ensures pinned == questions && degenerate && Values(outcomeSets) == old(Values(outcomeSets))
    {
      pinned := questions;
      degenerate := true;
    }

    method SetPinned(questions: seq<int>)
      modifies this`pinned
      ensures pinned == questions && Values(outcomeSets) == old(Values(outcomeSets))
    {
      pinned := questions;
    }

    method SetRoute(relaxed: bool, degenerate: bool)
      modifies this`relaxed, this`degenerate
      ensures this.relaxed == relaxed && this.degenerate == degenerate &&
              Values(outcomeSets) == old(Values(outcomeSets))
    {
      this.relaxed, this.degenerate := relaxed, degenerate;
    }

    ghost predicate Adopts(r: Repair, sets: seq<OutcomeSet>, states: seq<World>, demoted: seq<int>)
      reads this, outcomeSets
    {
      match r
      case Repaired(outcome, sets', demoted') =>
        Values(outcomeSets) == sets' && validStates == StatesOf(outcome) && demotedSetIds == demoted'
      case _ => Values(outcomeSets) == sets && validStates == states && demotedSetIds == demoted
    }

    /** Fresh from the graph, with this shape. */
    ghost predicate FreshAs(c: Cluster)
      reads this, outcomeSets
    {
      Unrouted() && Shape() == c
    }

    ghost predicate DecidedAs(r: Routing.Routed)
      reads this, outcomeSets
    {
      Routed(r.outcome) == r
    }

    function Routed(outcome: Outcome): Routing.Routed
      reads this, outcomeSets
    {
      Routing.Routed(outcome, Values(outcomeSets), validStates, pinned, degenerate, relaxed, demotedSetIds)
    }
  }

  lemma {:induction false} DemoteEach(sets: seq<OutcomeSet>, ids: set<int>)
    ensures forall i :: 0 <= i < |sets| ==> DemoteSets(sets, ids)[i] == DemoteSet(sets[i], ids)
  {
    forall i | 0 <= i < |sets| ensures DemoteSets(sets, ids)[i] == DemoteSet(sets[i], ids) {
      DemoteMember(sets, ids, i);
    }
  }

  /** A demoted set is a fresh copy: this method may change nothing that exists. */
  method DemoteCopy(os: OutcomeSetRef, ids: set<int>) returns (copy: OutcomeSetRef)
    ensures copy.Value() == DemoteSet(os.Value(), ids)
    ensures copy == os || fresh(copy)
  {
    copy := os;
    if os.setId in ids && os.setType.Categorical? && os.exhaustive {
      copy := new OutcomeSetRef(os.Value().(exhaustive := false));
    }
  }

  method DemoteCopies(refs: seq<OutcomeSetRef>, ids: set<int>) returns (copies: seq<OutcomeSetRef>)
    ensures Values(copies) == DemoteSets(Values(refs), ids)
    ensures forall i :: 0 <= i < |copies| ==> copies[i] in refs || fresh(copies[i])
  {
    copies := [];
    ghost var sets := Values(refs);
    for i := 0 to |refs|
      invariant |copies| == i
      invariant forall j :: 0 <= j < i ==> copies[j].Value() == DemoteSet(sets[j], ids)
      invariant forall j :: 0 <= j < i ==> copies[j] in refs || fresh(copies[j])
    {
      var copy := DemoteCopy(refs[i], ids);
      copies := copies + [copy];
    }
    DemoteEach(sets, ids);
  }

  /** Demoting the offending Σ = 1 sets and re-enumerating a shadow cluster, without touching either. */
  method AttemptRepair(c: Cluster, states: seq<World>, cap: nat) returns (r: Repair)
    ensures r == RepairOf(c, states, cap)
  {
    var interp := InterpretCluster(c, {});
    var check := CheckOmegaCompleteness(interp, states);
    if check.complete { return Complete; }
    if |check.offending| == 0 { return Hopeless; }
    var shadow := c.(sets := DemoteSets(c.sets, SetOf(check.offending)));
    var meta := EnumerateStatesMeta(shadow, cap);
    var shadowInterp := InterpretCluster(shadow, {});
    var recheck := CheckOmegaCompleteness(shadowInterp, StatesOf(meta));
    if |StatesOf(meta)| == 0 || !recheck.complete { return Hopeless; }
    r := Repaired(meta, shadow.sets, check.offending);
  }

  /** Adopts a repair that made the cluster complete; the demoted sets enter as copies. */
  method RepairOmegaCompleteness(cluster: ClusterNode, cfg: Config) returns (repaired: Option<Outcome>)
    modifies cluster
    ensures cluster.Adopts(RepairOf(old(cluster.Shape()), old(cluster.validStates), cfg.maxStates),
                           old(Values(cluster.outcomeSets)), old(cluster.validStates), old(cluster.demotedSetIds))
    ensures var r := RepairOf(old(cluster.Shape()), old(cluster.validStates), cfg.maxStates);
            && repaired == (if r.Repaired? then Some(r.outcome) else None)
            && cluster.degenerate == (old(cluster.degenerate) || r.Hopeless?)
    ensures cluster.pinned == old(cluster.pinned) && cluster.relaxed == old(cluster.relaxed)
    ensures forall os :: os in cluster.outcomeSets ==> os in old(cluster.outcomeSets) || fresh(os)
  {
    hide RepairOf;
    var r := AttemptRepair(cluster.Shape(), cluster.validStates, cfg.maxStates);
    repaired := None;
    match r
    case Complete =>
    case Hopeless => cluster.degenerate := true;
    case Repaired(outcome, sets, demoted) =>
      var copies := DemoteCopies(cluster.outcomeSets, SetOf(demoted));
      RepairedSets(cluster.Shape(), cluster.validStates, cfg.maxStates);
      assert Values(copies) == sets;
      cluster.Adopt(copies, StatesOf(outcome), demoted);
      repaired := Some(outcome);
  }

  lemma {:induction false} RepairedSets(c: Cluster, states: seq<World>, cap: nat)
    ensures var r := RepairOf(c, states, cap); r.Repaired? ==> r.sets == DemoteSets(c.sets, SetOf(r.demoted))
  {
  }

  /** The facet-only route for a cluster over the enumeration cap. */
  method FacetRoute(c: Cluster, cfg: Config, feasible: Feasibility, present: bool)
    returns (relaxed: bool, degenerate: bool)
    ensures relaxed == FitsFacets(c, cfg)
    ensures degenerate == (relaxed && present && !feasible(Facets(Interpret(c, {}).constraints), c.qids))
  {
    relaxed, degenerate := false, false;
    if |c.qids| <= cfg.facetClusterQuestionCap {
      var interp := InterpretCluster(c, {});
      var facets := ConstraintsToFacets(interp.constraints);
      if |facets| <= FACET_CAP {
        relaxed := true;
        if present && !feasible(facets, c.qids) { degenerate := true; }
      }
    }
  }

  /** Repair, then the pin check, on a cluster whose first enumeration gave states. */
  method FinishEnumerated(cluster: ClusterNode, cfg: Config, ghost c: Cluster, first: Outcome)
    returns (outcome: Outcome)
    requires c == cluster.Shape() && cluster.Routed(first) == Unrouted(c, first).(states := StatesOf(first))
    modifies cluster
    ensures cluster.Routed(outcome) == RouteEnumerated(c, first, RepairOf(c, StatesOf(first), cfg.maxStates))
    ensures forall os :: os in cluster.outcomeSets ==> os in old(cluster.outcomeSets) || fresh(os)
  {
    hide RepairOf;
    outcome := first;
    var repaired := RepairOmegaCompleteness(cluster, cfg);
    if repaired.Some? { outcome := repaired.value; }
    var pinned := ComputePinnedQuestions(cluster.qids, cluster.validStates);
    if |pinned| > 0 { cluster.Pin(pinned); }
    AssembleRouted(c, first, RepairOf(c, StatesOf(first), cfg.maxStates), cluster.Routed(outcome));
  }

  /** Load-time decision for one fresh cluster. Only the cluster changes: every set object of the graph
      keeps its fields, because the frame names the cluster alone. */
  method EnumerateAndRouteCluster(cluster: ClusterNode, cfg: Config, feasible: Feasibility, present: bool)
    returns (outcome: Outcome)
    requires cluster.Unrouted()
    modifies cluster
    ensures cluster.Routed(outcome) == Route(old(cluster.Shape()), cfg, feasible, present)
    ensures forall os :: os in cluster.outcomeSets ==> os in old(cluster.outcomeSets) || fresh(os)
  {
    ghost var c := cluster.Shape();
    outcome := EnumerateStatesMeta(cluster.Shape(), cfg.maxStates);
    cluster.SetStates(StatesOf(outcome));
    RouteCases(c, cfg, feasible, present);
    if |cluster.validStates| > 0 {
      outcome := FinishEnumerated(cluster, cfg, c, outcome);
    } else if outcome.Dropped? && cfg.relaxedRoute {
      var relaxed, degenerate := FacetRoute(cluster.Shape(), cfg, feasible, present);
      cluster.SetRoute(relaxed, degenerate);
    }
  }

  lemma {:induction false} RouteCases(c: Cluster, cfg: Config, feasible: Feasibility, present: bool)
    ensures var o, d := Enumerate(c, cfg.maxStates), Route(c, cfg, feasible, present);
            && (StatesOf(o) != [] ==> d == RouteEnumerated(c, o, RepairOf(c, StatesOf(o), cfg.maxStates)))
            && (StatesOf(o) == [] && !(o.Dropped? && cfg.relaxedRoute) ==> d == Unrouted(c, o))
            && (StatesOf(o) == [] && o.Dropped? && cfg.relaxedRoute ==>
                d == Unrouted(c, o).(relaxed := FitsFacets(c, cfg),
                                     degenerate := FitsFacets(c, cfg) && present &&
                                                   !feasible(Facets(Interpret(c, {}).constraints), c.qids)))
  {
  }

  /** The fields after a repair and a pin check are those of the value-level decision. */
  lemma {:induction false} AssembleRouted(c: Cluster, first: Outcome, repair: Repair, d: Routing.Routed)
    requires repair.Repaired? ==> d.sets == repair.sets && d.outcome == repair.outcome && d.demoted == repair.demoted
    requires !repair.Repaired? ==> d.sets == c.sets && d.outcome == first && d.demoted == []
    requires d.states == StatesOf(d.outcome) && d.pinned == PinnedOf(c.qids, d.states) && !d.relaxed
    requires d.degenerate == (repair.Hopeless? || d.pinned != [])
    ensures d == RouteEnumerated(c, first, repair)
  {
  }
}
