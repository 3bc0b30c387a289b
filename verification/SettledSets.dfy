/** Clusters whose sets are compatible with the owners of their slots, so that enumeration is exact: the repair of
    services/arb-solver/src/solve-core.ts, lines 224-279, leaves such a cluster such a cluster, for it lowers the
    flags of two sets over the same slots together. */
module SettledSets {
  import opened Graph
  import opened Omega
  import opened StateEnumerator
  import opened EnumerationOwner
  import opened Completeness
  import opened Routing
  import opened Liveness

  /** No set repeats a slot, and each agrees with the sets that overwrite it. */
  ghost predicate Settled(c: Cluster) {
    PlainSets(SetsOf(c)) && AllCompatible(SetsOf(c))
  }

  lemma {:induction false} SettledStates(c: Cluster, cap: nat)
    requires Distinct(c.qids) && Settled(c) && Enumerate(c, cap).Ok?
    ensures ExactlyOmega(c, StatesOf(Enumerate(c, cap)))
  {
    hide Enumerate, PlainSets, Compatible, ExactlyOmega, SetsOf;
    CompatibleIsExact(c, cap);
  }

  // ---------- Lowering flags ----------

  function Lowered(k: Constraint, ids: set<int>): Constraint {
    if k.OneHot? && k.setId in ids then k.(exhaustive := false) else k
  }

  ghost predicate LoweredBy(gs: seq<Constraint>, gs': seq<Constraint>, ids: set<int>) {
    |gs| == |gs'| && forall i :: 0 <= i < |gs| ==> gs'[i] == Lowered(gs[i], ids)
  }

  lemma {:induction false} LoweredSet(os: OutcomeSet, ids: set<int>, qs: set<int>)
    ensures LoweredBy(SetConstraint(os, qs, {}), SetConstraint(DemoteSet(os, ids), qs, {}), ids)
  {
    hide Keep;
  }

  lemma {:induction false} LoweredSets(sets: seq<OutcomeSet>, ids: set<int>, qs: set<int>)
    ensures LoweredBy(SetConstraints(sets, qs, {}), SetConstraints(DemoteSets(sets, ids), qs, {}), ids)
  {
    hide SetConstraint, DemoteSet, Lowered;
    if sets != [] {
      var m := |sets| - 1;
      LoweredSets(sets[..m], ids, qs);
      LoweredSet(sets[m], ids, qs);
      var d := DemoteSets(sets, ids);
      assert d[..m] == DemoteSets(sets[..m], ids) && d[m] == DemoteSet(sets[m], ids);
    }
  }

  lemma {:induction false} OwnerLowered(gs: seq<Constraint>, gs': seq<Constraint>, ids: set<int>, q: int)
    requires LoweredBy(gs, gs', ids)
    ensures Owner(gs', q) == Owner(gs, q)
  {
    if gs != [] {
      var m := |gs| - 1;
      assert gs'[m] == Lowered(gs[m], ids);
      OwnerLowered(gs[..m], gs'[..m], ids, q);
    }
  }

  /** `ids` names both of two Σ = 1 sets over the same slots, or neither. */
  ghost predicate Even(gs: seq<Constraint>, ids: set<int>) {
    forall k, k' :: k in gs && k' in gs && SameClaim(k, k') ==> (k.setId in ids <==> k'.setId in ids)
  }

  ghost predicate SameClaim(k: Constraint, k': Constraint) {
    k.OneHot? && k'.OneHot? && k.exhaustive && k'.exhaustive && SetOf(k.slots) == SetOf(k'.slots)
  }

  lemma {:induction false} CompatibleLowered(gs: seq<Constraint>, gs': seq<Constraint>, ids: set<int>, k: Constraint)
    requires LoweredBy(gs, gs', ids) && Even(gs, ids) && k in gs && Compatible(gs, k)
    ensures Compatible(gs', Lowered(k, ids))
  {
    hide Even, LoweredBy;
    forall q ensures Owner(gs', q) == Owner(gs, q) { OwnerLowered(gs, gs', ids, q); }
    match k
    case OneHot(id, slots, exhaustive) =>
      var h := Owner(gs, slots[0]);
      LoweredAt(gs, gs', ids, h);
      if exhaustive && id !in ids { OwnerKeepsFlag(gs, ids, k, h); }
    case Chain(_, slots) =>
      forall j {:trigger slots[j]} | 0 <= j < |slots| - 1 ensures ChainAt(gs', slots, j) {
        LoweredAt(gs, gs', ids, Owner(gs, slots[j]));
      }
    case HardEdge(_, _, _, _) =>
  }

  ghost predicate ChainAt(gs: seq<Constraint>, slots: seq<int>, j: nat)
    requires j < |slots| - 1
  {
    var h := Owner(gs, slots[j]);
    h >= 0 && h == Owner(gs, slots[j + 1]) && gs[h].Chain? && InOrder(gs[h].slots, slots[j], slots[j + 1])
  }

  lemma {:induction false} LoweredAt(gs: seq<Constraint>, gs': seq<Constraint>, ids: set<int>, h: int)
    requires LoweredBy(gs, gs', ids) && 0 <= h < |gs|
    ensures |gs'| == |gs| && gs'[h] == Lowered(gs[h], ids)
  {
  }

  /** The owner of a Σ = 1 set is Σ = 1 over the same slots, so it keeps its flag when the set does. */
  lemma {:induction false} OwnerKeepsFlag(gs: seq<Constraint>, ids: set<int>, k: Constraint, h: int)
    requires Even(gs, ids) && k in gs && k.OneHot? && k.exhaustive && k.setId !in ids && k.slots != []
    requires Compatible(gs, k) && h == Owner(gs, k.slots[0])
    ensures gs[h].exhaustive && gs[h].setId !in ids
  {
    forall q ensures q in SetOf(gs[h].slots) <==> q in SetOf(k.slots) {
      if q in k.slots { assert Owner(gs, q) == h; }
    }
    assert gs[h] in gs && SameClaim(k, gs[h]);
  }

  lemma {:induction false} SettledLowered(c: Cluster, ids: set<int>)
    requires Settled(c) && Even(SetsOf(c), ids)
    ensures Settled(c.(sets := DemoteSets(c.sets, ids)))
  {
    hide Compatible, Even, DemoteSets, SetConstraints;
    var gs, gs' := SetsOf(c), SetsOf(c.(sets := DemoteSets(c.sets, ids)));
    LoweredSets(c.sets, ids, QidSet(c));
    forall k' | k' in gs'
      ensures Compatible(gs', k') && exists k :: k in gs && k' == Lowered(k, ids)
    {
      var i :| 0 <= i < |gs'| && gs'[i] == k';
      assert gs[i] in gs;
      CompatibleLowered(gs, gs', ids, gs[i]);
    }
  }

  // ---------- The sets a repair lowers ----------

  lemma {:induction false} SetIdOf(os: OutcomeSet, qs: set<int>, k: Constraint)
    requires k in SetConstraint(os, qs, {})
    ensures !k.HardEdge? && k.setId == os.setId && SetConstraint(os, qs, {}) == [k]
  {
    hide Keep;
  }

  lemma {:induction false} OnePerId(sets: seq<OutcomeSet>, qs: set<int>, k: Constraint, k': Constraint)
    requires DistinctIds(sets) && k in SetConstraints(sets, qs, {}) && k' in SetConstraints(sets, qs, {})
    requires !k.HardEdge? && !k'.HardEdge? && k.setId == k'.setId
    ensures k == k'
  {
    hide SetConstraint, SetConstraints;
    SetConstraintsMember(sets, qs, {}, k);
    SetConstraintsMember(sets, qs, {}, k');
    var os :| os in sets && k in SetConstraint(os, qs, {});
    var os' :| os' in sets && k' in SetConstraint(os', qs, {});
    SetIdOf(os, qs, k);
    SetIdOf(os', qs, k');
    var i :| 0 <= i < |sets| && sets[i] == os;
    var j :| 0 <= j < |sets| && sets[j] == os';
    assert i == j;
  }

  /** Whether a set offends is told by its slots and flag, and only sets do. */
  lemma {:induction false} OffendersEven(c: Cluster, suspects: set<int>)
    requires DistinctIds(c.sets)
    ensures Even(SetsOf(c), SetOf(OffendingIds(Interpret(c, {}).constraints, suspects)))
  {
    hide SetConstraints, EdgeConstraints, OffendingIds, DistinctIds;
    var gs, cs := SetsOf(c), Interpret(c, {}).constraints;
    var ids := SetOf(OffendingIds(cs, suspects));
    forall k, k' | k in gs && k' in gs && SameClaim(k, k') ensures k.setId in ids <==> k'.setId in ids {
      NamedOffends(c, suspects, k);
      NamedOffends(c, suspects, k');
      SameSlotsIn(k.slots, k'.slots, suspects);
    }
  }

  lemma {:induction false} SameSlotsIn(a: seq<int>, b: seq<int>, qs: set<int>)
    requires SetOf(a) == SetOf(b)
    ensures AnyIn(a, qs) <==> AnyIn(b, qs)
  {
    if AnyIn(a, qs) {
      var q :| q in a && q in qs;
      assert q in SetOf(b);
    }
    if AnyIn(b, qs) {
      var q :| q in b && q in qs;
      assert q in SetOf(a);
    }
  }

  lemma {:induction false} NamedOffends(c: Cluster, suspects: set<int>, k: Constraint)
    requires DistinctIds(c.sets) && k in SetsOf(c) && k.OneHot?
    ensures k.setId in OffendingIds(Interpret(c, {}).constraints, suspects) <==> Offends(k, suspects)
  {
    hide SetConstraints, EdgeConstraints, OffendingIds, DistinctIds;
    var cs := Interpret(c, {}).constraints;
    OffendingMember(cs, suspects, k.setId);
    if k.setId in OffendingIds(cs, suspects) {
      var x :| x in cs && Offends(x, suspects) && x.setId == k.setId;
      if x !in SetsOf(c) { EdgeConstraintsMember(c.edges, QidSet(c), x); }
      OnePerId(c.sets, QidSet(c), k, x);
    }
  }

  /** Lowering the flags a completeness check asks for keeps the sets compatible. */
  lemma {:induction false} RepairSettled(c: Cluster, states: seq<World>)
    requires DistinctIds(c.sets) && Settled(c)
    ensures Settled(c.(sets := DemoteSets(c.sets, SetOf(Check(Interpret(c, {}), states).offending))))
  {
    hide Interpret, Settled, Even, DemoteSets, Suspects, IncompleteOf, OffendingIds;
    OffendersEven(c, Suspects(Interpret(c, {}).constraints, IncompleteOf(states)));
    NothingEven(SetsOf(c));
    assert SetOf([]) == {};
    SettledLowered(c, SetOf(Check(Interpret(c, {}), states).offending));
  }

  lemma {:induction false} NothingEven(gs: seq<Constraint>)
    ensures Even(gs, {})
  {
  }

  // ---------- What routing leaves ----------

  /** A route's states are the enumeration of the sets it leaves. */
  lemma {:induction false} RoutedEnumeration(c: Cluster, cfg: Config, feasible: Feasibility, present: bool)
    requires var r := Route(c, cfg, feasible, present); !r.degenerate && r.states != []
    ensures var r := Route(c, cfg, feasible, present);
            && Enumerate(c.(sets := r.sets), cfg.maxStates).Ok? &&
               r.states == StatesOf(Enumerate(c.(sets := r.sets), cfg.maxStates))
            && (r.sets == c.sets || exists s :: r.sets == DemoteSets(c.sets,
                                                                     SetOf(Check(Interpret(c, {}), s).offending)))
  {
    hide Check, Enumerate, Interpret, DemoteSets;
    assert c.(sets := c.sets) == c;
  }

  /** On a cluster with compatible sets, overlapping or not and hard edges included, a route that keeps states has
      exactly the worlds its sets allow, whether it lowered some or not. */
  lemma {:induction false} RoutedIsOmega(c: Cluster, cfg: Config, feasible: Feasibility, present: bool)
    requires Distinct(c.qids) && DistinctIds(c.sets) && Settled(c)
    requires var r := Route(c, cfg, feasible, present); !r.degenerate && r.states != []
    ensures var r := Route(c, cfg, feasible, present);
            Settled(c.(sets := r.sets)) && ExactlyOmega(c.(sets := r.sets), r.states)
  {
    hide Route, Settled, DemoteSets, Check, Interpret, Enumerate, ExactlyOmega;
    var r := Route(c, cfg, feasible, present);
    RoutedEnumeration(c, cfg, feasible, present);
    if r.sets == c.sets {
      assert c.(sets := c.sets) == c;
    } else {
      var s :| r.sets == DemoteSets(c.sets, SetOf(Check(Interpret(c, {}), s).offending));
      RepairSettled(c, s);
    }
    SettledStates(c.(sets := r.sets), cfg.maxStates);
  }

  /** ... and without hard edges those are exactly the clusters of which this holds. */
  lemma {:induction false} RoutedIsOmegaIff(c: Cluster, cfg: Config, feasible: Feasibility, present: bool)
    requires Distinct(c.qids) && EdgeConstraints(c.edges, QidSet(c)) == []
    requires var r := Route(c, cfg, feasible, present);
             !r.degenerate && r.states != [] && PlainSets(SetsOf(c.(sets := r.sets)))
    ensures var r := Route(c, cfg, feasible, present); ExactlyOmega(c.(sets := r.sets), r.states) <==>
              Settled(c.(sets := r.sets))
  {
    hide Route, DemoteSets, Check, Interpret, Enumerate, ExactlyOmega, PlainSets, Compatible;
    RoutedEnumeration(c, cfg, feasible, present);
    EnumerationExactIff(c.(sets := Route(c, cfg, feasible, present).sets), cfg.maxStates);
  }
}
