/** Per-tick liveness demotion (services/arb-solver/src/solve-core.ts, lines 378-412): a Σ = 1 set with an
    unquoted slot counts as Σ <= 1 for the tick, and states are re-enumerated only when that set of sets
    changes. */
module Liveness {
  import opened Graph
  import opened Omega
  import opened Lp
  import opened FacetLp
  import opened StateEnumerator
  import opened EnumerationOwner

  /** A Σ = 1 set that must be demoted this tick. */
  predicate Dead(os: OutcomeSet, unquoted: set<int>) {
    os.setType.Categorical? && os.exhaustive && AnyIn(os.slots, unquoted)
  }

  function DeadIds(sets: seq<OutcomeSet>, unquoted: set<int>): seq<int> {
    if sets == [] then []
    else if Dead(sets[|sets| - 1], unquoted) then DeadIds(sets[..|sets| - 1], unquoted) + [sets[|sets| - 1].setId]
    else DeadIds(sets[..|sets| - 1], unquoted)
  }

  /** The mask key: the dead sets' ids, sorted and joined in the source, so order does not matter. */
  function MaskOf(sets: seq<OutcomeSet>, unquoted: set<int>): multiset<int> {
    multiset(DeadIds(sets, unquoted))
  }

  function IdsIn(mask: multiset<int>): set<int> {
    set id | id in mask
  }

  /** Demotion by id alone, whatever the set's type. */
  function DemoteById(os: OutcomeSet, ids: set<int>): OutcomeSet {
    if os.setId in ids then os.(exhaustive := false) else os
  }

  function DemoteByIds(sets: seq<OutcomeSet>, ids: set<int>): (r: seq<OutcomeSet>)
    ensures |r| == |sets|
  {
    if sets == [] then [] else DemoteByIds(sets[..|sets| - 1], ids) + [DemoteById(sets[|sets| - 1], ids)]
  }

  /** The states a cluster should carry while the sets in `mask` are demoted. */
  function MaskedStates(c: Cluster, mask: multiset<int>, cap: nat): seq<World> {
    StatesOf(Enumerate(c.(sets := DemoteByIds(c.sets, IdsIn(mask))), cap))
  }

  ghost predicate DistinctIds(sets: seq<OutcomeSet>) {
    forall i, j :: 0 <= i < j < |sets| ==> sets[i].setId != sets[j].setId
  }

  lemma {:induction false} DeadMember(sets: seq<OutcomeSet>, unquoted: set<int>, id: int)
    ensures id in DeadIds(sets, unquoted) <==>
              exists i :: 0 <= i < |sets| && Dead(sets[i], unquoted) && sets[i].setId == id
  {
    if sets != [] {
      var m := |sets| - 1;
      DeadMember(sets[..m], unquoted, id);
      if Dead(sets[m], unquoted) && sets[m].setId == id {
      } else if i :| 0 <= i < |sets| && Dead(sets[i], unquoted) && sets[i].setId == id {
        assert sets[..m][i] == sets[i];
      }
    }
  }

  /** With distinct ids, the mask names exactly the dead sets. */
  lemma {:induction false} MaskNames(sets: seq<OutcomeSet>, unquoted: set<int>, i: nat)
    requires DistinctIds(sets) && i < |sets|
    ensures sets[i].setId in MaskOf(sets, unquoted) <==> Dead(sets[i], unquoted)
  {
    DeadMember(sets, unquoted, sets[i].setId);
    if sets[i].setId in DeadIds(sets, unquoted) {
      var j :| 0 <= j < |sets| && Dead(sets[j], unquoted) && sets[j].setId == sets[i].setId;
      assert j == i;
    }
  }

  lemma {:induction false} DemotedConstraint(os: OutcomeSet, ids: set<int>, qs: set<int>, unquoted: set<int>)
    requires os.setId in ids <==> Dead(os, unquoted)
    ensures SetConstraint(DemoteById(os, ids), qs, {}) == SetConstraint(os, qs, unquoted)
  {
    assert !AnyIn(os.slots, {});
  }

  lemma {:induction false} DemotedConstraints(sets: seq<OutcomeSet>, ids: set<int>, qs: set<int>, unquoted: set<int>)
    requires forall i :: 0 <= i < |sets| ==> (sets[i].setId in ids <==> Dead(sets[i], unquoted))
    ensures SetConstraints(DemoteByIds(sets, ids), qs, {}) == SetConstraints(sets, qs, unquoted)
  {
    if sets != [] {
      var m := |sets| - 1;
      assert forall i :: 0 <= i < m ==> sets[..m][i] == sets[i];
      DemotedConstraints(sets[..m], ids, qs, unquoted);
      DemotedConstraint(sets[m], ids, qs, unquoted);
      var d := DemoteByIds(sets, ids);
      assert d[..m] == DemoteByIds(sets[..m], ids) && d[m] == DemoteById(sets[m], ids);
    }
  }

  /** The world-row engine's demotion and the facet engine's unquoted predicate read the same
      constraints out of the cluster. */
  lemma {:induction false} DemotionIsUnquoted(c: Cluster, unquoted: set<int>)
    requires DistinctIds(c.sets)
    ensures Interpret(c.(sets := DemoteByIds(c.sets, IdsIn(MaskOf(c.sets, unquoted)))), {}) == Interpret(c, unquoted)
  {
    var ids := IdsIn(MaskOf(c.sets, unquoted));
    forall i | 0 <= i < |c.sets| ensures c.sets[i].setId in ids <==> Dead(c.sets[i], unquoted) {
      MaskNames(c.sets, unquoted, i);
    }
    DemotedConstraints(c.sets, ids, QidSet(c), unquoted);
  }

  /** The tick's set constraints, as the enumerator meets them: plain, i.e. no set repeats a slot. */
  ghost function TickSets(c: Cluster, unquoted: set<int>): seq<Constraint> {
    SetConstraints(c.sets, QidSet(c), unquoted)
  }

  ghost predicate AllCompatible(gs: seq<Constraint>) {
    forall k :: k in gs ==> Compatible(gs, k)
  }

  ghost function Demoted(c: Cluster, unquoted: set<int>): Cluster {
    c.(sets := DemoteByIds(c.sets, IdsIn(MaskOf(c.sets, unquoted))))
  }

  lemma {:induction false} DemotedSets(c: Cluster, unquoted: set<int>)
    requires DistinctIds(c.sets)
    ensures SetsOf(Demoted(c, unquoted)) == TickSets(c, unquoted)
  {
    var ids := IdsIn(MaskOf(c.sets, unquoted));
    forall i | 0 <= i < |c.sets| ensures c.sets[i].setId in ids <==> Dead(c.sets[i], unquoted) {
      MaskNames(c.sets, unquoted, i);
    }
    DemotedConstraints(c.sets, ids, QidSet(c), unquoted);
  }

  /** The tick's states against the tick's Ω, overlapping sets and hard edges included: with distinct set ids, an
      enumerated cluster whose sets are compatible with the owners of their slots carries exactly the worlds of Ω under
      this tick's unquoted questions, which are also the 0/1 points of the facets built with them. */
  lemma {:induction false} MaskedStatesAreOmega(c: Cluster, unquoted: set<int>, cap: nat, w: World)
    requires DistinctIds(c.sets) && Distinct(c.qids) && PlainSets(TickSets(c, unquoted)) &&
             AllCompatible(TickSets(c, unquoted))
    requires Enumerate(Demoted(c, unquoted), cap).Ok?
    ensures w in MaskedStates(c, MaskOf(c.sets, unquoted), cap) <==> InOmega(c, unquoted, w)
    ensures w.Keys == QidSet(c) ==>
      (w in MaskedStates(c, MaskOf(c.sets, unquoted), cap) <==>
       InPolytope(Facets(Interpret(c, unquoted).constraints), c.qids, PointOf(w)))
  {
    hide Enumerate, Interpret, PlainSets, Compatible, Facets, InPolytope;
    var d := Demoted(c, unquoted);
    DemotionIsUnquoted(c, unquoted);
    DemotedSets(c, unquoted);
    CompatibleIsExact(d, cap);
    assert InOmega(d, {}, w) <==> InOmega(c, unquoted, w);
    if w.Keys == QidSet(c) { IntegralPointsAreOmega(c, unquoted, w); }
  }

  /** ... and with plain sets and any hard edges, exactly when no merged candidate of the tick slips past the edges. */
  lemma {:induction false} MaskedStatesExactWithEdges(c: Cluster, unquoted: set<int>, cap: nat)
    requires DistinctIds(c.sets) && Distinct(c.qids) && PlainSets(TickSets(c, unquoted))
    requires Enumerate(Demoted(c, unquoted), cap).Ok?
    ensures (forall w :: w in MaskedStates(c, MaskOf(c.sets, unquoted), cap) <==> InOmega(c, unquoted, w)) <==>
            forall x :: !Slips(Demoted(c, unquoted), cap, x)
  {
    hide Enumerate, Interpret, PlainSets, InOmega, Slips;
    var d := Demoted(c, unquoted);
    DemotionIsUnquoted(c, unquoted);
    DemotedSets(c, unquoted);
    EnumerationExactWithEdges(d, cap);
    forall w ensures InOmega(d, {}, w) <==> InOmega(c, unquoted, w) { SameOmega(d, c, unquoted, w); }
  }

  /** ... and without hard edges compatibility is exactly what it takes. */
  lemma {:induction false} MaskedStatesExactIff(c: Cluster, unquoted: set<int>, cap: nat)
    requires DistinctIds(c.sets) && Distinct(c.qids) && PlainSets(TickSets(c, unquoted))
    requires Enumerate(Demoted(c, unquoted), cap).Ok? && EdgeConstraints(c.edges, QidSet(c)) == []
    ensures (forall w :: w in MaskedStates(c, MaskOf(c.sets, unquoted), cap) <==> InOmega(c, unquoted, w)) <==>
            AllCompatible(TickSets(c, unquoted))
  {
    hide Enumerate, Interpret, PlainSets, Compatible, InOmega;
    var d := Demoted(c, unquoted);
    DemotionIsUnquoted(c, unquoted);
    DemotedSets(c, unquoted);
    EnumerationExactIff(d, cap);
    forall w ensures InOmega(d, {}, w) <==> InOmega(c, unquoted, w) { SameOmega(d, c, unquoted, w); }
  }

  lemma {:induction false} SameOmega(d: Cluster, c: Cluster, unquoted: set<int>, w: World)
    requires d.qids == c.qids && Interpret(d, {}) == Interpret(c, unquoted)
    ensures InOmega(d, {}, w) <==> InOmega(c, unquoted, w)
  {
  }
}
