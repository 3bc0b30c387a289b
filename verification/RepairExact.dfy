/** What load time decides about a cluster, read off its sets, its edges and its two enumerations alone
    (services/arb-solver/src/solve-core.ts, lines 146-279; services/arb-solver/src/solver/omega-constraints.ts,
    lines 135-178): which Σ = 1 claims a repair lowers, when the repair is taken, and when a cluster is solved on
    its facets. */
module RepairExact {
  import opened Graph
  import opened Omega
  import opened Lp
  import opened FacetLp
  import opened StateEnumerator
  import opened Completeness
  import opened Routing
  import opened Liveness
  import opened EngineVerdict
  import opened SettledSets

  /** Questions of the cluster that its enumeration never shows both ways. */
  ghost function OneSided(c: Cluster, cap: nat): set<int> {
    set q | q in QidSet(c) && !BothValues(StatesOf(Enumerate(c, cap)), q)
  }

  /** Some deterministic implication, exclusion or equivalence between two different questions of the cluster. */
  ghost predicate Joined(c: Cluster, q: int, p: int) {
    q != p && q in QidSet(c) && p in QidSet(c) && exists e :: e in c.edges && Joins(e, q, p)
  }

  ghost predicate Joins(e: Edge, q: int, p: int) {
    && e.deterministic && (e.edgeType.StrictImplication? || e.edgeType.MutualExclusion? || e.edgeType.Equivalence?)
    && ((e.ante == q && e.cons == p) || (e.ante == p && e.cons == q))
  }

  /** q is one-sided, or joined to a question that is. */
  ghost predicate NearOneSided(c: Cluster, cap: nat, q: int) {
    q in OneSided(c, cap) || exists p :: p in OneSided(c, cap) && Joined(c, q, p)
  }

  /** A Σ = 1 set of at least two slots, all of them in the cluster, near a one-sided question. */
  ghost predicate Blamed(c: Cluster, cap: nat, os: OutcomeSet) {
    && os.setType.Categorical? && os.exhaustive && |os.slots| >= 2 && (forall q :: q in os.slots ==> q in QidSet(c))
    && exists q :: q in os.slots && NearOneSided(c, cap, q)
  }

  ghost function LowerSet(c: Cluster, cap: nat, os: OutcomeSet): OutcomeSet {
    if Blamed(c, cap, os) then os.(exhaustive := false) else os
  }

  /** The cluster with the claims of all blamed sets lowered, and of no other. */
  ghost function LoweredCluster(c: Cluster, cap: nat): Cluster {
    c.(sets := seq(|c.sets|, i requires 0 <= i < |c.sets| => LowerSet(c, cap, c.sets[i])))
  }

  // ---------- The check, read off the enumeration ----------

  lemma {:induction false} IncompleteIs(c: Cluster, cap: nat)
    requires StatesOf(Enumerate(c, cap)) != []
    ensures IncompleteOf(StatesOf(Enumerate(c, cap))) == OneSided(c, cap)
  {
    hide Enumerate, IncompleteOf, BothValues;
    var states := StatesOf(Enumerate(c, cap));
    forall w | w in states ensures w.Keys == QidSet(c) { StateKeys(c, cap, w); }
    forall q ensures q in IncompleteOf(states) <==> q in OneSided(c, cap) { IncompleteMember(states, QidSet(c), q); }
  }

  lemma {:induction false} EdgeReaches(e: Edge, qs: set<int>, incomplete: set<int>, q: int)
    requires incomplete <= qs && q in qs
    ensures (exists k :: k in EdgeConstraint(e, qs) && Reaches(k, incomplete, q)) <==>
              exists p :: p in incomplete && p != q && Joins(e, q, p)
  {
    var other := if e.ante == q then e.cons else e.ante;
    if p :| p in incomplete && p != q && Joins(e, q, p) {
      assert |EdgeConstraint(e, qs)| == 1 && Reaches(EdgeConstraint(e, qs)[0], incomplete, q);
    }
    if k :| k in EdgeConstraint(e, qs) && Reaches(k, incomplete, q) {
      assert other in incomplete && other != q && Joins(e, q, other);
    }
  }

  lemma {:induction false} SuspectIff(c: Cluster, cap: nat, q: int)
    requires q in QidSet(c)
    ensures q in Suspects(Interpret(c, {}).constraints, OneSided(c, cap)) <==> NearOneSided(c, cap, q)
  {
    hide SetConstraints, EdgeConstraints, OneSided, Joins, Suspects, Reaches;
    var qs, cs, one := QidSet(c), Interpret(c, {}).constraints, OneSided(c, cap);
    SuspectMember(cs, one, q);
    WithinQids(c, cap);
    if k :| k in cs && Reaches(k, one, q) {
      EdgeOnly(c, k, one, q);
      var e :| e in c.edges && k in EdgeConstraint(e, qs);
      EdgeReaches(e, qs, one, q);
      var p :| p in one && p != q && Joins(e, q, p);
      assert Joined(c, q, p);
    }
    if p :| p in one && Joined(c, q, p) {
      var e :| e in c.edges && Joins(e, q, p);
      EdgeReaches(e, qs, one, q);
      var k :| k in EdgeConstraint(e, qs) && Reaches(k, one, q);
      EdgeConstraintsMember(c.edges, qs, k);
    }
  }

  lemma {:induction false} WithinQids(c: Cluster, cap: nat)
    ensures OneSided(c, cap) <= QidSet(c)
  {
    hide Enumerate, BothValues;
  }

  /** Only an edge reaches anything. */
  lemma {:induction false} EdgeOnly(c: Cluster, k: Constraint, incomplete: set<int>, q: int)
    requires k in Interpret(c, {}).constraints && Reaches(k, incomplete, q)
    ensures exists e :: e in c.edges && k in EdgeConstraint(e, QidSet(c))
  {
    hide SetConstraints, EdgeConstraints;
    var qs := QidSet(c);
    if k in SetConstraints(c.sets, qs, {}) {
      SetConstraintsMember(c.sets, qs, {}, k);
      var os :| os in c.sets && k in SetConstraint(os, qs, {});
      SetIdOf(os, qs, k);
    }
    EdgeConstraintsMember(c.edges, qs, k);
  }

  /** A set's constraint offends exactly when the set is blamed. */
  lemma {:induction false} BlamedIff(c: Cluster, cap: nat, os: OutcomeSet)
    ensures (exists k :: k in SetConstraint(os, QidSet(c), {}) &&
                         Offends(k, Suspects(Interpret(c, {}).constraints, OneSided(c, cap))))
            <==> Blamed(c, cap, os)
  {
    hide Keep, Interpret, OneSided, NearOneSided, Suspects;
    var qs, suspects := QidSet(c), Suspects(Interpret(c, {}).constraints, OneSided(c, cap));
    KeepWhole(os.slots, qs);
    KeepMembers(os.slots, qs);
    forall q | q in qs ensures q in suspects <==> NearOneSided(c, cap, q) { SuspectIff(c, cap, q); }
    if Blamed(c, cap, os) {
      KeepAll(os.slots, qs);
      var k := SetConstraint(os, qs, {})[0];
      assert k in SetConstraint(os, qs, {}) && Offends(k, suspects);
    }
  }

  lemma {:induction false} OffendingIff(c: Cluster, cap: nat, id: int)
    ensures id in OffendingIds(Interpret(c, {}).constraints,
                               Suspects(Interpret(c, {}).constraints, OneSided(c, cap))) <==>
              exists os :: os in c.sets && os.setId == id && Blamed(c, cap, os)
  {
    hide SetConstraints, EdgeConstraints, SetConstraint, OneSided, Suspects, Blamed, OffendingIds;
    var qs, cs := QidSet(c), Interpret(c, {}).constraints;
    var suspects := Suspects(cs, OneSided(c, cap));
    OffendingMember(cs, suspects, id);
    if id in OffendingIds(cs, suspects) {
      var k :| k in cs && Offends(k, suspects) && k.setId == id;
      OffenderIsSet(c, k, suspects);
      SetConstraintsMember(c.sets, qs, {}, k);
      var os :| os in c.sets && k in SetConstraint(os, qs, {});
      SetIdOf(os, qs, k);
      BlamedIff(c, cap, os);
    }
    if os :| os in c.sets && os.setId == id && Blamed(c, cap, os) {
      BlamedIff(c, cap, os);
      var k :| k in SetConstraint(os, qs, {}) && Offends(k, suspects);
      SetIdOf(os, qs, k);
      SetConstraintsMember(c.sets, qs, {}, k);
    }
  }

  lemma {:induction false} OffenderIsSet(c: Cluster, k: Constraint, suspects: set<int>)
    requires k in Interpret(c, {}).constraints && Offends(k, suspects)
    ensures k in SetConstraints(c.sets, QidSet(c), {}) && k.OneHot?
  {
    hide SetConstraints, EdgeConstraints;
    if k in EdgeConstraints(c.edges, QidSet(c)) { EdgeConstraintsMember(c.edges, QidSet(c), k); }
  }

  // ---------- The repair ----------

  lemma {:induction false} DemotedIsLowered(c: Cluster, cap: nat, ids: set<int>)
    requires DistinctIds(c.sets)
    requires forall id :: id in ids <==> exists os :: os in c.sets && os.setId == id && Blamed(c, cap, os)
    ensures c.(sets := DemoteSets(c.sets, ids)) == LoweredCluster(c, cap)
  {
    hide Blamed, DemoteSets;
    var d, l := DemoteSets(c.sets, ids), LoweredCluster(c, cap).sets;
    forall i | 0 <= i < |c.sets| ensures d[i] == l[i] {
      DemoteMember(c.sets, ids, i);
      assert c.sets[i] in c.sets;
      if c.sets[i].setId in ids {
        var os :| os in c.sets && os.setId == c.sets[i].setId && Blamed(c, cap, os);
        var j :| 0 <= j < |c.sets| && c.sets[j] == os;
        assert i == j;
      }
      BlamedIsExhaustive(c, cap, c.sets[i]);
    }
    assert d == l;
  }

  lemma {:induction false} BlamedIsExhaustive(c: Cluster, cap: nat, os: OutcomeSet)
    ensures Blamed(c, cap, os) ==> os.setType.Categorical? && os.exhaustive
  {
  }

  lemma {:induction false} NothingBlamed(c: Cluster, cap: nat)
    requires OneSided(c, cap) == {}
    ensures LoweredCluster(c, cap) == c
  {
    hide OneSided;
    assert LoweredCluster(c, cap).sets == c.sets;
  }

  lemma {:induction false} CompleteIff(c: Cluster, cap: nat)
    requires StatesOf(Enumerate(c, cap)) != []
    ensures Check(Interpret(c, {}), StatesOf(Enumerate(c, cap))).complete <==>
              forall q :: q in c.qids ==> BothValues(StatesOf(Enumerate(c, cap)), q)
    ensures OneSided(c, cap) == {} <==> forall q :: q in c.qids ==> BothValues(StatesOf(Enumerate(c, cap)), q)
  {
    hide Enumerate, Check, BothValues, Interpret;
    var states := StatesOf(Enumerate(c, cap));
    forall w | w in states ensures w.Keys == QidSet(c) { StateKeys(c, cap, w); }
    CompleteMeans(Interpret(c, {}), states, QidSet(c));
    if OneSided(c, cap) == {} {
      forall q | q in c.qids ensures BothValues(states, q) { assert q in QidSet(c) && q !in OneSided(c, cap); }
    }
    if forall q :: q in c.qids ==> BothValues(states, q) {
      assert forall q :: q !in OneSided(c, cap);
    }
  }

  /** Every question shown both ways, and some state at all. */
  ghost predicate Whole(c: Cluster, cap: nat) {
    StatesOf(Enumerate(c, cap)) != [] && forall q :: q in c.qids ==> BothValues(StatesOf(Enumerate(c, cap)), q)
  }

  lemma {:induction false} RepairIs(c: Cluster, cap: nat)
    requires DistinctIds(c.sets) && StatesOf(Enumerate(c, cap)) != []
    ensures var r, l := RepairOf(c, StatesOf(Enumerate(c, cap)), cap), LoweredCluster(c, cap);
            && (r.Hopeless? <==> !Whole(l, cap))
            && (r.Complete? ==> l == c && Whole(c, cap))
            && (r.Repaired? ==> r.sets == l.sets && r.outcome == Enumerate(l, cap) &&
                                forall id :: id in r.demoted <==>
                                         exists os :: os in c.sets && os.setId == id && Blamed(c, cap, os))
  {
    hide Enumerate, Interpret, OffendingIds, Suspects, BothValues, Blamed, OneSided, DemoteSets, LoweredCluster;
    var states, cs := StatesOf(Enumerate(c, cap)), Interpret(c, {}).constraints;
    CompleteIff(c, cap);
    if OneSided(c, cap) == {} {
      NothingBlamed(c, cap);
    } else {
      IncompleteIs(c, cap);
      var ids := OffendingIds(cs, Suspects(cs, OneSided(c, cap)));
      forall id ensures id in SetOf(ids) <==> exists os :: os in c.sets && os.setId == id && Blamed(c, cap, os) {
        OffendingIff(c, cap, id);
      }
      DemotedIsLowered(c, cap, SetOf(ids));
      var l := LoweredCluster(c, cap);
      if ids == [] {
        NothingNamed(c);
        assert SetOf(ids) == {};
        assert l == c;
      }
      if StatesOf(Enumerate(l, cap)) != [] { CompleteIff(l, cap); }
      assert c.(sets := DemoteSets(c.sets, SetOf(ids))) == l;
      assert forall id :: id in ids <==> id in SetOf(ids);
    }
  }

  lemma {:induction false} NothingNamed(c: Cluster)
    ensures c.(sets := DemoteSets(c.sets, {})) == c
  {
    forall i | 0 <= i < |c.sets| ensures DemoteSets(c.sets, {})[i] == c.sets[i] { DemoteMember(c.sets, {}, i); }
    assert DemoteSets(c.sets, {}) == c.sets;
  }

  /** The repair, exactly. A cluster with states is kept for solving if and only if it shows every question both
      ways once the claims of the blamed sets are lowered; it then has exactly those sets and their enumeration, and
      reports exactly their ids. Otherwise it is degenerate, and everything about it is as it was. */
  lemma {:induction false} RepairExactly(c: Cluster, cfg: Config, feasible: Feasibility, present: bool)
    requires DistinctIds(c.sets) && StatesOf(Enumerate(c, cfg.maxStates)) != []
    ensures var r, l := Route(c, cfg, feasible, present), LoweredCluster(c, cfg.maxStates);
            && !r.relaxed && (!r.degenerate <==> Whole(l, cfg.maxStates))
            && (!r.degenerate ==>
                  r.sets == l.sets && r.states == StatesOf(Enumerate(l, cfg.maxStates)) && r.pinned == [] &&
                  forall id :: id in r.demoted <==>
                           exists os :: os in c.sets && os.setId == id && Blamed(c, cfg.maxStates, os))
            && (r.degenerate ==> r.sets == c.sets && r.states == StatesOf(Enumerate(c, cfg.maxStates)) &&
                                 r.demoted == [])
  {
    hide Enumerate, RepairOf, BothValues, LoweredCluster, Blamed, PinnedOf;
    var cap, l := cfg.maxStates, LoweredCluster(c, cfg.maxStates);
    RepairIs(c, cap);
    var repair := RepairOf(c, StatesOf(Enumerate(c, cap)), cap);
    var final := if repair.Repaired? then repair.outcome else Enumerate(c, cap);
    NonePinned(c.qids, StatesOf(final));
    if repair.Complete? { NoneBlamed(c, cap); }
    QidsLowered(c, cap);
  }

  lemma {:induction false} QidsLowered(c: Cluster, cap: nat)
    ensures LoweredCluster(c, cap).qids == c.qids
  {
  }

  lemma {:induction false} NoneBlamed(c: Cluster, cap: nat)
    requires LoweredCluster(c, cap) == c
    ensures forall os :: os in c.sets ==> !Blamed(c, cap, os)
  {
    forall os | os in c.sets ensures !Blamed(c, cap, os) {
      var i :| 0 <= i < |c.sets| && c.sets[i] == os;
      assert LoweredCluster(c, cap).sets[i] == os;
    }
  }

  lemma {:induction false} NonePinned(qids: seq<int>, states: seq<World>)
    requires states != []
    ensures PinnedOf(qids, states) == [] <==> forall q :: q in qids ==> BothValues(states, q)
  {
    hide PinnedOf, BothValues;
    forall q | q in qids ensures q in PinnedOf(qids, states) <==> !BothValues(states, q) {
      UnpinnedShowsBoth(qids, states, q);
    }
    if PinnedOf(qids, states) != [] {
      assert PinnedOf(qids, states)[0] in PinnedOf(qids, states);
      PinnedMember(qids, states, PinnedOf(qids, states)[0]);
    }
  }

  // ---------- The facet-only route ----------

  /** A cluster without states is solved on its facets exactly when it was too large to enumerate, the route is on,
      and it has few enough questions and facets; it is then degenerate exactly when the oracle is there and refuses
      its facets. Any other cluster without states is left as it is. */
  lemma {:induction false} RelaxedExactly(c: Cluster, cfg: Config, feasible: Feasibility, present: bool)
    requires StatesOf(Enumerate(c, cfg.maxStates)) == []
    ensures var r, facets := Route(c, cfg, feasible, present), Facets(Interpret(c, {}).constraints);
            && r.sets == c.sets && r.states == [] && r.pinned == [] && r.demoted == []
            && (r.relaxed <==> Enumerate(c, cfg.maxStates).Dropped? && cfg.relaxedRoute &&
                               |c.qids| <= cfg.facetClusterQuestionCap && |facets| <= 20000)
            && (r.degenerate <==> r.relaxed && present && !feasible(facets, c.qids))
  {
    hide Enumerate, Interpret, Facets;
  }
}
