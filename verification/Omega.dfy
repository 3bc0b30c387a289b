/** The single reading of a cluster's typed structure as constraints, and the worlds Ω those
    constraints admit (services/arb-solver/src/solver/omega-constraints.ts). */
module Omega {
  import opened Graph

  datatype HardType = Implies | Excludes | Equals

  datatype Constraint =
    | OneHot(setId: int, slots: seq<int>, exhaustive: bool)
    | Chain(setId: int, slots: seq<int>)
    | HardEdge(edgeId: int, kind: HardType, a: int, b: int)

  datatype Interp = Interp(constraints: seq<Constraint>, freeQids: seq<int>)

  predicate IsSoft(t: EdgeType) {
    t.NearEquivalence? || t.Probabilistic? || t.Conditional?
  }

  predicate EdgeIsHard(e: Edge) {
    e.deterministic && !IsSoft(e.edgeType)
  }

  // ---------- Interpretation, specified one set and one edge at a time ----------

  function SetConstraint(os: OutcomeSet, qs: set<int>, unquoted: set<int>): seq<Constraint> {
    var live := Keep(os.slots, qs);
    match os.setType
    case Categorical =>
      if |live| < 2 then [] else
        [OneHot(os.setId, live, os.exhaustive && |live| == |os.slots| && !AnyIn(os.slots, unquoted))]
    case ThresholdSeries => if |live| == 0 then [] else [Chain(os.setId, live)]
    case _ => []
  }

  function SetConstraints(sets: seq<OutcomeSet>, qs: set<int>, unquoted: set<int>): seq<Constraint> {
    if sets == [] then [] else
      SetConstraints(sets[..|sets| - 1], qs, unquoted) + SetConstraint(sets[|sets| - 1], qs, unquoted)
  }

  function EdgeConstraint(e: Edge, qs: set<int>): seq<Constraint> {
    if !EdgeIsHard(e) || e.ante == e.cons || e.ante !in qs || e.cons !in qs then [] else
      match e.edgeType
      case StrictImplication => [HardEdge(e.edgeId, Implies, e.ante, e.cons)]
      case MutualExclusion => [HardEdge(e.edgeId, Excludes, e.ante, e.cons)]
      case Equivalence => [HardEdge(e.edgeId, Equals, e.ante, e.cons)]
      case _ => []
  }

  function EdgeConstraints(edges: seq<Edge>, qs: set<int>): seq<Constraint> {
    if edges == [] then [] else
      EdgeConstraints(edges[..|edges| - 1], qs) + EdgeConstraint(edges[|edges| - 1], qs)
  }

  function SlotsOf(c: Constraint): seq<int> {
    if c.HardEdge? then [] else c.slots
  }

  /** The questions some one-hot or chain constraint covers. */
  function Covered(cs: seq<Constraint>): set<int> {
    set c, q | c in cs && q in SlotsOf(c) :: q
  }

  lemma {:induction false} CoveredSnoc(cs: seq<Constraint>, k: Constraint)
    ensures Covered(cs + [k]) == Covered(cs) + SetOf(SlotsOf(k))
  {
    forall q ensures q in Covered(cs + [k]) <==> q in Covered(cs) || q in SlotsOf(k) {
      if q in Covered(cs) {
        var c :| c in cs && q in SlotsOf(c);
        assert c in cs + [k];
      }
      if q in SlotsOf(k) {
        assert k in cs + [k];
      }
    }
  }

  function Interpret(c: Cluster, unquoted: set<int>): Interp {
    var qs := QidSet(c);
    var ss := SetConstraints(c.sets, qs, unquoted);
    Interp(ss + EdgeConstraints(c.edges, qs), Keep(c.qids, qs - Covered(ss)))
  }

  /** First loop: one constraint for each categorical or threshold set with live slots. */
  method InterpretSets(sets: seq<OutcomeSet>, qs: set<int>, unquoted: set<int>)
    returns (constraints: seq<Constraint>, covered: set<int>)
    ensures constraints == SetConstraints(sets, qs, unquoted) && covered == Covered(constraints)
  {
    constraints, covered := [], {};
    for i := 0 to |sets|
      invariant constraints == SetConstraints(sets[..i], qs, unquoted)
      invariant covered == Covered(constraints)
    {
      hide Covered;
      var os := sets[i];
      assert sets[..i + 1][..i] == sets[..i];
      var live := Keep(os.slots, qs);
      if |live| == 0 { continue; }
      match os.setType
      case Categorical =>
        if |live| < 2 { continue; }
        covered := covered + SetOf(live);
        var exhaustive := os.exhaustive && |live| == |os.slots| && !AnyIn(os.slots, unquoted);
        CoveredSnoc(constraints, OneHot(os.setId, live, exhaustive));
        constraints := constraints + [OneHot(os.setId, live, exhaustive)];
      case ThresholdSeries =>
        covered := covered + SetOf(live);
        CoveredSnoc(constraints, Chain(os.setId, live));
        constraints := constraints + [Chain(os.setId, live)];
      case _ => // no enumerator for this type: its slots stay free questions
    }
    assert sets[..|sets|] == sets;
  }

  /** Second loop: the deterministic edges between two different live questions. */
  method InterpretEdges(edges: seq<Edge>, qs: set<int>) returns (constraints: seq<Constraint>)
    ensures constraints == EdgeConstraints(edges, qs)
  {
    constraints := [];
    for i := 0 to |edges|
      invariant constraints == EdgeConstraints(edges[..i], qs)
    {
      var e := edges[i];
      assert edges[..i + 1][..i] == edges[..i];
      if !EdgeIsHard(e) { continue; }
      if e.ante == e.cons { continue; }
      if e.ante !in qs || e.cons !in qs { continue; }
      match e.edgeType
      case StrictImplication => constraints := constraints + [HardEdge(e.edgeId, Implies, e.ante, e.cons)];
      case MutualExclusion => constraints := constraints + [HardEdge(e.edgeId, Excludes, e.ante, e.cons)];
      case Equivalence => constraints := constraints + [HardEdge(e.edgeId, Equals, e.ante, e.cons)];
      case _ => // unknown type: skipped, fail-open
    }
    assert edges[..|edges|] == edges;
  }

  /** `unquoted` is empty for the load-time reading. */
  method InterpretCluster(c: Cluster, unquoted: set<int>) returns (interp: Interp)
    ensures interp == Interpret(c, unquoted)
  {
    var qs := QidSet(c);
    var sets, covered := InterpretSets(c.sets, qs, unquoted);
    var edges := InterpretEdges(c.edges, qs);
    interp := Interp(sets + edges, Keep(c.qids, qs - covered));
  }

  // ---------- Ω ----------

  function CountYes(slots: seq<int>, w: World): (n: nat)
    ensures n <= |slots|
  {
    if slots == [] then 0 else
      CountYes(slots[..|slots| - 1], w) + if Yes(w, slots[|slots| - 1]) then 1 else 0
  }

  lemma {:induction false} CountYesSnoc(s: seq<int>, q: int, w: World)
    ensures CountYes(s + [q], w) == CountYes(s, w) + if Yes(w, q) then 1 else 0
  {
    assert (s + [q])[..|s + [q]| - 1] == s;
  }

  /** What one constraint says of a world: Σ = 1 or Σ ≤ 1, each rung implies the next easier one,
      or the edge's relation. */
  ghost predicate Holds(c: Constraint, w: World) {
    match c
    case OneHot(_, slots, exhaustive) =>
      if exhaustive then CountYes(slots, w) == 1 else CountYes(slots, w) <= 1
    case Chain(_, slots) => forall i {:trigger slots[i]} :: 0 <= i < |slots| - 1 && Yes(w, slots[i]) ==>
           Yes(w, slots[i + 1])
    case HardEdge(_, kind, a, b) =>
      match kind
      case Implies => Yes(w, a) ==> Yes(w, b)
      case Excludes => !(Yes(w, a) && Yes(w, b))
      case Equals => Yes(w, a) == Yes(w, b)
  }

  ghost predicate AllHold(cs: seq<Constraint>, w: World) {
    forall c :: c in cs ==> Holds(c, w)
  }

  ghost predicate InOmega(c: Cluster, unquoted: set<int>, w: World) {
    w.Keys == QidSet(c) && AllHold(Interpret(c, unquoted).constraints, w)
  }

  // ---------- An independent definition of coherence, straight from the graph ----------

  ghost predicate AtMostOne(s: seq<int>, w: World) {
    forall i, j :: 0 <= i < j < |s| ==> !(Yes(w, s[i]) && Yes(w, s[j]))
  }

  ghost predicate Monotone(s: seq<int>, w: World) {
    forall i, j :: 0 <= i < j < |s| && Yes(w, s[i]) ==> Yes(w, s[j])
  }

  ghost predicate SetCoherent(os: OutcomeSet, qs: set<int>, unquoted: set<int>, w: World) {
    match os.setType
    case Categorical =>
      && AtMostOne(os.slots, w)
      && (os.exhaustive && |os.slots| >= 2
          && (forall q :: q in os.slots ==> q in qs && q !in unquoted)
          ==> exists q :: q in os.slots && Yes(w, q))
    case ThresholdSeries =>
      forall i, j :: 0 <= i < j < |os.slots| && os.slots[j] in qs && Yes(w, os.slots[i]) ==> Yes(w, os.slots[j])
    case _ => true
  }

  ghost predicate EdgeCoherent(e: Edge, qs: set<int>, w: World) {
    e.deterministic && e.ante != e.cons && e.ante in qs && e.cons in qs ==>
      match e.edgeType
      case StrictImplication => Yes(w, e.ante) ==> Yes(w, e.cons)
      case MutualExclusion => !(Yes(w, e.ante) && Yes(w, e.cons))
      case Equivalence => Yes(w, e.ante) <==> Yes(w, e.cons)
      case _ => true
  }

  /** A truth assignment to the cluster's questions that no set and no deterministic edge forbids. */
  ghost predicate Coherent(c: Cluster, unquoted: set<int>, w: World) {
    && w.Keys == QidSet(c)
    && (forall os :: os in c.sets ==> SetCoherent(os, QidSet(c), unquoted, w))
    && (forall e :: e in c.edges ==> EdgeCoherent(e, QidSet(c), w))
  }

  lemma {:induction false} SetConstraintsMember(sets: seq<OutcomeSet>, qs: set<int>, unquoted: set<int>, k: Constraint)
    ensures k in SetConstraints(sets, qs, unquoted) <==>
            exists os :: os in sets && k in SetConstraint(os, qs, unquoted)
  {
    if sets != [] {
      var m := |sets| - 1;
      SetConstraintsMember(sets[..m], qs, unquoted, k);
      assert forall os :: os in sets <==> os in sets[..m] || os == sets[m];
    }
  }

  lemma {:induction false} EdgeConstraintsMember(edges: seq<Edge>, qs: set<int>, k: Constraint)
    ensures k in EdgeConstraints(edges, qs) <==> exists e :: e in edges && k in EdgeConstraint(e, qs)
  {
    if edges != [] {
      var m := |edges| - 1;
      EdgeConstraintsMember(edges[..m], qs, k);
      assert forall e :: e in edges <==> e in edges[..m] || e == edges[m];
    }
  }

  lemma {:induction false} EdgesCoverNothing(edges: seq<Edge>, qs: set<int>)
    ensures forall k :: k in EdgeConstraints(edges, qs) ==> k.HardEdge?
  {
    if edges != [] {
      EdgesCoverNothing(edges[..|edges| - 1], qs);
    }
  }

  lemma {:induction false} CoveredBySets(ss: seq<Constraint>, es: seq<Constraint>)
    requires forall k :: k in es ==> k.HardEdge?
    ensures Covered(ss + es) == Covered(ss)
  {
    forall q ensures q in Covered(ss + es) <==> q in Covered(ss) {
      if q in Covered(ss) {
        var k :| k in ss && q in SlotsOf(k);
        assert k in ss + es;
      }
    }
  }

  lemma {:induction false} SlotsInCluster(sets: seq<OutcomeSet>, qs: set<int>, unquoted: set<int>)
    ensures Covered(SetConstraints(sets, qs, unquoted)) <= qs
  {
    forall q | q in Covered(SetConstraints(sets, qs, unquoted)) ensures q in qs {
      var k :| k in SetConstraints(sets, qs, unquoted) && q in SlotsOf(k);
      SetConstraintsMember(sets, qs, unquoted, k);
      var os :| os in sets && k in SetConstraint(os, qs, unquoted);
      KeepMembers(os.slots, qs);
    }
  }

  ghost predicate Covers(c: Cluster, interp: Interp) {
    && Covered(interp.constraints) + SetOf(interp.freeQids) == QidSet(c)
    && Covered(interp.constraints) !! SetOf(interp.freeQids)
  }

  /** Every question is either covered by a set's constraint or free, never both. */
  lemma {:induction false} InterpretCovers(c: Cluster, unquoted: set<int>)
    ensures Covers(c, Interpret(c, unquoted))
  {
    var qs := QidSet(c);
    var ss := SetConstraints(c.sets, qs, unquoted);
    SlotsInCluster(c.sets, qs, unquoted);
    EdgesCoverNothing(c.edges, qs);
    CoveredBySets(ss, EdgeConstraints(c.edges, qs));
    KeepMembers(c.qids, qs - Covered(ss));
    var free := Keep(c.qids, qs - Covered(ss));
    forall q ensures q in SetOf(free) <==> q in qs - Covered(ss) {
      assert q in free <==> q in c.qids && q in qs - Covered(ss);
    }
  }

  lemma {:induction false} CountYesOne(slots: seq<int>, w: World, a: int)
    requires Distinct(slots) && (forall q :: q in slots ==> (Yes(w, q) <==> q == a))
    ensures CountYes(slots, w) == if a in slots then 1 else 0
  {
    if slots != [] {
      var m := |slots| - 1;
      assert slots == slots[..m] + [slots[m]];
      assert forall i :: 0 <= i < m ==> slots[..m][i] == slots[i];
      CountYesOne(slots[..m], w, a);
    }
  }

  lemma {:induction false} CountYesNone(slots: seq<int>, w: World)
    requires forall q :: q in slots ==> !Yes(w, q)
    ensures CountYes(slots, w) == 0
  {
    if slots != [] {
      var m := |slots| - 1;
      assert slots[m] in slots;
      CountYesNone(slots[..m], w);
    }
  }

  lemma {:induction false} CountYesBounds(s: seq<int>, w: World)
    ensures CountYes(s, w) >= 1 <==> exists q :: q in s && Yes(w, q)
    ensures CountYes(s, w) <= 1 <==> AtMostOne(s, w)
  {
    if s != [] {
      var m := |s| - 1;
      CountYesBounds(s[..m], w);
      assert s == s[..m] + [s[m]];
      if AtMostOne(s[..m], w) && !AtMostOne(s, w) {
        var i, j :| 0 <= i < j < |s| && Yes(w, s[i]) && Yes(w, s[j]);
        assert s[..m][i] == s[i];
        assert s[i] in s[..m];
      }
      if Yes(w, s[m]) && CountYes(s[..m], w) >= 1 {
        var q :| q in s[..m] && Yes(w, q);
        var i :| 0 <= i < m && s[i] == q;
        assert Yes(w, s[i]) && Yes(w, s[m]);
      }
      if AtMostOne(s, w) {
        forall i, j | 0 <= i < j < m ensures !(Yes(w, s[..m][i]) && Yes(w, s[..m][j])) {
          assert s[..m][i] == s[i] && s[..m][j] == s[j];
        }
      }
    }
  }

  /** A slot whose question is absent reads NO, so dropping it changes no count. */
  lemma {:induction false} CountYesKeep(s: seq<int>, qs: set<int>, w: World)
    requires w.Keys <= qs
    ensures CountYes(Keep(s, qs), w) == CountYes(s, w)
  {
    if s != [] {
      var m := |s| - 1;
      CountYesKeep(s[..m], qs, w);
      KeepSnoc(s[..m], s[m], qs);
      CountYesSnoc(Keep(s[..m], qs), s[m], w);
      assert s == s[..m] + [s[m]];
    }
  }

  /** Link by link is the same as pairwise: implication along the rungs is transitive. */
  lemma {:induction false} ChainIsMonotone(id: int, s: seq<int>, w: World)
    ensures Holds(Chain(id, s), w) <==> Monotone(s, w)
  {
    if Holds(Chain(id, s), w) {
      forall i, j | 0 <= i < j < |s| && Yes(w, s[i]) ensures Yes(w, s[j]) {
        ClimbChain(id, s, w, i, j);
      }
    }
  }

  lemma {:induction false} ClimbChain(id: int, s: seq<int>, w: World, i: nat, j: nat)
    requires Holds(Chain(id, s), w) && i < j < |s| && Yes(w, s[i])
    ensures Yes(w, s[j])
    decreases j - i
  {
    if i + 1 < j {
      ClimbChain(id, s, w, i + 1, j);
    }
  }

  /** Dropping slots from a chain keeps it monotone on those that stay: a removed middle rung
      costs nothing, because the implication runs through it. */
  lemma {:induction false} MonotoneKeep(s: seq<int>, qs: set<int>, w: World)
    ensures Monotone(Keep(s, qs), w) <==>
            forall i, j :: 0 <= i < j < |s| && s[i] in qs && s[j] in qs && Yes(w, s[i]) ==> Yes(w, s[j])
  {
    if s != [] {
      var m := |s| - 1;
      var k := Keep(s[..m], qs);
      MonotoneKeep(s[..m], qs, w);
      KeepMembers(s[..m], qs);
      assert forall i :: 0 <= i < m ==> s[..m][i] == s[i];
      if Monotone(Keep(s, qs), w) {
        assert forall i :: 0 <= i < |k| ==> Keep(s, qs)[i] == k[i];
        assert Monotone(k, w);
        forall i, j | 0 <= i < j < |s| && s[i] in qs && s[j] in qs && Yes(w, s[i]) ensures Yes(w, s[j]) {
          if j == m {
            assert s[..m][i] in k;
            var p :| 0 <= p < |k| && k[p] == s[i];
            assert Keep(s, qs)[p] == s[i] && Keep(s, qs)[|k|] == s[m];
          } else {
            assert s[..m][i] == s[i] && s[..m][j] == s[j];
          }
        }
      }
      if forall i, j :: 0 <= i < j < |s| && s[i] in qs && s[j] in qs && Yes(w, s[i]) ==> Yes(w, s[j]) {
        assert Monotone(k, w);
        if s[m] in qs {
          forall p | 0 <= p < |k| && Yes(w, k[p]) ensures Yes(w, s[m]) {
            assert k[p] in s[..m];
            var i :| 0 <= i < m && s[i] == k[p];
          }
        }
      }
    }
  }

  lemma {:induction false} SingleHolds(k: Constraint, w: World)
    ensures AllHold([k], w) <==> Holds(k, w)
  {
    assert k in [k];
  }

  lemma {:induction false} CategoricalMeaning(os: OutcomeSet, qs: set<int>, unquoted: set<int>, w: World)
    requires w.Keys == qs && os.setType.Categorical?
    ensures AllHold(SetConstraint(os, qs, unquoted), w) <==> SetCoherent(os, qs, unquoted, w)
  {
    hide AtMostOne, Keep, CountYes;
    var live := Keep(os.slots, qs);
    var strict := os.exhaustive && |live| == |os.slots| && !AnyIn(os.slots, unquoted);
    CountYesKeep(os.slots, qs, w);
    CountYesBounds(os.slots, w);
    if |live| >= 2 {
      SingleHolds(OneHot(os.setId, live, strict), w);
      assert AllHold(SetConstraint(os, qs, unquoted), w) <==>
             AtMostOne(os.slots, w) && (strict ==> CountYes(os.slots, w) >= 1);
      StrictMeaning(os, qs, unquoted);
    } else {
      KeepWhole(os.slots, qs);
    }
  }

  /** When Σ = 1 is read from a set: all its slots present, none unquoted. */
  lemma {:induction false} StrictMeaning(os: OutcomeSet, qs: set<int>, unquoted: set<int>)
    ensures |Keep(os.slots, qs)| == |os.slots| && !AnyIn(os.slots, unquoted) <==>
            forall q :: q in os.slots ==> q in qs && q !in unquoted
  {
    KeepWhole(os.slots, qs);
  }

  lemma {:induction false} ThresholdMeaning(os: OutcomeSet, qs: set<int>, unquoted: set<int>, w: World)
    requires w.Keys == qs && os.setType.ThresholdSeries?
    ensures AllHold(SetConstraint(os, qs, unquoted), w) <==> SetCoherent(os, qs, unquoted, w)
  {
    var live := Keep(os.slots, qs);
    MonotoneKeep(os.slots, qs, w);
    ChainIsMonotone(os.setId, live, w);
    SingleHolds(Chain(os.setId, live), w);
  }

  lemma {:induction false} SetMeaning(os: OutcomeSet, qs: set<int>, unquoted: set<int>, w: World)
    requires w.Keys == qs
    ensures AllHold(SetConstraint(os, qs, unquoted), w) <==> SetCoherent(os, qs, unquoted, w)
  {
    if os.setType.Categorical? {
      CategoricalMeaning(os, qs, unquoted, w);
    } else if os.setType.ThresholdSeries? {
      ThresholdMeaning(os, qs, unquoted, w);
    }
  }

  /** The interpretation means exactly coherence: Ω is the set of assignments no live set and no
      deterministic edge between two live questions forbids. */
  lemma {:induction false} OmegaIsCoherence(c: Cluster, unquoted: set<int>, w: World)
    ensures InOmega(c, unquoted, w) <==> Coherent(c, unquoted, w)
  {
    var qs := QidSet(c);
    if w.Keys == qs {
      var ss, es := SetConstraints(c.sets, qs, unquoted), EdgeConstraints(c.edges, qs);
      forall k ensures k in ss + es <==>
          (exists os :: os in c.sets && k in SetConstraint(os, qs, unquoted)) ||
          (exists e :: e in c.edges && k in EdgeConstraint(e, qs))
      {
        SetConstraintsMember(c.sets, qs, unquoted, k);
        EdgeConstraintsMember(c.edges, qs, k);
      }
      forall os ensures AllHold(SetConstraint(os, qs, unquoted), w) <==> SetCoherent(os, qs, unquoted, w) {
        SetMeaning(os, qs, unquoted, w);
      }
      forall e ensures AllHold(EdgeConstraint(e, qs), w) <==> EdgeCoherent(e, qs, w) {
        EdgeMeaning(e, qs, w);
      }
    }
  }

  lemma {:induction false} EdgeMeaning(e: Edge, qs: set<int>, w: World)
    ensures AllHold(EdgeConstraint(e, qs), w) <==> EdgeCoherent(e, qs, w)
  {
    var ks := EdgeConstraint(e, qs);
    assert ks != [] ==> (AllHold(ks, w) <==> Holds(ks[0], w));
  }

  /** No hard edges, no repeated slot, and no question in two constraints. */
  ghost predicate ProductShaped(cs: seq<Constraint>) {
    && (forall c :: c in cs ==> !c.HardEdge? && c.slots != [] && Distinct(c.slots))
    && (forall i, j :: 0 <= i < j < |cs| ==> SetOf(SlotsOf(cs[i])) !! SetOf(SlotsOf(cs[j])))
  }

  /** A constraint looks only at its own slots. */
  lemma {:induction false} HoldsLocal(c: Constraint, w: World, w': World)
    requires !c.HardEdge? && forall q :: q in c.slots ==> (Yes(w, q) <==> Yes(w', q))
    ensures Holds(c, w) <==> Holds(c, w')
  {
    if c.OneHot? { CountYesLocal(c.slots, w, w'); }
  }

  lemma {:induction false} CountYesLocal(slots: seq<int>, w: World, w': World)
    requires forall q :: q in slots ==> (Yes(w, q) <==> Yes(w', q))
    ensures CountYes(slots, w) == CountYes(slots, w')
  {
    if slots != [] {
      var m := |slots| - 1;
      assert slots[m] in slots;
      CountYesLocal(slots[..m], w, w');
    }
  }
}
