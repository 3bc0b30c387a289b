/** The loaded graph as the loader and the belts see it (services/arb-solver/src/graph/loader.ts): what its worlds
    are, what it means for a step to only enlarge them, and the two liveness filters. */
module BeltGraph {
  import opened Wrappers
  import opened Graph
  import opened Omega
  import opened Lp
  import opened Decomposition

  /** `questions` maps a question to the ids of its markets; `pairs` are the duplicate suspects. */
  datatype QGraph = QGraph(questions: map<int, set<int>>, sets: seq<OutcomeSet>, edges: seq<Edge>,
                           pairs: seq<(int, int)>)

  /** The graph read as one cluster. */
  ghost predicate ReadAs(g: QGraph, c: Cluster) {
    QidSet(c) == g.questions.Keys && c.sets == g.sets && c.edges == g.edges
  }

  ghost predicate Admits(g: QGraph, w: World) {
    && w.Keys == g.questions.Keys
    && (forall os :: os in g.sets ==> SetCoherent(os, w.Keys, {}, w))
    && (forall e :: e in g.edges ==> EdgeCoherent(e, w.Keys, w))
  }

  /** The worlds a graph admits are its Ω. */
  lemma {:induction false} AdmitsIsOmega(g: QGraph, c: Cluster, w: World)
    requires ReadAs(g, c)
    ensures Admits(g, w) <==> InOmega(c, {}, w)
  {
    hide SetCoherent, EdgeCoherent, InOmega;
    OmegaIsCoherence(c, {}, w);
  }

  /** Every world of `g`, restricted to the questions of `g'`, is a world of `g'`. */
  ghost predicate Enlarges(g: QGraph, g': QGraph) {
    g'.questions.Keys <= g.questions.Keys && forall w :: Admits(g, w) ==> Admits(g', Restrict(w, g'.questions.Keys))
  }

  lemma {:induction false} RestrictTwice(w: World, a: set<int>, b: set<int>)
    requires b <= a
    ensures Restrict(Restrict(w, a), b) == Restrict(w, b)
  {
  }

  lemma {:induction false} RestrictAll(w: World)
    ensures Restrict(w, w.Keys) == w
  {
  }

  lemma {:induction false} EnlargesCompose(a: QGraph, b: QGraph, c: QGraph)
    requires Enlarges(a, b) && Enlarges(b, c)
    ensures Enlarges(a, c)
  {
    hide Admits;
    forall w | Admits(a, w) ensures Admits(c, Restrict(w, c.questions.Keys)) {
      assert Admits(b, Restrict(w, b.questions.Keys));
      RestrictTwice(w, b.questions.Keys, c.questions.Keys);
    }
  }

  /** Removing sets and edges removes constraints only. */
  ghost predicate Thins(g: QGraph, g': QGraph) {
    && g'.questions == g.questions
    && (forall os :: os in g'.sets ==> os in g.sets)
    && (forall e :: e in g'.edges ==> e in g.edges)
  }

  lemma {:induction false} ThinningEnlarges(g: QGraph, g': QGraph)
    requires Thins(g, g')
    ensures Enlarges(g, g')
  {
    hide SetCoherent, EdgeCoherent;
    forall w | Admits(g, w) ensures Admits(g', Restrict(w, g'.questions.Keys)) {
      RestrictAll(w);
    }
  }

  // ---------- What enlarging is worth ----------

  /** The basket pays at least v in every world of the graph. */
  ghost predicate Guarantees(g: QGraph, legs: seq<Leg>, v: real) {
    forall w :: Admits(g, w) ==> BasketPays(legs, w) >= v
  }

  lemma {:induction false} PaysRestricted(legs: seq<Leg>, w: World, qs: set<int>)
    requires forall l :: l in legs ==> l.question in qs
    ensures BasketPays(legs, Restrict(w, qs)) == BasketPays(legs, w)
  {
    if legs != [] {
      var m := |legs| - 1;
      assert legs[m] in legs;
      PaysRestricted(legs[..m], w, qs);
    }
  }

  /** A guarantee on the enlarged graph already held on the original: enlarging never manufactures an arb. */
  lemma {:induction false} NothingManufactured(g: QGraph, g': QGraph, legs: seq<Leg>, v: real)
    requires Enlarges(g, g') && Guarantees(g', legs, v) && forall l :: l in legs ==> l.question in g'.questions
    ensures Guarantees(g, legs, v)
  {
    hide Admits, BasketPays;
    forall w | Admits(g, w) ensures BasketPays(legs, w) >= v {
      PaysRestricted(legs, w, g'.questions.Keys);
    }
  }

  // ---------- Liveness filters ----------

  /** A set that loses a slot stops claiming exhaustivity; one that loses every slot goes. */
  function LiveSet(os: OutcomeSet, live: set<int>): seq<OutcomeSet> {
    var kept := Keep(os.slots, live);
    if |kept| == |os.slots| then [os]
    else if kept == [] then []
    else [os.(slots := kept, exhaustive := false)]
  }

  function LiveSets(sets: seq<OutcomeSet>, live: set<int>): seq<OutcomeSet> {
    if sets == [] then [] else LiveSets(sets[..|sets| - 1], live) + LiveSet(sets[|sets| - 1], live)
  }

  function LiveEdges(edges: seq<Edge>, live: set<int>): seq<Edge> {
    if edges == [] then []
    else if edges[|edges| - 1].ante in live && edges[|edges| - 1].cons in live
      then LiveEdges(edges[..|edges| - 1], live) + [edges[|edges| - 1]]
    else LiveEdges(edges[..|edges| - 1], live)
  }

  method FilterOutcomeSetSlotsToLive(sets: seq<OutcomeSet>, live: set<int>) returns (out: seq<OutcomeSet>)
    ensures out == LiveSets(sets, live)
  {
    out := [];
    for i := 0 to |sets|
      invariant out == LiveSets(sets[..i], live)
    {
      var os := sets[i];
      assert sets[..i + 1][..i] == sets[..i];
      var kept := Keep(os.slots, live);
      if |kept| == |os.slots| {
        out := out + [os];
        continue;
      }
      if |kept| == 0 { continue; }
      out := out + [OutcomeSet(os.setId, os.setType, kept, if os.exhaustive then false else os.exhaustive)];
    }
    assert sets[..|sets|] == sets;
  }

  method FilterEdgesToLiveEndpoints(edges: seq<Edge>, live: set<int>) returns (out: seq<Edge>)
    ensures out == LiveEdges(edges, live)
  {
    out := [];
    for i := 0 to |edges|
      invariant out == LiveEdges(edges[..i], live)
    {
      assert edges[..i + 1][..i] == edges[..i];
      if edges[i].ante in live && edges[i].cons in live { out := out + [edges[i]]; }
    }
    assert edges[..|edges|] == edges;
  }

  lemma {:induction false} LiveSetsMember(sets: seq<OutcomeSet>, live: set<int>, x: OutcomeSet)
    ensures x in LiveSets(sets, live) <==> exists os :: os in sets && x in LiveSet(os, live)
  {
    hide LiveSet;
    if sets != [] {
      var m := |sets| - 1;
      LiveSetsMember(sets[..m], live, x);
      assert sets == sets[..m] + [sets[m]];
    }
  }

  lemma {:induction false} LiveEdgesMember(edges: seq<Edge>, live: set<int>, e: Edge)
    ensures e in LiveEdges(edges, live) <==> e in edges && e.ante in live && e.cons in live
  {
    if edges != [] {
      var m := |edges| - 1;
      LiveEdgesMember(edges[..m], live, e);
      assert edges == edges[..m] + [edges[m]];
    }
  }

  /** At most one YES survives dropping slots. */
  lemma {:induction false} AtMostOneKeep(s: seq<int>, keep: set<int>, w: World)
    requires AtMostOne(s, w)
    ensures AtMostOne(Keep(s, keep), w)
  {
    if s != [] {
      var m := |s| - 1;
      assert forall i :: 0 <= i < m ==> s[..m][i] == s[i];
      AtMostOneKeep(s[..m], keep, w);
      KeepMembers(s[..m], keep);
      var k := Keep(s[..m], keep);
      forall i | 0 <= i < |k| && s[m] in keep ensures !(Yes(w, k[i]) && Yes(w, s[m])) {
        assert k[i] in k;
        var p :| 0 <= p < m && s[p] == k[i];
      }
    }
  }

  lemma {:induction false} SlotwiseMonotone(s: seq<int>, w: World)
    ensures (forall i, j :: 0 <= i < j < |s| && Yes(w, s[i]) ==> Yes(w, s[j])) <==> Monotone(s, w)
  {
  }

  lemma {:induction false} AtMostOneLocal(s: seq<int>, w: World, r: World)
    requires AtMostOne(s, w) && forall q :: q in s ==> Yes(w, q) == Yes(r, q)
    ensures AtMostOne(s, r)
  {
  }

  lemma {:induction false} MonotoneLocal(s: seq<int>, w: World, r: World)
    requires Monotone(s, w) && forall q :: q in s ==> Yes(w, q) == Yes(r, q)
    ensures Monotone(s, r)
  {
  }

  lemma {:induction false} KeptIs(os: OutcomeSet, x: OutcomeSet, live: set<int>)
    requires x in LiveSet(os, live)
    ensures x.slots == Keep(os.slots, live) && x.setType == os.setType && (forall q :: q in x.slots ==> q in live)
    ensures x.exhaustive ==> x == os
  {
    KeepMembers(os.slots, live);
    KeepWhole(os.slots, live);
    if x == os && |Keep(os.slots, live)| == |os.slots| { KeepAll(os.slots, live); }
  }

  lemma {:induction false} CategoricalLive(os: OutcomeSet, x: OutcomeSet, live: set<int>, w: World, r: World)
    requires os.setType.Categorical? && x.setType.Categorical? && x.slots == Keep(os.slots, live) &&
             (x.exhaustive ==> x == os)
    requires live <= w.Keys && SetCoherent(os, w.Keys, {}, w) && forall q :: q in x.slots ==>
               q in live && Yes(w, q) == Yes(r, q)
    ensures SetCoherent(x, live, {}, r)
  {
    hide AtMostOne, Keep;
    AtMostOneKeep(os.slots, live, w);
    AtMostOneLocal(x.slots, w, r);
  }

  lemma {:induction false} ChainLive(os: OutcomeSet, x: OutcomeSet, live: set<int>, w: World, r: World)
    requires os.setType.ThresholdSeries? && x.setType.ThresholdSeries? && x.slots == Keep(os.slots, live)
    requires live <= w.Keys && SetCoherent(os, w.Keys, {}, w) && forall q :: q in x.slots ==>
               q in live && Yes(w, q) == Yes(r, q)
    ensures SetCoherent(x, live, {}, r)
  {
    hide Monotone, Keep;
    MonotoneKeep(os.slots, live, w);
    MonotoneLocal(x.slots, w, r);
    SlotwiseMonotone(x.slots, r);
  }

  /** A kept set stays coherent: a chain that loses a middle rung keeps its order, because the implication
      runs through the lost rung. */
  lemma {:induction false} LiveSetCoherent(os: OutcomeSet, x: OutcomeSet, live: set<int>, w: World)
    requires live <= w.Keys && x in LiveSet(os, live) && SetCoherent(os, w.Keys, {}, w)
    ensures SetCoherent(x, live, {}, Restrict(w, live))
  {
    hide LiveSet, AtMostOne;
    var r := Restrict(w, live);
    KeptIs(os, x, live);
    if os.setType.Categorical? {
      CategoricalLive(os, x, live, w, r);
    } else if os.setType.ThresholdSeries? {
      ChainLive(os, x, live, w, r);
    }
  }

  lemma {:induction false} LiveEdgeCoherent(e: Edge, live: set<int>, w: World)
    requires live <= w.Keys && EdgeCoherent(e, w.Keys, w)
    ensures EdgeCoherent(e, live, Restrict(w, live))
  {
  }

  function Filtered(g: QGraph, live: map<int, set<int>>): QGraph {
    QGraph(live, LiveSets(g.sets, live.Keys), LiveEdges(g.edges, live.Keys), g.pairs)
  }

  /** The loader's filters only enlarge Ω. `g` holds every set and edge as stored, over all questions they
      name; the filtered graph is over the live ones. */
  lemma {:induction false} FiltersEnlarge(g: QGraph, live: map<int, set<int>>)
    requires live.Keys <= g.questions.Keys
    ensures Enlarges(g, Filtered(g, live))
  {
    hide SetCoherent, EdgeCoherent, LiveSet;
    forall w | Admits(g, w) ensures Admits(Filtered(g, live), Restrict(w, live.Keys)) {
      forall x | x in LiveSets(g.sets, live.Keys) ensures SetCoherent(x, live.Keys, {}, Restrict(w, live.Keys)) {
        LiveSetsMember(g.sets, live.Keys, x);
        var os :| os in g.sets && x in LiveSet(os, live.Keys);
        LiveSetCoherent(os, x, live.Keys, w);
      }
      forall e | e in LiveEdges(g.edges, live.Keys) ensures EdgeCoherent(e, live.Keys, Restrict(w, live.Keys)) {
        LiveEdgesMember(g.edges, live.Keys, e);
        LiveEdgeCoherent(e, live.Keys, w);
      }
    }
  }
}
