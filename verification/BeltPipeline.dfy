/** The belts put together: the latch that keeps a refutation across reloads, the independent-bundle belt, the whole
    load pipeline, and runs of reloads and price refreshes (services/arb-solver/src/graph/loader.ts, solve-core.ts,
    intra-set-containment-belt.ts and independent-bundle-belt.ts). */
module BeltPipeline {
  import opened Wrappers
  import opened Graph
  import opened Omega
  import opened Decomposition
  import opened SolveCore
  import opened BeltGraph
  import opened GraphRefs
  import opened DuplicateGate
  import opened DuplicateGateRun
  import opened DuplicateGateCode
  import opened MutexComponents
  import opened ContainmentBelt
  import opened ContainmentBeltCode

  // ---------- Independent-bundle belt ----------

  datatype BundleFacts = BundleFacts(nativeIndependent: bool, hasNegrisk: bool, hasFixtureKind: bool, hasValue: bool)

  type FactsOf = int -> Option<BundleFacts>

  /** How many slots have facts. */
  function Known(slots: seq<int>, factsOf: FactsOf): nat {
    if slots == [] then 0 else Known(slots[..|slots| - 1], factsOf) + if factsOf(slots[|slots| - 1]).Some? then 1 else 0
  }

  ghost predicate Native(q: int, factsOf: FactsOf) {
    factsOf(q).Some? && factsOf(q).value.nativeIndependent
  }

  /** Something claims mutual exclusion for this slot. */
  ghost predicate Claimed(q: int, factsOf: FactsOf) {
    factsOf(q).Some? && (factsOf(q).value.hasNegrisk || factsOf(q).value.hasFixtureKind || factsOf(q).value.hasValue)
  }

  /** At least two known slots, one natively independent, none with a mutex authority. */
  ghost predicate Refuses(slots: seq<int>, factsOf: FactsOf) {
    && Known(slots, factsOf) >= 2
    && (exists q :: q in slots && Native(q, factsOf))
    && (forall q :: q in slots ==> !Claimed(q, factsOf))
  }

  method RefusesIndependentBundleSet(slots: seq<int>, factsOf: FactsOf) returns (refuses: bool)
    ensures refuses <==> Refuses(slots, factsOf)
  {
    var known := 0;
    var native, authority := false, false;
    for i := 0 to |slots|
      invariant known == Known(slots[..i], factsOf)
      invariant native <==> exists j :: 0 <= j < i && Native(slots[j], factsOf)
      invariant authority <==> exists j :: 0 <= j < i && Claimed(slots[j], factsOf)
    {
      var f := factsOf(slots[i]);
      assert slots[..i + 1][..i] == slots[..i];
      if f.None? { continue; }
      known := known + 1;
      if f.value.nativeIndependent { native := true; }
      if f.value.hasNegrisk || f.value.hasFixtureKind || f.value.hasValue { authority := true; }
    }
    assert slots[..|slots|] == slots;
    refuses := known >= 2 && native && !authority;
  }

  ghost function BundleIds(sets: seq<OutcomeSet>, factsOf: FactsOf): set<int> {
    set os | os in sets && os.setType.Categorical? && Refuses(os.slots, factsOf) :: os.setId
  }

  ghost function Bundled(g: QGraph, factsOf: FactsOf): QGraph {
    g.(sets := KeepSets(g.sets, BundleIds(g.sets, factsOf)))
  }

  method BundlesAmong(sets: seq<OutcomeSet>, factsOf: FactsOf) returns (freed: set<int>)
    ensures freed == BundleIds(sets, factsOf)
  {
    hide Refuses;
    freed := {};
    for i := 0 to |sets|
      invariant freed == BundleIds(sets[..i], factsOf)
    {
      assert sets[..i + 1] == sets[..i] + [sets[i]];
      if !sets[i].setType.Categorical? { continue; }
      var refuses := RefusesIndependentBundleSet(sets[i].slots, factsOf);
      if refuses { freed := freed + {sets[i].setId}; }
    }
    assert sets[..|sets|] == sets;
  }

  method ApplyIndependentBundleBelt(graph: GraphRef, factsOf: FactsOf) returns (freed: set<int>)
    modifies graph
    ensures graph.Value() == Bundled(old(graph.Value()), factsOf) &&
            freed == BundleIds(old(Values(graph.sets)), factsOf)
  {
    hide Refuses, KeepSets;
    freed := BundlesAmong(Values(graph.sets), factsOf);
    var kept := KeepRefs(graph.sets, freed);
    graph.sets := kept;
  }

  lemma {:induction false} BundleEnlarges(g: QGraph, factsOf: FactsOf)
    ensures Enlarges(g, Bundled(g, factsOf))
  {
    hide BundleIds, Enlarges;
    forall os | os in Bundled(g, factsOf).sets ensures os in g.sets {
      KeepSetsMember(g.sets, BundleIds(g.sets, factsOf), os);
    }
    ThinningEnlarges(g, Bundled(g, factsOf));
  }

  /** A second application refuses nothing. */
  lemma {:induction false} BundleIdempotent(g: QGraph, factsOf: FactsOf)
    ensures BundleIds(Bundled(g, factsOf).sets, factsOf) == {} &&
            Bundled(Bundled(g, factsOf), factsOf) == Bundled(g, factsOf)
  {
    hide Refuses;
    forall os | os in Bundled(g, factsOf).sets ensures !(os.setType.Categorical? && Refuses(os.slots, factsOf)) {
      KeepSetsMember(g.sets, BundleIds(g.sets, factsOf), os);
    }
    KeepNothing(Bundled(g, factsOf).sets, []);
  }

  // ---------- Latch ----------

  datatype Latch = Latch(setIds: set<int>, pairs: set<(int, int)>)

  predicate PairRefuted(e: Edge, latch: Latch) {
    e.edgeType.MutualExclusion? && PairKey((e.ante, e.cons)) in latch.pairs
  }

  function KeepUnrefuted(edges: seq<Edge>, latch: Latch): seq<Edge> {
    if edges == [] then []
    else if PairRefuted(edges[|edges| - 1], latch) then KeepUnrefuted(edges[..|edges| - 1], latch)
    else KeepUnrefuted(edges[..|edges| - 1], latch) + [edges[|edges| - 1]]
  }

  function Latched(g: QGraph, latch: Latch, pairs: seq<(int, int)>): QGraph {
    QGraph(g.questions, KeepSets(g.sets, latch.setIds), KeepUnrefuted(g.edges, latch), pairs)
  }

  lemma {:induction false} UnrefutedMember(edges: seq<Edge>, latch: Latch, e: Edge)
    ensures e in KeepUnrefuted(edges, latch) <==> e in edges && !PairRefuted(e, latch)
  {
    hide PairRefuted;
    if edges != [] {
      var m := |edges| - 1;
      UnrefutedMember(edges[..m], latch, e);
      assert edges == edges[..m] + [edges[m]];
    }
  }

  lemma {:induction false} LatchEnlarges(g: QGraph, latch: Latch, pairs: seq<(int, int)>)
    ensures Enlarges(g, Latched(g, latch, pairs))
  {
    hide Enlarges;
    forall os | os in Latched(g, latch, pairs).sets ensures os in g.sets { KeepSetsMember(g.sets, latch.setIds, os); }
    forall e | e in Latched(g, latch, pairs).edges ensures e in g.edges { UnrefutedMember(g.edges, latch, e); }
    ThinningEnlarges(g, Latched(g, latch, pairs));
  }

  /** No set the belt freed and no exclusion between questions it paired. */
  ghost predicate Without(g: QGraph, res: BeltResult) {
    && (forall os :: os in g.sets ==> os.setId !in res.freed)
    && (forall e :: e in g.edges && e.edgeType.MutualExclusion? ==> PairKey((e.ante, e.cons)) !in KeysOf(res.suspects))
  }

  lemma {:induction false} LatchedWithout(g: QGraph, latch: Latch, pairs: seq<(int, int)>, res: BeltResult)
    requires res.freed <= latch.setIds && KeysOf(res.suspects) <= latch.pairs
    ensures Without(Latched(g, latch, pairs), res)
  {
    hide KeysOf, PairKey;
    forall os | os in Latched(g, latch, pairs).sets ensures os.setId !in res.freed {
      KeepSetsMember(g.sets, latch.setIds, os);
    }
    forall e | e in Latched(g, latch, pairs).edges && e.edgeType.MutualExclusion?
      ensures PairKey((e.ante, e.cons)) !in KeysOf(res.suspects) {
      UnrefutedMember(g.edges, latch, e);
    }
  }

  /** One per process; it only grows. */
  class ContainmentLatch {
    var refutedSetIds: set<int>
    var refutedPairs: set<(int, int)>

    constructor ()
      ensures Contents() == Latch({}, {})
    {
      refutedSetIds, refutedPairs := {}, {};
    }

    function Contents(): Latch
      reads this
    {
      Latch(refutedSetIds, refutedPairs)
    }

    /** Adds the belt's freed set ids and suspect pairs one by one; nothing ever leaves the latch. From now on whatever
        graph the latch is re-asserted on comes out without what this result refuted. */
    method LatchBeltResult(res: BeltResult)
      modifies this
      ensures Contents() == Latch(old(refutedSetIds) + res.freed, old(refutedPairs) + KeysOf(res.suspects))
      ensures forall g, pairs :: Without(Latched(g, Contents(), pairs), res)
    {
      hide KeysOf, PairKey, Without, Latched;
      var rest := res.freed;
      while rest != {}
        modifies this`refutedSetIds
        invariant rest <= res.freed && refutedSetIds == old(refutedSetIds) + (res.freed - rest)
        decreases |rest|
      {
        ghost var some := SomeIn(rest);
        var id :| id in rest;
        refutedSetIds := refutedSetIds + {id};
        rest := rest - {id};
      }
      NoKeys();
      for i := 0 to |res.suspects|
        modifies this`refutedPairs
        invariant refutedPairs == old(refutedPairs) + KeysOf(res.suspects[..i])
      {
        assert res.suspects[..i + 1] == res.suspects[..i] + [res.suspects[i]];
        KeysSnoc(res.suspects[..i], res.suspects[i]);
        refutedPairs := refutedPairs + {PairKey(res.suspects[i])};
      }
      assert res.suspects[..|res.suspects|] == res.suspects;
      forall g, pairs ensures Without(Latched(g, Contents(), pairs), res) { LatchedWithout(g, Contents(), pairs, res); }
    }
  }

  method UnrefutedEdges(edges: seq<Edge>, latch: Latch) returns (kept: seq<Edge>)
    ensures kept == KeepUnrefuted(edges, latch) && |kept| <= |edges|
  {
    kept := [];
    for i := 0 to |edges|
      invariant kept == KeepUnrefuted(edges[..i], latch) && |kept| <= i
    {
      assert edges[..i + 1][..i] == edges[..i];
      if !PairRefuted(edges[i], latch) { kept := kept + [edges[i]]; }
    }
    assert edges[..|edges|] == edges;
  }

  /** Existing pairs first, one per key, then every latched key not yet there. */
  method UnionLatched(pairs: seq<(int, int)>, latch: Latch) returns (unioned: seq<(int, int)>)
    requires forall p :: p in latch.pairs ==> PairKey(p) == p
    ensures KeysOf(unioned) == KeysOf(pairs) + latch.pairs
  {
    hide PairKey, KeysOf, UnionPairs;
    unioned := UnionBy(pairs);
    UnionKeys(pairs);
    var rest := latch.pairs;
    while rest != {}
      invariant rest <= latch.pairs && KeysOf(unioned) == KeysOf(pairs) + (latch.pairs - rest)
      decreases |rest|
    {
      ghost var some := SomeIn(rest);
      var p :| p in rest;
      if p !in KeysOf(unioned) {
        KeysSnoc(unioned, p);
        unioned := unioned + [p];
      }
      rest := rest - {p};
    }
  }

  /** Re-asserts every earlier refutation, before the belt looks at prices. */
  method ApplyContainmentLatch(graph: GraphRef, latch: Latch) returns (setsFreed: nat, edgesDropped: nat)
    requires forall p :: p in latch.pairs ==> PairKey(p) == p
    modifies graph
    ensures graph.Value() == Latched(old(graph.Value()), latch, graph.pairs)
    ensures KeysOf(graph.pairs) == KeysOf(old(graph.pairs)) + latch.pairs
    ensures setsFreed == |old(graph.sets)| - |graph.sets| && edgesDropped == |old(graph.edges)| - |graph.edges|
  {
    hide KeepSets, KeepUnrefuted, KeysOf, PairKey;
    ghost var g := graph.Value();
    var sets := KeepRefs(graph.sets, latch.setIds);
    FewerSets(Values(graph.sets), latch.setIds);
    var edges := UnrefutedEdges(graph.edges, latch);
    setsFreed, edgesDropped := |graph.sets| - |sets|, |graph.edges| - |edges|;
    var pairs := graph.pairs;
    if latch.pairs != {} { pairs := UnionLatched(graph.pairs, latch); }
    graph.sets := sets;
    graph.edges := edges;
    graph.pairs := pairs;
  }

  // ---------- The load pipeline ----------

  /** Everything the load reads besides the stored graph; record lists are told apart from the worlds. */
  datatype Inputs = Inputs(live: map<int, set<int>>, classify: Classifier, structural: View, factsOf: FactsOf,
                           latch: Latch, priced: View, pairs: seq<(int, int)>)

  ghost function Gated(g: QGraph, x: Inputs): QGraph {
    Gate(Filtered(g, x.live), x.classify)
  }

  /** Liveness filters, gate, structural belt, bundle belt, latch, price belt, in the order of a load. */
  ghost function LoadedGraph(g: QGraph, x: Inputs): QGraph {
    Belted(Latched(Bundled(Belted(Gated(g, x), x.structural, x.pairs), x.factsOf), x.latch, x.pairs), x.priced, x.pairs)
  }

  lemma {:induction false} BeltsEnlarge(g: QGraph, x: Inputs)
    ensures Enlarges(g, Belted(Latched(Bundled(Belted(g, x.structural, x.pairs), x.factsOf), x.latch, x.pairs),
                               x.priced, x.pairs))
  {
    hide Enlarges, Belted, Bundled, Latched;
    var a := Belted(g, x.structural, x.pairs);
    var b := Bundled(a, x.factsOf);
    var c := Latched(b, x.latch, x.pairs);
    BeltEnlarges(g, x.structural, x.pairs);
    BundleEnlarges(a, x.factsOf);
    LatchEnlarges(b, x.latch, x.pairs);
    BeltEnlarges(c, x.priced, x.pairs);
    EnlargesCompose(g, a, b);
    EnlargesCompose(g, b, c);
    EnlargesCompose(g, c, Belted(c, x.priced, x.pairs));
  }

  /** The whole load keeps every world in which the fully proved twins agree: restricted to the questions that
      are left, it is a world of the graph the clusters are built from. */
  lemma {:induction false} LoadKeepsWorlds(g: QGraph, x: Inputs, w: World)
    requires x.live.Keys <= g.questions.Keys && Admits(g, w)
    requires TwinsAgree(AllHits(Filtered(g, x.live).sets, x.live, x.classify), Restrict(w, x.live.Keys))
    ensures Admits(LoadedGraph(g, x), Restrict(w, LoadedGraph(g, x).questions.Keys))
  {
    hide Admits, AllHits, ApplyHits, UnionPairs, DuplicateGate.Suspects, Belted, Bundled, Latched, LiveSets, LiveEdges,
         TwinsAgree;
    var f := Filtered(g, x.live);
    FiltersEnlarge(g, x.live);
    var y := Restrict(w, x.live.Keys);
    var hits, counts := AllHits(f.sets, f.questions, x.classify), (q: int) => Occurrences(f.sets, q);
    GateKeepsWorlds(f, hits, counts, y);
    var applied := ApplyHits(f, hits, counts);
    SameWorldsAs(applied, Gated(g, x), Restrict(y, applied.questions.Keys));
    RestrictTwice(w, x.live.Keys, applied.questions.Keys);
    BeltsEnlarge(Gated(g, x), x);
    BeltsKeepQuestions(Gated(g, x), x);
    RestrictTwice(w, applied.questions.Keys, applied.questions.Keys);
  }

  lemma {:induction false} SameWorldsAs(a: QGraph, b: QGraph, w: World)
    requires a.questions == b.questions && a.sets == b.sets && a.edges == b.edges
    ensures Admits(a, w) <==> Admits(b, w)
  {
  }

  lemma {:induction false} BeltsKeepQuestions(g: QGraph, x: Inputs)
    ensures Belted(Latched(Bundled(Belted(g, x.structural, x.pairs), x.factsOf), x.latch, x.pairs), x.priced,
                   x.pairs).questions == g.questions
  {
    hide FreedIds, DroppedIds, KeepSets, KeepEdges, KeepUnrefuted, BundleIds;
  }

  lemma {:induction false} LiveSlotsDistinct(sets: seq<OutcomeSet>, live: set<int>)
    requires forall os :: os in sets ==> Distinct(os.slots)
    ensures forall os :: os in LiveSets(sets, live) ==> Distinct(os.slots)
  {
    hide LiveSets, Keep;
    forall x | x in LiveSets(sets, live) ensures Distinct(x.slots) {
      LiveSetsMember(sets, live, x);
      var os :| os in sets && x in LiveSet(os, live);
      KeepDistinct(os.slots, live);
    }
  }

  /** No live market is lost in a load: when no stored set lists a question twice, the loaded graph has exactly the
      markets of the live questions, whatever the classifier, the belts and the latch do. */
  lemma {:induction false} LoadKeepsMarkets(g: QGraph, x: Inputs)
    requires forall os :: os in g.sets ==> Distinct(os.slots)
    ensures Markets(LoadedGraph(g, x).questions) == Markets(x.live)
  {
    hide Gate, Markets, LiveSets, LiveEdges, Belted, Bundled, Latched, NoRepeats;
    LiveSlotsDistinct(g.sets, x.live.Keys);
    DistinctNoRepeats(LiveSets(g.sets, x.live.Keys), x.live.Keys);
    NoRepeatsKeeps(Filtered(g, x.live), x.classify);
    BeltsKeepQuestions(Gated(g, x), x);
  }

  /** What the loaded graph guarantees, the stored graph guarantees over every world in which the fully proved twins
      agree. */
  lemma {:induction false} LoadGuaranteesAgreeing(g: QGraph, x: Inputs, legs: seq<Leg>, v: real, w: World)
    requires x.live.Keys <= g.questions.Keys && Admits(g, w)
    requires TwinsAgree(AllHits(Filtered(g, x.live).sets, x.live, x.classify), Restrict(w, x.live.Keys))
    requires Guarantees(LoadedGraph(g, x), legs, v) && forall l :: l in legs ==>
               l.question in LoadedGraph(g, x).questions
    ensures BasketPays(legs, w) >= v
  {
    hide Admits, AllHits, LoadedGraph, TwinsAgree, BasketPays;
    LoadKeepsWorlds(g, x, w);
    PaysRestricted(legs, w, LoadedGraph(g, x).questions.Keys);
  }

  /** With no fully proved twins the load only removes walls: whatever basket the loaded graph guarantees was
      already guaranteed by the graph as stored. */
  lemma {:induction false} LoadManufacturesNothing(g: QGraph, x: Inputs, legs: seq<Leg>, v: real)
    requires x.live.Keys <= g.questions.Keys
    requires forall h :: Classified(Filtered(g, x.live).sets, x.live, x.classify, h) ==> h.arm.D?
    requires forall l :: l in legs ==> l.question in x.live
    requires Guarantees(LoadedGraph(g, x), legs, v)
    ensures Guarantees(g, legs, v)
  {
    hide Enlarges, Guarantees, Gate, Belted, Bundled, Latched, LiveSets, LiveEdges;
    FiltersEnlarge(g, x.live);
    PartialGate(Filtered(g, x.live), x.classify);
    EnlargesCompose(g, Filtered(g, x.live), Gated(g, x));
    BeltsEnlarge(Gated(g, x), x);
    BeltsKeepQuestions(Gated(g, x), x);
    EnlargesCompose(g, Gated(g, x), LoadedGraph(g, x));
    NothingManufactured(g, LoadedGraph(g, x), legs, v);
  }

  // ---------- No flap-back over a run ----------

  /** One reload or one price refresh: the graph it starts from, and the prices it sees. */
  datatype BeltStep = BeltStep(graph: QGraph, view: View, pairs: seq<(int, int)>)

  ghost function LatchAfter(steps: seq<BeltStep>, k: nat): Latch
    requires k <= |steps|
  {
    if k == 0 then Latch({}, {}) else
      var latch := LatchAfter(steps, k - 1);
      var h := Latched(steps[k - 1].graph, latch, steps[k - 1].pairs);
      Latch(latch.setIds + FreedIds(h, steps[k - 1].view), latch.pairs + SuspectKeys(h, steps[k - 1].view))
  }

  /** The graph step k hands to the cluster builder. */
  ghost function OutOf(steps: seq<BeltStep>, k: nat): QGraph
    requires k < |steps|
  {
    Belted(Latched(steps[k].graph, LatchAfter(steps, k), steps[k].pairs), steps[k].view, steps[k].pairs)
  }

  lemma {:induction false} LatchGrows(steps: seq<BeltStep>, j: nat, k: nat)
    requires j <= k <= |steps|
    ensures LatchAfter(steps, j).setIds <= LatchAfter(steps, k).setIds &&
            LatchAfter(steps, j).pairs <= LatchAfter(steps, k).pairs
    decreases k
  {
    hide Latched, FreedIds, SuspectKeys;
    if j < k { LatchGrows(steps, j, k - 1); }
  }

  /** No flap-back, whatever later graphs and prices say: a set id latched by step j or earlier is in no graph
      handed on from step j on, and a pair latched before step j has no mutex edge in any of them. */
  lemma {:induction false} NoFlapBack(steps: seq<BeltStep>, j: nat, k: nat)
    requires j <= k < |steps|
    ensures forall os :: os in OutOf(steps, k).sets ==> os.setId !in LatchAfter(steps, j + 1).setIds
    ensures forall e :: e in OutOf(steps, k).edges && e.edgeType.MutualExclusion? ==>
              PairKey((e.ante, e.cons)) !in LatchAfter(steps, j).pairs
  {
    hide FreedIds, SuspectKeys, DroppedIds, KeepSets, KeepEdges, KeepUnrefuted, PairKey;
    var latch := LatchAfter(steps, k);
    var h := Latched(steps[k].graph, latch, steps[k].pairs);
    LatchGrows(steps, j, k);
    LatchGrows(steps, j + 1, k + 1);
    forall os | os in OutOf(steps, k).sets ensures os.setId !in LatchAfter(steps, j + 1).setIds {
      KeepSetsMember(h.sets, FreedIds(h, steps[k].view), os);
      KeepSetsMember(steps[k].graph.sets, latch.setIds, os);
    }
    forall e | e in OutOf(steps, k).edges && e.edgeType.MutualExclusion?
      ensures PairKey((e.ante, e.cons)) !in LatchAfter(steps, j).pairs {
      KeepEdgesMember(h.edges, DroppedIds(h, steps[k].view), e);
      UnrefutedMember(steps[k].graph.edges, latch, e);
    }
  }
}
