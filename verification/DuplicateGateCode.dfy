/** The gate's loops over the in-memory graph (services/arb-solver/src/graph/duplicate-gate.ts, lines 117-186 and
    245-297): slots, questions and edges rewritten in place, one hit at a time. */
module DuplicateGateCode {
  import opened Wrappers
  import opened Graph
  import opened SolveCore
  import opened BeltGraph
  import opened GraphRefs
  import opened DuplicateGate

  predicate Demotes(os: OutcomeSet, a: int, b: int) {
    os.setType.Categorical? && a in os.slots && b in os.slots && os.exhaustive
  }

  /** Arm D on one set. */
  method DropOne(os: OutcomeSetRef, a: int, b: int, aSets: nat, bSets: nat) returns (demoted: bool)
    modifies os
    ensures os.Value() == DropFrom(old(os.Value()), a, b, aSets, bSets)
    ensures demoted == Demotes(old(os.Value()), a, b)
  {
    demoted := false;
    if !os.setType.Categorical? { return; }
    if a !in os.slots || b !in os.slots { return; }
    os.slots := Remove(os.slots, DropOf(os.slots, a, b, aSets, bSets));
    if os.exhaustive {
      os.exhaustive := false;
      demoted := true;
    }
  }

  /** Arm D on every categorical set that holds both ends. */
  method DemoteAndDrop(graph: GraphRef, a: int, b: int, aSets: nat, bSets: nat) returns (demoted: bool)
    requires Distinct(graph.sets)
    modifies graph.sets
    ensures Values(graph.sets) == DropAll(old(Values(graph.sets)), a, b, aSets, bSets)
    ensures demoted <==> exists os :: os in old(Values(graph.sets)) && Demotes(os, a, b)
  {
    demoted := false;
    ghost var before := Values(graph.sets);
    for i := 0 to |graph.sets|
      invariant forall j :: 0 <= j < i ==> graph.sets[j].Value() == DropFrom(before[j], a, b, aSets, bSets)
      invariant forall j :: i <= j < |graph.sets| ==> graph.sets[j].Value() == before[j]
      invariant demoted <==> exists j :: 0 <= j < i && Demotes(before[j], a, b)
    {
      hide DropFrom, Demotes;
      var one := DropOne(graph.sets[i], a, b, aSets, bSets);
      demoted := demoted || one;
    }
  }

  method RemapSlots(slots: seq<int>, a: int, b: int) returns (remapped: seq<int>)
    ensures remapped == Remap(slots, a, b)
  {
    remapped := [];
    for i := 0 to |slots|
      invariant remapped == Remap(slots[..i], a, b)
    {
      assert slots[..i + 1][..i] == slots[..i];
      var q := if slots[i] == b then a else slots[i];
      if q !in remapped { remapped := remapped + [q]; }
    }
    assert slots[..|slots|] == slots;
  }

  method RepointEdges(edges: seq<Edge>, a: int, b: int) returns (repointed: seq<Edge>)
    ensures repointed == RemapEdges(edges, a, b)
  {
    repointed := [];
    for i := 0 to |edges|
      invariant repointed == RemapEdges(edges[..i], a, b)
    {
      assert edges[..i + 1][..i] == edges[..i];
      var e := edges[i];
      var ante := if e.ante == b then a else e.ante;
      var cons := if e.cons == b then a else e.cons;
      if ante == cons { continue; }
      repointed := repointed + [e.(ante := ante, cons := cons)];
    }
    assert edges[..|edges|] == edges;
  }

  method RemapAllSets(sets: seq<OutcomeSetRef>, a: int, b: int)
    requires Distinct(sets)
    modifies sets
    ensures Values(sets) == RemapSets(old(Values(sets)), a, b)
  {
    ghost var before := Values(sets);
    for i := 0 to |sets|
      invariant forall j :: 0 <= j < i ==> sets[j].Value() == RemapSet(before[j], a, b)
      invariant forall j :: i <= j < |sets| ==> sets[j].Value() == before[j]
    {
      hide Remap;
      if b !in sets[i].slots { continue; }
      var remapped := RemapSlots(sets[i].slots, a, b);
      sets[i].slots := remapped;
    }
  }

  /** Arm C: a takes b's markets, b's question goes, its slots and edges become a's. */
  method CollapseAB(graph: GraphRef, a: int, b: int)
    requires Distinct(graph.sets) && a in graph.questions && b in graph.questions
    modifies graph, graph.sets
    ensures graph.sets == old(graph.sets) && graph.Value() == Collapse(old(graph.Value()), a, b)
  {
    hide Rehome, RemapEdges, RemapSets;
    var edges := RepointEdges(graph.edges, a, b);
    RemapAllSets(graph.sets, a, b);
    graph.edges := edges;
    graph.questions := Rehome(graph.questions, a, b);
  }

  method CountSlots(sets: seq<OutcomeSet>) returns (membership: map<int, nat>)
    ensures forall q :: (if q in membership then membership[q] else 0) == Occurrences(sets, q)
  {
    membership := map[];
    for i := 0 to |sets|
      invariant forall q :: (if q in membership then membership[q] else 0) == Occurrences(sets[..i], q)
    {
      assert sets[..i + 1][..i] == sets[..i];
      membership := CountInto(membership, sets[i].slots);
    }
    assert sets[..|sets|] == sets;
  }

  method CountInto(membership: map<int, nat>, slots: seq<int>) returns (next: map<int, nat>)
    ensures forall q :: (if q in next then next[q] else 0) ==
              (if q in membership then membership[q] else 0) + multiset(slots)[q]
  {
    next := membership;
    for j := 0 to |slots|
      invariant forall q :: (if q in next then next[q] else 0) ==
                  (if q in membership then membership[q] else 0) + multiset(slots[..j])[q]
    {
      var q := slots[j];
      assert slots[..j + 1] == slots[..j] + [q];
      next := next[q := (if q in next then next[q] else 0) + 1];
    }
    assert slots[..|slots|] == slots;
  }

  method CollectFrom(slots: seq<int>, questions: map<int, set<int>>, classify: Classifier, i: nat)
    returns (hits: seq<Hit>)
    requires i < |slots|
    ensures hits == HitsFrom(slots, questions, classify, i, |slots|)
  {
    hits := [];
    for j := i + 1 to |slots|
      invariant hits == HitsFrom(slots, questions, classify, i, j)
    {
      if slots[i] !in questions || slots[j] !in questions { continue; }
      var arm := classify(slots[i], slots[j]);
      if arm.Some? { hits := hits + [Hit(slots[i], slots[j], arm.value)]; }
    }
  }

  method CollectHits(sets: seq<OutcomeSet>, questions: map<int, set<int>>, classify: Classifier)
    returns (hits: seq<Hit>)
    ensures hits == AllHits(sets, questions, classify)
  {
    hits := [];
    for k := 0 to |sets|
      invariant hits == AllHits(sets[..k], questions, classify)
    {
      assert sets[..k + 1][..k] == sets[..k];
      if !sets[k].setType.Categorical? { continue; }
      var slots := sets[k].slots;
      ghost var start := hits;
      for i := 0 to |slots|
        invariant hits == start + HitsIn(slots, questions, classify, i)
      {
        var more := CollectFrom(slots, questions, classify, i);
        hits := hits + more;
      }
    }
    assert sets[..|sets|] == sets;
  }

  method UnionBy(pairs: seq<(int, int)>) returns (unioned: seq<(int, int)>)
    ensures unioned == UnionPairs(pairs)
  {
    unioned := [];
    var seen: set<(int, int)> := {};
    for i := 0 to |pairs|
      invariant unioned == UnionPairs(pairs[..i])
      invariant forall k :: k in seen <==> exists p :: p in pairs[..i] && PairKey(p) == k
    {
      hide PairKey;
      assert pairs[..i + 1][..i] == pairs[..i];
      assert pairs[..i + 1] == pairs[..i] + [pairs[i]];
      var key := PairKey(pairs[i]);
      if key in seen { continue; }
      seen := seen + {key};
      unioned := unioned + [pairs[i]];
    }
    assert pairs[..|pairs|] == pairs;
  }

  datatype Effect = Passed | Collapsed | Dropped(demoted: bool)

  /** What one hit does; a question that is gone is passed over. */
  ghost function EffectOf(g: QGraph, h: Hit): Effect {
    if h.a !in g.questions || h.b !in g.questions then Passed
    else if h.arm.C? then Collapsed
    else Dropped(exists os :: os in g.sets && Demotes(os, h.a, h.b))
  }

  /** The effects of the hits in turn. */
  ghost function Effects(g: QGraph, hits: seq<Hit>, counts: int -> nat): seq<Effect> {
    if hits == [] then [] else
      var m := |hits| - 1;
      Effects(g, hits[..m], counts) + [EffectOf(ApplyHits(g, hits[..m], counts), hits[m])]
  }

  datatype GateResult = GateResult(suspects: seq<(int, int)>, hitCount: nat, collapseCount: nat, demoteCount: nat)

  /** What the gate reports: the pairs of this pass, all hits, the collapses, and the drops that lowered a claim. */
  ghost function Reported(g: QGraph, classify: Classifier): GateResult {
    var hits, counts := AllHits(g.sets, g.questions, classify), (q: int) => Occurrences(g.sets, q);
    var effects := multiset(Effects(g, hits, counts));
    GateResult(Suspects(g, hits, counts), |hits|, effects[Collapsed], effects[Dropped(true)])
  }

  method ApplyOne(graph: GraphRef, h: Hit, membership: map<int, nat>, ghost counts: int -> nat) returns (effect: Effect)
    requires Distinct(graph.sets) && forall q :: (if q in membership then membership[q] else 0) == counts(q)
    modifies graph, graph.sets
    ensures graph.sets == old(graph.sets) && graph.Value() == ApplyHit(old(graph.Value()), h, counts)
    ensures effect == EffectOf(old(graph.Value()), h)
  {
    hide DropAll;
    if h.a !in graph.questions || h.b !in graph.questions { return Passed; }
    if h.arm.C? {
      CollapseAB(graph, h.a, h.b);
      return Collapsed;
    }
    var demoted := DemoteAndDrop(graph, h.a, h.b, if h.a in membership then membership[h.a] else 0,
                                 if h.b in membership then membership[h.b] else 0);
    effect := Dropped(demoted);
  }

  /** The gate. The hits and the slot counts are taken before the first rewrite. */
  method ApplyDuplicatePartitionGate(graph: GraphRef, classify: Classifier) returns (result: GateResult)
    requires Distinct(graph.sets)
    modifies graph, graph.sets
    ensures graph.sets == old(graph.sets) && graph.Value() == Gate(old(graph.Value()), classify)
    ensures result == Reported(old(graph.Value()), classify)
  {
    hide Occurrences, ApplyHit, AllHits, UnionPairs, EffectOf;
    ghost var g := graph.Value();
    var membership := CountSlots(Values(graph.sets));
    ghost var counts := (q: int) => Occurrences(g.sets, q);
    var hits := CollectHits(Values(graph.sets), graph.questions, classify);
    var suspects: seq<(int, int)> := [];
    var collapses, demotions := 0, 0;
    for i := 0 to |hits|
      invariant graph.sets == old(graph.sets)
      invariant graph.Value() == ApplyHits(g, hits[..i], counts)
      invariant suspects == Suspects(g, hits[..i], counts)
      invariant collapses == multiset(Effects(g, hits[..i], counts))[Collapsed]
      invariant demotions == multiset(Effects(g, hits[..i], counts))[Dropped(true)]
    {
      assert hits[..i + 1][..i] == hits[..i];
      EffectSuspects(ApplyHits(g, hits[..i], counts), hits[i]);
      var effect := ApplyOne(graph, hits[i], membership, counts);
      if effect.Collapsed? { collapses := collapses + 1; }
      if effect == Dropped(true) { demotions := demotions + 1; }
      if effect.Dropped? { suspects := suspects + [(hits[i].a, hits[i].b)]; }
    }
    assert hits[..|hits|] == hits;
    var unioned := UnionBy(graph.pairs + suspects);
    ghost var applied := graph.Value();
    graph.pairs := unioned;
    HitsLeavePairs(g, hits, counts);
    result := GateResult(suspects, |hits|, collapses, demotions);
  }

  lemma {:induction false} EffectSuspects(g: QGraph, h: Hit)
    ensures EffectOf(g, h).Dropped? <==> h.arm.D? && h.a in g.questions && h.b in g.questions
  {
  }

  lemma {:induction false} HitsLeavePairs(g: QGraph, hits: seq<Hit>, counts: int -> nat)
    ensures ApplyHits(g, hits, counts).pairs == g.pairs
  {
    if hits != [] { HitsLeavePairs(g, hits[..|hits| - 1], counts); }
  }
}
