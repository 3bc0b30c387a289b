/** Why solving cluster by cluster loses nothing: the clusters of cluster-builder.ts split the graph's Ω
    into a product, and a spanning basket's worst payout into a sum. */
module Decomposition {
  import opened Graph
  import opened Omega
  import opened Lp
  import opened ClusterBuilder
  import opened StateEnumerator
  import opened EnumerationExact
  import opened Wrappers
  import opened LpBuilder

  // ---------- Every live edge and set lies in exactly one cluster ----------

  lemma {:induction false} EdgesInMember(edges: seq<Edge>, compOf: map<int, nat>, i: nat, e: Edge)
    ensures e in EdgesIn(edges, compOf, i) <==> e in edges && InComp(compOf, e.ante, i) && InComp(compOf, e.cons, i)
  {
    if edges != [] {
      var m := |edges| - 1;
      EdgesInMember(edges[..m], compOf, i, e);
      assert edges == edges[..m] + [edges[m]];
    }
  }

  lemma {:induction false} SetsInMember(sets: seq<OutcomeSet>, compOf: map<int, nat>, i: nat, os: OutcomeSet)
    ensures os in SetsIn(sets, compOf, i) <==> os in sets && Touches(os.slots, compOf, i)
  {
    if sets != [] {
      var m := |sets| - 1;
      SetsInMember(sets[..m], compOf, i, os);
      assert sets == sets[..m] + [sets[m]];
    }
  }

  /** A set touches at most one component, so it is attached at most once: the two-component case the
      source allows for never happens. A set with a live slot is attached to that slot's cluster, and an
      edge with a live endpoint to that endpoint's. */
  lemma {:induction false} ExactlyOneCluster(g: ConstraintGraph, compOf: map<int, nat>, cs: seq<Built>)
    requires Decomposes(g, compOf, cs)
    ensures forall os, i, j :: (os in g.sets && 0 <= i < |cs| && 0 <= j < |cs| &&
                                os in cs[i].cluster.sets && os in cs[j].cluster.sets) ==> i == j
    ensures forall os, q :: os in g.sets && q in os.slots && q in g.qids ==> os in cs[compOf[q]].cluster.sets
    ensures forall e, i, j :: (e in g.edges && 0 <= i < |cs| && 0 <= j < |cs| &&
                               e in cs[i].cluster.edges && e in cs[j].cluster.edges) ==> i == j
    ensures forall e :: e in g.edges && (e.ante in g.qids || e.cons in g.qids) ==>
              exists i :: 0 <= i < |cs| && e in cs[i].cluster.edges
  {
    forall os, i, j | os in g.sets && 0 <= i < |cs| && 0 <= j < |cs| && os in cs[i].cluster.sets &&
                                                                     os in cs[j].cluster.sets
      ensures i == j
    {
      SetsInMember(g.sets, compOf, i, os);
      SetsInMember(g.sets, compOf, j, os);
      assert BuiltFrom(g, compOf, i, cs[i]) && BuiltFrom(g, compOf, j, cs[j]);
      SlotsOneComponent(g, compOf, cs, os, i, j);
    }
    forall os, q | os in g.sets && q in os.slots && q in g.qids ensures os in cs[compOf[q]].cluster.sets {
      assert BuiltFrom(g, compOf, compOf[q], cs[compOf[q]]);
      SetsInMember(g.sets, compOf, compOf[q], os);
      assert InComp(compOf, q, compOf[q]);
    }
    forall e, i, j | e in g.edges && 0 <= i < |cs| && 0 <= j < |cs| && e in cs[i].cluster.edges &&
                                                                    e in cs[j].cluster.edges
      ensures i == j
    {
      assert BuiltFrom(g, compOf, i, cs[i]) && BuiltFrom(g, compOf, j, cs[j]);
      EdgesInMember(g.edges, compOf, i, e);
      EdgesInMember(g.edges, compOf, j, e);
    }
    forall e | e in g.edges && (e.ante in g.qids || e.cons in g.qids)
      ensures exists i :: 0 <= i < |cs| && e in cs[i].cluster.edges
    {
      EdgeAttached(g, compOf, cs, e);
    }
  }

  lemma {:induction false} SlotsOneComponent(g: ConstraintGraph, compOf: map<int, nat>, cs: seq<Built>, os: OutcomeSet,
                                             i: nat, j: nat)
    requires Decomposes(g, compOf, cs) && os in g.sets && i < |cs| && j < |cs|
    requires Touches(os.slots, compOf, i) && Touches(os.slots, compOf, j)
    ensures i == j
  {
    var a :| a in os.slots && InComp(compOf, a, i);
    var b :| b in os.slots && InComp(compOf, b, j);
    assert BuiltFrom(g, compOf, i, cs[i]);
    assert SlotsTogether(os.slots, Nodes(g), Members(compOf, i));
    assert a in Members(compOf, i);
    assert b in Members(compOf, i);
  }

  lemma {:induction false} EdgeAttached(g: ConstraintGraph, compOf: map<int, nat>, cs: seq<Built>, e: Edge)
    requires Decomposes(g, compOf, cs) && e in g.edges && (e.ante in g.qids || e.cons in g.qids)
    ensures exists i :: 0 <= i < |cs| && e in cs[i].cluster.edges
  {
    var q := if e.ante in g.qids then e.ante else e.cons;
    var i := compOf[q];
    assert BuiltFrom(g, compOf, i, cs[i]);
    assert EdgeTogether(e, Members(compOf, i));
    assert q in Members(compOf, i);
    EdgesInMember(g.edges, compOf, i, e);
    assert e in cs[i].cluster.edges;
  }

  // ---------- Ω is a product ----------

  function Part(b: Built, w: World): World {
    Restrict(w, QidSet(b.cluster))
  }

  /** The slots of a set attached to cluster i mean the same to the cluster as to the graph. */
  lemma {:induction false} SlotsLocal(g: ConstraintGraph, compOf: map<int, nat>, cs: seq<Built>, os: OutcomeSet, i: nat)
    requires Decomposes(g, compOf, cs) && i < |cs| && os in g.sets && Touches(os.slots, compOf, i)
    ensures forall q :: q in os.slots ==> (q in QidSet(cs[i].cluster) <==> q in SetOf(g.qids))
  {
    assert BuiltFrom(g, compOf, i, cs[i]);
    forall q | q in os.slots && q in SetOf(g.qids) ensures q in QidSet(cs[i].cluster) {
      assert InComp(compOf, q, compOf[q]) && Touches(os.slots, compOf, compOf[q]);
      SlotsOneComponent(g, compOf, cs, os, i, compOf[q]);
    }
  }

  lemma {:induction false} SetCoherentLocal(os: OutcomeSet, qs: set<int>, qs': set<int>, unquoted: set<int>, w: World)
    requires w.Keys == qs && qs' <= qs && forall q :: q in os.slots ==> (q in qs' <==> q in qs)
    ensures SetCoherent(os, qs, unquoted, w) <==> SetCoherent(os, qs', unquoted, Restrict(w, qs'))
  {
    assert forall q :: q in os.slots ==> (Yes(w, q) <==> Yes(Restrict(w, qs'), q));
    assert forall i :: 0 <= i < |os.slots| ==> os.slots[i] in os.slots;
  }

  /** A set none of whose slots is a live question constrains nothing. */
  lemma {:induction false} DeadSetCoherent(os: OutcomeSet, qs: set<int>, unquoted: set<int>, w: World)
    requires w.Keys == qs && forall q :: q in os.slots ==> q !in qs
    ensures SetCoherent(os, qs, unquoted, w)
  {
    assert forall i :: 0 <= i < |os.slots| ==> os.slots[i] in os.slots;
    if os.setType.Categorical? && |os.slots| >= 2 {
      assert os.slots[0] in os.slots;
    }
  }

  lemma {:induction false} WholeToPart(g: ConstraintGraph, compOf: map<int, nat>, cs: seq<Built>, unquoted: set<int>,
                                       w: World, i: nat)
    requires Decomposes(g, compOf, cs) && i < |cs| && Coherent(Whole(g), unquoted, w)
    ensures Coherent(cs[i].cluster, unquoted, Part(cs[i], w))
  {
    var c, qs := cs[i].cluster, SetOf(g.qids);
    assert BuiltFrom(g, compOf, i, cs[i]);
    assert Part(cs[i], w).Keys == QidSet(c);
    forall os | os in c.sets ensures SetCoherent(os, QidSet(c), unquoted, Part(cs[i], w)) {
      SetsInMember(g.sets, compOf, i, os);
      SlotsLocal(g, compOf, cs, os, i);
      SetCoherentLocal(os, qs, QidSet(c), unquoted, w);
    }
    forall e | e in c.edges ensures EdgeCoherent(e, QidSet(c), Part(cs[i], w)) {
      EdgesInMember(g.edges, compOf, i, e);
    }
  }

  lemma {:induction false} PartsToWhole(g: ConstraintGraph, compOf: map<int, nat>, cs: seq<Built>, unquoted: set<int>,
                                        w: World)
    requires Decomposes(g, compOf, cs) && w.Keys == SetOf(g.qids)
    requires forall i :: 0 <= i < |cs| ==> Coherent(cs[i].cluster, unquoted, Part(cs[i], w))
    ensures Coherent(Whole(g), unquoted, w)
  {
    var qs := SetOf(g.qids);
    forall os | os in g.sets ensures SetCoherent(os, qs, unquoted, w) {
      if q :| q in os.slots && q in qs {
        var i := compOf[q];
        assert InComp(compOf, q, i);
        SetsInMember(g.sets, compOf, i, os);
        assert BuiltFrom(g, compOf, i, cs[i]);
        SlotsLocal(g, compOf, cs, os, i);
        SetCoherentLocal(os, qs, QidSet(cs[i].cluster), unquoted, w);
      } else {
        DeadSetCoherent(os, qs, unquoted, w);
      }
    }
    forall e | e in g.edges ensures EdgeCoherent(e, qs, w) {
      if e.ante in qs && e.cons in qs {
        EdgeLocal(g, compOf, cs, unquoted, w, e);
      }
    }
  }

  lemma {:induction false} EdgeLocal(g: ConstraintGraph, compOf: map<int, nat>, cs: seq<Built>, unquoted: set<int>,
                                     w: World, e: Edge)
    requires Decomposes(g, compOf, cs) && w.Keys == SetOf(g.qids) && e in g.edges && e.ante in g.qids &&
             e.cons in g.qids
    requires forall i :: 0 <= i < |cs| ==> Coherent(cs[i].cluster, unquoted, Part(cs[i], w))
    ensures EdgeCoherent(e, SetOf(g.qids), w)
  {
    var i := compOf[e.ante];
    assert BuiltFrom(g, compOf, i, cs[i]);
    assert e.ante in Members(compOf, i);
    assert EdgeTogether(e, Members(compOf, i));
    EdgesInMember(g.edges, compOf, i, e);
    var qs' := QidSet(cs[i].cluster);
    assert e.ante in qs' && e.cons in qs';
    assert EdgeCoherent(e, qs', Part(cs[i], w));
  }

  /** The decomposition theorem: an assignment satisfies the whole graph's constraints exactly when its
      restriction to every cluster satisfies that cluster's. */
  lemma {:induction false} OmegaIsProduct(g: ConstraintGraph, compOf: map<int, nat>, cs: seq<Built>, unquoted: set<int>,
                                          w: World)
    requires Decomposes(g, compOf, cs) && w.Keys == SetOf(g.qids)
    ensures InOmega(Whole(g), unquoted, w) <==>
            forall i :: 0 <= i < |cs| ==> InOmega(cs[i].cluster, unquoted, Part(cs[i], w))
  {
    OmegaIsCoherence(Whole(g), unquoted, w);
    forall i | 0 <= i < |cs|
      ensures InOmega(cs[i].cluster, unquoted, Part(cs[i], w)) <==> Coherent(cs[i].cluster, unquoted, Part(cs[i], w))
    {
      OmegaIsCoherence(cs[i].cluster, unquoted, Part(cs[i], w));
    }
    if Coherent(Whole(g), unquoted, w) {
      forall i | 0 <= i < |cs| ensures Coherent(cs[i].cluster, unquoted, Part(cs[i], w)) {
        WholeToPart(g, compOf, cs, unquoted, w, i);
      }
    }
    if forall i :: 0 <= i < |cs| ==> Coherent(cs[i].cluster, unquoted, Part(cs[i], w)) {
      PartsToWhole(g, compOf, cs, unquoted, w);
    }
  }

  // ---------- Worst payouts add up ----------

  /** A bought leg: `shares` of YES or NO on a question, at `cost` in all. */
  datatype Leg = Leg(question: int, side: Side, shares: real, cost: real)

  function LegPays(l: Leg, w: World): real {
    if (l.side == YES) == Yes(w, l.question) then l.shares else 0.0
  }

  function BasketPays(legs: seq<Leg>, w: World): real {
    if legs == [] then 0.0 else BasketPays(legs[..|legs| - 1], w) + LegPays(legs[|legs| - 1], w)
  }

  function CostOf(legs: seq<Leg>): real {
    if legs == [] then 0.0 else CostOf(legs[..|legs| - 1]) + legs[|legs| - 1].cost
  }

  /** The legs on questions of a cluster. */
  function LegsOn(legs: seq<Leg>, qs: set<int>): seq<Leg> {
    if legs == [] then [] else
      var l := legs[|legs| - 1];
      LegsOn(legs[..|legs| - 1], qs) + if l.question in qs then [l] else []
  }

  /** v is the least the legs pay over Ω of c, and some world attains it. */
  ghost predicate Worst(c: Cluster, unquoted: set<int>, legs: seq<Leg>, v: real) {
    && (exists w :: InOmega(c, unquoted, w) && BasketPays(legs, w) == v)
    && (forall w :: InOmega(c, unquoted, w) ==> BasketPays(legs, w) >= v)
  }

  lemma {:induction false} LeastOf(c: Cluster, unquoted: set<int>, legs: seq<Leg>, states: seq<World>)
    returns (w: World)
    requires exists x :: x in states && InOmega(c, unquoted, x)
    ensures InOmega(c, unquoted, w)
    ensures forall x :: x in states && InOmega(c, unquoted, x) ==> BasketPays(legs, x) >= BasketPays(legs, w)
  {
    var m := |states| - 1;
    assert states == states[..m] + [states[m]];
    if exists x :: x in states[..m] && InOmega(c, unquoted, x) {
      w := LeastOf(c, unquoted, legs, states[..m]);
      if InOmega(c, unquoted, states[m]) && BasketPays(legs, states[m]) < BasketPays(legs, w) {
        w := states[m];
      }
    } else {
      w := states[m];
    }
  }

  /** A non-empty Ω has a worst world. */
  lemma {:induction false} WorstExists(c: Cluster, unquoted: set<int>, legs: seq<Leg>, w0: World) returns (v: real)
    requires InOmega(c, unquoted, w0)
    ensures Worst(c, unquoted, legs, v)
  {
    var all := FreeTable(c.qids);
    forall w | InOmega(c, unquoted, w) ensures w in all {
      FreeHas(c.qids, w);
      assert Restrict(w, SetOf(c.qids)) == w;
    }
    var w := LeastOf(c, unquoted, legs, all);
    v := BasketPays(legs, w);
  }

  function Sum(vs: seq<real>): real {
    if vs == [] then 0.0 else Sum(vs[..|vs| - 1]) + vs[|vs| - 1]
  }

  /** Payout of the legs on the first k clusters, each in its own part of w. */
  function PartPays(cs: seq<Built>, legs: seq<Leg>, w: World, k: nat): real
    requires k <= |cs|
  {
    if k == 0 then 0.0 else
      PartPays(cs, legs, w, k - 1) + BasketPays(LegsOn(legs, QidSet(cs[k - 1].cluster)), Part(cs[k - 1], w))
  }

  function PartCosts(cs: seq<Built>, legs: seq<Leg>, k: nat): real
    requires k <= |cs|
  {
    if k == 0 then 0.0 else PartCosts(cs, legs, k - 1) + CostOf(LegsOn(legs, QidSet(cs[k - 1].cluster)))
  }

  lemma {:induction false} BasketSnoc(legs: seq<Leg>, l: Leg, w: World)
    ensures BasketPays(legs + [l], w) == BasketPays(legs, w) + LegPays(l, w)
    ensures CostOf(legs + [l]) == CostOf(legs) + l.cost
  {
    assert (legs + [l])[..|legs + [l]| - 1] == legs;
  }

  lemma {:induction false} LegsOnSnoc(legs: seq<Leg>, l: Leg, qs: set<int>)
    ensures LegsOn(legs + [l], qs) == if l.question in qs then LegsOn(legs, qs) + [l] else LegsOn(legs, qs)
  {
    assert (legs + [l])[..|legs + [l]| - 1] == legs;
  }

  /** Question q belongs to cluster `home` and to no other. */
  ghost predicate HomeOf(cs: seq<Built>, q: int, home: nat) {
    home < |cs| && forall i :: 0 <= i < |cs| ==> (q in QidSet(cs[i].cluster) <==> i == home)
  }

  lemma {:induction false} QuestionHome(g: ConstraintGraph, compOf: map<int, nat>, cs: seq<Built>, q: int)
    requires Decomposes(g, compOf, cs) && q in g.qids
    ensures HomeOf(cs, q, compOf[q])
  {
    forall i | 0 <= i < |cs| ensures q in QidSet(cs[i].cluster) <==> i == compOf[q] {
      assert BuiltFrom(g, compOf, i, cs[i]);
      assert q in SetOf(g.qids);
    }
  }

  /** The clusters below k own this question at most once. */
  lemma {:induction false} OneLegPays(cs: seq<Built>, legs: seq<Leg>, l: Leg, w: World, home: nat, k: nat)
    requires HomeOf(cs, l.question, home) && k <= |cs|
    ensures PartPays(cs, legs + [l], w, k) == PartPays(cs, legs, w, k) + if home < k then LegPays(l, w) else 0.0
    ensures PartCosts(cs, legs + [l], k) == PartCosts(cs, legs, k) + if home < k then l.cost else 0.0
  {
    if k > 0 {
      OneLegPays(cs, legs, l, w, home, k - 1);
      OneLegInPart(legs, l, w, QidSet(cs[k - 1].cluster));
    }
  }

  lemma {:induction false} OneLegInPart(legs: seq<Leg>, l: Leg, w: World, qs: set<int>)
    ensures BasketPays(LegsOn(legs + [l], qs), Restrict(w, qs)) ==
            BasketPays(LegsOn(legs, qs), Restrict(w, qs)) + if l.question in qs then LegPays(l, w) else 0.0
    ensures CostOf(LegsOn(legs + [l], qs)) == CostOf(LegsOn(legs, qs)) + if l.question in qs then l.cost else 0.0
  {
    LegsOnSnoc(legs, l, qs);
    BasketSnoc(LegsOn(legs, qs), l, Restrict(w, qs));
    assert l.question in qs ==> Yes(Restrict(w, qs), l.question) == Yes(w, l.question);
  }

  /** A spanning basket pays the sum of what its parts pay in their clusters, and costs their costs. */
  lemma {:induction false} PayoutSplits(g: ConstraintGraph, compOf: map<int, nat>, cs: seq<Built>, legs: seq<Leg>,
                                        w: World)
    requires Decomposes(g, compOf, cs) && forall l :: l in legs ==> l.question in g.qids
    ensures BasketPays(legs, w) == PartPays(cs, legs, w, |cs|)
    ensures CostOf(legs) == PartCosts(cs, legs, |cs|)
  {
    if legs == [] {
      EmptyParts(cs, w, |cs|);
    } else {
      var m := |legs| - 1;
      assert legs == legs[..m] + [legs[m]];
      PayoutSplits(g, compOf, cs, legs[..m], w);
      QuestionHome(g, compOf, cs, legs[m].question);
      OneLegPays(cs, legs[..m], legs[m], w, compOf[legs[m].question], |cs|);
      BasketSnoc(legs[..m], legs[m], w);
    }
  }

  lemma {:induction false} EmptyParts(cs: seq<Built>, w: World, k: nat)
    requires k <= |cs|
    ensures PartPays(cs, [], w, k) == 0.0 && PartCosts(cs, [], k) == 0.0
  {
    if k > 0 { EmptyParts(cs, w, k - 1); }
  }

  /** The worlds of the clusters put together. */
  function Join(ws: seq<World>): World {
    if ws == [] then map[] else Join(ws[..|ws| - 1]) + ws[|ws| - 1]
  }

  lemma {:induction false} JoinAt(g: ConstraintGraph, compOf: map<int, nat>, cs: seq<Built>, ws: seq<World>, q: int)
    requires Decomposes(g, compOf, cs) && |ws| <= |cs|
    requires forall i :: 0 <= i < |ws| ==> ws[i].Keys == QidSet(cs[i].cluster)
    ensures q in Join(ws) <==> q in g.qids && compOf[q] < |ws|
    ensures q in Join(ws) ==> q in ws[compOf[q]] && Join(ws)[q] == ws[compOf[q]][q]
  {
    if ws != [] {
      var m := |ws| - 1;
      JoinAt(g, compOf, cs, ws[..m], q);
      assert BuiltFrom(g, compOf, m, cs[m]);
      assert q in ws[m] <==> q in g.qids && compOf[q] == m;
    }
  }

  lemma {:induction false} JoinParts(g: ConstraintGraph, compOf: map<int, nat>, cs: seq<Built>, ws: seq<World>)
    requires Decomposes(g, compOf, cs) && |ws| == |cs|
    requires forall i :: 0 <= i < |ws| ==> ws[i].Keys == QidSet(cs[i].cluster)
    ensures Join(ws).Keys == SetOf(g.qids)
    ensures forall i :: 0 <= i < |cs| ==> Part(cs[i], Join(ws)) == ws[i]
  {
    hide Join, Closed, Connected, SetsIn, EdgesIn, PairsIn;
    forall q ensures q in Join(ws) <==> q in g.qids { JoinAt(g, compOf, cs, ws, q); }
    forall i | 0 <= i < |cs| ensures Part(cs[i], Join(ws)) == ws[i] {
      assert BuiltFrom(g, compOf, i, cs[i]);
      forall q | q in ws[i] ensures Join(ws)[q] == ws[i][q] { JoinAt(g, compOf, cs, ws, q); }
    }
  }

  lemma {:induction false} PartPaysAtLeast(cs: seq<Built>, legs: seq<Leg>, w: World, vs: seq<real>, k: nat)
    requires k <= |cs| == |vs|
    requires forall i :: 0 <= i < k ==> BasketPays(LegsOn(legs, QidSet(cs[i].cluster)), Part(cs[i], w)) >= vs[i]
    ensures PartPays(cs, legs, w, k) >= Sum(vs[..k])
    ensures (forall i :: 0 <= i < k ==> BasketPays(LegsOn(legs, QidSet(cs[i].cluster)), Part(cs[i], w)) == vs[i]) ==>
              PartPays(cs, legs, w, k) == Sum(vs[..k])
  {
    if k > 0 {
      PartPaysAtLeast(cs, legs, w, vs, k - 1);
      assert vs[..k][..k - 1] == vs[..k - 1];
    }
  }

  lemma {:induction false} AttainingWorlds(cs: seq<Built>, unquoted: set<int>, legs: seq<Leg>, vs: seq<real>, k: nat)
    returns (ws: seq<World>)
    requires k <= |cs| == |vs|
    requires forall i :: 0 <= i < k ==> Worst(cs[i].cluster, unquoted, LegsOn(legs, QidSet(cs[i].cluster)), vs[i])
    ensures |ws| == k
    ensures forall i :: 0 <= i < k ==> (InOmega(cs[i].cluster, unquoted, ws[i]) &&
                                        BasketPays(LegsOn(legs, QidSet(cs[i].cluster)), ws[i]) == vs[i])
  {
    ws := [];
    if k > 0 {
      ws := AttainingWorlds(cs, unquoted, legs, vs, k - 1);
      assert Worst(cs[k - 1].cluster, unquoted, LegsOn(legs, QidSet(cs[k - 1].cluster)), vs[k - 1]);
      var w :| InOmega(cs[k - 1].cluster, unquoted, w) &&
               BasketPays(LegsOn(legs, QidSet(cs[k - 1].cluster)), w) == vs[k - 1];
      ws := ws + [w];
    }
  }

  /** A spanning basket's worst payout is the sum of its parts' worst payouts. */
  lemma {:induction false} WorstSplits(g: ConstraintGraph, compOf: map<int, nat>, cs: seq<Built>, unquoted: set<int>,
                                       legs: seq<Leg>, vs: seq<real>)
    requires Decomposes(g, compOf, cs) && (forall l :: l in legs ==> l.question in g.qids) && |vs| == |cs|
    requires forall i :: 0 <= i < |cs| ==> Worst(cs[i].cluster, unquoted, LegsOn(legs, QidSet(cs[i].cluster)), vs[i])
    ensures Worst(Whole(g), unquoted, legs, Sum(vs))
  {
    hide Decomposes, LegsOn, BasketPays, Join, Part, Interpret;
    assert vs[..|cs|] == vs;
    var ws := AttainingWorlds(cs, unquoted, legs, vs, |cs|);
    JoinParts(g, compOf, cs, ws);
    var w := Join(ws);
    OmegaIsProduct(g, compOf, cs, unquoted, w);
    PayoutSplits(g, compOf, cs, legs, w);
    PartPaysAtLeast(cs, legs, w, vs, |cs|);
    forall x | InOmega(Whole(g), unquoted, x) ensures BasketPays(legs, x) >= Sum(vs) {
      OmegaIsProduct(g, compOf, cs, unquoted, x);
      PayoutSplits(g, compOf, cs, legs, x);
      PartPaysAtLeast(cs, legs, x, vs, |cs|);
    }
  }

  /** Guaranteed profit: worst payout minus cost. */
  ghost predicate Arb(c: Cluster, unquoted: set<int>, legs: seq<Leg>) {
    exists v :: Worst(c, unquoted, legs, v) && v > CostOf(legs)
  }

  lemma {:induction false} SomePartProfits(cs: seq<Built>, legs: seq<Leg>, vs: seq<real>, k: nat) returns (i: nat)
    requires k <= |cs| == |vs| && Sum(vs[..k]) > PartCosts(cs, legs, k)
    ensures i < k && vs[i] > CostOf(LegsOn(legs, QidSet(cs[i].cluster)))
  {
    assert k > 0 ==> vs[..k][..k - 1] == vs[..k - 1];
    if vs[k - 1] > CostOf(LegsOn(legs, QidSet(cs[k - 1].cluster))) {
      i := k - 1;
    } else {
      i := SomePartProfits(cs, legs, vs, k - 1);
    }
  }

  lemma {:induction false} WorstOfParts(cs: seq<Built>, unquoted: set<int>, legs: seq<Leg>, w: World, k: nat)
    returns (vs: seq<real>)
    requires k <= |cs| && forall i :: 0 <= i < k ==> InOmega(cs[i].cluster, unquoted, Part(cs[i], w))
    ensures |vs| == k
    ensures forall i :: 0 <= i < k ==> Worst(cs[i].cluster, unquoted, LegsOn(legs, QidSet(cs[i].cluster)), vs[i])
  {
    hide Worst, LegsOn, InOmega, Part;
    vs := [];
    if k > 0 {
      vs := WorstOfParts(cs, unquoted, legs, w, k - 1);
      var v := WorstExists(cs[k - 1].cluster, unquoted, LegsOn(legs, QidSet(cs[k - 1].cluster)), Part(cs[k - 1], w));
      vs := vs + [v];
    }
  }

  /** Solving cluster by cluster loses no arb: if any basket over the whole graph has a guaranteed
      profit, so has its part on some cluster. */
  lemma {:induction false} NoArbLost(g: ConstraintGraph, compOf: map<int, nat>, cs: seq<Built>, unquoted: set<int>,
                                     legs: seq<Leg>)
    requires Decomposes(g, compOf, cs) && forall l :: l in legs ==> l.question in g.qids
    requires Arb(Whole(g), unquoted, legs)
    ensures exists i :: 0 <= i < |cs| && Arb(cs[i].cluster, unquoted, LegsOn(legs, QidSet(cs[i].cluster)))
  {
    hide LegsOn, Decomposes, BasketPays, Interpret;
    var v :| Worst(Whole(g), unquoted, legs, v) && v > CostOf(legs);
    var w :| InOmega(Whole(g), unquoted, w) && BasketPays(legs, w) == v;
    OmegaIsProduct(g, compOf, cs, unquoted, w);
    var vs := WorstOfParts(cs, unquoted, legs, w, |cs|);
    WorstSplits(g, compOf, cs, unquoted, legs, vs);
    var x :| InOmega(Whole(g), unquoted, x) && BasketPays(legs, x) == Sum(vs);
    PayoutSplits(g, compOf, cs, legs, w);
    assert vs[..|cs|] == vs;
    var i := SomePartProfits(cs, legs, vs, |cs|);
    assert Arb(cs[i].cluster, unquoted, LegsOn(legs, QidSet(cs[i].cluster)));
  }

  // ---------- A solver's basket ----------

  /** The columns a solver bought, as legs; the guaranteed payout's own column is none. */
  function BasketOf(vars: seq<LPVar>, owner: seq<int>, objective: seq<real>, x: seq<real>, k: nat): seq<Leg>
    requires Shape(vars, owner, x) && k <= |x| == |objective|
  {
    if k == 0 then []
    else
      var before := BasketOf(vars, owner, objective, x, k - 1);
      if owner[k - 1] < 0 then before
      else before + [Leg(owner[k - 1], vars[k - 1].side, x[k - 1], objective[k - 1] * x[k - 1])]
  }

  lemma {:induction false} BasketPaysShares(vars: seq<LPVar>, owner: seq<int>, objective: seq<real>, x: seq<real>,
                                            w: World, k: nat)
    requires Shape(vars, owner, x) && k <= |x| == |objective|
    ensures BasketPays(BasketOf(vars, owner, objective, x, k), w) == SharesPaid(vars, owner, x, w, k)
    ensures (forall i :: 0 <= i < |owner| ==> owner[i] >= 0) ==>
              CostOf(BasketOf(vars, owner, objective, x, k)) == DotRow(objective, x, k)
  {
    hide BasketPays, CostOf;
    if k > 0 {
      BasketPaysShares(vars, owner, objective, x, w, k - 1);
      if owner[k - 1] >= 0 {
        BasketSnoc(BasketOf(vars, owner, objective, x, k - 1),
                   Leg(owner[k - 1], vars[k - 1].side, x[k - 1], objective[k - 1] * x[k - 1]), w);
      }
    } else {
      NoLegs(w);
    }
  }

  lemma {:induction false} NoLegs(w: World)
    ensures BasketPays([], w) == 0.0 && CostOf([]) == 0.0
  {
  }

  /** These baskets and the rows of the solver's problem speak of the same payout: the columns a solver bought meet the
      row of a world exactly when, as legs, they pay there one share, or as much as the guaranteed payout bought; and
      without that column they cost the objective. */
  lemma {:induction false} BasketMeetsRow(vars: seq<LPVar>, owner: seq<int>, gIndex: Option<nat>,
                                          objective: seq<real>, x: seq<real>, w: World)
    requires Shape(vars, owner, x) && GPlaced(owner, gIndex) && |objective| == |x|
    ensures RowHolds(vars, owner, gIndex, x, w) <==>
              BasketPays(BasketOf(vars, owner, objective, x, |x|), w) >=
              if gIndex.Some? then x[gIndex.value] else 1.0
    ensures gIndex.None? ==> CostOf(BasketOf(vars, owner, objective, x, |x|)) == DotRow(objective, x, |x|)
  {
    hide BasketOf, SharesPaid, BasketPays, DotRow, RowHolds;
    BasketPaysShares(vars, owner, objective, x, w, |x|);
    RowAsks(vars, owner, gIndex, x, w);
  }

  // ---------- Suspect pairs ----------

  lemma {:induction false} PairsInMember(pairs: seq<(int, int)>, compOf: map<int, nat>, i: nat, p: (int, int))
    ensures p in PairsIn(pairs, compOf, i) <==> p in pairs && InComp(compOf, p.0, i) && InComp(compOf, p.1, i)
  {
    if pairs != [] {
      var m := |pairs| - 1;
      PairsInMember(pairs[..m], compOf, i, p);
      assert pairs == pairs[..m] + [pairs[m]];
    }
  }

  /** A suspect pair of two questions of the graph is listed in exactly one cluster, the one that holds both. */
  lemma {:induction false} PairInOneCluster(g: ConstraintGraph, compOf: map<int, nat>, cs: seq<Built>, p: (int, int),
                                            i: nat)
    requires Decomposes(g, compOf, cs) && p in g.pairs && p.0 in g.qids && p.1 in g.qids && i < |cs|
    ensures p in cs[i].pairs <==> p.0 in cs[i].cluster.qids && p.1 in cs[i].cluster.qids
    ensures p.0 in compOf && compOf[p.0] < |cs| && p in cs[compOf[p.0]].pairs
  {
    hide EdgesIn, SetsIn, Connected;
    assert BuiltFrom(g, compOf, i, cs[i]);
    PairsInMember(g.pairs, compOf, i, p);
    var home := compOf[p.0];
    assert BuiltFrom(g, compOf, home, cs[home]);
    PairsInMember(g.pairs, compOf, home, p);
    assert p.0 in Members(compOf, home);
    assert p.0 in Nodes(g) && p.1 in Nodes(g);
    assert p.1 in Members(compOf, home);
    assert forall q :: q in cs[i].cluster.qids <==> q in SetOf(cs[i].cluster.qids);
  }
}
