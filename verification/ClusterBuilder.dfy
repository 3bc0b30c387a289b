/** Decomposition into connected components (services/arb-solver/src/graph/cluster-builder.ts):
    adjacency, breadth-first search, and single-pass bucketing of edges, sets and suspect pairs.
    The log-only bridge diagnostic is not modelled. */
module ClusterBuilder {
  import opened Graph

  datatype Built = Built(cluster: Cluster, pairs: seq<(int, int)>)

  // ---------- Adjacency, neighbours in insertion order ----------

  type Adjacency = map<int, seq<int>>

  function Ensure(adj: Adjacency, q: int): Adjacency {
    if q in adj then adj else adj[q := []]
  }

  function AddNeighbor(adj: Adjacency, a: int, b: int): Adjacency {
    if a in adj && b !in adj[a] then adj[a := adj[a] + [b]] else adj
  }

  /** Both directions. */
  function Link(adj: Adjacency, a: int, b: int): Adjacency {
    AddNeighbor(AddNeighbor(adj, a, b), b, a)
  }

  function NodesAdj(qids: seq<int>, k: nat): Adjacency
    requires k <= |qids|
  {
    if k == 0 then map[] else Ensure(NodesAdj(qids, k - 1), qids[k - 1])
  }

  function EdgesAdj(adj: Adjacency, edges: seq<Edge>, k: nat): Adjacency
    requires k <= |edges|
  {
    if k == 0 then adj else
      EdgeStep(EdgesAdj(adj, edges, k - 1), edges[k - 1])
  }

  function PairsAdj(adj: Adjacency, pairs: seq<(int, int)>, k: nat): Adjacency
    requires k <= |pairs|
  {
    if k == 0 then adj else
      var before := PairsAdj(adj, pairs, k - 1);
      var (a, b) := pairs[k - 1];
      if a !in before || b !in before then before else Link(before, a, b)
  }

  /** Links live[i] to live[i+1 .. j). */
  function RowAdj(adj: Adjacency, live: seq<int>, i: nat, j: nat): Adjacency
    requires i < j <= |live|
  {
    if j == i + 1 then adj else Link(RowAdj(adj, live, i, j - 1), live[i], live[j - 1])
  }

  /** The clique on live, up to row i. */
  function CliqueAdj(adj: Adjacency, live: seq<int>, i: nat): Adjacency
    requires i <= |live|
  {
    if i == 0 then adj else RowAdj(CliqueAdj(adj, live, i - 1), live, i - 1, |live|)
  }

  function SetsAdj(adj: Adjacency, sets: seq<OutcomeSet>, k: nat): Adjacency
    requires k <= |sets|
  {
    if k == 0 then adj else
      var before := SetsAdj(adj, sets, k - 1);
      var live := Keep(sets[k - 1].slots, before.Keys);
      CliqueAdj(before, live, |live|)
  }

  function AdjOf(g: ConstraintGraph): Adjacency {
    var nodes := NodesAdj(g.qids, |g.qids|);
    var e := EdgesAdj(nodes, g.edges, |g.edges|);
    SetsAdj(PairsAdj(e, g.pairs, |g.pairs|), g.sets, |g.sets|)
  }

  method BuildAdjacency(g: ConstraintGraph) returns (adj: Adjacency)
    ensures adj == AdjOf(g)
  {
    hide Ensure, Link, Keep;
    adj := map[];
    for i := 0 to |g.qids|
      invariant adj == NodesAdj(g.qids, i)
    {
      adj := Ensure(adj, g.qids[i]);
    }
    ghost var nodes := adj;
    for i := 0 to |g.edges|
      invariant adj == EdgesAdj(nodes, g.edges, i)
    {
      var e := g.edges[i];
      adj := Ensure(Ensure(adj, e.ante), e.cons);
      adj := Link(adj, e.ante, e.cons);
    }
    ghost var linked := adj;
    for i := 0 to |g.pairs|
      invariant adj == PairsAdj(linked, g.pairs, i)
    {
      var (a, b) := g.pairs[i];
      if a !in adj || b !in adj { continue; }
      adj := Link(adj, a, b);
    }
    ghost var paired := adj;
    for k := 0 to |g.sets|
      invariant adj == SetsAdj(paired, g.sets, k)
    {
      var live := Keep(g.sets[k].slots, adj.Keys);
      ghost var before := adj;
      for i := 0 to |live|
        invariant adj == CliqueAdj(before, live, i)
      {
        ghost var row := adj;
        for j := i + 1 to |live|
          invariant adj == RowAdj(row, live, i, j)
        {
          adj := Link(adj, live[i], live[j]);
        }
      }
    }
  }

  // ---------- What the adjacency relates ----------

  predicate Adjacent(adj: Adjacency, a: int, b: int) {
    a in adj && b in adj[a]
  }

  ghost predicate Symmetric(adj: Adjacency) {
    forall a, b :: Adjacent(adj, a, b) ==> Adjacent(adj, b, a)
  }

  ghost predicate Grows(adj: Adjacency, adj': Adjacency) {
    adj.Keys <= adj'.Keys && forall a, b :: Adjacent(adj, a, b) ==> Adjacent(adj', a, b)
  }

  /** A set of nodes no neighbour relation leaves. */
  ghost predicate ClosedIn(adj: Adjacency, s: set<int>) {
    forall a, b :: Adjacent(adj, a, b) && a in s ==> b in s
  }

  lemma {:induction false} LinkFacts(adj: Adjacency, a: int, b: int)
    requires Symmetric(adj) && a in adj && b in adj
    ensures Symmetric(Link(adj, a, b)) && Grows(adj, Link(adj, a, b)) && Link(adj, a, b).Keys == adj.Keys
    ensures Adjacent(Link(adj, a, b), a, b)
  {
    forall x, y ensures Adjacent(Link(adj, a, b), x, y) <==>
             Adjacent(adj, x, y) || (x == a && y == b) || (x == b && y == a) {
      LinkAdds(adj, a, b, x, y);
    }
  }

  lemma {:induction false} LinkAdds(adj: Adjacency, a: int, b: int, x: int, y: int)
    requires a in adj && b in adj
    ensures Adjacent(Link(adj, a, b), x, y) <==> Adjacent(adj, x, y) || (x == a && y == b) || (x == b && y == a)
  {
  }

  lemma {:induction false} LinkClosed(adj: Adjacency, a: int, b: int, s: set<int>)
    requires ClosedIn(adj, s) && (a in s <==> b in s)
    ensures ClosedIn(Link(adj, a, b), s)
  {
  }

  /** Endpoints of an edge, or live slots of a set, stay together in `s`. */
  ghost predicate EdgeTogether(e: Edge, s: set<int>) {
    e.ante in s <==> e.cons in s
  }

  ghost predicate SlotsTogether(slots: seq<int>, nodes: set<int>, s: set<int>) {
    forall a, b :: a in slots && b in slots && a in nodes && b in nodes ==> (a in s <==> b in s)
  }

  /** The nodes: every question and every edge endpoint. */
  function Nodes(g: ConstraintGraph): set<int> {
    SetOf(g.qids) + (set e | e in g.edges :: e.ante) + (set e | e in g.edges :: e.cons)
  }

  /** Connectivity without a graph search: s never separates what the graph relates. */
  ghost predicate Closed(g: ConstraintGraph, s: set<int>) {
    && (forall e :: e in g.edges ==> EdgeTogether(e, s))
    && (forall p :: p in g.pairs && p.0 in Nodes(g) && p.1 in Nodes(g) ==> (p.0 in s <==> p.1 in s))
    && (forall os :: os in g.sets ==> SlotsTogether(os.slots, Nodes(g), s))
  }

  lemma {:induction false} NodesAdjFacts(qids: seq<int>, k: nat)
    requires k <= |qids|
    ensures NodesAdj(qids, k).Keys == SetOf(qids[..k])
    ensures forall a :: a in NodesAdj(qids, k) ==> NodesAdj(qids, k)[a] == []
  {
    if k > 0 {
      NodesAdjFacts(qids, k - 1);
      assert qids[..k] == qids[..k - 1] + [qids[k - 1]];
      assert SetOf(qids[..k]) == SetOf(qids[..k - 1]) + {qids[k - 1]};
    } else {
      assert SetOf(qids[..0]) == {};
    }
  }

  lemma {:induction false} EnsureFacts(adj: Adjacency, q: int)
    requires Symmetric(adj)
    ensures Symmetric(Ensure(adj, q)) && Grows(adj, Ensure(adj, q)) && Ensure(adj, q).Keys == adj.Keys + {q}
  {
    assert forall x, y :: Adjacent(Ensure(adj, q), x, y) <==> Adjacent(adj, x, y);
  }

  function EdgeStep(adj: Adjacency, e: Edge): Adjacency {
    Link(Ensure(Ensure(adj, e.ante), e.cons), e.ante, e.cons)
  }

  lemma {:induction false} EdgeStepFacts(adj: Adjacency, e: Edge)
    requires Symmetric(adj)
    ensures Symmetric(EdgeStep(adj, e)) && Grows(adj, EdgeStep(adj, e))
    ensures EdgeStep(adj, e).Keys == adj.Keys + {e.ante, e.cons}
    ensures Adjacent(EdgeStep(adj, e), e.ante, e.cons)
  {
    EnsureFacts(adj, e.ante);
    EnsureFacts(Ensure(adj, e.ante), e.cons);
    LinkFacts(Ensure(Ensure(adj, e.ante), e.cons), e.ante, e.cons);
  }

  lemma {:induction false} GrowsTransitive(a: Adjacency, b: Adjacency, c: Adjacency)
    requires Grows(a, b) && Grows(b, c)
    ensures Grows(a, c)
  {
  }

  function Endpoints(edges: seq<Edge>, k: nat): set<int>
    requires k <= |edges|
  {
    if k == 0 then {} else Endpoints(edges, k - 1) + {edges[k - 1].ante, edges[k - 1].cons}
  }

  lemma {:induction false} EdgesAdjFacts(adj: Adjacency, edges: seq<Edge>, k: nat)
    requires Symmetric(adj) && k <= |edges|
    ensures Symmetric(EdgesAdj(adj, edges, k)) && Grows(adj, EdgesAdj(adj, edges, k))
    ensures EdgesAdj(adj, edges, k).Keys == adj.Keys + Endpoints(edges, k)
  {
    if k > 0 {
      EdgesAdjFacts(adj, edges, k - 1);
      EdgeStepFacts(EdgesAdj(adj, edges, k - 1), edges[k - 1]);
      GrowsTransitive(adj, EdgesAdj(adj, edges, k - 1), EdgesAdj(adj, edges, k));
    }
  }

  lemma {:induction false} EdgesAdjacent(adj: Adjacency, edges: seq<Edge>, k: nat)
    requires Symmetric(adj) && k <= |edges|
    ensures forall e :: e in edges[..k] ==> Adjacent(EdgesAdj(adj, edges, k), e.ante, e.cons)
  {
    hide Symmetric, EdgeStep, Adjacent;
    if k > 0 {
      EdgesAdjFacts(adj, edges, k - 1);
      EdgesAdjacent(adj, edges, k - 1);
      EdgeStepFacts(EdgesAdj(adj, edges, k - 1), edges[k - 1]);
      assert edges[..k] == edges[..k - 1] + [edges[k - 1]];
    }
  }

  lemma {:induction false} EdgesAdjClosed(adj: Adjacency, edges: seq<Edge>, k: nat, s: set<int>)
    requires ClosedIn(adj, s) && k <= |edges| && forall i :: 0 <= i < k ==> EdgeTogether(edges[i], s)
    ensures ClosedIn(EdgesAdj(adj, edges, k), s)
  {
    if k > 0 {
      var before, e := EdgesAdj(adj, edges, k - 1), edges[k - 1];
      EdgesAdjClosed(adj, edges, k - 1, s);
      assert ClosedIn(Ensure(Ensure(before, e.ante), e.cons), s);
      LinkClosed(Ensure(Ensure(before, e.ante), e.cons), e.ante, e.cons, s);
    }
  }

  lemma {:induction false} PairsAdjFacts(adj: Adjacency, pairs: seq<(int, int)>, k: nat)
    requires Symmetric(adj) && k <= |pairs|
    ensures Symmetric(PairsAdj(adj, pairs, k)) && Grows(adj, PairsAdj(adj, pairs, k))
    ensures PairsAdj(adj, pairs, k).Keys == adj.Keys
    ensures forall i :: 0 <= i < k && pairs[i].0 in adj && pairs[i].1 in adj ==>
              Adjacent(PairsAdj(adj, pairs, k), pairs[i].0, pairs[i].1)
  {
    if k > 0 {
      PairsAdjFacts(adj, pairs, k - 1);
      var before, a, b := PairsAdj(adj, pairs, k - 1), pairs[k - 1].0, pairs[k - 1].1;
      if a in before && b in before { LinkFacts(before, a, b); }
    }
  }

  lemma {:induction false} PairsAdjClosed(adj: Adjacency, pairs: seq<(int, int)>, k: nat, s: set<int>)
    requires Symmetric(adj) && ClosedIn(adj, s) && k <= |pairs|
    requires forall i :: 0 <= i < k && pairs[i].0 in adj && pairs[i].1 in adj ==> (pairs[i].0 in s <==> pairs[i].1 in s)
    ensures ClosedIn(PairsAdj(adj, pairs, k), s)
  {
    if k > 0 {
      PairsAdjClosed(adj, pairs, k - 1, s);
      PairsAdjFacts(adj, pairs, k - 1);
      var before, a, b := PairsAdj(adj, pairs, k - 1), pairs[k - 1].0, pairs[k - 1].1;
      if a in before && b in before { LinkClosed(before, a, b, s); }
    }
  }

  lemma {:induction false} RowAdjFacts(adj: Adjacency, live: seq<int>, i: nat, j: nat)
    requires Symmetric(adj) && i < j <= |live| && forall q :: q in live ==> q in adj
    ensures Symmetric(RowAdj(adj, live, i, j)) && Grows(adj, RowAdj(adj, live, i, j))
    ensures RowAdj(adj, live, i, j).Keys == adj.Keys
    ensures forall k :: i < k < j ==> Adjacent(RowAdj(adj, live, i, j), live[i], live[k])
  {
    if j > i + 1 {
      RowAdjFacts(adj, live, i, j - 1);
      LinkFacts(RowAdj(adj, live, i, j - 1), live[i], live[j - 1]);
    }
  }

  lemma {:induction false} RowAdjClosed(adj: Adjacency, live: seq<int>, i: nat, j: nat, s: set<int>)
    requires ClosedIn(adj, s) && i < j <= |live| && forall a, b :: a in live && b in live ==> (a in s <==> b in s)
    ensures ClosedIn(RowAdj(adj, live, i, j), s)
  {
    if j > i + 1 {
      RowAdjClosed(adj, live, i, j - 1, s);
      assert live[i] in live && live[j - 1] in live;
      LinkClosed(RowAdj(adj, live, i, j - 1), live[i], live[j - 1], s);
    }
  }

  lemma {:induction false} CliqueAdjFacts(adj: Adjacency, live: seq<int>, i: nat)
    requires Symmetric(adj) && i <= |live| && forall q :: q in live ==> q in adj
    ensures Symmetric(CliqueAdj(adj, live, i)) && Grows(adj, CliqueAdj(adj, live, i))
    ensures CliqueAdj(adj, live, i).Keys == adj.Keys
    ensures forall j, k :: 0 <= j < i && j < k < |live| ==> Adjacent(CliqueAdj(adj, live, i), live[j], live[k])
  {
    if i > 0 {
      CliqueAdjFacts(adj, live, i - 1);
      RowAdjFacts(CliqueAdj(adj, live, i - 1), live, i - 1, |live|);
    }
  }

  lemma {:induction false} CliqueAdjClosed(adj: Adjacency, live: seq<int>, i: nat, s: set<int>)
    requires ClosedIn(adj, s) && i <= |live| && forall a, b :: a in live && b in live ==> (a in s <==> b in s)
    ensures ClosedIn(CliqueAdj(adj, live, i), s)
  {
    if i > 0 {
      CliqueAdjClosed(adj, live, i - 1, s);
      RowAdjClosed(CliqueAdj(adj, live, i - 1), live, i - 1, |live|, s);
    }
  }

  /** Two distinct live slots of one set are neighbours. */
  ghost predicate SlotsLinked(adj: Adjacency, slots: seq<int>) {
    forall a, b :: a in slots && b in slots && a in adj && b in adj && a != b ==> Adjacent(adj, a, b)
  }

  lemma {:induction false} CliqueLinked(adj: Adjacency, slots: seq<int>)
    requires Symmetric(adj)
    ensures var live := Keep(slots, adj.Keys);
            var adj' := CliqueAdj(adj, live, |live|);
            Symmetric(adj') && Grows(adj, adj') && adj'.Keys == adj.Keys && SlotsLinked(adj', slots)
  {
    var live := Keep(slots, adj.Keys);
    KeepMembers(slots, adj.Keys);
    CliqueAdjFacts(adj, live, |live|);
    var adj' := CliqueAdj(adj, live, |live|);
    forall a, b | a in slots && b in slots && a in adj' && b in adj' && a != b ensures Adjacent(adj', a, b) {
      assert a in live && b in live;
      var i :| 0 <= i < |live| && live[i] == a;
      var j :| 0 <= j < |live| && live[j] == b;
      assert i < j ==> Adjacent(adj', live[i], live[j]);
      assert j < i ==> Adjacent(adj', live[j], live[i]);
    }
  }

  lemma {:induction false} SetsAdjFacts(adj: Adjacency, sets: seq<OutcomeSet>, k: nat)
    requires Symmetric(adj) && k <= |sets|
    ensures Symmetric(SetsAdj(adj, sets, k)) && Grows(adj, SetsAdj(adj, sets, k))
    ensures SetsAdj(adj, sets, k).Keys == adj.Keys
    ensures forall i :: 0 <= i < k ==> SlotsLinked(SetsAdj(adj, sets, k), sets[i].slots)
  {
    if k > 0 {
      SetsAdjFacts(adj, sets, k - 1);
      CliqueLinked(SetsAdj(adj, sets, k - 1), sets[k - 1].slots);
    }
  }

  lemma {:induction false} SetsAdjClosed(adj: Adjacency, sets: seq<OutcomeSet>, k: nat, s: set<int>)
    requires Symmetric(adj) && ClosedIn(adj, s) && k <= |sets|
    requires forall i :: 0 <= i < k ==> SlotsTogether(sets[i].slots, adj.Keys, s)
    ensures ClosedIn(SetsAdj(adj, sets, k), s)
  {
    if k > 0 {
      SetsAdjClosed(adj, sets, k - 1, s);
      SetsAdjFacts(adj, sets, k - 1);
      var before := SetsAdj(adj, sets, k - 1);
      KeepMembers(sets[k - 1].slots, before.Keys);
      CliqueAdjClosed(before, Keep(sets[k - 1].slots, before.Keys), |Keep(sets[k - 1].slots, before.Keys)|, s);
    }
  }

  lemma {:induction false} EndpointsAll(edges: seq<Edge>, k: nat)
    requires k <= |edges|
    ensures Endpoints(edges, k) == (set e | e in edges[..k] :: e.ante) + (set e | e in edges[..k] :: e.cons)
  {
    if k > 0 {
      EndpointsAll(edges, k - 1);
      assert edges[..k] == edges[..k - 1] + [edges[k - 1]];
    }
  }

  /** The adjacency is symmetric on the graph's nodes, and a set of nodes is closed under it exactly
      when it separates nothing the graph relates. */
  lemma {:induction false} AdjacencyMeans(g: ConstraintGraph)
    ensures Symmetric(AdjOf(g)) && AdjOf(g).Keys == Nodes(g)
    ensures forall s: set<int> {:trigger Closed(g, s)} :: s <= Nodes(g) ==> (ClosedIn(AdjOf(g), s) <==> Closed(g, s))
  {
    RelatedAdjacent(g);
    forall s: set<int> {:trigger Closed(g, s)} | s <= Nodes(g) ensures ClosedIn(AdjOf(g), s) <==> Closed(g, s) {
      if Closed(g, s) { ClosedGoesIn(g, s); }
      if ClosedIn(AdjOf(g), s) { ClosedComesOut(g, s); }
    }
  }

  lemma {:induction false} ClosedGoesIn(g: ConstraintGraph, s: set<int>)
    requires Closed(g, s)
    ensures ClosedIn(AdjOf(g), s)
  {
    var n := NodesAdj(g.qids, |g.qids|);
    NodesAdjFacts(g.qids, |g.qids|);
    assert g.qids[..|g.qids|] == g.qids && g.edges[..|g.edges|] == g.edges;
    assert forall i :: 0 <= i < |g.edges| ==> g.edges[i] in g.edges;
    EdgesAdjClosed(n, g.edges, |g.edges|, s);
    EdgesAdjFacts(n, g.edges, |g.edges|);
    EndpointsAll(g.edges, |g.edges|);
    var e := EdgesAdj(n, g.edges, |g.edges|);
    assert e.Keys == Nodes(g);
    assert forall i :: 0 <= i < |g.pairs| ==> g.pairs[i] in g.pairs;
    PairsAdjClosed(e, g.pairs, |g.pairs|, s);
    PairsAdjFacts(e, g.pairs, |g.pairs|);
    assert forall i :: 0 <= i < |g.sets| ==> g.sets[i] in g.sets;
    SetsAdjClosed(PairsAdj(e, g.pairs, |g.pairs|), g.sets, |g.sets|, s);
  }

  lemma {:induction false} NeighboursTogether(adj: Adjacency, a: int, b: int, s: set<int>)
    requires Symmetric(adj) && ClosedIn(adj, s) && Adjacent(adj, a, b)
    ensures a in s <==> b in s
  {
  }

  /** Everything the graph relates is adjacent. */
  lemma {:induction false} RelatedAdjacent(g: ConstraintGraph)
    ensures Symmetric(AdjOf(g)) && AdjOf(g).Keys == Nodes(g)
    ensures forall e :: e in g.edges ==> Adjacent(AdjOf(g), e.ante, e.cons)
    ensures forall p :: p in g.pairs && p.0 in Nodes(g) && p.1 in Nodes(g) ==> Adjacent(AdjOf(g), p.0, p.1)
    ensures forall os :: os in g.sets ==> SlotsLinked(AdjOf(g), os.slots)
  {
    var n := NodesAdj(g.qids, |g.qids|);
    NodesAdjFacts(g.qids, |g.qids|);
    assert g.qids[..|g.qids|] == g.qids && g.edges[..|g.edges|] == g.edges;
    var e := EdgesAdj(n, g.edges, |g.edges|);
    EdgesAdjFacts(n, g.edges, |g.edges|);
    EdgesAdjacent(n, g.edges, |g.edges|);
    EndpointsAll(g.edges, |g.edges|);
    assert e.Keys == Nodes(g);
    var p := PairsAdj(e, g.pairs, |g.pairs|);
    PairsAdjFacts(e, g.pairs, |g.pairs|);
    SetsAdjFacts(p, g.sets, |g.sets|);
  }

  lemma {:induction false} ClosedComesOut(g: ConstraintGraph, s: set<int>)
    requires ClosedIn(AdjOf(g), s)
    ensures Closed(g, s)
  {
    var adj := AdjOf(g);
    RelatedAdjacent(g);
    forall os | os in g.sets ensures SlotsTogether(os.slots, Nodes(g), s) {
      forall a, b | a in os.slots && b in os.slots && a in Nodes(g) && b in Nodes(g) ensures a in s <==> b in s {
        if a != b { NeighboursTogether(adj, a, b, s); }
      }
    }
  }

  // ---------- Breadth-first search ----------

  function Members(compOf: map<int, nat>, i: nat): set<int> {
    set q | q in compOf && compOf[q] == i
  }

  /** s lies in every closed set around start: nothing is fused without a connection. */
  ghost predicate Reached(adj: Adjacency, start: int, s: set<int>) {
    forall t: set<int> {:trigger ClosedIn(adj, t)} :: ClosedIn(adj, t) && start in t ==> s <= t
  }

  /** `all` lists the nodes visited in this round in order; the first k are dequeued, the rest queued. */
  ghost predicate Round(adj: Adjacency, start: int, visited0: set<int>, visited: set<int>, queue: seq<int>,
                        all: seq<int>, k: nat) {
    && k <= |all| && queue == all[k..] && Distinct(all) && start in all
    && SetOf(all) !! visited0 && visited == visited0 + SetOf(all) && SetOf(all) <= adj.Keys
    && Reached(adj, start, SetOf(all))
  }

  lemma {:induction false} Enqueue(adj: Adjacency, start: int, visited0: set<int>, visited: set<int>, queue: seq<int>,
                                   all: seq<int>, k: nat, qid: int, n: int)
    requires Symmetric(adj) && Round(adj, start, visited0, visited, queue, all, k)
    requires qid in all && Adjacent(adj, qid, n) && n !in visited
    ensures Round(adj, start, visited0, visited + {n}, queue + [n], all + [n], k)
    ensures (all + [n])[..k] == all[..k]
  {
    assert SetOf(all + [n]) == SetOf(all) + {n};
    assert Adjacent(adj, n, qid);
    forall t: set<int> {:trigger ClosedIn(adj, t)} | ClosedIn(adj, t) && start in t ensures SetOf(all + [n]) <= t {
      assert qid in SetOf(all);
    }
  }

  lemma {:induction false} Dequeue(all: seq<int>, k: nat)
    requires k < |all| && Distinct(all)
    ensures all[..k + 1] == all[..k] + [all[k]] && all[k..][1..] == all[k + 1..]
    ensures SetOf(all[..k + 1]) == SetOf(all[..k]) + {all[k]} && all[k] !in SetOf(all[..k])
  {
  }

  /** Queues the unvisited neighbours of the node just dequeued. */
  method Expand(adj: Adjacency, qid: int, ghost start: int, ghost visited0: set<int>, visited: set<int>,
                queue: seq<int>, ghost all: seq<int>, ghost k: nat)
    returns (visited': set<int>, queue': seq<int>, ghost all': seq<int>)
    requires Symmetric(adj) && qid in adj && qid in all && Round(adj, start, visited0, visited, queue, all, k)
    ensures Round(adj, start, visited0, visited', queue', all', k)
    ensures visited <= visited' && all'[..k] == all[..k]
    ensures forall b :: Adjacent(adj, qid, b) ==> b in visited'
  {
    visited', queue', all' := visited, queue, all;
    for j := 0 to |adj[qid]|
      invariant Round(adj, start, visited0, visited', queue', all', k)
      invariant qid in all' && visited <= visited' && all'[..k] == all[..k]
      invariant forall i :: 0 <= i < j ==> adj[qid][i] in visited'
    {
      var n := adj[qid][j];
      if n !in visited' {
        Enqueue(adj, start, visited0, visited', queue', all', k, qid, n);
        visited' := visited' + {n};
        queue' := queue' + [n];
        all' := all' + [n];
      }
    }
  }

  /** The round's bookkeeping after k dequeues. */
  ghost predicate Recorded(live: set<int>, idx: nat, compOf0: map<int, nat>, compOf: map<int, nat>, questions: seq<int>,
                           done: set<int>) {
    && compOf.Keys == compOf0.Keys + done
    && (forall q :: q in done ==> compOf[q] == idx)
    && (forall q :: q in compOf0 && q !in done ==> compOf[q] == compOf0[q])
    && Distinct(questions) && SetOf(questions) == done * live
  }

  lemma {:induction false} RecordOne(live: set<int>, idx: nat, compOf0: map<int, nat>, compOf: map<int, nat>,
                                     questions: seq<int>, done: set<int>, q: int)
    requires Recorded(live, idx, compOf0, compOf, questions, done) && q !in done
    ensures Recorded(live, idx, compOf0, compOf[q := idx], if q in live then questions + [q] else questions, done + {q})
  {
    if q in live {
      assert q !in SetOf(questions);
      assert SetOf(questions + [q]) == SetOf(questions) + {q};
    }
  }

  /** One component: dequeues until the queue is empty, recording component, questions and visits. */
  method Search(adj: Adjacency, live: set<int>, start: int, idx: nat, visited0: set<int>, compOf0: map<int, nat>)
    returns (questions: seq<int>, visited: set<int>, compOf: map<int, nat>, ghost comp: set<int>)
    requires Symmetric(adj) && start in adj && start !in visited0 && ClosedIn(adj, visited0)
    ensures start in comp && comp !! visited0 && visited == visited0 + comp && comp <= adj.Keys
    ensures ClosedIn(adj, comp) && Reached(adj, start, comp)
    ensures Recorded(live, idx, compOf0, compOf, questions, comp)
    ensures start in live ==> questions != [] && questions[0] == start
  {
    questions, compOf := [], compOf0;
    var queue := [start];
    visited := visited0 + {start};
    ghost var all := [start];
    ghost var k := 0;
    while |queue| > 0
      invariant Round(adj, start, visited0, visited, queue, all, k)
      invariant forall a, b :: a in all[..k] && Adjacent(adj, a, b) ==> b in visited
      invariant Recorded(live, idx, compOf0, compOf, questions, SetOf(all[..k]))
      invariant if k == 0 then all == [start] && questions == [] else start in live ==>
                  questions != [] && questions[0] == start
      decreases adj.Keys - SetOf(all[..k])
    {
      var qid := queue[0];
      Dequeue(all, k);
      assert qid == all[k] && qid in SetOf(all);
      RecordOne(live, idx, compOf0, compOf, questions, SetOf(all[..k]), qid);
      queue := queue[1..];
      k := k + 1;
      compOf := compOf[qid := idx];
      if qid in live { questions := questions + [qid]; }
      visited, queue, all := Expand(adj, qid, start, visited0, visited, queue, all, k);
    }
    assert all[..k] == all;
    comp := SetOf(all);
    forall a, b | Adjacent(adj, a, b) && a in comp ensures b in comp {
      assert Adjacent(adj, b, a);
    }
  }

  // ---------- Components ----------

  /** compOf numbers the connected components: each closed, each no larger than its start requires. */
  ghost predicate Numbers(g: ConstraintGraph, adj: Adjacency, compOf: map<int, nat>, comps: seq<seq<int>>) {
    && compOf.Keys <= adj.Keys
    && (forall q :: q in compOf ==> compOf[q] < |comps|)
    && (forall i :: 0 <= i < |comps| ==> Component(g, adj, compOf, i, comps[i]))
  }

  ghost predicate Component(g: ConstraintGraph, adj: Adjacency, compOf: map<int, nat>, i: nat, questions: seq<int>) {
    && Distinct(questions) && SetOf(questions) == Members(compOf, i) * SetOf(g.qids)
    && ClosedIn(adj, Members(compOf, i))
    && exists start :: start in questions && Reached(adj, start, Members(compOf, i))
  }

  lemma {:induction false} ComponentAdded(g: ConstraintGraph, adj: Adjacency, compOf0: map<int, nat>,
                                          comps0: seq<seq<int>>,
                                          compOf: map<int, nat>, questions: seq<int>, comp: set<int>, start: int)
    requires Numbers(g, adj, compOf0, comps0)
    requires comp !! compOf0.Keys && comp <= adj.Keys && ClosedIn(adj, comp) && Reached(adj, start, comp)
    requires start in comp && start in g.qids
    requires Recorded(SetOf(g.qids), |comps0|, compOf0, compOf, questions, comp)
    ensures Numbers(g, adj, compOf, comps0 + [questions])
  {
    var comps := comps0 + [questions];
    forall q ensures q in Members(compOf, |comps0|) <==> q in comp {
      assert q in compOf <==> q in compOf0 || q in comp;
    }
    assert start in SetOf(questions);
    forall i | 0 <= i < |comps| ensures Component(g, adj, compOf, i, comps[i]) {
      if i < |comps0| {
        assert Component(g, adj, compOf0, i, comps0[i]);
        forall q ensures q in Members(compOf, i) <==> q in Members(compOf0, i) {
          assert q in compOf <==> q in compOf0 || q in comp;
        }
        assert Members(compOf, i) == Members(compOf0, i);
      }
    }
  }

  lemma {:induction false} VisitedClosed(g: ConstraintGraph, adj: Adjacency, compOf: map<int, nat>,
                                         comps: seq<seq<int>>)
    requires Numbers(g, adj, compOf, comps)
    ensures ClosedIn(adj, compOf.Keys)
  {
    forall a, b | Adjacent(adj, a, b) && a in compOf.Keys ensures b in compOf.Keys {
      assert Component(g, adj, compOf, compOf[a], comps[compOf[a]]);
      assert a in Members(compOf, compOf[a]);
      assert b in Members(compOf, compOf[a]);
    }
  }

  /** Numbered as found: the first question of component i is the first of the graph outside all earlier components. */
  ghost predicate FoundNext(g: ConstraintGraph, compOf: map<int, nat>, i: nat, questions: seq<int>) {
    && questions != []
    && exists p :: 0 <= p < |g.qids| && g.qids[p] == questions[0] && SeenBefore(g, compOf, i, p)
  }

  ghost predicate SeenBefore(g: ConstraintGraph, compOf: map<int, nat>, i: nat, p: nat)
    requires p < |g.qids|
  {
    forall j :: 0 <= j < p ==> g.qids[j] in compOf && compOf[g.qids[j]] < i
  }

  lemma {:induction false} FoundKept(g: ConstraintGraph, live: set<int>, compOf0: map<int, nat>, compOf: map<int, nat>,
                                     idx: nat,
                                     first: seq<int>, done: set<int>, i: nat, questions: seq<int>)
    requires Recorded(live, idx, compOf0, compOf, first, done) && done !! compOf0.Keys &&
             FoundNext(g, compOf0, i, questions)
    ensures FoundNext(g, compOf, i, questions)
  {
    var p :| 0 <= p < |g.qids| && g.qids[p] == questions[0] && SeenBefore(g, compOf0, i, p);
    assert SeenBefore(g, compOf, i, p);
  }

  lemma {:induction false} FirstFound(g: ConstraintGraph, live: set<int>, compOf0: map<int, nat>, compOf: map<int, nat>,
                                      idx: nat,
                                      questions: seq<int>, done: set<int>, i: nat)
    requires Recorded(live, idx, compOf0, compOf, questions, done) && done !! compOf0.Keys
    requires i < |g.qids| && SetOf(g.qids[..i]) <= compOf0.Keys && (forall q :: q in compOf0 ==> compOf0[q] < idx)
    requires questions != [] && questions[0] == g.qids[i]
    ensures FoundNext(g, compOf, idx, questions)
  {
    forall j | 0 <= j < i ensures g.qids[j] in compOf && compOf[g.qids[j]] < idx {
      assert g.qids[j] == g.qids[..i][j];
      assert g.qids[j] in SetOf(g.qids[..i]);
    }
    assert SeenBefore(g, compOf, idx, i);
  }

  method FindComponents(g: ConstraintGraph, adj: Adjacency) returns (comps: seq<seq<int>>, compOf: map<int, nat>)
    requires Symmetric(adj) && SetOf(g.qids) <= adj.Keys
    ensures Numbers(g, adj, compOf, comps) && SetOf(g.qids) <= compOf.Keys
    ensures forall i :: 0 <= i < |comps| ==> FoundNext(g, compOf, i, comps[i])
  {
    comps, compOf := [], map[];
    var visited: set<int> := {};
    for i := 0 to |g.qids|
      invariant Numbers(g, adj, compOf, comps) && visited == compOf.Keys
      invariant SetOf(g.qids[..i]) <= visited
      invariant forall j :: 0 <= j < |comps| ==> FoundNext(g, compOf, j, comps[j])
    {
      var start := g.qids[i];
      assert g.qids[..i + 1] == g.qids[..i] + [start];
      assert start in SetOf(g.qids);
      if start in visited { continue; }
      VisitedClosed(g, adj, compOf, comps);
      ghost var compOf0 := compOf;
      var questions;
      ghost var comp;
      questions, visited, compOf, comp := Search(adj, SetOf(g.qids), start, |comps|, visited, compOf);
      ComponentAdded(g, adj, compOf0, comps, compOf, questions, comp, start);
      forall j | 0 <= j < |comps| ensures FoundNext(g, compOf, j, comps[j]) {
        FoundKept(g, SetOf(g.qids), compOf0, compOf, |comps|, questions, comp, j, comps[j]);
      }
      FirstFound(g, SetOf(g.qids), compOf0, compOf, |comps|, questions, comp, i);
      comps := comps + [questions];
    }
    assert g.qids[..|g.qids|] == g.qids;
  }

  // ---------- Bucketing ----------

  predicate InComp(compOf: map<int, nat>, q: int, i: nat) {
    q in compOf && compOf[q] == i
  }

  function EdgesIn(edges: seq<Edge>, compOf: map<int, nat>, i: nat): seq<Edge> {
    if edges == [] then [] else
      var e := edges[|edges| - 1];
      EdgesIn(edges[..|edges| - 1], compOf, i) +
      if InComp(compOf, e.ante, i) && InComp(compOf, e.cons, i) then [e] else []
  }

  function PairsIn(pairs: seq<(int, int)>, compOf: map<int, nat>, i: nat): seq<(int, int)> {
    if pairs == [] then [] else
      var p := pairs[|pairs| - 1];
      PairsIn(pairs[..|pairs| - 1], compOf, i) +
      if InComp(compOf, p.0, i) && InComp(compOf, p.1, i) then [p] else []
  }

  predicate Touches(slots: seq<int>, compOf: map<int, nat>, i: nat) {
    exists q | q in slots :: InComp(compOf, q, i)
  }

  function SetsIn(sets: seq<OutcomeSet>, compOf: map<int, nat>, i: nat): seq<OutcomeSet> {
    if sets == [] then [] else
      var os := sets[|sets| - 1];
      SetsIn(sets[..|sets| - 1], compOf, i) + if Touches(os.slots, compOf, i) then [os] else []
  }

  /** One pass over the edges equals filtering the edges once per component. */
  method BucketEdges(edges: seq<Edge>, compOf: map<int, nat>, n: nat) returns (buckets: seq<seq<Edge>>)
    requires forall q :: q in compOf ==> compOf[q] < n
    ensures |buckets| == n && forall i :: 0 <= i < n ==> buckets[i] == EdgesIn(edges, compOf, i)
  {
    buckets := seq(n, i => []);
    for k := 0 to |edges|
      invariant |buckets| == n && forall i :: 0 <= i < n ==> buckets[i] == EdgesIn(edges[..k], compOf, i)
    {
      var e := edges[k];
      assert edges[..k + 1][..k] == edges[..k];
      if e.ante in compOf && e.cons in compOf && compOf[e.ante] == compOf[e.cons] {
        var ca := compOf[e.ante];
        buckets := buckets[ca := buckets[ca] + [e]];
      }
    }
    assert edges[..|edges|] == edges;
  }

  method BucketPairs(pairs: seq<(int, int)>, compOf: map<int, nat>, n: nat) returns (buckets: seq<seq<(int, int)>>)
    requires forall q :: q in compOf ==> compOf[q] < n
    ensures |buckets| == n && forall i :: 0 <= i < n ==> buckets[i] == PairsIn(pairs, compOf, i)
  {
    buckets := seq(n, i => []);
    for k := 0 to |pairs|
      invariant |buckets| == n && forall i :: 0 <= i < n ==> buckets[i] == PairsIn(pairs[..k], compOf, i)
    {
      var a, b := pairs[k].0, pairs[k].1;
      assert pairs[..k + 1][..k] == pairs[..k];
      if a in compOf && b in compOf && compOf[a] == compOf[b] {
        buckets := buckets[compOf[a] := buckets[compOf[a]] + [pairs[k]]];
      }
    }
    assert pairs[..|pairs|] == pairs;
  }

  lemma {:induction false} TouchesSnoc(slots: seq<int>, q: int, compOf: map<int, nat>, i: nat)
    ensures Touches(slots + [q], compOf, i) <==> Touches(slots, compOf, i) || InComp(compOf, q, i)
  {
    if Touches(slots, compOf, i) {
      var p :| p in slots && InComp(compOf, p, i);
      assert p in slots + [q];
    }
    assert q in slots + [q];
  }

  ghost predicate Touched(first: int, extra: set<nat>, slots: seq<int>, compOf: map<int, nat>) {
    forall i: nat :: (i == first || i in extra) <==> Touches(slots, compOf, i)
  }

  /** Pushes a set into every component its slots touch, once each; `extra` exists only once a second
      component is seen. */
  method BucketSet(os: OutcomeSet, compOf: map<int, nat>, buckets0: seq<seq<OutcomeSet>>)
    returns (buckets: seq<seq<OutcomeSet>>)
    requires forall q :: q in compOf ==> compOf[q] < |buckets0|
    ensures |buckets| == |buckets0|
    ensures forall i :: 0 <= i < |buckets| ==>
              buckets[i] == buckets0[i] + if Touches(os.slots, compOf, i) then [os] else []
  {
    buckets := buckets0;
    var first := -1;
    var extra: set<nat> := {};
    for j := 0 to |os.slots|
      invariant |buckets| == |buckets0| && -1 <= first < |buckets|
      invariant extra == {} || first in extra
      invariant first == -1 ==> extra == {}
      invariant Touched(first, extra, os.slots[..j], compOf)
      invariant forall i :: 0 <= i < |buckets| ==> buckets[i] == buckets0[i] + if i == first || i in extra then [os]
                  else []
    {
      var q := os.slots[j];
      assert os.slots[..j + 1] == os.slots[..j] + [q];
      ghost var first0, extra0 := first, extra;
      if q in compOf {
        var c := compOf[q];
        if first == -1 {
          first := c;
          buckets := buckets[c := buckets[c] + [os]];
        } else if c != first {
          if extra == {} { extra := {first}; }
          if c !in extra {
            extra := extra + {c};
            buckets := buckets[c := buckets[c] + [os]];
          }
        }
      }
      ghost var seen := os.slots[..j] + [q];
      forall i: nat ensures (i == first || i in extra) <==> Touches(seen, compOf, i) {
        TouchesSnoc(os.slots[..j], q, compOf, i);
        assert (i == first || i in extra) <==> (i == first0 || i in extra0) || InComp(compOf, q, i);
      }
    }
    assert os.slots[..|os.slots|] == os.slots;
  }

  method BucketSets(sets: seq<OutcomeSet>, compOf: map<int, nat>, n: nat) returns (buckets: seq<seq<OutcomeSet>>)
    requires forall q :: q in compOf ==> compOf[q] < n
    ensures |buckets| == n && forall i :: 0 <= i < n ==> buckets[i] == SetsIn(sets, compOf, i)
  {
    buckets := seq(n, i => []);
    for k := 0 to |sets|
      invariant |buckets| == n && forall i :: 0 <= i < n ==> buckets[i] == SetsIn(sets[..k], compOf, i)
    {
      assert sets[..k + 1][..k] == sets[..k];
      buckets := BucketSet(sets[k], compOf, buckets);
    }
    assert sets[..|sets|] == sets;
  }

  ghost predicate Decomposes(g: ConstraintGraph, compOf: map<int, nat>, cs: seq<Built>) {
    && (forall q :: q in g.qids ==> q in compOf)
    && (forall q :: q in compOf ==> compOf[q] < |cs| && q in Nodes(g))
    && (forall i :: 0 <= i < |cs| ==> BuiltFrom(g, compOf, i, cs[i]))
  }

  /** Cluster i: a component of the graph and, in graph order, exactly what lies in it. */
  ghost predicate BuiltFrom(g: ConstraintGraph, compOf: map<int, nat>, i: nat, b: Built) {
    && Distinct(b.cluster.qids) && SetOf(b.cluster.qids) == Members(compOf, i) * SetOf(g.qids)
    && Closed(g, Members(compOf, i))
    && Connected(g, Members(compOf, i))
    && b.cluster.sets == SetsIn(g.sets, compOf, i)
    && b.cluster.edges == EdgesIn(g.edges, compOf, i)
    && b.pairs == PairsIn(g.pairs, compOf, i)
  }

  /** A component holds a question from which every closed set already contains all of it. */
  ghost predicate Connected(g: ConstraintGraph, s: set<int>) {
    exists start :: start in s && start in g.qids &&
      forall t: set<int> {:trigger Closed(g, t)} :: t <= Nodes(g) && Closed(g, t) && start in t ==> s <= t
  }

  lemma {:induction false} ComponentMeans(g: ConstraintGraph, compOf: map<int, nat>, i: nat, questions: seq<int>)
    requires Component(g, AdjOf(g), compOf, i, questions) && compOf.Keys <= Nodes(g)
    ensures Closed(g, Members(compOf, i)) && Connected(g, Members(compOf, i))
  {
    AdjacencyMeans(g);
    var s := Members(compOf, i);
    assert s <= Nodes(g);
    var start :| start in questions && Reached(AdjOf(g), start, s);
    assert start in SetOf(questions);
    forall t: set<int> {:trigger Closed(g, t)} | t <= Nodes(g) && Closed(g, t) && start in t ensures s <= t {
      assert ClosedIn(AdjOf(g), t);
    }
  }

  method BuildClusters(g: ConstraintGraph) returns (clusters: seq<Built>, ghost compOf': map<int, nat>)
    ensures Decomposes(g, compOf', clusters)
    ensures forall i :: 0 <= i < |clusters| ==> FoundNext(g, compOf', i, clusters[i].cluster.qids)
  {
    hide AdjOf, EdgesIn, SetsIn, PairsIn, Closed, ClosedIn, Reached, Symmetric, FoundNext;
    AdjacencyMeans(g);
    var adj := BuildAdjacency(g);
    var comps, compOf := FindComponents(g, adj);
    var edges := BucketEdges(g.edges, compOf, |comps|);
    var sets := BucketSets(g.sets, compOf, |comps|);
    var pairs := BucketPairs(g.pairs, compOf, |comps|);
    clusters, compOf' := [], compOf;
    for i := 0 to |comps|
      invariant |clusters| == i && forall j :: 0 <= j < i ==>
                  BuiltFrom(g, compOf, j, clusters[j]) && clusters[j].cluster.qids == comps[j]
    {
      ComponentMeans(g, compOf, i, comps[i]);
      clusters := clusters + [Built(Cluster(comps[i], sets[i], edges[i]), pairs[i])];
    }
    assert forall q :: q in g.qids ==> q in SetOf(g.qids);
  }
}
