/** Connected components of the mutual-exclusion edges by union-find with path halving
    (services/arb-solver/src/graph/intra-set-containment-belt.ts, lines 391-429). */
module MutexComponents {
  import opened Graph

  // ---------- What a component is ----------

  /** No edge leaves s. */
  ghost predicate ClosedUnder(edges: seq<Edge>, s: set<int>) {
    forall e :: e in edges ==> (e.ante in s <==> e.cons in s)
  }

  function Ends(edges: seq<Edge>): set<int> {
    if edges == [] then {} else Ends(edges[..|edges| - 1]) + {edges[|edges| - 1].ante, edges[|edges| - 1].cons}
  }

  /** Non-empty, over the edges' ends, closed, and inside every closed set that meets it. */
  ghost predicate IsComponent(edges: seq<Edge>, c: set<int>) {
    && c != {} && c <= Ends(edges) && ClosedUnder(edges, c)
    && forall s :: ClosedUnder(edges, s) && s * c != {} ==> c <= s
  }

  ghost predicate Components(edges: seq<Edge>, groups: seq<set<int>>) {
    && (forall i :: 0 <= i < |groups| ==> IsComponent(edges, groups[i]))
    && (forall i, j :: 0 <= i < j < |groups| ==> groups[i] !! groups[j])
    && (forall q :: q in Ends(edges) ==> exists i :: 0 <= i < |groups| && q in groups[i])
  }

  /** Two components that meet are the same. */
  lemma {:induction false} OneComponent(edges: seq<Edge>, a: set<int>, b: set<int>, q: int)
    requires IsComponent(edges, a) && IsComponent(edges, b) && q in a && q in b
    ensures a == b
  {
    assert q in a * b;
  }

  lemma {:induction false} EndsMember(edges: seq<Edge>, q: int)
    ensures q in Ends(edges) <==> exists e :: e in edges && (e.ante == q || e.cons == q)
  {
    if edges != [] {
      var m := |edges| - 1;
      EndsMember(edges[..m], q);
      assert edges == edges[..m] + [edges[m]];
    }
  }

  // ---------- The forest ----------

  /** Every node knows its root; ranks rise along parent links, so the links have no cycle. */
  ghost predicate WellFormed(parent: map<int, int>, root: map<int, int>, rank: map<int, nat>, bound: nat) {
    && root.Keys == parent.Keys && rank.Keys == parent.Keys
    && (forall x :: x in parent ==> parent[x] in parent && root[parent[x]] == root[x] && rank[x] <= bound)
    && (forall x :: x in parent ==> root[x] in parent && parent[root[x]] == root[x])
    && (forall x :: x in parent && parent[x] != x ==> rank[x] < rank[parent[x]])
    && (forall x :: x in parent && parent[x] == x ==> root[x] == x)
  }

  /** Both trees under rb. */
  ghost function Merge(root: map<int, int>, ra: int, rb: int): map<int, int> {
    map x | x in root :: if root[x] == ra then rb else root[x]
  }

  lemma {:induction false} HalveKeeps(parent: map<int, int>, root: map<int, int>, rank: map<int, nat>, bound: nat,
                                      r: int)
    requires WellFormed(parent, root, rank, bound) && r in parent && r != parent[r]
    ensures WellFormed(parent[r := parent[parent[r]]], root, rank, bound)
    ensures root[parent[parent[r]]] == root[r] && rank[r] < rank[parent[parent[r]]]
  {
  }

  lemma {:induction false} PointToRoot(parent: map<int, int>, root: map<int, int>, rank: map<int, nat>, bound: nat,
                                       x: int, r: int)
    requires WellFormed(parent, root, rank, bound) && x in parent && r in parent && r == root[x] && rank[x] < rank[r]
    ensures WellFormed(parent[x := r], root, rank, bound)
  {
  }

  lemma {:induction false} LinkRoots(parent: map<int, int>, root: map<int, int>, rank: map<int, nat>, bound: nat,
                                     ra: int, rb: int)
    requires WellFormed(parent, root, rank, bound) && ra in parent && rb in parent && ra != rb
    requires parent[ra] == ra && parent[rb] == rb
    ensures WellFormed(parent[ra := rb], Merge(root, ra, rb), rank[rb := bound + 1], bound + 1)
  {
  }

  lemma {:induction false} AddNode(parent: map<int, int>, root: map<int, int>, rank: map<int, nat>, bound: nat, x: int)
    requires WellFormed(parent, root, rank, bound) && x !in parent
    ensures WellFormed(parent[x := x], root[x := x], rank[x := 0], bound)
  {
  }

  lemma {:induction false} RootOf(parent: map<int, int>, root: map<int, int>, rank: map<int, nat>, bound: nat, x: int)
    requires WellFormed(parent, root, rank, bound) && x in parent
    ensures root.Keys == parent.Keys && rank.Keys == parent.Keys && root[x] in parent && parent[root[x]] == root[x]
  {
  }

  lemma {:induction false} MergeSame(root: map<int, int>, r: int)
    ensures Merge(root, r, r) == root
  {
  }

  class Forest {
    var parent: map<int, int>
    ghost var root: map<int, int>
    ghost var rank: map<int, nat>
    ghost var bound: nat

    ghost predicate Valid()
      reads this
    {
      WellFormed(parent, root, rank, bound)
    }

    constructor ()
      ensures Valid() && parent == map[] && root == map[]
    {
      parent, root, rank, bound := map[], map[], map[], 0;
    }

    /** A node on its own, unless it is already there. */
    method Add(x: int)
      requires Valid()
      modifies this
      ensures Valid() && parent.Keys == old(parent.Keys) + {x}
      ensures root == if x in old(parent) then old(root) else old(root)[x := x]
    {
      hide WellFormed;
      if x !in parent {
        AddNode(parent, root, rank, bound, x);
        parent, root, rank := parent[x := x], root[x := x], rank[x := 0];
      }
    }

    /** Halves the path on the way up and points x at its root; roots stay what they were. */
    method Find(x: int) returns (r: int)
      requires Valid() && x in parent
      modifies this`parent
      ensures Valid() && parent.Keys == old(parent.Keys) && r == root[x]
    {
      r := parent[x];
      if r == x {
        parent := parent[x := x];
        return;
      }
      while r != parent[r]
        invariant Valid() && parent.Keys == old(parent.Keys) && r in parent && root[r] == root[x] && rank[x] < rank[r]
        decreases bound - rank[r]
      {
        hide Forest.Valid, WellFormed;
        Step(r);
        var gp := parent[r];
        parent := parent[r := parent[gp]];
        r := parent[r];
      }
      PointToRoot(parent, root, rank, bound, x, r);
      parent := parent[x := r];
    }

    lemma {:induction false} Step(r: int)
      requires Valid() && r in parent && r != parent[r]
      ensures parent[r] in parent && parent[parent[r]] in parent && r in root && r in rank &&
              parent[parent[r]] in root && parent[parent[r]] in rank
      ensures WellFormed(parent[r := parent[parent[r]]], root, rank, bound)
      ensures root[parent[parent[r]]] == root[r] && rank[r] < rank[parent[parent[r]]] <= bound
    {
      HalveKeeps(parent, root, rank, bound, r);
    }

    method Union(a: int, b: int)
      requires Valid() && a in parent && b in parent
      modifies this
      ensures Valid() && parent.Keys == old(parent.Keys)
      ensures root == Merge(old(root), old(root[a]), old(root[b]))
    {
      hide WellFormed;
      RootOf(parent, root, rank, bound, a);
      RootOf(parent, root, rank, bound, b);
      var ra := Find(a);
      var rb := Find(b);
      RootOf(parent, root, rank, bound, a);
      RootOf(parent, root, rank, bound, b);
      MergeSame(root, ra);
      if ra != rb {
        LinkRoots(parent, root, rank, bound, ra, rb);
        parent, root, rank, bound := parent[ra := rb], Merge(root, ra, rb), rank[rb := bound + 1], bound + 1;
      }
    }
  }

  // ---------- Roots are components ----------

  /** After the edges: ends share a root, and a closed set holds all or none of a tree. */
  ghost predicate Tracks(edges: seq<Edge>, root: map<int, int>) {
    && root.Keys == Ends(edges)
    && (forall e :: e in edges ==> e.ante in root && e.cons in root && root[e.ante] == root[e.cons])
    && (forall s, x, y :: ClosedUnder(edges, s) && x in root && y in root && root[x] == root[y] ==> (x in s <==>
             y in s))
  }

  ghost function Grown(root: map<int, int>, x: int): map<int, int> {
    if x in root then root else root[x := x]
  }

  lemma {:induction false} ClosedPrefix(edges: seq<Edge>, e: Edge, s: set<int>)
    requires ClosedUnder(edges + [e], s)
    ensures ClosedUnder(edges, s) && (e.ante in s <==> e.cons in s)
  {
    forall x | x in edges ensures x.ante in s <==> x.cons in s {
      assert x in edges + [e];
    }
    assert e in edges + [e];
  }

  /** A new node is a tree of its own. */
  lemma {:induction false} GrownTogether(edges: seq<Edge>, root: map<int, int>, a: int, s: set<int>)
    requires forall x, y :: x in root && y in root && root[x] == root[y] ==> (x in s <==> y in s)
    requires forall x :: x in root ==> root[x] in root
    ensures var g := Grown(root, a);
            (forall x, y :: x in g && y in g && g[x] == g[y] ==> (x in s <==> y in s)) && forall x :: x in g ==>
              g[x] in g
  {
  }

  lemma {:induction false} MergedTogether(root: map<int, int>, a: int, b: int, s: set<int>)
    requires forall x, y :: x in root && y in root && root[x] == root[y] ==> (x in s <==> y in s)
    requires a in root && b in root && (a in s <==> b in s)
    ensures var g := Merge(root, root[a], root[b]); forall x, y :: x in g && y in g && g[x] == g[y] ==>
              (x in s <==> y in s)
  {
  }

  /** The roots once edge e is in. */
  ghost function Joined(root: map<int, int>, e: Edge): map<int, int> {
    var g := Grown(Grown(root, e.ante), e.cons);
    Merge(g, g[e.ante], g[e.cons])
  }

  lemma {:induction false} JoinedTogether(edges: seq<Edge>, e: Edge, root: map<int, int>, s: set<int>)
    requires Tracks(edges, root) && (forall x :: x in root ==> root[x] in root) && ClosedUnder(edges + [e], s)
    ensures var r := Joined(root, e); forall x, y :: x in r && y in r && r[x] == r[y] ==> (x in s <==> y in s)
  {
    hide Grown, Merge;
    ClosedPrefix(edges, e, s);
    GrownTogether(edges, root, e.ante, s);
    GrownTogether(edges, Grown(root, e.ante), e.cons, s);
    GrownHas(root, e);
    MergedTogether(Grown(Grown(root, e.ante), e.cons), e.ante, e.cons, s);
  }

  lemma {:induction false} GrownHas(root: map<int, int>, e: Edge)
    ensures e.ante in Grown(Grown(root, e.ante), e.cons) && e.cons in Grown(Grown(root, e.ante), e.cons)
  {
  }

  lemma {:induction false} JoinedEnds(edges: seq<Edge>, e: Edge, root: map<int, int>)
    requires Tracks(edges, root)
    ensures var r := Joined(root, e);
            r.Keys == root.Keys + {e.ante, e.cons} && forall x :: x in edges + [e] ==>
              x.ante in r && x.cons in r && r[x.ante] == r[x.cons]
  {
    var r := Joined(root, e);
    forall x | x in edges + [e] ensures x.ante in r && x.cons in r && r[x.ante] == r[x.cons] {
      if x in edges { assert root[x.ante] == root[x.cons]; }
    }
  }

  lemma {:induction false} TracksStep(edges: seq<Edge>, e: Edge, root: map<int, int>)
    requires Tracks(edges, root) && forall x :: x in root ==> root[x] in root
    ensures Tracks(edges + [e], Joined(root, e))
  {
    hide Joined;
    var r := Joined(root, e);
    assert (edges + [e])[..|edges + [e]| - 1] == edges;
    JoinedEnds(edges, e, root);
    forall s | ClosedUnder(edges + [e], s) ensures forall x, y :: x in r && y in r && r[x] == r[y] ==>
             (x in s <==> y in s) {
      JoinedTogether(edges, e, root, s);
    }
  }

  ghost function Tree(root: map<int, int>, r: int): set<int> {
    set x | x in root && root[x] == r
  }

  lemma {:induction false} TreeIsComponent(edges: seq<Edge>, root: map<int, int>, r: int)
    requires Tracks(edges, root) && Tree(root, r) != {}
    ensures IsComponent(edges, Tree(root, r))
  {
    var c := Tree(root, r);
    forall s | ClosedUnder(edges, s) && s * c != {} ensures c <= s {
      var x := SomeIn(s * c);
      forall y | y in c ensures y in s { assert root[x] == root[y]; }
    }
  }

  /** Groups cover exactly the nodes done so far, one group per root. */
  ghost predicate Grouped(groups: map<int, set<int>>, root: map<int, int>, done: set<int>) {
    && (forall r :: r in groups <==> exists x :: x in done && x in root && root[x] == r)
    && (forall r :: r in groups ==> groups[r] == Tree(root, r) * done)
  }

  method GroupByRoot(forest: Forest) returns (groups: map<int, set<int>>)
    requires forest.Valid()
    modifies forest`parent
    ensures forest.Valid() && Grouped(groups, forest.root, forest.root.Keys)
  {
    hide WellFormed, Grouped;
    groups := map[];
    ghost var root := forest.root;
    RootKeys(forest.parent, root, forest.rank, forest.bound);
    var rest := forest.parent.Keys;
    NoGroups(root);
    assert root.Keys - rest == {};
    while rest != {}
      invariant forest.Valid() && forest.parent.Keys == root.Keys && rest <= root.Keys && forest.root == root
      invariant Grouped(groups, root, root.Keys - rest)
      decreases |rest|
    {
      ghost var some := SomeIn(rest);
      var node :| node in rest;
      var r := forest.Find(node);
      GroupOne(groups, root, root.Keys - rest, node);
      groups := groups[r := (if r in groups then groups[r] else {}) + {node}];
      assert root.Keys - (rest - {node}) == (root.Keys - rest) + {node};
      rest := rest - {node};
    }
    assert root.Keys - {} == root.Keys;
  }

  lemma {:induction false} NoGroups(root: map<int, int>)
    ensures Grouped(map[], root, {})
  {
  }

  lemma {:induction false} GroupOne(groups: map<int, set<int>>, root: map<int, int>, done: set<int>, node: int)
    requires Grouped(groups, root, done) && node in root && node !in done
    ensures Grouped(groups[root[node] := (if root[node] in groups then groups[root[node]] else {}) + {node}], root,
                    done + {node})
  {
    var r := root[node];
    var after := groups[r := (if r in groups then groups[r] else {}) + {node}];
    forall k ensures k in after <==> exists x :: x in done + {node} && x in root && root[x] == k {
      if x :| x in done && x in root && root[x] == k { assert x in done + {node}; }
      if k == r { assert node in done + {node}; }
    }
    forall k | k in after ensures after[k] == Tree(root, k) * (done + {node}) {
      if k == r && r !in groups {
        forall x | x in Tree(root, r) ensures x !in done { assert x in root && root[x] == r; }
      }
    }
  }

  method Listed(groups: map<int, set<int>>) returns (list: seq<set<int>>, ghost keys: seq<int>)
    ensures |list| == |keys| && Distinct(keys) && SetOf(keys) == groups.Keys
    ensures forall i :: 0 <= i < |list| ==> keys[i] in groups && list[i] == groups[keys[i]]
  {
    list, keys := [], [];
    var rest := groups.Keys;
    while rest != {}
      invariant rest <= groups.Keys && |list| == |keys| && Distinct(keys) && SetOf(keys) == groups.Keys - rest
      invariant forall i :: 0 <= i < |list| ==> keys[i] in groups && list[i] == groups[keys[i]]
      decreases |rest|
    {
      ghost var some := SomeIn(rest);
      var r :| r in rest;
      assert r !in SetOf(keys);
      assert SetOf(keys + [r]) == SetOf(keys) + {r};
      list, keys := list + [groups[r]], keys + [r];
      rest := rest - {r};
    }
  }

  /** Both ends become nodes, and their trees one tree. */
  method AddEdge(forest: Forest, ghost edges: seq<Edge>, e: Edge)
    requires forest.Valid() && Tracks(edges, forest.root)
    modifies forest
    ensures forest.Valid() && Tracks(edges + [e], forest.root)
  {
    hide WellFormed, Tracks, Merge;
    ghost var root := forest.root;
    RootsIn(forest.parent, forest.root, forest.rank, forest.bound);
    TracksStep(edges, e, forest.root);
    RootKeys(forest.parent, forest.root, forest.rank, forest.bound);
    forest.Add(e.ante);
    assert forest.root == Grown(root, e.ante);
    RootKeys(forest.parent, forest.root, forest.rank, forest.bound);
    forest.Add(e.cons);
    RootKeys(forest.parent, forest.root, forest.rank, forest.bound);
    forest.Union(e.ante, e.cons);
  }

  /** Union over every edge, then one group per root: exactly the connected components, whatever order the
      nodes are visited in and however the paths were halved on the way. */
  method FindComponents(edges: seq<Edge>) returns (components: seq<set<int>>)
    ensures Components(edges, components)
  {
    hide WellFormed, Tracks, Grouped, IsComponent;
    var forest := new Forest();
    NoEdges();
    for k := 0 to |edges|
      invariant forest.Valid() && Tracks(edges[..k], forest.root)
    {
      assert edges[..k + 1] == edges[..k] + [edges[k]];
      AddEdge(forest, edges[..k], edges[k]);
    }
    assert edges[..|edges|] == edges;
    ghost var root := forest.root;
    var groups := GroupByRoot(forest);
    ghost var keys;
    components, keys := Listed(groups);
    GroupsAreComponents(edges, root, groups, components, keys);
  }

  lemma {:induction false} NoEdges()
    ensures Tracks([], map[])
  {
  }

  lemma {:induction false} RootKeys(parent: map<int, int>, root: map<int, int>, rank: map<int, nat>, bound: nat)
    requires WellFormed(parent, root, rank, bound)
    ensures root.Keys == parent.Keys
  {
  }

  lemma {:induction false} RootsIn(parent: map<int, int>, root: map<int, int>, rank: map<int, nat>, bound: nat)
    requires WellFormed(parent, root, rank, bound)
    ensures forall x :: x in root ==> root[x] in root
  {
  }

  lemma {:induction false} GroupsAreComponents(edges: seq<Edge>, root: map<int, int>, groups: map<int, set<int>>,
                                               list: seq<set<int>>, keys: seq<int>)
    requires Tracks(edges, root) && Grouped(groups, root, root.Keys)
    requires |list| == |keys| && Distinct(keys) && SetOf(keys) == groups.Keys
    requires forall i :: 0 <= i < |list| ==> keys[i] in groups && list[i] == groups[keys[i]]
    ensures Components(edges, list)
  {
    hide IsComponent, ClosedUnder;
    forall i | 0 <= i < |list| ensures IsComponent(edges, list[i]) && list[i] == Tree(root, keys[i]) {
      assert Tree(root, keys[i]) * root.Keys == Tree(root, keys[i]);
      var x :| x in root && root[x] == keys[i];
      assert x in Tree(root, keys[i]);
      TreeIsComponent(edges, root, keys[i]);
    }
    forall i, j | 0 <= i < j < |list| ensures list[i] !! list[j] {
      assert keys[i] != keys[j];
    }
    forall q | q in Ends(edges) ensures exists i :: 0 <= i < |list| && q in list[i] {
      assert q in root && root[q] in groups;
      assert root[q] in SetOf(keys);
      var i :| 0 <= i < |keys| && keys[i] == root[q];
      assert q in Tree(root, keys[i]);
    }
  }
}
