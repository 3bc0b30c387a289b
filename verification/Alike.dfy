/** Constraint lists that differ only in order, in set and edge ids, and in the order of a symmetric edge's
    ends mean the same: what the structure key must guarantee about two clusters that share it. */
module Alike {
  import opened Graph
  import opened Omega
  import opened Lp
  import opened FacetLp
  import opened StateEnumerator
  import opened Routing
  import opened EnumCache

  // ---------- Permutations ----------

  function Without<A>(s: seq<A>, j: nat): seq<A>
    requires j < |s|
  {
    s[..j] + s[j + 1..]
  }

  lemma {:induction false} WithoutOne<A>(s: seq<A>, j: nat)
    requires j < |s|
    ensures multiset(s) == multiset(Without(s, j)) + multiset{s[j]}
  {
    assert s == s[..j] + [s[j]] + s[j + 1..];
  }

  /** Where the last element of `a` sits in a permutation of `a`. */
  lemma {:induction false} LastIn<A>(a: seq<A>, b: seq<A>) returns (j: nat)
    requires a != [] && multiset(a) == multiset(b)
    ensures j < |b| && b[j] == a[|a| - 1] && multiset(a[..|a| - 1]) == multiset(Without(b, j))
  {
    var x := a[|a| - 1];
    assert a == a[..|a| - 1] + [x];
    assert x in multiset(a);
    assert x in multiset(b);
    j :| 0 <= j < |b| && b[j] == x;
    WithoutOne(b, j);
    assert Without(a, |a| - 1) == a[..|a| - 1];
    WithoutOne(a, |a| - 1);
    assert multiset(a[..|a| - 1]) == multiset(a) - multiset{x};
    assert multiset(Without(b, j)) == multiset(b) - multiset{x};
  }

  /** All the images of the elements, together. */
  function Spread<A, B>(f: A -> seq<B>, s: seq<A>): multiset<B> {
    if s == [] then multiset{} else Spread(f, s[..|s| - 1]) + multiset(f(s[|s| - 1]))
  }

  lemma {:induction false} SpreadWithout<A, B>(f: A -> seq<B>, s: seq<A>, j: nat)
    requires j < |s|
    ensures Spread(f, s) == Spread(f, Without(s, j)) + multiset(f(s[j]))
  {
    var m := |s| - 1;
    if j == m {
      assert Without(s, j) == s[..m];
    } else {
      SpreadWithout(f, s[..m], j);
      assert Without(s, j) == Without(s[..m], j) + [s[m]];
      assert Without(s, j)[..|Without(s, j)| - 1] == Without(s[..m], j);
    }
  }

  lemma {:induction false} SpreadPermutes<A, B>(f: A -> seq<B>, a: seq<A>, b: seq<A>)
    requires multiset(a) == multiset(b)
    ensures Spread(f, a) == Spread(f, b)
    decreases |a|
  {
    if a == [] {
      assert |multiset(b)| == |b|;
      assert b == [];
    } else {
      var j := LastIn(a, b);
      SpreadWithout(f, b, j);
      SpreadPermutes(f, a[..|a| - 1], Without(b, j));
    }
  }

  // ---------- Contents of constraints ----------

  /** A constraint without its id; the ends of a symmetric edge in order. */
  function Content(k: Constraint): Constraint {
    match k
    case OneHot(_, slots, exhaustive) => OneHot(0, slots, exhaustive)
    case Chain(_, slots) => Chain(0, slots)
    case HardEdge(_, kind, a, b) => if kind != Implies && a > b then HardEdge(0, kind, b, a)
           else HardEdge(0, kind, a, b)
  }

  function Contents(cs: seq<Constraint>): (r: seq<Constraint>)
    ensures |r| == |cs|
  {
    seq(|cs|, i requires 0 <= i < |cs| => Content(cs[i]))
  }

  ghost predicate AlikeLists(cs: seq<Constraint>, cs': seq<Constraint>) {
    multiset(Contents(cs)) == multiset(Contents(cs'))
  }

  /** The constraint a set with this code gives, id aside. */
  function CodeConstraint(qs: set<int>): SetCode -> seq<Constraint> {
    (code: SetCode) => SetConstraint(OutcomeSet(0, code.setType, code.slots, code.exhaustive), qs, {})
  }

  lemma {:induction false} ContentsConcat(a: seq<Constraint>, b: seq<Constraint>)
    ensures Contents(a + b) == Contents(a) + Contents(b)
  {
  }

  lemma {:induction false} ContentOfSet(os: OutcomeSet, qs: set<int>)
    ensures Contents(SetConstraint(os, qs, {})) == CodeConstraint(qs)(CodeOf(os))
  {
    hide Keep;
  }

  lemma {:induction false} SetContents(sets: seq<OutcomeSet>, qs: set<int>)
    ensures multiset(Contents(SetConstraints(sets, qs, {}))) == Spread(CodeConstraint(qs), SetCodes(sets))
  {
    hide Content, CodeConstraint, CodeOf, SetConstraint;
    if sets != [] {
      var m := |sets| - 1;
      SetContents(sets[..m], qs);
      ContentOfSet(sets[m], qs);
      ContentsConcat(SetConstraints(sets[..m], qs, {}), SetConstraint(sets[m], qs, {}));
      assert SetCodes(sets)[..m] == SetCodes(sets[..m]);
    }
  }

  function CodeEdge(qs: set<int>): EdgeCode -> seq<Constraint> {
    (code: EdgeCode) => EdgeConstraint(Edge(0, code.a, code.b, code.edgeType, true), qs)
  }

  lemma {:induction false} ContentOfEdge(e: Edge, qs: set<int>)
    requires EdgeIsHard(e) && e.ante != e.cons
    ensures Contents(EdgeConstraint(e, qs)) == CodeEdge(qs)(EdgeCodeOf(e))
  {
  }

  lemma {:induction false} EdgeContents(edges: seq<Edge>, qs: set<int>)
    ensures multiset(Contents(EdgeConstraints(edges, qs))) == Spread(CodeEdge(qs), EdgeCodes(edges))
  {
    hide Content, CodeEdge, EdgeCodeOf;
    if edges != [] {
      var m := |edges| - 1;
      var e := edges[m];
      EdgeContents(edges[..m], qs);
      ContentsConcat(EdgeConstraints(edges[..m], qs), EdgeConstraint(e, qs));
      if EdgeIsHard(e) && e.ante != e.cons {
        ContentOfEdge(e, qs);
        assert EdgeCodes(edges)[..|EdgeCodes(edges)| - 1] == EdgeCodes(edges[..m]);
      } else {
        assert EdgeConstraint(e, qs) == [];
      }
    }
  }

  /** Clusters with the same key read as the same constraints, in some order and with some ids. */
  lemma {:induction false} SameKeyAlike(o: Cluster, c: Cluster, cfg: Config)
    requires KeyOf(o, cfg) == KeyOf(c, cfg)
    ensures AlikeLists(SetConstraints(o.sets, QidSet(o), {}), SetConstraints(c.sets, QidSet(c), {}))
    ensures AlikeLists(Interpret(o, {}).constraints, Interpret(c, {}).constraints)
  {
    hide CodeConstraint, CodeEdge, EdgeConstraints, SetConstraints, EdgeCodes, Content;
    var qs := QidSet(c);
    SetContents(o.sets, qs);
    SetContents(c.sets, qs);
    SpreadPermutes(CodeConstraint(qs), SetCodes(o.sets), SetCodes(c.sets));
    EdgeContents(o.edges, qs);
    EdgeContents(c.edges, qs);
    SpreadPermutes(CodeEdge(qs), EdgeCodes(o.edges), EdgeCodes(c.edges));
    ContentsConcat(SetConstraints(o.sets, qs, {}), EdgeConstraints(o.edges, qs));
    ContentsConcat(SetConstraints(c.sets, qs, {}), EdgeConstraints(c.edges, qs));
  }

  // ---------- What alike lists share ----------

  lemma {:induction false} Twin(cs: seq<Constraint>, cs': seq<Constraint>, k: Constraint) returns (k': Constraint)
    requires AlikeLists(cs, cs') && k in cs
    ensures k' in cs' && Content(k') == Content(k)
  {
    hide Content;
    var i :| 0 <= i < |cs| && cs[i] == k;
    assert Contents(cs)[i] in multiset(Contents(cs));
    assert Content(k) in multiset(Contents(cs'));
    var j :| 0 <= j < |Contents(cs')| && Contents(cs')[j] == Content(k);
    k' := cs'[j];
  }

  lemma {:induction false} ContentHolds(k: Constraint, w: World)
    ensures Holds(k, w) <==> Holds(Content(k), w)
  {
  }

  lemma {:induction false} AlikeHold(cs: seq<Constraint>, cs': seq<Constraint>, w: World)
    requires AlikeLists(cs, cs') && AllHold(cs, w)
    ensures AllHold(cs', w)
  {
    hide Content, Holds;
    forall k | k in cs' ensures Holds(k, w) {
      var k' := Twin(cs', cs, k);
      ContentHolds(k, w);
      ContentHolds(k', w);
    }
  }

  lemma {:induction false} AlikeCovered(cs: seq<Constraint>, cs': seq<Constraint>)
    requires AlikeLists(cs, cs')
    ensures Covered(cs) == Covered(cs')
  {
    forall q ensures q in Covered(cs) <==> q in Covered(cs') {
      if q in Covered(cs) { CoveredTwin(cs, cs', q); }
      if q in Covered(cs') { CoveredTwin(cs', cs, q); }
    }
  }

  lemma {:induction false} CoveredTwin(cs: seq<Constraint>, cs': seq<Constraint>, q: int)
    requires AlikeLists(cs, cs') && q in Covered(cs)
    ensures q in Covered(cs')
  {
    hide AlikeLists;
    var k :| k in cs && q in SlotsOf(k);
    var k' := Twin(cs, cs', k);
    assert SlotsOf(k) == SlotsOf(Content(k)) && SlotsOf(k') == SlotsOf(Content(k'));
  }

  /** Product over a list of numbers. */
  function ProductOf(s: seq<nat>): nat {
    if s == [] then 1 else ProductOf(s[..|s| - 1]) * s[|s| - 1]
  }

  lemma {:induction false} ProductWithout(s: seq<nat>, j: nat)
    requires j < |s|
    ensures ProductOf(s) == ProductOf(Without(s, j)) * s[j]
  {
    var m := |s| - 1;
    if j == m {
      assert Without(s, j) == s[..m];
    } else {
      ProductWithout(s[..m], j);
      assert Without(s, j) == Without(s[..m], j) + [s[m]];
      assert Without(s, j)[..|Without(s, j)| - 1] == Without(s[..m], j);
      SwapFactors(ProductOf(Without(s[..m], j)), s[j], s[m]);
    }
  }

  lemma {:induction false} SwapFactors(a: nat, b: nat, c: nat)
    ensures (a * b) * c == (a * c) * b
  {
  }

  lemma {:induction false} ProductPermutes(a: seq<nat>, b: seq<nat>)
    requires multiset(a) == multiset(b)
    ensures ProductOf(a) == ProductOf(b)
    decreases |a|
  {
    if a == [] {
      assert |multiset(b)| == |b|;
    } else {
      var j := LastIn(a, b);
      ProductWithout(b, j);
      ProductPermutes(a[..|a| - 1], Without(b, j));
    }
  }

  function ContentSizes(cs: seq<Constraint>): (r: seq<nat>)
    ensures |r| == |cs|
  {
    seq(|cs|, i requires 0 <= i < |cs| => SizeOf(cs[i]))
  }

  lemma {:induction false} SizesMultiply(cs: seq<Constraint>)
    ensures SizeProduct(cs) == ProductOf(ContentSizes(cs))
  {
    hide SizeOf;
    if cs != [] {
      SizesMultiply(cs[..|cs| - 1]);
      assert ContentSizes(cs)[..|cs| - 1] == ContentSizes(cs[..|cs| - 1]);
    }
  }

  function Sizes(): Constraint -> seq<nat> {
    (k: Constraint) => [SizeOf(k)]
  }

  lemma {:induction false} SizesSpread(cs: seq<Constraint>)
    ensures multiset(ContentSizes(cs)) == Spread(Sizes(), Contents(cs))
  {
    hide Content;
    if cs != [] {
      var m := |cs| - 1;
      SizesSpread(cs[..m]);
      assert ContentSizes(cs) == ContentSizes(cs[..m]) + [SizeOf(cs[m])];
      assert Contents(cs)[..m] == Contents(cs[..m]);
      ContentSize(cs[m]);
    }
  }

  lemma {:induction false} ContentSize(k: Constraint)
    ensures SizeOf(Content(k)) == SizeOf(k)
  {
  }

  lemma {:induction false} AlikeSizes(cs: seq<Constraint>, cs': seq<Constraint>)
    requires AlikeLists(cs, cs')
    ensures SizeProduct(cs) == SizeProduct(cs')
  {
    hide Contents, SizeProduct, ContentSizes;
    SizesMultiply(cs);
    SizesMultiply(cs');
    SizesSpread(cs);
    SizesSpread(cs');
    SpreadPermutes(Sizes(), Contents(cs), Contents(cs'));
    ProductPermutes(ContentSizes(cs), ContentSizes(cs'));
  }

  // ---------- Facets ----------

  /** One mark per facet, to count them. */
  function Marks(): Constraint -> seq<bool> {
    (k: Constraint) => seq(|ConstraintFacets(k)|, _ => true)
  }

  lemma {:induction false} FacetCount(cs: seq<Constraint>)
    ensures |Spread(Marks(), Contents(cs))| == |Facets(cs)|
  {
    hide Content, ConstraintFacets;
    if cs != [] {
      var m := |cs| - 1;
      FacetCount(cs[..m]);
      assert Contents(cs)[..m] == Contents(cs[..m]);
      ContentFacetCount(cs[m]);
      MarkCount(cs[m]);
    }
  }

  lemma {:induction false} MarkCount(k: Constraint)
    requires |ConstraintFacets(Content(k))| == |ConstraintFacets(k)|
    ensures |multiset(Marks()(Content(k)))| == |ConstraintFacets(k)|
  {
  }

  lemma {:induction false} ContentFacetCount(k: Constraint)
    ensures |ConstraintFacets(Content(k))| == |ConstraintFacets(k)|
  {
  }

  lemma {:induction false} AlikeFacetCount(cs: seq<Constraint>, cs': seq<Constraint>)
    requires AlikeLists(cs, cs')
    ensures |Facets(cs)| == |Facets(cs')|
  {
    hide Contents, Facets;
    FacetCount(cs);
    FacetCount(cs');
    SpreadPermutes(Marks(), Contents(cs), Contents(cs'));
  }

  ghost predicate AllOn(k: Constraint, z: Point) {
    forall f :: f in ConstraintFacets(k) ==> OnFacet(f, z)
  }

  lemma {:induction false} DotTwo(a: int, b: int, u: real, v: real, z: Point)
    ensures Dot([(a, u), (b, v)], z, 2) == u * At(z, a) + v * At(z, b)
  {
    var s := [(a, u), (b, v)];
    assert Dot(s, z, 1) == u * At(z, a);
  }

  /** A symmetric edge's facet does not care which end comes first. */
  lemma {:induction false} ContentOn(k: Constraint, z: Point)
    ensures AllOn(k, z) <==> AllOn(Content(k), z)
  {
    match k
    case OneHot(_, _, _) =>
    case Chain(_, _) =>
    case HardEdge(_, kind, a, b) =>
      EdgeFacetOn(k, z);
      EdgeFacetOn(Content(k), z);
  }

  lemma {:induction false} EdgeFacetOn(k: Constraint, z: Point)
    requires k.HardEdge?
    ensures AllOn(k, z) <==> match k.kind
                             case Implies => At(z, k.a) <= At(z, k.b)
                             case Excludes => At(z, k.a) + At(z, k.b) <= 1.0
                             case Equals => At(z, k.a) == At(z, k.b)
  {
    DotTwo(k.a, k.b, 1.0, -1.0, z);
    DotTwo(k.a, k.b, 1.0, 1.0, z);
    assert |ConstraintFacets(k)| == 1;
    assert AllOn(k, z) <==> OnFacet(ConstraintFacets(k)[0], z);
  }

  lemma {:induction false} AlikeInside(cs: seq<Constraint>, cs': seq<Constraint>, order: seq<int>, order': seq<int>,
                                       z: Point)
    requires AlikeLists(cs, cs') && SetOf(order) == SetOf(order') && InPolytope(Facets(cs), order, z)
    ensures InPolytope(Facets(cs'), order', z)
  {
    hide Contents, Facets, OnFacet, ConstraintFacets;
    forall f | f in Facets(cs') ensures OnFacet(f, z) {
      FacetsMember(cs', f);
      var k :| k in cs' && f in ConstraintFacets(k);
      var t := Twin(cs', cs, k);
      forall g | g in ConstraintFacets(t) ensures OnFacet(g, z) { FacetsMember(cs, g); }
      ContentOn(t, z);
      ContentOn(k, z);
    }
    forall q ensures q in order <==> q in order' {
      assert q in SetOf(order) <==> q in SetOf(order');
    }
  }
}
