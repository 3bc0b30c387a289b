/** The two engines side by side: the facet LP against the rows of the worlds actually enumerated
    (services/arb-solver/src/solver/doc.md promises they agree on integral polytopes), where they part
    on overlapping sets, and when the projected world count is exact. */
module EngineParity {
  import opened Wrappers
  import opened Graph
  import opened Omega
  import opened Lp
  import opened FacetLp
  import opened LpBuilder
  import opened FacetExact
  import opened StateEnumerator
  import opened EnumerationExact
  import opened EnumerationOwner

  ghost predicate AllRowsHold(vars: seq<LPVar>, owner: seq<int>, gIndex: Option<nat>, x: seq<real>, states: seq<World>)
    requires Shape(vars, owner, x)
  {
    forall w :: w in states ==> RowHolds(vars, owner, gIndex, x, w)
  }

  lemma {:induction false} ProductShapedSets(c: Cluster)
    requires ProductShaped(Interpret(c, {}).constraints)
    ensures EdgeConstraints(c.edges, QidSet(c)) == []
    ensures Interpret(c, {}).constraints == SetsOf(c) && PlainSets(SetsOf(c))
  {
    var ss, es := SetsOf(c), EdgeConstraints(c.edges, QidSet(c));
    var k := if es != [] then es[0] else HardEdge(0, Implies, 0, 0);
    assert es != [] ==> k in es;
    assert k in es ==> k in ss + es;
    EdgesCoverNothing(c.edges, QidSet(c));
    assert ss + [] == ss;
    forall j | j in ss && j.OneHot? ensures |j.slots| >= 2 {
      SetConstraintsMember(c.sets, QidSet(c), {}, j);
    }
  }

  /** Engine parity. On an enumerated product-shaped cluster the facet engine and the world-row engine
      accept exactly the same baskets; they share legs and objective, so their optima are equal. */
  lemma {:induction false} EnginesAgree(c: Cluster, cap: nat, vars: seq<LPVar>, owner: seq<int>, gIndex: Option<nat>,
                                        x: seq<real>)
    requires Distinct(c.qids) && ProductShaped(Interpret(c, {}).constraints) && Enumerate(c, cap).Ok?
    requires Shape(vars, owner, x) && GPlaced(owner, gIndex) && LegsInBounds(vars, x)
    ensures HasDuals(FormOf(c, {}, owner), vars, gIndex, x) <==>
            AllRowsHold(vars, owner, gIndex, x, StatesOf(Enumerate(c, cap)))
  {
    ProductShapedSets(c);
    DisjointCompatible(SetsOf(c));
    CompatibleIsExact(c, cap);
    FacetExactness(c, {}, vars, owner, gIndex, x);
  }

  /** Whatever the cluster, a basket the world rows accept pays the target in every world of Ω, because
      no world of Ω is missing from the rows. */
  lemma {:induction false} WorldRowsSound(c: Cluster, cap: nat, vars: seq<LPVar>, owner: seq<int>, gIndex: Option<nat>,
                                          x: seq<real>, w: World)
    requires Enumerate(c, cap).Ok? && Shape(vars, owner, x) && GPlaced(owner, gIndex)
    requires AllRowsHold(vars, owner, gIndex, x, StatesOf(Enumerate(c, cap)))
    requires InOmega(c, {}, w)
    ensures PaysTarget(vars, owner, gIndex, x, PointOf(w))
  {
    EnumerationCoversOmega(c, cap, w);
    RowMeans(vars, owner, gIndex, x, w);
  }

  // ---------- Overlapping sets ----------

  /** At most one of {1, 2} and at most one of {2, 3}. */
  function Overlap(): Cluster {
    Cluster([1, 2, 3], [OutcomeSet(7, Categorical, [1, 2], false), OutcomeSet(8, Categorical, [2, 3], false)], [])
  }

  function NoOnBoth(): Basket {
    var no := LPVar(0, NO, None, -1);
    Basket([no, no], [1, 2], [1.0, 1.0])
  }

  function BothYes(): World {
    map[1 := true, 2 := true, 3 := false]
  }

  lemma {:induction false} TwoSets(o: OutcomeSet, p: OutcomeSet, qs: set<int>)
    ensures SetConstraints([o, p], qs, {}) == SetConstraint(o, qs, {}) + SetConstraint(p, qs, {})
  {
    assert [o, p][..1] == [o] && [o][..0] == [];
    assert SetConstraints([o], qs, {}) == SetConstraint(o, qs, {});
  }

  function Left(): Constraint { OneHot(7, [1, 2], false) }

  function Right(): Constraint { OneHot(8, [2, 3], false) }

  lemma {:induction false} OverlapCovered()
    ensures Covered([Left(), Right()]) == {1, 2, 3}
  {
    CoveredSnoc([], Left());
    CoveredSnoc([Left()], Right());
    assert [] + [Left()] == [Left()] && [Left()] + [Right()] == [Left(), Right()];
    assert Covered([]) == {};
    assert SetOf([1, 2]) == {1, 2} && SetOf([2, 3]) == {2, 3};
  }

  lemma {:induction false} PairConstraint(id: int, a: int, b: int, qs: set<int>)
    requires a in qs && b in qs
    ensures SetConstraint(OutcomeSet(id, Categorical, [a, b], false), qs, {}) == [OneHot(id, [a, b], false)]
  {
    KeepAll([a, b], qs);
  }

  lemma {:induction false} OverlapSets()
    ensures SetConstraints(Overlap().sets, {1, 2, 3}, {}) == [Left(), Right()]
  {
    PairConstraint(7, 1, 2, {1, 2, 3});
    PairConstraint(8, 2, 3, {1, 2, 3});
    TwoSets(Overlap().sets[0], Overlap().sets[1], {1, 2, 3});
  }

  lemma {:induction false} OverlapInterp()
    ensures Interpret(Overlap(), {}) == Interp([Left(), Right()], [])
  {
    assert QidSet(Overlap()) == {1, 2, 3};
    OverlapSets();
    OverlapCovered();
    SetsOnly(Overlap(), [Left(), Right()]);
  }

  lemma {:induction false} SetsOnly(c: Cluster, ss: seq<Constraint>)
    requires c.edges == [] && SetConstraints(c.sets, QidSet(c), {}) == ss && QidSet(c) <= Covered(ss)
    ensures Interpret(c, {}) == Interp(ss, [])
  {
    assert QidSet(c) - Covered(ss) == {};
    KeepNone(c.qids);
    assert ss + [] == ss;
  }

  lemma {:induction false} KeepNone(s: seq<int>)
    ensures Keep(s, {}) == []
  {
    if s != [] { KeepNone(s[..|s| - 1]); }
  }

  lemma {:induction false} OverlapGroups()
    ensures Groups([Left(), Right()]) == [Table(Left()), Table(Right())]
    ensures SizeProduct([Left(), Right()]) == 9
  {
    GroupsSnoc([], Left());
    GroupsSnoc([Left()], Right());
    assert [] + [Left()] == [Left()] && [Left()] + [Right()] == [Left(), Right()];
  }

  lemma {:induction false} TwoTables(g: seq<World>, h: seq<World>, p: World, r: World)
    requires p in g && r in h
    ensures p + r in Product([g, h], 2)
  {
    var none: seq<seq<World>> := [];
    var e: World := map[];
    assert Product(none, 0) == [e];
    ProductHas(none, g, e, p);
    assert none + [g] == [g] && e + p == p;
    ProductHas([g], h, p, r);
    assert [g] + [h] == [g, h];
  }

  lemma {:induction false} OverlapProduct()
    ensures BothYes() in Product([Table(Left()), Table(Right())], 2)
  {
    hide Product;
    var p: World := map[1 := true, 2 := false];
    var r: World := map[2 := true, 3 := false];
    FirstOfTwo(1, 2);
    FirstOfTwo(2, 3);
    TwoTables(Table(Left()), Table(Right()), p, r);
    assert p + r == BothYes();
  }

  lemma {:induction false} BothYesOutside()
    ensures !InOmega(Overlap(), {}, BothYes())
  {
    OverlapInterp();
    TwoYesBreak(Left(), BothYes(), 1, 2);
    assert [Left(), Right()][0] == Left();
  }

  /** The later set {2, 3} overwrites question 2, so the enumerator also emits a world with 1 and 2 both
      YES, which Ω excludes. */
  lemma {:induction false} OverlapEnumerates()
    ensures Enumerate(Overlap(), 100).Ok? && BothYes() in StatesOf(Enumerate(Overlap(), 100))
    ensures !InOmega(Overlap(), {}, BothYes())
  {
    hide InOmega, Interpret, Table;
    var cs, groups := [Left(), Right()], [Table(Left()), Table(Right())];
    OverlapInterp();
    OverlapGroups();
    OverlapProduct();
    BothYesOutside();
    assert Pow2(0) == 1;
    assert AllGroups(Interp(cs, []), 100) == groups;
    assert SatisfiesEdges(BothYes(), cs);
    FilterMember(Product(groups, 2), cs, BothYes());
  }

  lemma {:induction false} FirstOfTwo(a: int, b: int)
    requires a != b
    ensures map[a := true, b := false] in CategoricalTable([a, b], false)
  {
    var t := Tabulate([a, b], OneAt(2, 0), 2);
    assert Tabulate([a, b], OneAt(2, 0), 1) == map[a := true];
    assert t == map[a := true, b := false];
    assert CategoricalTable([a, b], false)[0] == t;
  }

  lemma {:induction false} NoOnBothNet(t: set<int>)
    ensures Net(NoOnBoth(), t) == -At(Ind(t), 1) - At(Ind(t), 2)
    ensures NoSum(NoOnBoth().vars, NoOnBoth().owner, NoOnBoth().x, 2) == 2.0
  {
    var b := NoOnBoth();
    assert LegSum(b.vars, b.owner, b.x, Ind(t), 1) == -At(Ind(t), 1);
    assert NoSum(b.vars, b.owner, b.x, 1) == 1.0;
  }

  lemma {:induction false} PairFacet(a: int, b: int, z: Point)
    ensures FacetAt(Facet(Ones([a, b]), 1.0, false), z) == At(z, a) + At(z, b)
  {
    assert Dot(Ones([a, b]), z, 1) == At(z, a);
  }

  function TwoFacets(): seq<Facet> {
    [Facet(Ones([1, 2]), 1.0, false), Facet(Ones([2, 3]), 1.0, false)]
  }

  function OverlapForm(): FacetForm {
    FacetForm(TwoFacets(), [1, 2, 3], [1, 2])
  }

  function FirstDual(): Solution {
    Solution([1.0, 1.0], [1.0, 0.0], [0.0, 0.0, 0.0])
  }

  lemma {:induction false} NoFacets()
    ensures Facets([]) == []
  {
  }

  lemma {:induction false} OverlapFormIs()
    ensures FormOf(Overlap(), {}, NoOnBoth().owner) == OverlapForm()
  {
    hide Interpret, Facets;
    OverlapInterp();
    NoFacets();
    FacetsSnoc([], Left());
    FacetsSnoc([Left()], Right());
    assert [] + [Left()] == [Left()] && [Left()] + [Right()] == [Left(), Right()];
  }

  lemma {:induction false} FirstDualSums(z: Point)
    ensures DualSum(TwoFacets(), FirstDual().dual, z, 2) == At(z, 1) + At(z, 2)
    ensures DualCover(TwoFacets(), FirstDual().dual, 2) == -1.0
  {
    PairFacet(1, 2, z);
    var d := FirstDual().dual;
    assert DualSum(TwoFacets(), d, z, 1) == At(z, 1) + At(z, 2);
    assert DualCover(TwoFacets(), d, 1) == -1.0;
  }

  /** Duals (1, 0) on the two sets accept one NO share on each of questions 1 and 2. */
  lemma {:induction false} FirstDualFeasible()
    ensures Feasible(OverlapForm(), NoOnBoth().vars, None, FirstDual())
  {
    hide Eval, NoSum, DualSum, DualCover;
    var form, vars, s := OverlapForm(), NoOnBoth().vars, FirstDual();
    var rows := RowsOf(form, vars, None).rows;
    forall i | 0 <= i < 3 ensures |rows| == 3 && Eval(rows[i], s) >= 0.0 {
      RowValue(form, vars, None, s, i);
      NoOnBothNet({form.order[i]});
      FirstDualSums(Ind({form.order[i]}));
    }
    RowsWeighted(form, vars, None, map[], s);
    CoverValue(form, vars, None, s);
    NoOnBothNet({});
    FirstDualSums(map[]);
    assert Total(s.mu, 1) == 0.0 && Total(s.mu, 2) == 0.0 && Total(s.mu, 3) == 0.0;
  }

  lemma {:induction false} NoOnBothFails()
    ensures !RowHolds(NoOnBoth().vars, NoOnBoth().owner, None, NoOnBoth().x, BothYes())
  {
    var b := NoOnBoth();
    RowMeans(b.vars, b.owner, None, b.x, BothYes());
    assert Payout(b.vars, b.owner, b.x, PointOf(BothYes()), 1) == 0.0;
  }

  /** On overlapping sets the engines part, in the direction the comments rule out: the facet LP accepts
      a basket that the world rows reject, so its optimum can be cheaper. The basket is still covered in
      every world of Ω; it is the enumerator that also asks for worlds outside Ω. */
  lemma {:induction false} OverlapEnginesDiffer()
    ensures HasDuals(FormOf(Overlap(), {}, NoOnBoth().owner), NoOnBoth().vars, None, NoOnBoth().x)
    ensures !AllRowsHold(NoOnBoth().vars, NoOnBoth().owner, None, NoOnBoth().x, StatesOf(Enumerate(Overlap(), 100)))
  {
    OverlapFormIs();
    FirstDualFeasible();
    assert FirstDual() == Solution(NoOnBoth().x, FirstDual().dual, FirstDual().mu);
    OverlapEnumerates();
    NoOnBothFails();
  }

  // ---------- When the projected count is exact ----------

  ghost predicate SameKeys(states: seq<World>, keys: set<int>) {
    forall w :: w in states ==> w.Keys == keys
  }

  lemma {:induction false} ExtendDistinct(result: seq<World>, group: seq<World>, a: set<int>, b: set<int>, k: nat)
    requires k <= |result| && Distinct(result) && Distinct(group) && a !! b
    requires SameKeys(result, a) && SameKeys(group, b)
    ensures Distinct(Extend(result, group, k))
    ensures forall x :: x in Extend(result, group, k) ==> Restrict(x, a) in result[..k] && x.Keys == a + b
  {
    if k > 0 {
      ExtendDistinct(result, group, a, b, k - 1);
      var e := result[k - 1];
      forall p | 0 <= p < |group| ensures Restrict(e + group[p], a) == e && Restrict(e + group[p], b) == group[p] {
        assert e in result && group[p] in group;
      }
      var row := MergeEach(e, group);
      forall i, j | 0 <= i < j < |row| ensures row[i] != row[j] {
        assert Restrict(row[i], b) == group[i] && Restrict(row[j], b) == group[j];
      }
      assert e !in result[..k - 1];
      forall x | x in row ensures Restrict(x, a) == e && x.Keys == a + b {
        var p :| 0 <= p < |row| && row[p] == x;
        assert e in result && group[p] in group;
      }
      assert result[..k] == result[..k - 1] + [e];
    }
  }

  lemma {:induction false} RowsDiffer(slots: seq<int>, f: seq<bool>, g: seq<bool>, j: nat)
    requires Distinct(slots) && |slots| == |f| == |g| && j < |slots| && f[j] != g[j]
    ensures Tabulate(slots, f, |slots|) != Tabulate(slots, g, |slots|)
  {
    FlagRow(slots, f);
    FlagRow(slots, g);
  }

  lemma {:induction false} TableDistinct(c: Constraint)
    requires !c.HardEdge? && Distinct(c.slots)
    ensures Distinct(Table(c))
  {
    var t, n := Table(c), |c.slots|;
    forall i, j | 0 <= i < j < |t| ensures t[i] != t[j] {
      if c.Chain? {
        RowsDiffer(c.slots, FromEnd(n, i), FromEnd(n, j), n - j);
      } else if j < n {
        RowsDiffer(c.slots, OneAt(n, i), OneAt(n, j), i);
      } else {
        RowsDiffer(c.slots, OneAt(n, i), NoneOf(n), i);
      }
    }
  }

  lemma {:induction false} BitsDiffer(n: nat, a: nat, b: nat) returns (i: nat)
    requires a < Pow2(n) && b < Pow2(n) && a != b
    ensures i < n && Bit(a, i) != Bit(b, i)
  {
    if a % 2 != b % 2 {
      i := 0;
    } else {
      i := BitsDiffer(n - 1, a / 2, b / 2);
      i := i + 1;
    }
  }

  lemma {:induction false} FreeTableDistinct(qids: seq<int>)
    requires Distinct(qids)
    ensures Distinct(FreeTable(qids))
  {
    forall a, b | 0 <= a < b < |FreeTable(qids)| ensures FreeTable(qids)[a] != FreeTable(qids)[b] {
      var i := BitsDiffer(|qids|, a, b);
      RowsDiffer(qids, Bits(|qids|, a), Bits(|qids|, b), i);
    }
  }

  lemma {:induction false} ProductDistinctSnoc(groups: seq<seq<World>>, g: seq<World>, a: set<int>, b: set<int>)
    requires Distinct(Product(groups, |groups|)) && SameKeys(Product(groups, |groups|), a)
    requires Distinct(g) && SameKeys(g, b) && a !! b
    ensures Distinct(Product(groups + [g], |groups| + 1))
    ensures SameKeys(Product(groups + [g], |groups| + 1), a + b)
  {
    ProductStep(groups, g);
    ExtendDistinct(Product(groups, |groups|), g, a, b, |Product(groups, |groups|)|);
  }

  lemma {:induction false} SetsDistinct(gs: seq<Constraint>)
    requires ProductShaped(gs)
    ensures Distinct(Product(Groups(gs), |Groups(gs)|)) && SameKeys(Product(Groups(gs), |Groups(gs)|), Covered(gs))
  {
    if gs == [] {
      assert Covered(gs) == {};
    } else {
      hide Product, Table, SameKeys, Covered;
      var m := |gs| - 1;
      assert gs == gs[..m] + [gs[m]];
      CoveredDisjoint(gs[..m], gs[m]);
      SetsDistinct(gs[..m]);
      GroupsSnoc(gs[..m], gs[m]);
      TableDistinct(gs[m]);
      forall p | p in Table(gs[m]) ensures p.Keys == SetOf(gs[m].slots) { TableSound(gs[m], p); }
      ProductDistinctSnoc(Groups(gs[..m]), Table(gs[m]), Covered(gs[..m]), SetOf(gs[m].slots));
      assert Groups(gs) == Groups(gs[..m]) + [Table(gs[m])];
    }
  }

  lemma {:induction false} DistinctCount(s: seq<World>) returns (t: set<World>)
    requires Distinct(s)
    ensures |t| == |s| && forall w :: w in t <==> w in s
  {
    t := {};
    if s != [] {
      var m := |s| - 1;
      assert s == s[..m] + [s[m]];
      t := DistinctCount(s[..m]);
      assert s[m] !in s[..m];
      t := t + {s[m]};
    }
  }

  /** With disjoint sets and no hard edge the projected count is exactly |Ω|. */
  lemma {:induction false} WorldCountExact(c: Cluster) returns (worlds: set<World>)
    requires Distinct(c.qids) && c.qids != [] && ProductShaped(Interpret(c, {}).constraints)
    requires Projected(Interpret(c, {})).Finite?
    ensures forall w :: w in worlds <==> InOmega(c, {}, w)
    ensures |worlds| == Projected(Interpret(c, {})).n
  {
    var interp := Interpret(c, {});
    var cap := Projected(interp).n;
    ProductShapedSets(c);
    ProjectedCovers(interp);
    CandidateGroups(c, cap);
    var ss, free := SetsOf(c), FreeOf(c);
    SetsDistinct(ss);
    if free != [] {
      FreeTableDistinct(free);
      forall p | p in FreeTable(free) ensures p.Keys == SetOf(free) { FreeTableSound(free, p); }
      ProductDistinctSnoc(Groups(ss), FreeTable(free), Covered(ss), SetOf(free));
    } else {
      assert WithFree(Groups(ss), free) == Groups(ss);
    }
    InterpretSlotted(c, {});
    ProjectedIsProduct(interp, cap);
    worlds := DistinctCount(Product(AllGroups(interp, cap), |AllGroups(interp, cap)|));
    DisjointCompatible(ss);
    CompatibleIsExact(c, cap);
    SomeGroup(c, {}, cap);
    forall w ensures w in worlds <==> InOmega(c, {}, w) {
      FilterMember(Product(AllGroups(interp, cap), |AllGroups(interp, cap)|), interp.constraints, w);
      assert SatisfiesEdges(w, interp.constraints);
    }
  }

  lemma {:induction false} ProjectedCovers(interp: Interp)
    requires Slotted(interp.constraints) && Projected(interp).Finite?
    ensures |interp.freeQids| <= 30 && Pow2(|interp.freeQids|) <= Projected(interp).n
  {
    var groups, n := Groups(interp.constraints), SizeProduct(interp.constraints);
    GroupsSize(interp.constraints);
    GroupsNonEmpty(interp.constraints);
    ProductMonotone(groups, |groups|, |groups|);
    AtLeastFactor(n, Pow2(|interp.freeQids|));
  }

  lemma {:induction false} AtLeastFactor(n: nat, m: nat)
    requires n >= 1
    ensures m <= n * m
  {
    assert (n - 1) * m >= 0;
  }
}
