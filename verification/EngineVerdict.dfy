/** When the two engines give the same verdict (services/arb-solver/src/solver/facet-lp.ts promises it at its head, and
    at line 40 that both describe the same polytope): exactly when every enumerated state is a world of Ω and the facet
    polytope is integral. */
module EngineVerdict {
  import opened Wrappers
  import opened Graph
  import opened Omega
  import opened Lp
  import opened FacetLp
  import opened LpBuilder
  import opened FacetExact
  import opened Elimination
  import opened FacetDuality
  import opened FacetHull
  import opened StateEnumerator
  import opened EnumerationExact
  import opened EnumerationOwner
  import opened EngineParity

  /** Both engines accept this basket, or neither does. */
  ghost predicate SameVerdict(c: Cluster, cap: nat, vars: seq<LPVar>, owner: seq<int>, gIndex: Option<nat>,
                              x: seq<real>)
    requires Shape(vars, owner, x)
  {
    HasDuals(FormOf(c, {}, owner), vars, gIndex, x) <==>
      AllRowsHold(vars, owner, gIndex, x, StatesOf(Enumerate(c, cap)))
  }

  ghost predicate EnginesAgreeAlways(c: Cluster, cap: nat) {
    forall vars: seq<LPVar>, owner: seq<int>, gIndex: Option<nat>, x: seq<real> ::
      Shape(vars, owner, x) && GPlaced(owner, gIndex) && LegsInBounds(vars, x) ==>
        SameVerdict(c, cap, vars, owner, gIndex, x)
  }

  // ---------- Every state assigns exactly the cluster's questions ----------

  ghost predicate SameDomain(g: seq<World>, keys: set<int>) {
    forall p :: p in g ==> p.Keys == keys
  }

  lemma {:induction false} GroupDomain(c: Constraint)
    requires !c.HardEdge?
    ensures GroupOf(c) == [Table(c)] && SameDomain(Table(c), SetOf(SlotsOf(c)))
  {
    hide Tabulate;
    forall p | p in Table(c) ensures p.Keys == SetOf(c.slots) {
      var r :| 0 <= r < |Table(c)| && Table(c)[r] == p;
      var flags := if c.Chain? then FromEnd(|c.slots|, r) else if r < |c.slots| then OneAt(|c.slots|, r)
            else NoneOf(|c.slots|);
      TabulateKeys(c.slots, flags, |c.slots|);
      assert c.slots[..|c.slots|] == c.slots;
    }
  }

  lemma {:induction false} FreeDomain(qids: seq<int>)
    ensures SameDomain(FreeTable(qids), SetOf(qids))
  {
    hide Tabulate, Pow2;
    forall p | p in FreeTable(qids) ensures p.Keys == SetOf(qids) {
      var r :| 0 <= r < |FreeTable(qids)| && FreeTable(qids)[r] == p;
      TabulateKeys(qids, Bits(|qids|, r), |qids|);
      assert qids[..|qids|] == qids;
    }
  }

  lemma {:induction false} ProductDomain(groups: seq<seq<World>>, g: seq<World>, a: set<int>, b: set<int>)
    requires SameDomain(Product(groups, |groups|), a) && SameDomain(g, b)
    ensures SameDomain(Product(groups + [g], |groups| + 1), a + b)
  {
    hide Product;
    forall x | x in Product(groups + [g], |groups| + 1) ensures x.Keys == a + b {
      var e, p := ProductSplit(groups, g, x);
    }
  }

  lemma {:induction false} SetsDomain(cs: seq<Constraint>)
    ensures SameDomain(Product(Groups(cs), |Groups(cs)|), Covered(cs))
  {
    if cs == [] {
      assert Covered(cs) == {};
    } else {
      hide Product, Groups, Covered, SameDomain;
      var m := |cs| - 1;
      SetsDomain(cs[..m]);
      assert cs == cs[..m] + [cs[m]];
      NextDomain(cs[..m], cs[m]);
    }
  }

  lemma {:induction false} NextDomain(cs: seq<Constraint>, c: Constraint)
    requires SameDomain(Product(Groups(cs), |Groups(cs)|), Covered(cs))
    ensures SameDomain(Product(Groups(cs + [c]), |Groups(cs + [c])|), Covered(cs + [c]))
  {
    hide Product, Table, GroupOf, SameDomain, Groups;
    GroupsSnoc(cs, c);
    CoveredSnoc(cs, c);
    if c.HardEdge? {
      NoGroup(c);
      assert SetOf(SlotsOf(c)) == {};
      assert Groups(cs) + [] == Groups(cs) && Covered(cs) + {} == Covered(cs);
    } else {
      GroupDomain(c);
      ProductDomain(Groups(cs), Table(c), Covered(cs), SetOf(SlotsOf(c)));
    }
  }

  lemma {:induction false} NoGroup(c: Constraint)
    requires c.HardEdge?
    ensures GroupOf(c) == [] && SlotsOf(c) == []
  {
  }

  lemma {:induction false} StateKeys(c: Cluster, cap: nat, w: World)
    requires Enumerate(c, cap).Ok? && w in StatesOf(Enumerate(c, cap))
    ensures w.Keys == QidSet(c)
  {
    hide Product, Groups, FreeTable, Covered, Interpret;
    var interp := Interpret(c, {});
    var all := AllGroups(interp, cap);
    EnumeratedFrom(c, cap, w);
    InterpretCovers(c, {});
    SetsDomain(interp.constraints);
    PreflightFits(c, cap);
    if interp.freeQids != [] {
      FreeDomain(interp.freeQids);
      ProductDomain(Groups(interp.constraints), FreeTable(interp.freeQids), Covered(interp.constraints),
                    SetOf(interp.freeQids));
    } else {
      assert all == Groups(interp.constraints);
    }
  }

  /** The shortcut for a cluster without groups is never taken: every question is in a set or free. */
  lemma {:induction false} EnumeratedFrom(c: Cluster, cap: nat, w: World)
    requires Enumerate(c, cap).Ok? && w in StatesOf(Enumerate(c, cap))
    ensures var all := AllGroups(Interpret(c, {}), cap); w in Product(all, |all|)
  {
    hide Product, Interpret, AllGroups;
    var interp := Interpret(c, {});
    var all := AllGroups(interp, cap);
    SomeGroup(c, {}, cap);
    FilterMember(Product(all, |all|), interp.constraints, w);
  }

  // ---------- A state outside Ω costs the row engine a basket ----------

  /** Minus (up) or plus (down) the facet's coefficients. */
  function Signed(f: Facet, up: bool): (a: seq<real>)
    ensures |a| == |f.coeff|
  {
    seq(|f.coeff|, i requires 0 <= i < |f.coeff| => if up then -f.coeff[i].1 else f.coeff[i].1)
  }

  function OwnersOf(f: Facet): (o: seq<int>)
    ensures |o| == |f.coeff|
  {
    seq(|f.coeff|, i requires 0 <= i < |f.coeff| => f.coeff[i].0)
  }

  lemma {:induction false} SignedValue(f: Facet, up: bool, z: Point, k: nat)
    requires k <= |f.coeff|
    ensures Value(OwnersOf(f), Signed(f, up), z, k) == if up then -Dot(f.coeff, z, k) else Dot(f.coeff, z, k)
  {
    hide At;
    if k > 0 {
      SignedValue(f, up, z, k - 1);
      Negated(f.coeff[k - 1].1, At(z, f.coeff[k - 1].0));
    }
  }

  /** The side of the facet that w is on the wrong side of, and how far the polytope stays from it. */
  ghost predicate Breaks(f: Facet, up: bool, w: World) {
    if up then FacetAt(f, PointOf(w)) > f.rhs else f.isEq && FacetAt(f, PointOf(w)) < f.rhs
  }

  function Margin(f: Facet, up: bool): real {
    Offset(Signed(f, up), |f.coeff|) + if up then -f.rhs else f.rhs
  }

  lemma {:induction false} FacetLegs(f: Facet, up: bool, k: real, z: Point)
    requires forall i :: 0 <= i < |f.coeff| ==> f.coeff[i].0 >= 0
    ensures var a := Signed(f, up);
            Payout(LegsFor(a), OwnersOf(f), SharesFor(k, a), z, |a|) ==
            Times(k, Offset(a, |a|) + if up then -FacetAt(f, z) else FacetAt(f, z))
  {
    hide Payout, Value, Offset, Times, LegsFor, SharesFor;
    var a := Signed(f, up);
    PayoutFor(OwnersOf(f), k, a, z, |a|);
    SignedValue(f, up, z, |a|);
  }

  lemma {:induction false} Unit(m: real, u: real)
    requires m > 0.0
    ensures u >= m ==> Times(1.0 / m, u) >= 1.0
    ensures u < m ==> Times(1.0 / m, u) < 1.0
  {
    assert Times(1.0 / m, u) == u / m && m / m == 1.0;
    assert u / m - m / m == (u - m) / m;
    if u >= m { assert (u - m) / m >= 0.0; } else { assert (m - u) / m > 0.0; }
  }

  lemma {:induction false} MarginPositive(f: Facet, up: bool, w: World)
    requires Breaks(f, up, w)
    ensures Margin(f, up) > 0.0
    ensures Offset(Signed(f, up), |f.coeff|) + (if up then -FacetAt(f, PointOf(w))
                                                           else FacetAt(f, PointOf(w))) < Margin(f, up)
  {
    hide Value, Offset, Dot;
    forall q ensures 0.0 <= At(PointOf(w), q) <= 1.0 { PointValue(w, q); }
    ValueNonNegative(OwnersOf(f), Signed(f, up), PointOf(w), |f.coeff|);
    SignedValue(f, up, PointOf(w), |f.coeff|);
  }

  /** The facet's own legs pay 1 wherever the facet holds, and less in a world that breaks it. */
  lemma {:induction false} FacetBasket(f: Facet, up: bool, w: World) returns (x: seq<real>)
    requires Breaks(f, up, w) && forall i :: 0 <= i < |f.coeff| ==> f.coeff[i].0 >= 0
    ensures |x| == |f.coeff| && LegsInBounds(LegsFor(Signed(f, up)), x)
    ensures forall z :: OnFacet(f, z) ==> PaysTarget(LegsFor(Signed(f, up)), OwnersOf(f), None, x, z)
    ensures !PaysTarget(LegsFor(Signed(f, up)), OwnersOf(f), None, x, PointOf(w))
  {
    hide FacetAt, Offset, Times, Payout, LegsFor, SharesFor, LegsInBounds, Signed;
    var a, m := Signed(f, up), Margin(f, up);
    MarginPositive(f, up, w);
    var k := 1.0 / m;
    x := SharesFor(k, a);
    assert k >= 0.0;
    SharesInBounds(k, a);
    forall z | OnFacet(f, z) ensures PaysTarget(LegsFor(a), OwnersOf(f), None, x, z) {
      FacetLegs(f, up, k, z);
      Unit(m, Offset(a, |a|) + if up then -FacetAt(f, z) else FacetAt(f, z));
    }
    FacetLegs(f, up, k, PointOf(w));
    Unit(m, Offset(a, |a|) + if up then -FacetAt(f, PointOf(w)) else FacetAt(f, PointOf(w)));
  }

  /** The questions of a cluster's facets are the cluster's. */
  lemma {:induction false} FacetQuestions(c: Cluster, f: Facet, i: nat)
    requires f in Facets(Interpret(c, {}).constraints) && i < |f.coeff|
    ensures f.coeff[i].0 in c.qids
  {
    hide SetConstraints, EdgeConstraints, SetConstraint, EdgeConstraint, ConstraintFacets, Facets;
    var qs := QidSet(c);
    var ss, es := SetConstraints(c.sets, qs, {}), EdgeConstraints(c.edges, qs);
    FacetsMember(ss + es, f);
    var k :| k in ss + es && f in ConstraintFacets(k);
    if k in ss {
      SetConstraintsMember(c.sets, qs, {}, k);
      var os :| os in c.sets && k in SetConstraint(os, qs, {});
      SetFacetQuestions(os, qs, k, f, i);
    } else {
      EdgeConstraintsMember(c.edges, qs, k);
      var e :| e in c.edges && k in EdgeConstraint(e, qs);
      EdgeFacetQuestions(e, qs, k, f, i);
    }
  }

  lemma {:induction false} EdgeFacetQuestions(e: Edge, qs: set<int>, k: Constraint, f: Facet, i: nat)
    requires k in EdgeConstraint(e, qs) && f in ConstraintFacets(k) && i < |f.coeff|
    ensures f.coeff[i].0 in qs
  {
    assert k.HardEdge? && k.a in qs && k.b in qs;
    assert f == ConstraintFacets(k)[0];
    match k.kind
    case Implies =>
    case Excludes =>
    case Equals =>
  }

  lemma {:induction false} SetFacetQuestions(os: OutcomeSet, qs: set<int>, k: Constraint, f: Facet, i: nat)
    requires k in SetConstraint(os, qs, {}) && f in ConstraintFacets(k) && i < |f.coeff|
    ensures f.coeff[i].0 in qs
  {
    hide Keep, ConstraintFacets;
    KeepMember(os.slots, qs, f.coeff[i].0);
    assert !k.HardEdge? && k.slots == Keep(os.slots, qs);
    SlotFacetQuestions(k, f, i);
    assert f.coeff[i].0 in Keep(os.slots, qs);
  }

  lemma {:induction false} SlotFacetQuestions(k: Constraint, f: Facet, i: nat)
    requires !k.HardEdge? && f in ConstraintFacets(k) && i < |f.coeff|
    ensures f.coeff[i].0 in k.slots
  {
    if k.Chain? { ChainFacetQuestions(k.slots, if |k.slots| == 0 then 0 else |k.slots| - 1, f, i); }
  }

  lemma {:induction false} ChainFacetQuestions(slots: seq<int>, n: nat, f: Facet, i: nat)
    requires (n == 0 || n < |slots|) && f in ChainFacets(slots, n) && i < |f.coeff|
    ensures f.coeff[i].0 in slots
  {
    if f in ChainFacets(slots, n - 1) { ChainFacetQuestions(slots, n - 1, f, i); }
  }

  /** A state outside Ω breaks a facet. */
  lemma {:induction false} BrokenFacet(c: Cluster, w: World) returns (f: Facet, up: bool)
    requires w.Keys == QidSet(c) && !InOmega(c, {}, w)
    ensures f in Facets(Interpret(c, {}).constraints) && Breaks(f, up, w)
  {
    hide FacetAt, Interpret, Facets, InOmega;
    var z := PointOf(w);
    IntegralPointsAreOmega(c, {}, w);
    forall q ensures 0.0 <= At(z, q) <= 1.0 { PointValue(w, q); }
    assert forall q :: q in z ==> q in c.qids;
    f :| f in Facets(Interpret(c, {}).constraints) && !OnFacet(f, z);
    up := FacetAt(f, z) > f.rhs;
  }

  lemma {:induction false} StateInOmega(c: Cluster, cap: nat, w: World)
    requires Distinct(c.qids) && (forall q :: q in c.qids ==> q >= 0) && Enumerate(c, cap).Ok?
    requires EnginesAgreeAlways(c, cap) && w in StatesOf(Enumerate(c, cap))
    ensures InOmega(c, {}, w)
  {
    hide InOmega, FacetAt, Interpret, Facets, HasDuals, RowHolds, PaysTarget, LegsFor, LegsInBounds, Enumerate, FormOf,
         Signed, Breaks;
    StateKeys(c, cap, w);
    if !InOmega(c, {}, w) {
      var f, up := BrokenFacet(c, w);
      forall i | 0 <= i < |f.coeff| ensures f.coeff[i].0 >= 0 { FacetQuestions(c, f, i); }
      var x := FacetBasket(f, up, w);
      var vars, owner := LegsFor(Signed(f, up)), OwnersOf(f);
      assert Shape(vars, owner, x) && GPlaced(owner, None);
      FormOwner(c, {}, owner);
      AcceptsIffPaysOnPolytope(FormOf(c, {}, owner), vars, None, x);
      assert SameVerdict(c, cap, vars, owner, None, x);
      assert RowHolds(vars, owner, None, x, w);
      RowMeans(vars, owner, None, x, w);
      assert false;
    }
  }

  // ---------- The exact condition ----------

  lemma {:induction false} SameVerdictAgrees(c: Cluster, cap: nat, vars: seq<LPVar>, owner: seq<int>,
                                             gIndex: Option<nat>, x: seq<real>)
    requires Shape(vars, owner, x) && ExactlyOmega(c, StatesOf(Enumerate(c, cap)))
    ensures SameVerdict(c, cap, vars, owner, gIndex, x) <==> AgreesOn(c, {}, vars, owner, gIndex, x)
  {
    hide HasDuals, RowHolds, InOmega, FormOf, StatesOf, Enumerate;
  }

  /** The exact condition for the engines to agree on all baskets, on every enumerated cluster: overlapping sets,
      repeated slots and hard edges included. Question ids are row ids, hence >= 0. */
  lemma {:induction false} EnginesAgreeIff(c: Cluster, cap: nat)
    requires Distinct(c.qids) && (forall q :: q in c.qids ==> q >= 0) && Enumerate(c, cap).Ok?
    ensures EnginesAgreeAlways(c, cap) <==> ExactlyOmega(c, StatesOf(Enumerate(c, cap))) && Integral(c, {})
  {
    hide SameVerdict, AgreesOn, GPlaced, LegsInBounds, Integral, Enumerate, InOmega;
    if EnginesAgreeAlways(c, cap) {
      forall w ensures w in StatesOf(Enumerate(c, cap)) <==> InOmega(c, {}, w) {
        if w in StatesOf(Enumerate(c, cap)) {
          StateInOmega(c, cap, w);
        } else if InOmega(c, {}, w) {
          EnumerationCoversOmega(c, cap, w);
        }
      }
    }
    if ExactlyOmega(c, StatesOf(Enumerate(c, cap))) {
      forall vars: seq<LPVar>, owner: seq<int>, gIndex: Option<nat>, x: seq<real> | Shape(vars, owner, x)
        ensures SameVerdict(c, cap, vars, owner, gIndex, x) <==> AgreesOn(c, {}, vars, owner, gIndex, x)
      {
        SameVerdictAgrees(c, cap, vars, owner, gIndex, x);
      }
      ExactIffIntegral(c, {});
    }
  }

  /** Without hard edges: the engines agree on all baskets exactly when every set is compatible with the owners of its
      slots and the polytope is integral. */
  lemma {:induction false} EnginesAgreeIffCompatible(c: Cluster, cap: nat)
    requires Distinct(c.qids) && (forall q :: q in c.qids ==> q >= 0) && Enumerate(c, cap).Ok?
    requires PlainSets(SetsOf(c)) && EdgeConstraints(c.edges, QidSet(c)) == []
    ensures EnginesAgreeAlways(c, cap) <==> (forall k :: k in SetsOf(c) ==> Compatible(SetsOf(c), k)) && Integral(c, {})
  {
    hide EnginesAgreeAlways, Integral, ExactlyOmega, Compatible, Enumerate;
    EnginesAgreeIff(c, cap);
    EnumerationExactIff(c, cap);
  }
}
