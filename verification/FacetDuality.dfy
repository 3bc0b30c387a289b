/** Strong duality for the facet LP of services/arb-solver/src/solver/facet-lp.ts on every facet system, integral or
    not: a basket has duals exactly when it pays its target on the whole facet polytope. */
module FacetDuality {
  import opened Wrappers
  import opened Graph
  import opened Lp
  import opened FacetLp
  import opened FacetExact
  import opened Elimination
  import opened FacetComplete

  // ---------- A point of the system is a point of the polytope ----------

  /** The first k questions at the values u gives them; u[0] is the bound on the net gain. */
  function Partial(order: seq<int>, u: seq<real>, k: nat): Point
    requires k <= |order| < |u|
  {
    if k == 0 then map[] else Partial(order, u, k - 1)[order[k - 1] := u[k]]
  }

  lemma {:induction false} PartialValues(order: seq<int>, u: seq<real>, k: nat)
    requires k <= |order| < |u| && Distinct(order)
    ensures forall q :: q in Partial(order, u, k) <==> q in order[..k]
    ensures forall i :: 0 <= i < k ==> At(Partial(order, u, k), order[i]) == u[i + 1]
  {
    if k > 0 {
      PartialValues(order, u, k - 1);
      assert order[..k] == order[..k - 1] + [order[k - 1]];
    }
  }

  lemma {:induction false} NextIsNew(order: seq<int>, u: seq<real>, k: nat)
    requires k < |order| < |u| && Distinct(order)
    ensures order[k] !in Partial(order, u, k)
  {
    PartialValues(order, u, k);
  }

  lemma {:induction false} SetOne(a: real, z: Point, q: int, v: real, o: int)
    requires q !in z
    ensures Times(a, At(z[q := v], o)) == Times(a, At(z, o)) + Times(Times(a, At(Ind({q}), o)), v)
  {
    if o == q { assert At(Ind({q}), o) == 1.0; }
  }

  lemma {:induction false} AddUp(dz: real, du: real, tz: real, tu: real, v: real)
    ensures (dz + Times(du, v)) + (tz + Times(tu, v)) == (dz + tz) + Times(du + tu, v)
  {
    Elimination.TimesPlus(du, tu, v);
  }

  lemma {:induction false} DotLast(coeff: seq<(int, real)>, z: Point, j: nat)
    requires 0 < j <= |coeff|
    ensures Dot(coeff, z, j) == Dot(coeff, z, j - 1) + Times(coeff[j - 1].1, At(z, coeff[j - 1].0))
  {
  }

  /** Setting one more question adds its value times its coefficient. */
  lemma {:induction false} DotSet(coeff: seq<(int, real)>, z: Point, q: int, v: real, j: nat)
    requires j <= |coeff| && q !in z
    ensures Dot(coeff, z[q := v], j) == Dot(coeff, z, j) + Times(Dot(coeff, Ind({q}), j), v)
  {
    if j == 0 {
      TimesZero(v);
    } else {
      hide Dot, At, Times, Ind;
      DotSet(coeff, z, q, v, j - 1);
      var a, o := coeff[j - 1].1, coeff[j - 1].0;
      DotLast(coeff, z[q := v], j);
      DotLast(coeff, z, j);
      DotLast(coeff, Ind({q}), j);
      SetOne(a, z, q, v, o);
      AddUp(Dot(coeff, z, j - 1), Dot(coeff, Ind({q}), j - 1), Times(a, At(z, o)), Times(a, At(Ind({q}), o)), v);
    }
  }

  function LegWeight(b: Basket, k: nat): real
    requires IsBasket(b) && k < |b.x|
  {
    if b.owner[k] < 0 then 0.0 else Sign(b.vars[k].side) * b.x[k]
  }

  lemma {:induction false} LegSumLast(b: Basket, z: Point, k: nat)
    requires IsBasket(b) && 0 < k <= |b.x|
    ensures LegSum(b.vars, b.owner, b.x, z, k) ==
            LegSum(b.vars, b.owner, b.x, z, k - 1) + Times(LegWeight(b, k - 1), At(z, b.owner[k - 1]))
  {
  }

  lemma {:induction false} LegSumSet(b: Basket, z: Point, q: int, v: real, k: nat)
    requires IsBasket(b) && k <= |b.x| && q !in z
    ensures LegSum(b.vars, b.owner, b.x, z[q := v], k) ==
            LegSum(b.vars, b.owner, b.x, z, k) + Times(LegSum(b.vars, b.owner, b.x, Ind({q}), k), v)
  {
    if k == 0 {
      TimesZero(v);
    } else {
      hide LegSum, LegWeight, At, Times, Ind;
      LegSumSet(b, z, q, v, k - 1);
      var a, o := LegWeight(b, k - 1), b.owner[k - 1];
      LegSumLast(b, z[q := v], k);
      LegSumLast(b, z, k);
      LegSumLast(b, Ind({q}), k);
      SetOne(a, z, q, v, o);
      AddUp(LegSum(b.vars, b.owner, b.x, z, k - 1), LegSum(b.vars, b.owner, b.x, Ind({q}), k - 1),
            Times(a, At(z, o)), Times(a, At(Ind({q}), o)), v);
    }
  }

  lemma {:induction false} DotNothing(coeff: seq<(int, real)>, j: nat)
    requires j <= |coeff|
    ensures Dot(coeff, map[], j) == 0.0
  {
    if j > 0 { DotNothing(coeff, j - 1); }
  }

  lemma {:induction false} LegSumNothing(b: Basket, k: nat)
    requires IsBasket(b) && k <= |b.x|
    ensures LegSum(b.vars, b.owner, b.x, map[], k) == 0.0
  {
    if k > 0 { LegSumNothing(b, k - 1); }
  }

  lemma {:induction false} CostLhs(form: FacetForm, b: Basket, u: seq<real>, k: nat)
    requires IsBasket(b) && Distinct(form.order) && k <= |form.order| < |u|
    ensures Lhs(SystemOf(form, b), Given(Cost), u, k + 1) ==
            LegSum(b.vars, b.owner, b.x, Partial(form.order, u, k), |b.x|) - u[0]
  {
    hide LegSum;
    if k == 0 {
      LegSumNothing(b, |b.x|);
      assert Lhs(SystemOf(form, b), Given(Cost), u, 0) == 0.0;
    } else {
      CostLhs(form, b, u, k - 1);
      NextIsNew(form.order, u, k - 1);
      LegSumSet(b, Partial(form.order, u, k - 1), form.order[k - 1], u[k], |b.x|);
    }
  }

  lemma {:induction false} FacetLhs(form: FacetForm, b: Basket, f: nat, u: seq<real>, k: nat)
    requires IsBasket(b) && Distinct(form.order) && k <= |form.order| < |u| && f < |form.facets|
    ensures Lhs(SystemOf(form, b), Given(Fac(f)), u, k + 1) == FacetAt(form.facets[f], Partial(form.order, u, k))
    ensures form.facets[f].isEq ==>
              Lhs(SystemOf(form, b), Given(Neg(f)), u, k + 1) == -FacetAt(form.facets[f], Partial(form.order, u, k))
  {
    hide Dot;
    var c := form.facets[f].coeff;
    if k == 0 {
      DotNothing(c, |c|);
      assert Lhs(SystemOf(form, b), Given(Fac(f)), u, 0) == 0.0;
      assert Lhs(SystemOf(form, b), Given(Neg(f)), u, 0) == 0.0;
    } else {
      FacetLhs(form, b, f, u, k - 1);
      NextIsNew(form.order, u, k - 1);
      DotSet(c, Partial(form.order, u, k - 1), form.order[k - 1], u[k], |c|);
    }
  }

  lemma {:induction false} BoxLhs(form: FacetForm, b: Basket, q: nat, u: seq<real>, k: nat)
    requires IsBasket(b) && k <= |form.order| < |u| && q < |form.order|
    ensures Lhs(SystemOf(form, b), Given(Low(q)), u, k + 1) == if q < k then -u[q + 1] else 0.0
    ensures Lhs(SystemOf(form, b), Given(Up(q)), u, k + 1) == if q < k then u[q + 1] else 0.0
  {
    if k == 0 {
      assert Lhs(SystemOf(form, b), Given(Low(q)), u, 0) == 0.0;
      assert Lhs(SystemOf(form, b), Given(Up(q)), u, 0) == 0.0;
    } else {
      BoxLhs(form, b, q, u, k - 1);
    }
  }

  lemma {:induction false} FacetsHold(form: FacetForm, b: Basket, u: seq<real>, f: nat)
    requires IsBasket(b) && Distinct(form.order) && |u| == |form.order| + 1 && f < |form.facets|
    requires AllHold(SystemOf(form, b), Rows(form), u)
    ensures OnFacet(form.facets[f], Partial(form.order, u, |form.order|))
  {
    hide Lhs, FacetAt, SystemOf;
    FacetLhs(form, b, f, u, |form.order|);
    assert Given(Fac(f)) in Rows(form) && Given(Neg(f)) in Rows(form);
    assert Holds(SystemOf(form, b), Given(Fac(f)), u) && Holds(SystemOf(form, b), Given(Neg(f)), u);
    GivenRhs(form, b, Fac(f));
    GivenRhs(form, b, Neg(f));
  }

  lemma {:induction false} GivenRhs(form: FacetForm, b: Basket, l: Tag)
    requires IsBasket(b)
    ensures Rhs(SystemOf(form, b), Given(l)) == RhsOf(form, l)
  {
  }

  lemma {:induction false} BoxHolds(form: FacetForm, b: Basket, u: seq<real>, q: nat)
    requires IsBasket(b) && Distinct(form.order) && |u| == |form.order| + 1 && q < |form.order|
    requires AllHold(SystemOf(form, b), Rows(form), u)
    ensures 0.0 <= At(Partial(form.order, u, |form.order|), form.order[q]) <= 1.0
  {
    hide Lhs, SystemOf;
    BoxLhs(form, b, q, u, |form.order|);
    PartialValues(form.order, u, |form.order|);
    assert Given(Low(q)) in Rows(form) && Given(Up(q)) in Rows(form);
    assert Holds(SystemOf(form, b), Given(Low(q)), u) && Holds(SystemOf(form, b), Given(Up(q)), u);
    GivenRhs(form, b, Low(q));
    GivenRhs(form, b, Up(q));
  }

  lemma {:induction false} PointInPolytope(form: FacetForm, b: Basket, u: seq<real>)
    requires IsBasket(b) && Distinct(form.order) && |u| == |form.order| + 1
    requires AllHold(SystemOf(form, b), Rows(form), u)
    ensures InPolytope(form.facets, form.order, Partial(form.order, u, |form.order|))
    ensures LegSum(b.vars, b.owner, b.x, Partial(form.order, u, |form.order|), |b.x|) <= u[0]
  {
    hide OnFacet, Lhs, LegSum, SystemOf;
    var z := Partial(form.order, u, |form.order|);
    PartialValues(form.order, u, |form.order|);
    forall q | q in form.order ensures 0.0 <= At(z, q) <= 1.0 {
      var i :| 0 <= i < |form.order| && form.order[i] == q;
      BoxHolds(form, b, u, i);
    }
    forall f | f in form.facets ensures OnFacet(f, z) {
      var i :| 0 <= i < |form.facets| && form.facets[i] == f;
      FacetsHold(form, b, u, i);
    }
    CostLhs(form, b, u, |form.order|);
    assert Given(Cost) in Rows(form);
    assert Holds(SystemOf(form, b), Given(Cost), u);
    GivenRhs(form, b, Cost);
  }

  // ---------- A certificate that the net gain stays at or above tau ----------

  /** A combination that bounds t alone: its Cost weight is 1, every question cancels, and it gives t >= tau. */
  ghost predicate Certificate(form: FacetForm, b: Basket, p: Combo<Tag>, tau: real)
    requires IsBasket(b)
  {
    Clean(form, b, p) && Rhs(SystemOf(form, b), p) <= -tau
  }

  ghost predicate Clean(form: FacetForm, b: Basket, p: Combo<Tag>)
    requires IsBasket(b)
  {
    && NonNegative(p) && Coef(SystemOf(form, b), p, 0) == -1.0
    && forall j :: j >= 1 ==> Coef(SystemOf(form, b), p, j) == 0.0
  }

  lemma {:induction false} RowsProper(form: FacetForm, b: Basket)
    requires IsBasket(b)
    ensures Proper(SystemOf(form, b), Rows(form), |form.order| + 1)
  {
    hide Net, FacetAt;
    forall p | p in Rows(form)
      ensures NonNegative(p) && forall j :: j >= |form.order| + 1 ==> Coef(SystemOf(form, b), p, j) == 0.0
    {
      assert p.Given?;
    }
  }

  lemma {:induction false} BoxStep(form: FacetForm, b: Basket, r: Combo<Tag>, k: nat, l: Tag, d: real, j: nat)
    requires IsBasket(b) && 1 <= k <= |form.order| && (l == Up(k - 1) || l == Low(k - 1))
    ensures Coef(SystemOf(form, b), Plus(r, Scaled(d, Given(l))), j) ==
            Coef(SystemOf(form, b), r, j) + if j != k then 0.0 else if l == Up(k - 1) then d else -d
  {
    var sys := SystemOf(form, b);
    assert Coef(sys, Given(l), j) == CoefOf(form, b, l, j);
    assert Coef(sys, Scaled(d, Given(l)), j) == Times(d, CoefOf(form, b, l, j));
  }

  /** The Cost row with every question cancelled by the box alone. */
  lemma {:induction false} BoxCombo(form: FacetForm, b: Basket, k: nat) returns (p: Combo<Tag>)
    requires IsBasket(b) && k <= |form.order|
    ensures NonNegative(p) && Coef(SystemOf(form, b), p, 0) == -1.0
    ensures forall j :: 1 <= j <= k || j > |form.order| ==> Coef(SystemOf(form, b), p, j) == 0.0
  {
    hide Net, FacetAt;
    if k == 0 {
      p := Given(Cost);
    } else {
      var sys := SystemOf(form, b);
      var r := BoxCombo(form, b, k - 1);
      var c := Coef(sys, r, k);
      var l := if c < 0.0 then Up(k - 1) else Low(k - 1);
      var d := if c < 0.0 then -c else c;
      p := Plus(r, Scaled(d, Given(l)));
      assert NonNegative(Given(l)) && NonNegative(Scaled(d, Given(l)));
      forall j: nat ensures Coef(sys, p, j) == Coef(sys, r, j) + if j == k then -c else 0.0 {
        BoxStep(form, b, r, k, l, d, j);
      }
    }
  }

  /** When the polytope is empty, some combination is a contradiction, and enough of it certifies any bound. */
  lemma {:induction false} EmptyCertificate(form: FacetForm, b: Basket, p: Combo<Tag>, tau: real)
    returns (r: Combo<Tag>)
    requires IsBasket(b) && NonNegative(p) && Rhs(SystemOf(form, b), p) < 0.0
    requires forall j :: Coef(SystemOf(form, b), p, j) == 0.0
    ensures Certificate(form, b, r, tau)
  {
    var sys := SystemOf(form, b);
    var base := BoxCombo(form, b, |form.order|);
    var k := Enough(Rhs(sys, base) + tau, Rhs(sys, p));
    r := Plus(base, Scaled(k, p));
    assert NonNegative(Scaled(k, p)) && NonNegative(r);
    hide SystemOf, CoefOf;
    TimesZero(k);
    forall j: nat ensures Coef(sys, r, j) == Coef(sys, base, j) {
      assert Coef(sys, Scaled(k, p), j) == Times(k, Coef(sys, p, j));
    }
    assert Rhs(sys, Scaled(k, p)) == Times(k, Rhs(sys, p));
    assert Rhs(sys, r) == Rhs(sys, base) + Times(k, Rhs(sys, p));
  }

  lemma {:induction false} Enough(a: real, d: real) returns (k: real)
    requires d < 0.0
    ensures k >= 0.0 && a + Times(k, d) <= 0.0
  {
    if a <= 0.0 {
      k := 0.0;
    } else {
      k := a / -d;
      assert Times(k, d) == -a;
    }
  }

  lemma {:induction false} ScaleToUnit(form: FacetForm, b: Basket, p: Combo<Tag>, tau: real) returns (r: Combo<Tag>)
    requires IsBasket(b) && NonNegative(p)
    requires Coef(SystemOf(form, b), p, 0) < 0.0 && Rhs(SystemOf(form, b), p) / Coef(SystemOf(form, b), p, 0) >= tau
    requires forall j :: j >= 1 ==> Coef(SystemOf(form, b), p, j) == 0.0
    ensures Certificate(form, b, r, tau)
  {
    hide SystemOf;
    var sys := SystemOf(form, b);
    var c := -1.0 / Coef(sys, p, 0);
    r := Scaled(c, p);
    UnitScale(Coef(sys, p, 0), Rhs(sys, p));
    forall j: nat ensures Coef(sys, r, j) == Times(c, Coef(sys, p, j)) { }
    TimesZero(c);
  }

  lemma {:induction false} UnitScale(a: real, r: real)
    requires a < 0.0
    ensures -1.0 / a >= 0.0 && Times(-1.0 / a, a) == -1.0 && Times(-1.0 / a, r) == -(r / a)
  {
  }

  lemma {:induction false} HoldsAtOne<L>(sys: System<L>, p: Combo<L>, t: real)
    ensures Lhs(sys, p, [t], 1) == Times(Coef(sys, p, 0), t)
  {
    assert Lhs(sys, p, [t], 0) == 0.0;
  }

  /** If no combination over t alone reaches tau, t can be set below tau and lifted to a point that gains less. */
  lemma {:induction false} GainsLess(form: FacetForm, b: Basket, d: set<Combo<Tag>>, t: real) returns (z: Point)
    requires IsBasket(b) && Distinct(form.order)
    requires d == EliminateTo(SystemOf(form, b), Rows(form), |form.order| + 1, 1)
    requires forall p :: p in d ==> Times(Coef(SystemOf(form, b), p, 0), t) <= Rhs(SystemOf(form, b), p)
    ensures InPolytope(form.facets, form.order, z) && LegSum(b.vars, b.owner, b.x, z, |b.x|) <= t
  {
    hide SystemOf, Rows, InPolytope, LegSum, EliminateTo;
    var sys := SystemOf(form, b);
    forall p | p in d ensures Holds(sys, p, [t]) { HoldsAtOne(sys, p, t); }
    var u := Lift(sys, Rows(form), |form.order| + 1, 1, [t]);
    assert u[0] == u[..1][0];
    PointInPolytope(form, b, u);
    z := Partial(form.order, u, |form.order|);
  }

  lemma {:induction false} BelowBound(c: real, r: real, t: real)
    requires c < 0.0 && r / c <= t
    ensures Times(c, t) <= r
  {
    LowerBound(c, r, t);
  }

  /** The largest lower bound the projection puts on t, if it puts one. */
  lemma {:induction false} FindCertificate(form: FacetForm, b: Basket, tau: real) returns (r: Combo<Tag>)
    requires IsBasket(b) && Distinct(form.order)
    requires forall z :: InPolytope(form.facets, form.order, z) ==> LegSum(b.vars, b.owner, b.x, z, |b.x|) >= tau
    ensures Certificate(form, b, r, tau)
  {
    hide SystemOf, Rows, InPolytope, LegSum, EliminateTo, Certificate, Coef, Rhs, Times;
    var sys := SystemOf(form, b);
    var d := EliminateTo(sys, Rows(form), |form.order| + 1, 1);
    RowsProper(form, b);
    EliminateToProper(sys, Rows(form), |form.order| + 1, 1);
    if p :| p in d && Coef(sys, p, 0) == 0.0 && Rhs(sys, p) < 0.0 {
      r := EmptyCertificate(form, b, p, tau);
    } else {
      r := BestBound(form, b, d, tau);
    }
  }

  lemma {:induction false} BestBound(form: FacetForm, b: Basket, d: set<Combo<Tag>>, tau: real) returns (r: Combo<Tag>)
    requires IsBasket(b) && Distinct(form.order)
    requires forall z :: InPolytope(form.facets, form.order, z) ==> LegSum(b.vars, b.owner, b.x, z, |b.x|) >= tau
    requires d == EliminateTo(SystemOf(form, b), Rows(form), |form.order| + 1, 1) && Proper(SystemOf(form, b), d, 1)
    requires forall p :: p in d && Coef(SystemOf(form, b), p, 0) == 0.0 ==> Rhs(SystemOf(form, b), p) >= 0.0
    ensures Certificate(form, b, r, tau)
  {
    hide SystemOf, Rows, InPolytope, LegSum, EliminateTo, Certificate, Coef, Rhs, Times;
    var sys := SystemOf(form, b);
    var bounds := set p | p in d && Coef(sys, p, 0) < 0.0;
    var f := (p: Combo<Tag>) => if Coef(sys, p, 0) < 0.0 then Rhs(sys, p) / Coef(sys, p, 0) else 0.0;
    var t := tau - 1.0;
    if bounds != {} {
      var best := ArgMax(bounds, f);
      if f(best) >= tau {
        r := ScaleToUnit(form, b, best, tau);
        return;
      }
      if f(best) > t { t := f(best); }
    }
    forall p | p in d ensures Times(Coef(sys, p, 0), t) <= Rhs(sys, p) {
      Totals(form, b, p);
      MultNonNegative(p, Cost);
      TimesZero(t);
      if Coef(sys, p, 0) < 0.0 {
        assert p in bounds;
        BelowBound(Coef(sys, p, 0), Rhs(sys, p), t);
      }
    }
    var z := GainsLess(form, b, d, t);
    assert false;
  }

  // ---------- From the certificate to the LP's duals ----------

  lemma {:induction false} CertificateRows(form: FacetForm, b: Basket, gIndex: Option<nat>, r: Combo<Tag>, i: nat)
    requires IsBasket(b) && form.owner == b.owner && Distinct(form.order) && i < |form.order| && Clean(form, b, r)
    ensures |RowsOf(form, b.vars, gIndex).rows| == |form.order|
    ensures Eval(RowsOf(form, b.vars, gIndex).rows[i], Solution(b.x, DualList(form, r), MuOf(form, r))) >= 0.0
  {
    hide SystemOf, Coef, DualSum, RowsOf, Eval, DualList, Net;
    RowValue(form, b.vars, gIndex, Solution(b.x, DualList(form, r), MuOf(form, r)), i);
    Columns(form, b, r, i);
    Totals(form, b, r);
    MultNonNegative(r, Low(i));
    TimesOne(Net(b, {form.order[i]}));
    assert Basket(b.vars, form.owner, b.x) == b;
  }

  lemma {:induction false} CertificateDuals(form: FacetForm, b: Basket, gIndex: Option<nat>, r: Combo<Tag>, tau: real)
    requires IsBasket(b) && form.owner == b.owner && Distinct(form.order) && LegsInBounds(b.vars, b.x)
    requires Certificate(form, b, r, tau)
    requires tau + NoSum(b.vars, b.owner, b.x, |b.x|) - GValue(gIndex, b.x) >= Target(gIndex)
    ensures Feasible(form, b.vars, gIndex, Solution(b.x, DualList(form, r), MuOf(form, r)))
  {
    hide SystemOf, Coef, DualCover, RowsOf, Eval, Rhs, NoSum, Total;
    var s := Solution(b.x, DualList(form, r), MuOf(form, r));
    forall f | 0 <= f < |form.facets| && !form.facets[f].isEq ensures s.dual[f] >= 0.0 { MultNonNegative(r, Fac(f)); }
    forall i | 0 <= i < |form.order| ensures s.mu[i] >= 0.0 { MultNonNegative(r, Up(i)); }
    RowsWeighted(form, b.vars, gIndex, map[], s);
    forall i | 0 <= i < |form.order| ensures Eval(RowsOf(form, b.vars, gIndex).rows[i], s) >= 0.0 {
      CertificateRows(form, b, gIndex, r, i);
    }
    CoverValue(form, b.vars, gIndex, s);
    CoverRhs(form, b.vars, gIndex);
    Totals(form, b, r);
  }

  lemma {:induction false} CoverRhs(form: FacetForm, vars: seq<LPVar>, gIndex: Option<nat>)
    requires |form.owner| == |vars|
    ensures RowsOf(form, vars, gIndex).coverRhs == Target(gIndex)
  {
  }

  /** Strong duality with no assumption on the facets: whatever the sets, chains and edges, the facet LP accepts
      exactly the baskets that pay the target (1, or G) at every point of the facet polytope. */
  lemma {:induction false} AcceptsIffPaysOnPolytope(form: FacetForm, vars: seq<LPVar>, gIndex: Option<nat>,
                                                    x: seq<real>)
    requires Distinct(form.order) && Shape(vars, form.owner, x) && LegsInBounds(vars, x)
    ensures HasDuals(form, vars, gIndex, x) <==>
            forall z :: InPolytope(form.facets, form.order, z) ==> PaysTarget(vars, form.owner, gIndex, x, z)
  {
    hide Feasible, InPolytope, PaysTarget, LegSum, NoSum, Certificate;
    if HasDuals(form, vars, gIndex, x) {
      var dual: seq<real>, mu: seq<real> :| Feasible(form, vars, gIndex, Solution(x, dual, mu));
      forall z | InPolytope(form.facets, form.order, z) ensures PaysTarget(vars, form.owner, gIndex, x, z) {
        WeakDuality(form, vars, gIndex, Solution(x, dual, mu), z);
      }
    }
    if forall z :: InPolytope(form.facets, form.order, z) ==> PaysTarget(vars, form.owner, gIndex, x, z) {
      var b := Basket(vars, form.owner, x);
      var tau := Target(gIndex) + GValue(gIndex, x) - NoSum(vars, form.owner, x, |x|);
      forall z | InPolytope(form.facets, form.order, z) ensures LegSum(vars, form.owner, x, z, |x|) >= tau {
        PaysAsLegSum(form, vars, gIndex, x, z);
      }
      var r := FindCertificate(form, b, tau);
      CertificateDuals(form, b, gIndex, r, tau);
    }
  }

  lemma {:induction false} PaysAsLegSum(form: FacetForm, vars: seq<LPVar>, gIndex: Option<nat>, x: seq<real>, z: Point)
    requires Shape(vars, form.owner, x)
    ensures PaysTarget(vars, form.owner, gIndex, x, z) <==>
            LegSum(vars, form.owner, x, z, |x|) >= Target(gIndex) + GValue(gIndex, x) - NoSum(vars, form.owner, x, |x|)
  {
    PayoutSplit(vars, form.owner, x, z, |x|);
  }
}
