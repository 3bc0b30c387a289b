/** The facet polytope of services/arb-solver/src/solver/facet-lp.ts as a system of inequalities, and what a
    combination of them stands for in the facet LP: its coefficients are the LP's rows, its right-hand side the
    cover row. */
module FacetComplete {
  import opened Wrappers
  import opened Graph
  import opened Omega
  import opened Lp
  import opened FacetLp
  import opened LpBuilder
  import opened FacetExact
  import opened Elimination

  /** Inequalities over t (variable 0) and the questions: t bounds the basket's net gain, each facet (and its
      negation when it is an equation), and the box. */
  datatype Tag = Cost | Fac(f: nat) | Neg(f: nat) | Low(q: nat) | Up(q: nat)

  function UnitFacet(form: FacetForm, f: nat, i: nat): real {
    if f < |form.facets| && i < |form.order| then FacetAt(form.facets[f], Ind({form.order[i]})) else 0.0
  }

  function CoefOf(form: FacetForm, b: Basket, l: Tag, j: nat): real
    requires IsBasket(b)
  {
    match l
    case Cost => if j == 0 then -1.0 else if j <= |form.order| then Net(b, {form.order[j - 1]}) else 0.0
    case Fac(f) => if j == 0 then 0.0 else UnitFacet(form, f, j - 1)
    case Neg(f) => if j == 0 || f >= |form.facets| || !form.facets[f].isEq then 0.0 else -UnitFacet(form, f, j - 1)
    case Low(q) => if j == q + 1 && q < |form.order| then -1.0 else 0.0
    case Up(q) => if j == q + 1 && q < |form.order| then 1.0 else 0.0
  }

  function RhsOf(form: FacetForm, l: Tag): real {
    match l
    case Cost => 0.0
    case Fac(f) => if f < |form.facets| then form.facets[f].rhs else 0.0
    case Neg(f) => if f < |form.facets| && form.facets[f].isEq then -form.facets[f].rhs else 0.0
    case Low(_) => 0.0
    case Up(q) => if q < |form.order| then 1.0 else 0.0
  }

  function SystemOf(form: FacetForm, b: Basket): System<Tag>
    requires IsBasket(b)
  {
    System((l: Tag, j: nat) => CoefOf(form, b, l, j), (l: Tag) => RhsOf(form, l))
  }

  function Rows(form: FacetForm): set<Combo<Tag>> {
    {Given(Cost)} + (set f: nat | f < |form.facets| :: Given(Fac(f))) +
      (set f: nat | f < |form.facets| :: Given(Neg(f)))
    + (set q: nat | q < |form.order| :: Given(Low(q))) + (set q: nat | q < |form.order| :: Given(Up(q)))
  }

  // ---------- Multipliers ----------

  function Mult(p: Combo<Tag>, l: Tag): real {
    match p
    case Given(k) => if k == l then 1.0 else 0.0
    case Plus(a, c) => Mult(a, l) + Mult(c, l)
    case Scaled(c, a) => Elimination.Times(c, Mult(a, l))
  }

  lemma {:induction false} MultNonNegative(p: Combo<Tag>, l: Tag)
    requires NonNegative(p)
    ensures Mult(p, l) >= 0.0
    decreases p
  {
    match p
    case Given(_) =>
    case Plus(a, c) => MultNonNegative(a, l); MultNonNegative(c, l);
    case Scaled(c, a) => MultNonNegative(a, l);
  }

  /** The facet duals a combination stands for, in the LP's sign convention. */
  function DualList(form: FacetForm, p: Combo<Tag>): (d: seq<real>)
    ensures |d| == |form.facets|
  {
    seq(|form.facets|, f requires 0 <= f < |form.facets| =>
      if form.facets[f].isEq then Mult(p, Neg(f)) - Mult(p, Fac(f)) else Mult(p, Fac(f)))
  }

  function MuOf(form: FacetForm, p: Combo<Tag>): (m: seq<real>)
    ensures |m| == |form.order|
  {
    seq(|form.order|, q requires 0 <= q < |form.order| => Mult(p, Up(q)))
  }

  // ---------- Duals add up linearly ----------

  lemma {:induction false} DualSumPlus(facets: seq<Facet>, d: seq<real>, e: seq<real>, s: seq<real>, z: Point, k: nat)
    requires k <= |facets| == |d| == |e| == |s| && forall i :: 0 <= i < |s| ==> s[i] == d[i] + e[i]
    ensures DualSum(facets, s, z, k) == DualSum(facets, d, z, k) + DualSum(facets, e, z, k)
    ensures DualCover(facets, s, k) == DualCover(facets, d, k) + DualCover(facets, e, k)
  {
    hide FacetAt;
    if k > 0 {
      DualSumPlus(facets, d, e, s, z, k - 1);
      SignedPlus(facets[k - 1], d[k - 1], e[k - 1], FacetAt(facets[k - 1], z));
      SignedPlus(facets[k - 1], d[k - 1], e[k - 1], facets[k - 1].rhs);
    }
  }

  lemma {:induction false} SignedPlus(f: Facet, a: real, b: real, v: real)
    ensures Signed(f, a + b) * v == Signed(f, a) * v + Signed(f, b) * v
  {
  }

  /** One more facet of the two sums. */
  lemma {:induction false} DualLast(facets: seq<Facet>, d: seq<real>, z: Point, k: nat)
    requires 0 < k <= |facets| == |d|
    ensures DualSum(facets, d, z, k) == DualSum(facets, d, z, k - 1) +
              Elimination.Times(Signed(facets[k - 1], d[k - 1]), FacetAt(facets[k - 1], z))
    ensures DualCover(facets, d, k) == DualCover(facets, d, k - 1) - Elimination.Times(Signed(facets[k - 1], d[k - 1]),
                facets[k - 1].rhs)
  {
  }

  lemma {:induction false} DualSumScaled(facets: seq<Facet>, c: real, d: seq<real>, s: seq<real>, z: Point, k: nat)
    requires k <= |facets| == |d| == |s| && forall i :: 0 <= i < |s| ==> s[i] == Elimination.Times(c, d[i])
    ensures DualSum(facets, s, z, k) == Elimination.Times(c, DualSum(facets, d, z, k))
    ensures DualCover(facets, s, k) == Elimination.Times(c, DualCover(facets, d, k))
  {
    if k == 0 {
      TimesZero(c);
    } else {
      hide FacetAt, DualSum, DualCover, Signed, Elimination.Times;
      DualSumScaled(facets, c, d, s, z, k - 1);
      DualLast(facets, s, z, k);
      DualLast(facets, d, z, k);
      var f := facets[k - 1];
      SignedScaled(f, c, d[k - 1], FacetAt(f, z));
      SignedScaled(f, c, d[k - 1], f.rhs);
      ScaledSum(c, DualSum(facets, d, z, k - 1), Elimination.Times(Signed(f, d[k - 1]), FacetAt(f, z)));
      ScaledSum(c, DualCover(facets, d, k - 1), -Elimination.Times(Signed(f, d[k - 1]), f.rhs));
      ScaledNeg(c, Elimination.Times(Signed(f, d[k - 1]), f.rhs));
    }
  }

  lemma {:induction false} SignedScaled(f: Facet, c: real, a: real, v: real)
    ensures Elimination.Times(Signed(f, Elimination.Times(c, a)), v) ==
              Elimination.Times(c, Elimination.Times(Signed(f, a), v))
  {
    TripleProduct(c, a, v);
    TripleProduct(c, -a, v);
    assert -(c * a) == c * -a;
  }

  lemma {:induction false} ScaledSum(c: real, a: real, b: real)
    ensures Elimination.Times(c, a + b) == Elimination.Times(c, a) + Elimination.Times(c, b)
  {
  }

  lemma {:induction false} ScaledNeg(c: real, a: real)
    ensures Elimination.Times(c, -a) == -Elimination.Times(c, a)
  {
  }

  /** One facet with signed dual s, the rest 0. */
  lemma {:induction false} DualSumUnit(facets: seq<Facet>, d: seq<real>, f: nat, z: Point, k: nat)
    requires k <= |facets| == |d| && forall i :: 0 <= i < |d| && i != f ==> d[i] == 0.0
    ensures DualSum(facets, d, z, k) == if f < k then Signed(facets[f], d[f]) * FacetAt(facets[f], z) else 0.0
    ensures DualCover(facets, d, k) == if f < k then -(Signed(facets[f], d[f]) * facets[f].rhs) else 0.0
  {
    hide FacetAt;
    if k > 0 { DualSumUnit(facets, d, f, z, k - 1); }
  }

  lemma {:induction false} TotalPlus(d: seq<real>, e: seq<real>, s: seq<real>, k: nat)
    requires k <= |d| == |e| == |s| && forall i :: 0 <= i < |s| ==> s[i] == d[i] + e[i]
    ensures Total(s, k) == Total(d, k) + Total(e, k)
  {
    if k > 0 { TotalPlus(d, e, s, k - 1); }
  }

  lemma {:induction false} TotalScaled(c: real, d: seq<real>, s: seq<real>, k: nat)
    requires k <= |d| == |s| && forall i :: 0 <= i < |s| ==> s[i] == Elimination.Times(c, d[i])
    ensures Total(s, k) == Elimination.Times(c, Total(d, k))
  {
    if k > 0 {
      TotalScaled(c, d, s, k - 1);
      ScaledSum(c, Total(d, k - 1), d[k - 1]);
    }
  }

  lemma {:induction false} TotalUnit(d: seq<real>, q: nat, k: nat)
    requires k <= |d| && forall i :: 0 <= i < |d| && i != q ==> d[i] == 0.0
    ensures Total(d, k) == if q < k then d[q] else 0.0
  {
    if k > 0 { TotalUnit(d, q, k - 1); }
  }

  // ---------- A combination's coefficients are the LP's rows ----------

  /** Column i + 1 of a combination is the LP row of question i without its slack, and column 0 counts t. */
  ghost predicate ColumnIs(form: FacetForm, b: Basket, p: Combo<Tag>, i: nat)
    requires IsBasket(b) && i < |form.order|
  {
    Coef(SystemOf(form, b), p, i + 1) ==
    Elimination.Times(Mult(p, Cost), Net(b, {form.order[i]})) +
      DualSum(form.facets, DualList(form, p), Ind({form.order[i]}), |form.facets|)
      - Mult(p, Low(i)) + Mult(p, Up(i))
  }

  ghost predicate TotalsAre(form: FacetForm, b: Basket, p: Combo<Tag>)
    requires IsBasket(b)
  {
    && Rhs(SystemOf(form, b), p) == -DualCover(form.facets, DualList(form, p), |form.facets|) +
         Total(MuOf(form, p), |form.order|)
    && Coef(SystemOf(form, b), p, 0) == -Mult(p, Cost)
  }

  lemma {:induction false} GivenColumn(form: FacetForm, b: Basket, l: Tag, i: nat)
    requires IsBasket(b) && i < |form.order|
    ensures ColumnIs(form, b, Given(l), i)
  {
    hide DualSum, FacetAt, Net, Ind, DualCover;
    var d, z := DualList(form, Given(l)), Ind({form.order[i]});
    var f := match l case Fac(f) => f case Neg(f) => f case _ => |form.facets|;
    DualSumUnit(form.facets, d, f, z, |form.facets|);
    TimesZero(Net(b, {form.order[i]}));
    TimesOne(Net(b, {form.order[i]}));
    if f < |form.facets| { UnitSign(FacetAt(form.facets[f], z)); }
  }

  lemma {:induction false} TimesOne(a: real)
    ensures Elimination.Times(1.0, a) == a
  {
  }

  lemma {:induction false} UnitSign(v: real)
    ensures 1.0 * v == v && -1.0 * v == -v && 0.0 * v == 0.0
  {
  }

  lemma {:induction false} GivenTotals(form: FacetForm, b: Basket, l: Tag)
    requires IsBasket(b)
    ensures TotalsAre(form, b, Given(l))
  {
    hide DualCover, FacetAt, Net, Total, DualSum;
    var d, m := DualList(form, Given(l)), MuOf(form, Given(l));
    var f := match l case Fac(f) => f case Neg(f) => f case _ => |form.facets|;
    var q := match l case Up(q) => q case _ => |form.order|;
    DualSumUnit(form.facets, d, f, map[], |form.facets|);
    TotalUnit(m, q, |form.order|);
    if f < |form.facets| { UnitSign(form.facets[f].rhs); }
  }

  lemma {:induction false} PlusColumn(form: FacetForm, b: Basket, p: Combo<Tag>, r: Combo<Tag>, i: nat)
    requires IsBasket(b) && i < |form.order| && ColumnIs(form, b, p, i) && ColumnIs(form, b, r, i)
    ensures ColumnIs(form, b, Plus(p, r), i)
  {
    hide DualSum, Net, Ind, Elimination.Times, DualCover, SystemOf;
    DualSumPlus(form.facets, DualList(form, p), DualList(form, r), DualList(form, Plus(p, r)), Ind({form.order[i]}),
                |form.facets|);
    Elimination.TimesPlus(Mult(p, Cost), Mult(r, Cost), Net(b, {form.order[i]}));
  }

  lemma {:induction false} PlusTotals(form: FacetForm, b: Basket, p: Combo<Tag>, r: Combo<Tag>)
    requires IsBasket(b) && TotalsAre(form, b, p) && TotalsAre(form, b, r)
    ensures TotalsAre(form, b, Plus(p, r))
  {
    hide DualSum, DualCover, Total, SystemOf;
    DualSumPlus(form.facets, DualList(form, p), DualList(form, r), DualList(form, Plus(p, r)), map[], |form.facets|);
    TotalPlus(MuOf(form, p), MuOf(form, r), MuOf(form, Plus(p, r)), |form.order|);
  }

  lemma {:induction false} ScaledDuals(form: FacetForm, c: real, p: Combo<Tag>)
    ensures forall f :: 0 <= f < |form.facets| ==>
              DualList(form, Scaled(c, p))[f] == Elimination.Times(c, DualList(form, p)[f])
  {
    forall f | 0 <= f < |form.facets| ensures DualList(form, Scaled(c, p))[f] ==
             Elimination.Times(c, DualList(form, p)[f]) {
      ScaledSum(c, Mult(p, Neg(f)), -Mult(p, Fac(f)));
      ScaledNeg(c, Mult(p, Fac(f)));
    }
  }

  lemma {:induction false} ScaledColumn(form: FacetForm, b: Basket, c: real, p: Combo<Tag>, i: nat)
    requires IsBasket(b) && i < |form.order| && ColumnIs(form, b, p, i)
    ensures ColumnIs(form, b, Scaled(c, p), i)
  {
    hide DualSum, Net, Ind, Elimination.Times, DualCover, SystemOf;
    var net, sum := Net(b, {form.order[i]}), DualSum(form.facets, DualList(form, p), Ind({form.order[i]}),
                                                     |form.facets|);
    ScaledDuals(form, c, p);
    DualSumScaled(form.facets, c, DualList(form, p), DualList(form, Scaled(c, p)), Ind({form.order[i]}), |form.facets|);
    TimesTwice(c, Mult(p, Cost), net);
    var k := Elimination.Times(Mult(p, Cost), net);
    ScaledSum(c, k + sum - Mult(p, Low(i)), Mult(p, Up(i)));
    ScaledSum(c, k + sum, -Mult(p, Low(i)));
    ScaledSum(c, k, sum);
    ScaledNeg(c, Mult(p, Low(i)));
  }

  lemma {:induction false} ScaledTotals(form: FacetForm, b: Basket, c: real, p: Combo<Tag>)
    requires IsBasket(b) && TotalsAre(form, b, p)
    ensures TotalsAre(form, b, Scaled(c, p))
  {
    hide DualSum, DualCover, Total, Elimination.Times, SystemOf;
    ScaledDuals(form, c, p);
    DualSumScaled(form.facets, c, DualList(form, p), DualList(form, Scaled(c, p)), map[], |form.facets|);
    TotalScaled(c, MuOf(form, p), MuOf(form, Scaled(c, p)), |form.order|);
    var cover, total := DualCover(form.facets, DualList(form, p), |form.facets|), Total(MuOf(form, p), |form.order|);
    ScaledSum(c, -cover, total);
    ScaledNeg(c, cover);
    ScaledNeg(c, Mult(p, Cost));
  }

  /** For every combination of the system's inequalities. */
  lemma {:induction false} Columns(form: FacetForm, b: Basket, p: Combo<Tag>, i: nat)
    requires IsBasket(b) && i < |form.order|
    ensures ColumnIs(form, b, p, i)
    decreases p
  {
    hide ColumnIs;
    match p
    case Given(l) => GivenColumn(form, b, l, i);
    case Plus(a, r) =>
      Columns(form, b, a, i);
      Columns(form, b, r, i);
      PlusColumn(form, b, a, r, i);
    case Scaled(c, a) =>
      Columns(form, b, a, i);
      ScaledColumn(form, b, c, a, i);
  }

  lemma {:induction false} Totals(form: FacetForm, b: Basket, p: Combo<Tag>)
    requires IsBasket(b)
    ensures TotalsAre(form, b, p)
    decreases p
  {
    hide TotalsAre;
    match p
    case Given(l) => GivenTotals(form, b, l);
    case Plus(a, r) =>
      Totals(form, b, a);
      Totals(form, b, r);
      PlusTotals(form, b, a, r);
    case Scaled(c, a) =>
      Totals(form, b, a);
      ScaledTotals(form, b, c, a);
  }
}
