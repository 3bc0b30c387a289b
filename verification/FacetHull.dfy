/** Exactly when the facet LP of services/arb-solver/src/solver/facet-lp.ts is exact: on the clusters whose facet
    polytope is integral, i.e. every point of it is a mixture of worlds of Ω. */
module FacetHull {
  import opened Wrappers
  import opened Graph
  import opened Omega
  import opened Lp
  import opened FacetLp
  import opened LpBuilder
  import opened FacetExact
  import opened Elimination
  import opened FacetComplete
  import opened FacetDuality

  /** Value of question q in the mixture of the first k worlds. */
  function Blend(ws: seq<World>, lam: seq<real>, q: int, k: nat): real
    requires k <= |ws| == |lam|
  {
    if k == 0 then 0.0 else Blend(ws, lam, q, k - 1) + Times(lam[k - 1], At(PointOf(ws[k - 1]), q))
  }

  /** Worlds of Ω with weights >= 0. */
  ghost predicate Weights(c: Cluster, unquoted: set<int>, ws: seq<World>, lam: seq<real>) {
    && |ws| == |lam|
    && (forall i :: 0 <= i < |ws| ==> InOmega(c, unquoted, ws[i]))
    && (forall i :: 0 <= i < |lam| ==> lam[i] >= 0.0)
  }

  ghost predicate MixtureOf(c: Cluster, unquoted: set<int>, z: Point, ws: seq<World>, lam: seq<real>) {
    && Weights(c, unquoted, ws, lam)
    && Total(lam, |lam|) == 1.0
    && forall q :: q in c.qids ==> At(z, q) == Blend(ws, lam, q, |ws|)
  }

  ghost predicate Mixture(c: Cluster, unquoted: set<int>, z: Point) {
    exists ws: seq<World>, lam: seq<real> :: MixtureOf(c, unquoted, z, ws, lam)
  }

  /** The facet polytope is the convex hull of Ω. */
  ghost predicate Integral(c: Cluster, unquoted: set<int>) {
    forall z :: InPolytope(Facets(Interpret(c, unquoted).constraints), c.qids, z) ==> Mixture(c, unquoted, z)
  }

  /** The facet LP accepts this basket exactly when every world row does. */
  ghost predicate AgreesOn(c: Cluster, unquoted: set<int>, vars: seq<LPVar>, owner: seq<int>, gIndex: Option<nat>,
                           x: seq<real>)
    requires Shape(vars, owner, x)
  {
    HasDuals(FormOf(c, unquoted, owner), vars, gIndex, x) <==>
    forall w :: InOmega(c, unquoted, w) ==> RowHolds(vars, owner, gIndex, x, w)
  }

  /** The two engines accept the same baskets, whatever the legs. */
  ghost predicate Exact(c: Cluster, unquoted: set<int>) {
    forall vars: seq<LPVar>, owner: seq<int>, gIndex: Option<nat>, x: seq<real> ::
      Shape(vars, owner, x) && GPlaced(owner, gIndex) && LegsInBounds(vars, x) ==>
        AgreesOn(c, unquoted, vars, owner, gIndex, x)
  }

  // ---------- Integral polytopes are exact ----------

  /** Net gain of the first k legs, averaged over the first m worlds. */
  function BlendGain(b: Basket, ws: seq<World>, lam: seq<real>, k: nat, m: nat): real
    requires IsBasket(b) && k <= |b.x| && m <= |ws| == |lam|
  {
    if m == 0 then 0.0 else
      BlendGain(b, ws, lam, k, m - 1) + Times(lam[m - 1], LegSum(b.vars, b.owner, b.x, PointOf(ws[m - 1]), k))
  }

  lemma {:induction false} GainOfNextLeg(b: Basket, ws: seq<World>, lam: seq<real>, k: nat, m: nat)
    requires IsBasket(b) && 0 < k <= |b.x| && m <= |ws| == |lam|
    ensures BlendGain(b, ws, lam, k, m) ==
            BlendGain(b, ws, lam, k - 1, m) + Times(LegWeight(b, k - 1), Blend(ws, lam, b.owner[k - 1], m))
  {
    hide LegSum, LegWeight, Times, PointOf, At;
    var a := LegWeight(b, k - 1);
    if m == 0 {
      TimesZero(a);
    } else {
      GainOfNextLeg(b, ws, lam, k, m - 1);
      var l, v := lam[m - 1], At(PointOf(ws[m - 1]), b.owner[k - 1]);
      LegSumLast(b, PointOf(ws[m - 1]), k);
      TimesPlus(LegSum(b.vars, b.owner, b.x, PointOf(ws[m - 1]), k - 1), Times(a, v), l);
      TimesPlus(Blend(ws, lam, b.owner[k - 1], m - 1), Times(l, v), a);
      Swap(a, l, v);
    }
  }

  lemma {:induction false} Swap(a: real, l: real, v: real)
    ensures Times(a, Times(l, v)) == Times(l, Times(a, v))
  {
    TimesTwice(a, l, v);
    TimesTwice(l, a, v);
    assert Times(a, l) == Times(l, a);
  }

  lemma {:induction false} GainOfMixture(b: Basket, z: Point, ws: seq<World>, lam: seq<real>, k: nat)
    requires IsBasket(b) && k <= |b.x| && |ws| == |lam|
    requires forall q :: At(z, q) == Blend(ws, lam, q, |ws|)
    ensures LegSum(b.vars, b.owner, b.x, z, k) == BlendGain(b, ws, lam, k, |ws|)
  {
    hide LegSum, LegWeight, Times, Blend, At, BlendGain;
    if k == 0 {
      NoLegsNoGain(b, ws, lam, |ws|);
      LegSumNoLegs(b, z);
    } else {
      GainOfMixture(b, z, ws, lam, k - 1);
      LegSumLast(b, z, k);
      GainOfNextLeg(b, ws, lam, k, |ws|);
      assert At(z, b.owner[k - 1]) == Blend(ws, lam, b.owner[k - 1], |ws|);
    }
  }

  lemma {:induction false} LegSumNoLegs(b: Basket, z: Point)
    requires IsBasket(b)
    ensures LegSum(b.vars, b.owner, b.x, z, 0) == 0.0
  {
  }

  lemma {:induction false} NoLegsNoGain(b: Basket, ws: seq<World>, lam: seq<real>, m: nat)
    requires IsBasket(b) && m <= |ws| == |lam|
    ensures BlendGain(b, ws, lam, 0, m) == 0.0
  {
    if m > 0 {
      NoLegsNoGain(b, ws, lam, m - 1);
      LegSumNoLegs(b, PointOf(ws[m - 1]));
      TimesZero(lam[m - 1]);
    }
  }

  lemma {:induction false} GainAtLeast(b: Basket, ws: seq<World>, lam: seq<real>, tau: real, m: nat)
    requires IsBasket(b) && m <= |ws| == |lam|
    requires forall i :: 0 <= i < m ==> lam[i] >= 0.0 && LegSum(b.vars, b.owner, b.x, PointOf(ws[i]), |b.x|) >= tau
    ensures BlendGain(b, ws, lam, |b.x|, m) >= Times(tau, Total(lam, m))
  {
    hide LegSum, Times, PointOf;
    if m == 0 {
      TimesZero(tau);
    } else {
      GainAtLeast(b, ws, lam, tau, m - 1);
      Monotone(lam[m - 1], tau, LegSum(b.vars, b.owner, b.x, PointOf(ws[m - 1]), |b.x|));
      TimesPlus(Total(lam, m - 1), lam[m - 1], tau);
    }
  }

  lemma {:induction false} Monotone(l: real, a: real, v: real)
    requires l >= 0.0 && v >= a
    ensures Times(l, v) >= Times(a, l)
  {
    assert l * (v - a) >= 0.0;
  }

  /** Outside the cluster's questions both sides are 0. */
  lemma {:induction false} BlendOutside(c: Cluster, unquoted: set<int>, ws: seq<World>, lam: seq<real>, q: int, k: nat)
    requires Weights(c, unquoted, ws, lam) && k <= |ws| && q !in c.qids
    ensures Blend(ws, lam, q, k) == 0.0
  {
    hide Omega.AllHold, Interpret;
    if k > 0 {
      BlendOutside(c, unquoted, ws, lam, q, k - 1);
      assert InOmega(c, unquoted, ws[k - 1]);
      assert q !in ws[k - 1].Keys;
      TimesZero(lam[k - 1]);
    }
  }

  lemma {:induction false} MixturePays(c: Cluster, unquoted: set<int>, b: Basket, gIndex: Option<nat>, z: Point)
    requires IsBasket(b) && Mixture(c, unquoted, z) && forall q :: q in z ==> q in c.qids
    requires forall w :: InOmega(c, unquoted, w) ==> PaysTarget(b.vars, b.owner, gIndex, b.x, PointOf(w))
    ensures PaysTarget(b.vars, b.owner, gIndex, b.x, z)
  {
    hide InOmega, PaysTarget, LegSum, NoSum, Blend, BlendGain, Total, PointOf, FormOf;
    var ws: seq<World>, lam: seq<real> :| MixtureOf(c, unquoted, z, ws, lam);
    forall q ensures At(z, q) == Blend(ws, lam, q, |ws|) {
      if q !in c.qids { BlendOutside(c, unquoted, ws, lam, q, |ws|); }
    }
    var form := FormOf(c, unquoted, b.owner);
    FormOwner(c, unquoted, b.owner);
    var tau := Target(gIndex) + GValue(gIndex, b.x) - NoSum(b.vars, b.owner, b.x, |b.x|);
    forall i | 0 <= i < |ws| ensures LegSum(b.vars, b.owner, b.x, PointOf(ws[i]), |b.x|) >= tau {
      PaysAsLegSum(form, b.vars, gIndex, b.x, PointOf(ws[i]));
    }
    GainOfMixture(b, z, ws, lam, |b.x|);
    GainAtLeast(b, ws, lam, tau, |ws|);
    PaysAsLegSum(form, b.vars, gIndex, b.x, z);
  }

  lemma {:induction false} FormOwner(c: Cluster, unquoted: set<int>, owner: seq<int>)
    ensures FormOf(c, unquoted, owner).owner == owner && FormOf(c, unquoted, owner).order == c.qids
    ensures FormOf(c, unquoted, owner).facets == Facets(Interpret(c, unquoted).constraints)
  {
  }

  lemma {:induction false} DualsPayWorlds(c: Cluster, unquoted: set<int>, vars: seq<LPVar>, owner: seq<int>,
                                          gIndex: Option<nat>, x: seq<real>)
    requires Distinct(c.qids) && GPlaced(owner, gIndex) && Shape(vars, owner, x)
    requires HasDuals(FormOf(c, unquoted, owner), vars, gIndex, x)
    ensures forall w :: InOmega(c, unquoted, w) ==> RowHolds(vars, owner, gIndex, x, w)
  {
    hide InOmega, RowHolds, Feasible, FormOf;
    var dual: seq<real>, mu: seq<real> :| Feasible(FormOf(c, unquoted, owner), vars, gIndex, Solution(x, dual, mu));
    forall w | InOmega(c, unquoted, w) ensures RowHolds(vars, owner, gIndex, x, w) {
      FacetSoundness(c, unquoted, vars, owner, gIndex, Solution(x, dual, mu), w);
    }
  }

  lemma {:induction false} IntegralAgrees(c: Cluster, unquoted: set<int>, vars: seq<LPVar>, owner: seq<int>,
                                          gIndex: Option<nat>, x: seq<real>)
    requires Distinct(c.qids) && Integral(c, unquoted)
    requires Shape(vars, owner, x) && GPlaced(owner, gIndex) && LegsInBounds(vars, x)
    ensures AgreesOn(c, unquoted, vars, owner, gIndex, x)
  {
    hide InOmega, RowHolds, HasDuals, FormOf, Mixture, PaysTarget, Interpret, Facets;
    var form := FormOf(c, unquoted, owner);
    FormOwner(c, unquoted, owner);
    if HasDuals(form, vars, gIndex, x) {
      DualsPayWorlds(c, unquoted, vars, owner, gIndex, x);
    }
    if forall w :: InOmega(c, unquoted, w) ==> RowHolds(vars, owner, gIndex, x, w) {
      forall w | InOmega(c, unquoted, w) ensures PaysTarget(vars, owner, gIndex, x, PointOf(w)) {
        RowMeans(vars, owner, gIndex, x, w);
      }
      forall z | InPolytope(form.facets, form.order, z) ensures PaysTarget(vars, owner, gIndex, x, z) {
        assert Mixture(c, unquoted, z);
        MixturePays(c, unquoted, Basket(vars, owner, x), gIndex, z);
      }
      AcceptsIffPaysOnPolytope(form, vars, gIndex, x);
    }
  }

  // ---------- A point that is no mixture is cut off by some basket ----------

  /** Unknowns: one coefficient per question. World w of Ω asks that its value exceed z's by at least 1. */
  ghost function Separation(c: Cluster, unquoted: set<int>, z: Point): System<World> {
    System((w: World, j: nat) => if InOmega(c, unquoted, w) && j < |c.qids| then At(z, c.qids[j]) - At(PointOf(w),
        c.qids[j]) else 0.0,
           (w: World) => if InOmega(c, unquoted, w) then -1.0 else 0.0)
  }

  function Cube(order: seq<int>, k: nat): set<World>
    requires k <= |order|
  {
    if k == 0 then {map[]} else
      var rest := Cube(order, k - 1);
      (set w | w in rest :: w[order[k - 1] := true]) + (set w | w in rest :: w[order[k - 1] := false])
  }

  lemma {:induction false} CubeHasAll(order: seq<int>, k: nat, w: World)
    requires k <= |order| && Distinct(order) && w.Keys == SetOf(order[..k])
    ensures w in Cube(order, k)
  {
    if k == 0 {
      assert w == map[];
    } else {
      var q := order[k - 1];
      var v := Restrict(w, SetOf(order[..k - 1]));
      assert order[..k] == order[..k - 1] + [q];
      CubeHasAll(order, k - 1, v);
      assert w == v[q := w[q]];
      var rest := Cube(order, k - 1);
      if w[q] {
        assert w in (set v | v in rest :: v[q := true]);
      } else {
        assert w in (set v | v in rest :: v[q := false]);
      }
    }
  }

  ghost function WorldRowsOf(c: Cluster): set<Combo<World>> {
    set w | w in Cube(c.qids, |c.qids|) :: Given(w)
  }

  lemma {:induction false} WorldHasRow(c: Cluster, unquoted: set<int>, w: World)
    requires Distinct(c.qids) && InOmega(c, unquoted, w)
    ensures Given(w) in WorldRowsOf(c)
  {
    hide Omega.AllHold, Cube;
    assert c.qids[..|c.qids|] == c.qids;
    CubeHasAll(c.qids, |c.qids|, w);
  }

  lemma {:induction false} WorldRowsProper(c: Cluster, unquoted: set<int>, z: Point)
    ensures Proper(Separation(c, unquoted, z), WorldRowsOf(c), |c.qids|)
  {
    hide InOmega, Cube;
    forall p | p in WorldRowsOf(c)
      ensures NonNegative(p) && forall j :: j >= |c.qids| ==> Coef(Separation(c, unquoted, z), p, j) == 0.0
    {
      assert p.Given?;
    }
  }

  // ---------- A contradiction among the rows is a mixture ----------

  lemma {:induction false} BlendPrefix(ws: seq<World>, lam: seq<real>, vs: seq<World>, mu: seq<real>, q: int, k: nat)
    requires |ws| == |lam| && |vs| == |mu| && k <= |ws|
    ensures Blend(ws + vs, lam + mu, q, k) == Blend(ws, lam, q, k) && Total(lam + mu, k) == Total(lam, k)
  {
    if k > 0 { BlendPrefix(ws, lam, vs, mu, q, k - 1); }
  }

  lemma {:induction false} BlendConcat(ws: seq<World>, lam: seq<real>, vs: seq<World>, mu: seq<real>, q: int, k: nat)
    requires |ws| == |lam| && |vs| == |mu| && k <= |vs|
    ensures Blend(ws + vs, lam + mu, q, |ws| + k) == Blend(ws, lam, q, |ws|) + Blend(vs, mu, q, k)
    ensures Total(lam + mu, |lam| + k) == Total(lam, |lam|) + Total(mu, k)
  {
    if k == 0 {
      BlendPrefix(ws, lam, vs, mu, q, |ws|);
    } else {
      BlendConcat(ws, lam, vs, mu, q, k - 1);
    }
  }

  function ScaleAll(c: real, lam: seq<real>): (s: seq<real>)
    ensures |s| == |lam|
  {
    seq(|lam|, i requires 0 <= i < |lam| => Times(c, lam[i]))
  }

  lemma {:induction false} BlendScaled(c: real, ws: seq<World>, lam: seq<real>, q: int, k: nat)
    requires |ws| == |lam| && k <= |ws|
    ensures Blend(ws, ScaleAll(c, lam), q, k) == Times(c, Blend(ws, lam, q, k))
    ensures Total(ScaleAll(c, lam), k) == Times(c, Total(lam, k))
  {
    hide Times, PointOf, At;
    if k == 0 {
      TimesZero(c);
    } else {
      BlendScaled(c, ws, lam, q, k - 1);
      var v := At(PointOf(ws[k - 1]), q);
      TimesTwice(c, lam[k - 1], v);
      TimesPlus(Blend(ws, lam, q, k - 1), Times(lam[k - 1], v), c);
      TimesPlus(Total(lam, k - 1), lam[k - 1], c);
    }
  }

  /** The weights read off a combination reproduce its coefficients and its right-hand side. */
  ghost predicate Reads(c: Cluster, unquoted: set<int>, z: Point, p: Combo<World>, ws: seq<World>, lam: seq<real>) {
    && Weights(c, unquoted, ws, lam)
    && Rhs(Separation(c, unquoted, z), p) == -Total(lam, |lam|)
    && forall j: nat :: j < |c.qids| ==> CoefReads(c, unquoted, z, p, ws, lam, j)
  }

  ghost predicate CoefReads(c: Cluster, unquoted: set<int>, z: Point, p: Combo<World>, ws: seq<World>, lam: seq<real>,
                            j: nat)
    requires j < |c.qids| && |ws| == |lam|
  {
    Coef(Separation(c, unquoted, z), p, j) == Times(Total(lam, |lam|), At(z, c.qids[j])) - Blend(ws, lam, c.qids[j],
        |ws|)
  }

  lemma {:induction false} ReadGiven(c: Cluster, unquoted: set<int>, z: Point, w: World)
    returns (ws: seq<World>, lam: seq<real>)
    ensures Reads(c, unquoted, z, Given(w), ws, lam)
  {
    hide InOmega, PointOf, At;
    var sys := Separation(c, unquoted, z);
    if InOmega(c, unquoted, w) {
      ws, lam := [w], [1.0];
      assert Total(lam, 0) == 0.0;
      forall j: nat | j < |c.qids| ensures CoefReads(c, unquoted, z, Given(w), ws, lam, j) {
        assert Blend(ws, lam, c.qids[j], 0) == 0.0;
        assert Coef(sys, Given(w), j) == At(z, c.qids[j]) - At(PointOf(w), c.qids[j]);
      }
    } else {
      ws, lam := [], [];
    }
  }

  lemma {:induction false} ReadPlus(c: Cluster, unquoted: set<int>, z: Point, p: Combo<World>, r: Combo<World>,
      ws: seq<World>, lam: seq<real>, vs: seq<World>, mu: seq<real>)
    requires Reads(c, unquoted, z, p, ws, lam) && Reads(c, unquoted, z, r, vs, mu)
    ensures Reads(c, unquoted, z, Plus(p, r), ws + vs, lam + mu)
  {
    hide InOmega, At, Times, Blend, Separation, Total;
    BlendConcat(ws, lam, vs, mu, 0, |vs|);
    forall j: nat | j < |c.qids| ensures CoefReads(c, unquoted, z, Plus(p, r), ws + vs, lam + mu, j) {
      BlendConcat(ws, lam, vs, mu, c.qids[j], |vs|);
      TimesPlus(Total(lam, |lam|), Total(mu, |mu|), At(z, c.qids[j]));
      assert CoefReads(c, unquoted, z, p, ws, lam, j) && CoefReads(c, unquoted, z, r, vs, mu, j);
    }
  }

  lemma {:induction false} ReadScaled(c: Cluster, unquoted: set<int>, z: Point, k: real, p: Combo<World>,
                                      ws: seq<World>, lam: seq<real>)
    requires Reads(c, unquoted, z, p, ws, lam) && k >= 0.0
    ensures Reads(c, unquoted, z, Scaled(k, p), ws, ScaleAll(k, lam))
  {
    hide InOmega, At, Times, Blend, Separation, Total;
    var s := ScaleAll(k, lam);
    BlendScaled(k, ws, lam, 0, |ws|);
    ScaledNeg(k, Total(lam, |lam|));
    forall i | 0 <= i < |s| ensures s[i] >= 0.0 { ProductNonNegative(k, lam[i]); }
    forall j: nat | j < |c.qids| ensures CoefReads(c, unquoted, z, Scaled(k, p), ws, s, j) {
      var v, t := At(z, c.qids[j]), Total(lam, |lam|);
      BlendScaled(k, ws, lam, c.qids[j], |ws|);
      assert CoefReads(c, unquoted, z, p, ws, lam, j);
      TimesTwice(k, t, v);
      ScaledSum(k, Times(t, v), -Blend(ws, lam, c.qids[j], |ws|));
      ScaledNeg(k, Blend(ws, lam, c.qids[j], |ws|));
    }
  }

  lemma {:induction false} ProductNonNegative(a: real, b: real)
    requires a >= 0.0 && b >= 0.0
    ensures Times(a, b) >= 0.0
  {
  }

  lemma {:induction false} Read(c: Cluster, unquoted: set<int>, z: Point, p: Combo<World>)
    returns (ws: seq<World>, lam: seq<real>)
    requires NonNegative(p)
    ensures Reads(c, unquoted, z, p, ws, lam)
    decreases p
  {
    hide Reads;
    match p
    case Given(w) => ws, lam := ReadGiven(c, unquoted, z, w);
    case Plus(a, r) =>
      ws, lam := Read(c, unquoted, z, a);
      var vs, mu := Read(c, unquoted, z, r);
      ReadPlus(c, unquoted, z, a, r, ws, lam, vs, mu);
      ws, lam := ws + vs, lam + mu;
    case Scaled(k, a) =>
      ws, lam := Read(c, unquoted, z, a);
      ReadScaled(c, unquoted, z, k, a, ws, lam);
      lam := ScaleAll(k, lam);
  }

  lemma {:induction false} ContradictionIsMixture(c: Cluster, unquoted: set<int>, z: Point, p: Combo<World>)
    requires NonNegative(p) && Rhs(Separation(c, unquoted, z), p) < 0.0
    requires forall j :: Coef(Separation(c, unquoted, z), p, j) == 0.0
    ensures Mixture(c, unquoted, z)
  {
    hide InOmega, At, Times, Blend, Separation, Total, ScaleAll, Coef, Rhs;
    var ws, lam := Read(c, unquoted, z, p);
    var t := Total(lam, |lam|);
    var k := 1.0 / t;
    var s := ScaleAll(k, lam);
    ScaledNonNegative(k, lam);
    BlendScaled(k, ws, lam, 0, |ws|);
    UnitTotal(t, 0.0);
    forall q | q in c.qids ensures At(z, q) == Blend(ws, s, q, |ws|) {
      var j :| 0 <= j < |c.qids| && c.qids[j] == q;
      assert CoefReads(c, unquoted, z, p, ws, lam, j);
      BlendScaled(k, ws, lam, q, |ws|);
      UnitTotal(t, At(z, q));
    }
    assert MixtureOf(c, unquoted, z, ws, s);
  }

  lemma {:induction false} ScaledNonNegative(k: real, lam: seq<real>)
    requires k >= 0.0 && forall i :: 0 <= i < |lam| ==> lam[i] >= 0.0
    ensures forall i :: 0 <= i < |lam| ==> ScaleAll(k, lam)[i] >= 0.0
  {
    hide Times;
    forall i | 0 <= i < |lam| ensures ScaleAll(k, lam)[i] >= 0.0 { ProductNonNegative(k, lam[i]); }
  }

  lemma {:induction false} UnitTotal(t: real, v: real)
    requires t > 0.0
    ensures 1.0 / t >= 0.0 && Times(1.0 / t, t) == 1.0 && Times(1.0 / t, Times(t, v)) == v
  {
    assert 1.0 / t * (t * v) == (1.0 / t * t) * v;
  }

  /** Either z is a mixture of worlds, or some coefficients value every world at least 1 above z. */
  lemma {:induction false} MixtureOrSeparated(c: Cluster, unquoted: set<int>, z: Point) returns (a: seq<real>)
    requires Distinct(c.qids)
    ensures Mixture(c, unquoted, z) || (|a| == |c.qids| && forall w :: InOmega(c, unquoted, w) ==>
                  Elimination.Holds(Separation(c, unquoted, z), Given(w), a))
  {
    hide InOmega, Mixture, Separation, WorldRowsOf, EliminateTo, Coef, Rhs, Lhs;
    var sys, n := Separation(c, unquoted, z), |c.qids|;
    var d := EliminateTo(sys, WorldRowsOf(c), n, 0);
    WorldRowsProper(c, unquoted, z);
    EliminateToProper(sys, WorldRowsOf(c), n, 0);
    if p :| p in d && Rhs(sys, p) < 0.0 {
      ContradictionIsMixture(c, unquoted, z, p);
      a := [];
    } else {
      forall p | p in d ensures Elimination.Holds(sys, p, []) { NoVariables(sys, p); }
      a := Lift(sys, WorldRowsOf(c), n, 0, []);
      forall w | InOmega(c, unquoted, w) ensures Elimination.Holds(sys, Given(w), a) { WorldHasRow(c, unquoted, w); }
    }
  }

  lemma {:induction false} NoVariables<L>(sys: System<L>, p: Combo<L>)
    ensures Lhs(sys, p, [], 0) == 0.0
  {
  }

  // ---------- The separating coefficients as a basket ----------

  function Value(order: seq<int>, a: seq<real>, z: Point, k: nat): real
    requires k <= |order| == |a|
  {
    if k == 0 then 0.0 else Value(order, a, z, k - 1) + Times(a[k - 1], At(z, order[k - 1]))
  }

  /** What the NO legs pay when nothing resolves YES. */
  function Offset(a: seq<real>, k: nat): real
    requires k <= |a|
  {
    if k == 0 then 0.0 else Offset(a, k - 1) + if a[k - 1] >= 0.0 then 0.0 else -a[k - 1]
  }

  function LegOf(v: real): LPVar {
    LPVar(0, if v >= 0.0 then YES else NO, None, -1)
  }

  function SizeOf(v: real): real {
    if v >= 0.0 then v else -v
  }

  function LegsFor(a: seq<real>): (vars: seq<LPVar>)
    ensures |vars| == |a|
  {
    seq(|a|, i requires 0 <= i < |a| => LegOf(a[i]))
  }

  /** k shares of each leg's size. */
  function SharesFor(k: real, a: seq<real>): (x: seq<real>)
    ensures |x| == |a|
  {
    seq(|a|, i requires 0 <= i < |a| => Times(k, SizeOf(a[i])))
  }

  lemma {:induction false} LegPays(k: real, a: real, q: int, z: Point)
    requires q >= 0
    ensures Times(k, SizeOf(a)) * Pays(LegOf(a), q, z) == Times(k, (if a >= 0.0 then 0.0 else -a) + Times(a, At(z, q)))
  {
    var v := At(z, q);
    if a >= 0.0 {
      TripleProduct(k, a, v);
    } else {
      TripleProduct(k, -a, 1.0 - v);
      assert -a * (1.0 - v) == -a + a * v;
    }
  }

  lemma {:induction false} TimesSwap(a: real, b: real)
    ensures Times(a, b) == Times(b, a)
  {
  }

  lemma {:induction false} PayoutStep(order: seq<int>, k: real, a: seq<real>, z: Point, n: nat)
    requires 0 < n <= |order| == |a| && forall i :: 0 <= i < |order| ==> order[i] >= 0
    ensures Payout(LegsFor(a), order, SharesFor(k, a), z, n) ==
            Payout(LegsFor(a), order, SharesFor(k, a), z, n - 1) +
              Times(k, Rest(a[n - 1]) + Times(a[n - 1], At(z, order[n - 1])))
  {
    hide Pays, LegOf, SizeOf, Times, At;
    LegPays(k, a[n - 1], order[n - 1], z);
  }

  function Rest(v: real): real {
    if v >= 0.0 then 0.0 else -v
  }

  lemma {:induction false} ValueStep(order: seq<int>, a: seq<real>, z: Point, n: nat)
    requires 0 < n <= |order| == |a|
    ensures Offset(a, n) + Value(order, a, z, n) ==
            Offset(a, n - 1) + Value(order, a, z, n - 1) + (Rest(a[n - 1]) + Times(a[n - 1], At(z, order[n - 1])))
  {
    hide Times, At;
  }

  lemma {:induction false} PayoutFor(order: seq<int>, k: real, a: seq<real>, z: Point, n: nat)
    requires n <= |order| == |a| && forall i :: 0 <= i < |order| ==> order[i] >= 0
    ensures Payout(LegsFor(a), order, SharesFor(k, a), z, n) == Times(k, Offset(a, n) + Value(order, a, z, n))
  {
    hide Times, At, Rest, LegsFor, SharesFor;
    if n == 0 {
      TimesZero(k);
    } else {
      PayoutFor(order, k, a, z, n - 1);
      PayoutStep(order, k, a, z, n);
      ValueStep(order, a, z, n);
      var before, more := Offset(a, n - 1) + Value(order, a, z, n - 1), Rest(a[n - 1]) +
            Times(a[n - 1], At(z, order[n - 1]));
      TimesPlus(before, more, k);
      TimesSwap(before, k);
      TimesSwap(more, k);
      TimesSwap(before + more, k);
    }
  }

  lemma {:induction false} ValueNonNegative(order: seq<int>, a: seq<real>, z: Point, n: nat)
    requires n <= |order| == |a| && forall q :: q in order ==> 0.0 <= At(z, q) <= 1.0
    ensures Offset(a, n) + Value(order, a, z, n) >= 0.0
  {
    hide At, Times;
    if n > 0 {
      ValueNonNegative(order, a, z, n - 1);
      assert order[n - 1] in order;
      LegNonNegative(a[n - 1], At(z, order[n - 1]));
    }
  }

  lemma {:induction false} LegNonNegative(a: real, v: real)
    requires 0.0 <= v <= 1.0
    ensures (if a >= 0.0 then 0.0 else -a) + Times(a, v) >= 0.0
  {
    if a < 0.0 { assert -a * (1.0 - v) >= 0.0; }
  }

  lemma {:induction false} SeparationLhs(c: Cluster, unquoted: set<int>, z: Point, w: World, a: seq<real>, k: nat)
    requires InOmega(c, unquoted, w) && k <= |c.qids| == |a|
    ensures Lhs(Separation(c, unquoted, z), Given(w), a, k) == Value(c.qids, a, z, k) - Value(c.qids, a, PointOf(w), k)
  {
    hide InOmega, At, PointOf, Times;
    if k > 0 {
      SeparationLhs(c, unquoted, z, w, a, k - 1);
      Difference(At(z, c.qids[k - 1]), At(PointOf(w), c.qids[k - 1]), a[k - 1]);
    }
  }

  lemma {:induction false} Difference(x: real, y: real, a: real)
    ensures Times(x - y, a) == Times(a, x) - Times(a, y)
  {
  }

  lemma {:induction false} SeparatedValue(c: Cluster, unquoted: set<int>, z: Point, w: World, a: seq<real>)
    requires InOmega(c, unquoted, w) && |a| == |c.qids| && Elimination.Holds(Separation(c, unquoted, z), Given(w), a)
    ensures Value(c.qids, a, PointOf(w), |a|) >= Value(c.qids, a, z, |a|) + 1.0
  {
    hide InOmega, Value, Lhs;
    SeparationLhs(c, unquoted, z, w, a, |a|);
    assert Rhs(Separation(c, unquoted, z), Given(w)) == -1.0;
  }

  lemma {:induction false} Shrunk(v: real, u: real)
    requires v >= 0.0 && u >= v + 1.0
    ensures Times(1.0 / (v + 1.0), u) >= 1.0 && Times(1.0 / (v + 1.0), v) < 1.0
  {
    var d := v + 1.0;
    assert Times(1.0 / d, u) == u / d && Times(1.0 / d, v) == v / d && d / d == 1.0;
    assert u / d - d / d == (u - d) / d;
    assert (u - d) / d >= 0.0;
    assert d / d - v / d == 1.0 / d;
  }

  lemma {:induction false} SharesInBounds(k: real, a: seq<real>)
    requires k >= 0.0
    ensures LegsInBounds(LegsFor(a), SharesFor(k, a))
  {
    hide Times;
    forall i | 0 <= i < |a| ensures SharesFor(k, a)[i] >= 0.0 { ProductNonNegative(k, SizeOf(a[i])); }
  }

  /** A basket of one leg per question that pays 1 in every world and less than 1 at a separated point. */
  lemma {:induction false} CutOff(c: Cluster, unquoted: set<int>, z: Point, a: seq<real>) returns (x: seq<real>)
    requires Distinct(c.qids) && (forall q :: q in c.qids ==> q >= 0 && 0.0 <= At(z, q) <= 1.0) && |a| == |c.qids|
    requires forall w :: InOmega(c, unquoted, w) ==> Elimination.Holds(Separation(c, unquoted, z), Given(w), a)
    ensures |x| == |a| && LegsInBounds(LegsFor(a), x)
    ensures forall w :: InOmega(c, unquoted, w) ==> PaysTarget(LegsFor(a), c.qids, None, x, PointOf(w))
    ensures !PaysTarget(LegsFor(a), c.qids, None, x, z)
  {
    hide InOmega, Value, Offset, Times, Payout, LegsFor, SharesFor, Elimination.Holds, LegsInBounds;
    var n := |a|;
    var v := Offset(a, n) + Value(c.qids, a, z, n);
    ValueNonNegative(c.qids, a, z, n);
    var k := 1.0 / (v + 1.0);
    x := SharesFor(k, a);
    assert forall i :: 0 <= i < n ==> c.qids[i] in c.qids;
    SharesInBounds(k, a);
    forall w | InOmega(c, unquoted, w) ensures PaysTarget(LegsFor(a), c.qids, None, x, PointOf(w)) {
      SeparatedValue(c, unquoted, z, w, a);
      PayoutFor(c.qids, k, a, PointOf(w), n);
      Shrunk(v, Offset(a, n) + Value(c.qids, a, PointOf(w), n));
    }
    PayoutFor(c.qids, k, a, z, n);
    Shrunk(v, v + 1.0);
  }

  lemma {:induction false} ExactIsIntegral(c: Cluster, unquoted: set<int>, z: Point)
    requires Distinct(c.qids) && (forall q :: q in c.qids ==> q >= 0) && Exact(c, unquoted)
    requires InPolytope(Facets(Interpret(c, unquoted).constraints), c.qids, z)
    ensures Mixture(c, unquoted, z)
  {
    hide InOmega, Mixture, RowHolds, HasDuals, FormOf, PaysTarget, Separation, OnFacet, Elimination.Holds, LegsFor,
         LegsInBounds, Interpret, Facets;
    var a := MixtureOrSeparated(c, unquoted, z);
    if !Mixture(c, unquoted, z) {
      var x := CutOff(c, unquoted, z, a);
      var vars := LegsFor(a);
      assert forall i :: 0 <= i < |c.qids| ==> c.qids[i] in c.qids;
      assert Shape(vars, c.qids, x) && GPlaced(c.qids, None);
      forall w | InOmega(c, unquoted, w) ensures RowHolds(vars, c.qids, None, x, w) {
        RowMeans(vars, c.qids, None, x, w);
      }
      assert AgreesOn(c, unquoted, vars, c.qids, None, x);
      FormOwner(c, unquoted, c.qids);
      AcceptsIffPaysOnPolytope(FormOf(c, unquoted, c.qids), vars, None, x);
      assert false;
    }
  }

  /** When the facet engine is exact: it accepts the same baskets as the world rows, for every basket, if and only if
      every point of its polytope is a mixture of worlds. Question ids are row ids, hence >= 0. */
  lemma {:induction false} ExactIffIntegral(c: Cluster, unquoted: set<int>)
    requires Distinct(c.qids) && forall q :: q in c.qids ==> q >= 0
    ensures Exact(c, unquoted) <==> Integral(c, unquoted)
  {
    hide AgreesOn, Mixture, InPolytope, GPlaced, LegsInBounds;
    if Exact(c, unquoted) {
      forall z | InPolytope(Facets(Interpret(c, unquoted).constraints), c.qids, z) ensures Mixture(c, unquoted, z) {
        ExactIsIntegral(c, unquoted, z);
      }
    }
    if Integral(c, unquoted) {
      forall vars: seq<LPVar>, owner: seq<int>, gIndex: Option<nat>, x: seq<real>
        | Shape(vars, owner, x) && GPlaced(owner, gIndex) && LegsInBounds(vars, x)
        ensures AgreesOn(c, unquoted, vars, owner, gIndex, x)
      {
        IntegralAgrees(c, unquoted, vars, owner, gIndex, x);
      }
    }
  }

  /** Disjoint sets, disjoint chains and free questions have an integral polytope. */
  lemma {:induction false} ProductShapedIntegral(c: Cluster, unquoted: set<int>)
    requires Distinct(c.qids) && (forall q :: q in c.qids ==> q >= 0) &&
             ProductShaped(Interpret(c, unquoted).constraints)
    ensures Integral(c, unquoted)
  {
    hide AgreesOn, GPlaced, LegsInBounds, Integral, ProductShaped;
    forall vars: seq<LPVar>, owner: seq<int>, gIndex: Option<nat>, x: seq<real>
      | Shape(vars, owner, x) && GPlaced(owner, gIndex) && LegsInBounds(vars, x)
      ensures AgreesOn(c, unquoted, vars, owner, gIndex, x)
    {
      ProductAgrees(c, unquoted, vars, owner, gIndex, x);
    }
    ExactIffIntegral(c, unquoted);
  }

  lemma {:induction false} ProductAgrees(c: Cluster, unquoted: set<int>, vars: seq<LPVar>, owner: seq<int>,
                                         gIndex: Option<nat>, x: seq<real>)
    requires Distinct(c.qids) && ProductShaped(Interpret(c, unquoted).constraints)
    requires Shape(vars, owner, x) && GPlaced(owner, gIndex) && LegsInBounds(vars, x)
    ensures AgreesOn(c, unquoted, vars, owner, gIndex, x)
  {
    hide HasDuals, RowHolds, InOmega, FormOf;
    FacetExactness(c, unquoted, vars, owner, gIndex, x);
  }
}
