/** Strong duality for product-shaped clusters: disjoint one-hot sets, disjoint threshold chains and
    free questions. There the facet LP accepts exactly the baskets the world rows accept
    (services/arb-solver/src/solver/facet-lp.ts claims this of every integral polytope), and a
    three-question example shows it is one-way in general. */
module FacetExact {
  import opened Wrappers
  import opened Graph
  import opened Omega
  import opened Lp
  import opened FacetLp
  import opened LpBuilder

  datatype Basket = Basket(vars: seq<LPVar>, owner: seq<int>, x: seq<real>)

  ghost predicate IsBasket(b: Basket) {
    Shape(b.vars, b.owner, b.x)
  }

  /** The indicator of a set of questions. */
  function Ind(t: set<int>): Point {
    map q | q in t :: 1.0
  }

  /** What the basket gains on top of its NO legs when exactly the questions in t resolve YES. */
  function Net(b: Basket, t: set<int>): real
    requires IsBasket(b)
  {
    LegSum(b.vars, b.owner, b.x, Ind(t), |b.x|)
  }

  /** What leg k adds to the sum at z. */
  function LegGain(b: Basket, k: nat, z: Point): real
    requires IsBasket(b) && k < |b.x|
  {
    if b.owner[k] < 0 then 0.0 else Sign(b.vars[k].side) * b.x[k] * At(z, b.owner[k])
  }

  lemma {:induction false} LegSumStep(b: Basket, z: Point, k: nat)
    requires IsBasket(b) && 0 < k <= |b.x|
    ensures LegSum(b.vars, b.owner, b.x, z, k) == LegSum(b.vars, b.owner, b.x, z, k - 1) + LegGain(b, k - 1, z)
  {
  }

  lemma {:induction false} LegGainUnion(b: Basket, k: nat, s: set<int>, t: set<int>)
    requires IsBasket(b) && k < |b.x| && s !! t
    ensures LegGain(b, k, Ind(s + t)) == LegGain(b, k, Ind(s)) + LegGain(b, k, Ind(t))
  {
    var q := b.owner[k];
    assert At(Ind(s + t), q) == At(Ind(s), q) + At(Ind(t), q);
    Distribute(Sign(b.vars[k].side) * b.x[k], At(Ind(s), q), At(Ind(t), q));
  }

  lemma {:induction false} LegSumUnion(b: Basket, s: set<int>, t: set<int>, k: nat)
    requires IsBasket(b) && k <= |b.x| && s !! t
    ensures LegSum(b.vars, b.owner, b.x, Ind(s + t), k) ==
            LegSum(b.vars, b.owner, b.x, Ind(s), k) + LegSum(b.vars, b.owner, b.x, Ind(t), k)
  {
    if k > 0 {
      hide LegSum, LegGain, Ind;
      LegSumUnion(b, s, t, k - 1);
      LegGainUnion(b, k - 1, s, t);
      LegSumStep(b, Ind(s + t), k);
      LegSumStep(b, Ind(s), k);
      LegSumStep(b, Ind(t), k);
    }
  }

  lemma {:induction false} NetUnion(b: Basket, s: set<int>, t: set<int>)
    requires IsBasket(b) && s !! t
    ensures Net(b, s + t) == Net(b, s) + Net(b, t)
  {
    LegSumUnion(b, s, t, |b.x|);
  }

  lemma {:induction false} NetEmpty(b: Basket)
    requires IsBasket(b)
    ensures Net(b, {}) == 0.0
  {
    var none: set<int> := {};
    assert none + none == none;
    NetUnion(b, none, none);
  }

  lemma {:induction false} LegSumSame(b: Basket, z: Point, z': Point, k: nat)
    requires IsBasket(b) && k <= |b.x|
    requires forall q :: At(z, q) == At(z', q)
    ensures LegSum(b.vars, b.owner, b.x, z, k) == LegSum(b.vars, b.owner, b.x, z', k)
  {
    if k > 0 {
      LegSumSame(b, z, z', k - 1);
    }
  }

  // ---------- Sums over concatenated facet lists ----------

  lemma {:induction false} DualSumConcat(f: seq<Facet>, g: seq<Facet>, d: seq<real>, e: seq<real>, z: Point, k: nat)
    requires |f| == |d| && |g| == |e| && k <= |g|
    ensures DualSum(f + g, d + e, z, |f| + k) == DualSum(f, d, z, |f|) + DualSum(g, e, z, k)
    ensures DualCover(f + g, d + e, |f| + k) == DualCover(f, d, |f|) + DualCover(g, e, k)
  {
    hide FacetAt, Signed;
    if k > 0 {
      DualSumConcat(f, g, d, e, z, k - 1);
      assert (f + g)[|f| + k - 1] == g[k - 1] && (d + e)[|d| + k - 1] == e[k - 1];
    } else {
      DualSumPrefix(f, g, d, e, z, |f|);
    }
  }

  lemma {:induction false} DualSumPrefix(f: seq<Facet>, g: seq<Facet>, d: seq<real>, e: seq<real>, z: Point, k: nat)
    requires |f| == |d| && |g| == |e| && k <= |f|
    ensures DualSum(f + g, d + e, z, k) == DualSum(f, d, z, k)
    ensures DualCover(f + g, d + e, k) == DualCover(f, d, k)
  {
    if k > 0 {
      DualSumPrefix(f, g, d, e, z, k - 1);
    }
  }

  /** Facets that do not mention q contribute nothing to q's row. */
  lemma {:induction false} DualSumZero(facets: seq<Facet>, dual: seq<real>, z: Point, k: nat)
    requires k <= |facets| == |dual|
    requires forall f :: f in facets ==> FacetAt(f, z) == 0.0
    ensures DualSum(facets, dual, z, k) == 0.0
  {
    if k > 0 {
      DualSumZero(facets, dual, z, k - 1);
      assert facets[k - 1] in facets;
    }
  }

  lemma {:induction false} OnesAt(slots: seq<int>, q: int, k: nat)
    requires Distinct(slots) && k <= |slots|
    ensures Dot(Ones(slots), Ind({q}), k) == if q in slots[..k] then 1.0 else 0.0
  {
    if k > 0 {
      OnesAt(slots, q, k - 1);
      assert slots[..k] == slots[..k - 1] + [slots[k - 1]];
    }
  }

  lemma {:induction false} ForeignFacets(c: Constraint, q: int)
    requires !c.HardEdge? && Distinct(c.slots) && q !in c.slots
    ensures forall f :: f in ConstraintFacets(c) ==> FacetAt(f, Ind({q})) == 0.0
  {
    match c
    case OneHot(_, slots, _) =>
      OnesAt(slots, q, |slots|);
      assert slots[..|slots|] == slots;
    case Chain(_, slots) =>
      ForeignLinks(slots, q, if |slots| == 0 then 0 else |slots| - 1);
  }

  lemma {:induction false} ForeignLinks(slots: seq<int>, q: int, k: nat)
    requires q !in slots && (k == 0 || k < |slots|)
    ensures forall f :: f in ChainFacets(slots, k) ==> FacetAt(f, Ind({q})) == 0.0
  {
    if k > 0 {
      ForeignLinks(slots, q, k - 1);
      LinkAt(slots[k - 1], slots[k], Ind({q}));
    }
  }

  // ---------- One constraint at a time ----------

  function Max(a: real, b: real): real {
    if a < b then b else a
  }

  /** The dual carried past the first k rungs: it grows on losing rungs and is cut off at 0. */
  function Carry(b: Basket, slots: seq<int>, k: nat): real
    requires IsBasket(b) && k <= |slots|
  {
    if k == 0 then 0.0 else Max(0.0, Carry(b, slots, k - 1) - Net(b, {slots[k - 1]}))
  }

  /** The carry is the loss of some suffix of the first k rungs. */
  lemma {:induction false} CarryAttained(b: Basket, slots: seq<int>, k: nat) returns (j: nat)
    requires IsBasket(b) && k <= |slots| && Distinct(slots)
    ensures j <= k && Carry(b, slots, k) == -Net(b, SetOf(slots[j..k]))
  {
    j := k;
    if k == 0 || Carry(b, slots, k - 1) <= Net(b, {slots[k - 1]}) {
      assert SetOf(slots[k..k]) == {};
      NetEmpty(b);
    } else {
      j := CarryAttained(b, slots, k - 1);
      assert slots[j..k] == slots[j..k - 1] + [slots[k - 1]];
      assert SetOf(slots[j..k]) == SetOf(slots[j..k - 1]) + {slots[k - 1]};
      NetUnion(b, SetOf(slots[j..k - 1]), {slots[k - 1]});
    }
  }

  /** ... and no suffix loses more. */
  lemma {:induction false} CarryIsWorst(b: Basket, slots: seq<int>, k: nat, j: nat)
    requires IsBasket(b) && j <= k <= |slots| && Distinct(slots)
    ensures Carry(b, slots, k) >= -Net(b, SetOf(slots[j..k]))
  {
    hide Net;
    if j == k {
      assert SetOf(slots[k..k]) == {};
      NetEmpty(b);
    } else {
      CarryIsWorst(b, slots, k - 1, j);
      assert slots[j..k] == slots[j..k - 1] + [slots[k - 1]];
      assert SetOf(slots[j..k]) == SetOf(slots[j..k - 1]) + {slots[k - 1]};
      NetUnion(b, SetOf(slots[j..k - 1]), {slots[k - 1]});
    }
  }

  function CarryDuals(b: Basket, slots: seq<int>, m: nat): seq<real>
    requires IsBasket(b) && m <= |slots|
  {
    if m == 0 then [] else CarryDuals(b, slots, m - 1) + [Carry(b, slots, m)]
  }

  lemma {:induction false} CarryDualsShape(b: Basket, slots: seq<int>, m: nat)
    requires IsBasket(b) && (m == 0 || m < |slots|)
    ensures |CarryDuals(b, slots, m)| == m
    ensures forall i :: 0 <= i < m ==> CarryDuals(b, slots, m)[i] >= 0.0 && !ChainFacets(slots, m)[i].isEq
  {
    if m > 0 {
      CarryDualsShape(b, slots, m - 1);
    }
  }

  /** The chain's facets leave rung i with the carry out of it minus the carry into it. */
  lemma {:induction false} ChainRow(b: Basket, slots: seq<int>, m: nat, i: nat)
    requires IsBasket(b) && Distinct(slots) && (m == 0 || m < |slots|) && i < |slots|
    requires |CarryDuals(b, slots, m)| == m
    ensures DualSum(ChainFacets(slots, m), CarryDuals(b, slots, m), Ind({slots[i]}), m) ==
            (if i < m then Carry(b, slots, i + 1) else 0.0) - (if 1 <= i <= m then Carry(b, slots, i) else 0.0)
    ensures DualCover(ChainFacets(slots, m), CarryDuals(b, slots, m), m) == 0.0
  {
    hide Carry, Dot;
    if m > 0 {
      ChainRow(b, slots, m - 1, i);
      var f := Facet(Link(slots[m - 1], slots[m]), 0.0, false);
      var d := Carry(b, slots, m);
      LinkAt(slots[m - 1], slots[m], Ind({slots[i]}));
      DualSumConcat(ChainFacets(slots, m - 1), [f], CarryDuals(b, slots, m - 1), [d], Ind({slots[i]}), 1);
      SingleDual(f, d, Ind({slots[i]}));
    }
  }

  lemma {:induction false} SingleDual(f: Facet, d: real, z: Point)
    ensures DualSum([f], [d], z, 1) == Signed(f, d) * FacetAt(f, z)
    ensures DualCover([f], [d], 1) == -(Signed(f, d) * f.rhs)
  {
    assert DualSum([f], [d], z, 0) == 0.0;
  }

  /** A world that agrees with `yes` on the constraint's slots. */
  ghost predicate Agrees(w: World, slots: set<int>, yes: set<int>) {
    forall q :: q in slots ==> (Yes(w, q) <==> q in yes)
  }

  ghost predicate SlotClosed(b: Basket, c: Constraint, dual: seq<real>, muQ: int, muV: real, q: int)
    requires IsBasket(b) && |dual| == |ConstraintFacets(c)|
  {
    (if q == muQ then muV else 0.0) + Net(b, {q}) + DualSum(ConstraintFacets(c), dual, Ind({q}), |dual|) >= 0.0
  }

  /** Duals for one constraint, and a bound dual on one of its slots, that close every slot's row and
      contribute to the cover row exactly the net gain of the questions in `yes`. */
  ghost predicate Closes(b: Basket, c: Constraint, dual: seq<real>, muQ: int, muV: real, yes: set<int>)
    requires IsBasket(b) && !c.HardEdge?
  {
    && SignsOk(ConstraintFacets(c), dual)
    && muQ in c.slots && muV >= 0.0
    && yes <= SetOf(c.slots)
    && (forall q :: q in c.slots ==> SlotClosed(b, c, dual, muQ, muV, q))
    && DualCover(ConstraintFacets(c), dual, |dual|) - muV == Net(b, yes)
  }

  /** ... where `yes` is a choice the constraint allows. */
  ghost predicate Solves(b: Basket, c: Constraint, dual: seq<real>, muQ: int, muV: real, yes: set<int>)
    requires IsBasket(b) && !c.HardEdge?
  {
    && Closes(b, c, dual, muQ, muV, yes)
    && forall w: World :: Agrees(w, SetOf(c.slots), yes) ==> Holds(c, w)
  }

  /** The slot with the least net gain. */
  lemma {:induction false} WorstSlot(b: Basket, slots: seq<int>) returns (a: int)
    requires IsBasket(b) && slots != []
    ensures a in slots && forall q :: q in slots ==> Net(b, {a}) <= Net(b, {q})
  {
    var m := |slots| - 1;
    if m == 0 {
      a := slots[0];
    } else {
      a := WorstSlot(b, slots[..m]);
      assert slots == slots[..m] + [slots[m]];
      if Net(b, {slots[m]}) < Net(b, {a}) {
        a := slots[m];
      }
    }
  }

  lemma {:induction false} SolveOneHot(b: Basket, c: Constraint) returns (dual: seq<real>, yes: set<int>)
    requires IsBasket(b) && c.OneHot? && c.slots != [] && Distinct(c.slots)
    ensures exists muQ :: Solves(b, c, dual, muQ, 0.0, yes)
  {
    var a := WorstSlot(b, c.slots);
    var f := Facet(Ones(c.slots), 1.0, c.exhaustive);
    var d := if c.exhaustive then Net(b, {a}) else Max(0.0, -Net(b, {a}));
    yes := if c.exhaustive || Net(b, {a}) < 0.0 then {a} else {};
    dual := [d];
    assert c.slots[..|c.slots|] == c.slots;
    forall q | q in c.slots ensures SlotClosed(b, c, dual, a, 0.0, q) {
      OnesAt(c.slots, q, |c.slots|);
      SingleDual(f, d, Ind({q}));
    }
    SingleDual(f, d, map[]);
    NetEmpty(b);
    forall w: World | Agrees(w, SetOf(c.slots), yes) ensures Holds(c, w) {
      if yes == {} {
        CountYesNone(c.slots, w);
      } else {
        CountYesOne(c.slots, w, a);
      }
    }
    assert Solves(b, c, dual, a, 0.0, yes);
  }

  lemma {:induction false} CarryStep(b: Basket, slots: seq<int>, i: nat)
    requires IsBasket(b) && i < |slots|
    ensures Carry(b, slots, i + 1) >= Carry(b, slots, i) - Net(b, {slots[i]}) && Carry(b, slots, i) >= 0.0
  {
    hide Net;
  }

  lemma {:induction false} RungClosed(b: Basket, c: Constraint, i: nat)
    requires IsBasket(b) && c.Chain? && Distinct(c.slots) && i < |c.slots|
    requires |CarryDuals(b, c.slots, |c.slots| - 1)| == |c.slots| - 1
    ensures SlotClosed(b, c, CarryDuals(b, c.slots, |c.slots| - 1), c.slots[|c.slots| - 1],
                       Carry(b, c.slots, |c.slots|), c.slots[i])
  {
    hide Net, Carry, DualSum, CarryDuals, ChainFacets;
    CarryStep(b, c.slots, i);
    ChainRow(b, c.slots, |c.slots| - 1, i);
    assert ConstraintFacets(c) == ChainFacets(c.slots, |c.slots| - 1);
  }

  lemma {:induction false} LastCarry(b: Basket, slots: seq<int>)
    requires IsBasket(b)
    ensures Carry(b, slots, |slots|) >= 0.0
  {
    hide Net;
  }

  lemma {:induction false} SolveChain(b: Basket, c: Constraint) returns (dual: seq<real>, muV: real, yes: set<int>)
    requires IsBasket(b) && c.Chain? && c.slots != [] && Distinct(c.slots)
    ensures Solves(b, c, dual, c.slots[|c.slots| - 1], muV, yes)
  {
    var n := |c.slots|;
    dual := CarryDuals(b, c.slots, n - 1);
    CarryDualsShape(b, c.slots, n - 1);
    muV := Carry(b, c.slots, n);
    var j := CarryAttained(b, c.slots, n);
    yes := SetOf(c.slots[j..n]);
    hide Net, Carry, DualSum, DualCover, SlotClosed, CarryDuals, Holds;
    forall q | q in c.slots ensures SlotClosed(b, c, dual, c.slots[n - 1], muV, q) {
      var i :| 0 <= i < n && c.slots[i] == q;
      RungClosed(b, c, i);
    }
    ChainRow(b, c.slots, n - 1, 0);
    CarryStep(b, c.slots, n - 1);
    LastCarry(b, c.slots);
    forall w: World | Agrees(w, SetOf(c.slots), yes) ensures Holds(c, w) {
      SuffixHolds(c, j, w);
    }
  }

  lemma {:induction false} SuffixHolds(c: Constraint, j: nat, w: World)
    requires c.Chain? && Distinct(c.slots) && j <= |c.slots|
    requires Agrees(w, SetOf(c.slots), SetOf(c.slots[j..|c.slots|]))
    ensures Holds(c, w)
  {
    var tail := c.slots[j..|c.slots|];
    forall i {:trigger c.slots[i]} | 0 <= i < |c.slots| - 1 && Yes(w, c.slots[i]) ensures Yes(w, c.slots[i + 1]) {
      assert c.slots[i] in SetOf(c.slots) && c.slots[i + 1] in SetOf(c.slots);
      assert c.slots[i] in tail;
      var p :| 0 <= p < |tail| && tail[p] == c.slots[i];
      assert tail[p] == c.slots[j + p];
      assert tail[p + 1] == c.slots[i + 1];
    }
  }

  // ---------- All constraints ----------

  /** Σ of the bound duals over the questions. */
  function MuTotal(order: seq<int>, mu: Point, k: nat): real
    requires k <= |order|
  {
    if k == 0 then 0.0 else MuTotal(order, mu, k - 1) + At(mu, order[k - 1])
  }

  lemma {:induction false} MuTotalSet(order: seq<int>, mu: Point, q: int, v: real, k: nat)
    requires Distinct(order) && k <= |order| && q !in mu
    ensures MuTotal(order, mu[q := v], k) == MuTotal(order, mu, k) + if q in order[..k] then v else 0.0
  {
    if k > 0 {
      MuTotalSet(order, mu, q, v, k - 1);
      assert order[..k] == order[..k - 1] + [order[k - 1]];
      assert q == order[k - 1] ==> q !in order[..k - 1];
    }
  }

  /** A partial certificate on a set of questions: duals and bound duals that close the rows of those
      questions, and a choice of worlds whose net gain is exactly the cover contribution. */
  ghost predicate Certifies(b: Basket, order: seq<int>, cs: seq<Constraint>, dual: seq<real>, mu: Point, yes: set<int>,
                            done: set<int>)
    requires IsBasket(b)
  {
    var fs := Facets(cs);
    && SignsOk(fs, dual)
    && mu.Keys <= done && yes <= done && (forall q :: q in mu ==> mu[q] >= 0.0)
    && (forall q :: q in done ==> RowClosed(b, fs, dual, mu, q))
    && DualCover(fs, dual, |fs|) - MuTotal(order, mu, |order|) == Net(b, yes)
  }

  ghost predicate SignsOk(fs: seq<Facet>, dual: seq<real>) {
    |dual| == |fs| && forall i :: 0 <= i < |fs| && !fs[i].isEq ==> dual[i] >= 0.0
  }

  ghost predicate RowClosed(b: Basket, fs: seq<Facet>, dual: seq<real>, mu: Point, q: int)
    requires IsBasket(b) && |fs| == |dual|
  {
    At(mu, q) + Net(b, {q}) + DualSum(fs, dual, Ind({q}), |fs|) >= 0.0
  }

  lemma {:induction false} FacetsSnoc(cs: seq<Constraint>, c: Constraint)
    ensures Facets(cs + [c]) == Facets(cs) + ConstraintFacets(c)
  {
    assert (cs + [c])[..|cs + [c]| - 1] == cs;
  }

  lemma {:induction false} MuTotalEmpty(order: seq<int>, k: nat)
    requires k <= |order|
    ensures MuTotal(order, map[], k) == 0.0
  {
    if k > 0 { MuTotalEmpty(order, k - 1); }
  }

  lemma {:induction false} SolveOne(b: Basket, c: Constraint)
    returns (dual: seq<real>, muQ: int, muV: real, yes: set<int>)
    requires IsBasket(b) && !c.HardEdge? && c.slots != [] && Distinct(c.slots)
    ensures Solves(b, c, dual, muQ, muV, yes)
  {
    if c.OneHot? {
      dual, yes := SolveOneHot(b, c);
      muV := 0.0;
      muQ :| Solves(b, c, dual, muQ, 0.0, yes);
    } else {
      muQ := c.slots[|c.slots| - 1];
      dual, muV, yes := SolveChain(b, c);
    }
  }

  lemma {:induction false} CoveredDisjoint(cs: seq<Constraint>, c: Constraint)
    requires ProductShaped(cs + [c])
    ensures ProductShaped(cs) && Covered(cs) !! SetOf(SlotsOf(c))
    ensures Covered(cs + [c]) == Covered(cs) + SetOf(SlotsOf(c))
    ensures !c.HardEdge? && c.slots != [] && Distinct(c.slots)
  {
    var all := cs + [c];
    CoveredSnoc(cs, c);
    assert all[|cs|] == c && c in all;
    assert forall k :: k in cs ==> k in all;
    assert forall i :: 0 <= i < |cs| ==> all[i] == cs[i];
    forall q | q in Covered(cs) ensures q !in SetOf(SlotsOf(c)) {
      var k :| k in cs && q in SlotsOf(k);
      var i :| 0 <= i < |cs| && cs[i] == k;
      assert q in SetOf(SlotsOf(all[i]));
    }
  }

  /** Facets of earlier constraints do not touch q. */
  lemma {:induction false} EarlierFacetsZero(cs: seq<Constraint>, q: int)
    requires ProductShaped(cs) && q !in Covered(cs)
    ensures forall f :: f in Facets(cs) ==> FacetAt(f, Ind({q})) == 0.0
  {
    if cs != [] {
      var m := |cs| - 1;
      assert cs == cs[..m] + [cs[m]];
      CoveredDisjoint(cs[..m], cs[m]);
      EarlierFacetsZero(cs[..m], q);
      ForeignFacets(cs[m], q);
    }
  }

  /** Two certificates on disjoint questions combine row by row. */
  lemma {:induction false} CombineRow(b: Basket, cs: seq<Constraint>, c: Constraint, d: seq<real>, e: seq<real>, q: int)
    requires IsBasket(b) && ProductShaped(cs + [c])
    requires |d| == |Facets(cs)| && |e| == |ConstraintFacets(c)|
    requires q in Covered(cs + [c])
    ensures !c.HardEdge?
    ensures DualSum(Facets(cs + [c]), d + e, Ind({q}), |d + e|) ==
            if q in SetOf(c.slots) then DualSum(ConstraintFacets(c), e, Ind({q}), |e|)
            else DualSum(Facets(cs), d, Ind({q}), |d|)
  {
    hide DualSum, Facets, Ind, ConstraintFacets;
    CoveredDisjoint(cs, c);
    FacetsSnoc(cs, c);
    DualSumConcat(Facets(cs), ConstraintFacets(c), d, e, Ind({q}), |e|);
    if q in SetOf(c.slots) {
      EarlierFacetsZero(cs, q);
      DualSumZero(Facets(cs), d, Ind({q}), |d|);
    } else {
      ForeignFacets(c, q);
      DualSumZero(ConstraintFacets(c), e, Ind({q}), |e|);
    }
  }

  lemma {:induction false} CombineCertificates(b: Basket, order: seq<int>, cs: seq<Constraint>, c: Constraint,
      d: seq<real>, mu: Point, yes: set<int>, e: seq<real>, muQ: int, muV: real, yes': set<int>)
    requires IsBasket(b) && ProductShaped(cs + [c]) && Distinct(order)
    requires Certifies(b, order, cs, d, mu, yes, Covered(cs))
    requires !c.HardEdge? && Closes(b, c, e, muQ, muV, yes') && muQ in order
    ensures Certifies(b, order, cs + [c], d + e, mu[muQ := muV], yes + yes', Covered(cs + [c]))
  {
    hide DualSum, DualCover, Net, Facets, ConstraintFacets, MuTotal, RowClosed, SlotClosed, Covered, ProductShaped;
    CoveredDisjoint(cs, c);
    CombineSigns(cs, c, d, e);
    CombineRowsClosed(b, cs, c, d, mu, e, muQ, muV);
    assert muQ in SetOf(c.slots) && muQ !in mu;
    CombineCover(b, order, cs, c, d, mu, yes, e, muQ, muV, yes');
    AssembleCertificate(b, order, cs + [c], d + e, mu[muQ := muV], yes + yes', Covered(cs), SetOf(c.slots));
  }

  lemma {:induction false} AssembleCertificate(b: Basket, order: seq<int>, cs: seq<Constraint>,
      dual: seq<real>, mu: Point, yes: set<int>, done: set<int>, slots: set<int>)
    requires IsBasket(b) && SignsOk(Facets(cs), dual)
    requires mu.Keys <= done + slots && yes <= done + slots && forall q :: q in mu ==> mu[q] >= 0.0
    requires forall q :: q in done + slots ==> RowClosed(b, Facets(cs), dual, mu, q)
    requires DualCover(Facets(cs), dual, |dual|) - MuTotal(order, mu, |order|) == Net(b, yes)
    ensures Certifies(b, order, cs, dual, mu, yes, done + slots)
  {
  }

  lemma {:induction false} CombineSigns(cs: seq<Constraint>, c: Constraint, d: seq<real>, e: seq<real>)
    requires SignsOk(Facets(cs), d) && SignsOk(ConstraintFacets(c), e)
    ensures SignsOk(Facets(cs + [c]), d + e)
  {
    FacetsSnoc(cs, c);
  }

  lemma {:induction false} CombineRowClosed(b: Basket, cs: seq<Constraint>, c: Constraint,
      d: seq<real>, mu: Point, e: seq<real>, muQ: int, muV: real, q: int)
    requires IsBasket(b) && ProductShaped(cs + [c]) && q in Covered(cs + [c])
    requires |d| == |Facets(cs)| && |e| == |ConstraintFacets(c)| && |d + e| == |Facets(cs + [c])|
    requires mu.Keys <= Covered(cs) && !c.HardEdge? && muQ in c.slots
    requires q in Covered(cs) ==> RowClosed(b, Facets(cs), d, mu, q)
    requires q in c.slots ==> SlotClosed(b, c, e, muQ, muV, q)
    ensures RowClosed(b, Facets(cs + [c]), d + e, mu[muQ := muV], q)
  {
    CoveredDisjoint(cs, c);
    CombineRow(b, cs, c, d, e, q);
    assert q in SetOf(c.slots) <==> q in c.slots;
    if q in c.slots {
      assert q !in Covered(cs);
      assert At(mu[muQ := muV], q) == if q == muQ then muV else 0.0;
    } else {
      assert At(mu[muQ := muV], q) == At(mu, q);
    }
  }

  lemma {:induction false} CombineRowsClosed(b: Basket, cs: seq<Constraint>, c: Constraint,
      d: seq<real>, mu: Point, e: seq<real>, muQ: int, muV: real)
    requires IsBasket(b) && ProductShaped(cs + [c])
    requires |d| == |Facets(cs)| && |e| == |ConstraintFacets(c)| && |d + e| == |Facets(cs + [c])|
    requires mu.Keys <= Covered(cs) && !c.HardEdge? && muQ in c.slots
    requires forall q :: q in Covered(cs) ==> RowClosed(b, Facets(cs), d, mu, q)
    requires forall q :: q in c.slots ==> SlotClosed(b, c, e, muQ, muV, q)
    ensures forall q :: q in Covered(cs + [c]) ==> RowClosed(b, Facets(cs + [c]), d + e, mu[muQ := muV], q)
  {
    forall q | q in Covered(cs + [c]) ensures RowClosed(b, Facets(cs + [c]), d + e, mu[muQ := muV], q) {
      CombineRowClosed(b, cs, c, d, mu, e, muQ, muV, q);
    }
  }

  lemma {:induction false} CombineCover(b: Basket, order: seq<int>, cs: seq<Constraint>, c: Constraint,
      d: seq<real>, mu: Point, yes: set<int>, e: seq<real>, muQ: int, muV: real, yes': set<int>)
    requires IsBasket(b) && Distinct(order) && muQ in order && muQ !in mu && yes !! yes'
    requires |d| == |Facets(cs)| && |e| == |ConstraintFacets(c)|
    requires DualCover(Facets(cs), d, |d|) - MuTotal(order, mu, |order|) == Net(b, yes)
    requires DualCover(ConstraintFacets(c), e, |e|) - muV == Net(b, yes')
    ensures |d + e| == |Facets(cs + [c])|
    ensures DualCover(Facets(cs + [c]), d + e, |d + e|) - MuTotal(order, mu[muQ := muV], |order|) == Net(b, yes + yes')
  {
    hide DualSum, DualCover, Net, Facets, ConstraintFacets, MuTotal;
    FacetsSnoc(cs, c);
    DualSumConcat(Facets(cs), ConstraintFacets(c), d, e, map[], |e|);
    assert order[..|order|] == order;
    MuTotalSet(order, mu, muQ, muV, |order|);
    NetUnion(b, yes, yes');
  }

  lemma {:induction false} AgreesPart(w: World, a: set<int>, a': set<int>, yes: set<int>, yes': set<int>)
    requires a !! a' && yes <= a && yes' <= a' && Agrees(w, a + a', yes + yes')
    ensures Agrees(w, a, yes) && Agrees(w, a', yes')
  {
  }

  lemma {:induction false} SolveAll(b: Basket, order: seq<int>, cs: seq<Constraint>)
    returns (dual: seq<real>, mu: Point, yes: set<int>)
    requires IsBasket(b) && ProductShaped(cs) && Distinct(order) && Covered(cs) <= SetOf(order)
    ensures Certifies(b, order, cs, dual, mu, yes, Covered(cs))
    ensures forall w: World :: Agrees(w, Covered(cs), yes) ==> AllHold(cs, w)
  {
    dual, mu, yes := [], map[], {};
    if cs == [] {
      MuTotalEmpty(order, |order|);
      NetEmpty(b);
    } else {
      var m := |cs| - 1;
      var rest, c := cs[..m], cs[m];
      assert cs == rest + [c];
      CoveredDisjoint(rest, c);
      dual, mu, yes := SolveAll(b, order, rest);
      var e, muQ, muV, yes' := SolveOne(b, c);
      assert muQ in SetOf(c.slots);
      CombineCertificates(b, order, rest, c, dual, mu, yes, e, muQ, muV, yes');
      forall w: World | Agrees(w, Covered(cs), yes + yes') ensures AllHold(cs, w) {
        AgreesPart(w, Covered(rest), SetOf(c.slots), yes, yes');
        assert forall k :: k in cs <==> k in rest || k == c;
      }
      dual, mu, yes := dual + e, mu[muQ := muV], yes + yes';
    }
  }

  lemma {:induction false} StepDone(covered: set<int>, order: seq<int>, k: nat)
    requires 0 < k <= |order| && Distinct(order)
    ensures covered + SetOf(order[..k]) == (covered + SetOf(order[..k - 1])) + {order[k - 1]}
    ensures order[k - 1] !in SetOf(order[..k - 1])
  {
    assert order[..k] == order[..k - 1] + [order[k - 1]];
  }

  /** Free questions each take their worse value; their rows close with a bound dual alone. */
  lemma {:induction false} SolveFree(b: Basket, order: seq<int>, cs: seq<Constraint>, dual: seq<real>, mu0: Point,
                                     yes0: set<int>, k: nat)
    returns (mu: Point, yes: set<int>)
    requires IsBasket(b) && ProductShaped(cs) && Distinct(order) && k <= |order|
    requires Certifies(b, order, cs, dual, mu0, yes0, Covered(cs))
    ensures Certifies(b, order, cs, dual, mu, yes, Covered(cs) + SetOf(order[..k]))
    ensures yes * Covered(cs) == yes0
  {
    mu, yes := mu0, yes0;
    if k == 0 {
      assert Covered(cs) + SetOf(order[..k]) == Covered(cs);
    } else {
      mu, yes := SolveFree(b, order, cs, dual, mu0, yes0, k - 1);
      var q := order[k - 1];
      var done := Covered(cs) + SetOf(order[..k - 1]);
      StepDone(Covered(cs), order, k);
      if q in Covered(cs) {
        assert done + {q} == done;
      } else {
        assert q !in done;
        mu, yes := AddFree(b, order, cs, dual, mu, yes, done, q);
      }
    }
  }

  lemma {:induction false} AddFree(b: Basket, order: seq<int>, cs: seq<Constraint>, dual: seq<real>, mu0: Point,
                                   yes0: set<int>, done: set<int>, q: int)
    returns (mu: Point, yes: set<int>)
    requires IsBasket(b) && ProductShaped(cs) && Distinct(order) && q in order && q !in done && Covered(cs) <= done
    requires Certifies(b, order, cs, dual, mu0, yes0, done)
    ensures Certifies(b, order, cs, dual, mu, yes, done + {q})
    ensures yes - {q} == yes0
  {
    mu := mu0[q := Max(0.0, -Net(b, {q}))];
    yes := if Net(b, {q}) < 0.0 then yes0 + {q} else yes0;
    EarlierFacetsZero(cs, q);
    DualSumZero(Facets(cs), dual, Ind({q}), |dual|);
    assert order[..|order|] == order;
    MuTotalSet(order, mu0, q, mu[q], |order|);
    NetUnion(b, yes0, {q});
  }

  // ---------- Assembling the LP solution ----------

  function MuList(order: seq<int>, mu: Point): seq<real> {
    seq(|order|, i requires 0 <= i < |order| => At(mu, order[i]))
  }

  lemma {:induction false} MuListTotal(order: seq<int>, mu: Point, k: nat)
    requires k <= |order|
    ensures Total(MuList(order, mu), k) == MuTotal(order, mu, k)
  {
    if k > 0 { MuListTotal(order, mu, k - 1); }
  }

  /** Weighting by the indicator of one question picks out its row. */
  lemma {:induction false} UnitWeight(order: seq<int>, rows: seq<seq<Term>>, s: Solution, i: nat, k: nat)
    requires Distinct(order) && |rows| == |order| == |s.mu| && i < |order| && k <= |order|
    ensures Weighted(order, rows, Ind({order[i]}), s, k) == if i < k then Eval(rows[i], s) else 0.0
    ensures MuSum(order, s.mu, Ind({order[i]}), k) == if i < k then s.mu[i] else 0.0
  {
    if k > 0 {
      UnitWeight(order, rows, s, i, k - 1);
    }
  }

  lemma {:induction false} RowValue(form: FacetForm, vars: seq<LPVar>, gIndex: Option<nat>, s: Solution, i: nat)
    requires Distinct(form.order) && |s.mu| == |form.order| && |s.dual| == |form.facets|
    requires Shape(vars, form.owner, s.x) && i < |form.order|
    ensures |RowsOf(form, vars, gIndex).rows| == |form.order|
    ensures Eval(RowsOf(form, vars, gIndex).rows[i], s) ==
            s.mu[i] + Net(Basket(vars, form.owner, s.x), {form.order[i]}) +
            DualSum(form.facets, s.dual, Ind({form.order[i]}), |s.dual|)
  {
    var z := Ind({form.order[i]});
    RowsWeighted(form, vars, gIndex, z, s);
    UnitWeight(form.order, RowsOf(form, vars, gIndex).rows, s, i, |form.order|);
  }

  function WorldOf(order: seq<int>, yes: set<int>): World {
    map q | q in order :: q in yes
  }

  lemma {:induction false} NetOfWorld(b: Basket, order: seq<int>, yes: set<int>)
    requires IsBasket(b) && yes <= SetOf(order)
    ensures Payout(b.vars, b.owner, b.x, PointOf(WorldOf(order, yes)), |b.x|) ==
            NoSum(b.vars, b.owner, b.x, |b.x|) + Net(b, yes)
  {
    PayoutSplit(b.vars, b.owner, b.x, PointOf(WorldOf(order, yes)), |b.x|);
    LegSumSame(b, PointOf(WorldOf(order, yes)), Ind(yes), |b.x|);
  }

  /** Legs >= 0 and within their caps. */
  ghost predicate LegsInBounds(vars: seq<LPVar>, x: seq<real>)
    requires |vars| == |x|
  {
    forall i :: 0 <= i < |x| ==> x[i] >= 0.0 && (vars[i].cap.Some? ==> x[i] <= vars[i].cap.value)
  }

  ghost predicate HasDuals(form: FacetForm, vars: seq<LPVar>, gIndex: Option<nat>, x: seq<real>) {
    exists dual: seq<real>, mu: seq<real> :: Feasible(form, vars, gIndex, Solution(x, dual, mu))
  }

  /** The constructed duals: if the basket pays the target in every world, the facet LP accepts it. */
  lemma {:induction false} StrongDuality(c: Cluster, unquoted: set<int>, b: Basket, gIndex: Option<nat>)
    requires Distinct(c.qids) && ProductShaped(Interpret(c, unquoted).constraints)
    requires IsBasket(b) && LegsInBounds(b.vars, b.x)
    requires forall w :: InOmega(c, unquoted, w) ==> PaysTarget(b.vars, b.owner, gIndex, b.x, PointOf(w))
    ensures HasDuals(FormOf(c, unquoted, b.owner), b.vars, gIndex, b.x)
  {
    hide Feasible, FormOf, Interpret;
    var form, cs := FormOf(c, unquoted, b.owner), Interpret(c, unquoted).constraints;
    InterpretCovers(c, unquoted);
    var dual, mu0, yes0 := SolveAll(b, c.qids, cs);
    var mu, yes := SolveFree(b, c.qids, cs, dual, mu0, yes0, |c.qids|);
    assert c.qids[..|c.qids|] == c.qids;
    assert Covered(cs) + SetOf(c.qids) == SetOf(c.qids);
    var w := WorldOf(c.qids, yes);
    assert Agrees(w, Covered(cs), yes0);
    assert InOmega(c, unquoted, w);
    NetOfWorld(b, c.qids, yes);
    var s := Solution(b.x, dual, MuList(c.qids, mu));
    AssembledFeasible(c, unquoted, b, gIndex, dual, mu, yes);
    assert Feasible(form, b.vars, gIndex, s);
  }

  lemma {:induction false} AssembledFeasible(c: Cluster, unquoted: set<int>, b: Basket, gIndex: Option<nat>,
                                             dual: seq<real>, mu: Point, yes: set<int>)
    requires Distinct(c.qids) && IsBasket(b) && LegsInBounds(b.vars, b.x)
    requires Certifies(b, c.qids, Interpret(c, unquoted).constraints, dual, mu, yes, SetOf(c.qids))
    requires NoSum(b.vars, b.owner, b.x, |b.x|) + Net(b, yes) - GValue(gIndex, b.x) >= Target(gIndex)
    ensures Feasible(FormOf(c, unquoted, b.owner), b.vars, gIndex, Solution(b.x, dual, MuList(c.qids, mu)))
  {
    var form := FormOf(c, unquoted, b.owner);
    var s := Solution(b.x, dual, MuList(c.qids, mu));
    var rows := RowsOf(form, b.vars, gIndex).rows;
    forall i | 0 <= i < |c.qids| ensures |rows| == |c.qids| && Eval(rows[i], s) >= 0.0 && s.mu[i] >= 0.0 {
      RowValue(form, b.vars, gIndex, s, i);
      assert c.qids[i] in SetOf(c.qids);
    }
    RowsWeighted(form, b.vars, gIndex, map[], s);
    CoverValue(form, b.vars, gIndex, s);
    MuListTotal(c.qids, mu, |c.qids|);
  }

  /** Facet exactness. On a product-shaped cluster the facet LP and the world-row LP accept exactly
      the same baskets, so with the same objective their optima coincide. */
  lemma {:induction false} FacetExactness(c: Cluster, unquoted: set<int>, vars: seq<LPVar>, owner: seq<int>,
                                          gIndex: Option<nat>, x: seq<real>)
    requires Distinct(c.qids) && ProductShaped(Interpret(c, unquoted).constraints)
    requires Shape(vars, owner, x) && GPlaced(owner, gIndex) && LegsInBounds(vars, x)
    ensures HasDuals(FormOf(c, unquoted, owner), vars, gIndex, x) <==>
            forall w :: InOmega(c, unquoted, w) ==> RowHolds(vars, owner, gIndex, x, w)
  {
    var form := FormOf(c, unquoted, owner);
    if HasDuals(form, vars, gIndex, x) {
      var dual: seq<real>, mu: seq<real> :| Feasible(form, vars, gIndex, Solution(x, dual, mu));
      forall w | InOmega(c, unquoted, w) ensures RowHolds(vars, owner, gIndex, x, w) {
        FacetSoundness(c, unquoted, vars, owner, gIndex, Solution(x, dual, mu), w);
      }
    }
    if forall w :: InOmega(c, unquoted, w) ==> RowHolds(vars, owner, gIndex, x, w) {
      forall w | InOmega(c, unquoted, w) ensures PaysTarget(vars, owner, gIndex, x, PointOf(w)) {
        RowMeans(vars, owner, gIndex, x, w);
      }
      StrongDuality(c, unquoted, Basket(vars, owner, x), gIndex);
    }
  }

  // ---------- Off product shape: three pairwise mutual exclusions ----------

  function MutexEdge(id: int, a: int, b: int): Edge {
    Edge(id, a, b, MutualExclusion, true)
  }

  /** Questions 1, 2, 3, each pair mutually exclusive by an edge; no outcome set. */
  function Triangle(): Cluster {
    Cluster([1, 2, 3], [], [MutexEdge(10, 1, 2), MutexEdge(11, 2, 3), MutexEdge(12, 1, 3)])
  }

  function HalfNo(): Basket {
    var no := LPVar(0, NO, None, -1);
    Basket([no, no, no], [1, 2, 3], [0.5, 0.5, 0.5])
  }

  lemma {:induction false} EdgesSnoc(es: seq<Edge>, e: Edge, qs: set<int>)
    ensures EdgeConstraints(es + [e], qs) == EdgeConstraints(es, qs) + EdgeConstraint(e, qs)
  {
    assert (es + [e])[..|es|] == es;
  }

  lemma {:induction false} MutexConstraint(id: int, a: int, b: int, qs: set<int>)
    requires a in qs && b in qs && a != b
    ensures EdgeConstraint(MutexEdge(id, a, b), qs) == [HardEdge(id, Excludes, a, b)]
  {
  }

  lemma {:induction false} TriangleConstraints()
    ensures Interpret(Triangle(), {}).constraints ==
            [HardEdge(10, Excludes, 1, 2), HardEdge(11, Excludes, 2, 3), HardEdge(12, Excludes, 1, 3)]
  {
    hide EdgeConstraints, EdgeConstraint, MutexEdge;
    var qs := QidSet(Triangle());
    var e0, e1, e2 := MutexEdge(10, 1, 2), MutexEdge(11, 2, 3), MutexEdge(12, 1, 3);
    assert 1 in qs && 2 in qs && 3 in qs;
    MutexConstraint(10, 1, 2, qs);
    MutexConstraint(11, 2, 3, qs);
    MutexConstraint(12, 1, 3, qs);
    EdgesSnoc([], e0, qs);
    EdgesSnoc([e0], e1, qs);
    EdgesSnoc([e0, e1], e2, qs);
    assert [] + [e0] == [e0] && [e0] + [e1] == [e0, e1] && [e0, e1] + [e2] == Triangle().edges;
    NoEdges(qs);
  }

  lemma {:induction false} NoEdges(qs: set<int>)
    ensures EdgeConstraints([], qs) == []
  {
  }

  lemma {:induction false} HalfNoPays(z: Point)
    ensures var b := HalfNo();
            Payout(b.vars, b.owner, b.x, z, 3) == 1.5 - 0.5 * At(z, 1) - 0.5 * At(z, 2) - 0.5 * At(z, 3)
  {
    var b := HalfNo();
    assert Payout(b.vars, b.owner, b.x, z, 1) == 0.5 - 0.5 * At(z, 1);
    assert Payout(b.vars, b.owner, b.x, z, 2) == 1.0 - 0.5 * At(z, 1) - 0.5 * At(z, 2);
  }

  lemma {:induction false} MidPointOnFacet(k: Constraint, z: Point)
    requires k.HardEdge? && k.kind == Excludes && At(z, k.a) == 0.5 == At(z, k.b)
    ensures forall f :: f in ConstraintFacets(k) ==> OnFacet(f, z)
  {
    var pair := [(k.a, 1.0), (k.b, 1.0)];
    assert Dot(pair, z, 1) == 0.5 && Dot(pair, z, 2) == 1.0;
  }

  lemma {:induction false} PointValue(w: World, q: int)
    ensures At(PointOf(w), q) == if Yes(w, q) then 1.0 else 0.0
  {
  }

  lemma {:induction false} TriangleWorld(w: World)
    requires InOmega(Triangle(), {}, w)
    ensures RowHolds(HalfNo().vars, HalfNo().owner, None, HalfNo().x, w)
  {
    hide Interpret, RowHolds, PointOf, Payout;
    var b, cs := HalfNo(), Interpret(Triangle(), {}).constraints;
    TriangleConstraints();
    assert Holds(cs[0], w) && Holds(cs[1], w) && Holds(cs[2], w);
    HalfNoPays(PointOf(w));
    PointValue(w, 1);
    PointValue(w, 2);
    PointValue(w, 3);
    RowMeans(b.vars, b.owner, None, b.x, w);
  }

  lemma {:induction false} TriangleMidPoint()
    ensures InPolytope(Facets(Interpret(Triangle(), {}).constraints), [1, 2, 3], map[1 := 0.5, 2 := 0.5, 3 := 0.5])
  {
    hide OnFacet, ConstraintFacets, Interpret, Facets;
    var z: Point := map[1 := 0.5, 2 := 0.5, 3 := 0.5];
    var cs := Interpret(Triangle(), {}).constraints;
    TriangleConstraints();
    forall f | f in Facets(cs) ensures OnFacet(f, z) {
      FacetsMember(cs, f);
      var k :| k in cs && f in ConstraintFacets(k);
      MidPointOnFacet(k, z);
    }
  }

  /** Exactness fails off product shape: half a NO share on each of three pairwise exclusive questions
      pays at least 1 in every world, yet no duals exist, because the facet polytope also contains the
      fractional point (1/2, 1/2, 1/2), where it pays 3/4. The facet LP misses this basket. */
  lemma {:induction false} TriangleIsOneWay()
    ensures forall w :: InOmega(Triangle(), {}, w) ==> RowHolds(HalfNo().vars, HalfNo().owner, None, HalfNo().x, w)
    ensures !HasDuals(FormOf(Triangle(), {}, HalfNo().owner), HalfNo().vars, None, HalfNo().x)
  {
    hide InOmega, RowHolds, Feasible, FormOf;
    forall w | InOmega(Triangle(), {}, w) ensures RowHolds(HalfNo().vars, HalfNo().owner, None, HalfNo().x, w) {
      TriangleWorld(w);
    }
    forall dual: seq<real>, mu: seq<real>
      ensures !Feasible(FormOf(Triangle(), {}, HalfNo().owner), HalfNo().vars, None, Solution(HalfNo().x, dual, mu))
    {
      NoTriangleDuals(dual, mu);
    }
  }

  lemma {:induction false} NoTriangleDuals(dual: seq<real>, mu: seq<real>)
    ensures !Feasible(FormOf(Triangle(), {}, HalfNo().owner), HalfNo().vars, None, Solution(HalfNo().x, dual, mu))
  {
    hide Feasible, InPolytope, Facets;
    var b, form := HalfNo(), FormOf(Triangle(), {}, HalfNo().owner);
    var z: Point := map[1 := 0.5, 2 := 0.5, 3 := 0.5];
    TriangleMidPoint();
    HalfNoPays(z);
    if Feasible(form, b.vars, None, Solution(b.x, dual, mu)) {
      WeakDuality(form, b.vars, None, Solution(b.x, dual, mu), z);
    }
  }
}
