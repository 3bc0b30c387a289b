/** The facet (robust-counterpart) LP of services/arb-solver/src/solver/facet-lp.ts: its rows, and
    weak duality, i.e. every point it accepts pays the target in every coherent world. */
module FacetLp {
  import opened Wrappers
  import opened Graph
  import opened Omega
  import opened Lp

  // ---------- Constraints as facets of K = conv(Ω) ----------

  function Ones(slots: seq<int>): seq<(int, real)> {
    seq(|slots|, i requires 0 <= i < |slots| => (slots[i], 1.0))
  }

  function Link(a: int, b: int): seq<(int, real)> {
    [(a, 1.0), (b, -1.0)]
  }

  /** The first k rungs' facets z_i - z_{i+1} <= 0. */
  function ChainFacets(slots: seq<int>, k: nat): (fs: seq<Facet>)
    requires k == 0 || k < |slots|
    ensures |fs| == k
  {
    if k == 0 then [] else ChainFacets(slots, k - 1) + [Facet(Link(slots[k - 1], slots[k]), 0.0, false)]
  }

  function ConstraintFacets(c: Constraint): seq<Facet> {
    match c
    case OneHot(_, slots, exhaustive) => [Facet(Ones(slots), 1.0, exhaustive)]
    case Chain(_, slots) => ChainFacets(slots, if |slots| == 0 then 0 else |slots| - 1)
    case HardEdge(_, kind, a, b) =>
      match kind
      case Implies => [Facet(Link(a, b), 0.0, false)]
      case Excludes => [Facet([(a, 1.0), (b, 1.0)], 1.0, false)]
      case Equals => [Facet(Link(a, b), 0.0, true)]
  }

  function Facets(cs: seq<Constraint>): seq<Facet> {
    if cs == [] then [] else Facets(cs[..|cs| - 1]) + ConstraintFacets(cs[|cs| - 1])
  }

  method ConstraintsToFacets(cs: seq<Constraint>) returns (facets: seq<Facet>)
    ensures facets == Facets(cs)
  {
    facets := [];
    for n := 0 to |cs|
      invariant facets == Facets(cs[..n])
    {
      var c := cs[n];
      assert cs[..n + 1][..n] == cs[..n];
      match c
      case OneHot(_, slots, exhaustive) =>
        facets := facets + [Facet(Ones(slots), 1.0, exhaustive)];
      case Chain(_, slots) =>
        ghost var before := facets;
        var i := 0;
        while i + 1 < |slots|
          invariant 0 <= i && (i == 0 || i < |slots|)
          invariant facets == before + ChainFacets(slots, i)
        {
          facets := facets + [Facet(Link(slots[i], slots[i + 1]), 0.0, false)];
          i := i + 1;
        }
      case HardEdge(_, kind, a, b) =>
        match kind {
          case Implies => facets := facets + [Facet(Link(a, b), 0.0, false)];
          case Excludes => facets := facets + [Facet([(a, 1.0), (b, 1.0)], 1.0, false)];
          case Equals => facets := facets + [Facet(Link(a, b), 0.0, true)];
        }
    }
    assert cs[..|cs|] == cs;
  }

  function Dot(coeff: seq<(int, real)>, z: Point, k: nat): real
    requires k <= |coeff|
  {
    if k == 0 then 0.0 else Dot(coeff, z, k - 1) + coeff[k - 1].1 * At(z, coeff[k - 1].0)
  }

  function FacetAt(f: Facet, z: Point): real {
    Dot(f.coeff, z, |f.coeff|)
  }

  ghost predicate OnFacet(f: Facet, z: Point) {
    if f.isEq then FacetAt(f, z) == f.rhs else FacetAt(f, z) <= f.rhs
  }

  /** z lies in the facet polytope: the cube over the questions, cut by the facets. */
  ghost predicate InPolytope(facets: seq<Facet>, order: seq<int>, z: Point) {
    && (forall q :: q in z ==> q in order)
    && (forall q :: q in order ==> 0.0 <= At(z, q) <= 1.0)
    && (forall f :: f in facets ==> OnFacet(f, z))
  }

  // ---------- 0/1 points of the polytope are the worlds of Ω ----------

  lemma {:induction false} OnesCount(slots: seq<int>, w: World, k: nat)
    requires k <= |slots|
    ensures Dot(Ones(slots), PointOf(w), k) == CountYes(slots[..k], w) as real
  {
    if k > 0 {
      OnesCount(slots, w, k - 1);
      assert slots[..k] == slots[..k - 1] + [slots[k - 1]];
      CountYesSnoc(slots[..k - 1], slots[k - 1], w);
    }
  }

  lemma {:induction false} LinkAt(a: int, b: int, z: Point)
    ensures Dot(Link(a, b), z, 2) == At(z, a) - At(z, b)
  {
    assert Dot(Link(a, b), z, 1) == At(z, a);
  }

  lemma {:induction false} ChainFacetsOn(slots: seq<int>, k: nat, z: Point)
    requires k == 0 || k < |slots|
    ensures (forall f :: f in ChainFacets(slots, k) ==> OnFacet(f, z)) <==>
            (forall i {:trigger slots[i]} :: 0 <= i < k ==> At(z, slots[i]) <= At(z, slots[i + 1]))
  {
    if k > 0 {
      ChainFacetsOn(slots, k - 1, z);
      var f := Facet(Link(slots[k - 1], slots[k]), 0.0, false);
      LinkAt(slots[k - 1], slots[k], z);
      assert forall g :: g in ChainFacets(slots, k) <==> g in ChainFacets(slots, k - 1) || g == f;
      assert OnFacet(f, z) <==> At(z, slots[k - 1]) <= At(z, slots[k - 1 + 1]);
    }
  }

  lemma {:induction false} ConstraintFacetsMean(c: Constraint, w: World)
    ensures (forall f :: f in ConstraintFacets(c) ==> OnFacet(f, PointOf(w))) <==> Holds(c, w)
  {
    var z := PointOf(w);
    match c
    case OneHot(_, slots, exhaustive) =>
      OnesCount(slots, w, |slots|);
      assert slots[..|slots|] == slots;
      var f := Facet(Ones(slots), 1.0, exhaustive);
      assert FacetAt(f, z) == CountYes(slots, w) as real;
      assert f in ConstraintFacets(c) && forall g :: g in ConstraintFacets(c) ==> g == f;
    case Chain(_, slots) =>
      ChainFacetsOn(slots, if |slots| == 0 then 0 else |slots| - 1, z);
    case HardEdge(_, kind, a, b) =>
      LinkAt(a, b, z);
      var pair := [(a, 1.0), (b, 1.0)];
      assert Dot(pair, z, 1) == At(z, a);
      assert Dot(pair, z, 2) == At(z, a) + At(z, b);
      assert ConstraintFacets(c)[0] in ConstraintFacets(c);
  }

  lemma {:induction false} FacetsMember(cs: seq<Constraint>, f: Facet)
    ensures f in Facets(cs) <==> exists c :: c in cs && f in ConstraintFacets(c)
  {
    if cs != [] {
      var m := |cs| - 1;
      FacetsMember(cs[..m], f);
      assert forall c :: c in cs <==> c in cs[..m] || c == cs[m];
    }
  }

  /** The 0/1 points of the facet polytope are exactly the worlds of Ω, also for overlapping sets
      and under any set of unquoted questions. */
  lemma {:induction false} IntegralPointsAreOmega(c: Cluster, unquoted: set<int>, w: World)
    requires w.Keys == QidSet(c)
    ensures InPolytope(Facets(Interpret(c, unquoted).constraints), c.qids, PointOf(w)) <==> InOmega(c, unquoted, w)
  {
    var cs := Interpret(c, unquoted).constraints;
    var z := PointOf(w);
    forall f ensures f in Facets(cs) <==> exists k :: k in cs && f in ConstraintFacets(k) {
      FacetsMember(cs, f);
    }
    forall k ensures (forall f :: f in ConstraintFacets(k) ==> OnFacet(f, z)) <==> Holds(k, w) {
      ConstraintFacetsMean(k, w);
    }
    if forall f :: f in Facets(cs) ==> OnFacet(f, z) {
      forall k | k in cs ensures Holds(k, w) {
        assert forall f :: f in ConstraintFacets(k) ==> f in Facets(cs);
      }
    }
  }

  // ---------- The dualised rows ----------

  /** Columns of the facet LP: leg variables, one dual per facet, one bound dual per question. */
  datatype Column = X(i: nat) | DualOf(f: nat) | Mu(qi: nat)

  datatype Term = Term(coef: real, col: Column)

  /** A full solution: leg shares (with G), facet duals, question bound duals. */
  datatype Solution = Solution(x: seq<real>, dual: seq<real>, mu: seq<real>)

  datatype FacetRows = FacetRows(rows: seq<seq<Term>>, cover: seq<Term>, coverRhs: real)

  function Get(s: seq<real>, i: nat): real {
    if i < |s| then s[i] else 0.0
  }

  function ColumnValue(c: Column, s: Solution): real {
    match c
    case X(i) => Get(s.x, i)
    case DualOf(f) => Get(s.dual, f)
    case Mu(qi) => Get(s.mu, qi)
  }

  function TermValue(t: Term, s: Solution): real {
    t.coef * ColumnValue(t.col, s)
  }

  function Eval(ts: seq<Term>, s: Solution): real {
    if ts == [] then 0.0 else Eval(ts[..|ts| - 1], s) + TermValue(ts[|ts| - 1], s)
  }

  /** question -> row index; `order` holds a map's keys, so it has no repeats. */
  function Positions(order: seq<int>): map<int, nat> {
    if order == [] then map[] else Positions(order[..|order| - 1])[order[|order| - 1] := |order| - 1]
  }

  function AddTerm(rows: seq<seq<Term>>, pos: map<int, nat>, q: int, t: Term): seq<seq<Term>> {
    if q in pos && pos[q] < |rows| then rows[pos[q] := rows[pos[q]] + [t]] else rows
  }

  function MuRows(n: nat): seq<seq<Term>> {
    seq(n, i requires 0 <= i < n => [Term(1.0, Mu(i))])
  }

  function Sign(side: Side): real {
    if side == YES then 1.0 else -1.0
  }

  function LegRows(rows: seq<seq<Term>>, pos: map<int, nat>, vars: seq<LPVar>, owner: seq<int>, k: nat): seq<seq<Term>>
    requires |vars| == |owner| && k <= |vars|
  {
    if k == 0 then rows else
      var before := LegRows(rows, pos, vars, owner, k - 1);
      if owner[k - 1] < 0 then before
      else AddTerm(before, pos, owner[k - 1], Term(Sign(vars[k - 1].side), X(k - 1)))
  }

  /** An `eq` facet's dual enters negated and is free; a `le` facet's enters as is and is >= 0. */
  function Signed(f: Facet, a: real): real {
    if f.isEq then -a else a
  }

  function CoeffRows(rows: seq<seq<Term>>, pos: map<int, nat>, f: Facet, fi: nat, j: nat): seq<seq<Term>>
    requires j <= |f.coeff|
  {
    if j == 0 then rows else
      AddTerm(CoeffRows(rows, pos, f, fi, j - 1), pos, f.coeff[j - 1].0,
              Term(Signed(f, f.coeff[j - 1].1), DualOf(fi)))
  }

  function DualRows(rows: seq<seq<Term>>, pos: map<int, nat>, facets: seq<Facet>, k: nat): seq<seq<Term>>
    requires k <= |facets|
  {
    if k == 0 then rows else
      CoeffRows(DualRows(rows, pos, facets, k - 1), pos, facets[k - 1], k - 1, |facets[k - 1].coeff|)
  }

  function CoverDuals(facets: seq<Facet>, k: nat): seq<Term>
    requires k <= |facets|
  {
    if k == 0 then [] else
      CoverDuals(facets, k - 1) + [CoverDual(facets[k - 1], k - 1)]
  }

  function CoverDual(f: Facet, fi: nat): Term {
    Term(-Signed(f, f.rhs), DualOf(fi))
  }

  function CoverMus(n: nat): seq<Term> {
    if n == 0 then [] else CoverMus(n - 1) + [Term(-1.0, Mu(n - 1))]
  }

  function CoverLegs(vars: seq<LPVar>, owner: seq<int>, k: nat): seq<Term>
    requires |vars| == |owner| && k <= |vars|
  {
    if k == 0 then [] else
      CoverLegs(vars, owner, k - 1) +
      if owner[k - 1] >= 0 && vars[k - 1].side == NO then [Term(1.0, X(k - 1))] else []
  }

  function RowsOf(form: FacetForm, vars: seq<LPVar>, gIndex: Option<nat>): FacetRows
    requires |form.owner| == |vars|
  {
    var pos := Positions(form.order);
    var n := |form.order|;
    FacetRows(
      DualRows(LegRows(MuRows(n), pos, vars, form.owner, |vars|), pos, form.facets, |form.facets|),
      CoverDuals(form.facets, |form.facets|) + CoverMus(n) + CoverLegs(vars, form.owner, |vars|) +
      (if gIndex.Some? then [Term(-1.0, X(gIndex.value))] else []),
      Target(gIndex))
  }

  /** The source's loops that render the rows, coefficient by coefficient. It also omits terms and
      facets whose coefficient is 0; that changes the text of a row, not its value. */
  method BuildFacetRows(form: FacetForm, vars: seq<LPVar>, gIndex: Option<nat>) returns (r: FacetRows)
    requires |form.owner| == |vars|
    ensures r == RowsOf(form, vars, gIndex)
  {
    var n := |form.order|;
    var pos: map<int, nat> := map[];
    for i := 0 to n
      invariant pos == Positions(form.order[..i])
    {
      pos := pos[form.order[i] := i];
      assert form.order[..i + 1][..i] == form.order[..i];
    }
    assert form.order[..n] == form.order;
    var rows := seq(n, i requires 0 <= i < n => [Term(1.0, Mu(i))]);
    assert rows == MuRows(n);
    for i := 0 to |vars|
      invariant rows == LegRows(MuRows(n), pos, vars, form.owner, i)
    {
      var q := form.owner[i];
      if q < 0 { continue; }
      rows := AddTerm(rows, pos, q, Term(Sign(vars[i].side), X(i)));
    }
    ghost var legRows := rows;
    for fi := 0 to |form.facets|
      invariant rows == DualRows(legRows, pos, form.facets, fi)
    {
      var f := form.facets[fi];
      ghost var before := rows;
      for j := 0 to |f.coeff|
        invariant rows == CoeffRows(before, pos, f, fi, j)
      {
        rows := AddTerm(rows, pos, f.coeff[j].0, Term(Signed(f, f.coeff[j].1), DualOf(fi)));
      }
    }
    var cover: seq<Term> := [];
    for fi := 0 to |form.facets|
      invariant cover == CoverDuals(form.facets, fi)
    {
      cover := cover + [CoverDual(form.facets[fi], fi)];
    }
    for qi := 0 to n
      invariant cover == CoverDuals(form.facets, |form.facets|) + CoverMus(qi)
    {
      cover := cover + [Term(-1.0, Mu(qi))];
    }
    for i := 0 to |vars|
      invariant cover == CoverDuals(form.facets, |form.facets|) + CoverMus(n) + CoverLegs(vars, form.owner, i)
    {
      if form.owner[i] < 0 { continue; }
      if vars[i].side == NO { cover := cover + [Term(1.0, X(i))]; }
    }
    if gIndex.Some? { cover := cover + [Term(-1.0, X(gIndex.value))]; }
    r := FacetRows(rows, cover, Target(gIndex));
  }

  /** Sizes and signs of a solution: legs >= 0 and capped, `le` duals and question duals >= 0. */
  ghost predicate InBounds(form: FacetForm, vars: seq<LPVar>, s: Solution) {
    && |s.x| == |vars| == |form.owner|
    && |s.dual| == |form.facets| && |s.mu| == |form.order|
    && (forall i :: 0 <= i < |s.x| ==> s.x[i] >= 0.0 && (vars[i].cap.Some? ==> s.x[i] <= vars[i].cap.value))
    && (forall f :: 0 <= f < |s.dual| && !form.facets[f].isEq ==> s.dual[f] >= 0.0)
    && (forall qi :: 0 <= qi < |s.mu| ==> s.mu[qi] >= 0.0)
  }

  ghost predicate Feasible(form: FacetForm, vars: seq<LPVar>, gIndex: Option<nat>, s: Solution) {
    && InBounds(form, vars, s)
    && var r := RowsOf(form, vars, gIndex);
       && (forall i :: 0 <= i < |r.rows| ==> Eval(r.rows[i], s) >= 0.0)
       && Eval(r.cover, s) >= r.coverRhs
  }

  // ---------- What the rows add up to ----------

  /** Σ over rows of (value of the row's question at z) × (value of the row). */
  function Weighted(order: seq<int>, rows: seq<seq<Term>>, z: Point, s: Solution, k: nat): real
    requires |rows| == |order| && k <= |rows|
  {
    if k == 0 then 0.0 else
      Weighted(order, rows, z, s, k - 1) + At(z, order[k - 1]) * Eval(rows[k - 1], s)
  }

  function LegSum(vars: seq<LPVar>, owner: seq<int>, x: seq<real>, z: Point, k: nat): real
    requires Shape(vars, owner, x) && k <= |x|
  {
    if k == 0 then 0.0 else
      LegSum(vars, owner, x, z, k - 1) +
      if owner[k - 1] < 0 then 0.0 else Sign(vars[k - 1].side) * x[k - 1] * At(z, owner[k - 1])
  }

  function NoSum(vars: seq<LPVar>, owner: seq<int>, x: seq<real>, k: nat): real
    requires Shape(vars, owner, x) && k <= |x|
  {
    if k == 0 then 0.0 else
      NoSum(vars, owner, x, k - 1) + if owner[k - 1] >= 0 && vars[k - 1].side == NO then x[k - 1] else 0.0
  }

  function DualSum(facets: seq<Facet>, dual: seq<real>, z: Point, k: nat): real
    requires k <= |facets| == |dual|
  {
    if k == 0 then 0.0 else
      DualSum(facets, dual, z, k - 1) + Signed(facets[k - 1], dual[k - 1]) * FacetAt(facets[k - 1], z)
  }

  /** What the facet duals contribute to the cover row. */
  function DualCover(facets: seq<Facet>, dual: seq<real>, k: nat): real
    requires k <= |facets| == |dual|
  {
    if k == 0 then 0.0 else
      DualCover(facets, dual, k - 1) - Signed(facets[k - 1], dual[k - 1]) * facets[k - 1].rhs
  }

  function MuSum(order: seq<int>, mu: seq<real>, z: Point, k: nat): real
    requires k <= |order| == |mu|
  {
    if k == 0 then 0.0 else MuSum(order, mu, z, k - 1) + At(z, order[k - 1]) * mu[k - 1]
  }

  function Total(mu: seq<real>, k: nat): real
    requires k <= |mu|
  {
    if k == 0 then 0.0 else Total(mu, k - 1) + mu[k - 1]
  }

  lemma {:induction false} EvalSnoc(ts: seq<Term>, t: Term, s: Solution)
    ensures Eval(ts + [t], s) == Eval(ts, s) + TermValue(t, s)
  {
    assert (ts + [t])[..|ts + [t]| - 1] == ts;
  }

  lemma {:induction false} EvalConcat(a: seq<Term>, b: seq<Term>, s: Solution)
    ensures Eval(a + b, s) == Eval(a, s) + Eval(b, s)
  {
    if b == [] {
      assert a + b == a;
    } else {
      var m := |b| - 1;
      EvalConcat(a, b[..m], s);
      EvalSnoc(a + b[..m], b[m], s);
      assert a + b == (a + b[..m]) + [b[m]];
    }
  }

  lemma {:induction false} PositionsExact(order: seq<int>)
    requires Distinct(order)
    ensures forall q :: q in Positions(order) <==> q in order
    ensures forall i :: 0 <= i < |order| ==> order[i] in Positions(order) && Positions(order)[order[i]] == i
  {
    if order != [] {
      var m := |order| - 1;
      PositionsExact(order[..m]);
      assert order == order[..m] + [order[m]];
    }
  }

  lemma {:induction false} WeightedFrame(order: seq<int>, rows: seq<seq<Term>>, rows': seq<seq<Term>>, z: Point,
                                         s: Solution, k: nat)
    requires |rows| == |order| == |rows'| && k <= |rows|
    requires forall i :: 0 <= i < k ==> rows[i] == rows'[i]
    ensures Weighted(order, rows, z, s, k) == Weighted(order, rows', z, s, k)
  {
    if k > 0 {
      WeightedFrame(order, rows, rows', z, s, k - 1);
    }
  }

  lemma {:induction false} WeightedPush(order: seq<int>, rows: seq<seq<Term>>, i: nat, t: Term, z: Point, s: Solution,
                                        k: nat)
    requires |rows| == |order| && i < |rows| && k <= |rows|
    ensures Weighted(order, rows[i := rows[i] + [t]], z, s, k) ==
            Weighted(order, rows, z, s, k) + if i < k then At(z, order[i]) * TermValue(t, s) else 0.0
  {
    hide Eval, At, TermValue;
    var rows' := rows[i := rows[i] + [t]];
    if k > 0 {
      if i < k - 1 {
        WeightedPush(order, rows, i, t, z, s, k - 1);
      } else {
        WeightedFrame(order, rows, rows', z, s, k - 1);
        EvalSnoc(rows[i], t, s);
        if i == k - 1 {
          Split(At(z, order[i]), Eval(rows'[i], s), Eval(rows[i], s), TermValue(t, s));
        }
      }
    }
  }

  lemma {:induction false} Split(a: real, sum: real, b: real, c: real)
    requires sum == b + c
    ensures a * sum == a * b + a * c
  {
  }

  lemma {:induction false} Distribute(a: real, b: real, c: real)
    ensures a * (b + c) == a * b + a * c
  {
  }

  /** Adding a term to question q's row adds its value times z(q), also when q has no row, since
      z is 0 there. */
  lemma {:induction false} AddTermWeighted(order: seq<int>, rows: seq<seq<Term>>, q: int, t: Term, z: Point,
                                           s: Solution)
    requires Distinct(order) && |rows| == |order|
    requires forall p :: p in z ==> p in order
    ensures |AddTerm(rows, Positions(order), q, t)| == |order|
    ensures Weighted(order, AddTerm(rows, Positions(order), q, t), z, s, |order|) ==
            Weighted(order, rows, z, s, |order|) + At(z, q) * TermValue(t, s)
  {
    PositionsExact(order);
    if q in order {
      var i :| 0 <= i < |order| && order[i] == q;
      WeightedPush(order, rows, i, t, z, s, |order|);
    }
  }

  lemma {:induction false} MuRowsWeighted(order: seq<int>, z: Point, s: Solution, k: nat)
    requires |s.mu| == |order| && k <= |order|
    ensures Weighted(order, MuRows(|order|), z, s, k) == MuSum(order, s.mu, z, k)
  {
    if k > 0 {
      MuRowsWeighted(order, z, s, k - 1);
      EvalSnoc([], Term(1.0, Mu(k - 1)), s);
      assert [] + [Term(1.0, Mu(k - 1))] == MuRows(|order|)[k - 1];
    }
  }

  lemma {:induction false} LegRowsWeighted(order: seq<int>, vars: seq<LPVar>, owner: seq<int>, z: Point, s: Solution,
                                           k: nat)
    requires Distinct(order) && |s.mu| == |order|
    requires Shape(vars, owner, s.x) && k <= |vars|
    requires forall p :: p in z ==> p in order
    ensures var rows := LegRows(MuRows(|order|), Positions(order), vars, owner, k);
            && |rows| == |order|
            && Weighted(order, rows, z, s, |order|) == MuSum(order, s.mu, z, |order|) + LegSum(vars, owner, s.x, z, k)
  {
    if k == 0 {
      MuRowsWeighted(order, z, s, |order|);
    } else {
      LegRowsWeighted(order, vars, owner, z, s, k - 1);
      if owner[k - 1] >= 0 {
        AddTermWeighted(order, LegRows(MuRows(|order|), Positions(order), vars, owner, k - 1), owner[k - 1],
                        Term(Sign(vars[k - 1].side), X(k - 1)), z, s);
      }
    }
  }

  /** What the first j coefficient terms of facet f add to the weighted rows. */
  function CoeffSum(f: Facet, dual: real, z: Point, j: nat): real
    requires j <= |f.coeff|
  {
    if j == 0 then 0.0 else
      CoeffSum(f, dual, z, j - 1) + At(z, f.coeff[j - 1].0) * (Signed(f, f.coeff[j - 1].1) * dual)
  }

  lemma {:induction false} CoeffSumIsDual(f: Facet, dual: real, z: Point, j: nat)
    requires j <= |f.coeff|
    ensures CoeffSum(f, dual, z, j) == Signed(f, dual) * Dot(f.coeff, z, j)
  {
    if j > 0 {
      CoeffSumIsDual(f, dual, z, j - 1);
      var c, a := f.coeff[j - 1].1, At(z, f.coeff[j - 1].0);
      Distribute(Signed(f, dual), Dot(f.coeff, z, j - 1), c * a);
      assert a * (c * dual) == dual * (c * a);
    }
  }

  lemma {:induction false} CoeffRowsWeighted(order: seq<int>, rows: seq<seq<Term>>, f: Facet, fi: nat, z: Point,
                                             s: Solution, j: nat)
    requires Distinct(order) && |rows| == |order| && j <= |f.coeff| && fi < |s.dual|
    requires forall p :: p in z ==> p in order
    ensures |CoeffRows(rows, Positions(order), f, fi, j)| == |order|
    ensures Weighted(order, CoeffRows(rows, Positions(order), f, fi, j), z, s, |order|) ==
            Weighted(order, rows, z, s, |order|) + CoeffSum(f, s.dual[fi], z, j)
  {
    if j > 0 {
      CoeffRowsWeighted(order, rows, f, fi, z, s, j - 1);
      AddTermWeighted(order, CoeffRows(rows, Positions(order), f, fi, j - 1), f.coeff[j - 1].0,
                      Term(Signed(f, f.coeff[j - 1].1), DualOf(fi)), z, s);
    }
  }

  lemma {:induction false} DualRowsWeighted(order: seq<int>, rows: seq<seq<Term>>, facets: seq<Facet>, z: Point,
                                            s: Solution, k: nat)
    requires Distinct(order) && |rows| == |order| && k <= |facets| == |s.dual|
    requires forall p :: p in z ==> p in order
    ensures var rows' := DualRows(rows, Positions(order), facets, k);
            && |rows'| == |order|
            && Weighted(order, rows', z, s, |order|) ==
               Weighted(order, rows, z, s, |order|) + DualSum(facets, s.dual, z, k)
  {
    if k > 0 {
      DualRowsWeighted(order, rows, facets, z, s, k - 1);
      CoeffRowsWeighted(order, DualRows(rows, Positions(order), facets, k - 1), facets[k - 1], k - 1, z, s,
                        |facets[k - 1].coeff|);
      CoeffSumIsDual(facets[k - 1], s.dual[k - 1], z, |facets[k - 1].coeff|);
    }
  }

  /** Column by column instead of row by row: the z-weighted sum of the question rows. */
  lemma {:induction false} RowsWeighted(form: FacetForm, vars: seq<LPVar>, gIndex: Option<nat>, z: Point, s: Solution)
    requires Distinct(form.order) && |s.mu| == |form.order| && |s.dual| == |form.facets|
    requires Shape(vars, form.owner, s.x)
    requires forall p :: p in z ==> p in form.order
    ensures |RowsOf(form, vars, gIndex).rows| == |form.order|
    ensures Weighted(form.order, RowsOf(form, vars, gIndex).rows, z, s, |form.order|) ==
            MuSum(form.order, s.mu, z, |s.mu|) + LegSum(vars, form.owner, s.x, z, |s.x|) +
            DualSum(form.facets, s.dual, z, |s.dual|)
  {
    LegRowsWeighted(form.order, vars, form.owner, z, s, |vars|);
    DualRowsWeighted(form.order, LegRows(MuRows(|form.order|), Positions(form.order), vars, form.owner, |vars|),
                     form.facets, z, s, |form.facets|);
  }

  lemma {:induction false} CoverDualsValue(facets: seq<Facet>, s: Solution, k: nat)
    requires k <= |facets| == |s.dual|
    ensures Eval(CoverDuals(facets, k), s) == DualCover(facets, s.dual, k)
  {
    if k > 0 {
      CoverDualsValue(facets, s, k - 1);
      EvalSnoc(CoverDuals(facets, k - 1), CoverDual(facets[k - 1], k - 1), s);
    }
  }

  lemma {:induction false} CoverMusValue(s: Solution, n: nat)
    requires n <= |s.mu|
    ensures Eval(CoverMus(n), s) == -Total(s.mu, n)
  {
    if n > 0 {
      CoverMusValue(s, n - 1);
      EvalSnoc(CoverMus(n - 1), Term(-1.0, Mu(n - 1)), s);
    }
  }

  lemma {:induction false} CoverLegsValue(vars: seq<LPVar>, owner: seq<int>, s: Solution, k: nat)
    requires Shape(vars, owner, s.x) && k <= |vars|
    ensures Eval(CoverLegs(vars, owner, k), s) == NoSum(vars, owner, s.x, k)
  {
    if k > 0 {
      CoverLegsValue(vars, owner, s, k - 1);
      EvalSnoc(CoverLegs(vars, owner, k - 1), Term(1.0, X(k - 1)), s);
      assert CoverLegs(vars, owner, k - 1) + [] == CoverLegs(vars, owner, k - 1);
    }
  }

  lemma {:induction false} CoverValue(form: FacetForm, vars: seq<LPVar>, gIndex: Option<nat>, s: Solution)
    requires |s.mu| == |form.order| && |s.dual| == |form.facets| && Shape(vars, form.owner, s.x)
    ensures Eval(RowsOf(form, vars, gIndex).cover, s) ==
            DualCover(form.facets, s.dual, |s.dual|) - Total(s.mu, |s.mu|) +
            NoSum(vars, form.owner, s.x, |s.x|) - GValue(gIndex, s.x)
  {
    var a, b := CoverDuals(form.facets, |form.facets|), CoverMus(|form.order|);
    var c := CoverLegs(vars, form.owner, |vars|);
    CoverDualsValue(form.facets, s, |form.facets|);
    CoverMusValue(s, |form.order|);
    CoverLegsValue(vars, form.owner, s, |vars|);
    EvalConcat(a, b, s);
    EvalConcat(a + b, c, s);
    if gIndex.Some? {
      EvalSnoc(a + b + c, Term(-1.0, X(gIndex.value)), s);
    } else {
      assert a + b + c + [] == a + b + c;
    }
  }

  lemma {:induction false} LegSplit(side: Side, x: real, v: real)
    ensures side == YES ==> x * v == Sign(side) * x * v
    ensures side == NO ==> x * (1.0 - v) == x + Sign(side) * x * v
  {
  }

  /** Buying NO is receiving 1 and owing the question's value. */
  lemma {:induction false} PayoutSplit(vars: seq<LPVar>, owner: seq<int>, x: seq<real>, z: Point, k: nat)
    requires Shape(vars, owner, x) && k <= |x|
    ensures Payout(vars, owner, x, z, k) == NoSum(vars, owner, x, k) + LegSum(vars, owner, x, z, k)
  {
    if k > 0 {
      PayoutSplit(vars, owner, x, z, k - 1);
      LegSplit(vars[k - 1].side, x[k - 1], At(z, owner[k - 1]));
    }
  }

  // ---------- Weak duality ----------

  lemma {:induction false} WeightedNonNegative(order: seq<int>, rows: seq<seq<Term>>, z: Point, s: Solution, k: nat)
    requires |rows| == |order| && k <= |rows|
    requires forall i :: 0 <= i < k ==> At(z, order[i]) >= 0.0 && Eval(rows[i], s) >= 0.0
    ensures Weighted(order, rows, z, s, k) >= 0.0
  {
    if k > 0 {
      WeightedNonNegative(order, rows, z, s, k - 1);
      assert At(z, order[k - 1]) * Eval(rows[k - 1], s) >= 0.0;
    }
  }

  lemma {:induction false} MuBound(order: seq<int>, mu: seq<real>, z: Point, k: nat)
    requires k <= |order| == |mu|
    requires forall i :: 0 <= i < k ==> At(z, order[i]) <= 1.0 && mu[i] >= 0.0
    ensures MuSum(order, mu, z, k) <= Total(mu, k)
  {
    if k > 0 {
      MuBound(order, mu, z, k - 1);
      assert (1.0 - At(z, order[k - 1])) * mu[k - 1] >= 0.0;
    }
  }

  lemma {:induction false} DualBound(facets: seq<Facet>, dual: seq<real>, z: Point, k: nat)
    requires k <= |facets| == |dual|
    requires forall i :: 0 <= i < k ==> OnFacet(facets[i], z) && (!facets[i].isEq ==> dual[i] >= 0.0)
    ensures DualSum(facets, dual, z, k) + DualCover(facets, dual, k) <= 0.0
  {
    if k > 0 {
      DualBound(facets, dual, z, k - 1);
      var f, d := facets[k - 1], dual[k - 1];
      if !f.isEq {
        assert d * (f.rhs - FacetAt(f, z)) >= 0.0;
      }
    }
  }

  /** Weak duality: a basket the facet LP accepts pays at least the target (1, or G) at every point
      of the facet polytope, whatever the facets are. */
  lemma {:induction false} WeakDuality(form: FacetForm, vars: seq<LPVar>, gIndex: Option<nat>, s: Solution, z: Point)
    requires Distinct(form.order) && Feasible(form, vars, gIndex, s)
    requires InPolytope(form.facets, form.order, z)
    ensures PaysTarget(vars, form.owner, gIndex, s.x, z)
  {
    var n := |form.order|;
    RowsWeighted(form, vars, gIndex, z, s);
    CoverValue(form, vars, gIndex, s);
    PayoutSplit(vars, form.owner, s.x, z, |s.x|);
    assert forall i :: 0 <= i < n ==> form.order[i] in form.order;
    WeightedNonNegative(form.order, RowsOf(form, vars, gIndex).rows, z, s, n);
    MuBound(form.order, s.mu, z, n);
    DualBound(form.facets, s.dual, z, |form.facets|);
  }
}
