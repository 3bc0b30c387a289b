/** The skip filter of services/arb-solver/src/solver/skip-filter.ts: a stored dual certificate may
    stand in for a solve. Key strings are modelled by the structured values they encode. */
module SkipFilter {
  import opened Wrappers
  import opened Lp

  const EPS: real := 0.0000001

  datatype Status = Optimal | Infeasible | Unbounded | Error

  datatype LPResult = LPResult(status: Status, optimalCost: real, rowDual: Option<seq<real>>)

  /** Shape of an LP: variables, rows, G's place, leg identities and the covering pattern. */
  datatype StructKey = StructKey(numVars: nat, numRows: nat, g: int, legs: seq<(int, Side, int)>, cols: seq<seq<nat>>)

  datatype Cert = Cert(key: StructKey, optimalCost: real, sumRowDual: real, rowDual: seq<real>,
                       colStates: seq<seq<nat>>, profitMax: bool)

  datatype Reason = Skip | NoCert | ProfitMax | StructChanged | CertInvalid | BelowTheta | FacetPath

  datatype Decision = Decision(skip: bool, reason: Reason)

  /** A product as a function, so equal factors give equal products. */
  function Times(a: real, b: real): real {
    a * b
  }

  lemma {:induction false} TimesPlus(a: real, b: real, c: real)
    ensures Times(a + b, c) == Times(a, c) + Times(b, c)
  {
  }

  function Entry(rows: seq<seq<real>>, s: nat, i: nat): real {
    if s < |rows| && i < |rows[s]| then rows[s][i] else 0.0
  }

  /** Rows s < k whose entry in column i is positive. */
  function Column(rows: seq<seq<real>>, i: nat, k: nat): seq<nat> {
    if k == 0 then []
    else if Entry(rows, k - 1, i) > 0.0 then Column(rows, i, k - 1) + [k - 1]
    else Column(rows, i, k - 1)
  }

  function ColStates(lp: LPProblem): seq<seq<nat>>
    requires Rectangular(lp)
  {
    seq(|lp.variables|, i requires 0 <= i < |lp.variables| => Column(lp.constraints, i, |lp.constraints|))
  }

  method ColStatesOf(lp: LPProblem) returns (cs: seq<seq<nat>>)
    requires Rectangular(lp)
    ensures cs == ColStates(lp)
  {
    var n := |lp.variables|;
    cs := seq(n, i => []);
    for s := 0 to |lp.constraints|
      invariant |cs| == n && forall i :: 0 <= i < n ==> cs[i] == Column(lp.constraints, i, s)
    {
      var row := lp.constraints[s];
      for i := 0 to n
        invariant |cs| == n
        invariant forall j :: 0 <= j < i ==> cs[j] == Column(lp.constraints, j, s + 1)
        invariant forall j :: i <= j < n ==> cs[j] == Column(lp.constraints, j, s)
      {
        if row[i] > 0.0 { cs := cs[i := cs[i] + [s]]; }
      }
    }
  }

  function Signature(vars: seq<LPVar>): seq<(int, Side, int)> {
    seq(|vars|, i requires 0 <= i < |vars| => (vars[i].marketId, vars[i].side, vars[i].level))
  }

  function KeyOf(lp: LPProblem): StructKey
    requires Rectangular(lp)
  {
    StructKey(|lp.variables|, |lp.constraints|, if lp.gIndex.Some? then lp.gIndex.value else -1,
              Signature(lp.variables), ColStates(lp))
  }

  function Sum(y: seq<real>, k: nat): real
    requires k <= |y|
  {
    if k == 0 then 0.0 else Sum(y, k - 1) + y[k - 1]
  }

  function CertFrom(lp: LPProblem, optimalCost: real, y: seq<real>): Cert
    requires Rectangular(lp)
  {
    Cert(KeyOf(lp), optimalCost, Sum(y, |y|), y, ColStates(lp), false)
  }

  /** None when the solve cannot be trusted as a certificate. */
  method BuildCert(lp: LPProblem, result: LPResult) returns (cert: Option<Cert>)
    requires Rectangular(lp)
    ensures cert.Some? <==> lp.facetForm.None? && result.status == Optimal && lp.gIndex.None? &&
                            result.rowDual.Some? && |result.rowDual.value| == |lp.constraints|
    ensures cert.Some? ==> cert.value == CertFrom(lp, result.optimalCost, result.rowDual.value)
  {
    if lp.facetForm.Some? || result.status != Optimal || lp.gIndex.Some? { return None; }
    if result.rowDual.None? || |result.rowDual.value| != |lp.constraints| { return None; }
    var y := result.rowDual.value;
    var sum := 0.0;
    for s := 0 to |y|
      invariant sum == Sum(y, s)
    {
      sum := sum + y[s];
    }
    var cols := ColStatesOf(lp);
    cert := Some(Cert(KeyOf(lp), result.optimalCost, sum, y, cols, false));
  }

  /** What a stored certificate always satisfies, whatever the solver returned. */
  ghost predicate Stored(c: Cert) {
    && c.key.cols == c.colStates && c.key.numRows == |c.rowDual| && c.key.numVars == |c.colStates| && !c.profitMax
    && c.sumRowDual == Sum(c.rowDual, |c.rowDual|)
    && (forall i :: 0 <= i < |c.colStates| ==> forall s :: s in c.colStates[i] ==> s < |c.rowDual|)
    && c.key.g == -1
  }

  lemma {:induction false} ColumnInRange(rows: seq<seq<real>>, i: nat, k: nat)
    ensures forall s :: s in Column(rows, i, k) ==> s < k
  {
    if k > 0 { ColumnInRange(rows, i, k - 1); }
  }

  lemma {:induction false} BuiltIsStored(lp: LPProblem, optimalCost: real, y: seq<real>)
    requires Rectangular(lp) && lp.gIndex.None? && |y| == |lp.constraints|
    ensures Stored(CertFrom(lp, optimalCost, y))
  {
    var cert := CertFrom(lp, optimalCost, y);
    forall i | 0 <= i < |cert.colStates| ensures forall s :: s in cert.colStates[i] ==> s < |cert.rowDual| {
      ColumnInRange(lp.constraints, i, |lp.constraints|);
    }
  }

  function DualAt(y: seq<real>, s: nat): real {
    if s < |y| then y[s] else 0.0
  }

  /** Σ of the duals of the rows a column covers. */
  function Cover(states: seq<nat>, y: seq<real>): real {
    if states == [] then 0.0 else Cover(states[..|states| - 1], y) + DualAt(y, states[|states| - 1])
  }

  /** How far column i's cost undercuts the stored duals; positive means the column needs a bound dual. */
  function Violation(c: Cert, lp: LPProblem, i: nat): real {
    if i < |c.colStates| && i < |lp.objective| then Cover(c.colStates[i], c.rowDual) - lp.objective[i] else 0.0
  }

  /** Bound-dual penalty of column i: cap times violation; None when an uncapped column needs one.
      Columns that cover no row (G, or a leg that never pays) are passed over. */
  function Charge(c: Cert, lp: LPProblem, i: nat): Option<real>
    requires i < |lp.variables|
  {
    if |c.colStates| <= i || c.colStates[i] == [] then Some(0.0)
    else if Violation(c, lp, i) <= EPS then Some(0.0)
    else if lp.variables[i].cap.None? then None
    else Some(Times(lp.variables[i].cap.value, Violation(c, lp, i)))
  }

  function Plus(a: Option<real>, b: Option<real>): Option<real> {
    if a.Some? && b.Some? then Some(a.value + b.value) else None
  }

  /** Penalty of the first k columns. */
  function Penalty(c: Cert, lp: LPProblem, k: nat): Option<real>
    requires k <= |lp.variables|
  {
    if k == 0 then Some(0.0) else Plus(Penalty(c, lp, k - 1), Charge(c, lp, k - 1))
  }

  lemma {:induction false} PenaltyNone(c: Cert, lp: LPProblem, i: nat, k: nat)
    requires i <= k <= |lp.variables| && Penalty(c, lp, i).None?
    ensures Penalty(c, lp, k).None?
  {
    if i < k { PenaltyNone(c, lp, i, k - 1); }
  }

  method CoverOf(states: seq<nat>, y: seq<real>) returns (cover: real)
    requires forall s :: s in states ==> s < |y|
    ensures cover == Cover(states, y)
  {
    cover := 0.0;
    for j := 0 to |states|
      invariant cover == Cover(states[..j], y)
    {
      assert states[..j + 1][..j] == states[..j] && states[j] in states;
      cover := cover + y[states[j]];
    }
    assert states[..|states|] == states;
  }

  method ChargeOf(c: Cert, lp: LPProblem, i: nat) returns (charge: Option<real>)
    requires Stored(c) && Rectangular(lp) && i < |lp.variables|
    ensures charge == Charge(c, lp, i)
  {
    if |c.colStates| <= i || c.colStates[i] == [] { return Some(0.0); }
    var cover := CoverOf(c.colStates[i], c.rowDual);
    var w := cover - lp.objective[i];
    if w <= EPS { return Some(0.0); }
    if lp.variables[i].cap.None? { return None; }
    charge := Some(Times(lp.variables[i].cap.value, w));
  }

  method DualLowerBound(c: Cert, lp: LPProblem) returns (l: real, valid: bool)
    requires Stored(c) && Rectangular(lp)
    ensures valid <==> Penalty(c, lp, |lp.variables|).Some?
    ensures valid ==> l == c.sumRowDual - Penalty(c, lp, |lp.variables|).value
  {
    var penalty := 0.0;
    for i := 0 to |lp.variables|
      invariant Penalty(c, lp, i) == Some(penalty)
    {
      var charge := ChargeOf(c, lp, i);
      if charge.None? {
        PenaltyNone(c, lp, i + 1, |lp.variables|);
        return 0.0, false;
      }
      penalty := penalty + charge.value;
    }
    l, valid := c.sumRowDual - penalty, true;
  }

  method DecideSkip(cert: Option<Cert>, lp: LPProblem, theta: real, eps: real) returns (d: Decision)
    requires Rectangular(lp) && (cert.Some? ==> Stored(cert.value))
    ensures d.skip <==> d.reason == Skip
    ensures d.skip <==> Skips(cert, lp, theta, eps)
    ensures d.reason == FacetPath <==> lp.facetForm.Some?
    ensures d.reason == NoCert <==> lp.facetForm.None? && cert.None?
    ensures d.reason == ProfitMax <==> lp.facetForm.None? && cert.Some? && lp.gIndex.Some?
    ensures d.reason == StructChanged <==> lp.facetForm.None? && cert.Some? && lp.gIndex.None? &&
                                           KeyOf(lp) != cert.value.key
    ensures d.reason == CertInvalid <==> lp.facetForm.None? && cert.Some? && lp.gIndex.None? &&
                                         KeyOf(lp) == cert.value.key && Penalty(cert.value, lp, |lp.variables|).None?
  {
    if lp.facetForm.Some? { return Decision(false, FacetPath); }
    if cert.None? { return Decision(false, NoCert); }
    var c := cert.value;
    if c.profitMax || lp.gIndex.Some? { return Decision(false, ProfitMax); }
    if KeyOf(lp) != c.key { return Decision(false, StructChanged); }
    var l, valid := DualLowerBound(c, lp);
    if !valid { return Decision(false, CertInvalid); }
    if l >= theta + eps { return Decision(true, Skip); }
    return Decision(false, BelowTheta);
  }

  predicate Skips(cert: Option<Cert>, lp: LPProblem, theta: real, eps: real)
    requires Rectangular(lp) && (cert.Some? ==> Stored(cert.value))
  {
    && lp.facetForm.None? && cert.Some? && lp.gIndex.None?
    && KeyOf(lp) == cert.value.key
    && var p := Penalty(cert.value, lp, |lp.variables|);
       p.Some? && cert.value.sumRowDual - p.value >= theta + eps
  }

  // ---------- Soundness ----------

  /** A min-cost LP as `buildLP` emits it: 0/1 rows, right-hand sides 1. */
  ghost predicate CoveringLP(lp: LPProblem) {
    && Rectangular(lp)
    && (forall s :: 0 <= s < |lp.constraints| ==> BinaryRow(lp.constraints[s]))
    && (forall s :: 0 <= s < |lp.rhs| ==> lp.rhs[s] == 1.0)
  }

  function Cost(c: seq<real>, x: seq<real>, k: nat): real
    requires k <= |c| == |x|
  {
    if k == 0 then 0.0 else Cost(c, x, k - 1) + Times(c[k - 1], x[k - 1])
  }

  ghost predicate Grid(rows: seq<seq<real>>, n: nat) {
    forall s :: 0 <= s < |rows| ==> |rows[s]| == n
  }

  // Σ over a table f of m rows and n columns, either way round.

  function ColTotal(f: (nat, nat) -> real, i: nat, m: nat): real {
    if m == 0 then 0.0 else ColTotal(f, i, m - 1) + f(m - 1, i)
  }

  function ByColumns(f: (nat, nat) -> real, m: nat, n: nat): real {
    if n == 0 then 0.0 else ByColumns(f, m, n - 1) + ColTotal(f, n - 1, m)
  }

  function RowTotal(f: (nat, nat) -> real, s: nat, n: nat): real {
    if n == 0 then 0.0 else RowTotal(f, s, n - 1) + f(s, n - 1)
  }

  function ByRows(f: (nat, nat) -> real, m: nat, n: nat): real {
    if m == 0 then 0.0 else ByRows(f, m - 1, n) + RowTotal(f, m - 1, n)
  }

  lemma {:induction false} OneMoreRow(f: (nat, nat) -> real, m: nat, n: nat)
    ensures ByColumns(f, m + 1, n) == ByColumns(f, m, n) + RowTotal(f, m, n)
  {
    if n > 0 { OneMoreRow(f, m, n - 1); }
  }

  /** Columns first or rows first: the same double sum. */
  lemma {:induction false} ColumnsAreRows(f: (nat, nat) -> real, m: nat, n: nat)
    ensures ByColumns(f, m, n) == ByRows(f, m, n)
  {
    if m > 0 {
      ColumnsAreRows(f, m - 1, n);
      OneMoreRow(f, m - 1, n);
    } else {
      NoRows(f, n);
    }
  }

  lemma {:induction false} NoRows(f: (nat, nat) -> real, n: nat)
    ensures ByColumns(f, 0, n) == 0.0
  {
    if n > 0 { NoRows(f, n - 1); }
  }

  /** Dual times shares where row s covers column i. */
  function Product(rows: seq<seq<real>>, y: seq<real>, x: seq<real>): (nat, nat) -> real {
    (s: nat, i: nat) => if Entry(rows, s, i) > 0.0 && i < |x| then Times(DualAt(y, s), x[i]) else 0.0
  }

  ghost predicate BinaryRow(row: seq<real>) {
    forall i :: 0 <= i < |row| ==> row[i] == 0.0 || row[i] == 1.0
  }

  lemma {:induction false} Spread(p: real, d: real, a: real, b: real)
    requires p == d * (a + b)
    ensures p == d * a + d * b
  {
  }

  lemma {:induction false} RowTotalIsDot(rows: seq<seq<real>>, y: seq<real>, x: seq<real>, s: nat, k: nat)
    requires Grid(rows, |x|) && s < |rows| && k <= |x| && BinaryRow(rows[s])
    ensures RowTotal(Product(rows, y, x), s, k) == Times(DualAt(y, s), DotRow(rows[s], x, k))
  {
    if k > 0 {
      RowTotalIsDot(rows, y, x, s, k - 1);
      Spread(DualAt(y, s) * DotRow(rows[s], x, k), DualAt(y, s), DotRow(rows[s], x, k - 1), rows[s][k - 1] * x[k - 1]);
    }
  }

  /** One more row adds its dual to the cover of the columns it covers. */
  lemma {:induction false} CoverStep(rows: seq<seq<real>>, y: seq<real>, i: nat, m: nat, xi: real)
    ensures Times(Cover(Column(rows, i, m + 1), y), xi) ==
            Times(Cover(Column(rows, i, m), y), xi) + if Entry(rows, m, i) > 0.0 then Times(DualAt(y, m), xi) else 0.0
  {
    if Entry(rows, m, i) > 0.0 {
      CoverSnoc(Column(rows, i, m), m, y);
      TimesPlus(Cover(Column(rows, i, m), y), DualAt(y, m), xi);
    }
  }

  lemma {:induction false} NoCover(rows: seq<seq<real>>, y: seq<real>, i: nat, xi: real)
    ensures Times(Cover(Column(rows, i, 0), y), xi) == 0.0
  {
  }

  lemma {:induction false} ColTotalIsCover(rows: seq<seq<real>>, y: seq<real>, x: seq<real>, i: nat, m: nat)
    requires i < |x|
    ensures ColTotal(Product(rows, y, x), i, m) == Times(Cover(Column(rows, i, m), y), x[i])
  {
    hide Times, Cover, Entry, DualAt;
    var f := Product(rows, y, x);
    if m == 0 {
      NoCover(rows, y, i, x[i]);
    } else {
      ColTotalIsCover(rows, y, x, i, m - 1);
      assert ColTotal(f, i, m) == ColTotal(f, i, m - 1) + f(m - 1, i);
      CoverStep(rows, y, i, m - 1, x[i]);
    }
  }

  lemma {:induction false} CoverSnoc(states: seq<nat>, s: nat, y: seq<real>)
    ensures Cover(states + [s], y) == Cover(states, y) + DualAt(y, s)
  {
    assert (states + [s])[..|states + [s]| - 1] == states;
  }

  lemma {:induction false} RowsPaySum(rows: seq<seq<real>>, y: seq<real>, x: seq<real>, m: nat)
    requires m <= |rows| == |y| && Grid(rows, |x|)
    requires forall s :: 0 <= s < m ==> y[s] >= 0.0 && BinaryRow(rows[s]) && DotRow(rows[s], x, |x|) >= 1.0
    ensures ByRows(Product(rows, y, x), m, |x|) >= Sum(y, m)
  {
    if m > 0 {
      RowsPaySum(rows, y, x, m - 1);
      RowTotalIsDot(rows, y, x, m - 1, |x|);
      assert y[m - 1] * (DotRow(rows[m - 1], x, |x|) - 1.0) >= 0.0;
    }
  }

  /** A tolerated violation on this column's shares. */
  function Small(c: Cert, lp: LPProblem, x: seq<real>, i: nat): real
    requires i < |x|
  {
    if 0.0 < Violation(c, lp, i) <= EPS then x[i] else 0.0
  }

  /** Shares in columns whose violation is positive but within EPS, which the filter lets pass. */
  function SmallShares(c: Cert, lp: LPProblem, x: seq<real>, k: nat): real
    requires k <= |x|
  {
    if k == 0 then 0.0 else SmallShares(c, lp, x, k - 1) + Small(c, lp, x, k - 1)
  }

  ghost predicate SameShape(c: Cert, lp: LPProblem) {
    Stored(c) && CoveringLP(lp) && KeyOf(lp) == c.key
  }

  ghost predicate UncoveredCostly(c: Cert, lp: LPProblem) {
    |c.colStates| == |lp.objective| && forall i :: 0 <= i < |lp.objective| && c.colStates[i] == [] ==>
      lp.objective[i] >= 0.0
  }

  /** One column: its cost makes up for its cover, except for its charge and a tolerated violation. */
  lemma {:induction false} ColumnBound(c: Cert, lp: LPProblem, x: seq<real>, i: nat)
    requires SameShape(c, lp) && UncoveredCostly(c, lp) && FeasibleBasket(lp, x) && i < |x|
    requires Charge(c, lp, i).Some?
    ensures Times(lp.objective[i], x[i]) >= Times(Cover(c.colStates[i], c.rowDual), x[i]) - Charge(c, lp,
                i).value - EPS * Small(c, lp, x, i)
  {
    var w, cap := Violation(c, lp, i), lp.variables[i].cap;
    if c.colStates[i] == [] {
      assert Times(lp.objective[i], x[i]) >= 0.0;
    } else if w > EPS {
      ColumnCost(Cover(c.colStates[i], c.rowDual), lp.objective[i], x[i], cap.value, w);
    } else {
      ColumnCost(Cover(c.colStates[i], c.rowDual), lp.objective[i], x[i], x[i], w);
    }
  }

  lemma {:induction false} ColumnCost(cover: real, cost: real, x: real, cap: real, w: real)
    requires 0.0 <= x <= cap && w == cover - cost
    ensures w <= 0.0 ==> Times(cost, x) >= Times(cover, x)
    ensures 0.0 < w <= EPS ==> Times(cost, x) >= Times(cover, x) - EPS * x
    ensures w > EPS ==> Times(cost, x) >= Times(cover, x) - Times(cap, w)
  {
    assert cost * x == cover * x - w * x;
    if w <= 0.0 {
      assert (-w) * x >= 0.0;
    } else if w <= EPS {
      assert (EPS - w) * x >= 0.0;
    } else {
      assert w * (cap - x) >= 0.0;
    }
  }

  /** ... in terms of the products. */
  lemma {:induction false} ColumnBoundTotal(c: Cert, lp: LPProblem, x: seq<real>, i: nat)
    requires SameShape(c, lp) && UncoveredCostly(c, lp) && FeasibleBasket(lp, x) && i < |x|
    requires Charge(c, lp, i).Some?
    ensures Times(lp.objective[i], x[i]) >=
            ColTotal(Product(lp.constraints, c.rowDual, x), i, |lp.constraints|) - Charge(c, lp,
                i).value - EPS * Small(c, lp, x, i)
  {
    ColumnBound(c, lp, x, i);
    ColTotalIsCover(lp.constraints, c.rowDual, x, i, |lp.constraints|);
    assert c.colStates[i] == Column(lp.constraints, i, |lp.constraints|);
  }

  /** Summed over the columns. */
  lemma {:induction false} CostCovers(c: Cert, lp: LPProblem, x: seq<real>, k: nat)
    requires SameShape(c, lp) && UncoveredCostly(c, lp) && FeasibleBasket(lp, x) && k <= |x|
    requires Penalty(c, lp, k).Some?
    ensures Cost(lp.objective, x, k) >=
            ByColumns(Product(lp.constraints, c.rowDual, x), |lp.constraints|, k) - Penalty(c, lp,
                k).value - EPS * SmallShares(c, lp, x, k)
  {
    hide Times, SameShape, UncoveredCostly, FeasibleBasket, ColTotal, Product, Small, Charge;
    if k > 0 {
      ColumnBoundTotal(c, lp, x, k - 1);
      CostCovers(c, lp, x, k - 1);
      Spread(EPS * SmallShares(c, lp, x, k), EPS, SmallShares(c, lp, x, k - 1), Small(c, lp, x, k - 1));
    }
  }

  /** Skip-filter soundness. With non-negative stored row duals (they come from the solver and are not
      checked by the code), a skip means every capped basket that satisfies this tick's rows costs at
      least theta, up to EPS times the shares in columns whose violation the filter tolerates. */
  lemma {:induction false} SkipSound(c: Cert, lp: LPProblem, theta: real, eps: real, x: seq<real>)
    requires Stored(c) && (forall s :: 0 <= s < |c.rowDual| ==> c.rowDual[s] >= 0.0)
    requires CoveringLP(lp) && FeasibleBasket(lp, x) && Skips(Some(c), lp, theta, eps)
    requires UncoveredCostly(c, lp)
    ensures Cost(lp.objective, x, |x|) >= theta + eps - EPS * SmallShares(c, lp, x, |x|)
  {
    CostCovers(c, lp, x, |x|);
    ColumnsAreRows(Product(lp.constraints, c.rowDual, x), |lp.constraints|, |x|);
    RowsPaySum(lp.constraints, c.rowDual, x, |lp.constraints|);
  }
}
