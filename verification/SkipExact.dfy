/** The skip filter's bound is as good as its duals (services/arb-solver/src/solver/skip-filter.ts, lines 73-124):
    it is the value the stored duals give some basket within the caps, and is missing only when no bound exists. */
module SkipExact {
  import opened Wrappers
  import opened Lp
  import opened SkipFilter

  /** The duals of the rows that pay column i, read off the rows themselves. */
  function PaidDuals(lp: LPProblem, y: seq<real>, i: nat, m: nat): real {
    if m == 0 then 0.0
    else PaidDuals(lp, y, i, m - 1) + if m - 1 < |lp.constraints| && i < |lp.constraints[m - 1]| &&
                                                                  lp.constraints[m - 1][i] > 0.0 && m - 1 < |y|
                                      then y[m - 1] else 0.0
  }

  lemma {:induction false} CoverIsPaid(lp: LPProblem, y: seq<real>, i: nat, m: nat)
    requires m <= |lp.constraints|
    ensures Cover(Column(lp.constraints, i, m), y) == PaidDuals(lp, y, i, m)
  {
    hide Cover;
    if m > 0 {
      CoverIsPaid(lp, y, i, m - 1);
      if Entry(lp.constraints, m - 1, i) > 0.0 { CoverSnoc(Column(lp.constraints, i, m - 1), m - 1, y); }
    } else {
      NothingCovered(y);
    }
  }

  lemma {:induction false} NothingCovered(y: seq<real>)
    ensures Cover([], y) == 0.0
  {
  }

  lemma {:induction false} ColumnPays(rows: seq<seq<real>>, i: nat, m: nat)
    requires m <= |rows|
    ensures Column(rows, i, m) == [] <==> forall s :: 0 <= s < m ==> Entry(rows, s, i) <= 0.0
  {
    if m > 0 { ColumnPays(rows, i, m - 1); }
  }

  ghost predicate Pays(lp: LPProblem, i: nat) {
    exists s: nat :: PaysIn(lp, s, i)
  }

  predicate PaysIn(lp: LPProblem, s: nat, i: nat) {
    s < |lp.constraints| && i < |lp.constraints[s]| && lp.constraints[s][i] > 0.0
  }

  lemma {:induction false} PaysIff(lp: LPProblem, i: nat)
    ensures Column(lp.constraints, i, |lp.constraints|) == [] <==> !Pays(lp, i)
  {
    hide Column;
    ColumnPays(lp.constraints, i, |lp.constraints|);
    forall s: nat ensures PaysIn(lp, s, i) <==> s < |lp.constraints| && Entry(lp.constraints, s, i) > 0.0 {}
  }

  /** Column i pays in some row, and costs less than the stored duals make its rows worth, by more than the
      tolerance. */
  ghost predicate Undercuts(c: Cert, lp: LPProblem, i: nat) {
    && i < |lp.objective| && Pays(lp, i)
    && PaidDuals(lp, c.rowDual, i, |lp.constraints|) > lp.objective[i] + 0.0000001
  }

  lemma {:induction false} ChargeIs(c: Cert, lp: LPProblem, i: nat)
    requires SameShape(c, lp) && i < |lp.variables|
    ensures Charge(c, lp, i) ==
            if !Undercuts(c, lp, i) then Some(0.0)
            else if lp.variables[i].cap == None then None
            else Some(Times(lp.variables[i].cap.value, PaidDuals(lp, c.rowDual, i, |lp.constraints|) - lp.objective[i]))
  {
    hide Cover, Pays, Times;
    var m := |lp.constraints|;
    assert c.colStates[i] == Column(lp.constraints, i, m);
    CoverIsPaid(lp, c.rowDual, i, m);
    PaysIff(lp, i);
    assert Violation(c, lp, i) == PaidDuals(lp, c.rowDual, i, m) - lp.objective[i];
  }

  /** Some uncapped column undercuts. */
  ghost predicate Unbounded(c: Cert, lp: LPProblem, k: nat) {
    exists i :: 0 <= i < k && i < |lp.variables| && lp.variables[i].cap == None && Undercuts(c, lp, i)
  }

  /** A bound is missing exactly when an uncapped column undercuts the stored duals: shares in it lower their value
      without end. */
  lemma {:induction false} NoBoundIff(c: Cert, lp: LPProblem, k: nat)
    requires SameShape(c, lp) && k <= |lp.variables|
    ensures Penalty(c, lp, k).None? <==> Unbounded(c, lp, k)
  {
    hide Charge, Undercuts, SameShape;
    if k > 0 {
      NoBoundIff(c, lp, k - 1);
      ChargeIs(c, lp, k - 1);
    }
  }

  // ---------- The basket that attains it ----------

  /** All there is of the columns that undercut, and nothing else. */
  ghost function Greedy(c: Cert, lp: LPProblem): (x: seq<real>)
    ensures |x| == |lp.variables|
  {
    seq(|lp.variables|, i requires 0 <= i < |lp.variables| =>
      if Undercuts(c, lp, i) && lp.variables[i].cap.Some? then lp.variables[i].cap.value else 0.0)
  }

  /** What a basket falls short of the rows by, at the stored duals. */
  function Shortfall(lp: LPProblem, y: seq<real>, x: seq<real>, m: nat): real
    requires m <= |lp.constraints| && m <= |y| && forall s :: 0 <= s < m ==> |lp.constraints[s]| == |x|
  {
    if m == 0 then 0.0 else Shortfall(lp, y, x, m - 1) + Times(y[m - 1], 1.0 - DotRow(lp.constraints[m - 1], x, |x|))
  }

  lemma {:induction false} GreedyColumn(c: Cert, lp: LPProblem, i: nat)
    requires SameShape(c, lp) && i < |lp.variables| && Charge(c, lp, i).Some?
    ensures var x := Greedy(c, lp);
            Times(lp.objective[i], x[i]) == ColTotal(Product(lp.constraints, c.rowDual, x), i,
                                                     |lp.constraints|) - Charge(c, lp, i).value
  {
    hide Undercuts, PaidDuals, Cover, Column, Product;
    var x := Greedy(c, lp);
    ChargeIs(c, lp, i);
    ColTotalIsCover(lp.constraints, c.rowDual, x, i, |lp.constraints|);
    CoverIsPaid(lp, c.rowDual, i, |lp.constraints|);
    assert x[i] == if Undercuts(c, lp, i) && lp.variables[i].cap.Some? then lp.variables[i].cap.value else 0.0;
    var paid := PaidDuals(lp, c.rowDual, i, |lp.constraints|);
    Distribute(lp.objective[i], paid, x[i]);
  }

  lemma {:induction false} Distribute(cost: real, paid: real, x: real)
    ensures Times(cost, x) == Times(paid, x) - x * (paid - cost)
  {
    assert cost * x == paid * x - x * (paid - cost);
  }

  lemma {:induction false} GreedyCost(c: Cert, lp: LPProblem, k: nat)
    requires SameShape(c, lp) && k <= |lp.variables| && Penalty(c, lp, k).Some?
    ensures var x := Greedy(c, lp);
            Cost(lp.objective, x, k) == ByColumns(Product(lp.constraints, c.rowDual, x), |lp.constraints|,
                                                  k) - Penalty(c, lp, k).value
  {
    hide Greedy, Charge, SameShape, Product, ColTotal, Times;
    if k > 0 {
      GreedyCost(c, lp, k - 1);
      GreedyColumn(c, lp, k - 1);
    }
  }

  lemma {:induction false} ShortfallIs(lp: LPProblem, y: seq<real>, x: seq<real>, m: nat)
    requires Grid(lp.constraints, |x|) && m <= |lp.constraints| == |y| && forall s :: 0 <= s < m ==>
               BinaryRow(lp.constraints[s])
    ensures Shortfall(lp, y, x, m) == Sum(y, m) - ByRows(Product(lp.constraints, y, x), m, |x|)
  {
    hide Product, RowTotal, DotRow;
    if m > 0 {
      ShortfallIs(lp, y, x, m - 1);
      RowTotalIsDot(lp.constraints, y, x, m - 1, |x|);
      LessOne(y[m - 1], DotRow(lp.constraints[m - 1], x, |x|));
    }
  }

  lemma {:induction false} LessOne(d: real, v: real)
    ensures Times(d, 1.0 - v) == d - Times(d, v)
  {
  }

  /** The bound is attained: the basket that buys all there is of the undercutting columns, within its caps, has
      exactly this cost once what it falls short of each row by is added at that row's dual. So no better bound can
      be read off the stored duals: at least every basket that meets the rows costs no less, and this one, charged
      for what it misses, no more. */
  lemma {:induction false} BoundAttained(c: Cert, lp: LPProblem)
    requires SameShape(c, lp) && Penalty(c, lp, |lp.variables|).Some?
    ensures var x := Greedy(c, lp);
            && (forall i :: 0 <= i < |x| ==> x[i] == 0.0 || lp.variables[i].cap == Some(x[i]))
            && Grid(lp.constraints, |x|) && |lp.objective| == |x| && |c.rowDual| == |lp.constraints|
            && c.sumRowDual - Penalty(c, lp, |lp.variables|).value ==
               Cost(lp.objective, x, |x|) + Shortfall(lp, c.rowDual, x, |lp.constraints|)
  {
    hide Undercuts, Product, Charge, Penalty;
    var x, f := Greedy(c, lp), Product(lp.constraints, c.rowDual, Greedy(c, lp));
    GreedyCost(c, lp, |x|);
    ColumnsAreRows(f, |lp.constraints|, |x|);
    ShortfallIs(lp, c.rowDual, x, |lp.constraints|);
  }

  /** Exactly when a tick is passed over: there is a certificate of a min-cost problem, this tick's problem is one
      with the same shape, no uncapped column undercuts, and the basket above costs at least theta and the margin. */
  lemma {:induction false} SkipsIff(c: Cert, lp: LPProblem, theta: real, eps: real)
    requires Stored(c) && CoveringLP(lp)
    ensures Skips(Some(c), lp, theta, eps) <==>
              && lp.facetForm == None && lp.gIndex == None && KeyOf(lp) == c.key && !Unbounded(c, lp, |lp.variables|)
              && Cost(lp.objective, Greedy(c, lp), |lp.variables|) +
                   Shortfall(lp, c.rowDual, Greedy(c, lp), |lp.constraints|) >= theta + eps
  {
    hide Undercuts, Penalty, Greedy, Unbounded;
    if KeyOf(lp) == c.key {
      NoBoundIff(c, lp, |lp.variables|);
      if Penalty(c, lp, |lp.variables|).Some? { BoundAttained(c, lp); }
    }
  }
}
