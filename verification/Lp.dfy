/** Linear programs over basket legs (services/arb-solver/src/solver/types.ts). Coefficients are
    reals: rounding is not modelled. */
module Lp {
  import opened Wrappers
  import opened Graph

  datatype Side = YES | NO

  /** `cap` None is an uncapped leg; `level` is -1 for a leg that is not a ladder tranche. */
  datatype LPVar = LPVar(marketId: int, side: Side, cap: Option<real>, level: int)

  /** `le`: Σ coeff·z <= rhs, `eq`: Σ coeff·z == rhs. */
  datatype Facet = Facet(coeff: seq<(int, real)>, rhs: real, isEq: bool)

  /** `owner[i]` is the question variable i pays on, -1 for the guaranteed-payout variable G. */
  datatype FacetForm = FacetForm(facets: seq<Facet>, order: seq<int>, owner: seq<int>)

  /** A point of the cube of question probabilities; a question outside the map reads as 0. */
  type Point = map<int, real>

  function At(z: Point, q: int): real {
    if q in z then z[q] else 0.0
  }

  function PointOf(w: World): Point {
    map q | q in w :: if w[q] then 1.0 else 0.0
  }

  function Target(gIndex: Option<nat>): real {
    if gIndex.Some? then 0.0 else 1.0
  }

  /** Value of G in `x`; 0 in the min-cost form, which has no G. */
  function GValue(gIndex: Option<nat>, x: seq<real>): real {
    if gIndex.Some? && gIndex.value < |x| then x[gIndex.value] else 0.0
  }

  ghost predicate Shape(vars: seq<LPVar>, owner: seq<int>, x: seq<real>) {
    |vars| == |owner| == |x|
  }

  /** What one share of variable i pays at z: the question's value, or one minus it. */
  function Pays(v: LPVar, q: int, z: Point): real {
    if q < 0 then 0.0 else if v.side == YES then At(z, q) else 1.0 - At(z, q)
  }

  /** Payout of the first k variables of basket x at z. */
  function Payout(vars: seq<LPVar>, owner: seq<int>, x: seq<real>, z: Point, k: nat): real
    requires Shape(vars, owner, x) && k <= |x|
  {
    if k == 0 then 0.0 else
      Payout(vars, owner, x, z, k - 1) + x[k - 1] * Pays(vars[k - 1], owner[k - 1], z)
  }

  ghost predicate PaysTarget(vars: seq<LPVar>, owner: seq<int>, gIndex: Option<nat>, x: seq<real>, z: Point)
    requires Shape(vars, owner, x)
  {
    Payout(vars, owner, x, z, |x|) - GValue(gIndex, x) >= Target(gIndex)
  }

  /** G is the last variable and the only one without a question. */
  ghost predicate GPlaced(owner: seq<int>, gIndex: Option<nat>) {
    && (gIndex.Some? ==> |owner| > 0 && gIndex.value == |owner| - 1)
    && forall i :: 0 <= i < |owner| ==> (owner[i] < 0 <==> gIndex == Some(i))
  }

  function DotRow(row: seq<real>, x: seq<real>, k: nat): real
    requires |row| == |x| && k <= |x|
  {
    if k == 0 then 0.0 else DotRow(row, x, k - 1) + row[k - 1] * x[k - 1]
  }

  /** `facetForm` is present only on a facet-engine problem, which has no world rows. */
  datatype LPProblem = LPProblem(
    objective: seq<real>,
    constraints: seq<seq<real>>,
    rhs: seq<real>,
    variables: seq<LPVar>,
    gIndex: Option<nat>,
    facetForm: Option<FacetForm>)

  ghost predicate Rectangular(lp: LPProblem) {
    && |lp.objective| == |lp.variables| && |lp.rhs| == |lp.constraints|
    && forall s :: 0 <= s < |lp.constraints| ==> |lp.constraints[s]| == |lp.variables|
  }

  /** A capped basket that satisfies every world row. */
  ghost predicate FeasibleBasket(lp: LPProblem, x: seq<real>)
    requires Rectangular(lp)
  {
    && |x| == |lp.variables|
    && (forall i :: 0 <= i < |x| ==> x[i] >= 0.0 && (lp.variables[i].cap.Some? ==> x[i] <= lp.variables[i].cap.value))
    && (forall s :: 0 <= s < |lp.constraints| ==> DotRow(lp.constraints[s], x, |x|) >= lp.rhs[s])
  }
}
