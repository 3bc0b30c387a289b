/** The world-row LP of services/arb-solver/src/solver/lp-builder.ts: one row per enumerated world,
    and the facet LP's soundness against it. */
module LpBuilder {
  import opened Wrappers
  import opened Graph
  import opened Omega
  import opened Lp
  import opened FacetLp

  /** Coefficient of variable i in the row of world w. */
  function RowEntry(vars: seq<LPVar>, owner: seq<int>, gIndex: Option<nat>, w: World, i: nat): real
    requires i < |vars| == |owner|
  {
    if gIndex == Some(i) then -1.0
    else if vars[i].side == YES && Yes(w, owner[i]) then 1.0
    else if vars[i].side == NO && !Yes(w, owner[i]) then 1.0
    else 0.0
  }

  function WorldRow(vars: seq<LPVar>, owner: seq<int>, gIndex: Option<nat>, w: World): seq<real>
    requires |vars| == |owner|
  {
    seq(|vars|, i requires 0 <= i < |vars| => RowEntry(vars, owner, gIndex, w, i))
  }

  function WorldRows(vars: seq<LPVar>, owner: seq<int>, gIndex: Option<nat>, states: seq<World>): seq<seq<real>>
    requires |vars| == |owner|
  {
    seq(|states|, s requires 0 <= s < |states| => WorldRow(vars, owner, gIndex, states[s]))
  }

  method BuildWorldRows(vars: seq<LPVar>, owner: seq<int>, gIndex: Option<nat>, states: seq<World>)
    returns (constraints: seq<seq<real>>, rhs: seq<real>)
    requires |vars| == |owner|
    ensures constraints == WorldRows(vars, owner, gIndex, states)
    ensures rhs == seq(|states|, _ => Target(gIndex))
  {
    constraints, rhs := [], [];
    for s := 0 to |states|
      invariant |constraints| == |rhs| == s
      invariant forall t :: 0 <= t < s ==> constraints[t] == WorldRow(vars, owner, gIndex, states[t])
      invariant forall t :: 0 <= t < s ==> rhs[t] == Target(gIndex)
    {
      var row: seq<real> := [];
      for i := 0 to |vars|
        invariant |row| == i
        invariant forall j :: 0 <= j < i ==> row[j] == RowEntry(vars, owner, gIndex, states[s], j)
      {
        var entry := 0.0;
        if gIndex == Some(i) {
          entry := -1.0;
        } else {
          var yes := Yes(states[s], owner[i]);
          if vars[i].side == YES && yes {
            entry := 1.0;
          } else if vars[i].side == NO && !yes {
            entry := 1.0;
          }
        }
        row := row + [entry];
      }
      constraints := constraints + [row];
      rhs := rhs + [Target(gIndex)];
    }
  }

  /** The basket satisfies the row of world w. */
  ghost predicate RowHolds(vars: seq<LPVar>, owner: seq<int>, gIndex: Option<nat>, x: seq<real>, w: World)
    requires Shape(vars, owner, x)
  {
    DotRow(WorldRow(vars, owner, gIndex, w), x, |x|) >= Target(gIndex)
  }

  lemma {:induction false} RowIsPayout(vars: seq<LPVar>, owner: seq<int>, gIndex: Option<nat>, x: seq<real>, w: World,
                                       k: nat)
    requires Shape(vars, owner, x) && GPlaced(owner, gIndex) && k <= |x|
    ensures DotRow(WorldRow(vars, owner, gIndex, w), x, k) ==
            Payout(vars, owner, x, PointOf(w), k) - if gIndex.Some? && gIndex.value < k then x[gIndex.value] else 0.0
  {
    if k > 0 {
      RowIsPayout(vars, owner, gIndex, x, w, k - 1);
    }
  }

  /** A world row says: the basket pays the target (1, or G) in that world. */
  lemma {:induction false} RowMeans(vars: seq<LPVar>, owner: seq<int>, gIndex: Option<nat>, x: seq<real>, w: World)
    requires Shape(vars, owner, x) && GPlaced(owner, gIndex)
    ensures RowHolds(vars, owner, gIndex, x, w) <==> PaysTarget(vars, owner, gIndex, x, PointOf(w))
  {
    RowIsPayout(vars, owner, gIndex, x, w, |x|);
  }

  /** The facet form `buildFacetLP` gives a cluster. */
  function FormOf(c: Cluster, unquoted: set<int>, owner: seq<int>): FacetForm {
    FacetForm(Facets(Interpret(c, unquoted).constraints), c.qids, owner)
  }

  /** Facet soundness, for every cluster: overlapping sets, all three hard edge types and any
      unquoted questions included. A basket the facet LP accepts satisfies the world row of every
      world of Ω, so the facet LP never accepts a false arb. */
  lemma {:induction false} FacetSoundness(c: Cluster, unquoted: set<int>, vars: seq<LPVar>, owner: seq<int>,
                                          gIndex: Option<nat>, s: Solution, w: World)
    requires Distinct(c.qids) && GPlaced(owner, gIndex)
    requires Feasible(FormOf(c, unquoted, owner), vars, gIndex, s)
    requires InOmega(c, unquoted, w)
    ensures RowHolds(vars, owner, gIndex, s.x, w)
  {
    IntegralPointsAreOmega(c, unquoted, w);
    WeakDuality(FormOf(c, unquoted, owner), vars, gIndex, s, PointOf(w));
    RowMeans(vars, owner, gIndex, s.x, w);
  }

  // ---------- A row in shares ----------

  /** Shares of the basket that resolve in the holder's favour in world w: YES on a question that is YES there, NO
      on one that is not. */
  function SharesPaid(vars: seq<LPVar>, owner: seq<int>, x: seq<real>, w: World, k: nat): real
    requires Shape(vars, owner, x) && k <= |x|
  {
    if k == 0 then 0.0
    else SharesPaid(vars, owner, x, w, k - 1) +
         if owner[k - 1] >= 0 && (vars[k - 1].side == YES) == (owner[k - 1] in w && w[owner[k - 1]]) then x[k - 1]
              else 0.0
  }

  lemma {:induction false} RowCounts(vars: seq<LPVar>, owner: seq<int>, gIndex: Option<nat>, x: seq<real>, w: World,
                                     k: nat)
    requires Shape(vars, owner, x) && GPlaced(owner, gIndex) && k <= |x|
    ensures DotRow(WorldRow(vars, owner, gIndex, w), x, k) ==
            SharesPaid(vars, owner, x, w, k) - if gIndex.Some? && gIndex.value < k then x[gIndex.value] else 0.0
  {
    if k > 0 { RowCounts(vars, owner, gIndex, x, w, k - 1); }
  }

  /** A row asks for one share paid in its world, or, when the guaranteed payout is a variable, for as many as that. */
  lemma {:induction false} RowAsks(vars: seq<LPVar>, owner: seq<int>, gIndex: Option<nat>, x: seq<real>, w: World)
    requires Shape(vars, owner, x) && GPlaced(owner, gIndex)
    ensures RowHolds(vars, owner, gIndex, x, w) <==>
              SharesPaid(vars, owner, x, w, |x|) >= if gIndex.Some? then x[gIndex.value] else 1.0
  {
    RowCounts(vars, owner, gIndex, x, w, |x|);
  }
}
