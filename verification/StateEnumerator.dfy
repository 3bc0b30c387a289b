/** The world enumerator of services/arb-solver/src/solver/state-enumerator.ts: per-set tables, their
    Cartesian product with later sets overwriting earlier ones, and the hard-edge filter. */
module StateEnumerator {
  import opened Graph
  import opened Omega

  /** A product that may have been replaced by Infinity. */
  datatype Count = Finite(n: nat) | Infinite

  datatype Outcome =
    | Ok(states: seq<World>)
    | Dropped(projected: Count, freeOverCap: bool)
    | Empty

  function Pow2(n: nat): (r: nat)
    ensures r >= 1
  {
    if n == 0 then 1 else 2 * Pow2(n - 1)
  }

  // ---------- One group of partial states per covering constraint ----------

  /** Writes flags[j] under slots[j] for the first k slots; a repeated slot keeps the last write. */
  function Tabulate(slots: seq<int>, flags: seq<bool>, k: nat): World
    requires k <= |slots| == |flags|
  {
    if k == 0 then map[] else Tabulate(slots, flags, k - 1)[slots[k - 1] := flags[k - 1]]
  }

  function OneAt(n: nat, i: nat): seq<bool> {
    seq(n, j => j == i)
  }

  function NoneOf(n: nat): seq<bool> {
    seq(n, j => false)
  }

  function FromEnd(n: nat, cutoff: nat): seq<bool> {
    seq(n, i => i >= n - cutoff)
  }

  predicate Bit(mask: nat, i: nat) {
    if i == 0 then mask % 2 == 1 else Bit(mask / 2, i - 1)
  }

  function Bits(n: nat, mask: nat): seq<bool> {
    seq(n, i requires 0 <= i < n => Bit(mask, i))
  }

  /** Σ = 1: one state per slot. Σ <= 1: the all-NO state as well. */
  function CategoricalTable(slots: seq<int>, exhaustive: bool): (t: seq<World>)
    ensures |t| == if exhaustive then |slots| else |slots| + 1
  {
    seq(|slots|, i requires 0 <= i < |slots| => Tabulate(slots, OneAt(|slots|, i), |slots|)) +
    if exhaustive then [] else [Tabulate(slots, NoneOf(|slots|), |slots|)]
  }

  /** Slot 0 is the hardest rung: state `cutoff` has the `cutoff` easiest rungs YES. */
  function ThresholdTable(slots: seq<int>): (t: seq<World>)
    ensures |t| == |slots| + 1
  {
    seq(|slots| + 1, cutoff requires 0 <= cutoff <= |slots| => Tabulate(slots, FromEnd(|slots|, cutoff), |slots|))
  }

  function FreeTable(qids: seq<int>): (t: seq<World>)
    ensures |t| == Pow2(|qids|)
  {
    seq(Pow2(|qids|), mask requires 0 <= mask => Tabulate(qids, Bits(|qids|, mask), |qids|))
  }

  method WriteTable(slots: seq<int>, flags: seq<bool>) returns (state: World)
    requires |slots| == |flags|
    ensures state == Tabulate(slots, flags, |slots|)
  {
    state := map[];
    for j := 0 to |slots|
      invariant state == Tabulate(slots, flags, j)
    {
      state := state[slots[j] := flags[j]];
    }
  }

  method CategoricalStates(slots: seq<int>, exhaustive: bool) returns (states: seq<World>)
    ensures states == CategoricalTable(slots, exhaustive)
  {
    states := [];
    for i := 0 to |slots|
      invariant |states| == i
      invariant forall p :: 0 <= p < i ==> states[p] == Tabulate(slots, OneAt(|slots|, p), |slots|)
    {
      var state := WriteTable(slots, OneAt(|slots|, i));
      states := states + [state];
    }
    if !exhaustive {
      var none := WriteTable(slots, NoneOf(|slots|));
      states := states + [none];
    }
  }

  method ThresholdStates(slots: seq<int>) returns (states: seq<World>)
    ensures states == ThresholdTable(slots)
  {
    states := [];
    for cutoff := 0 to |slots| + 1
      invariant |states| == cutoff
      invariant forall p :: 0 <= p < cutoff ==> states[p] == Tabulate(slots, FromEnd(|slots|, p), |slots|)
    {
      var state := WriteTable(slots, FromEnd(|slots|, cutoff));
      states := states + [state];
    }
  }

  /** Over 30 questions or over the cap: no states. */
  function FreeStatesOf(qids: seq<int>, cap: nat): seq<World> {
    if |qids| > 30 || Pow2(|qids|) > cap then [] else FreeTable(qids)
  }

  method FreeStates(qids: seq<int>, cap: nat) returns (states: seq<World>)
    ensures states == FreeStatesOf(qids, cap)
  {
    if |qids| > 30 || Pow2(|qids|) > cap { return []; }
    states := [];
    for mask := 0 to Pow2(|qids|)
      invariant |states| == mask
      invariant forall p :: 0 <= p < mask ==> states[p] == Tabulate(qids, Bits(|qids|, p), |qids|)
    {
      var state := WriteTable(qids, Bits(|qids|, mask));
      states := states + [state];
    }
  }

  // ---------- Cartesian product ----------

  function MergeEach(existing: World, group: seq<World>): seq<World> {
    seq(|group|, p requires 0 <= p < |group| => existing + group[p])
  }

  /** Every state of `result` merged with every partial state of `group`, which overwrites. */
  function Extend(result: seq<World>, group: seq<World>, k: nat): (r: seq<World>)
    requires k <= |result|
    ensures |r| == k * |group|
  {
    if k == 0 then [] else Extend(result, group, k - 1) + MergeEach(result[k - 1], group)
  }

  function Product(groups: seq<seq<World>>, k: nat): seq<World>
    requires k <= |groups|
  {
    if k == 0 then [map[]] else
      var before := Product(groups, k - 1);
      Extend(before, groups[k - 1], |before|)
  }

  /** The bail-out never triggers when every partial product stays within the cap. */
  ghost predicate Fits(groups: seq<seq<World>>, cap: nat) {
    forall k :: 0 <= k <= |groups| ==> |Product(groups, k)| <= cap
  }

  /** The first group after which the product is over the cap. */
  ghost predicate OverAt(groups: seq<seq<World>>, cap: nat, k: nat) {
    1 <= k <= |groups| && |Product(groups, k)| > cap && forall j :: 1 <= j < k ==> |Product(groups, j)| <= cap
  }

  /** The product of all groups; on the first one that takes it over the cap, the first cap + 1 states up to there. */
  method CartesianProduct(groups: seq<seq<World>>, cap: nat) returns (result: seq<World>)
    ensures (forall k :: 1 <= k <= |groups| ==> |Product(groups, k)| <= cap) ==> result == Product(groups, |groups|)
    ensures forall k :: OverAt(groups, cap, k) ==> result == Product(groups, k)[..cap + 1]
  {
    hide Product, Extend;
    ProductUnrolls(groups);
    result := [map[]];
    for g := 0 to |groups|
      invariant result == Product(groups, g)
      invariant forall j :: 1 <= j <= g ==> |Product(groups, j)| <= cap
    {
      var next: seq<World> := [];
      ExtendStep(result, groups[g]);
      for e := 0 to |result|
        invariant next == Extend(result, groups[g], e) && |next| <= cap
      {
        ghost var start := next;
        for p := 0 to |groups[g]|
          invariant next == start + MergeEach(result[e], groups[g])[..p] && |next| <= cap
        {
          next := next + [result[e] + groups[g][p]];
          if |next| > cap {
            assert next == start + MergeEach(result[e], groups[g])[..p + 1];
            ExtendPrefix(result, groups[g], e, p + 1);
            assert next == Product(groups, g + 1)[..cap + 1];
            return next;
          }
        }
      }
      result := next;
    }
  }

  lemma {:induction false} ProductUnrolls(groups: seq<seq<World>>)
    ensures Product(groups, 0) == [map[]]
    ensures forall g :: 0 <= g < |groups| ==>
              Product(groups, g + 1) == Extend(Product(groups, g), groups[g], |Product(groups, g)|)
  {
  }

  lemma {:induction false} ExtendStep(result: seq<World>, group: seq<World>)
    ensures Extend(result, group, 0) == []
    ensures forall e :: 0 <= e < |result| ==>
              Extend(result, group, e + 1) == Extend(result, group, e) + MergeEach(result[e], group)
  {
  }

  /** What the loops have collected is the start of the whole extension. */
  lemma {:induction false} ExtendPrefix(result: seq<World>, group: seq<World>, e: nat, p: nat)
    requires e < |result| && p <= |group|
    ensures Extend(result, group, e) + MergeEach(result[e], group)[..p] <= Extend(result, group, |result|)
  {
    hide Extend, MergeEach;
    ExtendStep(result, group);
    ExtendLater(result, group, e + 1, |result|);
    PrefixOf(Extend(result, group, e), MergeEach(result[e], group), p, Extend(result, group, |result|));
  }

  lemma {:induction false} PrefixOf(a: seq<World>, b: seq<World>, p: nat, all: seq<World>)
    requires p <= |b| && a + b <= all
    ensures a + b[..p] <= all
  {
    assert a + b[..p] == (a + b)[..|a| + p];
  }

  lemma {:induction false} ExtendLater(result: seq<World>, group: seq<World>, i: nat, j: nat)
    requires i <= j <= |result|
    ensures Extend(result, group, i) <= Extend(result, group, j)
  {
    if i < j { ExtendLater(result, group, i, j - 1); }
  }

  // ---------- Enumeration ----------

  function GroupOf(c: Constraint): seq<seq<World>> {
    match c
    case OneHot(_, slots, exhaustive) => [CategoricalTable(slots, exhaustive)]
    case Chain(_, slots) => [ThresholdTable(slots)]
    case HardEdge(_, _, _, _) => []
  }

  function Groups(cs: seq<Constraint>): seq<seq<World>> {
    if cs == [] then [] else Groups(cs[..|cs| - 1]) + GroupOf(cs[|cs| - 1])
  }

  /** The source's three relations; an endpoint missing from the state would be skipped. */
  predicate SatisfiesEdge(w: World, e: Constraint) {
    e.HardEdge? && e.a in w && e.b in w ==>
      match e.kind
      case Implies => !(w[e.a] && !w[e.b])
      case Equals => w[e.a] == w[e.b]
      case Excludes => !(w[e.a] && w[e.b])
  }

  predicate SatisfiesEdges(w: World, cs: seq<Constraint>) {
    forall e | e in cs :: SatisfiesEdge(w, e)
  }

  function FilterStates(states: seq<World>, cs: seq<Constraint>): seq<World> {
    if states == [] then [] else
      var last := states[|states| - 1];
      FilterStates(states[..|states| - 1], cs) + if SatisfiesEdges(last, cs) then [last] else []
  }

  function TimesFree(p: nat, free: nat): Count {
    if free > 30 then Infinite else Finite(p * Pow2(free))
  }

  function SizeOf(c: Constraint): nat {
    match c
    case OneHot(_, slots, exhaustive) => if exhaustive then |slots| else |slots| + 1
    case Chain(_, slots) => |slots| + 1
    case HardEdge(_, _, _, _) => 1
  }

  function SizeProduct(cs: seq<Constraint>): nat {
    if cs == [] then 1 else SizeProduct(cs[..|cs| - 1]) * SizeOf(cs[|cs| - 1])
  }

  function Projected(interp: Interp): Count {
    TimesFree(SizeProduct(interp.constraints), |interp.freeQids|)
  }

  method ProjectedStateCount(interp: Interp) returns (count: Count)
    ensures count == Projected(interp)
  {
    var p := 1;
    for i := 0 to |interp.constraints|
      invariant p == SizeProduct(interp.constraints[..i])
    {
      var c := interp.constraints[i];
      assert interp.constraints[..i + 1][..i] == interp.constraints[..i];
      match c
      case OneHot(_, slots, exhaustive) => p := p * if exhaustive then |slots| else |slots| + 1;
      case Chain(_, slots) => p := p * (|slots| + 1);
      case HardEdge(_, _, _, _) =>
    }
    assert interp.constraints[..|interp.constraints|] == interp.constraints;
    count := TimesFree(p, |interp.freeQids|);
  }

  predicate Exceeds(count: Count, cap: nat) {
    count.Infinite? || count.n > cap
  }

  function AllGroups(interp: Interp, cap: nat): seq<seq<World>> {
    Groups(interp.constraints) + if interp.freeQids == [] then [] else [FreeStatesOf(interp.freeQids, cap)]
  }

  /** The states without the preflight test. */
  function Candidates(c: Cluster, interp: Interp, cap: nat): seq<World> {
    var groups := AllGroups(interp, cap);
    if groups == [] then FreeStatesOf(c.qids, cap)
    else FilterStates(Product(groups, |groups|), interp.constraints)
  }

  function Enumerate(c: Cluster, cap: nat): Outcome {
    if c.qids == [] then Empty else
      var interp := Interpret(c, {});
      var freeOverCap := Exceeds(TimesFree(1, |interp.freeQids|), cap);
      if freeOverCap || Exceeds(Projected(interp), cap) then Dropped(Projected(interp), freeOverCap)
      else Ok(Candidates(c, interp, cap))
  }

  /** What `cluster.validStates` is set to: no states for a dropped or empty cluster. */
  function StatesOf(o: Outcome): seq<World> {
    if o.Ok? then o.states else []
  }

  // ---------- Sizes: the preflight test makes the product fit ----------

  lemma {:induction false} GroupsSnoc(cs: seq<Constraint>, c: Constraint)
    ensures Groups(cs + [c]) == Groups(cs) + GroupOf(c)
    ensures SizeProduct(cs + [c]) == SizeProduct(cs) * SizeOf(c)
  {
    assert (cs + [c])[..|cs + [c]| - 1] == cs;
  }

  lemma {:induction false} ProductPrefix(groups: seq<seq<World>>, more: seq<seq<World>>, k: nat)
    requires k <= |groups|
    ensures Product(groups + more, k) == Product(groups, k)
  {
    if k > 0 { ProductPrefix(groups, more, k - 1); }
  }

  lemma {:induction false} ProductStep(groups: seq<seq<World>>, g: seq<World>)
    ensures |Product(groups + [g], |groups| + 1)| == |Product(groups, |groups|)| * |g|
    ensures Product(groups + [g], |groups| + 1) ==
            Extend(Product(groups, |groups|), g, |Product(groups, |groups|)|)
  {
    ProductPrefix(groups, [g], |groups|);
  }

  ghost predicate NonEmptyGroups(groups: seq<seq<World>>) {
    forall g :: g in groups ==> g != []
  }

  lemma {:induction false} ProductGrows(groups: seq<seq<World>>, k: nat)
    requires NonEmptyGroups(groups) && k < |groups|
    ensures |Product(groups, k)| <= |Product(groups, k + 1)|
  {
    hide Product, Extend;
    ProductUnrolls(groups);
    assert groups[k] in groups;
    TimesGrows(|Product(groups, k)|, |groups[k]|);
  }

  lemma {:induction false} TimesGrows(n: nat, m: nat)
    requires m >= 1
    ensures n <= n * m
  {
    assert n * (m - 1) >= 0;
  }

  lemma {:induction false} ProductMonotone(groups: seq<seq<World>>, i: nat, j: nat)
    requires NonEmptyGroups(groups) && i <= j <= |groups|
    ensures 1 <= |Product(groups, i)| <= |Product(groups, j)|
    decreases j
  {
    hide Product, NonEmptyGroups;
    if i < j {
      ProductMonotone(groups, i, j - 1);
      ProductGrows(groups, j - 1);
    } else if j > 0 {
      ProductMonotone(groups, j - 1, j - 1);
      ProductGrows(groups, j - 1);
    } else {
      ProductUnrolls(groups);
    }
  }

  /** Constraints with at least one slot, as interpretation yields them. */
  ghost predicate Slotted(cs: seq<Constraint>) {
    forall c :: c in cs && !c.HardEdge? ==> c.slots != []
  }

  lemma {:induction false} GroupTable(c: Constraint)
    requires !c.HardEdge? && c.slots != []
    ensures |GroupOf(c)| == 1 && |GroupOf(c)[0]| == SizeOf(c) && GroupOf(c)[0] != []
  {
  }

  lemma {:induction false} GroupsNonEmpty(cs: seq<Constraint>)
    requires Slotted(cs)
    ensures NonEmptyGroups(Groups(cs))
  {
    if cs != [] {
      var m := |cs| - 1;
      assert forall c :: c in cs <==> c in cs[..m] || c == cs[m];
      GroupsNonEmpty(cs[..m]);
      if !cs[m].HardEdge? { GroupTable(cs[m]); }
    }
  }

  lemma {:induction false} OneMoreGroup(groups: seq<seq<World>>, c: Constraint)
    requires !c.HardEdge? ==> c.slots != []
    ensures |Product(groups + GroupOf(c), |groups + GroupOf(c)|)| == |Product(groups, |groups|)| * SizeOf(c)
  {
    hide CategoricalTable, ThresholdTable, Product;
    if c.HardEdge? {
      assert groups + GroupOf(c) == groups;
    } else {
      GroupTable(c);
      assert GroupOf(c) == [GroupOf(c)[0]];
      ProductStep(groups, GroupOf(c)[0]);
    }
  }

  lemma {:induction false} GroupsSize(cs: seq<Constraint>)
    requires Slotted(cs)
    ensures |Product(Groups(cs), |Groups(cs)|)| == SizeProduct(cs)
  {
    if cs != [] {
      hide Product, GroupOf, SizeOf;
      var m := |cs| - 1;
      assert forall c :: c in cs[..m] ==> c in cs;
      GroupsSize(cs[..m]);
      OneMoreGroup(Groups(cs[..m]), cs[m]);
    }
  }

  lemma {:induction false} InterpretSlotted(c: Cluster, unquoted: set<int>)
    ensures Slotted(Interpret(c, unquoted).constraints)
  {
    hide SetConstraints, EdgeConstraints;
    forall k | k in Interpret(c, unquoted).constraints && !k.HardEdge? ensures k.slots != [] {
      SetConstraintsMember(c.sets, QidSet(c), unquoted, k);
      EdgeConstraintsMember(c.edges, QidSet(c), k);
    }
  }

  ghost function ProductSize(groups: seq<seq<World>>): nat {
    |Product(groups, |groups|)|
  }

  lemma {:induction false} ProductSizeSnoc(groups: seq<seq<World>>, g: seq<World>)
    ensures ProductSize(groups + [g]) == ProductSize(groups) * |g|
  {
    ProductStep(groups, g);
  }

  /** The projection counts the product exactly. */
  lemma {:induction false} ProjectedIsProduct(interp: Interp, cap: nat)
    requires Slotted(interp.constraints) && |interp.freeQids| <= 30 && Pow2(|interp.freeQids|) <= cap
    ensures Projected(interp) == Finite(ProductSize(AllGroups(interp, cap)))
    ensures NonEmptyGroups(AllGroups(interp, cap))
  {
    var groups := Groups(interp.constraints);
    GroupsSize(interp.constraints);
    GroupsNonEmpty(interp.constraints);
    var n := SizeProduct(interp.constraints);
    assert ProductSize(groups) == n;
    if interp.freeQids == [] {
      assert AllGroups(interp, cap) == groups;
      assert Pow2(0) == 1 && n * 1 == n;
    } else {
      var free := FreeStatesOf(interp.freeQids, cap);
      assert |free| == Pow2(|interp.freeQids|);
      AppendNonEmpty(groups, free);
      assert AllGroups(interp, cap) == groups + [free];
      ProductSizeSnoc(groups, free);
    }
  }

  lemma {:induction false} AppendNonEmpty(groups: seq<seq<World>>, g: seq<World>)
    requires NonEmptyGroups(groups) && |g| >= 1
    ensures NonEmptyGroups(groups + [g])
  {
  }

  lemma {:induction false} WithinCapFits(groups: seq<seq<World>>, cap: nat)
    requires NonEmptyGroups(groups) && |Product(groups, |groups|)| <= cap
    ensures Fits(groups, cap)
  {
    forall k | 0 <= k <= |groups| ensures |Product(groups, k)| <= cap {
      ProductMonotone(groups, k, |groups|);
    }
  }

  /** A cluster that passes the preflight test is enumerated in full: neither the free-state cap nor
      the product's bail-out cuts it. */
  lemma {:induction false} PreflightFits(c: Cluster, cap: nat)
    requires Enumerate(c, cap).Ok?
    ensures Fits(AllGroups(Interpret(c, {}), cap), cap)
    ensures FreeStatesOf(Interpret(c, {}).freeQids, cap) == FreeTable(Interpret(c, {}).freeQids)
  {
    var interp := Interpret(c, {});
    InterpretSlotted(c, {});
    ProjectedIsProduct(interp, cap);
    WithinCapFits(AllGroups(interp, cap), cap);
  }

  method BuildGroups(cs: seq<Constraint>) returns (groups: seq<seq<World>>)
    ensures groups == Groups(cs)
  {
    groups := [];
    for i := 0 to |cs|
      invariant groups == Groups(cs[..i])
    {
      assert cs[..i + 1][..i] == cs[..i];
      match cs[i]
      case OneHot(_, slots, exhaustive) =>
        var g := CategoricalStates(slots, exhaustive);
        groups := groups + [g];
      case Chain(_, slots) =>
        var g := ThresholdStates(slots);
        groups := groups + [g];
      case HardEdge(_, _, _, _) =>
    }
    assert cs[..|cs|] == cs;
  }

  method FilterByEdges(product: seq<World>, cs: seq<Constraint>) returns (states: seq<World>)
    ensures states == FilterStates(product, cs)
  {
    states := [];
    for i := 0 to |product|
      invariant states == FilterStates(product[..i], cs)
    {
      assert product[..i + 1][..i] == product[..i];
      if SatisfiesEdges(product[i], cs) { states := states + [product[i]]; }
    }
    assert product[..|product|] == product;
  }

  method EnumerateStatesMeta(c: Cluster, cap: nat) returns (o: Outcome)
    ensures o == Enumerate(c, cap)
  {
    if |c.qids| == 0 { return Empty; }
    var interp := InterpretCluster(c, {});
    var groups := BuildGroups(interp.constraints);
    var freeOverCap := Exceeds(TimesFree(1, |interp.freeQids|), cap);
    var projected := ProjectedStateCount(interp);
    if freeOverCap || Exceeds(projected, cap) { return Dropped(projected, freeOverCap); }
    PreflightFits(c, cap);
    if |interp.freeQids| > 0 {
      var free := FreeStates(interp.freeQids, cap);
      groups := groups + [free];
    }
    assert groups == AllGroups(interp, cap);
    if |groups| == 0 {
      var all := FreeStates(c.qids, cap);
      return Ok(all);
    }
    var product := CartesianProduct(groups, cap);
    var states := FilterByEdges(product, interp.constraints);
    o := Ok(states);
  }
}
