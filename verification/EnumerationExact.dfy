/** How the enumerated states relate to Ω: they always contain it, they number at most the projected
    count, and they equal it exactly when every set's slots end up owned by one compatible set. */
module EnumerationExact {
  import opened Graph
  import opened Omega
  import opened StateEnumerator

  // ---------- Ω is always enumerated ----------

  lemma {:induction false} TabulateIs(slots: seq<int>, flags: seq<bool>, w: World, k: nat)
    requires k <= |slots| == |flags|
    requires forall j :: 0 <= j < k ==> slots[j] in w && w[slots[j]] == flags[j]
    ensures Tabulate(slots, flags, k) == Restrict(w, SetOf(slots[..k]))
  {
    if k > 0 {
      TabulateIs(slots, flags, w, k - 1);
      assert SetOf(slots[..k]) == SetOf(slots[..k - 1]) + {slots[k - 1]} by {
        assert slots[..k] == slots[..k - 1] + [slots[k - 1]];
      }
    } else {
      assert SetOf(slots[..0]) == {};
    }
  }

  lemma {:induction false} WholeTable(slots: seq<int>, flags: seq<bool>, w: World)
    requires |slots| == |flags|
    requires forall j :: 0 <= j < |slots| ==> slots[j] in w && w[slots[j]] == flags[j]
    ensures Tabulate(slots, flags, |slots|) == Restrict(w, SetOf(slots))
  {
    TabulateIs(slots, flags, w, |slots|);
    assert slots[..|slots|] == slots;
  }

  lemma {:induction false} CategoricalHas(slots: seq<int>, exhaustive: bool, w: World)
    requires SetOf(slots) <= w.Keys && Holds(OneHot(0, slots, exhaustive), w)
    ensures Restrict(w, SetOf(slots)) in CategoricalTable(slots, exhaustive)
  {
    CountYesBounds(slots, w);
    assert forall j :: 0 <= j < |slots| ==> slots[j] in SetOf(slots);
    var t := CategoricalTable(slots, exhaustive);
    if CountYes(slots, w) == 1 {
      var q :| q in slots && Yes(w, q);
      var i :| 0 <= i < |slots| && slots[i] == q;
      forall j | 0 <= j < |slots| ensures w[slots[j]] == OneAt(|slots|, i)[j] {
        assert AtMostOne(slots, w) && Yes(w, slots[i]);
      }
      WholeTable(slots, OneAt(|slots|, i), w);
      assert t[i] == Restrict(w, SetOf(slots));
    } else {
      WholeTable(slots, NoneOf(|slots|), w);
      assert t[|slots|] == Restrict(w, SetOf(slots));
    }
  }

  /** The first YES rung; every later rung is YES. */
  lemma {:induction false} FirstYes(slots: seq<int>, w: World, k: nat) returns (t: nat)
    requires k <= |slots| && Monotone(slots, w)
    ensures t <= k && forall j :: 0 <= j < k ==> (Yes(w, slots[j]) <==> j >= t)
  {
    if k == 0 {
      t := 0;
    } else {
      t := FirstYes(slots, w, k - 1);
      if t == k - 1 && !Yes(w, slots[k - 1]) { t := k; }
      if t < k - 1 { assert Yes(w, slots[t]) && Yes(w, slots[k - 1]); }
    }
  }

  lemma {:induction false} ThresholdHas(slots: seq<int>, w: World)
    requires SetOf(slots) <= w.Keys && Holds(Chain(0, slots), w)
    ensures Restrict(w, SetOf(slots)) in ThresholdTable(slots)
  {
    ChainIsMonotone(0, slots, w);
    var t := FirstYes(slots, w, |slots|);
    assert forall j :: 0 <= j < |slots| ==> slots[j] in SetOf(slots);
    WholeTable(slots, FromEnd(|slots|, |slots| - t), w);
    assert ThresholdTable(slots)[|slots| - t] == Restrict(w, SetOf(slots));
  }

  function MaskOf(qids: seq<int>, w: World): (m: nat)
    ensures m < Pow2(|qids|)
  {
    if qids == [] then 0 else (if Yes(w, qids[0]) then 1 else 0) + 2 * MaskOf(qids[1..], w)
  }

  lemma {:induction false} MaskBit(qids: seq<int>, w: World, i: nat)
    requires i < |qids|
    ensures Bit(MaskOf(qids, w), i) <==> Yes(w, qids[i])
  {
    var m := MaskOf(qids[1..], w);
    assert MaskOf(qids, w) / 2 == m;
    if i > 0 { MaskBit(qids[1..], w, i - 1); }
  }

  lemma {:induction false} FreeHas(qids: seq<int>, w: World)
    requires SetOf(qids) <= w.Keys
    ensures Restrict(w, SetOf(qids)) in FreeTable(qids)
  {
    var m := MaskOf(qids, w);
    forall j | 0 <= j < |qids| ensures qids[j] in w && w[qids[j]] == Bits(|qids|, m)[j] {
      MaskBit(qids, w, j);
      assert qids[j] in SetOf(qids);
    }
    WholeTable(qids, Bits(|qids|, m), w);
    assert FreeTable(qids)[m] == Restrict(w, SetOf(qids));
  }

  lemma {:induction false} TableHas(c: Constraint, w: World)
    requires !c.HardEdge? && SetOf(c.slots) <= w.Keys && Holds(c, w)
    ensures Restrict(w, SetOf(c.slots)) in GroupOf(c)[0]
  {
    if c.OneHot? {
      CategoricalHas(c.slots, c.exhaustive, w);
    } else {
      assert Holds(Chain(0, c.slots), w);
      ThresholdHas(c.slots, w);
    }
  }

  lemma {:induction false} ExtendHas(result: seq<World>, group: seq<World>, k: nat, e: World, p: World)
    requires k <= |result| && e in result[..k] && p in group
    ensures e + p in Extend(result, group, k)
  {
    if e in result[..k - 1] {
      ExtendHas(result, group, k - 1, e, p);
    } else {
      assert result[..k] == result[..k - 1] + [result[k - 1]];
      var i :| 0 <= i < |group| && group[i] == p;
      assert MergeEach(result[k - 1], group)[i] == e + p;
    }
  }

  lemma {:induction false} ExtendSplit(result: seq<World>, group: seq<World>, k: nat, x: World)
    returns (e: World, p: World)
    requires k <= |result| && x in Extend(result, group, k)
    ensures e in result && p in group && x == e + p
  {
    if x in Extend(result, group, k - 1) {
      e, p := ExtendSplit(result, group, k - 1, x);
    } else {
      var i :| 0 <= i < |group| && MergeEach(result[k - 1], group)[i] == x;
      e, p := result[k - 1], group[i];
    }
  }

  lemma {:induction false} ProductHas(groups: seq<seq<World>>, g: seq<World>, e: World, p: World)
    requires e in Product(groups, |groups|) && p in g
    ensures e + p in Product(groups + [g], |groups| + 1)
  {
    ProductStep(groups, g);
    var r := Product(groups, |groups|);
    assert r[..|r|] == r;
    ExtendHas(r, g, |r|, e, p);
  }

  lemma {:induction false} ProductSplit(groups: seq<seq<World>>, g: seq<World>, x: World) returns (e: World, p: World)
    requires x in Product(groups + [g], |groups| + 1)
    ensures e in Product(groups, |groups|) && p in g && x == e + p
  {
    ProductStep(groups, g);
    e, p := ExtendSplit(Product(groups, |groups|), g, |Product(groups, |groups|)|, x);
  }

  lemma {:induction false} RestrictUnion(w: World, a: set<int>, b: set<int>)
    ensures Restrict(w, a + b) == Restrict(w, a) + Restrict(w, b)
  {
  }

  lemma {:induction false} CoveredStep(cs: seq<Constraint>)
    requires cs != []
    ensures Covered(cs) == Covered(cs[..|cs| - 1]) + SetOf(SlotsOf(cs[|cs| - 1]))
  {
    CoveredSnoc(cs[..|cs| - 1], cs[|cs| - 1]);
    assert cs == cs[..|cs| - 1] + [cs[|cs| - 1]];
  }

  lemma {:induction false} SetsProductHas(cs: seq<Constraint>, w: World)
    requires AllHold(cs, w) && Covered(cs) <= w.Keys
    ensures Restrict(w, Covered(cs)) in Product(Groups(cs), |Groups(cs)|)
  {
    if cs == [] {
      assert Restrict(w, Covered(cs)) == map[];
    } else {
      var m := |cs| - 1;
      assert forall c :: c in cs <==> c in cs[..m] || c == cs[m];
      CoveredStep(cs);
      SetsProductHas(cs[..m], w);
      SetsProductStep(cs[..m], cs[m], w);
      assert cs == cs[..m] + [cs[m]];
    }
  }

  lemma {:induction false} SetsProductStep(rest: seq<Constraint>, c: Constraint, w: World)
    requires Holds(c, w) && SetOf(SlotsOf(c)) <= w.Keys
    requires Restrict(w, Covered(rest)) in Product(Groups(rest), |Groups(rest)|)
    ensures Restrict(w, Covered(rest + [c])) in Product(Groups(rest + [c]), |Groups(rest + [c])|)
  {
    hide Product, Restrict, Covered, Groups, Holds, CategoricalTable, ThresholdTable;
    CoveredSnoc(rest, c);
    GroupsSnoc(rest, c);
    if c.HardEdge? {
      assert Groups(rest + [c]) == Groups(rest) && Covered(rest + [c]) == Covered(rest);
    } else {
      RestrictUnion(w, Covered(rest), SetOf(c.slots));
      TableHas(c, w);
      ProductHas(Groups(rest), GroupOf(c)[0], Restrict(w, Covered(rest)), Restrict(w, SetOf(c.slots)));
      assert GroupOf(c) == [GroupOf(c)[0]];
    }
  }

  lemma {:induction false} FilterMember(states: seq<World>, cs: seq<Constraint>, w: World)
    ensures w in FilterStates(states, cs) <==> w in states && SatisfiesEdges(w, cs)
  {
    if states != [] {
      var m := |states| - 1;
      FilterMember(states[..m], cs, w);
      assert states == states[..m] + [states[m]];
    }
  }

  lemma {:induction false} EdgesFromHolds(cs: seq<Constraint>, w: World)
    requires AllHold(cs, w)
    ensures SatisfiesEdges(w, cs)
  {
    forall e | e in cs ensures SatisfiesEdge(w, e) {
      assert Holds(e, w);
    }
  }

  /** The full product, free questions included, contains every world of Ω. */
  lemma {:induction false} ProductCoversOmega(c: Cluster, unquoted: set<int>, cap: nat, w: World)
    requires InOmega(c, unquoted, w)
    requires |Interpret(c, unquoted).freeQids| <= 30 && Pow2(|Interpret(c, unquoted).freeQids|) <= cap
    ensures var all := AllGroups(Interpret(c, unquoted), cap); w in Product(all, |all|)
  {
    hide Interpret, Product, Groups, Pow2, AllHold, FreeTable;
    var interp := Interpret(c, unquoted);
    var groups := Groups(interp.constraints);
    InterpretCovers(c, unquoted);
    assert Restrict(w, QidSet(c)) == w;
    SetsProductHas(interp.constraints, w);
    if interp.freeQids == [] {
      assert QidSet(c) == Covered(interp.constraints);
      assert AllGroups(interp, cap) == groups;
    } else {
      RestrictUnion(w, Covered(interp.constraints), SetOf(interp.freeQids));
      FreeHas(interp.freeQids, w);
      ProductHas(groups, FreeTable(interp.freeQids), Restrict(w, Covered(interp.constraints)),
                 Restrict(w, SetOf(interp.freeQids)));
      assert AllGroups(interp, cap) == groups + [FreeTable(interp.freeQids)];
    }
  }

  lemma {:induction false} SomeGroup(c: Cluster, unquoted: set<int>, cap: nat)
    requires c.qids != []
    ensures AllGroups(Interpret(c, unquoted), cap) != []
  {
    var interp := Interpret(c, unquoted);
    InterpretCovers(c, unquoted);
    if interp.freeQids == [] {
      assert c.qids[0] in Covered(interp.constraints);
      var k :| k in interp.constraints && c.qids[0] in SlotsOf(k);
      GroupPresent(interp.constraints, k);
    }
  }

  lemma {:induction false} GroupPresent(cs: seq<Constraint>, k: Constraint)
    requires k in cs && !k.HardEdge?
    ensures Groups(cs) != []
  {
    var m := |cs| - 1;
    if k in cs[..m] {
      GroupPresent(cs[..m], k);
    } else {
      assert cs == cs[..m] + [cs[m]];
    }
  }

  /** Enumeration never loses a world: every world of Ω is among the states of a cluster that was
      enumerated, whatever sets overlap. A missing world could manufacture an arb. */
  lemma {:induction false} EnumerationCoversOmega(c: Cluster, cap: nat, w: World)
    requires Enumerate(c, cap).Ok? && InOmega(c, {}, w)
    ensures w in StatesOf(Enumerate(c, cap))
  {
    var interp := Interpret(c, {});
    SomeGroup(c, {}, cap);
    ProductCoversOmega(c, {}, cap, w);
    EdgesFromHolds(interp.constraints, w);
    var all := AllGroups(interp, cap);
    FilterMember(Product(all, |all|), interp.constraints, w);
  }

  // ---------- World count ----------

  lemma {:induction false} SetOfStates(s: seq<World>, t: set<World>)
    requires forall w :: w in t ==> w in s
    ensures |t| <= |s|
  {
    if s == [] {
      assert t == {};
    } else {
      var m := |s| - 1;
      assert s == s[..m] + [s[m]];
      SetOfStates(s[..m], t - {s[m]});
    }
  }

  /** |Ω| never exceeds the projected count, for every cluster, overlapping sets included. */
  lemma {:induction false} WorldCountBound(c: Cluster, unquoted: set<int>, worlds: set<World>)
    requires forall w :: w in worlds ==> InOmega(c, unquoted, w)
    ensures Projected(Interpret(c, unquoted)).Finite? ==> |worlds| <= Projected(Interpret(c, unquoted)).n
  {
    var interp := Interpret(c, unquoted);
    if |interp.freeQids| <= 30 {
      var cap := Pow2(|interp.freeQids|);
      var all := AllGroups(interp, cap);
      InterpretSlotted(c, unquoted);
      ProjectedIsProduct(interp, cap);
      forall w | w in worlds ensures w in Product(all, |all|) {
        ProductCoversOmega(c, unquoted, cap, w);
      }
      SetOfStates(Product(all, |all|), worlds);
    }
  }

  // ---------- When a cluster is enumerated at all ----------

  /** How many merged candidates there are: every combination of a state per set and a value per free question. */
  ghost function Combinations(interp: Interp): nat {
    ProductSize(Groups(interp.constraints) + if interp.freeQids == [] then [] else [FreeTable(interp.freeQids)])
  }

  /** Exactly when a cluster is enumerated: it has questions, at most 30 of them free with no more than the cap of
      combinations among them, and no more than the cap altogether. With questions but beyond that it is dropped,
      and says how many combinations it has and whether its free questions alone were too many. */
  lemma {:induction false} EnumeratedIff(c: Cluster, cap: nat)
    ensures var interp := Interpret(c, {});
            Enumerate(c, cap).Ok? <==>
              c.qids != [] && |interp.freeQids| <= 30 && Pow2(|interp.freeQids|) <= cap && Combinations(interp) <= cap
    ensures Enumerate(c, cap).Empty? <==> c.qids == []
    ensures Enumerate(c, cap).Dropped? ==>
              var interp, o := Interpret(c, {}), Enumerate(c, cap);
              && o.projected == (if |interp.freeQids| > 30 then Infinite else Finite(Combinations(interp)))
              && (o.freeOverCap <==> |interp.freeQids| > 30 || Pow2(|interp.freeQids|) > cap)
  {
    hide Interpret, Candidates, ProductSize, Groups, FreeTable, SizeProduct, Pow2;
    var interp := Interpret(c, {});
    InterpretSlotted(c, {});
    if |interp.freeQids| <= 30 { ProjectedIsProduct(interp, Pow2(|interp.freeQids|)); }
  }
}
