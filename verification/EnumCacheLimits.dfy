/** Two inputs on which a cache hit and a fresh decision differ: a set that was re-created under a new id, and
    overlapping sets that arrive in another order. The structure key tells neither pair of clusters apart. */
module EnumCacheLimits {
  import opened Wrappers
  import opened Graph
  import opened Omega
  import opened Lp
  import opened FacetLp
  import opened StateEnumerator
  import opened EnumerationExact
  import opened EnumerationOwner
  import opened EngineParity
  import opened Completeness
  import opened Routing
  import opened Liveness
  import opened EnumCache
  import opened Alike
  import opened SameOrder
  import opened SettledSets
  import opened EnumCacheSound

  // ---------- A set under a new id ----------

  /** Exactly one of 1 and 2, and 3 excludes both: 3 needs the set demoted to ever be YES. */
  function Gap(id: int, exhaustive: bool): Cluster {
    Cluster([1, 2, 3], [OutcomeSet(id, Categorical, [1, 2], exhaustive)],
            [Edge(20, 1, 3, MutualExclusion, true), Edge(21, 2, 3, MutualExclusion, true)])
  }

  function GapSet(id: int, exhaustive: bool): Constraint {
    OneHot(id, [1, 2], exhaustive)
  }

  function GapEdges(): seq<Constraint> {
    [HardEdge(20, Excludes, 1, 3), HardEdge(21, Excludes, 2, 3)]
  }

  lemma {:induction false} GapEdgeReading()
    ensures EdgeConstraints(Gap(0, true).edges, {1, 2, 3}) == GapEdges()
  {
    var e := Gap(0, true).edges;
    assert e[..1] == [e[0]] && e[..1][..0] == [];
    assert EdgeConstraints(e[..1], {1, 2, 3}) == [HardEdge(20, Excludes, 1, 3)];
  }

  lemma {:induction false} GapSetReading(id: int, exhaustive: bool)
    ensures SetConstraints(Gap(id, exhaustive).sets, {1, 2, 3}, {}) == [GapSet(id, exhaustive)]
  {
    KeepAll([1, 2], {1, 2, 3});
    assert Gap(id, exhaustive).sets[..0] == [];
  }

  lemma {:induction false} GapReading(id: int, exhaustive: bool)
    ensures QidSet(Gap(id, exhaustive)) == {1, 2, 3}
    ensures Interpret(Gap(id, exhaustive), {}) == Interp([GapSet(id, exhaustive)] + GapEdges(), [3])
  {
    hide SetConstraints, EdgeConstraints, Keep;
    var c := Gap(id, exhaustive);
    assert QidSet(c) == {1, 2, 3};
    GapSetReading(id, exhaustive);
    GapEdgeReading();
    CoveredSnoc([], GapSet(id, exhaustive));
    assert [] + [GapSet(id, exhaustive)] == [GapSet(id, exhaustive)];
    assert Covered([]) == {} && SetOf([1, 2]) == {1, 2};
    assert SlotsOf(GapSet(id, exhaustive)) == [1, 2];
    assert Covered([GapSet(id, exhaustive)]) == {1, 2};
    assert {1, 2, 3} - {1, 2} == {3};
    assert c.edges == Gap(0, true).edges;
    KeepThree();
  }

  lemma {:induction false} KeepThree()
    ensures Keep([1, 2, 3], {3}) == [3]
  {
    assert [1, 2, 3][..2] == [1, 2] && [1, 2][..1] == [1] && [1][..0] == [];
    assert Keep([1], {3}) == [] && Keep([1, 2], {3}) == [];
  }

  /** A world given by its three answers. */
  function Answers(a: bool, b: bool, c: bool): World {
    map[1 := a, 2 := b, 3 := c]
  }

  lemma {:induction false} GapWorlds(id: int, exhaustive: bool, a: bool, b: bool, c: bool)
    ensures InOmega(Gap(id, exhaustive), {}, Answers(a, b, c)) <==>
              !(a && c) && !(b && c) && !(a && b) && (exhaustive ==> a || b)
  {
    hide Interpret;
    GapReading(id, exhaustive);
    var w, cs := Answers(a, b, c), [GapSet(id, exhaustive)] + GapEdges();
    TwoCount(w);
    assert cs == [GapSet(id, exhaustive), GapEdges()[0], GapEdges()[1]];
    assert AllHold(cs, w) <==> Holds(cs[0], w) && Holds(cs[1], w) && Holds(cs[2], w);
  }

  lemma {:induction false} TwoCount(w: World)
    ensures CountYes([1, 2], w) == (if Yes(w, 1) then 1 else 0) + (if Yes(w, 2) then 1 else 0)
  {
    assert [1, 2][..1] == [1] && [1][..0] == [];
    assert CountYes([1], w) == if Yes(w, 1) then 1 else 0;
  }

  lemma {:induction false} GapTidy(id: int, exhaustive: bool)
    ensures Tidy(Gap(id, exhaustive)) && Disjoint(Gap(id, exhaustive))
  {
    hide SetConstraints;
    assert QidSet(Gap(id, exhaustive)) == {1, 2, 3};
    GapSetReading(id, exhaustive);
  }

  lemma {:induction false} GapSize(id: int, exhaustive: bool)
    ensures SizeProduct([GapSet(id, exhaustive)] + GapEdges()) == if exhaustive then 2 else 3
  {
    var cs := [GapSet(id, exhaustive)] + GapEdges();
    assert cs[..2] == [GapSet(id, exhaustive), GapEdges()[0]] && cs[..2][..1] == [GapSet(id, exhaustive)];
    assert SizeProduct(cs[..2][..1][..0]) == 1 && cs[..2][..1][..0] == [];
    assert SizeProduct(cs[..2][..1]) == if exhaustive then 2 else 3;
    assert SizeProduct(cs[..2]) == if exhaustive then 2 else 3;
  }

  lemma {:induction false} GapEnumerates(id: int, exhaustive: bool, cap: nat)
    requires cap >= 6
    ensures Enumerate(Gap(id, exhaustive), cap).Ok?
  {
    hide Interpret, Candidates;
    GapReading(id, exhaustive);
    GapSize(id, exhaustive);
    assert Pow2(1) == 2 && Pow2(0) == 1;
  }

  lemma {:induction false} GapStates(id: int, exhaustive: bool, cap: nat, a: bool, b: bool, c: bool)
    requires cap >= 6
    ensures Answers(a, b, c) in StatesOf(Enumerate(Gap(id, exhaustive), cap)) <==>
            !(a && c) && !(b && c) && !(a && b) && (exhaustive ==> a || b)
  {
    hide Enumerate, InOmega, Tidy, Disjoint, Settled;
    GapEnumerates(id, exhaustive, cap);
    GapTidy(id, exhaustive);
    DisjointSettled(Gap(id, exhaustive));
    SettledStates(Gap(id, exhaustive), cap);
    GapWorlds(id, exhaustive, a, b, c);
  }

  /** The enumeration never shows 3 YES, so the set is demoted, and then everything shows both ways. */
  lemma {:induction false} GapBoth(id: int, cap: nat)
    requires cap >= 6
    ensures var s := StatesOf(Enumerate(Gap(id, true), cap));
            s != [] && BothValues(s, 1) && BothValues(s, 2) && !BothValues(s, 3)
    ensures var s := StatesOf(Enumerate(Gap(id, false), cap));
            s != [] && BothValues(s, 1) && BothValues(s, 2) && BothValues(s, 3)
  {
    hide Enumerate;
    GapStates(id, true, cap, true, false, false);
    GapStates(id, true, cap, false, true, false);
    GapStates(id, false, cap, true, false, false);
    GapStates(id, false, cap, false, true, false);
    GapStates(id, false, cap, false, false, true);
    forall w | w in StatesOf(Enumerate(Gap(id, true), cap)) ensures !Yes(w, 3) { GapNoThree(id, cap, w); }
    assert Yes(Answers(true, false, false), 1) && Yes(Answers(false, true, false), 2) &&
           Yes(Answers(false, false, true), 3);
    assert !Yes(Answers(true, false, false), 2) && !Yes(Answers(false, true, false), 1) &&
           !Yes(Answers(true, false, false), 3);
  }

  lemma {:induction false} GapKeys(id: int, exhaustive: bool, cap: nat, w: World)
    requires cap >= 6 && w in StatesOf(Enumerate(Gap(id, exhaustive), cap))
    ensures w.Keys == {1, 2, 3}
  {
    hide Enumerate, Tidy, Disjoint, Settled;
    GapEnumerates(id, exhaustive, cap);
    GapTidy(id, exhaustive);
    DisjointSettled(Gap(id, exhaustive));
    SettledStates(Gap(id, exhaustive), cap);
  }

  lemma {:induction false} GapNoThree(id: int, cap: nat, w: World)
    requires cap >= 6 && w in StatesOf(Enumerate(Gap(id, true), cap))
    ensures !Yes(w, 3)
  {
    hide Enumerate;
    GapKeys(id, true, cap, w);
    GapStates(id, true, cap, w[1], w[2], w[3]);
    assert w == Answers(w[1], w[2], w[3]);
  }

  lemma {:induction false} GapComplete(id: int, exhaustive: bool, cap: nat)
    requires cap >= 6
    ensures Check(Interpret(Gap(id, exhaustive), {}), StatesOf(Enumerate(Gap(id, exhaustive), cap))).complete ==
              !exhaustive
  {
    hide Enumerate, Interpret, Check, BothValues;
    var s := StatesOf(Enumerate(Gap(id, exhaustive), cap));
    forall w | w in s ensures w.Keys == {1, 2, 3} { GapKeys(id, exhaustive, cap, w); }
    GapBoth(id, cap);
    CompleteMeans(Interpret(Gap(id, exhaustive), {}), s, {1, 2, 3});
    if exhaustive { assert 3 in {1, 2, 3}; }
  }

  lemma {:induction false} GapSuspects(id: int, incomplete: set<int>)
    requires 3 in incomplete
    ensures 1 in Suspects([GapSet(id, true)] + GapEdges(), incomplete)
  {
    hide Suspects;
    var cs := [GapSet(id, true)] + GapEdges();
    SuspectMember(cs, incomplete, 1);
    assert Reaches(GapEdges()[0], incomplete, 1) && cs[1] == GapEdges()[0];
  }

  lemma {:induction false} GapOffends(id: int, suspects: set<int>)
    requires 1 in suspects
    ensures SetOf(OffendingIds([GapSet(id, true)] + GapEdges(), suspects)) == {id}
  {
    hide OffendingIds;
    var cs := [GapSet(id, true)] + GapEdges();
    assert 1 in [1, 2] && cs[0] == GapSet(id, true);
    assert Offends(GapSet(id, true), suspects);
    forall i ensures i in OffendingIds(cs, suspects) <==> i == id {
      OffendingMember(cs, suspects, i);
      assert forall k :: k in cs && Offends(k, suspects) ==> k == GapSet(id, true);
    }
  }

  lemma {:induction false} GapThreeIncomplete(id: int, cap: nat)
    requires cap >= 6
    ensures 3 in IncompleteOf(StatesOf(Enumerate(Gap(id, true), cap)))
  {
    hide Enumerate, IncompleteOf, BothValues;
    var s := StatesOf(Enumerate(Gap(id, true), cap));
    forall w | w in s ensures w.Keys == {1, 2, 3} { GapKeys(id, true, cap, w); }
    GapBoth(id, cap);
    IncompleteMember(s, {1, 2, 3}, 3);
  }

  lemma {:induction false} GapOffending(id: int, cap: nat)
    requires cap >= 6
    ensures SetOf(Check(Interpret(Gap(id, true), {}), StatesOf(Enumerate(Gap(id, true), cap))).offending) == {id}
  {
    hide Enumerate, Interpret, IncompleteOf, Suspects, OffendingIds;
    var s := StatesOf(Enumerate(Gap(id, true), cap));
    GapReading(id, true);
    GapThreeIncomplete(id, cap);
    GapSuspects(id, IncompleteOf(s));
    GapOffends(id, Suspects([GapSet(id, true)] + GapEdges(), IncompleteOf(s)));
  }

  lemma {:induction false} GapDemoted(id: int)
    ensures DemoteSets(Gap(id, true).sets, {id}) == Gap(id, false).sets
    ensures Gap(id, true).(sets := Gap(id, false).sets) == Gap(id, false)
  {
    assert Gap(id, true).sets[..0] == [];
  }

  lemma {:induction false} GapRepair(id: int, cap: nat)
    requires cap >= 6
    ensures var r := RepairOf(Gap(id, true), StatesOf(Enumerate(Gap(id, true), cap)), cap);
            r.Repaired? && SetOf(r.demoted) == {id} && r.sets == Gap(id, false).sets &&
            r.outcome == Enumerate(Gap(id, false), cap)
  {
    hide Enumerate, Interpret, Check, DemoteSets, BothValues;
    GapComplete(id, true, cap);
    GapComplete(id, false, cap);
    GapOffending(id, cap);
    EmptySet(Check(Interpret(Gap(id, true), {}), StatesOf(Enumerate(Gap(id, true), cap))).offending);
    GapDemoted(id);
    GapBoth(id, cap);
  }

  lemma {:induction false} GapRoute(id: int, cfg: Config, feasible: Feasibility, present: bool)
    requires cfg.maxStates >= 6
    ensures var r := Route(Gap(id, true), cfg, feasible, present);
            SetOf(r.demoted) == {id} && r.sets == Gap(id, false).sets
  {
    hide Enumerate, RepairOf, PinnedOf, BothValues;
    GapRepair(id, cfg.maxStates);
    GapBoth(id, cfg.maxStates);
  }

  /** The cluster reloads with its set under a new id. The key is the same, so the hit replays the demotion
      of the old id and leaves the new set Σ = 1, over states that have it demoted. */
  lemma {:induction false} NewIdMissesDemotion(cfg: Config, feasible: Feasibility, present: bool)
    requires cfg.maxStates >= 6
    ensures KeyOf(Gap(7, true), cfg) == KeyOf(Gap(8, true), cfg)
    ensures var hit := Cached(Route(Gap(7, true), cfg, feasible, present));
            Replay(hit, Gap(8, true)).sets == Gap(8, true).sets &&
            Route(Gap(8, true), cfg, feasible, present).sets == Gap(8, false).sets
    ensures Gap(8, true).sets != Gap(8, false).sets
  {
    hide Route, EdgeCodes;
    GapRoute(7, cfg, feasible, present);
    GapRoute(8, cfg, feasible, present);
    EmptySet(Route(Gap(7, true), cfg, feasible, present).demoted);
    assert Gap(8, true).sets[..0] == [];
    assert DemoteSets(Gap(8, true).sets, {7}) == Gap(8, true).sets;
    assert SetCodes(Gap(7, true).sets) == SetCodes(Gap(8, true).sets);
    assert Gap(8, true).sets[0].exhaustive && !Gap(8, false).sets[0].exhaustive;
  }

  // ---------- Overlapping sets in another order ----------

  /** The two sets of `EngineParity.Overlap`, the other way round. */
  function Reversed(): Cluster {
    Overlap().(sets := [Overlap().sets[1], Overlap().sets[0]])
  }

  lemma {:induction false} ReversedReading()
    ensures Interpret(Reversed(), {}) == Interp([Right(), Left()], [])
  {
    hide SetConstraint, Keep, EdgeConstraints;
    assert QidSet(Reversed()) == {1, 2, 3};
    PairConstraint(7, 1, 2, {1, 2, 3});
    PairConstraint(8, 2, 3, {1, 2, 3});
    TwoSets(Reversed().sets[0], Reversed().sets[1], {1, 2, 3});
    assert [Right()] + [Left()] == [Right(), Left()];
    CoveredSnoc([], Right());
    CoveredSnoc([Right()], Left());
    assert [] + [Right()] == [Right()] && Covered([]) == {};
    assert SetOf([1, 2]) == {1, 2} && SetOf([2, 3]) == {2, 3};
    SetsOnly(Reversed(), [Right(), Left()]);
  }

  /** With {1, 2} last, no enumerated state has 1 and 2 both YES. */
  lemma {:induction false} ReversedExcludes(w: World)
    requires w in Product([Table(Right()), Table(Left())], 2)
    ensures w != BothYes()
  {
    hide Table;
    assert [Table(Right())] + [Table(Left())] == [Table(Right()), Table(Left())];
    var e, p := ProductSplit([Table(Right())], Table(Left()), w);
    TableSound(Left(), p);
    if w == BothYes() {
      assert 1 in SetOf([1, 2]) && 2 in SetOf([1, 2]);
      assert Yes(p, 1) && Yes(p, 2);
      TwoYesBreak(Left(), p, 1, 2);
    }
  }

  lemma {:induction false} ReversedGroups()
    ensures Groups([Right(), Left()]) == [Table(Right()), Table(Left())]
  {
    hide Groups, CategoricalTable, SizeProduct;
    NoGroups();
    GroupsSnoc([], Right());
    GroupsSnoc([Right()], Left());
    assert [] + [Right()] == [Right()] && [Right()] + [Left()] == [Right(), Left()];
    assert GroupOf(Right()) == [Table(Right())] && GroupOf(Left()) == [Table(Left())];
    assert Groups([Right()]) == [Table(Right())];
  }

  lemma {:induction false} ReversedLacks()
    ensures BothYes() !in StatesOf(Enumerate(Reversed(), 100))
  {
    hide Interpret, Table, Product;
    ReversedReading();
    ReversedGroups();
    assert AllGroups(Interp([Right(), Left()], []), 100) == [Table(Right()), Table(Left())];
    var states := Product([Table(Right()), Table(Left())], 2);
    FilterMember(states, [Right(), Left()], BothYes());
    if BothYes() in states { ReversedExcludes(BothYes()); }
  }

  /** Same key, other worlds: the cached states of one order contain a world the other order never has. */
  lemma {:induction false} OrderChangesStates(cfg: Config)
    requires cfg.maxStates == 100
    ensures KeyOf(Overlap(), cfg) == KeyOf(Reversed(), cfg)
    ensures BothYes() in StatesOf(Enumerate(Overlap(), 100)) && BothYes() !in StatesOf(Enumerate(Reversed(), 100))
  {
    hide Enumerate, SetCodes;
    OverlapEnumerates();
    ReversedLacks();
    SwappedCodes(Overlap().sets[0], Overlap().sets[1]);
  }

  lemma {:induction false} SwappedCodes(a: OutcomeSet, b: OutcomeSet)
    ensures multiset(SetCodes([a, b])) == multiset(SetCodes([b, a]))
  {
    hide CodeOf;
    assert SetCodes([a, b]) == [CodeOf(a), CodeOf(b)] && SetCodes([b, a]) == [CodeOf(b), CodeOf(a)];
  }
}
