/** Why `TickShowsBoth` needs load-time states: a cluster whose Ω is empty at load is neither degenerate nor
    relaxed, so a liveness tick can wake it, and no pin check looks at the states it wakes with. */
module WakingCluster {
  import opened Wrappers
  import opened Graph
  import opened Omega
  import opened Lp
  import opened StateEnumerator
  import opened EnumerationOwner
  import opened EngineParity
  import opened Completeness
  import opened Routing
  import opened Liveness
  import opened SkipFilter
  import opened SolvePrep
  import opened SolveRuns

  function PairSet(exhaustive: bool): OutcomeSet {
    OutcomeSet(7, Categorical, [1, 2], exhaustive)
  }

  /** Exactly one of 1 and 2, and 1 the same as 2. */
  function Contradiction(exhaustive: bool): Cluster {
    Cluster([1, 2], [PairSet(exhaustive)], [Edge(9, 1, 2, Equivalence, true)])
  }

  lemma {:induction false} PairSlots()
    ensures SetConstraints([PairSet(true)], {1, 2}, {}) == [OneHot(7, [1, 2], true)]
    ensures SetConstraints([PairSet(false)], {1, 2}, {}) == [OneHot(7, [1, 2], false)]
    ensures SetConstraints([PairSet(true)], {1, 2}, {1}) == [OneHot(7, [1, 2], false)]
  {
    Keep12();
    assert [PairSet(true)][..0] == [] && [PairSet(false)][..0] == [];
    assert 1 in [1, 2];
  }

  lemma {:induction false} Keep12()
    ensures Keep([1, 2], {1, 2}) == [1, 2] && Keep([1, 2], {}) == []
  {
    KeepAll([1, 2], {1, 2});
    KeepNone([1, 2]);
  }

  lemma {:induction false} Reading(exhaustive: bool)
    ensures QidSet(Contradiction(exhaustive)) == {1, 2}
    ensures Interpret(Contradiction(exhaustive), {}) ==
              Interp([OneHot(7, [1, 2], exhaustive), HardEdge(9, Equals, 1, 2)], [])
    ensures SetsOf(Contradiction(exhaustive)) == [OneHot(7, [1, 2], exhaustive)]
  {
    hide SetConstraints, EdgeConstraints;
    var c := Contradiction(exhaustive);
    assert QidSet(c) == {1, 2};
    PairSlots();
    EdgeReading();
    var k := OneHot(7, [1, 2], exhaustive);
    assert Covered([k]) == {1, 2} by {
      CoveredSnoc([], k);
      assert [] + [k] == [k] && Covered([]) == {} && SetOf([1, 2]) == {1, 2};
    }
    Keep12();
    assert {1, 2} - Covered([k]) == {};
    assert [k] + [HardEdge(9, Equals, 1, 2)] == [k, HardEdge(9, Equals, 1, 2)];
  }

  lemma {:induction false} EdgeReading()
    ensures EdgeConstraints([Edge(9, 1, 2, Equivalence, true)], {1, 2}) == [HardEdge(9, Equals, 1, 2)]
  {
    assert [Edge(9, 1, 2, Equivalence, true)][..0] == [];
  }

  lemma {:induction false} Sizes(k: Constraint, h: Constraint)
    requires h.HardEdge?
    ensures SizeProduct([k, h]) == SizeOf(k)
  {
    assert [k, h][..1] == [k] && [k][..0] == [];
    assert SizeProduct([k]) == SizeProduct([k][..0]) * SizeOf(k) == SizeOf(k);
  }

  lemma {:induction false} Enumerates(exhaustive: bool, cap: nat)
    requires cap >= 3
    ensures Enumerate(Contradiction(exhaustive), cap).Ok?
    ensures forall w :: w in StatesOf(Enumerate(Contradiction(exhaustive), cap)) <==>
              InOmega(Contradiction(exhaustive), {}, w)
  {
    hide Enumerate, Interpret, InOmega, Compatible, SetsOf;
    var c := Contradiction(exhaustive);
    Reading(exhaustive);
    WithinCap(exhaustive, cap);
    DisjointCompatible(SetsOf(c));
    CompatibleIsExact(c, cap);
  }

  lemma {:induction false} WithinCap(exhaustive: bool, cap: nat)
    requires cap >= 3
    ensures Enumerate(Contradiction(exhaustive), cap).Ok?
  {
    hide Candidates, Interpret;
    Reading(exhaustive);
    Sizes(OneHot(7, [1, 2], exhaustive), HardEdge(9, Equals, 1, 2));
    assert Pow2(0) == 1;
  }

  function BothNo(): World {
    map[1 := false, 2 := false]
  }

  /** No world at load, exactly one once the set no longer claims exhaustivity. */
  lemma {:induction false} WorldsOf(exhaustive: bool, w: World)
    ensures InOmega(Contradiction(exhaustive), {}, w) <==> !exhaustive && w == BothNo()
  {
    hide Interpret, QidSet, AllHold;
    Reading(exhaustive);
    PairHolds(exhaustive, w);
  }

  lemma {:induction false} PairHolds(exhaustive: bool, w: World)
    ensures w.Keys == {1, 2} && AllHold([OneHot(7, [1, 2], exhaustive), HardEdge(9, Equals, 1, 2)], w) <==>
              !exhaustive && w == BothNo()
  {
    CountOfTwo(w);
    var k, h := OneHot(7, [1, 2], exhaustive), HardEdge(9, Equals, 1, 2);
    assert AllHold([k, h], w) <==> Holds(k, w) && Holds(h, w) by {
      assert k in [k, h] && h in [k, h];
    }
    if w.Keys == {1, 2} && !Yes(w, 1) && !Yes(w, 2) { assert w == BothNo(); }
  }

  lemma {:induction false} CountOfTwo(w: World)
    ensures CountYes([1, 2], w) == (if Yes(w, 1) then 1 else 0) + (if Yes(w, 2) then 1 else 0)
  {
    assert [1, 2][..1] == [1] && [1][..0] == [];
    assert CountYes([1], w) == if Yes(w, 1) then 1 else 0;
  }

  lemma {:induction false} StatesByMember(s: seq<World>, w: World)
    requires forall x :: x in s ==> x == w
    ensures forall q :: !Yes(w, q) ==> !BothValues(s, q)
  {
  }

  lemma {:induction false} FirstIn(s: seq<World>)
    ensures s == [] || exists x :: x in s
  {
    if s != [] { assert s[0] in s; }
  }

  lemma {:induction false} DeadPair()
    ensures MaskOf([PairSet(true)], {1}) == multiset{7} && DemoteByIds([PairSet(true)], {7}) == [PairSet(false)]
  {
    assert [PairSet(true)][..0] == [] && 1 in [1, 2];
  }

  /** The cluster is routed as solvable with no states; a tick on which question 1 has no quote gives it the
      one state that pins both questions NO. */
  lemma {:induction false} EmptyOmegaWakesPinned(cfg: Config, feasible: Feasibility, present: bool)
    requires cfg.maxStates >= 3
    ensures var r := Route(Contradiction(true), cfg, feasible, present);
            !r.degenerate && !r.relaxed && r.states == [] && r.sets == [PairSet(true)]
    ensures var states := MaskedStates(Contradiction(true), MaskOf([PairSet(true)], {1}), cfg.maxStates);
            states != [] && !BothValues(states, 1) && !BothValues(states, 2)
  {
    hide Enumerate, InOmega;
    var cap := cfg.maxStates;
    WorldList(true, cap);
    WorldList(false, cap);
    FirstIn(StatesOf(Enumerate(Contradiction(true), cap)));
    DeadPair();
    assert IdsIn(multiset{7}) == {7};
    assert Contradiction(true).(sets := [PairSet(false)]) == Contradiction(false);
    assert BothNo() in StatesOf(Enumerate(Contradiction(false), cap));
    StatesByMember(StatesOf(Enumerate(Contradiction(false), cap)), BothNo());
  }

  lemma {:induction false} WorldList(exhaustive: bool, cap: nat)
    requires cap >= 3
    ensures Enumerate(Contradiction(exhaustive), cap).Ok?
    ensures forall w :: w in StatesOf(Enumerate(Contradiction(exhaustive), cap)) <==> !exhaustive && w == BothNo()
  {
    hide Enumerate, InOmega;
    Enumerates(exhaustive, cap);
    forall w ensures w in StatesOf(Enumerate(Contradiction(exhaustive), cap)) <==> !exhaustive && w == BothNo() {
      WorldsOf(exhaustive, w);
    }
  }

  /** All worlds of the tick's Ω give q the same value. */
  ghost predicate Settled(c: Cluster, unquoted: set<int>, q: int) {
    forall w, v :: InOmega(c, unquoted, w) && InOmega(c, unquoted, v) ==> Yes(w, q) == Yes(v, q)
  }

  /** Which ticks pin, on every cluster with compatible sets and whatever load time found: one with these unquoted
      questions leaves states that pin q exactly when its Ω has a world and all its worlds give q the same value. */
  lemma {:induction false} PinsIff(c: Cluster, unquoted: set<int>, cap: nat, q: int)
    requires Enumerable(c, unquoted, cap)
    ensures var states := MaskedStates(c, MaskOf(c.sets, unquoted), cap);
            states != [] && !BothValues(states, q) <==> (exists w :: InOmega(c, unquoted, w)) && Settled(c, unquoted, q)
  {
    hide InOmega, MaskedStates, AllCompatible, PlainSets, Enumerate, Demoted;
    var states := MaskedStates(c, MaskOf(c.sets, unquoted), cap);
    forall w ensures w in states <==> InOmega(c, unquoted, w) { MaskedStatesAreOmega(c, unquoted, cap, w); }
    FirstIn(states);
    if states != [] && !BothValues(states, q) {
      forall w, v | InOmega(c, unquoted, w) && InOmega(c, unquoted, v) ensures Yes(w, q) == Yes(v, q) {
        assert w in states && v in states;
      }
    }
    if BothValues(states, q) {
      var w :| w in states && Yes(w, q);
      var v :| v in states && !Yes(v, q);
      assert InOmega(c, unquoted, w) && InOmega(c, unquoted, v);
    }
  }

  /** Under the hybrid engine that tick is solved: the pinned states become the problem's rows. */
  lemma {:induction false} PinnedProblemIsPosed<F>(cfg: Config, feasible: Feasibility, present: bool, id: int,
                                                   q: Quotes<F>, opts: Options)
    requires cfg.maxStates == opts.maxStates >= 3 && opts.engine.Hybrid? && opts.floor <= 0.5
    requires q.unquoted == {1} && q.legs.Some? && LegsOf(q.legs.value, [1, 2])
    ensures var k := LoadedFrom(Contradiction(true), Route(Contradiction(true), cfg, feasible, present));
            var t := Tick(Caches(map[], map[], map[]), id, k, q, opts);
            && t.prep == Solve(WorldProblem(q.legs.value, t.states))
            && t.states != [] && !BothValues(t.states, 1) && !BothValues(t.states, 2)
  {
    hide Route, MaskedStates, MaskOf, WorldProblem, FacetProblem, BothValues, Skips;
    var r := Route(Contradiction(true), cfg, feasible, present);
    EmptyOmegaWakesPinned(cfg, feasible, present);
    assert Contradiction(true).(sets := r.sets) == Contradiction(true);
    DeadPair();
    assert QuotedFraction(2, |{1}|) == 0.5;
    assert MaskOf([PairSet(true)], {1}) != multiset{};
    NoSkipWithoutCert(WorldProblem(q.legs.value, MaskedStates(Contradiction(true), MaskOf([PairSet(true)], {1}),
                                                              cfg.maxStates)), opts.theta);
  }

  lemma {:induction false} NoSkipWithoutCert(lp: LPProblem, theta: real)
    requires Rectangular(lp)
    ensures !Skips(None, lp, theta, EPS)
  {
  }
}
