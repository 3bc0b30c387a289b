/** Two clusters with one structure key whose sets come in the same order enumerate to the same worlds, overlapping
    sets included: the merged groups are the same up to the order of the free questions
    (services/arb-solver/src/graph/enum-cache.ts, services/arb-solver/src/solver/state-enumerator.ts). */
module SameOrder {
  import opened Graph
  import opened Omega
  import opened StateEnumerator
  import opened EnumerationExact
  import opened EnumerationOwner
  import opened Routing
  import opened Liveness
  import opened EnumCache
  import opened Alike

  ghost predicate Aligned(o: Cluster, c: Cluster) {
    SetCodes(o.sets) == SetCodes(c.sets)
  }

  // ---------- The same groups ----------

  lemma {:induction false} SameGroup(s: OutcomeSet, t: OutcomeSet, qs: set<int>)
    requires CodeOf(s) == CodeOf(t)
    ensures Groups(SetConstraint(s, qs, {})) == Groups(SetConstraint(t, qs, {}))
  {
    hide Keep, CategoricalTable, ThresholdTable, SizeProduct;
    var a, b := SetConstraint(s, qs, {}), SetConstraint(t, qs, {});
    if a != [] {
      assert a == [a[0]] && b == [b[0]] && GroupOf(a[0]) == GroupOf(b[0]);
      GroupsSnoc([], a[0]);
      GroupsSnoc([], b[0]);
      assert [] + [a[0]] == a && [] + [b[0]] == b;
    }
  }

  lemma {:induction false} GroupsConcat(a: seq<Constraint>, b: seq<Constraint>)
    ensures Groups(a + b) == Groups(a) + Groups(b)
  {
    hide Groups, GroupOf;
    if b == [] {
      assert a + b == a;
      NoGroups();
    } else {
      var m := |b| - 1;
      GroupsConcat(a, b[..m]);
      GroupsSnoc(a + b[..m], b[m]);
      GroupsSnoc(b[..m], b[m]);
      assert a + b == (a + b[..m]) + [b[m]] && b == b[..m] + [b[m]];
    }
  }

  lemma {:induction false} NoGroups()
    ensures Groups([]) == []
  {
  }

  lemma {:induction false} SameGroups(a: seq<OutcomeSet>, b: seq<OutcomeSet>, qs: set<int>)
    requires SetCodes(a) == SetCodes(b)
    ensures Groups(SetConstraints(a, qs, {})) == Groups(SetConstraints(b, qs, {}))
  {
    hide Groups, SetConstraint, CodeOf;
    assert |SetCodes(a)| == |a| && |SetCodes(b)| == |b|;
    if a != [] {
      var m := |a| - 1;
      assert SetCodes(a)[m] == SetCodes(b)[m];
      assert SetCodes(a[..m]) == SetCodes(a)[..m] && SetCodes(b[..m]) == SetCodes(b)[..m];
      SameGroups(a[..m], b[..m], qs);
      SameGroup(a[m], b[m], qs);
      GroupsConcat(SetConstraints(a[..m], qs, {}), SetConstraint(a[m], qs, {}));
      GroupsConcat(SetConstraints(b[..m], qs, {}), SetConstraint(b[m], qs, {}));
    }
  }

  // ---------- The free questions in any order ----------

  lemma {:induction false} FreeIn(a: seq<int>, b: seq<int>)
    requires Distinct(a) && SetOf(a) == SetOf(b)
    ensures TableIn(FreeTable(a), FreeTable(b))
  {
    hide FreeTable;
    forall w | w in FreeTable(a) ensures w in FreeTable(b) {
      FreeTableSound(a, w);
      FreeHas(b, w);
      assert Restrict(w, SetOf(b)) == w;
    }
  }

  lemma {:induction false} FreeWithin(groups: seq<seq<World>>, a: seq<int>, b: seq<int>, w: World)
    requires Distinct(a) && SetOf(a) == SetOf(b) && w in Product(WithFree(groups, a), |WithFree(groups, a)|)
    ensures w in Product(WithFree(groups, b), |WithFree(groups, b)|)
  {
    hide Product, FreeTable;
    if a != [] { assert a[0] in SetOf(a); }
    if b != [] { assert b[0] in SetOf(b); }
    if a != [] {
      FreeIn(a, b);
      assert Included(groups + [FreeTable(a)], groups + [FreeTable(b)]);
      ProductIncluded(WithFree(groups, a), WithFree(groups, b), |groups| + 1, w);
    }
  }

  // ---------- The same edges ----------

  lemma {:induction false} ContentEdge(k: Constraint, w: World)
    ensures SatisfiesEdge(w, k) <==> SatisfiesEdge(w, Content(k))
  {
  }

  lemma {:induction false} SameEdges(cs: seq<Constraint>, cs': seq<Constraint>, w: World)
    requires AlikeLists(cs, cs') && SatisfiesEdges(w, cs)
    ensures SatisfiesEdges(w, cs')
  {
    hide Content, SatisfiesEdge;
    forall k | k in cs' ensures SatisfiesEdge(w, k) {
      var t := Twin(cs', cs, k);
      ContentEdge(k, w);
      ContentEdge(t, w);
    }
  }

  // ---------- The same worlds ----------

  lemma {:induction false} SameFree(o: Cluster, c: Cluster, cfg: Config)
    requires KeyOf(o, cfg) == KeyOf(c, cfg) && Distinct(o.qids)
    ensures SetOf(FreeOf(o)) == SetOf(FreeOf(c)) && Distinct(FreeOf(o))
  {
    hide SetConstraints, Covered, Keep, AlikeLists;
    SameKeyAlike(o, c, cfg);
    AlikeCovered(SetsOf(o), SetsOf(c));
    KeepMembers(o.qids, QidSet(o) - Covered(SetsOf(o)));
    KeepMembers(c.qids, QidSet(c) - Covered(SetsOf(c)));
    KeepDistinct(o.qids, QidSet(o) - Covered(SetsOf(o)));
    forall q ensures q in SetOf(FreeOf(o)) <==> q in SetOf(FreeOf(c)) {
      KeepMember(o.qids, QidSet(o) - Covered(SetsOf(o)), q);
      KeepMember(c.qids, QidSet(c) - Covered(SetsOf(c)), q);
      assert (q in QidSet(o) <==> q in o.qids) && (q in QidSet(c) <==> q in c.qids);
    }
  }

  /** A world one cluster enumerates, the other enumerates too. */
  lemma {:induction false} AlignedState(o: Cluster, c: Cluster, cfg: Config, w: World)
    requires KeyOf(o, cfg) == KeyOf(c, cfg) && Aligned(o, c) && Distinct(o.qids) && Distinct(c.qids)
    requires Enumerate(o, cfg.maxStates).Ok? && Enumerate(c, cfg.maxStates).Ok? &&
             w in StatesOf(Enumerate(o, cfg.maxStates))
    ensures w in StatesOf(Enumerate(c, cfg.maxStates))
  {
    hide SetCodes, EdgeCodes, Interpret, AlikeLists, Groups, Product, SatisfiesEdges, WithFree, AllGroups,
         SetConstraints;
    var cap, qs := cfg.maxStates, QidSet(o);
    assert QidSet(c) == qs;
    SameGroups(o.sets, c.sets, qs);
    SameFree(o, c, cfg);
    CandidateGroups(o, cap);
    CandidateGroups(c, cap);
    FilteredFrom(o, cap, w);
    FilteredFrom(c, cap, w);
    FreeWithin(Groups(SetsOf(o)), FreeOf(o), FreeOf(c), w);
    SameKeyAlike(o, c, cfg);
    SameEdges(Interpret(o, {}).constraints, Interpret(c, {}).constraints, w);
  }

  lemma {:induction false} FilteredFrom(c: Cluster, cap: nat, w: World)
    requires Enumerate(c, cap).Ok?
    ensures var all := AllGroups(Interpret(c, {}), cap);
            w in StatesOf(Enumerate(c, cap)) <==>
              w in Product(all, |all|) && SatisfiesEdges(w, Interpret(c, {}).constraints)
  {
    hide Product, Interpret, AllGroups, SatisfiesEdges;
    var all := AllGroups(Interpret(c, {}), cap);
    SomeGroup(c, {}, cap);
    FilterMember(Product(all, |all|), Interpret(c, {}).constraints, w);
  }

  // ---------- Listed by id ----------

  ghost predicate ListedById(sets: seq<OutcomeSet>) {
    forall i, j :: 0 <= i < j < |sets| ==> sets[i].setId < sets[j].setId
  }

  /** How many sets of the same content come before set i. */
  function Rank(sets: seq<OutcomeSet>, i: nat): nat
    requires i < |sets|
  {
    multiset(SetCodes(sets[..i]))[CodeOf(sets[i])]
  }

  /** Ids follow content: the first set of some content has one id, the second of that content another, and so on. */
  ghost predicate NamedBy(sets: seq<OutcomeSet>, idOf: (SetCode, nat) -> int) {
    forall i :: 0 <= i < |sets| ==> sets[i].setId == idOf(CodeOf(sets[i]), Rank(sets, i))
  }

  lemma {:induction false} RankBelow(sets: seq<OutcomeSet>, i: nat)
    requires i < |sets|
    ensures Rank(sets, i) < multiset(SetCodes(sets))[CodeOf(sets[i])]
  {
    hide CodeOf;
    var codes := SetCodes(sets);
    assert SetCodes(sets[..i]) == codes[..i];
    assert codes == codes[..i] + [codes[i]] + codes[i + 1..];
  }

  /** Every rank of some content is taken. */
  lemma {:induction false} AtRank(sets: seq<OutcomeSet>, code: SetCode, r: nat) returns (i: nat)
    requires r < multiset(SetCodes(sets))[code]
    ensures i < |sets| && CodeOf(sets[i]) == code && Rank(sets, i) == r
  {
    hide CodeOf;
    assert |SetCodes(sets)| == |sets|;
    var m := |sets| - 1;
    Shorter(sets, m);
    if r < multiset(SetCodes(sets[..m]))[code] {
      i := AtRank(sets[..m], code, r);
      assert sets[..m][..i] == sets[..i];
    } else {
      i := m;
    }
  }

  /** The set of a listing that carries the same id as set j of the other. */
  lemma {:induction false} NamedTwin(a: seq<OutcomeSet>, b: seq<OutcomeSet>, idOf: (SetCode, nat) -> int, j: nat)
    returns (i: nat)
    requires multiset(SetCodes(a)) == multiset(SetCodes(b)) && NamedBy(a, idOf) && NamedBy(b, idOf) && j < |b|
    ensures i < |a| && a[i].setId == b[j].setId && CodeOf(a[i]) == CodeOf(b[j])
  {
    hide CodeOf, SetCodes, Rank;
    RankBelow(b, j);
    i := AtRank(a, CodeOf(b[j]), Rank(b, j));
  }

  lemma {:induction false} LastIsLargest(sets: seq<OutcomeSet>, i: nat)
    requires ListedById(sets) && i < |sets|
    ensures i == |sets| - 1 || sets[i].setId < sets[|sets| - 1].setId
  {
  }

  lemma {:induction false} LastAlike(a: seq<OutcomeSet>, b: seq<OutcomeSet>, idOf: (SetCode, nat) -> int)
    requires multiset(SetCodes(a)) == multiset(SetCodes(b)) && a != [] && b != []
    requires ListedById(a) && ListedById(b) && NamedBy(a, idOf) && NamedBy(b, idOf)
    ensures CodeOf(a[|a| - 1]) == CodeOf(b[|b| - 1])
  {
    hide CodeOf, SetCodes, NamedBy;
    var x, y := a[|a| - 1], b[|b| - 1];
    var j := NamedTwin(b, a, idOf, |a| - 1);
    var i := NamedTwin(a, b, idOf, |b| - 1);
    LastIsLargest(a, i);
    LastIsLargest(b, j);
  }

  lemma {:induction false} NamedPrefix(sets: seq<OutcomeSet>, idOf: (SetCode, nat) -> int, m: nat)
    requires NamedBy(sets, idOf) && m <= |sets|
    ensures NamedBy(sets[..m], idOf)
  {
    hide CodeOf, SetCodes;
    forall i | 0 <= i < m ensures Rank(sets[..m], i) == Rank(sets, i) { assert sets[..m][..i] == sets[..i]; }
  }

  /** With ids that follow content, listing by id fixes the order. */
  lemma {:induction false} ListedAlike(a: seq<OutcomeSet>, b: seq<OutcomeSet>, idOf: (SetCode, nat) -> int)
    requires multiset(SetCodes(a)) == multiset(SetCodes(b))
    requires ListedById(a) && ListedById(b) && NamedBy(a, idOf) && NamedBy(b, idOf)
    ensures SetCodes(a) == SetCodes(b)
  {
    hide CodeOf, NamedBy;
    assert |multiset(SetCodes(a))| == |a| && |multiset(SetCodes(b))| == |b|;
    if a != [] {
      var m := |a| - 1;
      LastAlike(a, b, idOf);
      Shorter(a, m);
      Shorter(b, m);
      assert multiset(SetCodes(a[..m])) == multiset(SetCodes(a)) - multiset{CodeOf(a[m])};
      assert multiset(SetCodes(b[..m])) == multiset(SetCodes(b)) - multiset{CodeOf(b[m])};
      NamedPrefix(a, idOf, m);
      NamedPrefix(b, idOf, m);
      ListedAlike(a[..m], b[..m], idOf);
    }
  }

  lemma {:induction false} Shorter(s: seq<OutcomeSet>, m: nat)
    requires m + 1 == |s|
    ensures SetCodes(s) == SetCodes(s[..m]) + [CodeOf(s[m])]
  {
  }
}
