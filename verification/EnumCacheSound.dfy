/** A cache hit against a full decision (services/arb-solver/src/solve-core.ts, lines 281-354): two clusters with
    one structure key, whose sets keep their ids, are decided alike, so replaying one decision on the other
    is what deciding it afresh would give. */
module EnumCacheSound {
  import opened Wrappers
  import opened Graph
  import opened Omega
  import opened Lp
  import opened FacetLp
  import opened StateEnumerator
  import opened EnumerationOwner
  import opened Completeness
  import opened Routing
  import opened Liveness
  import opened EnumCache
  import opened Alike
  import opened SameOrder
  import opened SettledSets

  /** Distinct questions and set ids. */
  ghost predicate Tidy(c: Cluster) {
    Distinct(c.qids) && DistinctIds(c.sets)
  }

  /** No question in two sets. */
  ghost predicate Disjoint(c: Cluster) {
    ProductShaped(SetConstraints(c.sets, QidSet(c), {}))
  }

  /** Two tidy clusters that share a key. Their sets may carry other ids; they come in the same order, or else are
      compatible with the owners of their slots on both sides. */
  ghost predicate Twins(o: Cluster, c: Cluster, cfg: Config) {
    KeyOf(o, cfg) == KeyOf(c, cfg) && Tidy(o) && Tidy(c) && (Aligned(o, c) || (Settled(o) && Settled(c)))
  }

  ghost predicate SameStates(s: seq<World>, s': seq<World>) {
    forall w :: w in s <==> w in s'
  }

  ghost predicate SameOutcome(a: Outcome, b: Outcome) {
    a.Ok? == b.Ok? && a.Dropped? == b.Dropped? && SameStates(StatesOf(a), StatesOf(b))
  }

  // ---------- Enumeration ----------

  lemma {:induction false} DistinctCard(s: seq<int>)
    requires Distinct(s)
    ensures |SetOf(s)| == |s|
  {
    if s != [] {
      var m := |s| - 1;
      DistinctCard(s[..m]);
      assert SetOf(s) == SetOf(s[..m]) + {s[m]};
    }
  }

  lemma {:induction false} FreeAlike(o: Cluster, c: Cluster, cfg: Config)
    requires KeyOf(o, cfg) == KeyOf(c, cfg) && Distinct(o.qids) && Distinct(c.qids)
    ensures SetOf(Interpret(o, {}).freeQids) == SetOf(Interpret(c, {}).freeQids)
    ensures |Interpret(o, {}).freeQids| == |Interpret(c, {}).freeQids|
  {
    hide SetConstraints, EdgeConstraints, Covered, Keep, AlikeLists;
    SameKeyAlike(o, c, cfg);
    InterpretCovers(o, {});
    InterpretCovers(c, {});
    AlikeCovered(Interpret(o, {}).constraints, Interpret(c, {}).constraints);
    KeepDistinct(o.qids, QidSet(o) - Covered(SetConstraints(o.sets, QidSet(o), {})));
    KeepDistinct(c.qids, QidSet(c) - Covered(SetConstraints(c.sets, QidSet(c), {})));
    DistinctCard(Interpret(o, {}).freeQids);
    DistinctCard(Interpret(c, {}).freeQids);
  }

  lemma {:induction false} SameWorlds(o: Cluster, c: Cluster, cfg: Config, w: World)
    requires KeyOf(o, cfg) == KeyOf(c, cfg)
    ensures InOmega(o, {}, w) <==> InOmega(c, {}, w)
  {
    hide Interpret, AlikeLists, AllHold;
    SameKeyAlike(o, c, cfg);
    AlikeSymmetric(Interpret(o, {}).constraints, Interpret(c, {}).constraints);
    if InOmega(o, {}, w) { AlikeHold(Interpret(o, {}).constraints, Interpret(c, {}).constraints, w); }
    if InOmega(c, {}, w) { AlikeHold(Interpret(c, {}).constraints, Interpret(o, {}).constraints, w); }
  }

  lemma {:induction false} AlikeSymmetric(cs: seq<Constraint>, cs': seq<Constraint>)
    requires AlikeLists(cs, cs')
    ensures AlikeLists(cs', cs)
  {
  }

  lemma {:induction false} DisjointSettled(c: Cluster)
    requires Disjoint(c)
    ensures Settled(c)
  {
    hide Keep;
    forall k | k in SetsOf(c) && k.OneHot? ensures |k.slots| >= 2 { SetConstraintsMember(c.sets, QidSet(c), {}, k); }
    DisjointCompatible(SetsOf(c));
  }

  lemma {:induction false} SameQids(o: Cluster, c: Cluster)
    requires QidSet(o) == QidSet(c)
    ensures o.qids == [] <==> c.qids == []
  {
    if o.qids != [] { assert o.qids[0] in QidSet(o); }
    if c.qids != [] { assert c.qids[0] in QidSet(c); }
  }

  lemma {:induction false} SameVerdict(o: Cluster, c: Cluster, cfg: Config)
    requires Twins(o, c, cfg)
    ensures Enumerate(o, cfg.maxStates).Ok? == Enumerate(c, cfg.maxStates).Ok?
    ensures Enumerate(o, cfg.maxStates).Dropped? == Enumerate(c, cfg.maxStates).Dropped?
  {
    hide Interpret, Candidates, AlikeLists;
    SameKeyAlike(o, c, cfg);
    FreeAlike(o, c, cfg);
    AlikeSizes(Interpret(o, {}).constraints, Interpret(c, {}).constraints);
    SameQids(o, c);
  }

  lemma {:induction false} AlignedStates(o: Cluster, c: Cluster, cfg: Config)
    requires KeyOf(o, cfg) == KeyOf(c, cfg) && Tidy(o) && Tidy(c) && Aligned(o, c)
    requires Enumerate(o, cfg.maxStates).Ok? && Enumerate(c, cfg.maxStates).Ok?
    ensures SameStates(StatesOf(Enumerate(o, cfg.maxStates)), StatesOf(Enumerate(c, cfg.maxStates)))
  {
    hide Enumerate, KeyOf, SetCodes;
    var cap := cfg.maxStates;
    forall w ensures w in StatesOf(Enumerate(o, cap)) <==> w in StatesOf(Enumerate(c, cap)) {
      if w in StatesOf(Enumerate(o, cap)) { AlignedState(o, c, cfg, w); }
      if w in StatesOf(Enumerate(c, cap)) { AlignedState(c, o, cfg, w); }
    }
  }

  /** Overlapping sets in any order: when both clusters enumerate exactly Ω, they enumerate the same. */
  lemma {:induction false} SettledAlike(o: Cluster, c: Cluster, cfg: Config)
    requires KeyOf(o, cfg) == KeyOf(c, cfg) && Distinct(o.qids) && Distinct(c.qids) && Settled(o) && Settled(c)
    requires Enumerate(o, cfg.maxStates).Ok? && Enumerate(c, cfg.maxStates).Ok?
    ensures SameStates(StatesOf(Enumerate(o, cfg.maxStates)), StatesOf(Enumerate(c, cfg.maxStates)))
  {
    hide Enumerate, InOmega, Settled, KeyOf;
    SettledStates(o, cfg.maxStates);
    SettledStates(c, cfg.maxStates);
    forall w { SameWorlds(o, c, cfg, w); }
  }

  /** The exact condition behind a reordering, without hard edges: once the cached cluster's sets are compatible
      with the owners of their slots, one that shares its key enumerates the same worlds if and only if its sets are
      too. */
  lemma {:induction false} ReorderedIff(o: Cluster, c: Cluster, cfg: Config)
    requires KeyOf(o, cfg) == KeyOf(c, cfg) && Tidy(o) && Tidy(c) && Settled(o) && PlainSets(SetsOf(c))
    requires Enumerate(o, cfg.maxStates).Ok? && Enumerate(c, cfg.maxStates).Ok? &&
             EdgeConstraints(c.edges, QidSet(c)) == []
    ensures SameStates(StatesOf(Enumerate(o, cfg.maxStates)), StatesOf(Enumerate(c, cfg.maxStates))) <==> Settled(c)
  {
    hide Enumerate, InOmega, PlainSets, Compatible, KeyOf, SetsOf;
    SettledStates(o, cfg.maxStates);
    EnumerationExactIff(c, cfg.maxStates);
    forall w { SameWorlds(o, c, cfg, w); }
  }

  /** Same key, same kind of outcome, same states. */
  lemma {:induction false} SameEnumeration(o: Cluster, c: Cluster, cfg: Config)
    requires Twins(o, c, cfg)
    ensures SameOutcome(Enumerate(o, cfg.maxStates), Enumerate(c, cfg.maxStates))
  {
    hide Enumerate, InOmega;
    SameVerdict(o, c, cfg);
    if Enumerate(o, cfg.maxStates).Ok? {
      if Aligned(o, c) {
        AlignedStates(o, c, cfg);
      } else {
        SettledAlike(o, c, cfg);
      }
    }
  }

  // ---------- Repair ----------

  lemma {:induction false} SameIncomplete(s: seq<World>, s': seq<World>)
    requires SameStates(s, s')
    ensures IncompleteOf(s) == IncompleteOf(s')
  {
    forall q ensures (q in SawTrue(s) <==> q in SawTrue(s')) && (q in SawFalse(s) <==> q in SawFalse(s')) {
      SawMember(s, q);
      SawMember(s', q);
    }
  }

  lemma {:induction false} ContentReaches(k: Constraint, incomplete: set<int>, q: int)
    ensures Reaches(k, incomplete, q) <==> Reaches(Content(k), incomplete, q)
  {
  }

  lemma {:induction false} SuspectsWithin(cs: seq<Constraint>, cs': seq<Constraint>, incomplete: set<int>, q: int)
    requires AlikeLists(cs, cs') && q in Suspects(cs, incomplete)
    ensures q in Suspects(cs', incomplete)
  {
    hide AlikeLists, Reaches, Suspects, Content;
    SuspectMember(cs, incomplete, q);
    SuspectMember(cs', incomplete, q);
    if q !in incomplete {
      var k :| k in cs && Reaches(k, incomplete, q);
      var t := Twin(cs, cs', k);
      ContentReaches(k, incomplete, q);
      ContentReaches(t, incomplete, q);
    }
  }

  lemma {:induction false} SameSuspects(cs: seq<Constraint>, cs': seq<Constraint>, incomplete: set<int>)
    requires AlikeLists(cs, cs')
    ensures Suspects(cs, incomplete) == Suspects(cs', incomplete)
  {
    hide AlikeLists, Suspects;
    AlikeSymmetric(cs, cs');
    forall q ensures q in Suspects(cs, incomplete) <==> q in Suspects(cs', incomplete) {
      if q in Suspects(cs, incomplete) { SuspectsWithin(cs, cs', incomplete, q); }
      if q in Suspects(cs', incomplete) { SuspectsWithin(cs', cs, incomplete, q); }
    }
  }

  lemma {:induction false} SameMembers<A>(a: seq<A>, b: seq<A>, x: A)
    requires multiset(a) == multiset(b)
    ensures x in a <==> x in b
  {
    assert x in a <==> x in multiset(a);
    assert x in b <==> x in multiset(b);
  }

  /** A set of the other cluster with the same content. */
  lemma {:induction false} CodeTwin(a: seq<OutcomeSet>, b: seq<OutcomeSet>, s: OutcomeSet) returns (t: OutcomeSet)
    requires multiset(SetCodes(a)) == multiset(SetCodes(b)) && s in a
    ensures t in b && CodeOf(t) == CodeOf(s)
  {
    hide CodeOf;
    var i :| 0 <= i < |a| && a[i] == s;
    assert SetCodes(a)[i] in SetCodes(a);
    SameMembers(SetCodes(a), SetCodes(b), CodeOf(s));
    var j :| 0 <= j < |SetCodes(b)| && SetCodes(b)[j] == CodeOf(s);
    t := b[j];
  }

  /** `ids` and `ids'` name sets of the same content on both sides. */
  ghost predicate Corresponds(a: seq<OutcomeSet>, b: seq<OutcomeSet>, ids: set<int>, ids': set<int>) {
    forall s, t :: s in a && t in b && CodeOf(s) == CodeOf(t) ==> (s.setId in ids <==> t.setId in ids')
  }

  /** Does this set's constraint offend? Its id plays no part. */
  ghost predicate SetOffends(os: OutcomeSet, qs: set<int>, suspects: set<int>) {
    exists k :: k in SetConstraint(os, qs, {}) && Offends(k, suspects)
  }

  lemma {:induction false} SetConstraintId(os: OutcomeSet, qs: set<int>, k: Constraint)
    requires k in SetConstraint(os, qs, {})
    ensures !k.HardEdge? && k.setId == os.setId
  {
    hide Keep;
  }

  lemma {:induction false} OffendsByCode(s: OutcomeSet, t: OutcomeSet, qs: set<int>, suspects: set<int>)
    requires CodeOf(s) == CodeOf(t) && SetOffends(s, qs, suspects)
    ensures SetOffends(t, qs, suspects)
  {
    hide Keep;
    var k :| k in SetConstraint(s, qs, {}) && Offends(k, suspects);
    var k' := OneHot(t.setId, k.slots, k.exhaustive);
    assert SetConstraint(t, qs, {}) == [k'];
    assert k' in SetConstraint(t, qs, {});
  }

  lemma {:induction false} OffendingSets(c: Cluster, suspects: set<int>, id: int)
    ensures id in OffendingIds(Interpret(c, {}).constraints, suspects) <==>
            exists os :: os in c.sets && os.setId == id && SetOffends(os, QidSet(c), suspects)
  {
    hide SetConstraint, EdgeConstraints, SetConstraints, OffendingIds;
    var qs := QidSet(c);
    var cs := Interpret(c, {}).constraints;
    OffendingMember(cs, suspects, id);
    EdgesCoverNothing(c.edges, qs);
    if id in OffendingIds(cs, suspects) {
      var k :| k in cs && Offends(k, suspects) && k.setId == id;
      SetConstraintsMember(c.sets, qs, {}, k);
      var os :| os in c.sets && k in SetConstraint(os, qs, {});
      SetConstraintId(os, qs, k);
    }
    if os :| os in c.sets && os.setId == id && SetOffends(os, qs, suspects) {
      var k :| k in SetConstraint(os, qs, {}) && Offends(k, suspects);
      SetConstraintId(os, qs, k);
      SetConstraintsMember(c.sets, qs, {}, k);
    }
  }

  lemma {:induction false} OffendingExactly(c: Cluster, suspects: set<int>, os: OutcomeSet)
    requires DistinctIds(c.sets) && os in c.sets
    ensures os.setId in OffendingIds(Interpret(c, {}).constraints, suspects) <==> SetOffends(os, QidSet(c), suspects)
  {
    hide SetOffends, Interpret, OffendingIds;
    OffendingSets(c, suspects, os.setId);
    if os.setId in OffendingIds(Interpret(c, {}).constraints, suspects) {
      var s :| s in c.sets && s.setId == os.setId && SetOffends(s, QidSet(c), suspects);
      var i :| 0 <= i < |c.sets| && c.sets[i] == s;
      var j :| 0 <= j < |c.sets| && c.sets[j] == os;
      assert i == j;
    }
  }

  lemma {:induction false} SameOffenders(o: Cluster, c: Cluster, cfg: Config, suspects: set<int>)
    requires Twins(o, c, cfg)
    ensures var a, b := OffendingIds(Interpret(o, {}).constraints, suspects),
            OffendingIds(Interpret(c, {}).constraints, suspects);
            Corresponds(o.sets, c.sets, SetOf(a), SetOf(b)) && (a == [] <==> b == [])
  {
    hide Interpret, OffendingIds, SetOffends, CodeOf;
    var a, b := OffendingIds(Interpret(o, {}).constraints, suspects),
        OffendingIds(Interpret(c, {}).constraints, suspects);
    forall s, t | s in o.sets && t in c.sets && CodeOf(s) == CodeOf(t) ensures s.setId in a <==> t.setId in b {
      OffendingExactly(o, suspects, s);
      OffendingExactly(c, suspects, t);
      if s.setId in a { OffendsByCode(s, t, QidSet(c), suspects); }
      if t.setId in b { OffendsByCode(t, s, QidSet(c), suspects); }
    }
    if a != [] { SomeOffender(o, c, cfg, suspects); }
    if b != [] { SomeOffender(c, o, cfg, suspects); }
  }

  lemma {:induction false} SomeOffender(o: Cluster, c: Cluster, cfg: Config, suspects: set<int>)
    requires Twins(o, c, cfg) && OffendingIds(Interpret(o, {}).constraints, suspects) != []
    ensures OffendingIds(Interpret(c, {}).constraints, suspects) != []
  {
    hide Interpret, OffendingIds, SetOffends, CodeOf, Tidy;
    var id := OffendingIds(Interpret(o, {}).constraints, suspects)[0];
    OffendingSets(o, suspects, id);
    var s :| s in o.sets && s.setId == id && SetOffends(s, QidSet(o), suspects);
    var t := CodeTwin(o.sets, c.sets, s);
    OffendsByCode(s, t, QidSet(c), suspects);
    OffendingSets(c, suspects, t.setId);
  }

  lemma {:induction false} SameCheck(o: Cluster, c: Cluster, cfg: Config, s: seq<World>, s': seq<World>)
    requires Twins(o, c, cfg) && SameStates(s, s')
    ensures Check(Interpret(o, {}), s).complete == Check(Interpret(c, {}), s').complete
    ensures var a, b := Check(Interpret(o, {}), s).offending, Check(Interpret(c, {}), s').offending;
            Corresponds(o.sets, c.sets, SetOf(a), SetOf(b)) && (a == [] <==> b == [])
  {
    hide Interpret, Suspects, OffendingIds, IncompleteOf, AlikeLists, CodeOf;
    SameIncomplete(s, s');
    SameKeyAlike(o, c, cfg);
    SameSuspects(Interpret(o, {}).constraints, Interpret(c, {}).constraints, IncompleteOf(s));
    SameOffenders(o, c, cfg, Suspects(Interpret(c, {}).constraints, IncompleteOf(s)));
  }

  function DemoteCode(marked: set<SetCode>): SetCode -> seq<SetCode> {
    (code: SetCode) => [if code in marked && code.setType.Categorical? && code.exhaustive
                        then code.(exhaustive := false) else code]
  }

  /** `marked` tells by content which sets `ids` names. */
  ghost predicate Marks(sets: seq<OutcomeSet>, ids: set<int>, marked: set<SetCode>) {
    forall os :: os in sets ==> (os.setId in ids <==> CodeOf(os) in marked)
  }

  lemma {:induction false} DemotedCode(os: OutcomeSet, ids: set<int>, marked: set<SetCode>)
    requires os.setId in ids <==> CodeOf(os) in marked
    ensures DemoteCode(marked)(CodeOf(os)) == [CodeOf(DemoteSet(os, ids))]
  {
  }

  lemma {:induction false} SetCodesSnoc(sets: seq<OutcomeSet>, os: OutcomeSet)
    ensures SetCodes(sets + [os]) == SetCodes(sets) + [CodeOf(os)]
    ensures SetCodes(sets + [os])[..|sets|] == SetCodes(sets)
  {
  }

  lemma {:induction false} DemotedCodes(sets: seq<OutcomeSet>, ids: set<int>, marked: set<SetCode>)
    requires Marks(sets, ids, marked)
    ensures multiset(SetCodes(DemoteSets(sets, ids))) == Spread(DemoteCode(marked), SetCodes(sets))
  {
    hide CodeOf, DemoteCode, DemoteSet, SetCodes;
    if sets != [] {
      var m := |sets| - 1;
      assert sets == sets[..m] + [sets[m]] && sets[m] in sets;
      DemotedCodes(sets[..m], ids, marked);
      DemotedCode(sets[m], ids, marked);
      SetCodesSnoc(sets[..m], sets[m]);
      SetCodesSnoc(DemoteSets(sets[..m], ids), DemoteSet(sets[m], ids));
      assert SetCodes(sets) != [] && SetCodes(sets)[|SetCodes(sets)| - 1] == CodeOf(sets[m]);
    } else {
      assert SetCodes(sets) == [] by { NoCodes(sets); }
      NoCodes(DemoteSets(sets, ids));
    }
  }

  lemma {:induction false} NoCodes(sets: seq<OutcomeSet>)
    ensures |SetCodes(sets)| == |sets|
  {
  }

  /** Corresponding ids are told apart by content, the same way on both sides. */
  lemma {:induction false} MarkedBy(a: seq<OutcomeSet>, b: seq<OutcomeSet>, ids: set<int>, ids': set<int>)
    returns (marked: set<SetCode>)
    requires multiset(SetCodes(a)) == multiset(SetCodes(b)) && Corresponds(a, b, ids, ids')
    ensures Marks(a, ids, marked) && Marks(b, ids', marked)
  {
    hide CodeOf;
    marked := set s | s in a && s.setId in ids :: CodeOf(s);
    forall s | s in a ensures s.setId in ids <==> CodeOf(s) in marked {
      if CodeOf(s) in marked {
        var s' :| s' in a && s'.setId in ids && CodeOf(s') == CodeOf(s);
        var t := CodeTwin(a, b, s);
        assert s'.setId in ids <==> t.setId in ids';
      }
    }
    forall t | t in b ensures t.setId in ids' <==> CodeOf(t) in marked {
      var s := CodeTwin(b, a, t);
    }
  }

  lemma {:induction false} DemotedTidy(c: Cluster, ids: set<int>)
    requires Tidy(c)
    ensures Tidy(c.(sets := DemoteSets(c.sets, ids)))
  {
    hide DemoteSets;
    var d := DemoteSets(c.sets, ids);
    forall i | 0 <= i < |d| ensures d[i].setId == c.sets[i].setId { DemoteMember(c.sets, ids, i); }
  }

  lemma {:induction false} DemotedCodeAlike(s: OutcomeSet, t: OutcomeSet, ids: set<int>, ids': set<int>)
    requires CodeOf(s) == CodeOf(t) && (s.setId in ids <==> t.setId in ids')
    ensures CodeOf(DemoteSet(s, ids)) == CodeOf(DemoteSet(t, ids'))
  {
  }

  lemma {:induction false} DemotedAligned(o: Cluster, c: Cluster, ids: set<int>, ids': set<int>)
    requires Aligned(o, c) && Corresponds(o.sets, c.sets, ids, ids')
    ensures Aligned(o.(sets := DemoteSets(o.sets, ids)), c.(sets := DemoteSets(c.sets, ids')))
  {
    hide CodeOf, DemoteSets, DemoteSet;
    assert |SetCodes(o.sets)| == |o.sets| && |SetCodes(c.sets)| == |c.sets|;
    var a, b := DemoteSets(o.sets, ids), DemoteSets(c.sets, ids');
    forall i | 0 <= i < |o.sets| ensures CodeOf(a[i]) == CodeOf(b[i]) {
      DemoteMember(o.sets, ids, i);
      DemoteMember(c.sets, ids', i);
      assert SetCodes(o.sets)[i] == SetCodes(c.sets)[i];
      assert o.sets[i] in o.sets && c.sets[i] in c.sets;
      DemotedCodeAlike(o.sets[i], c.sets[i], ids, ids');
    }
  }

  /** Demoting corresponding ids leaves twins, as long as it leaves compatible sets compatible. */
  lemma {:induction false} DemotedTwins(o: Cluster, c: Cluster, cfg: Config, ids: set<int>, ids': set<int>)
    requires Twins(o, c, cfg) && Corresponds(o.sets, c.sets, ids, ids')
    requires (Settled(o) ==> Settled(o.(sets := DemoteSets(o.sets, ids)))) &&
             (Settled(c) ==> Settled(c.(sets := DemoteSets(c.sets, ids'))))
    ensures Twins(o.(sets := DemoteSets(o.sets, ids)), c.(sets := DemoteSets(c.sets, ids')), cfg)
  {
    hide Tidy, Settled, Aligned, DemoteSets, SetCodes, EdgeCodes, Corresponds, Marks;
    if Aligned(o, c) { DemotedAligned(o, c, ids, ids'); }
    var marked := MarkedBy(o.sets, c.sets, ids, ids');
    DemotedTidy(o, ids);
    DemotedTidy(c, ids');
    DemotedCodes(o.sets, ids, marked);
    DemotedCodes(c.sets, ids', marked);
    SpreadPermutes(DemoteCode(marked), SetCodes(o.sets), SetCodes(c.sets));
  }

  ghost predicate SameRepair(o: Cluster, c: Cluster, r: Repair, r': Repair) {
    && r.Complete? == r'.Complete? && r.Hopeless? == r'.Hopeless?
    && (r.Repaired? && r'.Repaired? ==>
        Corresponds(o.sets, c.sets, SetOf(r.demoted), SetOf(r'.demoted)) && SameOutcome(r.outcome, r'.outcome))
  }

  lemma {:induction false} EmptySet(s: seq<int>)
    ensures s == [] <==> SetOf(s) == {}
  {
    if s != [] { assert s[0] in SetOf(s); }
  }

  lemma {:induction false} EmptyStates(s: seq<World>, s': seq<World>)
    requires SameStates(s, s')
    ensures s == [] <==> s' == []
  {
    if s != [] { assert s[0] in s; }
    if s' != [] { assert s'[0] in s'; }
  }

  lemma {:induction false} SettledRepairs(o: Cluster, c: Cluster, cfg: Config, s: seq<World>, s': seq<World>)
    requires Twins(o, c, cfg)
    ensures Settled(o) ==> Settled(o.(sets := DemoteSets(o.sets, SetOf(Check(Interpret(o, {}), s).offending))))
    ensures Settled(c) ==> Settled(c.(sets := DemoteSets(c.sets, SetOf(Check(Interpret(c, {}), s').offending))))
  {
    hide Settled, Interpret, Check, DemoteSets, KeyOf;
    if Settled(o) { RepairSettled(o, s); }
    if Settled(c) { RepairSettled(c, s'); }
  }

  lemma {:induction false} RepairAlike(o: Cluster, c: Cluster, cfg: Config, s: seq<World>, s': seq<World>)
    requires Twins(o, c, cfg) && SameStates(s, s')
    ensures SameRepair(o, c, RepairOf(o, s, cfg.maxStates), RepairOf(c, s', cfg.maxStates))
  {
    hide Interpret, Check, Enumerate, Twins, SameStates, DemoteSets, Corresponds, Settled;
    var a, b := Check(Interpret(o, {}), s), Check(Interpret(c, {}), s');
    SameCheck(o, c, cfg, s, s');
    var so, sc := o.(sets := DemoteSets(o.sets, SetOf(a.offending))),
        c.(sets := DemoteSets(c.sets, SetOf(b.offending)));
    SettledRepairs(o, c, cfg, s, s');
    DemotedTwins(o, c, cfg, SetOf(a.offending), SetOf(b.offending));
    SameEnumeration(so, sc, cfg);
    EmptyStates(StatesOf(Enumerate(so, cfg.maxStates)), StatesOf(Enumerate(sc, cfg.maxStates)));
    SameCheck(so, sc, cfg, StatesOf(Enumerate(so, cfg.maxStates)), StatesOf(Enumerate(sc, cfg.maxStates)));
  }

  // ---------- Pins, flags and the whole decision ----------

  lemma {:induction false} SamePinned(qids: seq<int>, qids': seq<int>, s: seq<World>, s': seq<World>)
    requires SetOf(qids) == SetOf(qids') && SameStates(s, s')
    ensures SetOf(PinnedOf(qids, s)) == SetOf(PinnedOf(qids', s'))
  {
    hide PinnedOf;
    EmptyStates(s, s');
    forall q ensures q in PinnedOf(qids, s) <==> q in PinnedOf(qids', s') {
      PinnedMember(qids, s, q);
      PinnedMember(qids', s', q);
      assert q in SetOf(qids) <==> q in SetOf(qids');
      if q in qids && s != [] {
        UnpinnedShowsBoth(qids, s, q);
        UnpinnedShowsBoth(qids', s', q);
      }
    }
  }

  /** Two decisions with the same worlds, the same pins and the same flags. */
  ghost predicate Agrees(r: Routing.Routed, r': Routing.Routed) {
    && SameOutcome(r.outcome, r'.outcome) && SameStates(r.states, r'.states)
    && SetOf(r.pinned) == SetOf(r'.pinned) && r.degenerate == r'.degenerate && r.relaxed == r'.relaxed
  }

  /** ... that also demote sets of the same content. */
  ghost predicate DemoteAlike(o: Cluster, c: Cluster, r: Routing.Routed, r': Routing.Routed) {
    Corresponds(o.sets, c.sets, SetOf(r.demoted), SetOf(r'.demoted))
  }

  /** The external check answers whether the facets admit a point. */
  ghost predicate Decides(feasible: Feasibility) {
    forall facets, order :: feasible(facets, order) <==> exists z :: InPolytope(facets, order, z)
  }

  lemma {:induction false} SameFeasible(o: Cluster, c: Cluster, cfg: Config, feasible: Feasibility)
    requires KeyOf(o, cfg) == KeyOf(c, cfg) && Decides(feasible)
    ensures feasible(Facets(Interpret(o, {}).constraints), o.qids) ==
              feasible(Facets(Interpret(c, {}).constraints), c.qids)
  {
    hide Interpret, Facets, InPolytope, AlikeLists;
    SameKeyAlike(o, c, cfg);
    AlikeSymmetric(Interpret(o, {}).constraints, Interpret(c, {}).constraints);
    if z :| InPolytope(Facets(Interpret(o, {}).constraints), o.qids, z) {
      AlikeInside(Interpret(o, {}).constraints, Interpret(c, {}).constraints, o.qids, c.qids, z);
    }
    if z :| InPolytope(Facets(Interpret(c, {}).constraints), c.qids, z) {
      AlikeInside(Interpret(c, {}).constraints, Interpret(o, {}).constraints, c.qids, o.qids, z);
    }
  }

  lemma {:induction false} SameFit(o: Cluster, c: Cluster, cfg: Config)
    requires KeyOf(o, cfg) == KeyOf(c, cfg) && Distinct(o.qids) && Distinct(c.qids)
    ensures FitsFacets(o, cfg) == FitsFacets(c, cfg)
  {
    hide Interpret, Facets, AlikeLists;
    SameKeyAlike(o, c, cfg);
    AlikeFacetCount(Interpret(o, {}).constraints, Interpret(c, {}).constraints);
    DistinctCard(o.qids);
    DistinctCard(c.qids);
  }

  lemma {:induction false} TwinFacts(o: Cluster, c: Cluster, cfg: Config)
    requires Twins(o, c, cfg)
    ensures KeyOf(o, cfg) == KeyOf(c, cfg) && Distinct(o.qids) && Distinct(c.qids) && SetOf(o.qids) == SetOf(c.qids)
  {
  }

  lemma {:induction false} EnumeratedAlike(o: Cluster, c: Cluster, cfg: Config, a: Outcome, b: Outcome)
    requires Twins(o, c, cfg) && SameOutcome(a, b)
    ensures var r, r' := RouteEnumerated(o, a, RepairOf(o, StatesOf(a), cfg.maxStates)),
            RouteEnumerated(c, b, RepairOf(c, StatesOf(b), cfg.maxStates));
            Agrees(r, r') && DemoteAlike(o, c, r, r')
  {
    hide RepairOf, Twins, PinnedOf, SameStates, StatesOf, CodeOf;
    assert SetOf([]) == {};
    var r, r' := RepairOf(o, StatesOf(a), cfg.maxStates), RepairOf(c, StatesOf(b), cfg.maxStates);
    RepairAlike(o, c, cfg, StatesOf(a), StatesOf(b));
    TwinFacts(o, c, cfg);
    var x, y := if r.Repaired? then r.outcome else a, if r'.Repaired? then r'.outcome else b;
    SamePinned(o.qids, c.qids, StatesOf(x), StatesOf(y));
    EmptySet(PinnedOf(o.qids, StatesOf(x)));
    EmptySet(PinnedOf(c.qids, StatesOf(y)));
  }

  /** Clusters that share a key are decided alike, whatever ids their sets carry. */
  lemma {:induction false} DecidedAlike(o: Cluster, c: Cluster, cfg: Config, feasible: Feasibility, present: bool)
    requires Twins(o, c, cfg) && Decides(feasible)
    ensures Agrees(Route(o, cfg, feasible, present), Route(c, cfg, feasible, present))
    ensures DemoteAlike(o, c, Route(o, cfg, feasible, present), Route(c, cfg, feasible, present))
  {
    hide CodeOf, Enumerate, RouteEnumerated, RepairOf, Twins, SameStates, Decides, FitsFacets, Interpret, Facets;
    SameEnumeration(o, c, cfg);
    var a, b := Enumerate(o, cfg.maxStates), Enumerate(c, cfg.maxStates);
    EmptyStates(StatesOf(a), StatesOf(b));
    EnumeratedAlike(o, c, cfg, a, b);
    TwinFacts(o, c, cfg);
    SameFeasible(o, c, cfg, feasible);
    SameFit(o, c, cfg);
    NothingAlike();
    assert SetOf([]) == {};
  }

  lemma {:induction false} NothingAlike()
    ensures SameStates([], [])
  {
  }

  // ---------- Replaying a hit ----------

  lemma {:induction false} DemoteNone(sets: seq<OutcomeSet>)
    ensures DemoteSets(sets, {}) == sets
  {
    if sets != [] { DemoteNone(sets[..|sets| - 1]); }
  }

  lemma {:induction false} RoutedSets(c: Cluster, cfg: Config, feasible: Feasibility, present: bool)
    ensures var r := Route(c, cfg, feasible, present);
            && r.sets == DemoteSets(c.sets, SetOf(r.demoted)) && r.states == StatesOf(r.outcome)
            && (r.relaxed && !present ==> !r.degenerate)
  {
    hide Check, Enumerate, Interpret, DemoteSets;
    DemoteNone(c.sets);
    assert SetOf([]) == {};
  }

  /** A hit has the worlds, pins and flags of a fresh decision. */
  lemma {:induction false} ReplayAgrees(o: Cluster, c: Cluster, cfg: Config, feasible: Feasibility, present: bool)
    requires Twins(o, c, cfg) && Decides(feasible)
    ensures Agrees(Replay(Cached(Route(o, cfg, feasible, present)), c), Route(c, cfg, feasible, present))
  {
    hide Route, DemoteSets;
    DecidedAlike(o, c, cfg, feasible, present);
    RoutedSets(o, cfg, feasible, present);
  }

  /** Demoted ids still name sets of the content they named when the decision was cached. */
  ghost predicate IdsStable(o: Cluster, c: Cluster, ids: set<int>) {
    forall s, t :: s in o.sets && t in c.sets && CodeOf(s) == CodeOf(t) && t.setType.Categorical? && t.exhaustive ==>
                   (s.setId in ids <==> t.setId in ids)
  }

  lemma {:induction false} DemotesSame(sets: seq<OutcomeSet>, ids: set<int>, ids': set<int>)
    ensures DemoteSets(sets, ids) == DemoteSets(sets, ids') <==>
            forall t :: t in sets && t.setType.Categorical? && t.exhaustive ==> (t.setId in ids <==> t.setId in ids')
  {
    hide DemoteSets;
    var a, b := DemoteSets(sets, ids), DemoteSets(sets, ids');
    forall i | 0 <= i < |sets| ensures a[i] == DemoteSet(sets[i], ids) && b[i] == DemoteSet(sets[i], ids') {
      DemoteMember(sets, ids, i);
      DemoteMember(sets, ids', i);
    }
    if a == b {
      forall t | t in sets && t.setType.Categorical? && t.exhaustive ensures t.setId in ids <==> t.setId in ids' {
        var i :| 0 <= i < |sets| && sets[i] == t;
        assert a[i] == b[i];
      }
    }
  }

  /** The sets a hit leaves on the fresh cluster are those of a fresh decision exactly when the cached ids
      still name sets of the same content. The key leaves ids out, so nothing checks that. */
  lemma {:induction false} ReplaySetsIff(o: Cluster, c: Cluster, cfg: Config, feasible: Feasibility, present: bool)
    requires Twins(o, c, cfg) && Decides(feasible)
    ensures Replay(Cached(Route(o, cfg, feasible, present)), c).sets == Route(c, cfg, feasible, present).sets <==>
            IdsStable(o, c, SetOf(Route(o, cfg, feasible, present).demoted))
  {
    hide Route, DemoteSets, Tidy, CodeOf, Agrees, Decides;
    var r, f := Route(o, cfg, feasible, present), Route(c, cfg, feasible, present);
    DecidedAlike(o, c, cfg, feasible, present);
    RoutedSets(c, cfg, feasible, present);
    EmptySet(r.demoted);
    DemoteNone(c.sets);
    DemotesSame(c.sets, SetOf(r.demoted), SetOf(f.demoted));
    forall t | t in c.sets ensures exists s :: s in o.sets && CodeOf(s) == CodeOf(t) {
      var s := CodeTwin(c.sets, o.sets, t);
    }
  }
}
