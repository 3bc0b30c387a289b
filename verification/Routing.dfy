/** What load time decides about a cluster (services/arb-solver/src/solve-core.ts, lines 146-279): enumerate,
    repair missing polarities by demoting Σ = 1 sets, pin check, and the facet-only route. */
module Routing {
  import opened Graph
  import opened Omega
  import opened Lp
  import opened FacetLp
  import opened StateEnumerator
  import opened EnumerationExact
  import opened Completeness

  const FACET_CAP: nat := 20000

  datatype Config = Config(maxStates: nat, clusterSizeCap: nat, facetClusterQuestionCap: nat, relaxedRoute: bool,
                           minEdgeConfidence: real)

  /** The external feasibility check over a facet system; any verdict but Optimal reads as false. */
  type Feasibility = (seq<Facet>, seq<int>) -> bool

  datatype Routed = Routed(outcome: Outcome, sets: seq<OutcomeSet>, states: seq<World>, pinned: seq<int>,
                           degenerate: bool, relaxed: bool, demoted: seq<int>)

  datatype Repair = Complete | Hopeless | Repaired(outcome: Outcome, sets: seq<OutcomeSet>, demoted: seq<int>)

  function DemoteSet(os: OutcomeSet, ids: set<int>): OutcomeSet {
    if os.setId in ids && os.setType.Categorical? && os.exhaustive then os.(exhaustive := false) else os
  }

  function DemoteSets(sets: seq<OutcomeSet>, ids: set<int>): (r: seq<OutcomeSet>)
    ensures |r| == |sets|
  {
    if sets == [] then [] else DemoteSets(sets[..|sets| - 1], ids) + [DemoteSet(sets[|sets| - 1], ids)]
  }

  function RepairOf(c: Cluster, states: seq<World>, cap: nat): Repair {
    var check := Check(Interpret(c, {}), states);
    if check.complete then Complete
    else if check.offending == [] then Hopeless
    else
      var shadow := c.(sets := DemoteSets(c.sets, SetOf(check.offending)));
      var outcome := Enumerate(shadow, cap);
      var recheck := Check(Interpret(shadow, {}), StatesOf(outcome));
      if StatesOf(outcome) == [] || !recheck.complete then Hopeless
      else Repaired(outcome, shadow.sets, check.offending)
  }

  function RouteEnumerated(c: Cluster, outcome: Outcome, repair: Repair): Routed {
    var final := if repair.Repaired? then repair.outcome else outcome;
    var pinned := PinnedOf(c.qids, StatesOf(final));
    Routed(final, if repair.Repaired? then repair.sets else c.sets, StatesOf(final), pinned,
           repair.Hopeless? || pinned != [], false, if repair.Repaired? then repair.demoted else [])
  }

  function Unrouted(c: Cluster, outcome: Outcome): Routed {
    Routed(outcome, c.sets, [], [], false, false, [])
  }

  /** Small enough for a facet-only solve. */
  predicate FitsFacets(c: Cluster, cfg: Config) {
    |c.qids| <= cfg.facetClusterQuestionCap && |Facets(Interpret(c, {}).constraints)| <= FACET_CAP
  }

  /** `present`: whether the feasibility oracle is loaded yet. */
  function Route(c: Cluster, cfg: Config, feasible: Feasibility, present: bool): Routed {
    var outcome := Enumerate(c, cfg.maxStates);
    if StatesOf(outcome) != [] then
      RouteEnumerated(c, outcome, RepairOf(c, StatesOf(outcome), cfg.maxStates))
    else if outcome.Dropped? && cfg.relaxedRoute && FitsFacets(c, cfg) then
      Unrouted(c, outcome).(relaxed := true, degenerate := present &&
                                                           !feasible(Facets(Interpret(c, {}).constraints), c.qids))
    else Unrouted(c, outcome)
  }

  // ---------- Demotion only enlarges what is enumerated ----------

  /** cs' is cs with some Σ = 1 constraints loosened to Σ <= 1. */
  ghost predicate Loosens(cs: seq<Constraint>, cs': seq<Constraint>) {
    |cs| == |cs'| && forall i :: 0 <= i < |cs| ==> LoosensOne(cs[i], cs'[i])
  }

  ghost predicate LoosensOne(c: Constraint, c': Constraint) {
    c == c' || (c.OneHot? && c.exhaustive && c' == c.(exhaustive := false))
  }

  lemma {:induction false} DemoteLoosens(sets: seq<OutcomeSet>, ids: set<int>, qs: set<int>, unquoted: set<int>)
    ensures Loosens(SetConstraints(sets, qs, unquoted), SetConstraints(DemoteSets(sets, ids), qs, unquoted))
  {
    if sets != [] {
      var m := |sets| - 1;
      DemoteLoosens(sets[..m], ids, qs, unquoted);
      var d := DemoteSets(sets, ids);
      assert d[..m] == DemoteSets(sets[..m], ids) && d[m] == DemoteSet(sets[m], ids);
      var k, k' := SetConstraint(sets[m], qs, unquoted), SetConstraint(d[m], qs, unquoted);
      assert |k| == |k'| && forall i :: 0 <= i < |k| ==> LoosensOne(k[i], k'[i]);
    }
  }

  lemma {:induction false} LoosensAppend(a: seq<Constraint>, a': seq<Constraint>, es: seq<Constraint>)
    requires Loosens(a, a')
    ensures Loosens(a + es, a' + es)
  {
  }

  lemma {:induction false} LoosensCovered(cs: seq<Constraint>, cs': seq<Constraint>)
    requires Loosens(cs, cs')
    ensures Covered(cs) == Covered(cs')
  {
    forall q ensures q in Covered(cs) <==> q in Covered(cs') {
      if q in Covered(cs) {
        var k :| k in cs && q in SlotsOf(k);
        var i :| 0 <= i < |cs| && cs[i] == k;
        assert cs'[i] in cs' && q in SlotsOf(cs'[i]);
      }
      if q in Covered(cs') {
        var k :| k in cs' && q in SlotsOf(k);
        var i :| 0 <= i < |cs'| && cs'[i] == k;
        assert cs[i] in cs && LoosensOne(cs[i], cs'[i]) && q in SlotsOf(cs[i]);
      }
    }
  }

  lemma {:induction false} LoosensEdges(cs: seq<Constraint>, cs': seq<Constraint>, w: World)
    requires Loosens(cs, cs')
    ensures SatisfiesEdges(w, cs) <==> SatisfiesEdges(w, cs')
  {
    forall i | 0 <= i < |cs| ensures SatisfiesEdge(w, cs[i]) <==> SatisfiesEdge(w, cs'[i]) {
      assert LoosensOne(cs[i], cs'[i]);
    }
    if SatisfiesEdges(w, cs) {
      forall e | e in cs' ensures SatisfiesEdge(w, e) {
        var i :| 0 <= i < |cs'| && cs'[i] == e;
        assert cs[i] in cs;
      }
    }
    if SatisfiesEdges(w, cs') {
      forall e | e in cs ensures SatisfiesEdge(w, e) {
        var i :| 0 <= i < |cs| && cs[i] == e;
        assert cs'[i] in cs';
      }
    }
  }

  /** Table by table, the loosened product contains the original one. */
  ghost predicate Included(g: seq<seq<World>>, g': seq<seq<World>>) {
    |g| == |g'| && forall i :: 0 <= i < |g| ==> TableIn(g[i], g'[i])
  }

  ghost predicate TableIn(t: seq<World>, t': seq<World>) {
    forall w :: w in t ==> w in t'
  }

  lemma {:induction false} LoosensGroups(cs: seq<Constraint>, cs': seq<Constraint>)
    requires Loosens(cs, cs')
    ensures Included(Groups(cs), Groups(cs'))
  {
    hide CategoricalTable, ThresholdTable;
    if cs != [] {
      var m := |cs| - 1;
      LoosensGroups(cs[..m], cs'[..m]);
      assert LoosensOne(cs[m], cs'[m]);
      LooserTable(cs[m], cs'[m]);
    }
  }

  lemma {:induction false} LooserTable(c: Constraint, c': Constraint)
    requires LoosensOne(c, c')
    ensures Included(GroupOf(c), GroupOf(c'))
  {
    if c != c' {
      var t, t' := CategoricalTable(c.slots, true), CategoricalTable(c.slots, false);
      forall w | w in t ensures w in t' {
        var i :| 0 <= i < |t| && t[i] == w;
        assert t'[i] == w;
      }
    }
  }

  lemma {:induction false} ProductIncluded(g: seq<seq<World>>, g': seq<seq<World>>, k: nat, w: World)
    requires Included(g, g') && k <= |g| && w in Product(g, k)
    ensures w in Product(g', k)
  {
    if k > 0 {
      assert TableIn(g[k - 1], g'[k - 1]);
      var before := Product(g, k - 1);
      var e, p := ExtendSplit(before, g[k - 1], |before|, w);
      ProductIncluded(g, g', k - 1, e);
      var before' := Product(g', k - 1);
      assert before'[..|before'|] == before';
      ExtendHas(before', g'[k - 1], |before'|, e, p);
    }
  }

  /** Lowering exhaustivity claims keeps every enumerated state, overlapping sets included. */
  lemma {:induction false} DemotionKeepsStates(c: Cluster, ids: set<int>, cap: nat, w: World)
    requires Enumerate(c, cap).Ok? && Enumerate(c.(sets := DemoteSets(c.sets, ids)), cap).Ok?
    requires w in StatesOf(Enumerate(c, cap))
    ensures w in StatesOf(Enumerate(c.(sets := DemoteSets(c.sets, ids)), cap))
  {
    var d := c.(sets := DemoteSets(c.sets, ids));
    var qs := QidSet(c);
    var ss, ss', es := SetConstraints(c.sets, qs, {}), SetConstraints(d.sets, qs, {}), EdgeConstraints(c.edges, qs);
    DemoteLoosens(c.sets, ids, qs, {});
    LoosensCovered(ss, ss');
    LoosensAppend(ss, ss', es);
    LoosensGroups(ss + es, ss' + es);
    LoosensEdges(ss + es, ss' + es, w);
    var all, all' := AllGroups(Interpret(c, {}), cap), AllGroups(Interpret(d, {}), cap);
    IncludedAppend(Groups(ss + es), Groups(ss' + es), all[|Groups(ss + es)|..]);
    SomeGroup(c, {}, cap);
    SomeGroup(d, {}, cap);
    FilterMember(Product(all, |all|), ss + es, w);
    FilterMember(Product(all', |all'|), ss' + es, w);
    assert Included(all, all');
    ProductIncluded(all, all', |all|, w);
  }

  lemma {:induction false} IncludedAppend(g: seq<seq<World>>, g': seq<seq<World>>, more: seq<seq<World>>)
    requires Included(g, g')
    ensures Included(g + more, g' + more)
  {
  }

  // ---------- Completeness repair ----------

  lemma {:induction false} DemoteMember(sets: seq<OutcomeSet>, ids: set<int>, i: nat)
    requires i < |sets|
    ensures DemoteSets(sets, ids)[i] == DemoteSet(sets[i], ids)
  {
    if i < |sets| - 1 { DemoteMember(sets[..|sets| - 1], ids, i); }
  }

  /** The repair theorem. A cluster that is routed non-degenerate with states shows every question both
      ways, its states are the enumeration of its possibly demoted sets, they contain every state it had
      before the repair and every world of its Ω, and its sets differ only by lowered exhaustivity flags
      on the reported ids. */
  lemma {:induction false} RepairTheorem(c: Cluster, cfg: Config, feasible: Feasibility, present: bool)
    requires var r := Route(c, cfg, feasible, present); !r.degenerate && r.states != []
    ensures var r := Route(c, cfg, feasible, present);
            && (forall q :: q in c.qids ==> BothValues(r.states, q))
            && r.outcome == Enumerate(c.(sets := r.sets), cfg.maxStates) && r.states == StatesOf(r.outcome)
            && (forall w :: w in StatesOf(Enumerate(c, cfg.maxStates)) ==> w in r.states)
            && (forall w :: InOmega(c, {}, w) ==> w in r.states)
            && (r.sets == c.sets || r.sets == DemoteSets(c.sets, SetOf(r.demoted)))
  {
    var r := Route(c, cfg, feasible, present);
    var outcome := Enumerate(c, cfg.maxStates);
    var repair := RepairOf(c, StatesOf(outcome), cfg.maxStates);
    forall q | q in c.qids ensures BothValues(r.states, q) {
      UnpinnedShowsBoth(c.qids, r.states, q);
    }
    forall w | w in StatesOf(outcome) ensures w in r.states {
      if repair.Repaired? {
        DemotionKeepsStates(c, SetOf(repair.demoted), cfg.maxStates, w);
      }
    }
    forall w | InOmega(c, {}, w) ensures w in r.states {
      EnumerationCoversOmega(c, cfg.maxStates, w);
    }
  }
}
