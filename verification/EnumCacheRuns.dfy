/** The enumeration cache over a whole run of graph loads: every cluster of every load has the worlds, pins and
    flags a full finalize would give it, and the same sets as long as a set keeps its id. */
module EnumCacheRuns {
  import opened Wrappers
  import opened Graph
  import opened Omega
  import opened Lp
  import opened FacetLp
  import opened StateEnumerator
  import opened Completeness
  import opened Routing
  import opened Liveness
  import opened EnumCache
  import opened Alike
  import opened SameOrder
  import opened SettledSets
  import opened EnumCacheSound

  /** One reload: the clusters built from the graph, the configuration, and whether the oracle is loaded. */
  datatype Load = Load(clusters: seq<Cluster>, cfg: Config, present: bool)

  function EntriesAfter(loads: seq<Load>, k: nat, feasible: Feasibility): Entries
    requires k <= |loads|
    decreases k, 0
  {
    if k == 0 then map[] else
      var b := BuildOf(loads, k - 1, feasible);
      Swept(b.entries, b.seen)
  }

  function BuildOf(loads: seq<Load>, k: nat, feasible: Feasibility): (b: Build)
    requires k < |loads|
    ensures |b.routed| == |loads[k].clusters|
    decreases k, 1
  {
    BuildFirst(EntriesAfter(loads, k, feasible), loads[k].clusters, |loads[k].clusters|, loads[k].cfg, feasible,
               loads[k].present)
  }

  /** How a run names its sets: with `stable`, the sets of content `code` in a cluster always carry the ids
      `idOf(code, 0)`, `idOf(code, 1)` and so on; with `listed`, sets are listed by id as well, as the loader's
      query does (services/arb-solver/src/graph/loader.ts, line 196). */
  datatype Naming = Naming(stable: bool, listed: bool, idOf: (SetCode, nat) -> int)

  /** With stable ids and sets listed by id sets may overlap in any way; otherwise they agree with the owners of their
      slots. */
  ghost predicate Proper(c: Cluster, n: Naming) {
    && Tidy(c) && (n.stable ==> NamedBy(c.sets, n.idOf))
    && (if n.stable && n.listed then ListedById(c.sets) else Settled(c))
  }

  lemma {:induction false} ProperTwins(o: Cluster, c: Cluster, cfg: Config, n: Naming)
    requires KeyOf(o, cfg) == KeyOf(c, cfg) && Proper(o, n) && Proper(c, n)
    ensures Twins(o, c, cfg)
  {
    hide SetCodes, EdgeCodes, Tidy, Settled, ListedById, NamedBy;
    if n.stable && n.listed { ListedAlike(o.sets, c.sets, n.idOf); }
  }

  /** Stable ids name the same content on both sides, whenever they tell sets of one content apart on neither. */
  lemma {:induction false} StableIds(o: Cluster, c: Cluster, n: Naming, ids: set<int>)
    requires Proper(o, n) && Proper(c, n) && n.stable && multiset(SetCodes(o.sets)) == multiset(SetCodes(c.sets))
    requires Corresponds(o.sets, o.sets, ids, ids)
    ensures IdsStable(o, c, ids)
  {
    hide CodeOf, SetCodes, NamedBy;
    forall s, t | s in o.sets && t in c.sets && CodeOf(s) == CodeOf(t) ensures s.setId in ids <==> t.setId in ids {
      var j :| 0 <= j < |c.sets| && c.sets[j] == t;
      var i := NamedTwin(o.sets, c.sets, n.idOf, j);
      assert o.sets[i] in o.sets;
    }
  }

  /** What a decision demotes it tells by content. */
  lemma {:induction false} DemotesByContent(o: Cluster, cfg: Config, feasible: Feasibility, n: Naming)
    requires Proper(o, n) && Decides(feasible)
    ensures var ids := SetOf(Route(o, cfg, feasible, true).demoted); Corresponds(o.sets, o.sets, ids, ids)
  {
    hide Route, SetCodes, EdgeCodes, Tidy, Settled, Decides, Agrees;
    assert Aligned(o, o);
    DecidedAlike(o, o, cfg, feasible, true);
  }

  /** The entry stored under `key` is the decision of some proper cluster with that key. */
  ghost predicate Source(o: Cluster, key: StructureKey, v: CachedEnum, n: Naming, feasible: Feasibility) {
    Proper(o, n) && KeyOf(o, key.epoch) == key && v == Cached(Route(o, key.epoch, feasible, true))
  }

  ghost predicate Sourced(entries: Entries, n: Naming, feasible: Feasibility) {
    forall key :: key in entries ==> exists o :: Source(o, key, entries[key], n, feasible)
  }

  /** What a full finalize decides, or, for a relaxed cluster hit before the oracle is loaded, what it would
      decide with the oracle. */
  ghost predicate AsDecided(r: Routing.Routed, c: Cluster, cfg: Config, feasible: Feasibility, present: bool,
                            stable: bool) {
    exists p :: (p == present || (p && r.relaxed)) && Agrees(r, Route(c, cfg, feasible, p)) &&
                (stable ==> r.sets == Route(c, cfg, feasible, p).sets)
  }

  lemma {:induction false} AgreesItself(r: Routing.Routed)
    ensures Agrees(r, r)
  {
  }

  /** The oracle only matters to a relaxed cluster. */
  lemma {:induction false} OracleOnlyRelaxed(c: Cluster, cfg: Config, feasible: Feasibility, present: bool)
    ensures Route(c, cfg, feasible, present).relaxed == Route(c, cfg, feasible, true).relaxed
    ensures !(Route(c, cfg, feasible, present).relaxed && !present) ==>
              Route(c, cfg, feasible, present) == Route(c, cfg, feasible, true)
  {
    hide Enumerate, RepairOf, Interpret, Facets;
  }

  lemma {:induction false} SameContents(o: Cluster, c: Cluster, cfg: Config)
    requires KeyOf(o, cfg) == KeyOf(c, cfg)
    ensures multiset(SetCodes(o.sets)) == multiset(SetCodes(c.sets))
  {
    hide CodeOf;
  }

  lemma {:induction false} HitIsDecided(key: StructureKey, v: CachedEnum, c: Cluster, cfg: Config,
                                        feasible: Feasibility, present: bool, n: Naming)
    requires KeyOf(c, cfg) == key && Proper(c, n) && Decides(feasible)
    requires exists o :: Source(o, key, v, n, feasible)
    ensures AsDecided(Replay(v, c), c, cfg, feasible, present, n.stable)
  {
    hide Route, Proper, Twins, Decides, IdsStable, SetCodes, Corresponds;
    var o :| Source(o, key, v, n, feasible);
    EpochOf(c, cfg);
    ProperTwins(o, c, cfg, n);
    ReplayAgrees(o, c, cfg, feasible, true);
    ReplaySetsIff(o, c, cfg, feasible, true);
    if n.stable {
      SameContents(o, c, cfg);
      DemotesByContent(o, cfg, feasible, n);
      StableIds(o, c, n, SetOf(v.demoted));
    }
    OracleOnlyRelaxed(c, cfg, feasible, present);
    var p := if Route(c, cfg, feasible, present).relaxed && !present then true else present;
    assert Route(c, cfg, feasible, p) == Route(c, cfg, feasible, true);
  }

  lemma {:induction false} StepDecides(b: Build, c: Cluster, cfg: Config, feasible: Feasibility, present: bool,
                                       n: Naming)
    requires Sourced(b.entries, n, feasible) && Proper(c, n) && Decides(feasible)
    ensures var b' := BuildOne(b, c, cfg, feasible, present);
            && Sourced(b'.entries, n, feasible) && b'.routed[..|b.routed|] == b.routed && |b'.routed| == |b.routed| + 1
            && AsDecided(b'.routed[|b.routed|], c, cfg, feasible, present, n.stable)
  {
    hide Route, KeyOf, Proper, Decides, Agrees;
    var key := KeyOf(c, cfg);
    EpochOf(c, cfg);
    if key in b.entries {
      HitIsDecided(key, b.entries[key], c, cfg, feasible, present, n);
    } else {
      var r := Route(c, cfg, feasible, present);
      AgreesItself(r);
      OracleOnlyRelaxed(c, cfg, feasible, present);
      assert !(r.relaxed && !present) ==> Source(c, key, Cached(r), n, feasible);
    }
  }

  lemma {:induction false} EpochOf(c: Cluster, cfg: Config)
    ensures KeyOf(c, cfg).epoch == cfg
  {
  }

  lemma {:induction false} BuildDecides(entries: Entries, cs: seq<Cluster>, k: nat, cfg: Config, feasible: Feasibility,
                                        present: bool, n: Naming)
    requires k <= |cs| && Sourced(entries, n, feasible) && Decides(feasible)
    requires forall c :: c in cs ==> Proper(c, n)
    ensures var b := BuildFirst(entries, cs, k, cfg, feasible, present);
            Sourced(b.entries, n, feasible) && forall i :: 0 <= i < k ==>
              AsDecided(b.routed[i], cs[i], cfg, feasible, present, n.stable)
  {
    hide BuildOne, Sourced, Proper, Decides, AsDecided;
    if k > 0 {
      BuildDecides(entries, cs, k - 1, cfg, feasible, present, n);
      var b := BuildFirst(entries, cs, k - 1, cfg, feasible, present);
      StepDecides(b, cs[k - 1], cfg, feasible, present, n);
    }
  }

  lemma {:induction false} EntriesSourced(loads: seq<Load>, k: nat, feasible: Feasibility, n: Naming)
    requires k <= |loads| && Decides(feasible)
    requires forall i, c :: 0 <= i < |loads| && c in loads[i].clusters ==> Proper(c, n)
    ensures Sourced(EntriesAfter(loads, k, feasible), n, feasible)
  {
    hide BuildFirst, Proper, Decides;
    if k > 0 {
      EntriesSourced(loads, k - 1, feasible, n);
      BuildDecides(EntriesAfter(loads, k - 1, feasible), loads[k - 1].clusters, |loads[k - 1].clusters|,
                   loads[k - 1].cfg, feasible, loads[k - 1].present, n);
    }
  }

  /** Incremental finalize refines full finalize. Over any run of reloads, configuration changes and cache sweeps
      included, every cluster of every load has the worlds, pins and flags a full finalize gives it; with stable ids
      it also has the same sets. Sets may overlap in any way when ids are stable and sets listed by id; without
      that, ids and order may do anything as long as sets are compatible with the owners of their slots. */
  lemma {:induction false} IncrementalIsFull(loads: seq<Load>, k: nat, i: nat, feasible: Feasibility, n: Naming)
    requires k < |loads| && i < |loads[k].clusters| && Decides(feasible)
    requires forall j, c :: 0 <= j < |loads| && c in loads[j].clusters ==> Proper(c, n)
    ensures AsDecided(BuildOf(loads, k, feasible).routed[i], loads[k].clusters[i], loads[k].cfg, feasible,
                      loads[k].present, n.stable)
  {
    hide BuildFirst, Proper, Decides, AsDecided;
    EntriesSourced(loads, k, feasible, n);
    BuildDecides(EntriesAfter(loads, k, feasible), loads[k].clusters, |loads[k].clusters|, loads[k].cfg, feasible,
                 loads[k].present, n);
  }

  // ---------- The cache is used ----------

  lemma {:induction false} StepRemembers(b: Build, c: Cluster, cfg: Config, feasible: Feasibility, present: bool,
                                         key: StructureKey)
    ensures var b' := BuildOne(b, c, cfg, feasible, present);
            && (key in b.entries ==> key in b'.entries && b'.entries[key] == b.entries[key])
            && (key in b.seen ==> key in b'.seen)
            && KeyOf(c, cfg) in b'.seen
            && (KeyOf(c, cfg) !in b.entries && (present || !Route(c, cfg, feasible, present).relaxed) ==>
                  KeyOf(c, cfg) in b'.entries && b'.entries[KeyOf(c, cfg)] == Cached(Route(c, cfg, feasible, present)))
            && (KeyOf(c, cfg) in b.entries ==>
                  b'.entries == b.entries && b'.routed == b.routed + [Replay(b.entries[KeyOf(c, cfg)], c)])
  {
    hide Route, KeyOf, Replay;
  }

  lemma {:induction false} BuildRemembers(entries: Entries, cs: seq<Cluster>, k: nat, i: nat, cfg: Config,
                                          feasible: Feasibility, present: bool)
    requires i < k <= |cs| && (present || !Route(cs[i], cfg, feasible, present).relaxed)
    ensures var b := BuildFirst(entries, cs, k, cfg, feasible, present);
            KeyOf(cs[i], cfg) in b.entries &&
            KeyOf(cs[i], cfg) in b.seen
  {
    hide Route, KeyOf, BuildOne;
    var key, b := KeyOf(cs[i], cfg), BuildFirst(entries, cs, k - 1, cfg, feasible, present);
    StepRemembers(b, cs[k - 1], cfg, feasible, present, key);
    if i < k - 1 {
      BuildRemembers(entries, cs, k - 1, i, cfg, feasible, present);
    } else if key in b.entries {
      StepRemembers(b, cs[i], cfg, feasible, present, key);
    }
  }

  lemma {:induction false} BuildServes(entries: Entries, cs: seq<Cluster>, k: nat, i: nat, cfg: Config,
                                       feasible: Feasibility, present: bool)
    requires i < k <= |cs| && KeyOf(cs[i], cfg) in entries
    ensures var b := BuildFirst(entries, cs, k, cfg, feasible, present);
            && KeyOf(cs[i], cfg) in b.entries && b.entries[KeyOf(cs[i], cfg)] == entries[KeyOf(cs[i], cfg)]
            && b.routed[i] == Replay(entries[KeyOf(cs[i], cfg)], cs[i])
  {
    hide Route, KeyOf, BuildOne, Replay;
    var key, b := KeyOf(cs[i], cfg), BuildFirst(entries, cs, k - 1, cfg, feasible, present);
    EntryStays(entries, cs, k - 1, key, cfg, feasible, present);
    StepRemembers(b, cs[k - 1], cfg, feasible, present, key);
    if i < k - 1 {
      BuildServes(entries, cs, k - 1, i, cfg, feasible, present);
      RoutedGrows(b, cs[k - 1], cfg, feasible, present);
    }
  }

  lemma {:induction false} RoutedGrows(b: Build, c: Cluster, cfg: Config, feasible: Feasibility, present: bool)
    ensures var b' := BuildOne(b, c, cfg, feasible, present);
            |b'.routed| == |b.routed| + 1 &&
            b'.routed[..|b.routed|] == b.routed
  {
    hide Route, KeyOf, Replay;
  }

  lemma {:induction false} EntryStays(entries: Entries, cs: seq<Cluster>, k: nat, key: StructureKey, cfg: Config,
                                      feasible: Feasibility,
                                      present: bool)
    requires k <= |cs| && key in entries
    ensures var b := BuildFirst(entries, cs, k, cfg, feasible, present);
            key in b.entries &&
            b.entries[key] == entries[key]
  {
    hide BuildOne;
    if k > 0 {
      EntryStays(entries, cs, k - 1, key, cfg, feasible, present);
      StepRemembers(BuildFirst(entries, cs, k - 1, cfg, feasible, present), cs[k - 1], cfg, feasible, present, key);
    }
  }

  /** A cluster that comes back on the next load is not decided again: its decision, cached unless it was a relaxed
      one without the oracle, survives the sweep and is replayed. */
  lemma {:induction false} NextLoadHits(loads: seq<Load>, k: nat, i: nat, j: nat, feasible: Feasibility)
    requires k + 1 < |loads| && i < |loads[k].clusters| && j < |loads[k + 1].clusters|
    requires KeyOf(loads[k].clusters[i], loads[k].cfg) == KeyOf(loads[k + 1].clusters[j], loads[k + 1].cfg)
    requires loads[k].present || !Route(loads[k].clusters[i], loads[k].cfg, feasible, loads[k].present).relaxed
    ensures var key := KeyOf(loads[k].clusters[i], loads[k].cfg);
            && key in EntriesAfter(loads, k + 1, feasible)
            && BuildOf(loads, k + 1, feasible).routed[j] ==
                 Replay(EntriesAfter(loads, k + 1, feasible)[key], loads[k + 1].clusters[j])
  {
    hide Route, KeyOf, BuildFirst, Replay;
    BuildRemembers(EntriesAfter(loads, k, feasible), loads[k].clusters, |loads[k].clusters|, i, loads[k].cfg, feasible,
                   loads[k].present);
    var b := BuildOf(loads, k, feasible);
    assert EntriesAfter(loads, k + 1, feasible) == Swept(b.entries, b.seen);
    BuildServes(EntriesAfter(loads, k + 1, feasible), loads[k + 1].clusters, |loads[k + 1].clusters|, j,
                loads[k + 1].cfg, feasible,
                loads[k + 1].present);
  }
}
