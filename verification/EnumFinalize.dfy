/** The incremental finalize as it runs (services/arb-solver/src/solve-core.ts, lines 281-354): it rewrites the
    fresh clusters in place and leaves the cache with the keys seen in this build. */
module EnumFinalize {
  import opened Wrappers
  import opened Graph
  import opened Omega
  import opened StateEnumerator
  import opened Routing
  import opened SolveCore
  import opened EnumCache

  class Cache {
    var entries: Entries

    constructor ()
      ensures entries == map[]
    {
      entries := map[];
    }

    method Get(key: StructureKey) returns (hit: Option<CachedEnum>)
      ensures hit == if key in entries then Some(entries[key]) else None
    {
      if key in entries { return Some(entries[key]); }
      hit := None;
    }

    method Set(key: StructureKey, value: CachedEnum)
      modifies this
      ensures entries == old(entries)[key := value]
    {
      entries := entries[key := value];
    }

    /** Drops every entry whose key this build did not see. */
    method Sweep(seen: set<StructureKey>) returns (evicted: nat)
      modifies this
      ensures entries == Swept(old(entries), seen)
      ensures evicted == |old(entries)| - |entries|
    {
      var kept := map key | key in entries && key in seen :: entries[key];
      KeptFewer(entries, kept);
      evicted := |entries| - |kept|;
      entries := kept;
    }
  }

  lemma {:induction false} KeptFewer(entries: Entries, kept: Entries)
    requires kept.Keys <= entries.Keys
    ensures |kept| <= |entries|
  {
    FewerKeys(kept.Keys, entries.Keys);
  }

  lemma {:induction false} FewerKeys<K>(a: set<K>, b: set<K>)
    requires a <= b
    ensures |a| <= |b|
  {
    assert b == a + (b - a);
  }

  /** Copies a cached decision onto a fresh cluster; the demoted sets enter as copies. */
  method ReplayHit(cluster: ClusterNode, hit: CachedEnum)
    requires cluster.Unrouted()
    modifies cluster
    ensures cluster.Routed(hit.outcome) == Replay(hit, old(cluster.Shape()))
  {
    hide DemoteSets;
    var sets := cluster.outcomeSets;
    if |hit.demoted| > 0 { sets := DemoteCopies(sets, SetOf(hit.demoted)); }
    ghost var values := Values(sets);
    cluster.Adopt(sets, StatesOf(hit.outcome), hit.demoted);
    cluster.SetPinned(hit.pinned);
    cluster.SetRoute(hit.relaxed, hit.degenerate);
  }

  /** One cluster of the build: serve it from the cache, or decide it and remember the decision. */
  method BuildCluster(cluster: ClusterNode, cache: Cache, cfg: Config, feasible: Feasibility, present: bool,
                      ghost b: Build, ghost c: Cluster)
    returns (ghost b': Build, key: StructureKey)
    requires cluster.FreshAs(c) && cache.entries == b.entries
    modifies cluster, cache
    ensures b' == BuildOne(b, c, cfg, feasible, present) && cache.entries == b'.entries
    ensures key == KeyOf(c, cfg) && |b'.routed| == |b.routed| + 1 && cluster.DecidedAs(b'.routed[|b.routed|])
  {
    hide KeyOf, Route, Replay;
    b' := BuildOne(b, cluster.Shape(), cfg, feasible, present);
    key := StructureKeyOf(cluster.Shape(), cfg);
    var hit := cache.Get(key);
    if hit.Some? {
      ReplayHit(cluster, hit.value);
    } else {
      var outcome := EnumerateAndRouteCluster(cluster, cfg, feasible, present);
      if !cluster.relaxed || present {
        cache.Set(key, CachedEnum(outcome, cluster.pinned, cluster.degenerate, cluster.relaxed, cluster.demotedSetIds));
      }
    }
  }

  /** The whole build: every cluster ends as the value-level build decides it, in order, and the cache keeps
      exactly the entries under keys seen in this build. `shapes` are the clusters as built from the graph. */
  method FinalizeIncremental(clusters: seq<ClusterNode>, ghost shapes: seq<Cluster>, cache: Cache, cfg: Config,
                             feasible: Feasibility, present: bool)
    returns (ghost build: Build)
    requires Distinct(clusters) && |shapes| == |clusters|
    requires forall i :: 0 <= i < |clusters| ==> clusters[i].FreshAs(shapes[i])
    modifies clusters, cache
    ensures build == BuildFirst(old(cache.entries), shapes, |clusters|, cfg, feasible, present)
    ensures forall i :: 0 <= i < |clusters| ==> clusters[i].DecidedAs(build.routed[i])
    ensures cache.entries == Swept(build.entries, build.seen)
  {
    hide BuildOne, Swept, ClusterNode.FreshAs, ClusterNode.DecidedAs;
    ghost var entries := cache.entries;
    build := Build(cache.entries, [], {});
    var seen: set<StructureKey> := {};
    for i := 0 to |clusters|
      invariant build == BuildFirst(entries, shapes, i, cfg, feasible, present)
      invariant cache.entries == build.entries && seen == build.seen
      invariant forall j :: i <= j < |clusters| ==> clusters[j].FreshAs(shapes[j])
      invariant forall j :: 0 <= j < i ==> clusters[j].DecidedAs(build.routed[j])
    {
      ghost var before := build;
      var key;
      build, key := BuildCluster(clusters[i], cache, cfg, feasible, present, build, shapes[i]);
      Appends(before, shapes[i], cfg, feasible, present);
      seen := seen + {key};
    }
    var evicted := cache.Sweep(seen);
  }

  lemma {:induction false} Appends(b: Build, c: Cluster, cfg: Config, feasible: Feasibility, present: bool)
    ensures var b' := BuildOne(b, c, cfg, feasible, present);
            b'.routed[..|b.routed|] == b.routed && |b'.routed| == |b.routed| + 1 && b'.seen == b.seen + {KeyOf(c, cfg)}
  {
    hide Route, Replay, KeyOf;
  }
}
