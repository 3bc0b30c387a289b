/** The content-addressed cache of load-time decisions (services/arb-solver/src/graph/enum-cache.ts) and the
    incremental finalize built on it (services/arb-solver/src/solve-core.ts, lines 281-354). Key strings and
    their digest are modelled by the structured value they encode. */
module EnumCache {
  import opened Wrappers
  import opened Graph
  import opened Omega
  import opened StateEnumerator
  import opened Routing
  import opened SolveCore

  datatype SetCode = SetCode(setType: SetType, exhaustive: bool, slots: seq<int>)

  datatype EdgeCode = EdgeCode(edgeType: EdgeType, a: int, b: int)

  /** Sorted lists in the source, hence a set and two multisets here. Set ids and edge ids are left out. */
  datatype StructureKey = StructureKey(epoch: Config, members: set<int>, sets: multiset<SetCode>,
                                       edges: multiset<EdgeCode>)

  function CodeOf(os: OutcomeSet): SetCode {
    SetCode(os.setType, os.exhaustive, os.slots)
  }

  function SetCodes(sets: seq<OutcomeSet>): seq<SetCode> {
    seq(|sets|, i requires 0 <= i < |sets| => CodeOf(sets[i]))
  }

  predicate Symmetric(t: EdgeType) {
    t.Equivalence? || t.MutualExclusion?
  }

  function EdgeCodeOf(e: Edge): EdgeCode {
    if Symmetric(e.edgeType) && e.ante > e.cons then EdgeCode(e.edgeType, e.cons, e.ante)
    else EdgeCode(e.edgeType, e.ante, e.cons)
  }

  function EdgeCodes(edges: seq<Edge>): seq<EdgeCode> {
    if edges == [] then []
    else
      var e := edges[|edges| - 1];
      if EdgeIsHard(e) && e.ante != e.cons then EdgeCodes(edges[..|edges| - 1]) + [EdgeCodeOf(e)]
      else EdgeCodes(edges[..|edges| - 1])
  }

  function KeyOf(c: Cluster, cfg: Config): StructureKey {
    StructureKey(cfg, QidSet(c), multiset(SetCodes(c.sets)), multiset(EdgeCodes(c.edges)))
  }

  datatype CachedEnum = CachedEnum(outcome: Outcome, pinned: seq<int>, degenerate: bool, relaxed: bool,
                                   demoted: seq<int>)

  function Cached(r: Routing.Routed): CachedEnum {
    CachedEnum(r.outcome, r.pinned, r.degenerate, r.relaxed, r.demoted)
  }

  /** A hit copies the decision and replays the demotions, by set id, onto the fresh cluster's sets. */
  function Replay(hit: CachedEnum, c: Cluster): Routing.Routed {
    Routing.Routed(hit.outcome, if hit.demoted == [] then c.sets else DemoteSets(c.sets, SetOf(hit.demoted)),
                   StatesOf(hit.outcome), hit.pinned, hit.degenerate, hit.relaxed, hit.demoted)
  }

  // ---------- One incremental build, on values ----------

  type Entries = map<StructureKey, CachedEnum>

  datatype Build = Build(entries: Entries, routed: seq<Routing.Routed>, seen: set<StructureKey>)

  function BuildOne(b: Build, c: Cluster, cfg: Config, feasible: Feasibility, present: bool): Build {
    var key := KeyOf(c, cfg);
    if key in b.entries then Build(b.entries, b.routed + [Replay(b.entries[key], c)], b.seen + {key})
    else
      var r := Route(c, cfg, feasible, present);
      // a relaxed cluster decided without the oracle is not cached: its degenerate flag was deferred
      Build(if r.relaxed && !present then b.entries else b.entries[key := Cached(r)], b.routed + [r], b.seen + {key})
  }

  function BuildFirst(entries: Entries, cs: seq<Cluster>, k: nat, cfg: Config, feasible: Feasibility,
                      present: bool): (b: Build)
    requires k <= |cs|
    ensures |b.routed| == k
  {
    if k == 0 then Build(entries, [], {}) else BuildOne(BuildFirst(entries, cs, k - 1, cfg, feasible, present),
                                                        cs[k - 1], cfg, feasible, present)
  }

  function Swept(entries: Entries, seen: set<StructureKey>): Entries {
    map key | key in entries && key in seen :: entries[key]
  }

  // ---------- Keys, computed ----------

  method CodeEdges(edges: seq<Edge>) returns (codes: seq<EdgeCode>)
    ensures codes == EdgeCodes(edges)
  {
    codes := [];
    for i := 0 to |edges|
      invariant codes == EdgeCodes(edges[..i])
    {
      var e := edges[i];
      assert edges[..i + 1][..i] == edges[..i];
      if !EdgeIsHard(e) || e.ante == e.cons { continue; }
      var a, b := e.ante, e.cons;
      if Symmetric(e.edgeType) && a > b { a, b := b, a; }
      codes := codes + [EdgeCode(e.edgeType, a, b)];
    }
    assert edges[..|edges|] == edges;
  }

  method StructureKeyOf(c: Cluster, cfg: Config) returns (key: StructureKey)
    ensures key == KeyOf(c, cfg)
  {
    var codes := CodeEdges(c.edges);
    key := StructureKey(cfg, QidSet(c), multiset(SetCodes(c.sets)), multiset(codes));
  }
}
