/** What the enumeration key looks at and what it leaves out (services/arb-solver/src/graph/enum-cache.ts, lines
    38-61): two clusters share a key if and only if they agree in configuration and questions, and list the same set
    contents and the same hard edges as often, whatever their ids and order and whichever way round a symmetric edge
    is written. */
module KeyExact {
  import opened Wrappers
  import opened Graph
  import opened Omega
  import opened Routing
  import opened EnumCache

  /** A set with this type, claim and slot list. */
  predicate HasContent(os: OutcomeSet, t: SetType, exhaustive: bool, slots: seq<int>) {
    os.setType == t && os.exhaustive == exhaustive && os.slots == slots
  }

  function SetsWith(sets: seq<OutcomeSet>, t: SetType, exhaustive: bool, slots: seq<int>): nat {
    if sets == [] then 0
    else SetsWith(sets[1..], t, exhaustive, slots) + if HasContent(sets[0], t, exhaustive, slots) then 1 else 0
  }

  /** A hard edge of this type from a to b, or, for an equivalence or an exclusion, between them. */
  predicate Relates(e: Edge, t: EdgeType, a: int, b: int) {
    && e.deterministic && !e.edgeType.NearEquivalence? && !e.edgeType.Probabilistic? && !e.edgeType.Conditional?
    && e.edgeType == t && e.ante != e.cons
    && ((e.ante == a && e.cons == b) || ((t.Equivalence? || t.MutualExclusion?) && e.ante == b && e.cons == a))
  }

  function EdgesWith(edges: seq<Edge>, t: EdgeType, a: int, b: int): nat {
    if edges == [] then 0 else EdgesWith(edges[1..], t, a, b) + if Relates(edges[0], t, a, b) then 1 else 0
  }

  lemma {:induction false} SetsCounted(sets: seq<OutcomeSet>, code: SetCode)
    ensures multiset(SetCodes(sets))[code] == SetsWith(sets, code.setType, code.exhaustive, code.slots)
  {
    if sets != [] {
      SetsCounted(sets[1..], code);
      assert SetCodes(sets) == [CodeOf(sets[0])] + SetCodes(sets[1..]);
    }
  }

  lemma {:induction false} EdgeCodesSplit(e: Edge, edges: seq<Edge>)
    ensures multiset(EdgeCodes([e] + edges)) ==
            multiset(EdgeCodes(edges)) + if EdgeIsHard(e) && e.ante != e.cons then multiset{EdgeCodeOf(e)}
              else multiset{}
  {
    hide EdgeIsHard, EdgeCodeOf;
    if edges == [] {
      assert ([e] + edges)[..0] == [];
    } else {
      var m := |edges| - 1;
      EdgeCodesSplit(e, edges[..m]);
      assert ([e] + edges)[..|[e] + edges| - 1] == [e] + edges[..m];
      assert ([e] + edges)[|[e] + edges| - 1] == edges[m];
    }
  }

  /** Codes that some edge can have. */
  predicate Proper(code: EdgeCode) {
    code.a != code.b && !IsSoft(code.edgeType) && (Symmetric(code.edgeType) ==> code.a < code.b)
  }

  lemma {:induction false} RelatesIsCode(e: Edge, code: EdgeCode)
    ensures EdgeIsHard(e) && e.ante != e.cons && EdgeCodeOf(e) == code <==>
              Proper(code) && Relates(e, code.edgeType, code.a, code.b)
  {
  }

  lemma {:induction false} EdgesCounted(edges: seq<Edge>, code: EdgeCode)
    ensures multiset(EdgeCodes(edges))[code] == if Proper(code) then EdgesWith(edges, code.edgeType, code.a, code.b)
              else 0
  {
    hide Proper, Relates, EdgeIsHard, EdgeCodeOf;
    if edges != [] {
      EdgesCounted(edges[1..], code);
      assert edges == [edges[0]] + edges[1..];
      EdgeCodesSplit(edges[0], edges[1..]);
      RelatesIsCode(edges[0], code);
    }
  }

  ghost predicate SameSets(c: Cluster, d: Cluster) {
    forall t, exhaustive, slots :: SetsWith(c.sets, t, exhaustive, slots) == SetsWith(d.sets, t, exhaustive, slots)
  }

  ghost predicate SameEdges(c: Cluster, d: Cluster) {
    forall t, a, b :: EdgesWith(c.edges, t, a, b) == EdgesWith(d.edges, t, a, b)
  }

  lemma {:induction false} SetsAgree(c: Cluster, d: Cluster)
    ensures multiset(SetCodes(c.sets)) == multiset(SetCodes(d.sets)) <==> SameSets(c, d)
  {
    hide SetCodes, SetsWith;
    if SameSets(c, d) {
      forall code: SetCode ensures multiset(SetCodes(c.sets))[code] == multiset(SetCodes(d.sets))[code] {
        SetsCounted(c.sets, code);
        SetsCounted(d.sets, code);
      }
      assert multiset(SetCodes(c.sets)) == multiset(SetCodes(d.sets));
    }
    if multiset(SetCodes(c.sets)) == multiset(SetCodes(d.sets)) {
      forall t, exhaustive, slots ensures SetsWith(c.sets, t, exhaustive, slots) ==
               SetsWith(d.sets, t, exhaustive, slots) {
        SetsCounted(c.sets, SetCode(t, exhaustive, slots));
        SetsCounted(d.sets, SetCode(t, exhaustive, slots));
      }
    }
  }

  lemma {:induction false} OtherWay(edges: seq<Edge>, t: EdgeType, a: int, b: int)
    ensures Symmetric(t) ==> EdgesWith(edges, t, a, b) == EdgesWith(edges, t, b, a)
    ensures a == b || IsSoft(t) ==> EdgesWith(edges, t, a, b) == 0
  {
    if edges != [] { OtherWay(edges[1..], t, a, b); }
  }

  lemma {:induction false} EdgesAgree(c: Cluster, d: Cluster)
    ensures multiset(EdgeCodes(c.edges)) == multiset(EdgeCodes(d.edges)) <==> SameEdges(c, d)
  {
    hide EdgeCodes, EdgesWith;
    if SameEdges(c, d) {
      forall code: EdgeCode ensures multiset(EdgeCodes(c.edges))[code] == multiset(EdgeCodes(d.edges))[code] {
        EdgesCounted(c.edges, code);
        EdgesCounted(d.edges, code);
      }
      assert multiset(EdgeCodes(c.edges)) == multiset(EdgeCodes(d.edges));
    }
    if multiset(EdgeCodes(c.edges)) == multiset(EdgeCodes(d.edges)) {
      forall t, a, b ensures EdgesWith(c.edges, t, a, b) == EdgesWith(d.edges, t, a, b) {
        var code := if Symmetric(t) && b < a then EdgeCode(t, b, a) else EdgeCode(t, a, b);
        EdgesCounted(c.edges, code);
        EdgesCounted(d.edges, code);
        OtherWay(c.edges, t, a, b);
        OtherWay(d.edges, t, a, b);
      }
    }
  }

  /** Exactly when two clusters share a key. */
  lemma {:induction false} KeysEqualIff(c: Cluster, d: Cluster, cfg: Config, cfg': Config)
    ensures KeyOf(c, cfg) == KeyOf(d, cfg') <==>
              cfg == cfg' && SetOf(c.qids) == SetOf(d.qids) && SameSets(c, d) && SameEdges(c, d)
  {
    hide SetCodes, EdgeCodes, SameSets, SameEdges;
    SetsAgree(c, d);
    EdgesAgree(c, d);
  }
}
