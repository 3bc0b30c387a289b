/** The constraint graph's entities (services/arb-solver/src/graph/types.ts), and the
    filter every stage uses to keep the slots of a set whose question is present. */
module Graph {

  datatype SetType = Categorical | ThresholdSeries | Tournament | Bundle

  /** `exhaustive` is only read for a categorical set; an absent flag in the source reads as false. */
  datatype OutcomeSet = OutcomeSet(setId: int, setType: SetType, slots: seq<int>, exhaustive: bool)

  datatype EdgeType =
    | StrictImplication
    | MutualExclusion
    | Equivalence
    | NearEquivalence
    | Probabilistic
    | Conditional
    | UnknownType(name: string)

  datatype Edge = Edge(edgeId: int, ante: int, cons: int, edgeType: EdgeType, deterministic: bool)

  /** The part of a cluster that fixes its worlds. `qids` are the keys of the questions map,
      in insertion order. A whole constraint graph read as one cluster has the same shape. */
  datatype Cluster = Cluster(qids: seq<int>, sets: seq<OutcomeSet>, edges: seq<Edge>)

  /** The graph handed to the cluster builder. `pairs` are the duplicate-suspect pairs. */
  datatype ConstraintGraph = ConstraintGraph(qids: seq<int>, sets: seq<OutcomeSet>, edges: seq<Edge>,
                                             pairs: seq<(int, int)>)

  /** The whole graph read as one cluster. */
  function Whole(g: ConstraintGraph): Cluster {
    Cluster(g.qids, g.sets, g.edges)
  }

  function SetOf(s: seq<int>): set<int> {
    set q | q in s
  }

  function QidSet(c: Cluster): set<int> {
    SetOf(c.qids)
  }

  ghost predicate Distinct<T>(s: seq<T>) {
    forall i, j :: 0 <= i < j < |s| ==> s[i] != s[j]
  }

  /** A world state: question -> resolves YES. */
  type World = map<int, bool>

  /** A question absent from the state reads as NO. */
  predicate Yes(w: World, q: int) {
    q in w && w[q]
  }

  function Restrict(w: World, qs: set<int>): World {
    map q | q in w && q in qs :: w[q]
  }

  /** The elements of `s` that lie in `keep`, in order. */
  function Keep(s: seq<int>, keep: set<int>): (r: seq<int>)
    ensures |r| <= |s|
  {
    if s == [] then [] else
      Keep(s[..|s| - 1], keep) + if s[|s| - 1] in keep then [s[|s| - 1]] else []
  }

  lemma {:induction false} KeepSnoc(s: seq<int>, q: int, keep: set<int>)
    ensures Keep(s + [q], keep) == if q in keep then Keep(s, keep) + [q] else Keep(s, keep)
  {
    assert (s + [q])[..|s + [q]| - 1] == s;
  }

  lemma {:induction false} KeepMember(s: seq<int>, keep: set<int>, q: int)
    ensures q in Keep(s, keep) <==> q in s && q in keep
  {
    if s != [] {
      KeepMember(s[..|s| - 1], keep, q);
      assert s == s[..|s| - 1] + [s[|s| - 1]];
    }
  }

  lemma {:induction false} KeepMembers(s: seq<int>, keep: set<int>)
    ensures forall q :: q in Keep(s, keep) <==> q in s && q in keep
  {
    forall q { KeepMember(s, keep, q); }
  }

  lemma {:induction false} KeepWhole(s: seq<int>, keep: set<int>)
    ensures |Keep(s, keep)| == |s| <==> forall q :: q in s ==> q in keep
  {
    if s != [] {
      var m := |s| - 1;
      KeepWhole(s[..m], keep);
      assert forall q :: q in s <==> q in s[..m] || q == s[m];
    }
  }

  predicate AnyIn(s: seq<int>, qs: set<int>) {
    exists q | q in s :: q in qs
  }

  lemma {:induction false} KeepConcat(a: seq<int>, b: seq<int>, keep: set<int>)
    ensures Keep(a + b, keep) == Keep(a, keep) + Keep(b, keep)
  {
    if b == [] {
      assert a + b == a;
    } else {
      var m := |b| - 1;
      KeepConcat(a, b[..m], keep);
      assert (a + b)[..|a + b| - 1] == a + b[..m];
      assert (a + b)[|a + b| - 1] == b[m];
      var last := if b[m] in keep then [b[m]] else [];
      assert Keep(a, keep) + (Keep(b[..m], keep) + last) == (Keep(a, keep) + Keep(b[..m], keep)) + last;
    }
  }

  lemma {:induction false} KeepAll(s: seq<int>, keep: set<int>)
    requires forall q :: q in s ==> q in keep
    ensures Keep(s, keep) == s
  {
    if s != [] {
      var m := |s| - 1;
      assert s[m] in s;
      KeepAll(s[..m], keep);
      KeepSnoc(s[..m], s[m], keep);
      assert s == s[..m] + [s[m]];
    }
  }

  /** Keeping twice is keeping what lies in both. */
  lemma {:induction false} KeepTwice(s: seq<int>, a: set<int>, b: set<int>)
    ensures Keep(Keep(s, a), b) == Keep(s, a * b)
  {
    if s != [] {
      KeepTwice(s[..|s| - 1], a, b);
      var m := |s| - 1;
      var last := if s[m] in a then [s[m]] else [];
      KeepConcat(Keep(s[..m], a), last, b);
      assert |last| == 1 ==> last[..0] == [];
    }
  }

  lemma {:induction false} KeepDistinct(s: seq<int>, keep: set<int>)
    requires Distinct(s)
    ensures Distinct(Keep(s, keep))
  {
    if s != [] {
      KeepDistinct(s[..|s| - 1], keep);
      KeepMembers(s[..|s| - 1], keep);
    }
  }

  lemma {:induction false} EmptyOrNot<T>(s: set<T>)
    ensures s == {} || exists x :: x in s
  {
    assert |s| > 0 || s == {};
  }

  lemma {:induction false} SomeIn<T>(s: set<T>) returns (x: T)
    requires s != {}
    ensures x in s
  {
    EmptyOrNot(s);
    x :| x in s;
  }
}
