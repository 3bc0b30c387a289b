/** The duplicate-partition gate (services/arb-solver/src/graph/duplicate-gate.ts). How a pair is classified is an
    arbitrary function here; what the two arms do to the graph is not. */
module DuplicateGate {
  import opened Wrappers
  import opened Graph
  import opened Omega
  import opened BeltGraph

  /** C: full proof, b is folded into a. D: partial proof, one of the two slots is dropped. */
  datatype Arm = C | D

  datatype Hit = Hit(a: int, b: int, arm: Arm)

  type Classifier = (int, int) -> Option<Arm>

  function IndexOf(s: seq<int>, q: int): (i: int)
    ensures -1 <= i < |s|
    ensures i >= 0 ==> s[i] == q && q !in s[..i]
    ensures i < 0 ==> q !in s
  {
    if s == [] then -1
    else
      var i := IndexOf(s[..|s| - 1], q);
      if i >= 0 then i else if s[|s| - 1] == q then |s| - 1 else -1
  }

  function Remove(s: seq<int>, q: int): seq<int> {
    if s == [] then []
    else if s[|s| - 1] == q then Remove(s[..|s| - 1], q)
    else Remove(s[..|s| - 1], q) + [s[|s| - 1]]
  }

  // ---------- Arm D ----------

  /** The twin in fewer sets goes; in a tie, the later slot. */
  function DropOf(slots: seq<int>, a: int, b: int, aSets: nat, bSets: nat): int {
    if aSets != bSets then (if aSets <= bSets then a else b)
    else if IndexOf(slots, a) >= IndexOf(slots, b) then a else b
  }

  function DropFrom(os: OutcomeSet, a: int, b: int, aSets: nat, bSets: nat): OutcomeSet {
    if os.setType.Categorical? && a in os.slots && b in os.slots then
      os.(slots := Remove(os.slots, DropOf(os.slots, a, b, aSets, bSets)), exhaustive := false)
    else os
  }

  function DropAll(sets: seq<OutcomeSet>, a: int, b: int, aSets: nat, bSets: nat): (r: seq<OutcomeSet>)
    ensures |r| == |sets|
  {
    seq(|sets|, i requires 0 <= i < |sets| => DropFrom(sets[i], a, b, aSets, bSets))
  }

  // ---------- Arm C ----------

  function Home(q: int, a: int, b: int): int {
    if q == b then a else q
  }

  /** b's slot becomes a's, once. */
  function Remap(slots: seq<int>, a: int, b: int): seq<int> {
    if slots == [] then []
    else
      var before := Remap(slots[..|slots| - 1], a, b);
      var q := Home(slots[|slots| - 1], a, b);
      if q in before then before else before + [q]
  }

  function RemapSet(os: OutcomeSet, a: int, b: int): OutcomeSet {
    if b in os.slots then os.(slots := Remap(os.slots, a, b)) else os
  }

  function RemapSets(sets: seq<OutcomeSet>, a: int, b: int): (r: seq<OutcomeSet>)
    ensures |r| == |sets|
  {
    seq(|sets|, i requires 0 <= i < |sets| => RemapSet(sets[i], a, b))
  }

  function RemapEdges(edges: seq<Edge>, a: int, b: int): seq<Edge> {
    if edges == [] then []
    else
      var e := edges[|edges| - 1];
      if Home(e.ante, a, b) == Home(e.cons, a, b) then RemapEdges(edges[..|edges| - 1], a, b)
      else RemapEdges(edges[..|edges| - 1], a, b) + [e.(ante := Home(e.ante, a, b), cons := Home(e.cons, a, b))]
  }

  /** a takes over b's markets and b goes. */
  function Rehome(questions: map<int, set<int>>, a: int, b: int): map<int, set<int>>
    requires a in questions && b in questions
  {
    questions[a := questions[a] + questions[b]] - {b}
  }

  function Collapse(g: QGraph, a: int, b: int): QGraph
    requires a in g.questions && b in g.questions
  {
    QGraph(Rehome(g.questions, a, b), RemapSets(g.sets, a, b), RemapEdges(g.edges, a, b), g.pairs)
  }

  // ---------- The gate ----------

  /** In how many slots, over all sets, a question occurs. */
  function Occurrences(sets: seq<OutcomeSet>, q: int): nat {
    if sets == [] then 0 else Occurrences(sets[..|sets| - 1], q) + multiset(sets[|sets| - 1].slots)[q]
  }

  function ApplyHit(g: QGraph, h: Hit, counts: int -> nat): QGraph {
    if h.a !in g.questions || h.b !in g.questions then g
    else if h.arm.C? then Collapse(g, h.a, h.b)
    else g.(sets := DropAll(g.sets, h.a, h.b, counts(h.a), counts(h.b)))
  }

  function ApplyHits(g: QGraph, hits: seq<Hit>, counts: int -> nat): QGraph {
    if hits == [] then g else ApplyHit(ApplyHits(g, hits[..|hits| - 1], counts), hits[|hits| - 1], counts)
  }

  /** Hits between slot i and the slots after it, up to k. */
  function HitsFrom(slots: seq<int>, questions: map<int, set<int>>, classify: Classifier, i: nat, k: nat): seq<Hit>
    requires i < |slots| && i + 1 <= k <= |slots|
    decreases k
  {
    if k == i + 1 then []
    else
      var before := HitsFrom(slots, questions, classify, i, k - 1);
      var a, b := slots[i], slots[k - 1];
      if a in questions && b in questions && classify(a, b).Some? then before + [Hit(a, b, classify(a, b).value)]
           else before
  }

  function HitsIn(slots: seq<int>, questions: map<int, set<int>>, classify: Classifier, i: nat): seq<Hit>
    requires i <= |slots|
  {
    if i == 0 then []
    else HitsIn(slots, questions, classify, i - 1) + HitsFrom(slots, questions, classify, i - 1, |slots|)
  }

  function AllHits(sets: seq<OutcomeSet>, questions: map<int, set<int>>, classify: Classifier): seq<Hit> {
    if sets == [] then []
    else
      var os := sets[|sets| - 1];
      var before := AllHits(sets[..|sets| - 1], questions, classify);
      if os.setType.Categorical? then before + HitsIn(os.slots, questions, classify, |os.slots|) else before
  }

  function PairKey(p: (int, int)): (int, int) {
    if p.0 < p.1 then p else (p.1, p.0)
  }

  /** First occurrence of each unordered pair. */
  function UnionPairs(pairs: seq<(int, int)>): seq<(int, int)> {
    if pairs == [] then []
    else
      var before := UnionPairs(pairs[..|pairs| - 1]);
      if exists p | p in pairs[..|pairs| - 1] :: PairKey(p) == PairKey(pairs[|pairs| - 1]) then before
           else before + [pairs[|pairs| - 1]]
  }

  /** Pairs of the Arm D hits whose questions were both still there. */
  function Suspects(g: QGraph, hits: seq<Hit>, counts: int -> nat): seq<(int, int)> {
    if hits == [] then []
    else
      var h := hits[|hits| - 1];
      var before := ApplyHits(g, hits[..|hits| - 1], counts);
      if h.arm.D? && h.a in before.questions && h.b in before.questions
           then Suspects(g, hits[..|hits| - 1], counts) + [(h.a, h.b)]
      else Suspects(g, hits[..|hits| - 1], counts)
  }

  function Gate(g: QGraph, classify: Classifier): QGraph {
    var hits := AllHits(g.sets, g.questions, classify);
    var counts := (q: int) => Occurrences(g.sets, q);
    ApplyHits(g, hits, counts).(pairs := UnionPairs(g.pairs + Suspects(g, hits, counts)))
  }

  // ---------- Arm D only removes a wall ----------

  lemma {:induction false} RemoveMember(s: seq<int>, q: int, x: int)
    ensures x in Remove(s, q) <==> x in s && x != q
  {
    if s != [] {
      var m := |s| - 1;
      RemoveMember(s[..m], q, x);
      assert s == s[..m] + [s[m]];
    }
  }

  lemma {:induction false} AtMostOneRemove(s: seq<int>, q: int, w: World)
    requires AtMostOne(s, w)
    ensures AtMostOne(Remove(s, q), w)
  {
    if s != [] {
      var m := |s| - 1;
      var r := Remove(s[..m], q);
      assert forall i :: 0 <= i < m ==> s[..m][i] == s[i];
      AtMostOneRemove(s[..m], q, w);
      forall i | 0 <= i < |r| ensures !(Yes(w, r[i]) && Yes(w, s[m])) {
        assert r[i] in r;
        RemoveMember(s[..m], q, r[i]);
        var p :| 0 <= p < m && s[p] == r[i];
      }
    }
  }

  lemma {:induction false} DropCoherent(os: OutcomeSet, a: int, b: int, aSets: nat, bSets: nat, w: World)
    requires SetCoherent(os, w.Keys, {}, w)
    ensures SetCoherent(DropFrom(os, a, b, aSets, bSets), w.Keys, {}, w)
  {
    hide Remove;
    if os.setType.Categorical? { AtMostOneRemove(os.slots, DropOf(os.slots, a, b, aSets, bSets), w); }
  }

  lemma {:induction false} DropEnlarges(g: QGraph, a: int, b: int, aSets: nat, bSets: nat)
    ensures Enlarges(g, g.(sets := DropAll(g.sets, a, b, aSets, bSets)))
  {
    hide SetCoherent, EdgeCoherent, DropFrom;
    var g' := g.(sets := DropAll(g.sets, a, b, aSets, bSets));
    forall w | Admits(g, w) ensures Admits(g', Restrict(w, g'.questions.Keys)) {
      RestrictAll(w);
      forall x | x in g'.sets ensures SetCoherent(x, w.Keys, {}, w) {
        var i :| 0 <= i < |g'.sets| && g'.sets[i] == x;
        assert g.sets[i] in g.sets;
        DropCoherent(g.sets[i], a, b, aSets, bSets, w);
      }
    }
  }

  // ---------- Arm C keeps the worlds in which the twins agree ----------

  lemma {:induction false} RemapMember(s: seq<int>, a: int, b: int, x: int)
    ensures x in Remap(s, a, b) <==> exists q :: q in s && Home(q, a, b) == x
  {
    if s != [] {
      var m := |s| - 1;
      RemapMember(s[..m], a, b, x);
      assert s == s[..m] + [s[m]];
    }
  }

  /** Elements come out in the order of their first slots. */
  lemma {:induction false} RemapOrder(s: seq<int>, a: int, b: int, i: nat, j: nat) returns (p: nat, r: nat)
    requires i < j < |Remap(s, a, b)|
    ensures p < r < |s| && Home(s[p], a, b) == Remap(s, a, b)[i] && Home(s[r], a, b) == Remap(s, a, b)[j]
  {
    var m := |s| - 1;
    var before := Remap(s[..m], a, b);
    if j < |before| {
      p, r := RemapOrder(s[..m], a, b, i, j);
    } else {
      assert before[i] in before;
      RemapMember(s[..m], a, b, before[i]);
      var q :| q in s[..m] && Home(q, a, b) == before[i];
      p :| 0 <= p < m && s[p] == q;
      r := m;
    }
  }

  ghost predicate Agree(w: World, a: int, b: int) {
    Yes(w, a) == Yes(w, b)
  }

  lemma {:induction false} HomeYes(w: World, q: int, a: int, b: int)
    requires Agree(w, a, b) && a != b
    ensures Yes(Restrict(w, w.Keys - {b}), Home(q, a, b)) == Yes(w, q)
  {
  }

  lemma {:induction false} RemapAtMostOne(s: seq<int>, a: int, b: int, w: World)
    requires AtMostOne(s, w) && Agree(w, a, b) && a != b
    ensures AtMostOne(Remap(s, a, b), Restrict(w, w.Keys - {b}))
  {
    hide Remap, Home;
    var t := Remap(s, a, b);
    forall i, j | 0 <= i < j < |t| ensures !(Yes(Restrict(w, w.Keys - {b}), t[i]) &&
                                             Yes(Restrict(w, w.Keys - {b}), t[j])) {
      var p, r := RemapOrder(s, a, b, i, j);
      HomeYes(w, s[p], a, b);
      HomeYes(w, s[r], a, b);
    }
  }

  /** What a categorical set says. */
  ghost predicate SomeYes(s: seq<int>, w: World) {
    exists q :: q in s && Yes(w, q)
  }

  lemma {:induction false} RemapSomeYes(s: seq<int>, a: int, b: int, w: World)
    requires SomeYes(s, w) && Agree(w, a, b) && a != b
    ensures SomeYes(Remap(s, a, b), Restrict(w, w.Keys - {b}))
  {
    hide Remap, Home;
    var q :| q in s && Yes(w, q);
    HomeYes(w, q, a, b);
    RemapMember(s, a, b, Home(q, a, b));
  }

  lemma {:induction false} RemapWithin(s: seq<int>, a: int, b: int, qs: set<int>)
    requires a in qs && b in qs && a != b && forall q :: q in Remap(s, a, b) ==> q in qs - {b}
    ensures forall q :: q in s ==> q in qs
  {
    hide Remap;
    forall q | q in s ensures q in qs {
      RemapMember(s, a, b, Home(q, a, b));
    }
  }

  lemma {:induction false} RemapLength(s: seq<int>, a: int, b: int)
    ensures |Remap(s, a, b)| <= |s|
  {
    if s != [] { RemapLength(s[..|s| - 1], a, b); }
  }

  lemma {:induction false} RemapCategorical(os: OutcomeSet, a: int, b: int, w: World)
    requires os.setType.Categorical? && SetCoherent(os, w.Keys, {}, w) && Agree(w, a, b) && a != b && a in w && b in w
    ensures SetCoherent(os.(slots := Remap(os.slots, a, b)), w.Keys - {b}, {}, Restrict(w, w.Keys - {b}))
  {
    hide Remap, Restrict;
    var t := Remap(os.slots, a, b);
    RemapAtMostOne(os.slots, a, b, w);
    RemapLength(os.slots, a, b);
    if os.exhaustive && |t| >= 2 && forall q :: q in t ==> q in w.Keys - {b} {
      RemapWithin(os.slots, a, b, w.Keys);
      assert SomeYes(os.slots, w);
      RemapSomeYes(os.slots, a, b, w);
    }
  }

  lemma {:induction false} RemapChain(os: OutcomeSet, a: int, b: int, w: World)
    requires os.setType.ThresholdSeries? && SetCoherent(os, w.Keys, {}, w) && Agree(w, a, b) && a != b && a in w &&
             b in w
    ensures SetCoherent(os.(slots := Remap(os.slots, a, b)), w.Keys - {b}, {}, Restrict(w, w.Keys - {b}))
  {
    hide Remap;
    var t, x := Remap(os.slots, a, b), Restrict(w, w.Keys - {b});
    forall i, j | 0 <= i < j < |t| && t[j] in w.Keys - {b} && Yes(x, t[i]) ensures Yes(x, t[j]) {
      var p, r := RemapOrder(os.slots, a, b, i, j);
      HomeYes(w, os.slots[p], a, b);
      HomeYes(w, os.slots[r], a, b);
      assert os.slots[r] in w.Keys;
    }
  }

  /** A set that never had b is untouched. */
  lemma {:induction false} WithoutTwin(os: OutcomeSet, a: int, b: int, w: World)
    requires b !in os.slots && SetCoherent(os, w.Keys, {}, w)
    ensures SetCoherent(os, w.Keys - {b}, {}, Restrict(w, w.Keys - {b}))
  {
    var x := Restrict(w, w.Keys - {b});
    forall i | 0 <= i < |os.slots| ensures Yes(x, os.slots[i]) == Yes(w, os.slots[i]) {
      assert os.slots[i] in os.slots;
    }
    if os.setType.Categorical? { AtMostOneLocal(os.slots, w, x); }
  }

  lemma {:induction false} RemapCoherent(os: OutcomeSet, a: int, b: int, w: World)
    requires SetCoherent(os, w.Keys, {}, w) && Agree(w, a, b) && a != b && a in w && b in w
    ensures SetCoherent(RemapSet(os, a, b), w.Keys - {b}, {}, Restrict(w, w.Keys - {b}))
  {
    hide Remap, Restrict, Agree;
    if b !in os.slots {
      WithoutTwin(os, a, b, w);
    } else if os.setType.Categorical? {
      RemapCategorical(os, a, b, w);
    } else if os.setType.ThresholdSeries? {
      RemapChain(os, a, b, w);
    }
  }

  lemma {:induction false} RemapEdgeCoherent(e: Edge, a: int, b: int, w: World)
    requires EdgeCoherent(e, w.Keys, w) && Agree(w, a, b) && a != b && a in w && b in w
    ensures EdgeCoherent(e.(ante := Home(e.ante, a, b), cons := Home(e.cons, a, b)), w.Keys - {b},
                         Restrict(w, w.Keys - {b}))
  {
    HomeYes(w, e.ante, a, b);
    HomeYes(w, e.cons, a, b);
  }

  lemma {:induction false} RemapEdgesMember(edges: seq<Edge>, a: int, b: int, x: Edge)
    requires x in RemapEdges(edges, a, b)
    ensures exists e :: e in edges && x == e.(ante := Home(e.ante, a, b), cons := Home(e.cons, a, b))
  {
    var m := |edges| - 1;
    assert edges == edges[..m] + [edges[m]];
    if x in RemapEdges(edges[..m], a, b) {
      RemapEdgesMember(edges[..m], a, b, x);
    }
  }

  /** Every world in which the twins agree is a world of the collapsed graph, without b. */
  lemma {:induction false} CollapseKeepsAgreeing(g: QGraph, a: int, b: int, w: World)
    requires a in g.questions && b in g.questions && a != b && Admits(g, w) && Agree(w, a, b)
    ensures Admits(Collapse(g, a, b), Restrict(w, w.Keys - {b}))
  {
    hide SetCoherent, EdgeCoherent, RemapSet, RemapEdges, Agree, Home;
    var g' := Collapse(g, a, b);
    assert g'.questions.Keys == w.Keys - {b};
    forall x | x in g'.sets ensures SetCoherent(x, w.Keys - {b}, {}, Restrict(w, w.Keys - {b})) {
      var i :| 0 <= i < |g'.sets| && g'.sets[i] == x;
      assert g.sets[i] in g.sets;
      RemapCoherent(g.sets[i], a, b, w);
    }
    forall x | x in g'.edges ensures EdgeCoherent(x, w.Keys - {b}, Restrict(w, w.Keys - {b})) {
      RemapEdgesMember(g.edges, a, b, x);
      var e :| e in g.edges && x == e.(ante := Home(e.ante, a, b), cons := Home(e.cons, a, b));
      RemapEdgeCoherent(e, a, b, w);
    }
  }

  function Markets(questions: map<int, set<int>>): set<int> {
    set q, m | q in questions && m in questions[q] :: m
  }

  /** No market leaves the graph in a collapse of two different questions. */
  lemma {:induction false} CollapseKeepsMarkets(g: QGraph, a: int, b: int)
    requires a in g.questions && b in g.questions && a != b
    ensures Markets(Collapse(g, a, b).questions) == Markets(g.questions)
  {
    var before, after := g.questions, Collapse(g, a, b).questions;
    forall m ensures m in Markets(after) <==> m in Markets(before) {
      if m in Markets(before) {
        var q :| q in before && m in before[q];
        assert Home(q, a, b) in after && m in after[Home(q, a, b)];
      }
      if m in Markets(after) {
        var q :| q in after && m in after[q];
        assert m in before[q] || m in before[b];
      }
    }
  }
}
