/** What the gate's two arms leave of a graph, both ways (services/arb-solver/src/graph/duplicate-gate.ts, lines
    245-297): nothing but the twins' own relation is lost in a collapse, and nothing but one slot per set in a drop. */
module GateExact {
  import opened Wrappers
  import opened Graph
  import opened Omega
  import opened BeltGraph
  import opened DuplicateGate
  import opened DuplicateGateRun

  // ---------- Arm C: the edges ----------

  /** The edge with b's ends handed to a. */
  function Image(e: Edge, a: int, b: int): Edge {
    e.(ante := if e.ante == b then a else e.ante, cons := if e.cons == b then a else e.cons)
  }

  ghost predicate SomeImage(edges: seq<Edge>, a: int, b: int, x: Edge) {
    exists e :: e in edges && x == Image(e, a, b)
  }

  lemma {:induction false} ImageSnoc(edges: seq<Edge>, e: Edge, a: int, b: int, x: Edge)
    ensures SomeImage(edges + [e], a, b, x) <==> SomeImage(edges, a, b, x) || x == Image(e, a, b)
  {
    if y :| y in edges && x == Image(y, a, b) { assert y in edges + [e]; }
    if x == Image(e, a, b) { assert e in edges + [e]; }
  }

  /** An edge is in the collapsed graph exactly when it is the image of an edge whose two ends stay different. */
  lemma {:induction false} CollapsedEdge(edges: seq<Edge>, a: int, b: int, x: Edge)
    ensures x in RemapEdges(edges, a, b) <==> x.ante != x.cons && SomeImage(edges, a, b, x)
  {
    hide SomeImage;
    if edges != [] {
      var m := |edges| - 1;
      CollapsedEdge(edges[..m], a, b, x);
      ImageSnoc(edges[..m], edges[m], a, b, x);
      assert edges == edges[..m] + [edges[m]];
    } else {
      NoImage(a, b, x);
    }
  }

  lemma {:induction false} NoImage(a: int, b: int, x: Edge)
    ensures !SomeImage([], a, b, x)
  {
  }

  // ---------- Arm C: the slots ----------

  /** The slots after a collapse: a once where the first of the twins stood, every other slot once, in order. */
  lemma {:induction false} CollapsedSlots(slots: seq<int>, a: int, b: int)
    ensures Distinct(Remap(slots, a, b))
    ensures forall q :: q in Remap(slots, a, b) <==> exists p :: p in slots && q == if p == b then a else p
    ensures a != b ==> b !in Remap(slots, a, b)
  {
    if slots != [] { CollapsedSlots(slots[..|slots| - 1], a, b); }
    forall q { RemapMember(slots, a, b, q); }
  }

  /** A set that lists b but not a just has a in b's place. */
  lemma {:induction false} PlainRemap(slots: seq<int>, a: int, b: int)
    requires Distinct(slots) && !(a in slots && b in slots)
    ensures Remap(slots, a, b) == seq(|slots|, i requires 0 <= i < |slots| => if slots[i] == b then a else slots[i])
  {
    if slots != [] {
      var m := |slots| - 1;
      assert slots == slots[..m] + [slots[m]];
      PlainRemap(slots[..m], a, b);
      RemapMember(slots[..m], a, b, Home(slots[m], a, b));
    }
  }

  // ---------- Arm C: the questions ----------

  /** After a collapse a question owns what it owned, and a owns what b owned. */
  lemma {:induction false} CollapsedMarkets(g: QGraph, a: int, b: int)
    requires a in g.questions && b in g.questions && a != b
    ensures var after := Collapse(g, a, b).questions;
            && after.Keys == g.questions.Keys - {b}
            && forall q, m :: q in after ==> (m in after[q] <==> m in g.questions[q] || (q == a && m in g.questions[b]))
  {
  }

  // ---------- Arm C: the worlds ----------

  /** The world in which b resolves as a does. */
  function Extended(w: World, a: int, b: int): World {
    w[b := a in w && w[a]]
  }

  lemma {:induction false} ExtendedYes(w: World, a: int, b: int, q: int)
    requires b !in w && a != b
    ensures Yes(Extended(w, a, b), q) == Yes(w, if q == b then a else q)
  {
  }

  /** The one relation a collapse gives up: an exclusion of the twins by each other. */
  predicate ExcludesTwins(e: Edge, a: int, b: int) {
    e.edgeType.MutualExclusion? && ((e.ante == a && e.cons == b) || (e.ante == b && e.cons == a))
  }

  lemma {:induction false} EdgeExtends(e: Edge, a: int, b: int, w: World)
    requires b !in w && a in w && a != b && !ExcludesTwins(e, a, b)
    requires Image(e, a, b).ante != Image(e, a, b).cons ==> EdgeCoherent(Image(e, a, b), w.Keys, w)
    ensures EdgeCoherent(e, w.Keys + {b}, Extended(w, a, b))
  {
    ExtendedYes(w, a, b, e.ante);
    ExtendedYes(w, a, b, e.cons);
  }

  lemma {:induction false} OneTwinExtends(os: OutcomeSet, a: int, b: int, w: World)
    requires b !in w && a in w && a != b && Distinct(os.slots) && !(a in os.slots && b in os.slots)
    requires SetCoherent(RemapSet(os, a, b), w.Keys, {}, w)
    ensures SetCoherent(os, w.Keys + {b}, {}, Extended(w, a, b))
  {
    hide Remap, Extended;
    var x := Extended(w, a, b);
    forall q ensures Yes(x, q) == Yes(w, if q == b then a else q) { ExtendedYes(w, a, b, q); }
    PlainRemap(os.slots, a, b);
    var t := RemapSet(os, a, b).slots;
    assert |t| == |os.slots| && forall i :: 0 <= i < |t| ==> t[i] == if os.slots[i] == b then a else os.slots[i];
    forall i | 0 <= i < |t| ensures Yes(w, t[i]) == Yes(x, os.slots[i]) &&
                            (t[i] in w.Keys <==> os.slots[i] in w.Keys + {b}) {}
    SamePattern(os, RemapSet(os, a, b), w.Keys + {b}, w.Keys, x, w);
  }

  /** Two sets of one kind whose slots read alike, place by place, are coherent alike. */
  lemma {:induction false} SamePattern(os: OutcomeSet, t: OutcomeSet, qs: set<int>, qs': set<int>, x: World, w: World)
    requires os.setType == t.setType && os.exhaustive == t.exhaustive && |os.slots| == |t.slots|
    requires forall i :: 0 <= i < |t.slots| ==> Yes(w, t.slots[i]) == Yes(x, os.slots[i]) &&
                                                (t.slots[i] in qs' <==> os.slots[i] in qs)
    requires SetCoherent(t, qs', {}, w)
    ensures SetCoherent(os, qs, {}, x)
  {
    if os.setType.Categorical? && os.exhaustive && |os.slots| >= 2 && forall q :: q in os.slots ==> q in qs {
      forall q | q in t.slots ensures q in qs' {
        var i :| 0 <= i < |t.slots| && t.slots[i] == q;
        assert os.slots[i] in os.slots;
      }
      var q :| q in t.slots && Yes(w, q);
      var i :| 0 <= i < |t.slots| && t.slots[i] == q;
      assert os.slots[i] in os.slots;
    }
  }

  /** What is left of a categorical set that lists both twins: its other slots and a, at most one of them YES, and
      some one if it claims to be exhaustive, is live throughout and lists anything besides the twins. */
  ghost predicate TwinlessCoherent(os: OutcomeSet, b: int, a: int, qs: set<int>, w: World) {
    && (forall q, p :: q in os.slots && p in os.slots && q != p && q != b && p != b ==> !(Yes(w, q) && Yes(w, p)))
    && (os.exhaustive && (forall q :: q in os.slots ==> q in qs) && (exists q :: q in os.slots && q != a && q != b) ==>
          exists q :: q in os.slots && Yes(w, q))
  }

  lemma {:induction false} BothTwinsExtend(os: OutcomeSet, a: int, b: int, w: World)
    requires b !in w && a in w && a != b && os.setType.Categorical? && a in os.slots && b in os.slots
    requires SetCoherent(RemapSet(os, a, b), w.Keys, {}, w)
    ensures TwinlessCoherent(os, b, a, w.Keys + {b}, Extended(w, a, b))
  {
    hide Remap, Extended;
    var x, t := Extended(w, a, b), Remap(os.slots, a, b);
    CollapsedSlots(os.slots, a, b);
    forall q ensures Yes(x, q) == Yes(w, if q == b then a else q) { ExtendedYes(w, a, b, q); }
    forall q, p | q in os.slots && p in os.slots && q != p && q != b && p != b ensures !(Yes(x, q) && Yes(x, p)) {
      assert q in t && p in t;
      var i :| 0 <= i < |t| && t[i] == q;
      var j :| 0 <= j < |t| && t[j] == p;
      assert i < j || j < i;
    }
    if os.exhaustive && (forall q :: q in os.slots ==> q in w.Keys + {b})
       && (exists q :: q in os.slots && q != a && q != b) {
      var q :| q in os.slots && q != a && q != b;
      assert q in t && a in t;
      TwoMembers(t, q, a);
      var p :| p in t && Yes(w, p);
      assert p in os.slots;
    }
  }

  lemma {:induction false} TwoMembers(s: seq<int>, q: int, p: int)
    requires q in s && p in s && q != p
    ensures |s| >= 2
  {
  }

  /** Nothing else is lost: take any world of the collapsed graph and let b resolve as a does. Every edge of the
      graph as it was is respected, but for exclusions of the twins by each other; so is every set that does not
      list both; and a categorical set that lists both still says all it said about its other slots and a. */
  lemma {:induction false} CollapsedWorldExtends(g: QGraph, a: int, b: int, w: World)
    requires a in g.questions && b in g.questions && a != b && Admits(Collapse(g, a, b), w)
    requires forall os :: os in g.sets ==> Distinct(os.slots)
    ensures var x := Extended(w, a, b);
            && x.Keys == g.questions.Keys
            && (forall e :: e in g.edges && !ExcludesTwins(e, a, b) ==> EdgeCoherent(e, x.Keys, x))
            && (forall os :: os in g.sets && !(a in os.slots && b in os.slots) ==> SetCoherent(os, x.Keys, {}, x))
            && (forall os :: os in g.sets && a in os.slots && b in os.slots && os.setType.Categorical? ==>
                  TwinlessCoherent(os, b, a, x.Keys, x))
  {
    hide SetCoherent, EdgeCoherent, RemapSet, RemapEdges, TwinlessCoherent;
    var g', x := Collapse(g, a, b), Extended(w, a, b);
    assert g'.questions.Keys == g.questions.Keys - {b};
    assert x.Keys == w.Keys + {b} && x.Keys == g.questions.Keys;
    forall e | e in g.edges && !ExcludesTwins(e, a, b) ensures EdgeCoherent(e, x.Keys, x) {
      CollapsedEdge(g.edges, a, b, Image(e, a, b));
      EdgeExtends(e, a, b, w);
    }
    forall os | os in g.sets
      ensures !(a in os.slots && b in os.slots) ==> SetCoherent(os, x.Keys, {}, x)
      ensures a in os.slots && b in os.slots && os.setType.Categorical? ==> TwinlessCoherent(os, b, a, x.Keys, x)
    {
      var i :| 0 <= i < |g.sets| && g.sets[i] == os;
      assert RemapSet(os, a, b) == g'.sets[i] && g'.sets[i] in g'.sets;
      if !(a in os.slots && b in os.slots) {
        OneTwinExtends(os, a, b, w);
      } else if os.setType.Categorical? {
        BothTwinsExtend(os, a, b, w);
      }
    }
  }

  // ---------- Arm D ----------

  /** The slots without one of them, the others in order. */
  function Without(slots: seq<int>, q: int): seq<int> {
    if slots == [] then []
    else if slots[0] == q then Without(slots[1..], q)
    else [slots[0]] + Without(slots[1..], q)
  }

  lemma {:induction false} WithoutSnoc(slots: seq<int>, x: int, q: int)
    ensures Without(slots + [x], q) == if x == q then Without(slots, q) else Without(slots, q) + [x]
  {
    if slots == [] {
      assert [x][1..] == [] && slots + [x] == [x];
    } else {
      var all := slots + [x];
      assert all[0] == slots[0] && all[1..] == slots[1..] + [x];
      WithoutSnoc(slots[1..], x, q);
    }
  }

  lemma {:induction false} RemoveIsWithout(slots: seq<int>, q: int)
    ensures Remove(slots, q) == Without(slots, q)
  {
    if slots != [] {
      var m := |slots| - 1;
      RemoveIsWithout(slots[..m], q);
      WithoutSnoc(slots[..m], slots[m], q);
      assert slots == slots[..m] + [slots[m]];
    }
  }

  /** Slot `a` comes first: some occurrence of it precedes every occurrence of b. */
  ghost predicate Before(slots: seq<int>, a: int, b: int) {
    exists i :: 0 <= i < |slots| && slots[i] == a && b !in slots[..i]
  }

  lemma {:induction false} FirstAt(slots: seq<int>, i: nat, k: nat, x: int)
    requires i <= |slots| && k < |slots| && x !in slots[..i] && slots[k] == x
    ensures i <= k
  {
    assert forall n :: 0 <= n < i ==> slots[n] == slots[..i][n];
    assert forall n :: 0 <= n < i ==> slots[n] != x;
  }

  lemma {:induction false} IndexBefore(slots: seq<int>, a: int, b: int)
    requires a in slots && b in slots && a != b
    ensures IndexOf(slots, a) < IndexOf(slots, b) <==> Before(slots, a, b)
  {
    var i, j := IndexOf(slots, a), IndexOf(slots, b);
    if i < j {
      assert forall x :: x in slots[..i] ==> x in slots[..j];
      assert slots[i] == a && b !in slots[..i];
    }
    if Before(slots, a, b) {
      var k :| 0 <= k < |slots| && slots[k] == a && b !in slots[..k];
      FirstAt(slots, i, k, a);
      FirstAt(slots, k, j, b);
    }
  }

  /** A drop touches exactly the categorical sets that list both twins. It takes out of them one twin and leaves the
      other: the one in fewer slots of the graph, or in a tie the one listed later; and it lowers their Σ = 1 claim. */
  lemma {:induction false} DropExactly(os: OutcomeSet, a: int, b: int, aSets: nat, bSets: nat)
    requires a != b
    ensures var d := DropFrom(os, a, b, aSets, bSets);
            if os.setType.Categorical? && a in os.slots && b in os.slots then
              var gone := if aSets < bSets || (aSets == bSets && Before(os.slots, b, a)) then a else b;
              d == os.(slots := Without(os.slots, gone), exhaustive := false)
            else d == os
  {
    if os.setType.Categorical? && a in os.slots && b in os.slots {
      IndexBefore(os.slots, b, a);
      assert IndexOf(os.slots, a) != IndexOf(os.slots, b);
      RemoveIsWithout(os.slots, DropOf(os.slots, a, b, aSets, bSets));
    }
  }

  /** A place in the graph's sets. */
  ghost predicate Place(sets: seq<OutcomeSet>, q: int, p: (int, int)) {
    0 <= p.0 < |sets| && 0 <= p.1 < |sets[p.0].slots| && sets[p.0].slots[p.1] == q
  }

  ghost function Places(sets: seq<OutcomeSet>, q: int): set<(int, int)> {
    set i, j | 0 <= i < |sets| && 0 <= j < |sets[i].slots| && sets[i].slots[j] == q :: (i, j)
  }

  lemma {:induction false} PlacesIn(slots: seq<int>, q: int, i: int) returns (ps: set<(int, int)>)
    ensures |ps| == multiset(slots)[q]
    ensures forall p :: p in ps <==> p.0 == i && 0 <= p.1 < |slots| && slots[p.1] == q
  {
    if slots == [] {
      ps := {};
    } else {
      var m := |slots| - 1;
      var before := PlacesIn(slots[..m], q, i);
      assert slots == slots[..m] + [slots[m]];
      ps := if slots[m] == q then before + {(i, m)} else before;
    }
  }

  lemma {:induction false} MorePlaces(sets: seq<OutcomeSet>, q: int, last: set<(int, int)>)
    requires sets != []
    requires forall p :: p in last <==> p.0 == |sets| - 1 && 0 <= p.1 < |sets[|sets| - 1].slots| &&
                                                      sets[|sets| - 1].slots[p.1] == q
    ensures Places(sets, q) == Places(sets[..|sets| - 1], q) + last && Places(sets[..|sets| - 1], q) !! last
  {
    var m := |sets| - 1;
    var before, all := Places(sets[..m], q), Places(sets, q);
    forall p ensures (p in all <==> p in before || p in last) && !(p in before && p in last) {
      assert p in all <==> Place(sets, q, p);
      assert p in before <==> Place(sets[..m], q, p);
    }
  }

  /** The count that decides which twin goes is the number of slots, over all sets of whatever kind, that list it. */
  lemma {:induction false} OccurrencesAre(sets: seq<OutcomeSet>, q: int)
    ensures Occurrences(sets, q) == |Places(sets, q)|
  {
    if sets == [] {
      assert Places(sets, q) == {};
    } else {
      var m := |sets| - 1;
      OccurrencesAre(sets[..m], q);
      var last := PlacesIn(sets[m].slots, q, m);
      var before, all := Places(sets[..m], q), Places(sets, q);
      MorePlaces(sets, q, last);
    }
  }

  // ---------- The pair list ----------

  lemma {:induction false} KeyIff(p: (int, int), r: (int, int))
    ensures SamePair(p, r) <==> PairKey(p) == PairKey(r)
  {
  }

  /** Some pair of the list joins the same two questions. */
  ghost predicate Covers(pairs: seq<(int, int)>, p: (int, int)) {
    exists r :: r in pairs && PairKey(r) == PairKey(p)
  }

  lemma {:induction false} CoversSnoc(pairs: seq<(int, int)>, last: (int, int), p: (int, int))
    ensures Covers(pairs + [last], p) <==> Covers(pairs, p) || PairKey(last) == PairKey(p)
  {
    hide PairKey;
    if r :| r in pairs && PairKey(r) == PairKey(p) { assert r in pairs + [last]; }
    if PairKey(last) == PairKey(p) { assert last in pairs + [last]; }
  }

  lemma {:induction false} UnionCovers(pairs: seq<(int, int)>, p: (int, int))
    ensures Covers(UnionPairs(pairs), p) <==> Covers(pairs, p)
  {
    hide PairKey, Covers;
    if pairs != [] {
      var m := |pairs| - 1;
      UnionCovers(pairs[..m], p);
      UnionCovers(pairs[..m], pairs[m]);
      assert pairs == pairs[..m] + [pairs[m]];
      CoversSnoc(pairs[..m], pairs[m], p);
      CoversSnoc(UnionPairs(pairs[..m]), pairs[m], p);
      if PairKey(pairs[m]) == PairKey(p) { SameCover(pairs[..m], pairs[m], p); }
      assert Covers(pairs[..m], pairs[m]) <==> exists r | r in pairs[..m] :: PairKey(r) == PairKey(pairs[m]) by {
        CoverMeans(pairs[..m], pairs[m]);
      }
    }
  }

  lemma {:induction false} CoverMeans(pairs: seq<(int, int)>, p: (int, int))
    ensures Covers(pairs, p) <==> exists r | r in pairs :: PairKey(r) == PairKey(p)
  {
  }

  lemma {:induction false} SameCover(pairs: seq<(int, int)>, p: (int, int), r: (int, int))
    requires PairKey(p) == PairKey(r)
    ensures Covers(pairs, p) <==> Covers(pairs, r)
  {
  }

  lemma {:induction false} UnionApart(pairs: seq<(int, int)>)
    ensures forall p :: p in UnionPairs(pairs) ==> p in pairs
    ensures forall i, j :: 0 <= i < j < |UnionPairs(pairs)| ==>
              PairKey(UnionPairs(pairs)[i]) != PairKey(UnionPairs(pairs)[j])
  {
    hide PairKey, Covers;
    if pairs != [] {
      var m := |pairs| - 1;
      var before, last := UnionPairs(pairs[..m]), pairs[m];
      UnionApart(pairs[..m]);
      assert pairs == pairs[..m] + [last];
      if !exists r | r in pairs[..m] :: PairKey(r) == PairKey(last) {
        forall i | 0 <= i < |before| ensures PairKey(before[i]) != PairKey(last) {
          assert before[i] in before && before[i] in pairs[..m];
        }
      }
    }
  }

  /** The union lists pairs of the list, one of each unordered pair and no pair twice. */
  lemma {:induction false} UnionIs(pairs: seq<(int, int)>)
    ensures forall p :: p in UnionPairs(pairs) ==> p in pairs
    ensures forall p :: p in pairs ==> exists r :: r in UnionPairs(pairs) && SamePair(r, p)
    ensures forall i, j :: 0 <= i < j < |UnionPairs(pairs)| ==> !SamePair(UnionPairs(pairs)[i], UnionPairs(pairs)[j])
  {
    hide PairKey, UnionPairs, SamePair;
    UnionApart(pairs);
    forall p, r ensures SamePair(p, r) <==> PairKey(p) == PairKey(r) { KeyIff(p, r); }
    forall p | p in pairs ensures exists r :: r in UnionPairs(pairs) && SamePair(r, p) {
      UnionCovers(pairs, p);
      assert Covers(pairs, p);
      var r :| r in UnionPairs(pairs) && PairKey(r) == PairKey(p);
      assert SamePair(r, p);
    }
  }

  predicate SamePair(p: (int, int), r: (int, int)) {
    p == r || p == (r.1, r.0)
  }

  ghost predicate Listed(pairs: seq<(int, int)>, p: (int, int)) {
    exists r :: r in pairs && SamePair(r, p)
  }

  lemma {:induction false} ListedIff(pairs: seq<(int, int)>, p: (int, int))
    ensures Listed(pairs, p) <==> Covers(pairs, p)
  {
    hide PairKey, SamePair;
    forall r ensures SamePair(r, p) <==> PairKey(r) == PairKey(p) { KeyIff(r, p); }
  }

  lemma {:induction false} ListedConcat(a: seq<(int, int)>, b: seq<(int, int)>, p: (int, int))
    ensures Listed(a + b, p) <==> Listed(a, p) || Listed(b, p)
  {
    hide SamePair;
    if r :| r in a && SamePair(r, p) { assert r in a + b; }
    if r :| r in b && SamePair(r, p) { assert r in a + b; }
  }

  /** Hit k is a full proof whose questions were both still there, so its second question went. */
  ghost predicate FoldsAt(g: QGraph, hits: seq<Hit>, counts: int -> nat, k: nat) {
    && k < |hits| && hits[k].arm.C?
    && hits[k].a in ApplyHits(g, hits[..k], counts).questions && hits[k].b in ApplyHits(g, hits[..k], counts).questions
  }

  /** After the first n hits a question is gone exactly when one of them folded it into its twin. */
  lemma {:induction false} QuestionsLeft(g: QGraph, hits: seq<Hit>, counts: int -> nat, n: nat, q: int)
    requires n <= |hits|
    ensures q in ApplyHits(g, hits[..n], counts).questions <==>
              q in g.questions && forall k: nat :: k < n && FoldsAt(g, hits, counts, k) ==> hits[k].b != q
  {
    hide DropAll, RemapSets, RemapEdges;
    if n > 0 {
      QuestionsLeft(g, hits, counts, n - 1, q);
      assert hits[..n][..n - 1] == hits[..n - 1];
    }
  }

  /** A partial proof at place k, neither of whose questions an earlier full proof folded away. */
  ghost predicate SuspectedAt(g: QGraph, hits: seq<Hit>, counts: int -> nat, k: nat) {
    && k < |hits| && hits[k].arm.D? && hits[k].a in g.questions && hits[k].b in g.questions
    && forall j: nat :: j < k && FoldsAt(g, hits, counts, j) ==> hits[j].b != hits[k].a && hits[j].b != hits[k].b
  }

  lemma {:induction false} SuspectedIff(g: QGraph, hits: seq<Hit>, counts: int -> nat, k: nat)
    requires k < |hits|
    ensures SuspectedAt(g, hits, counts, k) <==>
              && hits[k].arm.D? && hits[k].a in ApplyHits(g, hits[..k], counts).questions
              && hits[k].b in ApplyHits(g, hits[..k], counts).questions
  {
    hide ApplyHits, FoldsAt;
    QuestionsLeft(g, hits, counts, k, hits[k].a);
    QuestionsLeft(g, hits, counts, k, hits[k].b);
  }

  lemma {:induction false} SuspectsAt(g: QGraph, hits: seq<Hit>, counts: int -> nat, n: nat, p: (int, int))
    requires n <= |hits|
    ensures p in Suspects(g, hits[..n], counts) <==>
              exists k: nat :: k < n && SuspectedAt(g, hits, counts, k) && p == (hits[k].a, hits[k].b)
  {
    hide ApplyHits, SuspectedAt;
    if n > 0 {
      SuspectsAt(g, hits, counts, n - 1, p);
      assert hits[..n][..n - 1] == hits[..n - 1] && hits[..n][n - 1] == hits[n - 1];
      SuspectedIff(g, hits, counts, n - 1);
    }
  }

  /** Whatever full and partial proofs the gate finds, its pair list covers exactly what was suspected before and the
      partial proofs whose two questions were both still there when their turn came. */
  lemma {:induction false} PairsFromHits(g: QGraph, classify: Classifier, p: (int, int))
    ensures var hits := AllHits(g.sets, g.questions, classify);
            var counts := (q: int) => Occurrences(g.sets, q);
            Listed(Gate(g, classify).pairs, p) <==>
              Listed(g.pairs, p) ||
              exists k: nat :: SuspectedAt(g, hits, counts, k) && SamePair((hits[k].a, hits[k].b), p)
  {
    hide UnionPairs, Suspects, ApplyHits, SuspectedAt, Covers, SamePair, AllHits;
    var hits, counts := AllHits(g.sets, g.questions, classify), (q: int) => Occurrences(g.sets, q);
    var suspects := Suspects(g, hits, counts);
    assert hits[..|hits|] == hits;
    forall r ensures r in suspects <==>
        exists k: nat :: k < |hits| && SuspectedAt(g, hits, counts, k) && r == (hits[k].a, hits[k].b) {
      SuspectsAt(g, hits, counts, |hits|, r);
    }
    SuspectedInside(g, hits, counts);
    ListedIff(g.pairs + suspects, p);
    ListedIff(UnionPairs(g.pairs + suspects), p);
    UnionCovers(g.pairs + suspects, p);
    ListedConcat(g.pairs, suspects, p);
  }

  lemma {:induction false} SuspectedInside(g: QGraph, hits: seq<Hit>, counts: int -> nat)
    ensures forall k: nat :: SuspectedAt(g, hits, counts, k) ==> k < |hits|
  {
  }

  /** With partial proofs only, the gated graph's pair list covers exactly what was suspected before and the classified
      pairs. */
  lemma {:induction false} PairsExactly(g: QGraph, classify: Classifier, p: (int, int))
    requires forall h :: Classified(g.sets, g.questions, classify, h) ==> h.arm.D?
    ensures Listed(Gate(g, classify).pairs, p) <==>
              Listed(g.pairs, p) || exists h :: Classified(g.sets, g.questions, classify, h) && SamePair((h.a, h.b), p)
  {
    hide UnionPairs, Suspects, ApplyHits, Classified, Covers, SamePair;
    var hits, counts := AllHits(g.sets, g.questions, classify), (q: int) => Occurrences(g.sets, q);
    var suspects := Suspects(g, hits, counts);
    forall h ensures h in hits <==> Classified(g.sets, g.questions, classify, h) {
      AllHitsMember(g.sets, g.questions, classify, h);
    }
    HitsLive(g.sets, g.questions, classify);
    SuspectsAre(g, hits, counts);
    ListedIff(g.pairs + suspects, p);
    ListedIff(UnionPairs(g.pairs + suspects), p);
    UnionCovers(g.pairs + suspects, p);
    ListedConcat(g.pairs, suspects, p);
    if h :| Classified(g.sets, g.questions, classify, h) && SamePair((h.a, h.b), p) { assert (h.a, h.b) in suspects; }
  }

  lemma {:induction false} HitsLive(sets: seq<OutcomeSet>, questions: map<int, set<int>>, classify: Classifier)
    ensures forall h :: h in AllHits(sets, questions, classify) ==> h.a in questions && h.b in questions
  {
    hide AllHits;
    forall h | h in AllHits(sets, questions, classify) ensures h.a in questions && h.b in questions {
      AllHitsMember(sets, questions, classify, h);
    }
  }

  lemma {:induction false} SuspectsAre(g: QGraph, hits: seq<Hit>, counts: int -> nat)
    requires OnlyD(hits) && forall h :: h in hits ==> h.a in g.questions && h.b in g.questions
    ensures forall p :: p in Suspects(g, hits, counts) <==> exists h :: h in hits && p == (h.a, h.b)
  {
    hide ApplyHits;
    if hits != [] {
      var m := |hits| - 1;
      assert hits == hits[..m] + [hits[m]] && hits[m] in hits;
      SuspectsAre(g, hits[..m], counts);
      OnlyDKeepsQuestions(g, hits[..m], counts);
    }
  }
}
