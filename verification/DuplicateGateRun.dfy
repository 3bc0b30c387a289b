/** The duplicate-partition gate as a whole (services/arb-solver/src/graph/duplicate-gate.ts, lines 117-186): what a
    run of hits does to worlds and to sets, and the in-place code that performs it. */
module DuplicateGateRun {
  import opened Wrappers
  import opened Graph
  import opened Omega
  import opened BeltGraph
  import opened DuplicateGate
  import opened SolveCore

  /** Twins of full proof are different questions that resolve alike in w. */
  ghost predicate TwinsAgree(hits: seq<Hit>, w: World) {
    forall h :: h in hits && h.arm.C? ==> h.a != h.b && Agree(w, h.a, h.b)
  }

  lemma {:induction false} HitKeepsWorld(g: QGraph, h: Hit, counts: int -> nat, w: World)
    requires Admits(g, w) && (h.arm.C? ==> h.a != h.b && Agree(w, h.a, h.b))
    ensures ApplyHit(g, h, counts).questions.Keys <= g.questions.Keys
    ensures Admits(ApplyHit(g, h, counts), Restrict(w, ApplyHit(g, h, counts).questions.Keys))
  {
    hide Admits, Agree, DropAll, RemapSets, RemapEdges;
    AdmitsKeys(g, w);
    RestrictAll(w);
    if h.a in g.questions && h.b in g.questions {
      if h.arm.C? {
        CollapseKeepsAgreeing(g, h.a, h.b, w);
        assert Collapse(g, h.a, h.b).questions.Keys == w.Keys - {h.b};
      } else {
        DropEnlarges(g, h.a, h.b, counts(h.a), counts(h.b));
      }
    }
  }

  lemma {:induction false} AdmitsKeys(g: QGraph, w: World)
    requires Admits(g, w)
    ensures w.Keys == g.questions.Keys
  {
  }

  /** The gate keeps every world in which its fully proved twins agree, whatever mixture of arms it applies
      and in whatever order. */
  lemma {:induction false} GateKeepsWorlds(g: QGraph, hits: seq<Hit>, counts: int -> nat, w: World)
    requires Admits(g, w) && TwinsAgree(hits, w)
    ensures var g' := ApplyHits(g, hits, counts);
            g'.questions.Keys <= g.questions.Keys && Admits(g', Restrict(w, g'.questions.Keys))
  {
    hide Admits, ApplyHit;
    AdmitsKeys(g, w);
    RestrictAll(w);
    if hits != [] {
      var m := |hits| - 1;
      var before, h := ApplyHits(g, hits[..m], counts), hits[m];
      assert h in hits && hits == hits[..m] + [h];
      GateKeepsWorlds(g, hits[..m], counts, w);
      var x := Restrict(w, before.questions.Keys);
      if h.a in before.questions && h.b in before.questions && h.arm.C? {
        assert Agree(x, h.a, h.b);
      } else if h.arm.C? {
        SkippedHit(before, h, counts);
        RestrictAll(x);
        return;
      }
      HitKeepsWorld(before, h, counts, x);
      RestrictTwice(w, before.questions.Keys, ApplyHit(before, h, counts).questions.Keys);
    }
  }

  lemma {:induction false} SkippedHit(g: QGraph, h: Hit, counts: int -> nat)
    requires h.a !in g.questions || h.b !in g.questions
    ensures ApplyHit(g, h, counts) == g
  {
  }

  ghost predicate OnlyD(hits: seq<Hit>) {
    forall h :: h in hits ==> h.arm.D?
  }

  /** With partial proofs only, the gate just enlarges Ω. */
  lemma {:induction false} GateEnlarges(g: QGraph, hits: seq<Hit>, counts: int -> nat)
    requires OnlyD(hits)
    ensures Enlarges(g, ApplyHits(g, hits, counts)) && ApplyHits(g, hits, counts).questions == g.questions
  {
    hide Admits;
    OnlyDKeepsQuestions(g, hits, counts);
    forall w | Admits(g, w) ensures Admits(ApplyHits(g, hits, counts), Restrict(w, g.questions.Keys)) {
      GateKeepsWorlds(g, hits, counts, w);
    }
  }

  lemma {:induction false} OnlyDKeepsQuestions(g: QGraph, hits: seq<Hit>, counts: int -> nat)
    requires OnlyD(hits)
    ensures ApplyHits(g, hits, counts).questions == g.questions
    ensures |ApplyHits(g, hits, counts).sets| == |g.sets|
  {
    if hits != [] {
      var m := |hits| - 1;
      assert hits == hits[..m] + [hits[m]] && hits[m] in hits;
      OnlyDKeepsQuestions(g, hits[..m], counts);
    }
  }

  // ---------- After Arm D, no categorical set keeps both ends ----------

  ghost predicate Separated(os: OutcomeSet, a: int, b: int) {
    os.setType.Categorical? ==> !(a in os.slots && b in os.slots)
  }

  lemma {:induction false} DropSeparates(os: OutcomeSet, a: int, b: int, aSets: nat, bSets: nat)
    ensures Separated(DropFrom(os, a, b, aSets, bSets), a, b)
    ensures forall x, y :: Separated(os, x, y) ==> Separated(DropFrom(os, a, b, aSets, bSets), x, y)
  {
    hide Remove;
    var d := DropOf(os.slots, a, b, aSets, bSets);
    forall x ensures x in Remove(os.slots, d) <==> x in os.slots && x != d { RemoveMember(os.slots, d, x); }
  }

  /** Holds at any point of an Arm D run: earlier pairs stay apart while later ones are separated. */
  lemma {:induction false} HitsSeparate(g: QGraph, hits: seq<Hit>, counts: int -> nat, h: Hit, i: nat)
    requires OnlyD(hits) && h in hits && h.a in g.questions && h.b in g.questions && i < |g.sets|
    ensures |ApplyHits(g, hits, counts).sets| == |g.sets|
    ensures Separated(ApplyHits(g, hits, counts).sets[i], h.a, h.b)
  {
    hide Separated, DropFrom;
    var m := |hits| - 1;
    var last := hits[m];
    assert hits == hits[..m] + [last] && last in hits;
    OnlyDKeepsQuestions(g, hits[..m], counts);
    OnlyDKeepsQuestions(g, hits, counts);
    var before := ApplyHits(g, hits[..m], counts);
    if last.a in before.questions && last.b in before.questions {
      DropSeparates(before.sets[i], last.a, last.b, counts(last.a), counts(last.b));
    }
    if h != last {
      HitsSeparate(g, hits[..m], counts, h, i);
    }
  }

  /** The hits are the classified pairs of live slots of a categorical set, earlier slot first. */
  ghost predicate Classified(sets: seq<OutcomeSet>, questions: map<int, set<int>>, classify: Classifier, h: Hit) {
    && h.a in questions && h.b in questions && classify(h.a, h.b) == Some(h.arm)
    && exists os :: os in sets && os.setType.Categorical? && CoSlots(os.slots, h.a, h.b)
  }

  ghost predicate CoSlots(slots: seq<int>, a: int, b: int) {
    exists i, j :: 0 <= i < j < |slots| && slots[i] == a && slots[j] == b
  }

  lemma {:induction false} HitsFromMember(slots: seq<int>, questions: map<int, set<int>>, classify: Classifier, i: nat,
                                          k: nat, h: Hit)
    requires i < |slots| && i + 1 <= k <= |slots|
    ensures h in HitsFrom(slots, questions, classify, i, k) <==>
            h.a == slots[i] && h.a in questions && h.b in questions && classify(h.a, h.b) == Some(h.arm) &&
            exists j :: i < j < k && slots[j] == h.b
    decreases k
  {
    if k > i + 1 {
      HitsFromMember(slots, questions, classify, i, k - 1, h);
    }
  }

  lemma {:induction false} HitsInMember(slots: seq<int>, questions: map<int, set<int>>, classify: Classifier, i: nat,
                                        h: Hit)
    requires i <= |slots|
    ensures h in HitsIn(slots, questions, classify, i) <==>
            h.a in questions && h.b in questions && classify(h.a, h.b) == Some(h.arm) &&
            exists p, j :: 0 <= p < i && p < j < |slots| && slots[p] == h.a && slots[j] == h.b
  {
    hide HitsFrom;
    if i > 0 {
      HitsInMember(slots, questions, classify, i - 1, h);
      HitsFromMember(slots, questions, classify, i - 1, |slots|, h);
    }
  }

  lemma {:induction false} AllHitsMember(sets: seq<OutcomeSet>, questions: map<int, set<int>>, classify: Classifier,
                                         h: Hit)
    ensures h in AllHits(sets, questions, classify) <==> Classified(sets, questions, classify, h)
  {
    hide HitsIn, CoSlots;
    if sets != [] {
      var m := |sets| - 1;
      AllHitsMember(sets[..m], questions, classify, h);
      assert sets == sets[..m] + [sets[m]];
      SetHits(sets[m].slots, questions, classify, h);
    }
  }

  lemma {:induction false} SetHits(slots: seq<int>, questions: map<int, set<int>>, classify: Classifier, h: Hit)
    ensures h in HitsIn(slots, questions, classify, |slots|) <==>
            h.a in questions && h.b in questions && classify(h.a, h.b) == Some(h.arm) && CoSlots(slots, h.a, h.b)
  {
    HitsInMember(slots, questions, classify, |slots|, h);
  }

  /** When every pair the graph itself classifies is of the partial kind, the gated graph has the same questions,
      admits every world the graph did, and keeps both ends of a classified pair in no categorical set. */
  lemma {:induction false} PartialGate(g: QGraph, classify: Classifier)
    requires forall h :: Classified(g.sets, g.questions, classify, h) ==> h.arm.D?
    ensures Enlarges(g, Gate(g, classify)) && Gate(g, classify).questions == g.questions
    ensures forall h, os :: Classified(g.sets, g.questions, classify, h) && os in Gate(g, classify).sets ==>
              Separated(os, h.a, h.b)
  {
    hide Admits, Separated, UnionPairs, Suspects;
    var hits, counts := AllHits(g.sets, g.questions, classify), (q: int) => Occurrences(g.sets, q);
    forall h | h in hits ensures h.arm.D? { AllHitsMember(g.sets, g.questions, classify, h); }
    GateEnlarges(g, hits, counts);
    OnlyDKeepsQuestions(g, hits, counts);
    var applied := ApplyHits(g, hits, counts);
    PairsAside(g, applied, Gate(g, classify));
    forall h, os | Classified(g.sets, g.questions, classify, h) && os in Gate(g, classify).sets
      ensures Separated(os, h.a, h.b) {
      AllHitsMember(g.sets, g.questions, classify, h);
      var i :| 0 <= i < |applied.sets| && applied.sets[i] == os;
      HitsSeparate(g, hits, counts, h, i);
    }
  }

  /** Suspect pairs say nothing about worlds. */
  lemma {:induction false} PairsAside(g: QGraph, a: QGraph, b: QGraph)
    requires Enlarges(g, a) && a.questions == b.questions && a.sets == b.sets && a.edges == b.edges
    ensures Enlarges(g, b)
  {
  }

  // ---------- Markets ----------

  lemma {:induction false} HitKeepsMarkets(g: QGraph, h: Hit, counts: int -> nat)
    requires h.arm.C? ==> h.a != h.b
    ensures Markets(ApplyHit(g, h, counts).questions) == Markets(g.questions)
  {
    hide Markets, Collapse, DropAll;
    if h.a in g.questions && h.b in g.questions && h.arm.C? { CollapseKeepsMarkets(g, h.a, h.b); }
  }

  lemma {:induction false} HitsKeepMarkets(g: QGraph, hits: seq<Hit>, counts: int -> nat)
    requires forall h :: h in hits && h.arm.C? ==> h.a != h.b
    ensures Markets(ApplyHits(g, hits, counts).questions) == Markets(g.questions)
  {
    hide ApplyHit, Markets;
    if hits != [] {
      var m := |hits| - 1;
      assert hits == hits[..m] + [hits[m]] && hits[m] in hits;
      HitsKeepMarkets(g, hits[..m], counts);
      HitKeepsMarkets(ApplyHits(g, hits[..m], counts), hits[m], counts);
    }
  }

  /** Whatever is collapsed, demoted or dropped, no market leaves the graph, as long as no full proof is of a question
      with itself. */
  lemma {:induction false} GateKeepsMarkets(g: QGraph, classify: Classifier)
    requires forall h :: Classified(g.sets, g.questions, classify, h) && h.arm.C? ==> h.a != h.b
    ensures Markets(Gate(g, classify).questions) == Markets(g.questions)
  {
    hide ApplyHits, AllHits, Classified, Suspects, UnionPairs, Markets;
    var hits, counts := AllHits(g.sets, g.questions, classify), (q: int) => Occurrences(g.sets, q);
    forall h | h in hits && h.arm.C? ensures h.a != h.b { AllHitsMember(g.sets, g.questions, classify, h); }
    HitsKeepMarkets(g, hits, counts);
  }

  /** No categorical set lists a question of the graph twice, as the unique key of outcome_set_slots (docker/init.sql,
      line 964) ensures. */
  ghost predicate NoRepeats(sets: seq<OutcomeSet>, qs: set<int>) {
    forall os, q :: os in sets && os.setType.Categorical? && q in qs ==> !CoSlots(os.slots, q, q)
  }

  lemma {:induction false} DistinctNoRepeats(sets: seq<OutcomeSet>, qs: set<int>)
    requires forall os :: os in sets ==> Distinct(os.slots)
    ensures NoRepeats(sets, qs)
  {
  }

  lemma {:induction false} NoRepeatsKeeps(g: QGraph, classify: Classifier)
    requires NoRepeats(g.sets, g.questions.Keys)
    ensures Markets(Gate(g, classify).questions) == Markets(g.questions)
  {
    hide CoSlots, Markets, Gate;
    GateKeepsMarkets(g, classify);
  }

  ghost predicate KeepsMarkets(g: QGraph, questions: map<int, set<int>>, classify: Classifier) {
    Markets(Gate(g.(questions := questions), classify).questions) == Markets(questions)
  }

  /** The gate keeps the markets of the graph's questions, whatever they are and whatever the classifier says, if
      and only if no categorical set lists one of those questions twice. */
  lemma {:induction false} GateKeepsMarketsIff(g: QGraph)
    ensures (forall questions: map<int, set<int>>, classify: Classifier ::
               questions.Keys == g.questions.Keys ==> KeepsMarkets(g, questions, classify)) <==>
            NoRepeats(g.sets, g.questions.Keys)
  {
    hide Gate, Markets, CoSlots;
    if NoRepeats(g.sets, g.questions.Keys) {
      forall questions: map<int, set<int>>, classify: Classifier | questions.Keys == g.questions.Keys
        ensures KeepsMarkets(g, questions, classify)
      {
        NoRepeatsKeeps(g.(questions := questions), classify);
      }
    } else {
      var os, a :| os in g.sets && os.setType.Categorical? && a in g.questions.Keys && CoSlots(os.slots, a, a);
      var questions := map q | q in g.questions :: if q == a then {0} else {};
      assert questions.Keys == g.questions.Keys;
      LoneMarketLost(g.(questions := questions), os, a);
      assert !KeepsMarkets(g, questions, OwnTwin(a));
    }
  }

  /** Says full proof of a with itself, and nothing else. */
  function OwnTwin(a: int): Classifier {
    (x, y) => if x == a && y == a then Some(C) else None
  }

  lemma {:induction false} LoneMarketLost(g: QGraph, os: OutcomeSet, a: int)
    requires os in g.sets && os.setType.Categorical? && CoSlots(os.slots, a, a)
    requires a in g.questions && forall q :: q in g.questions ==> g.questions[q] == if q == a then {0} else {}
    ensures Markets(Gate(g, OwnTwin(a)).questions) != Markets(g.questions)
  {
    hide Gate, CoSlots;
    assert forall h :: Classified(g.sets, g.questions, OwnTwin(a), h) ==> h.a == h.b;
    RepeatedSlotVanishes(g, OwnTwin(a), os, a);
    assert 0 in g.questions[a] && 0 in Markets(g.questions);
    assert 0 !in OtherMarkets(g.questions, a);
  }

  // ---------- A slot listed twice ----------

  lemma {:induction false} QuestionsShrink(g: QGraph, h: Hit, counts: int -> nat)
    ensures ApplyHit(g, h, counts).questions.Keys <= g.questions.Keys
    ensures h.arm.C? && h.a == h.b ==> h.a !in ApplyHit(g, h, counts).questions
  {
  }

  lemma {:induction false} SelfHitRemoves(g: QGraph, hits: seq<Hit>, counts: int -> nat, a: int)
    requires Hit(a, a, C) in hits
    ensures a !in ApplyHits(g, hits, counts).questions
  {
    hide ApplyHit;
    var m := |hits| - 1;
    QuestionsShrink(ApplyHits(g, hits[..m], counts), hits[m], counts);
    if hits[m] != Hit(a, a, C) {
      assert hits == hits[..m] + [hits[m]];
      SelfHitRemoves(g, hits[..m], counts, a);
    }
  }

  /** What the questions other than a own. */
  function OtherMarkets(questions: map<int, set<int>>, a: int): set<int> {
    Markets(questions - {a})
  }

  lemma {:induction false} OthersOnly(g: QGraph, h: Hit, counts: int -> nat, a: int)
    requires h.arm.C? && (h.a == a || h.b == a) ==> h.a == h.b
    ensures OtherMarkets(ApplyHit(g, h, counts).questions, a) <= OtherMarkets(g.questions, a)
  {
    var before, after := g.questions - {a}, ApplyHit(g, h, counts).questions - {a};
    forall m | m in Markets(after) ensures m in Markets(before) {
      var q :| q in after && m in after[q];
      if h.arm.C? && h.a in g.questions && h.b in g.questions && q == h.a {
        var owner := if m in g.questions[h.a] then h.a else h.b;
        assert owner in before && m in before[owner];
      } else {
        assert q in before && before[q] == after[q];
      }
    }
  }

  lemma {:induction false} OthersNeverGain(g: QGraph, hits: seq<Hit>, counts: int -> nat, a: int)
    requires forall h :: h in hits && h.arm.C? && (h.a == a || h.b == a) ==> h.a == h.b
    ensures OtherMarkets(ApplyHits(g, hits, counts).questions, a) <= OtherMarkets(g.questions, a)
  {
    hide ApplyHit, OtherMarkets;
    if hits != [] {
      var m := |hits| - 1;
      assert hits == hits[..m] + [hits[m]] && hits[m] in hits;
      OthersNeverGain(g, hits[..m], counts, a);
      OthersOnly(ApplyHits(g, hits[..m], counts), hits[m], counts, a);
    }
  }

  /** What bars the other inputs: a question that a categorical set listed twice, proved to be its own twin, would
      leave the gated graph, and unless some other full proof moved them first, the markets it alone had with it. */
  lemma {:induction false} RepeatedSlotVanishes(g: QGraph, classify: Classifier, os: OutcomeSet, a: int)
    requires os in g.sets && os.setType.Categorical? && CoSlots(os.slots, a, a) && a in g.questions &&
             classify(a, a) == Some(C)
    ensures a !in Gate(g, classify).questions
    ensures (forall h :: Classified(g.sets, g.questions, classify, h) && h.arm.C? && (h.a == a || h.b == a) ==>
                           h.a == h.b) ==>
            Markets(Gate(g, classify).questions) <= OtherMarkets(g.questions, a)
  {
    hide ApplyHits, AllHits, UnionPairs, Suspects, CoSlots, Markets;
    var hits, counts := AllHits(g.sets, g.questions, classify), (q: int) => Occurrences(g.sets, q);
    AllHitsMember(g.sets, g.questions, classify, Hit(a, a, C));
    SelfHitRemoves(g, hits, counts, a);
    if forall h :: Classified(g.sets, g.questions, classify, h) && h.arm.C? && (h.a == a || h.b == a) ==> h.a == h.b {
      forall h | h in hits && h.arm.C? && (h.a == a || h.b == a) ensures h.a == h.b {
        AllHitsMember(g.sets, g.questions, classify, h);
      }
      OthersNeverGain(g, hits, counts, a);
      assert ApplyHits(g, hits, counts).questions - {a} == ApplyHits(g, hits, counts).questions;
    }
  }
}
