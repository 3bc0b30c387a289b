/** Exactly what the loader's filters and the belts take out of a graph (services/arb-solver/src/graph/loader.ts,
    lines 293-344; services/arb-solver/src/graph/independent-bundle-belt.ts, lines 81-140;
    services/arb-solver/src/graph/intra-set-containment-belt.ts, lines 130-341): no wall more than the facts, the
    tells and the prices refute, and none less. */
module BeltExact {
  import opened Wrappers
  import opened Graph
  import opened Omega
  import opened BeltGraph
  import opened DuplicateGate
  import opened MutexComponents
  import opened ContainmentBelt
  import opened ContainmentBeltCode
  import opened BeltPipeline

  // ---------- Live filters ----------

  /** The live slots stay in their order. */
  lemma {:induction false} KeptInOrder(s: seq<int>, keep: set<int>, i: nat, j: nat) returns (p: nat, r: nat)
    requires i < j < |Keep(s, keep)|
    ensures p < r < |s| && s[p] == Keep(s, keep)[i] && s[r] == Keep(s, keep)[j]
  {
    var m := |s| - 1;
    KeepSnoc(s[..m], s[m], keep);
    assert s == s[..m] + [s[m]];
    if j < |Keep(s[..m], keep)| {
      p, r := KeptInOrder(s[..m], keep, i, j);
    } else {
      assert Keep(s[..m], keep)[i] in Keep(s[..m], keep);
      KeepMember(s[..m], keep, Keep(s[..m], keep)[i]);
      p :| 0 <= p < m && s[p] == Keep(s[..m], keep)[i];
      r := m;
    }
  }

  ghost predicate AllLive(os: OutcomeSet, live: set<int>) {
    forall q :: q in os.slots ==> q in live
  }

  /** A filtered set is a stored one that has a live slot (or no slots at all), cut down to its live slots, and
      still Σ = 1 only if it was and lost none. */
  ghost predicate CutDown(os: OutcomeSet, x: OutcomeSet, live: set<int>) {
    && (os.slots == [] || exists q :: q in os.slots && q in live)
    && x.setId == os.setId && x.setType == os.setType && x.slots == Keep(os.slots, live)
    && x.exhaustive == (os.exhaustive && AllLive(os, live))
  }

  lemma {:induction false} LiveSetCases(os: OutcomeSet, live: set<int>, kept: seq<int>)
    requires kept == Keep(os.slots, live)
    requires (|kept| == |os.slots| <==> AllLive(os, live)) && (kept == [] <==> forall q :: q in os.slots ==> q !in live)
    ensures AllLive(os, live) ==> LiveSet(os, live) == [os]
    ensures !AllLive(os, live) && kept == [] ==> LiveSet(os, live) == []
    ensures !AllLive(os, live) && kept != [] ==> LiveSet(os, live) == [os.(slots := kept, exhaustive := false)]
  {
    hide Keep;
  }

  lemma {:induction false} CutDownIs(os: OutcomeSet, x: OutcomeSet, live: set<int>, kept: seq<int>)
    requires kept == Keep(os.slots, live) && (kept == [] <==> forall q :: q in os.slots ==> q !in live)
    ensures CutDown(os, x, live) <==>
              (os.slots == [] || kept != []) && x ==
                OutcomeSet(os.setId, os.setType, kept, os.exhaustive && AllLive(os, live))
  {
    hide Keep;
  }

  lemma {:induction false} LiveSetIs(os: OutcomeSet, x: OutcomeSet, live: set<int>)
    ensures x in LiveSet(os, live) <==> CutDown(os, x, live)
  {
    hide Keep, LiveSet, CutDown;
    var kept := Keep(os.slots, live);
    KeepWhole(os.slots, live);
    forall q ensures q in kept <==> q in os.slots && q in live { KeepMember(os.slots, live, q); }
    if kept != [] { assert kept[0] in kept && kept[0] in os.slots && kept[0] in live; }
    assert (forall q :: q in os.slots ==> q !in live) ==> kept == [];
    LiveSetCases(os, live, kept);
    CutDownIs(os, x, live, kept);
    if AllLive(os, live) {
      KeepAll(os.slots, live);
      if os.slots != [] { assert os.slots[0] in kept; }
    }
  }

  lemma {:induction false} FilteredIff(g: QGraph, live: map<int, set<int>>, x: OutcomeSet)
    ensures x in Filtered(g, live).sets <==> exists os :: os in g.sets && CutDown(os, x, live.Keys)
  {
    hide LiveSet, CutDown, LiveSets;
    LiveSetsMember(g.sets, live.Keys, x);
    if os :| os in g.sets && x in LiveSet(os, live.Keys) { LiveSetIs(os, x, live.Keys); }
    if os :| os in g.sets && CutDown(os, x, live.Keys) { LiveSetIs(os, x, live.Keys); }
  }

  // ---------- The bundle belt ----------

  /** Two slots with facts, one of them native independent, and no slot over which anything claims mutual exclusion. */
  ghost predicate IndependentBundle(os: OutcomeSet, factsOf: FactsOf) {
    && os.setType.Categorical?
    && (exists i, j :: 0 <= i < j < |os.slots| && factsOf(os.slots[i]).Some? && factsOf(os.slots[j]).Some?)
    && (exists q :: q in os.slots && factsOf(q).Some? && factsOf(q).value.nativeIndependent)
    && (forall q :: q in os.slots && factsOf(q).Some? ==>
          !factsOf(q).value.hasNegrisk && !factsOf(q).value.hasFixtureKind && !factsOf(q).value.hasValue)
  }

  lemma {:induction false} KnownSome(slots: seq<int>, factsOf: FactsOf)
    ensures Known(slots, factsOf) >= 1 <==> exists i :: 0 <= i < |slots| && factsOf(slots[i]).Some?
  {
    if slots != [] {
      var m := |slots| - 1;
      KnownSome(slots[..m], factsOf);
      if i :| 0 <= i < m && factsOf(slots[i]).Some? { assert slots[..m][i] == slots[i]; }
      if i :| 0 <= i < |slots[..m]| && factsOf(slots[..m][i]).Some? { assert factsOf(slots[i]).Some?; }
    }
  }

  ghost predicate TwoKnown(slots: seq<int>, factsOf: FactsOf) {
    exists i, j :: 0 <= i < j < |slots| && factsOf(slots[i]).Some? && factsOf(slots[j]).Some?
  }

  lemma {:induction false} KnownTwo(slots: seq<int>, factsOf: FactsOf)
    ensures Known(slots, factsOf) >= 2 <==> TwoKnown(slots, factsOf)
  {
    if slots != [] {
      var m := |slots| - 1;
      KnownTwo(slots[..m], factsOf);
      KnownSome(slots[..m], factsOf);
      if TwoKnown(slots, factsOf) {
        var i, j :| 0 <= i < j < |slots| && factsOf(slots[i]).Some? && factsOf(slots[j]).Some?;
        assert slots[..m][i] == slots[i];
        if j < m { assert slots[..m][j] == slots[j]; }
      }
      if TwoKnown(slots[..m], factsOf) {
        var i, j :| 0 <= i < j < m && factsOf(slots[..m][i]).Some? && factsOf(slots[..m][j]).Some?;
        assert factsOf(slots[i]).Some? && factsOf(slots[j]).Some?;
      }
      if factsOf(slots[m]).Some? && Known(slots[..m], factsOf) >= 1 {
        var i :| 0 <= i < m && factsOf(slots[..m][i]).Some?;
        assert factsOf(slots[i]).Some?;
      }
    }
  }

  /** The bundle belt takes out the independent bundles, and every set that shares the id of one, and no other. */
  lemma {:induction false} BundledIff(g: QGraph, factsOf: FactsOf, os: OutcomeSet)
    ensures os in Bundled(g, factsOf).sets <==>
              os in g.sets && !exists t :: t in g.sets && t.setId == os.setId && IndependentBundle(t, factsOf)
  {
    hide Refuses, IndependentBundle, KeepSets;
    KeepSetsMember(g.sets, BundleIds(g.sets, factsOf), os);
    forall t: OutcomeSet
      ensures t.setType.Categorical? && Refuses(t.slots, factsOf) <==> IndependentBundle(t, factsOf)
    {
      RefusesIs(t, factsOf);
    }
  }

  lemma {:induction false} RefusesIs(os: OutcomeSet, factsOf: FactsOf)
    ensures os.setType.Categorical? && Refuses(os.slots, factsOf) <==> IndependentBundle(os, factsOf)
  {
    hide Known;
    KnownTwo(os.slots, factsOf);
  }

  // ---------- The tells ----------

  /** One interval inside another, or a win and a threshold, of one participant. */
  predicate GivesAway(a: SlotFacts, b: SlotFacts) {
    && a.participant.Some? && a.participant == b.participant
    && ((a.direction.Some? && a.direction == b.direction && a.value.Some? && b.value.Some? && a.value != b.value)
        || (a.isWinner && b.value.Some?) || (b.isWinner && a.value.Some?))
  }

  lemma {:induction false} TellIs(view: View, a: int, b: int)
    ensures Tell(view, a, b) <==> GivesAway(view.factsOf(a), view.factsOf(b))
  {
  }

  // ---------- The prices ----------

  function Total(vs: seq<real>): real {
    if vs == [] then 0.0 else Total(vs[..|vs| - 1]) + vs[|vs| - 1]
  }

  /** One positive YES bid of one of its markets for each slot, or 0. */
  ghost predicate Picks(questions: map<int, set<int>>, bidOf: int -> Option<real>, slots: seq<int>, vs: seq<real>) {
    |vs| == |slots| && forall i :: 0 <= i < |vs| ==> Pick(questions, bidOf, slots[i], vs[i])
  }

  ghost predicate Pick(questions: map<int, set<int>>, bidOf: int -> Option<real>, q: int, v: real) {
    v == 0.0 || (q in questions && exists m :: m in questions[q] && bidOf(m) == Some(v) && v > 0.0)
  }

  lemma {:induction false} BestPick(questions: map<int, set<int>>, bidOf: int -> Option<real>, q: int)
    ensures Pick(questions, bidOf, q, QuestionBid(questions, bidOf, q))
    ensures forall v :: Pick(questions, bidOf, q, v) ==> v <= QuestionBid(questions, bidOf, q)
  {
    hide Bids;
    if q in questions {
      var best := BestBid(questions[q], bidOf);
      forall v ensures v in Bids(questions[q], bidOf) <==>
               exists m :: m in questions[q] && bidOf(m) == Some(v) && v > 0.0 {
        BidMember(questions[q], bidOf, v);
      }
      if Bids(questions[q], bidOf) != {} { assert best in Bids(questions[q], bidOf); }
    }
  }

  lemma {:induction false} BidMember(markets: set<int>, bidOf: int -> Option<real>, v: real)
    ensures v in Bids(markets, bidOf) <==> exists m :: m in markets && bidOf(m) == Some(v) && v > 0.0
  {
    if m :| m in markets && bidOf(m) == Some(v) && v > 0.0 { assert bidOf(m).Some? && bidOf(m).value == v; }
  }

  lemma {:induction false} BestPicks(questions: map<int, set<int>>, bidOf: int -> Option<real>, slots: seq<int>)
    returns (vs: seq<real>)
    ensures Picks(questions, bidOf, slots, vs) && Total(vs) == SlotSum(questions, bidOf, slots)
  {
    hide Pick, QuestionBid;
    vs := [];
    if slots != [] {
      var m := |slots| - 1;
      var before := BestPicks(questions, bidOf, slots[..m]);
      BestPick(questions, bidOf, slots[m]);
      vs := before + [QuestionBid(questions, bidOf, slots[m])];
      assert vs[..m] == before;
    }
  }

  lemma {:induction false} NoBetterPicks(questions: map<int, set<int>>, bidOf: int -> Option<real>, slots: seq<int>,
                                         vs: seq<real>)
    requires Picks(questions, bidOf, slots, vs)
    ensures Total(vs) <= SlotSum(questions, bidOf, slots)
  {
    hide Pick, QuestionBid;
    if slots != [] {
      var m := |slots| - 1;
      NoBetterPicks(questions, bidOf, slots[..m], vs[..m]);
      BestPick(questions, bidOf, slots[m]);
    }
  }

  /** The order book refutes a clique: some choice of one bid per question adds up to more than 1 and the slack,
      which a caller can raise but not lower below 0.15. */
  ghost predicate Overbid(questions: map<int, set<int>>, view: View, slots: seq<int>) {
    view.yesBidOf.Some? && exists vs :: Picks(questions, view.yesBidOf.value, slots, vs) && Total(vs) > 1.15 &&
                                        Total(vs) > 1.0 + view.slack
  }

  lemma {:induction false} OverbidIff(questions: map<int, set<int>>, view: View, slots: seq<int>)
    ensures SlotPrice(questions, view, slots) <==> Overbid(questions, view, slots)
  {
    hide Picks;
    if view.yesBidOf.Some? {
      var vs := BestPicks(questions, view.yesBidOf.value, slots);
      if us :| Picks(questions, view.yesBidOf.value, slots, us) && Total(us) > 1.15 && Total(us) > 1.0 + view.slack {
        NoBetterPicks(questions, view.yesBidOf.value, slots, us);
      }
    }
  }

  // ---------- The containment belt ----------

  /** Two live slots give each other away. */
  ghost predicate SlotsTell(questions: map<int, set<int>>, view: View, slots: seq<int>) {
    exists i, j :: 0 <= i < j < |slots| && TellingSlots(questions, view, slots, i, j)
  }

  ghost predicate TellingSlots(questions: map<int, set<int>>, view: View, slots: seq<int>, i: nat, j: nat)
    requires i < j < |slots|
  {
    slots[i] in questions && slots[j] in questions && GivesAway(view.factsOf(slots[i]), view.factsOf(slots[j]))
  }

  /** Why a set goes: it is categorical, and its slots, its platforms or its prices refute it. */
  ghost predicate Refuted(g: QGraph, view: View, os: OutcomeSet) {
    && os.setType.Categorical?
    && (SlotsTell(g.questions, view, os.slots) || view.zeroOverlap(os.slots) || Overbid(g.questions, view, os.slots))
  }

  lemma {:induction false} KeepHas(s: seq<int>, keep: set<int>, p: nat, r: nat) returns (i: nat, j: nat)
    requires p < r < |s| && s[p] in keep && s[r] in keep
    ensures i < j < |Keep(s, keep)| && Keep(s, keep)[i] == s[p] && Keep(s, keep)[j] == s[r]
  {
    var m := |s| - 1;
    KeepSnoc(s[..m], s[m], keep);
    assert s == s[..m] + [s[m]];
    if r < m {
      i, j := KeepHas(s[..m], keep, p, r);
    } else {
      KeepMember(s[..m], keep, s[p]);
      assert s[p] == s[..m][p];
      i :| 0 <= i < |Keep(s[..m], keep)| && Keep(s[..m], keep)[i] == s[p];
      j := |Keep(s[..m], keep)|;
    }
  }

  lemma {:induction false} SlotsTellIff(questions: map<int, set<int>>, view: View, slots: seq<int>)
    ensures SlotTell(questions, view, slots) <==> SlotsTell(questions, view, slots)
  {
    hide Tell, GivesAway, Keep;
    var live := Keep(slots, questions.Keys);
    forall a, b ensures Tell(view, a, b) <==> GivesAway(view.factsOf(a), view.factsOf(b)) { TellIs(view, a, b); }
    if SlotTell(questions, view, slots) {
      var i, j :| 0 <= i < j < |live| && Tell(view, live[i], live[j]);
      var p, r := KeptInOrder(slots, questions.Keys, i, j);
      KeepMembers(slots, questions.Keys);
      assert live[i] in live && live[j] in live;
      assert TellingSlots(questions, view, slots, p, r);
    }
    if SlotsTell(questions, view, slots) {
      var p, r :| 0 <= p < r < |slots| && TellingSlots(questions, view, slots, p, r);
      var i, j := KeepHas(slots, questions.Keys, p, r);
      assert Tell(view, live[i], live[j]);
    }
  }

  lemma {:induction false} HitIs(g: QGraph, view: View, os: OutcomeSet)
    ensures SetHit(g.questions, view, os) <==> Refuted(g, view, os)
  {
    hide SlotTell, SlotsTell, SlotPrice, Overbid;
    SlotsTellIff(g.questions, view, os.slots);
    OverbidIff(g.questions, view, os.slots);
  }

  /** The belt takes out the refuted sets, and every set that shares the id of one, and no other. */
  lemma {:induction false} BeltedSetIff(g: QGraph, view: View, pairs: seq<(int, int)>, os: OutcomeSet)
    ensures os in Belted(g, view, pairs).sets <==>
              os in g.sets && !exists t :: t in g.sets && t.setId == os.setId && Refuted(g, view, t)
  {
    hide SetHit, Refuted, KeepSets;
    KeepSetsMember(g.sets, FreedIds(g, view), os);
    forall t ensures SetHit(g.questions, view, t) <==> Refuted(g, view, t) { HitIs(g, view, t); }
  }

  /** q and p are tied by exclusions: every set of questions closed under them that has the one has the other. */
  ghost predicate Tied(g: QGraph, q: int, p: int) {
    forall s: set<int> :: ExclusionClosed(g, s) && q in s ==> p in s
  }

  ghost predicate ExclusionClosed(g: QGraph, s: set<int>) {
    forall e :: e in g.edges && e.edgeType.MutualExclusion? ==> (e.ante in s <==> e.cons in s)
  }

  /** Two live questions tied to q give each other away. */
  ghost predicate TiedTell(g: QGraph, view: View, q: int) {
    exists a, b :: TellingTied(g, view, q, a, b)
  }

  ghost predicate TellingTied(g: QGraph, view: View, q: int, a: int, b: int) {
    && Tied(g, q, a) && Tied(g, q, b) && a != b && a in g.questions && b in g.questions
    && GivesAway(view.factsOf(a), view.factsOf(b))
  }

  /** The questions tied to q, at least two and each listed once, are bid up beyond what they can be together. */
  ghost predicate TiedOverbid(g: QGraph, view: View, q: int) {
    exists qids :: TiedListing(g, q, qids) && |qids| >= 2 && Overbid(g.questions, view, qids)
  }

  ghost predicate TiedListing(g: QGraph, q: int, qids: seq<int>) {
    Distinct(qids) && forall p :: p in qids <==> Tied(g, q, p)
  }

  /** Why an exclusion goes. */
  ghost predicate RefutedEdge(g: QGraph, view: View, e: Edge) {
    e in g.edges && e.edgeType.MutualExclusion? && (TiedTell(g, view, e.ante) || TiedOverbid(g, view, e.ante))
  }

  lemma {:induction false} TiedIsForced(g: QGraph, q: int, p: int)
    ensures Tied(g, q, p) <==> Forced(MutexOf(g.edges), q, p)
  {
    forall s: set<int> ensures ExclusionClosed(g, s) <==> ClosedUnder(MutexOf(g.edges), s) {
      forall e { MutexMember(g.edges, e); }
    }
  }

  /** The component of an end is what is tied to it. */
  lemma {:induction false} TiedIsComponent(g: QGraph, q: int, c: set<int>)
    requires IsComponent(MutexOf(g.edges), c) && q in c
    ensures forall p :: p in c <==> Tied(g, q, p)
  {
    hide Ends, Tied;
    var mutex := MutexOf(g.edges);
    forall p ensures p in c <==> Tied(g, q, p) {
      TiedIsForced(g, q, p);
      if p in c {
        forall s | ClosedUnder(mutex, s) && q in s ensures p in s { assert q in s * c; }
      }
    }
  }

  lemma {:induction false} ListOf(c: set<int>) returns (qids: seq<int>)
    ensures Distinct(qids) && SetOf(qids) == c && |qids| == |c|
    decreases |c|
  {
    qids := [];
    if c != {} {
      var q := SomeIn(c);
      var rest := ListOf(c - {q});
      assert q !in SetOf(rest);
      qids := rest + [q];
      assert SetOf(qids) == SetOf(rest) + {q};
    }
  }

  lemma {:induction false} GroupPriceIs(questions: map<int, set<int>>, view: View, c: set<int>, qids: seq<int>)
    requires Distinct(qids) && SetOf(qids) == c
    ensures Overbid(questions, view, qids) <==> view.yesBidOf.Some? &&
                                                BidSum(questions, view.yesBidOf.value, c) > Limit(view)
  {
    hide Picks, SlotSum, BidSum;
    OverbidIff(questions, view, qids);
    if view.yesBidOf.Some? { SumIsSet(questions, view.yesBidOf.value, qids); }
  }

  lemma {:induction false} DistinctSize(s: seq<int>)
    requires Distinct(s)
    ensures |SetOf(s)| == |s|
  {
    if s != [] {
      var m := |s| - 1;
      DistinctSize(s[..m]);
      assert SetOf(s) == SetOf(s[..m]) + {s[m]};
    }
  }

  lemma {:induction false} GroupTellIs(g: QGraph, view: View, q: int, c: set<int>)
    requires forall p :: p in c <==> Tied(g, q, p)
    ensures GroupTell(g.questions, view, c) <==> TiedTell(g, view, q)
    ensures TiedTell(g, view, q) ==> |c| >= 2
  {
    hide Tell, GivesAway, Tied;
    forall a, b ensures Tell(view, a, b) <==> GivesAway(view.factsOf(a), view.factsOf(b)) { TellIs(view, a, b); }
    if a, b :| a in c && b in c && a != b && a in g.questions && b in g.questions && Tell(view, a, b) {
      assert TellingTied(g, view, q, a, b);
    }
    if a, b :| TellingTied(g, view, q, a, b) { TwoIn(c, a, b); }
  }

  lemma {:induction false} TwoIn(c: set<int>, a: int, b: int)
    requires a in c && b in c && a != b
    ensures |c| >= 2
  {
    assert c == {a, b} + (c - {a, b});
  }

  lemma {:induction false} GroupPricedIs(g: QGraph, view: View, q: int, c: set<int>)
    requires forall p :: p in c <==> Tied(g, q, p)
    ensures |c| >= 2 && view.yesBidOf.Some? && BidSum(g.questions, view.yesBidOf.value, c) > Limit(view) <==>
              TiedOverbid(g, view, q)
  {
    hide Tied, Overbid, BidSum;
    if |c| >= 2 && view.yesBidOf.Some? && BidSum(g.questions, view.yesBidOf.value, c) > Limit(view) {
      var qids := ListOf(c);
      GroupPriceIs(g.questions, view, c, qids);
      assert forall p :: p in qids <==> p in SetOf(qids);
      assert TiedListing(g, q, qids);
    }
    if qids :| TiedListing(g, q, qids) && |qids| >= 2 && Overbid(g.questions, view, qids) {
      forall p ensures p in SetOf(qids) <==> p in c { assert p in qids <==> Tied(g, q, p); }
      DistinctSize(qids);
      GroupPriceIs(g.questions, view, c, qids);
    }
  }

  lemma {:induction false} GroupHitIs(g: QGraph, view: View, q: int, c: set<int>)
    requires IsComponent(MutexOf(g.edges), c) && q in c
    ensures GroupHit(g.questions, view, c) <==> TiedTell(g, view, q) || TiedOverbid(g, view, q)
  {
    hide IsComponent, GroupTell, BidSum, TiedTell, TiedOverbid, Tied;
    TiedIsComponent(g, q, c);
    GroupTellIs(g, view, q, c);
    GroupPricedIs(g, view, q, c);
  }

  lemma {:induction false} EdgeHitIs(g: QGraph, view: View, e: Edge)
    ensures e in g.edges && EdgeHit(g, view, e) <==> RefutedEdge(g, view, e)
  {
    hide IsComponent, GroupHit, TiedTell, TiedOverbid, ComponentOf, Ends;
    var mutex := MutexOf(g.edges);
    MutexMember(g.edges, e);
    if e in mutex {
      EndsMember(mutex, e.ante);
      EndHasComponent(mutex, e.ante);
      var c := ComponentOf(mutex, e.ante);
      EndsTogether(mutex, c, e);
      GroupHitIs(g, view, e.ante, c);
    }
    if EdgeHit(g, view, e) {
      var c :| IsComponent(mutex, c) && GroupHit(g.questions, view, c) && e.ante in c && e.cons in c;
      GroupHitIs(g, view, e.ante, c);
    }
  }

  lemma {:induction false} EndsTogether(edges: seq<Edge>, c: set<int>, e: Edge)
    requires IsComponent(edges, c) && e in edges && e.ante in c
    ensures e.cons in c
  {
  }

  /** The belt takes out the refuted exclusions, and every edge that shares the id of one, and no other. */
  lemma {:induction false} BeltedEdgeIff(g: QGraph, view: View, pairs: seq<(int, int)>, e: Edge)
    ensures e in Belted(g, view, pairs).edges <==>
              e in g.edges && !exists f :: RefutedEdge(g, view, f) && f.edgeId == e.edgeId
  {
    hide EdgeHit, RefutedEdge, KeepEdges;
    KeepEdgesMember(g.edges, DroppedIds(g, view), e);
    forall f ensures f in g.edges && EdgeHit(g, view, f) <==> RefutedEdge(g, view, f) { EdgeHitIs(g, view, f); }
  }

  // ---------- What the belt records ----------

  /** Two slots of a refuted set are recorded: those that give each other away, or all when none do. */
  ghost predicate SetRecords(g: QGraph, view: View, os: OutcomeSet, a: int, b: int) {
    && Refuted(g, view, os)
    && exists i, j :: 0 <= i < j < |os.slots| && os.slots[i] == a && os.slots[j] == b &&
                      (SlotsTell(g.questions, view, os.slots) ==> TellingSlots(g.questions, view, os.slots, i, j))
  }

  lemma {:induction false} SetRecordsIs(g: QGraph, view: View, os: OutcomeSet, k: (int, int))
    ensures k in SetKeys(g.questions, view, os) <==>
              exists a, b :: SetRecords(g, view, os, a, b) && PairKey((a, b)) == k
  {
    hide SlotTell, SlotsTell, SlotPrice, Overbid, PairKey, TellKeys, AllKeys, Keep;
    HitIs(g, view, os);
    SlotsTellIff(g.questions, view, os.slots);
    if SlotsTell(g.questions, view, os.slots) {
      TellKeysAre(g.questions, view, os.slots, k);
      if i, j :| 0 <= i < j < |os.slots| && TellingSlots(g.questions, view, os.slots, i, j) &&
                                         PairKey((os.slots[i], os.slots[j])) == k {
        if os.setType.Categorical? { assert SetRecords(g, view, os, os.slots[i], os.slots[j]); }
      }
    } else {
      AllKeysAre(os.slots, k);
      if i, j :| 0 <= i < j < |os.slots| && PairKey((os.slots[i], os.slots[j])) == k {
        if Refuted(g, view, os) { assert SetRecords(g, view, os, os.slots[i], os.slots[j]); }
      }
    }
  }

  lemma {:induction false} AllKeysAre(slots: seq<int>, k: (int, int))
    ensures k in AllKeys(slots) <==> exists i, j :: 0 <= i < j < |slots| && PairKey((slots[i], slots[j])) == k
  {
    hide PairKey;
  }

  lemma {:induction false} TellKeysAre(questions: map<int, set<int>>, view: View, slots: seq<int>, k: (int, int))
    ensures k in TellKeys(view, Keep(slots, questions.Keys)) <==>
              exists i, j :: 0 <= i < j < |slots| && TellingSlots(questions, view, slots, i, j) &&
                                                  PairKey((slots[i], slots[j])) == k
  {
    hide Tell, GivesAway, Keep, PairKey;
    var live := Keep(slots, questions.Keys);
    forall a, b ensures Tell(view, a, b) <==> GivesAway(view.factsOf(a), view.factsOf(b)) { TellIs(view, a, b); }
    if k in TellKeys(view, live) {
      var i, j :| 0 <= i < j < |live| && Tell(view, live[i], live[j]) && PairKey((live[i], live[j])) == k;
      var p, r := KeptInOrder(slots, questions.Keys, i, j);
      KeepMembers(slots, questions.Keys);
      assert live[i] in live && live[j] in live;
      assert TellingSlots(questions, view, slots, p, r);
    }
    if p, r :| 0 <= p < r < |slots| && TellingSlots(questions, view, slots, p, r) &&
                                    PairKey((slots[p], slots[r])) == k {
      var i, j := KeepHas(slots, questions.Keys, p, r);
      assert Tell(view, live[i], live[j]);
    }
  }

  /** Two questions tied to a refuted exclusion are recorded: those that give each other away, and all when the
      prices refute them. */
  ghost predicate EdgeRecords(g: QGraph, view: View, e: Edge, a: int, b: int) {
    && e in g.edges && e.edgeType.MutualExclusion? && a != b && Tied(g, e.ante, a) && Tied(g, e.ante, b)
    && (TellingTied(g, view, e.ante, a, b) || TiedOverbid(g, view, e.ante))
  }

  lemma {:induction false} EdgeRecordsIs(g: QGraph, view: View, e: Edge, k: (int, int))
    requires e in MutexOf(g.edges)
    ensures k in GroupKeys(g.questions, view, ComponentOf(MutexOf(g.edges), e.ante)) <==>
              exists a, b :: EdgeRecords(g, view, e, a, b) && PairKey((a, b)) == k
  {
    hide Ends, ComponentOf, Tied, PairKey, TiedOverbid, BidSum, Tell, GivesAway;
    var mutex, q := MutexOf(g.edges), e.ante;
    MutexMember(g.edges, e);
    EndsMember(mutex, q);
    EndHasComponent(mutex, q);
    var c := ComponentOf(mutex, q);
    TiedIsComponent(g, q, c);
    GroupPricedIs(g, view, q, c);
    forall a, b ensures Tell(view, a, b) <==> GivesAway(view.factsOf(a), view.factsOf(b)) { TellIs(view, a, b); }
    if k in GroupKeys(g.questions, view, c) {
      if k in GroupTellKeys(g.questions, view, c) {
        var a, b :| a in c && b in c && a != b && a in g.questions && b in g.questions && Tell(view, a, b) &&
                    PairKey((a, b)) == k;
        assert TellingTied(g, view, q, a, b) && EdgeRecords(g, view, e, a, b);
      } else {
        var a, b :| a in c && b in c && a != b && PairKey((a, b)) == k;
        assert EdgeRecords(g, view, e, a, b);
      }
    }
    if a, b :| EdgeRecords(g, view, e, a, b) && PairKey((a, b)) == k {
      TwoIn(c, a, b);
      if TellingTied(g, view, q, a, b) { assert PairKey((a, b)) in GroupTellKeys(g.questions, view, c); }
    }
  }

  /** The pairs the belt records, as unordered pairs, are exactly those of its refuted sets and exclusions. */
  lemma {:induction false} RecordedIff(g: QGraph, view: View, k: (int, int))
    ensures k in SuspectKeys(g, view) <==>
              || (exists os, a, b :: os in g.sets && SetRecords(g, view, os, a, b) && PairKey((a, b)) == k)
              || (exists e, a, b :: EdgeRecords(g, view, e, a, b) && PairKey((a, b)) == k)
  {
    hide SetKeys, GroupKeys, SetRecords, EdgeRecords, PairKey, ComponentOf;
    forall os { SetRecordsIs(g, view, os, k); }
    forall e | e in MutexOf(g.edges)
      ensures k in GroupKeys(g.questions, view, ComponentOf(MutexOf(g.edges), e.ante)) <==>
                exists a, b :: EdgeRecords(g, view, e, a, b) && PairKey((a, b)) == k
    {
      EdgeRecordsIs(g, view, e, k);
    }
    forall e, a, b | EdgeRecords(g, view, e, a, b) ensures e in MutexOf(g.edges) { RecordsMutex(g, view, e, a, b); }
    if k in SuspectKeys(g, view) {
      if os :| os in g.sets && k in SetKeys(g.questions, view, os) {
      } else {
        var e :| e in MutexOf(g.edges) && k in GroupKeys(g.questions, view, ComponentOf(MutexOf(g.edges), e.ante));
      }
    }
    if os, a, b :| os in g.sets && SetRecords(g, view, os, a, b) && PairKey((a, b)) == k {
      assert k in SetKeys(g.questions, view, os);
    }
    if e, a, b :| EdgeRecords(g, view, e, a, b) && PairKey((a, b)) == k {
      assert k in GroupKeys(g.questions, view, ComponentOf(MutexOf(g.edges), e.ante));
    }
  }

  lemma {:induction false} RecordsMutex(g: QGraph, view: View, e: Edge, a: int, b: int)
    requires EdgeRecords(g, view, e, a, b)
    ensures e in MutexOf(g.edges)
  {
    MutexMember(g.edges, e);
  }

  // ---------- The latch ----------

  /** Re-asserting the latch takes out the latched sets and the exclusions between latched pairs, and nothing else. */
  lemma {:induction false} LatchedIff(g: QGraph, latch: Latch, pairs: seq<(int, int)>, os: OutcomeSet, e: Edge)
    ensures os in Latched(g, latch, pairs).sets <==> os in g.sets && os.setId !in latch.setIds
    ensures e in Latched(g, latch, pairs).edges <==>
              e in g.edges &&
              !(e.edgeType.MutualExclusion? && (exists p :: p in latch.pairs && p == PairKey((e.ante, e.cons))))
  {
    hide KeepSets, KeepUnrefuted, PairKey;
    KeepSetsMember(g.sets, latch.setIds, os);
    UnrefutedMember(g.edges, latch, e);
  }

  // ---------- A run of the latch ----------

  /** A set of this id stood refuted in the graph step j started from. */
  ghost predicate FreedAt(steps: seq<BeltStep>, j: nat, id: int) {
    j < |steps| &&
    exists os :: os in steps[j].graph.sets && Refuted(steps[j].graph, steps[j].view, os) && os.setId == id
  }

  ghost predicate FreedBy(steps: seq<BeltStep>, n: nat, id: int) {
    exists j: nat :: j < n && FreedAt(steps, j, id)
  }

  lemma {:induction false} FreedIff(g: QGraph, view: View, id: int)
    ensures id in FreedIds(g, view) <==> exists os :: os in g.sets && Refuted(g, view, os) && os.setId == id
  {
    hide SetHit, Refuted;
    forall t ensures SetHit(g.questions, view, t) <==> Refuted(g, view, t) { HitIs(g, view, t); }
  }

  /** The latch holds exactly the ids of the sets that some earlier step found refuted. */
  lemma {:induction false} LatchedSetsIff(steps: seq<BeltStep>, n: nat, id: int)
    requires n <= |steps|
    ensures id in LatchAfter(steps, n).setIds <==> FreedBy(steps, n, id)
  {
    hide FreedAt, FreedIds, SuspectKeys, Refuted, KeepUnrefuted;
    if n > 0 {
      LatchedSetsIff(steps, n - 1, id);
      var step, latch := steps[n - 1], LatchAfter(steps, n - 1);
      var h := Latched(step.graph, latch, step.pairs);
      FreedIff(h, step.view, id);
      forall os ensures os in h.sets <==> os in step.graph.sets && os.setId !in latch.setIds {
        KeepSetsMember(step.graph.sets, latch.setIds, os);
      }
      forall os ensures Refuted(h, step.view, os) <==> Refuted(step.graph, step.view, os) {
        SameRefuted(h, step.graph, step.view, os);
      }
      FreedAtIs(steps, n - 1, id);
    }
  }

  lemma {:induction false} SameRefuted(g: QGraph, h: QGraph, view: View, os: OutcomeSet)
    requires g.questions == h.questions
    ensures Refuted(g, view, os) <==> Refuted(h, view, os)
  {
  }

  lemma {:induction false} FreedAtIs(steps: seq<BeltStep>, j: nat, id: int)
    requires j < |steps|
    ensures FreedAt(steps, j, id) <==>
              exists os :: os in steps[j].graph.sets && Refuted(steps[j].graph, steps[j].view, os) && os.setId == id
  {
  }

  /** The belt records the pair k. */
  ghost predicate Records(g: QGraph, view: View, k: (int, int)) {
    || (exists os, a, b :: os in g.sets && SetRecords(g, view, os, a, b) && PairKey((a, b)) == k)
    || (exists e, a, b :: EdgeRecords(g, view, e, a, b) && PairKey((a, b)) == k)
  }

  /** Step j recorded the pair k, in the graph as the latch then left it. */
  ghost predicate RecordedAt(steps: seq<BeltStep>, j: nat, k: (int, int)) {
    j < |steps| && Records(Latched(steps[j].graph, LatchAfter(steps, j), steps[j].pairs), steps[j].view, k)
  }

  ghost predicate RecordedBy(steps: seq<BeltStep>, n: nat, k: (int, int)) {
    exists j: nat :: j < n && RecordedAt(steps, j, k)
  }

  /** The latch holds exactly the pairs that some earlier step recorded. */
  lemma {:induction false} LatchedPairsIff(steps: seq<BeltStep>, n: nat, k: (int, int))
    requires n <= |steps|
    ensures k in LatchAfter(steps, n).pairs <==> RecordedBy(steps, n, k)
  {
    hide FreedIds, SuspectKeys, Latched, RecordedAt, Records;
    if n > 0 {
      LatchedPairsIff(steps, n - 1, k);
      RecordedAtIs(steps, n - 1, k);
    }
  }

  lemma {:induction false} RecordedAtIs(steps: seq<BeltStep>, j: nat, k: (int, int))
    requires j < |steps|
    ensures RecordedAt(steps, j, k) <==>
              k in SuspectKeys(Latched(steps[j].graph, LatchAfter(steps, j), steps[j].pairs), steps[j].view)
  {
    hide SuspectKeys, Latched, Records, LatchAfter;
    RecordsIff(Latched(steps[j].graph, LatchAfter(steps, j), steps[j].pairs), steps[j].view, k);
  }

  lemma {:induction false} RecordsIff(g: QGraph, view: View, k: (int, int))
    ensures k in SuspectKeys(g, view) <==> Records(g, view, k)
  {
    hide SuspectKeys, SetRecords, EdgeRecords, PairKey;
    RecordedIff(g, view, k);
  }

  /** Once refuted, gone for good: a set that a step found refuted is in no graph handed on from that step on, and the
      exclusion between a pair that a step recorded is in none handed on after it, whatever later graphs and prices
      say. */
  lemma {:induction false} GoneForGood(steps: seq<BeltStep>, j: nat, k: nat)
    requires j <= k < |steps|
    ensures forall os :: os in OutOf(steps, k).sets ==> !FreedAt(steps, j, os.setId)
    ensures j < k ==> forall e :: e in OutOf(steps, k).edges && e.edgeType.MutualExclusion? ==>
                        !RecordedAt(steps, j, PairKey((e.ante, e.cons)))
  {
    hide OutOf, LatchAfter, FreedAt, RecordedAt, PairKey;
    forall os | os in OutOf(steps, k).sets ensures !FreedAt(steps, j, os.setId) {
      NoFlapBack(steps, j, k);
      LatchedSetsIff(steps, j + 1, os.setId);
    }
    if j < k {
      forall e | e in OutOf(steps, k).edges && e.edgeType.MutualExclusion?
        ensures !RecordedAt(steps, j, PairKey((e.ante, e.cons)))
      {
        NoFlapBack(steps, j + 1, k);
        LatchedPairsIff(steps, j + 1, PairKey((e.ante, e.cons)));
      }
    }
  }
}
