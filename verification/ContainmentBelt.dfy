/** The intra-set containment belt (services/arb-solver/src/graph/intra-set-containment-belt.ts): which sets and
    mutex edges it refutes, and what holds whatever the slug parser and the prices say. */
module ContainmentBelt {
  import opened Wrappers
  import opened Graph
  import opened Omega
  import opened BeltGraph
  import opened DuplicateGate
  import opened MutexComponents

  const DEFAULT_SLACK: real := 0.15

  datatype Direction = Up | Down

  datatype SlotFacts = SlotFacts(participant: Option<string>, direction: Option<Direction>, value: Option<real>,
                                 isWinner: bool)

  /** What the belt reads besides the graph. `factsOf` is the slug parser, `zeroOverlap` the two-platform tell on
      a set's slots; without `yesBidOf` the price arm is dormant. */
  datatype View = View(factsOf: int -> SlotFacts, zeroOverlap: seq<int> -> bool, yesBidOf: Option<int -> Option<real>>,
                       slack: real)

  /** Same participant and direction, different thresholds: one interval lies in the other. */
  predicate IsContainment(a: SlotFacts, b: SlotFacts) {
    && a.value.Some? && b.value.Some? && a.direction.Some? && a.direction == b.direction
    && a.participant.Some? && a.participant == b.participant && a.value != b.value
  }

  /** A win and a threshold of the same participant. */
  predicate IsWinnerRung(a: SlotFacts, b: SlotFacts) {
    || (a.isWinner && b.value.Some? && a.participant.Some? && a.participant == b.participant)
    || (b.isWinner && a.value.Some? && b.participant.Some? && b.participant == a.participant)
  }

  predicate Tell(view: View, a: int, b: int) {
    IsContainment(view.factsOf(a), view.factsOf(b)) || IsWinnerRung(view.factsOf(a), view.factsOf(b))
  }

  lemma {:induction false} TellSymmetric(view: View, a: int, b: int)
    ensures Tell(view, a, b) <==> Tell(view, b, a)
  {
  }

  /** The caller can raise the slack, never lower it. */
  function Limit(view: View): real {
    1.0 + if view.slack > DEFAULT_SLACK then view.slack else DEFAULT_SLACK
  }

  // ---------- Prices ----------

  function Bids(markets: set<int>, bidOf: int -> Option<real>): set<real> {
    set m | m in markets && bidOf(m).Some? && bidOf(m).value > 0.0 :: bidOf(m).value
  }

  ghost predicate IsMax(s: set<real>, v: real) {
    v in s && forall x :: x in s ==> x <= v
  }

  lemma {:induction false} MaxExists(s: set<real>) returns (v: real)
    requires s != {}
    ensures IsMax(s, v)
    decreases |s|
  {
    var first := SomeIn(s);
    var rest := s - {first};
    v := first;
    if rest != {} {
      var x := MaxExists(rest);
      if x > first { v := x; }
    }
    forall y | y in s ensures y <= v { assert y == first || y in rest; }
  }

  /** Best usable YES bid over a question's markets; 0 when no market has one. */
  ghost function BestBid(markets: set<int>, bidOf: int -> Option<real>): (v: real)
    ensures Bids(markets, bidOf) == {} ==> v == 0.0
    ensures Bids(markets, bidOf) != {} ==> IsMax(Bids(markets, bidOf), v)
  {
    var bids := Bids(markets, bidOf);
    if bids == {} then 0.0 else
      assert exists v :: IsMax(bids, v) by { var v := MaxExists(bids); }
      var v :| IsMax(bids, v);
      v
  }

  ghost function QuestionBid(questions: map<int, set<int>>, bidOf: int -> Option<real>, q: int): real {
    if q in questions then BestBid(questions[q], bidOf) else 0.0
  }

  /** Σ of best bids over slots in order. */
  ghost function SlotSum(questions: map<int, set<int>>, bidOf: int -> Option<real>, slots: seq<int>): real {
    if slots == [] then 0.0 else
      SlotSum(questions, bidOf, slots[..|slots| - 1]) + QuestionBid(questions, bidOf, slots[|slots| - 1])
  }

  /** Σ of best bids over a set of questions; the order of summation does not matter. */
  ghost function BidSum(questions: map<int, set<int>>, bidOf: int -> Option<real>, c: set<int>): real {
    if c == {} then 0.0 else
      assert exists q :: q in c by { var q := SomeIn(c); }
      var q :| q in c;
      BidSum(questions, bidOf, c - {q}) + QuestionBid(questions, bidOf, q)
  }

  lemma {:induction false} BidSumPick(questions: map<int, set<int>>, bidOf: int -> Option<real>, c: set<int>, q: int)
    requires q in c
    ensures BidSum(questions, bidOf, c) == BidSum(questions, bidOf, c - {q}) + QuestionBid(questions, bidOf, q)
    decreases |c|
  {
    hide QuestionBid;
    var p :| p in c && BidSum(questions, bidOf, c) ==
          BidSum(questions, bidOf, c - {p}) + QuestionBid(questions, bidOf, p);
    if p != q {
      BidSumPick(questions, bidOf, c - {p}, q);
      BidSumPick(questions, bidOf, c - {q}, p);
      assert c - {p} - {q} == c - {q} - {p};
    }
  }

  // ---------- Hits ----------

  /** Two of the slots give each other away. */
  ghost predicate Tells(view: View, live: seq<int>) {
    exists i, j :: 0 <= i < j < |live| && Tell(view, live[i], live[j])
  }

  ghost predicate SlotTell(questions: map<int, set<int>>, view: View, slots: seq<int>) {
    Tells(view, Keep(slots, questions.Keys))
  }

  /** With nothing quoted the sum is 0, below any limit, as the source's missing sum is. */
  ghost predicate SlotPrice(questions: map<int, set<int>>, view: View, slots: seq<int>) {
    view.yesBidOf.Some? && SlotSum(questions, view.yesBidOf.value, slots) > Limit(view)
  }

  ghost predicate SetHit(questions: map<int, set<int>>, view: View, os: OutcomeSet) {
    os.setType.Categorical? &&
    (SlotTell(questions, view, os.slots) || view.zeroOverlap(os.slots) || SlotPrice(questions, view, os.slots))
  }

  ghost predicate GroupTell(questions: map<int, set<int>>, view: View, c: set<int>) {
    exists a, b :: a in c && b in c && a != b && a in questions && b in questions && Tell(view, a, b)
  }

  ghost predicate GroupHit(questions: map<int, set<int>>, view: View, c: set<int>) {
    |c| >= 2 && (GroupTell(questions, view, c) || (view.yesBidOf.Some? &&
                                                   BidSum(questions, view.yesBidOf.value, c) > Limit(view)))
  }

  function MutexOf(edges: seq<Edge>): seq<Edge> {
    if edges == [] then []
    else if edges[|edges| - 1].edgeType.MutualExclusion? then MutexOf(edges[..|edges| - 1]) + [edges[|edges| - 1]]
    else MutexOf(edges[..|edges| - 1])
  }

  ghost function FreedIds(g: QGraph, view: View): set<int> {
    set os | os in g.sets && SetHit(g.questions, view, os) :: os.setId
  }

  /** e lies in a mutex component that is hit. */
  ghost predicate EdgeHit(g: QGraph, view: View, e: Edge) {
    e in MutexOf(g.edges) && exists c :: IsComponent(MutexOf(g.edges), c) && GroupHit(g.questions, view, c) &&
                                         e.ante in c && e.cons in c
  }

  ghost function DroppedIds(g: QGraph, view: View): set<int> {
    set e | e in g.edges && EdgeHit(g, view, e) :: e.edgeId
  }

  function KeepSets(sets: seq<OutcomeSet>, drop: set<int>): seq<OutcomeSet> {
    if sets == [] then []
    else if sets[|sets| - 1].setId in drop then KeepSets(sets[..|sets| - 1], drop)
    else KeepSets(sets[..|sets| - 1], drop) + [sets[|sets| - 1]]
  }

  function KeepEdges(edges: seq<Edge>, drop: set<int>): seq<Edge> {
    if edges == [] then []
    else if edges[|edges| - 1].edgeId in drop then KeepEdges(edges[..|edges| - 1], drop)
    else KeepEdges(edges[..|edges| - 1], drop) + [edges[|edges| - 1]]
  }

  /** What one application leaves: refuted sets dropped whole, the mutex edges of refuted components dropped
      by id. `pairs` is the suspect record, told apart from the worlds. */
  ghost function Belted(g: QGraph, view: View, pairs: seq<(int, int)>): QGraph {
    QGraph(g.questions, KeepSets(g.sets, FreedIds(g, view)), KeepEdges(g.edges, DroppedIds(g, view)), pairs)
  }

  // ---------- Only enlarges ----------

  lemma {:induction false} KeepSetsMember(sets: seq<OutcomeSet>, drop: set<int>, os: OutcomeSet)
    ensures os in KeepSets(sets, drop) <==> os in sets && os.setId !in drop
  {
    if sets != [] {
      var m := |sets| - 1;
      KeepSetsMember(sets[..m], drop, os);
      assert sets == sets[..m] + [sets[m]];
    }
  }

  lemma {:induction false} KeepEdgesMember(edges: seq<Edge>, drop: set<int>, e: Edge)
    ensures e in KeepEdges(edges, drop) <==> e in edges && e.edgeId !in drop
  {
    if edges != [] {
      var m := |edges| - 1;
      KeepEdgesMember(edges[..m], drop, e);
      assert edges == edges[..m] + [edges[m]];
    }
  }

  /** Whatever the tells and prices say, the belt only enlarges Ω. */
  lemma {:induction false} BeltEnlarges(g: QGraph, view: View, pairs: seq<(int, int)>)
    ensures Enlarges(g, Belted(g, view, pairs))
  {
    hide FreedIds, DroppedIds, Enlarges;
    forall os | os in Belted(g, view, pairs).sets ensures os in g.sets {
      KeepSetsMember(g.sets, FreedIds(g, view), os);
    }
    forall e | e in Belted(g, view, pairs).edges ensures e in g.edges {
      KeepEdgesMember(g.edges, DroppedIds(g, view), e);
    }
    ThinningEnlarges(g, Belted(g, view, pairs));
  }

  // ---------- Idempotence ----------

  ghost predicate DistinctEdgeIds(edges: seq<Edge>) {
    forall e, f :: e in edges && f in edges && e.edgeId == f.edgeId ==> e == f
  }

  lemma {:induction false} MutexMember(edges: seq<Edge>, e: Edge)
    ensures e in MutexOf(edges) <==> e in edges && e.edgeType.MutualExclusion?
  {
    if edges != [] {
      var m := |edges| - 1;
      MutexMember(edges[..m], e);
      assert edges == edges[..m] + [edges[m]];
    }
  }

  /** x is in every closed set that has q. */
  ghost predicate Forced(edges: seq<Edge>, q: int, x: int) {
    forall s :: ClosedUnder(edges, s) && q in s ==> x in s
  }

  ghost function ComponentOf(edges: seq<Edge>, q: int): set<int> {
    set x | x in Ends(edges) && Forced(edges, q, x)
  }

  lemma {:induction false} ForcedAlong(edges: seq<Edge>, q: int, e: Edge)
    requires e in edges
    ensures Forced(edges, q, e.ante) <==> Forced(edges, q, e.cons)
  {
  }

  lemma {:induction false} ComplementClosed(edges: seq<Edge>, s: set<int>)
    requires ClosedUnder(edges, s)
    ensures ClosedUnder(edges, Ends(edges) - s)
  {
    forall e | e in edges ensures e.ante in Ends(edges) && e.cons in Ends(edges) {
      EndsMember(edges, e.ante);
      EndsMember(edges, e.cons);
    }
  }

  /** Every end lies in a component. */
  lemma {:induction false} EndHasComponent(edges: seq<Edge>, q: int)
    requires q in Ends(edges)
    ensures IsComponent(edges, ComponentOf(edges, q)) && q in ComponentOf(edges, q)
  {
    hide Ends, Forced;
    var c := ComponentOf(edges, q);
    assert q in c by { ForcedSelf(edges, q); }
    assert c != {} && c <= Ends(edges);
    forall e | e in edges ensures e.ante in c <==> e.cons in c {
      ForcedAlong(edges, q, e);
      EndsMember(edges, e.ante);
      EndsMember(edges, e.cons);
    }
    assert ClosedUnder(edges, c);
    forall s | ClosedUnder(edges, s) && s * c != {} ensures c <= s {
      ForcedWithin(edges, q, s);
    }
  }

  /** A closed set that meets what q forces contains q, since its complement is closed too. */
  lemma {:induction false} ForcedWithin(edges: seq<Edge>, q: int, s: set<int>)
    requires q in Ends(edges) && ClosedUnder(edges, s) && s * ComponentOf(edges, q) != {}
    ensures ComponentOf(edges, q) <= s
  {
    hide Ends, Forced, ClosedUnder;
    var y := SomeIn(s * ComponentOf(edges, q));
    ComplementClosed(edges, s);
    if q !in s { ForcedIn(edges, q, y, Ends(edges) - s); }
    forall x | x in ComponentOf(edges, q) ensures x in s { ForcedIn(edges, q, x, s); }
  }

  lemma {:induction false} ForcedSelf(edges: seq<Edge>, q: int)
    ensures Forced(edges, q, q)
  {
  }

  lemma {:induction false} ForcedIn(edges: seq<Edge>, q: int, x: int, s: set<int>)
    requires Forced(edges, q, x) && ClosedUnder(edges, s) && q in s
    ensures x in s
  {
  }

  /** A component all of whose edges stay is still a component. */
  lemma {:induction false} SurvivingComponent(edges: seq<Edge>, kept: seq<Edge>, c: set<int>)
    requires IsComponent(edges, c)
    requires forall e :: e in kept ==> e in edges
    requires forall e :: e in edges && e.ante in c ==> e in kept
    ensures IsComponent(kept, c)
  {
    hide Ends;
    forall x | x in c ensures x in Ends(kept) {
      EndsMember(edges, x);
      EndsMember(kept, x);
      var e :| e in edges && (e.ante == x || e.cons == x);
      assert e.ante in c;
    }
    forall s | ClosedUnder(kept, s) && s * c != {} ensures c <= s {
      forall e | e in edges ensures e.ante in s * c <==> e.cons in s * c {
        if e.ante in c { assert e in kept; }
      }
      var y := SomeIn(s * c);
      assert y in (s * c) * c;
    }
  }

  /** A mutex edge that survives lies in a component that is not hit, and the whole component survives. */
  lemma {:induction false} SurvivorUntouched(g: QGraph, view: View, pairs: seq<(int, int)>, e: Edge)
    returns (c: set<int>)
    requires DistinctEdgeIds(g.edges) && e in MutexOf(Belted(g, view, pairs).edges)
    ensures !GroupHit(g.questions, view, c) && e.ante in c && e.cons in c &&
            IsComponent(MutexOf(Belted(g, view, pairs).edges), c)
  {
    hide GroupHit, Ends, IsComponent, Forced;
    var mutex, kept := MutexOf(g.edges), MutexOf(Belted(g, view, pairs).edges);
    MutexMember(Belted(g, view, pairs).edges, e);
    KeepEdgesMember(g.edges, DroppedIds(g, view), e);
    MutexMember(g.edges, e);
    EndsMember(mutex, e.ante);
    c := ComponentOf(mutex, e.ante);
    EndHasComponent(mutex, e.ante);
    InComponent(mutex, c, e);
    assert GroupHit(g.questions, view, c) ==> EdgeHit(g, view, e);
    forall f | f in mutex && f.ante in c ensures f in kept {
      InComponent(mutex, c, f);
      MutexMember(g.edges, f);
      KeptEdge(g, view, c, f);
      KeepEdgesMember(g.edges, DroppedIds(g, view), f);
      MutexMember(Belted(g, view, pairs).edges, f);
    }
    forall f | f in kept ensures f in mutex {
      MutexMember(Belted(g, view, pairs).edges, f);
      KeepEdgesMember(g.edges, DroppedIds(g, view), f);
      MutexMember(g.edges, f);
    }
    SurvivingComponent(mutex, kept, c);
  }

  lemma {:induction false} InComponent(edges: seq<Edge>, c: set<int>, e: Edge)
    requires IsComponent(edges, c) && e in edges
    ensures e.ante in c <==> e.cons in c
  {
  }

  lemma {:induction false} KeptEdge(g: QGraph, view: View, c: set<int>, f: Edge)
    requires DistinctEdgeIds(g.edges) && IsComponent(MutexOf(g.edges), c) && !GroupHit(g.questions, view, c)
    requires f in g.edges && f.ante in c
    ensures f.edgeId !in DroppedIds(g, view)
  {
    hide GroupHit, IsComponent, MutexOf;
    if f.edgeId in DroppedIds(g, view) {
      var e :| e in g.edges && EdgeHit(g, view, e) && e.edgeId == f.edgeId;
      var d :| IsComponent(MutexOf(g.edges), d) && GroupHit(g.questions, view, d) && e.ante in d && e.cons in d;
      OneComponent(MutexOf(g.edges), c, d, f.ante);
    }
  }

  /** With distinct edge ids and the same prices, a second application finds nothing: hit components lost
      all their edges and the others are what they were. */
  lemma {:induction false} BeltIdempotent(g: QGraph, view: View, pairs: seq<(int, int)>)
    requires DistinctEdgeIds(g.edges)
    ensures FreedIds(Belted(g, view, pairs), view) == {} && DroppedIds(Belted(g, view, pairs), view) == {}
    ensures Belted(Belted(g, view, pairs), view, pairs) == Belted(g, view, pairs)
  {
    hide SetHit, GroupHit, IsComponent;
    var h := Belted(g, view, pairs);
    forall os | os in h.sets ensures !SetHit(h.questions, view, os) {
      KeepSetsMember(g.sets, FreedIds(g, view), os);
    }
    forall e | e in h.edges ensures !EdgeHit(h, view, e) {
      if EdgeHit(h, view, e) {
        var d :| IsComponent(MutexOf(h.edges), d) && GroupHit(h.questions, view, d) && e.ante in d && e.cons in d;
        var c := SurvivorUntouched(g, view, pairs, e);
        OneComponent(MutexOf(h.edges), c, d, e.ante);
      }
    }
    KeepNothing(h.sets, h.edges);
  }

  lemma {:induction false} KeepNothing(sets: seq<OutcomeSet>, edges: seq<Edge>)
    ensures KeepSets(sets, {}) == sets && KeepEdges(edges, {}) == edges
    decreases |sets| + |edges|
  {
    if sets != [] { KeepNothing(sets[..|sets| - 1], edges); }
    if edges != [] { KeepNothing(sets, edges[..|edges| - 1]); }
  }

  // ---------- Suspect pairs ----------

  function KeysOf(pairs: seq<(int, int)>): set<(int, int)> {
    set p | p in pairs :: PairKey(p)
  }

  function TellKeys(view: View, live: seq<int>): set<(int, int)> {
    set i, j | 0 <= i < j < |live| && Tell(view, live[i], live[j]) :: PairKey((live[i], live[j]))
  }

  function AllKeys(slots: seq<int>): set<(int, int)> {
    set i, j | 0 <= i < j < |slots| :: PairKey((slots[i], slots[j]))
  }

  /** What a refuted set records: the telling pairs, or every pair when only the whole set is refuted. */
  ghost function SetKeys(questions: map<int, set<int>>, view: View, os: OutcomeSet): set<(int, int)> {
    if !os.setType.Categorical? then {}
    else if SlotTell(questions, view, os.slots) then TellKeys(view, Keep(os.slots, questions.Keys))
    else if view.zeroOverlap(os.slots) || SlotPrice(questions, view, os.slots) then AllKeys(os.slots)
    else {}
  }

  ghost function GroupTellKeys(questions: map<int, set<int>>, view: View, c: set<int>): set<(int, int)> {
    set a, b | a in c && b in c && a != b && a in questions && b in questions && Tell(view, a, b) :: PairKey((a, b))
  }

  ghost function GroupKeys(questions: map<int, set<int>>, view: View, c: set<int>): set<(int, int)> {
    if |c| < 2 then {} else
      GroupTellKeys(questions, view, c) +
      if view.yesBidOf.Some? && BidSum(questions, view.yesBidOf.value, c) > Limit(view)
           then (set a, b | a in c && b in c && a != b :: PairKey((a, b)))
      else {}
  }

  ghost function SuspectKeys(g: QGraph, view: View): set<(int, int)> {
    (set os, k | os in g.sets && k in SetKeys(g.questions, view, os) :: k) +
    (set e, k | e in MutexOf(g.edges) && k in GroupKeys(g.questions, view, ComponentOf(MutexOf(g.edges), e.ante)) :: k)
  }
}
