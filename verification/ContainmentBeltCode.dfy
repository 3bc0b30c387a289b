/** The containment belt's loops (services/arb-solver/src/graph/intra-set-containment-belt.ts, lines 162-389) over
    the in-memory graph. */
module ContainmentBeltCode {
  import opened Wrappers
  import opened Graph
  import opened SolveCore
  import opened BeltGraph
  import opened GraphRefs
  import opened DuplicateGate
  import opened DuplicateGateCode
  import opened MutexComponents
  import opened ContainmentBelt

  datatype BeltResult = BeltResult(freed: set<int>, suspects: seq<(int, int)>, setsFreed: nat, edgesDropped: nat)

  // ---------- Prices ----------

  method BestBidOf(markets: set<int>, bidOf: int -> Option<real>) returns (best: Option<real>)
    ensures best.None? <==> Bids(markets, bidOf) == {}
    ensures best.Some? ==> IsMax(Bids(markets, bidOf), best.value)
  {
    hide Bids;
    best := None;
    var rest := markets;
    NoBids(bidOf);
    assert markets - rest == {};
    while rest != {}
      invariant rest <= markets
      invariant best.None? <==> Bids(markets - rest, bidOf) == {}
      invariant best.Some? ==> IsMax(Bids(markets - rest, bidOf), best.value)
      decreases |rest|
    {
      ghost var some := SomeIn(rest);
      var m :| m in rest;
      var bid := bidOf(m);
      assert markets - (rest - {m}) == (markets - rest) + {m};
      OneMoreBid(markets - rest, bidOf, m);
      if bid.Some? && bid.value > 0.0 && (best.None? || bid.value > best.value) { best := bid; }
      rest := rest - {m};
    }
    assert markets - {} == markets;
  }

  lemma {:induction false} NoBids(bidOf: int -> Option<real>)
    ensures Bids({}, bidOf) == {}
  {
  }

  lemma {:induction false} OneMoreBid(markets: set<int>, bidOf: int -> Option<real>, m: int)
    ensures Bids(markets + {m}, bidOf) ==
            Bids(markets, bidOf) + if bidOf(m).Some? && bidOf(m).value > 0.0 then {bidOf(m).value} else {}
  {
    forall v ensures v in Bids(markets + {m}, bidOf) <==>
                     v in Bids(markets, bidOf) || (bidOf(m).Some? && bidOf(m).value > 0.0 && v == bidOf(m).value)
    {
      if v in Bids(markets, bidOf) {
        var n :| n in markets && bidOf(n).Some? && bidOf(n).value > 0.0 && bidOf(n).value == v;
        assert n in markets + {m};
      }
      if bidOf(m).Some? && bidOf(m).value > 0.0 && v == bidOf(m).value { assert m in markets + {m}; }
    }
  }

  /** None when no question is quoted. */
  method CliqueBidSum(qids: seq<int>, questions: map<int, set<int>>, bidOf: int -> Option<real>)
    returns (sum: Option<real>)
    ensures SlotSum(questions, bidOf, qids) == if sum.Some? then sum.value else 0.0
  {
    var total := 0.0;
    var anyQuoted := false;
    for i := 0 to |qids|
      invariant total == SlotSum(questions, bidOf, qids[..i]) && (!anyQuoted ==> total == 0.0)
    {
      assert qids[..i + 1][..i] == qids[..i];
      if qids[i] !in questions { continue; }
      var best := BestBidOf(questions[qids[i]], bidOf);
      if best.Some? {
        total := total + best.value;
        anyQuoted := true;
      }
    }
    assert qids[..|qids|] == qids;
    sum := if anyQuoted then Some(total) else None;
  }

  method OverLimit(qids: seq<int>, questions: map<int, set<int>>, view: View) returns (over: bool)
    ensures over <==> SlotPrice(questions, view, qids)
  {
    if view.yesBidOf.None? { return false; }
    var sum := CliqueBidSum(qids, questions, view.yesBidOf.value);
    over := sum.Some? && sum.value > Limit(view);
  }

  // ---------- Pairs ----------

  method TellingPairs(view: View, live: seq<int>) returns (pairs: seq<(int, int)>)
    ensures KeysOf(pairs) == TellKeys(view, live)
    ensures pairs != [] <==> Tells(view, live)
  {
    pairs := [];
    for i := 0 to |live|
      invariant forall p :: p in pairs <==> exists k, j :: 0 <= k < i && k < j < |live| &&
                                                           Tell(view, live[k], live[j]) && p == (live[k], live[j])
    {
      for j := i + 1 to |live|
        invariant forall p :: p in pairs <==>
                    exists k, l :: 0 <= k <= i && k < l < |live| && (k < i || l < j) &&
                                    Tell(view, live[k], live[l]) && p == (live[k], live[l])
      {
        if Tell(view, live[i], live[j]) { pairs := pairs + [(live[i], live[j])]; }
      }
    }
    PairsKeyed(view, live, pairs);
  }

  lemma {:induction false} PairsKeyed(view: View, live: seq<int>, pairs: seq<(int, int)>)
    requires forall p :: p in pairs <==>
               exists k, j :: 0 <= k < j < |live| && Tell(view, live[k], live[j]) && p == (live[k], live[j])
    ensures KeysOf(pairs) == TellKeys(view, live)
    ensures pairs != [] <==> Tells(view, live)
  {
    hide PairKey, Tell;
    forall k ensures k in KeysOf(pairs) <==> k in TellKeys(view, live) {
      if k in KeysOf(pairs) { var p :| p in pairs && PairKey(p) == k; }
      if k in TellKeys(view, live) {
        var i, j :| 0 <= i < j < |live| && Tell(view, live[i], live[j]) && PairKey((live[i], live[j])) == k;
        assert (live[i], live[j]) in pairs;
      }
    }
    if pairs != [] { assert pairs[0] in pairs; }
    if Tells(view, live) {
      var i, j :| 0 <= i < j < |live| && Tell(view, live[i], live[j]);
      assert (live[i], live[j]) in pairs;
    }
  }

  method EveryPair(slots: seq<int>) returns (pairs: seq<(int, int)>)
    ensures KeysOf(pairs) == AllKeys(slots)
  {
    pairs := [];
    for i := 0 to |slots|
      invariant KeysOf(pairs) == KeysTo(slots, i, |slots|)
    {
      assert KeysTo(slots, i, |slots|) == KeysTo(slots, i + 1, i + 1);
      for j := i + 1 to |slots|
        invariant KeysOf(pairs) == KeysTo(slots, i + 1, j)
      {
        KeysSnoc(pairs, (slots[i], slots[j]));
        KeysNext(slots, i, j);
        pairs := pairs + [(slots[i], slots[j])];
      }
    }
  }

  /** Keys of pairs in rows before i, and of row i - 1 only up to j. */
  ghost function KeysTo(slots: seq<int>, i: nat, j: nat): set<(int, int)>
    requires i <= |slots| && j <= |slots|
  {
    set k, l | 0 <= k < i && k < l < |slots| && (k < i - 1 || l < j) :: PairKey((slots[k], slots[l]))
  }

  lemma {:induction false} KeysSnoc(pairs: seq<(int, int)>, p: (int, int))
    ensures KeysOf(pairs + [p]) == KeysOf(pairs) + {PairKey(p)}
  {
    hide PairKey;
    forall k ensures k in KeysOf(pairs + [p]) <==> k in KeysOf(pairs) || k == PairKey(p) {
      if k in KeysOf(pairs) {
        var x :| x in pairs && PairKey(x) == k;
        assert x in pairs + [p];
      }
      assert p in pairs + [p];
    }
  }

  lemma {:induction false} KeysNext(slots: seq<int>, i: nat, j: nat)
    requires i < j < |slots|
    ensures KeysTo(slots, i + 1, j + 1) == KeysTo(slots, i + 1, j) + {PairKey((slots[i], slots[j]))}
  {
    hide PairKey;
    var before, after := KeysTo(slots, i + 1, j), KeysTo(slots, i + 1, j + 1);
    forall x ensures x in after <==> x in before || x == PairKey((slots[i], slots[j])) {
      if x in before {
        var k, l :| 0 <= k < i + 1 && k < l < |slots| && (k < i || l < j) && PairKey((slots[k], slots[l])) == x;
        assert k < i || l < j + 1;
      }
    }
  }

  // ---------- One set ----------

  /** Tests a set; `pairs` is what it records. */
  method TestSet(os: OutcomeSet, questions: map<int, set<int>>, view: View) returns (hit: bool, pairs: seq<(int, int)>)
    ensures hit <==> SetHit(questions, view, os)
    ensures KeysOf(pairs) == SetKeys(questions, view, os)
  {
    hide PairKey, TellKeys, AllKeys, Tells;
    if !os.setType.Categorical? {
      NoKeys();
      return false, [];
    }
    pairs := TellingPairs(view, Keep(os.slots, questions.Keys));
    if |pairs| > 0 { return true, pairs; }
    if view.zeroOverlap(os.slots) {
      pairs := EveryPair(os.slots);
      return true, pairs;
    }
    var over := OverLimit(os.slots, questions, view);
    if over {
      pairs := EveryPair(os.slots);
      return true, pairs;
    }
    NoKeys();
    return false, [];
  }

  lemma {:induction false} NoKeys()
    ensures KeysOf([]) == {}
  {
  }

  // ---------- One component ----------

  method ListSet(c: set<int>) returns (qids: seq<int>)
    ensures Distinct(qids) && SetOf(qids) == c
  {
    qids := [];
    var rest := c;
    while rest != {}
      invariant rest <= c && Distinct(qids) && SetOf(qids) == c - rest
      decreases |rest|
    {
      ghost var some := SomeIn(rest);
      var q :| q in rest;
      assert q !in SetOf(qids);
      assert SetOf(qids + [q]) == SetOf(qids) + {q};
      qids := qids + [q];
      rest := rest - {q};
    }
  }

  lemma {:induction false} SumIsSet(questions: map<int, set<int>>, bidOf: int -> Option<real>, qids: seq<int>)
    requires Distinct(qids)
    ensures SlotSum(questions, bidOf, qids) == BidSum(questions, bidOf, SetOf(qids))
  {
    hide QuestionBid;
    if qids != [] {
      var m := |qids| - 1;
      SumIsSet(questions, bidOf, qids[..m]);
      BidSumPick(questions, bidOf, SetOf(qids), qids[m]);
      assert SetOf(qids) - {qids[m]} == SetOf(qids[..m]);
    }
  }

  lemma {:induction false} PairKeySymmetric(a: int, b: int)
    ensures PairKey((a, b)) == PairKey((b, a))
  {
  }

  lemma {:induction false} InSomeOrder(s: seq<int>, a: int, b: int) returns (i: nat, j: nat)
    requires a in s && b in s && a != b
    ensures i < j < |s| && ((s[i] == a && s[j] == b) || (s[i] == b && s[j] == a))
  {
    var k :| 0 <= k < |s| && s[k] == a;
    var l :| 0 <= l < |s| && s[l] == b;
    i, j := if k < l then k else l, if k < l then l else k;
  }

  /** Over a listing, ordered pairs and unordered pairs give the same keys. */
  lemma {:induction false} ListedTellKeys(questions: map<int, set<int>>, view: View, qids: seq<int>)
    requires Distinct(qids)
    ensures TellKeys(view, Keep(qids, questions.Keys)) == GroupTellKeys(questions, view, SetOf(qids))
  {
    hide Tell, PairKey, Keep;
    var live, c := Keep(qids, questions.Keys), SetOf(qids);
    KeepMembers(qids, questions.Keys);
    KeepDistinct(qids, questions.Keys);
    var keys, group := TellKeys(view, live), GroupTellKeys(questions, view, c);
    forall k ensures k in keys <==> k in group {
      if k in keys {
        var i, j :| 0 <= i < j < |live| && Tell(view, live[i], live[j]) && PairKey((live[i], live[j])) == k;
        assert live[i] in live && live[j] in live;
      }
      if k in group {
        var a, b :| a in c && b in c && a != b && a in questions && b in questions && Tell(view, a, b) &&
                    PairKey((a, b)) == k;
        var i, j := InSomeOrder(live, a, b);
        TellSymmetric(view, a, b);
        PairKeySymmetric(a, b);
      }
    }
  }

  lemma {:induction false} ListedTells(questions: map<int, set<int>>, view: View, qids: seq<int>)
    requires Distinct(qids)
    ensures Tells(view, Keep(qids, questions.Keys)) <==> GroupTell(questions, view, SetOf(qids))
  {
    hide Tell, Keep;
    var live, c := Keep(qids, questions.Keys), SetOf(qids);
    KeepMembers(qids, questions.Keys);
    KeepDistinct(qids, questions.Keys);
    if Tells(view, live) {
      var i, j :| 0 <= i < j < |live| && Tell(view, live[i], live[j]);
      assert live[i] in live && live[j] in live;
    }
    if GroupTell(questions, view, c) {
      var a, b :| a in c && b in c && a != b && a in questions && b in questions && Tell(view, a, b);
      var i, j := InSomeOrder(live, a, b);
      TellSymmetric(view, a, b);
    }
  }

  lemma {:induction false} ListedPairs(qids: seq<int>)
    requires Distinct(qids)
    ensures AllKeys(qids) == set a, b | a in SetOf(qids) && b in SetOf(qids) && a != b :: PairKey((a, b))
  {
    hide PairKey;
    var c := SetOf(qids);
    var keys, group := AllKeys(qids), set a, b | a in c && b in c && a != b :: PairKey((a, b));
    forall k ensures k in keys <==> k in group {
      if k in keys {
        var i, j :| 0 <= i < j < |qids| && PairKey((qids[i], qids[j])) == k;
        assert qids[i] in c && qids[j] in c;
      }
      if k in group {
        var a, b :| a in c && b in c && a != b && PairKey((a, b)) == k;
        var i, j := InSomeOrder(qids, a, b);
        PairKeySymmetric(a, b);
      }
    }
  }

  lemma {:induction false} KeysConcat(a: seq<(int, int)>, b: seq<(int, int)>)
    ensures KeysOf(a + b) == KeysOf(a) + KeysOf(b)
  {
    hide PairKey;
    forall k ensures k in KeysOf(a + b) <==> k in KeysOf(a) || k in KeysOf(b) {
      if k in KeysOf(a) {
        var x :| x in a && PairKey(x) == k;
        assert x in a + b;
      }
      if k in KeysOf(b) {
        var x :| x in b && PairKey(x) == k;
        assert x in a + b;
      }
    }
  }

  method TestGroup(c: set<int>, questions: map<int, set<int>>, view: View) returns (hit: bool, pairs: seq<(int, int)>)
    ensures hit <==> GroupHit(questions, view, c)
    ensures KeysOf(pairs) == GroupKeys(questions, view, c)
  {
    hide PairKey, TellKeys, AllKeys, Tells, GroupTellKeys, GroupTell, SlotSum, BidSum, KeysOf;
    NoKeys();
    if |c| < 2 { return false, []; }
    var qids := ListSet(c);
    pairs := TellingPairs(view, Keep(qids, questions.Keys));
    ListedTells(questions, view, qids);
    ListedTellKeys(questions, view, qids);
    ListedPairs(qids);
    hit := |pairs| > 0;
    var over := OverLimit(qids, questions, view);
    if view.yesBidOf.Some? { SumIsSet(questions, view.yesBidOf.value, qids); }
    if over {
      var every := EveryPair(qids);
      KeysConcat(pairs, every);
      hit, pairs := true, pairs + every;
    }
  }

  // ---------- All sets ----------

  ghost function FreedOf(sets: seq<OutcomeSet>, questions: map<int, set<int>>, view: View): set<int> {
    set os | os in sets && SetHit(questions, view, os) :: os.setId
  }

  ghost function SetSuspects(sets: seq<OutcomeSet>, questions: map<int, set<int>>, view: View): set<(int, int)> {
    set os, k | os in sets && k in SetKeys(questions, view, os) :: k
  }

  lemma {:induction false} OneMoreSet(sets: seq<OutcomeSet>, os: OutcomeSet, questions: map<int, set<int>>, view: View)
    ensures FreedOf(sets + [os], questions, view) == FreedOf(sets, questions, view) + if SetHit(questions, view, os)
              then {os.setId} else {}
    ensures SetSuspects(sets + [os], questions, view) ==
              SetSuspects(sets, questions, view) + SetKeys(questions, view, os)
  {
    hide SetHit, SetKeys;
    forall x | x in sets ensures x in sets + [os] {}
    assert os in sets + [os];
  }

  method RefutedSets(sets: seq<OutcomeSet>, questions: map<int, set<int>>, view: View)
    returns (free: set<int>, recorded: seq<(int, int)>)
    ensures free == FreedOf(sets, questions, view) && KeysOf(recorded) == SetSuspects(sets, questions, view)
  {
    hide SetHit, SetKeys, KeysOf, FreedOf, SetSuspects;
    NoKeys();
    NoSets(questions, view);
    free, recorded := {}, [];
    for i := 0 to |sets|
      invariant free == FreedOf(sets[..i], questions, view) &&
                KeysOf(recorded) == SetSuspects(sets[..i], questions, view)
    {
      assert sets[..i + 1] == sets[..i] + [sets[i]];
      OneMoreSet(sets[..i], sets[i], questions, view);
      var hit, pairs := TestSet(sets[i], questions, view);
      KeysConcat(recorded, pairs);
      recorded := recorded + pairs;
      if hit { free := free + {sets[i].setId}; }
    }
    assert sets[..|sets|] == sets;
  }

  lemma {:induction false} NoSets(questions: map<int, set<int>>, view: View)
    ensures FreedOf([], questions, view) == {} && SetSuspects([], questions, view) == {}
  {
  }

  // ---------- All components ----------

  method MutexEdges(edges: seq<Edge>) returns (mutex: seq<Edge>)
    ensures mutex == MutexOf(edges)
  {
    mutex := [];
    for i := 0 to |edges|
      invariant mutex == MutexOf(edges[..i])
    {
      assert edges[..i + 1][..i] == edges[..i];
      if edges[i].edgeType.MutualExclusion? { mutex := mutex + [edges[i]]; }
    }
    assert edges[..|edges|] == edges;
  }

  method IdsWithin(mutex: seq<Edge>, c: set<int>) returns (ids: set<int>)
    ensures ids == set e | e in mutex && e.ante in c && e.cons in c :: e.edgeId
  {
    ids := {};
    for i := 0 to |mutex|
      invariant ids == set e | e in mutex[..i] && e.ante in c && e.cons in c :: e.edgeId
    {
      assert mutex[..i + 1] == mutex[..i] + [mutex[i]];
      if mutex[i].ante in c && mutex[i].cons in c { ids := ids + {mutex[i].edgeId}; }
    }
    assert mutex[..|mutex|] == mutex;
  }

  ghost function DroppedBy(mutex: seq<Edge>, groups: seq<set<int>>, questions: map<int, set<int>>,
                           view: View): set<int> {
    set c, e | c in groups && GroupHit(questions, view, c) && e in mutex && e.ante in c && e.cons in c :: e.edgeId
  }

  ghost function GroupSuspects(groups: seq<set<int>>, questions: map<int, set<int>>, view: View): set<(int, int)> {
    set c, k | c in groups && k in GroupKeys(questions, view, c) :: k
  }

  lemma {:induction false} OneMoreGroup(mutex: seq<Edge>, groups: seq<set<int>>, c: set<int>, questions: map<int,
                                        set<int>>, view: View)
    ensures DroppedBy(mutex, groups + [c], questions, view) == DroppedBy(mutex, groups, questions, view) +
            if GroupHit(questions, view, c) then (set e | e in mutex && e.ante in c && e.cons in c :: e.edgeId) else {}
    ensures GroupSuspects(groups + [c], questions, view) ==
              GroupSuspects(groups, questions, view) + GroupKeys(questions, view, c)
  {
    hide GroupHit, GroupKeys;
    forall x | x in groups ensures x in groups + [c] {}
    assert c in groups + [c];
  }

  method RefutedEdges(mutex: seq<Edge>, questions: map<int, set<int>>, view: View)
    returns (drop: set<int>, recorded: seq<(int, int)>, ghost groups: seq<set<int>>)
    ensures Components(mutex, groups)
    ensures drop == DroppedBy(mutex, groups, questions, view) &&
            KeysOf(recorded) == GroupSuspects(groups, questions, view)
  {
    hide GroupHit, GroupKeys, KeysOf, DroppedBy, GroupSuspects, Components;
    var components := FindComponents(mutex);
    groups := components;
    NoKeys();
    NoGroupsYet(mutex, questions, view);
    drop, recorded := {}, [];
    for i := 0 to |components|
      invariant drop == DroppedBy(mutex, components[..i], questions, view)
      invariant KeysOf(recorded) == GroupSuspects(components[..i], questions, view)
    {
      assert components[..i + 1] == components[..i] + [components[i]];
      OneMoreGroup(mutex, components[..i], components[i], questions, view);
      var hit, pairs := TestGroup(components[i], questions, view);
      KeysConcat(recorded, pairs);
      recorded := recorded + pairs;
      if hit {
        var ids := IdsWithin(mutex, components[i]);
        drop := drop + ids;
      }
    }
    assert components[..|components|] == components;
  }

  lemma {:induction false} NoGroupsYet(mutex: seq<Edge>, questions: map<int, set<int>>, view: View)
    ensures DroppedBy(mutex, [], questions, view) == {} && GroupSuspects([], questions, view) == {}
  {
  }

  lemma {:induction false} GroupAt(mutex: seq<Edge>, groups: seq<set<int>>, q: int)
    requires Components(mutex, groups) && q in Ends(mutex)
    ensures ComponentOf(mutex, q) in groups
  {
    hide IsComponent, Ends;
    var i :| 0 <= i < |groups| && q in groups[i];
    EndHasComponent(mutex, q);
    OneComponent(mutex, groups[i], ComponentOf(mutex, q), q);
  }

  lemma {:induction false} GroupHasEdge(mutex: seq<Edge>, c: set<int>) returns (e: Edge)
    requires IsComponent(mutex, c)
    ensures e in mutex && e.ante in c && e.cons in c && ComponentOf(mutex, e.ante) == c
  {
    hide Ends, Forced;
    var q := SomeIn(c);
    EndsMember(mutex, q);
    e :| e in mutex && (e.ante == q || e.cons == q);
    EndsMember(mutex, e.ante);
    EndHasComponent(mutex, e.ante);
    OneComponent(mutex, c, ComponentOf(mutex, e.ante), e.ante);
  }

  /** The components found drop exactly the edges the belt's definition drops. */
  lemma {:induction false} DroppedExactly(g: QGraph, view: View, groups: seq<set<int>>)
    requires Components(MutexOf(g.edges), groups)
    ensures DroppedBy(MutexOf(g.edges), groups, g.questions, view) == DroppedIds(g, view)
  {
    hide GroupHit, IsComponent, Ends;
    var mutex := MutexOf(g.edges);
    var a, b := DroppedBy(mutex, groups, g.questions, view), DroppedIds(g, view);
    forall id ensures id in a <==> id in b {
      if id in a {
        var c, e :| c in groups && GroupHit(g.questions, view, c) && e in mutex && e.ante in c && e.cons in c &&
                    e.edgeId == id;
        MutexMember(g.edges, e);
        assert EdgeHit(g, view, e);
      }
      if id in b {
        var e :| e in g.edges && EdgeHit(g, view, e) && e.edgeId == id;
        var c :| IsComponent(mutex, c) && GroupHit(g.questions, view, c) && e.ante in c && e.cons in c;
        EndsMember(mutex, e.ante);
        GroupAt(mutex, groups, e.ante);
        EndHasComponent(mutex, e.ante);
        OneComponent(mutex, c, ComponentOf(mutex, e.ante), e.ante);
      }
    }
  }

  lemma {:induction false} SuspectsExactly(g: QGraph, view: View, groups: seq<set<int>>)
    requires Components(MutexOf(g.edges), groups)
    ensures SetSuspects(g.sets, g.questions, view) + GroupSuspects(groups, g.questions, view) == SuspectKeys(g, view)
  {
    hide GroupKeys, SetKeys, IsComponent, Ends, ComponentOf;
    var mutex := MutexOf(g.edges);
    var a := GroupSuspects(groups, g.questions, view);
    var b := set e, k | e in mutex && k in GroupKeys(g.questions, view, ComponentOf(mutex, e.ante)) :: k;
    forall k ensures k in a <==> k in b {
      if k in a {
        var c :| c in groups && k in GroupKeys(g.questions, view, c);
        var e := GroupHasEdge(mutex, c);
      }
      if k in b {
        var e :| e in mutex && k in GroupKeys(g.questions, view, ComponentOf(mutex, e.ante));
        EndsMember(mutex, e.ante);
        GroupAt(mutex, groups, e.ante);
      }
    }
  }

  // ---------- The belt ----------

  method KeepRefs(sets: seq<OutcomeSetRef>, drop: set<int>) returns (kept: seq<OutcomeSetRef>)
    ensures Values(kept) == KeepSets(Values(sets), drop)
    ensures forall os :: os in kept ==> os in sets
  {
    kept := [];
    for i := 0 to |sets|
      invariant Values(kept) == KeepSets(Values(sets)[..i], drop)
      invariant forall os :: os in kept ==> os in sets
    {
      hide KeepSets;
      KeepSetsSnoc(Values(sets)[..i], sets[i].Value(), drop);
      assert Values(sets)[..i + 1] == Values(sets)[..i] + [sets[i].Value()];
      if sets[i].setId !in drop {
        assert Values(kept + [sets[i]]) == Values(kept) + [sets[i].Value()];
        kept := kept + [sets[i]];
      }
    }
    assert Values(sets)[..|sets|] == Values(sets);
  }

  lemma {:induction false} KeepSetsSnoc(sets: seq<OutcomeSet>, os: OutcomeSet, drop: set<int>)
    ensures KeepSets(sets + [os], drop) == if os.setId in drop then KeepSets(sets, drop)
              else KeepSets(sets, drop) + [os]
  {
    assert (sets + [os])[..|sets + [os]| - 1] == sets;
  }

  method KeepEdgesBut(edges: seq<Edge>, drop: set<int>) returns (kept: seq<Edge>)
    ensures kept == KeepEdges(edges, drop)
  {
    kept := [];
    for i := 0 to |edges|
      invariant kept == KeepEdges(edges[..i], drop)
    {
      assert edges[..i + 1][..i] == edges[..i];
      if edges[i].edgeId !in drop { kept := kept + [edges[i]]; }
    }
    assert edges[..|edges|] == edges;
  }

  lemma {:induction false} UnionKeys(pairs: seq<(int, int)>)
    ensures KeysOf(UnionPairs(pairs)) == KeysOf(pairs)
  {
    hide PairKey;
    if pairs != [] {
      var m := |pairs| - 1;
      UnionKeys(pairs[..m]);
      KeysSnoc(pairs[..m], pairs[m]);
      KeysSnoc(UnionPairs(pairs[..m]), pairs[m]);
      assert pairs == pairs[..m] + [pairs[m]];
      if p :| p in pairs[..m] && PairKey(p) == PairKey(pairs[m]) { assert PairKey(pairs[m]) in KeysOf(pairs[..m]); }
    }
  }

  /** What the belt decides, before it touches the graph. */
  method Refute(ghost g: QGraph, sets: seq<OutcomeSet>, edges: seq<Edge>, questions: map<int, set<int>>, view: View)
    returns (free: set<int>, drop: set<int>, suspects: seq<(int, int)>)
    requires g.sets == sets && g.edges == edges && g.questions == questions
    ensures free == FreedIds(g, view) && drop == DroppedIds(g, view) && KeysOf(suspects) == SuspectKeys(g, view)
  {
    hide SetHit, KeysOf, SetSuspects, GroupSuspects, DroppedBy, DroppedIds, SuspectKeys, Components, UnionPairs;
    var fromSets;
    free, fromSets := RefutedSets(sets, questions, view);
    var mutex := MutexEdges(edges);
    ghost var groups;
    var fromEdges;
    drop, fromEdges, groups := RefutedEdges(mutex, questions, view);
    DroppedExactly(g, view, groups);
    SuspectsExactly(g, view, groups);
    KeysConcat(fromSets, fromEdges);
    suspects := UnionBy(fromSets + fromEdges);
    UnionKeys(fromSets + fromEdges);
  }

  /** The belt, in place. */
  method ApplyIntraSetContainmentBelt(graph: GraphRef, view: View) returns (res: BeltResult)
    modifies graph
    ensures graph.Value() == Belted(old(graph.Value()), view, if res.suspects == [] then old(graph.pairs)
                else UnionPairs(old(graph.pairs) + res.suspects))
    ensures res.freed == FreedIds(old(graph.Value()), view) &&
            KeysOf(res.suspects) == SuspectKeys(old(graph.Value()), view)
    ensures res.setsFreed == |old(graph.sets)| - |graph.sets| && res.edgesDropped == |old(graph.edges)| - |graph.edges|
    ensures forall os :: os in graph.sets ==> os in old(graph.sets)
  {
    hide KeysOf, FreedIds, DroppedIds, SuspectKeys, UnionPairs, KeepSets, KeepEdges;
    ghost var g := graph.Value();
    var free, drop, suspects := Refute(g, Values(graph.sets), graph.edges, graph.questions, view);
    var sets := KeepRefs(graph.sets, free);
    var edges := KeepEdgesBut(graph.edges, drop);
    FewerKept(g, free, drop);
    res := BeltResult(free, suspects, |graph.sets| - |sets|, |graph.edges| - |edges|);
    var pairs := graph.pairs;
    if |suspects| > 0 { pairs := UnionBy(graph.pairs + suspects); }
    graph.sets := sets;
    graph.edges := edges;
    graph.pairs := pairs;
  }

  lemma {:induction false} FewerKept(g: QGraph, free: set<int>, drop: set<int>)
    ensures |KeepSets(g.sets, free)| <= |g.sets| && |KeepEdges(g.edges, drop)| <= |g.edges|
  {
    FewerSets(g.sets, free);
    FewerEdges(g.edges, drop);
  }

  lemma {:induction false} FewerSets(sets: seq<OutcomeSet>, drop: set<int>)
    ensures |KeepSets(sets, drop)| <= |sets|
  {
    if sets != [] { FewerSets(sets[..|sets| - 1], drop); }
  }

  lemma {:induction false} FewerEdges(edges: seq<Edge>, drop: set<int>)
    ensures |KeepEdges(edges, drop)| <= |edges|
  {
    if edges != [] { FewerEdges(edges[..|edges| - 1], drop); }
  }
}
