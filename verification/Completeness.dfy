/** Completeness of an enumeration (services/arb-solver/src/solver/omega-constraints.ts, lines 129-178, and
    state-enumerator.ts, computePinnedQuestions): every question must be YES in some state and NO in another. */
module Completeness {
  import opened Graph
  import opened Omega

  datatype Report = Report(complete: bool, incomplete: set<int>, offending: seq<int>)

  function SawTrue(states: seq<World>): set<int> {
    if states == [] then {} else
      var s := states[|states| - 1];
      SawTrue(states[..|states| - 1]) + (set q | q in s && s[q])
  }

  function SawFalse(states: seq<World>): set<int> {
    if states == [] then {} else
      var s := states[|states| - 1];
      SawFalse(states[..|states| - 1]) + (set q | q in s && !s[q])
  }

  /** Questions that never show one of the two values. */
  function IncompleteOf(states: seq<World>): set<int> {
    (SawTrue(states) + SawFalse(states)) - SawTrue(states) * SawFalse(states)
  }

  /** The incomplete questions and their hard-edge neighbours. */
  function Suspects(cs: seq<Constraint>, incomplete: set<int>): set<int> {
    if cs == [] then incomplete else
      var c := cs[|cs| - 1];
      Suspects(cs[..|cs| - 1], incomplete) +
      (if c.HardEdge? && c.a in incomplete then {c.b} else {}) +
      (if c.HardEdge? && c.b in incomplete then {c.a} else {})
  }

  /** A Σ = 1 constraint over a suspect question. */
  predicate Offends(c: Constraint, suspects: set<int>) {
    c.OneHot? && c.exhaustive && AnyIn(c.slots, suspects)
  }

  function OffendingIds(cs: seq<Constraint>, suspects: set<int>): seq<int> {
    if cs == [] then []
    else if Offends(cs[|cs| - 1], suspects) then OffendingIds(cs[..|cs| - 1], suspects) + [cs[|cs| - 1].setId]
    else OffendingIds(cs[..|cs| - 1], suspects)
  }

  function Check(interp: Interp, states: seq<World>): Report {
    var incomplete := IncompleteOf(states);
    if incomplete == {} then Report(true, {}, [])
    else Report(false, incomplete, OffendingIds(interp.constraints, Suspects(interp.constraints, incomplete)))
  }

  method CheckOmegaCompleteness(interp: Interp, states: seq<World>) returns (r: Report)
    ensures r == Check(interp, states)
  {
    if |states| == 0 { return Report(true, {}, []); }
    var sawTrue: set<int> := {};
    var sawFalse: set<int> := {};
    var all: set<int> := {};
    for i := 0 to |states|
      invariant sawTrue == SawTrue(states[..i]) && sawFalse == SawFalse(states[..i]) && all == sawTrue + sawFalse
    {
      var s := states[i];
      assert states[..i + 1][..i] == states[..i];
      all := all + s.Keys;
      sawTrue := sawTrue + (set q | q in s && s[q]);
      sawFalse := sawFalse + (set q | q in s && !s[q]);
    }
    assert states[..|states|] == states;
    var incomplete := set q | q in all && (q !in sawTrue || q !in sawFalse);
    assert incomplete == IncompleteOf(states);
    if incomplete == {} { return Report(true, {}, []); }
    var cs := interp.constraints;
    var suspects := incomplete;
    for i := 0 to |cs|
      invariant suspects == Suspects(cs[..i], incomplete)
    {
      var c := cs[i];
      assert cs[..i + 1][..i] == cs[..i];
      if c.HardEdge? {
        if c.a in incomplete { suspects := suspects + {c.b}; }
        if c.b in incomplete { suspects := suspects + {c.a}; }
      }
    }
    assert cs[..|cs|] == cs;
    var offending: seq<int> := [];
    for i := 0 to |cs|
      invariant offending == OffendingIds(cs[..i], suspects)
    {
      var c := cs[i];
      assert cs[..i + 1][..i] == cs[..i];
      if c.OneHot? && c.exhaustive && AnyIn(c.slots, suspects) { offending := offending + [c.setId]; }
    }
    r := Report(false, incomplete, offending);
  }

  /** q takes both values over the states; a question missing from a state reads NO. */
  ghost predicate BothValues(states: seq<World>, q: int) {
    (exists w :: w in states && Yes(w, q)) && (exists w :: w in states && !Yes(w, q))
  }

  predicate Constant(states: seq<World>, q: int) {
    forall i | 0 <= i < |states| :: Yes(states[i], q) == Yes(states[0], q)
  }

  function PinnedOf(qids: seq<int>, states: seq<World>): seq<int> {
    if qids == [] || states == [] then []
    else if Constant(states, qids[|qids| - 1]) then PinnedOf(qids[..|qids| - 1], states) + [qids[|qids| - 1]]
    else PinnedOf(qids[..|qids| - 1], states)
  }

  method ComputePinnedQuestions(qids: seq<int>, states: seq<World>) returns (pinned: seq<int>)
    ensures pinned == PinnedOf(qids, states)
  {
    pinned := [];
    if |states| == 0 { return; }
    for k := 0 to |qids|
      invariant pinned == PinnedOf(qids[..k], states)
    {
      assert qids[..k + 1][..k] == qids[..k];
      var constant := true;
      var i := 0;
      while i < |states|
        invariant 0 <= i <= |states|
        invariant constant <==> forall j :: 0 <= j < i ==> Yes(states[j], qids[k]) == Yes(states[0], qids[k])
      {
        if Yes(states[i], qids[k]) != Yes(states[0], qids[k]) {
          constant := false;
          break;
        }
        i := i + 1;
      }
      if constant { pinned := pinned + [qids[k]]; }
    }
    assert qids[..|qids|] == qids;
  }

  lemma {:induction false} PinnedMember(qids: seq<int>, states: seq<World>, q: int)
    ensures q in PinnedOf(qids, states) <==> q in qids && states != [] && Constant(states, q)
  {
    if qids != [] && states != [] {
      var m := |qids| - 1;
      PinnedMember(qids[..m], states, q);
      assert qids == qids[..m] + [qids[m]];
    }
  }

  /** No pinned question means every question shows both values. */
  lemma {:induction false} UnpinnedShowsBoth(qids: seq<int>, states: seq<World>, q: int)
    requires states != [] && q in qids
    ensures q in PinnedOf(qids, states) <==> !BothValues(states, q)
  {
    PinnedMember(qids, states, q);
    assert states[0] in states;
    if !Constant(states, q) {
      var i :| 0 <= i < |states| && Yes(states[i], q) != Yes(states[0], q);
      assert states[i] in states;
    }
    if BothValues(states, q) {
      var w :| w in states && Yes(w, q) != Yes(states[0], q);
      var i :| 0 <= i < |states| && states[i] == w;
    }
  }

  lemma {:induction false} SawMember(states: seq<World>, q: int)
    ensures q in SawTrue(states) <==> exists w :: w in states && q in w && w[q]
    ensures q in SawFalse(states) <==> exists w :: w in states && q in w && !w[q]
  {
    if states != [] {
      var m := |states| - 1;
      SawMember(states[..m], q);
      assert forall w :: w in states <==> w in states[..m] || w == states[m];
    }
  }

  /** Over states that assign exactly the questions, the report says complete exactly when every
      question shows both values. */
  lemma {:induction false} CompleteMeans(interp: Interp, states: seq<World>, qs: set<int>)
    requires states != [] && forall w :: w in states ==> w.Keys == qs
    ensures Check(interp, states).complete <==> forall q :: q in qs ==> BothValues(states, q)
  {
    forall q ensures q in IncompleteOf(states) <==> q in qs && !BothValues(states, q) {
      IncompleteMember(states, qs, q);
    }
    var incomplete := IncompleteOf(states);
    if incomplete == {} {
      forall q | q in qs ensures BothValues(states, q) {
        assert q !in incomplete;
      }
    }
    if forall q :: q in qs ==> BothValues(states, q) {
      assert forall q :: q !in incomplete;
    }
  }

  lemma {:induction false} IncompleteMember(states: seq<World>, qs: set<int>, q: int)
    requires states != [] && forall w :: w in states ==> w.Keys == qs
    ensures q in IncompleteOf(states) <==> q in qs && !BothValues(states, q)
  {
    SawMember(states, q);
    assert states[0] in states;
    assert forall w :: w in states ==> (q in w <==> q in qs);
  }

  /** Hard edge c joins q to an incomplete question. */
  predicate Reaches(c: Constraint, incomplete: set<int>, q: int) {
    c.HardEdge? && ((c.a in incomplete && c.b == q) || (c.b in incomplete && c.a == q))
  }

  lemma {:induction false} SuspectMember(cs: seq<Constraint>, incomplete: set<int>, q: int)
    ensures q in Suspects(cs, incomplete) <==> (q in incomplete || exists c :: c in cs && Reaches(c, incomplete, q))
  {
    if cs != [] {
      var m := |cs| - 1;
      SuspectMember(cs[..m], incomplete, q);
      assert cs == cs[..m] + [cs[m]];
      assert q in Suspects(cs, incomplete) <==> q in Suspects(cs[..m], incomplete) || Reaches(cs[m], incomplete, q);
      if exists c :: c in cs && Reaches(c, incomplete, q) {
        var c :| c in cs && Reaches(c, incomplete, q);
        assert c in cs[..m] || c == cs[m];
      }
    }
  }

  lemma {:induction false} OffendingMember(cs: seq<Constraint>, suspects: set<int>, id: int)
    ensures id in OffendingIds(cs, suspects) <==> exists c :: c in cs && Offends(c, suspects) && c.setId == id
  {
    if cs != [] {
      var m := |cs| - 1;
      OffendingMember(cs[..m], suspects, id);
      assert forall c :: c in cs <==> c in cs[..m] || c == cs[m];
    }
  }
}
