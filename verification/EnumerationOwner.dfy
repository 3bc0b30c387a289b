/** When the enumerated product equals Ω. Overlapping sets are merged by letting the later one
    overwrite, so each question is finally set by its last set, its owner. The states satisfy every
    set exactly when the owners are compatible with it. */
module EnumerationOwner {
  import opened Graph
  import opened Omega
  import opened StateEnumerator
  import opened EnumerationExact

  /** Set constraints as interpretation yields them when no set repeats a slot. */
  ghost predicate PlainSets(gs: seq<Constraint>) {
    forall c :: c in gs ==>
      !c.HardEdge? && Distinct(c.slots) && c.slots != [] && (c.OneHot? ==> |c.slots| >= 2)
  }

  function Table(c: Constraint): seq<World>
    requires !c.HardEdge?
  {
    GroupOf(c)[0]
  }

  /** The last constraint that covers q, -1 if none. */
  function Owner(gs: seq<Constraint>, q: int): (i: int)
    ensures -1 <= i < |gs|
    ensures i >= 0 ==> q in SlotsOf(gs[i])
  {
    if gs == [] then -1 else
      var m := |gs| - 1;
      if q in SlotsOf(gs[m]) then m else Owner(gs[..m], q)
  }

  ghost predicate InOrder(slots: seq<int>, a: int, b: int) {
    exists m, n :: 0 <= m < n < |slots| && slots[m] == a && slots[n] == b
  }

  /** The caller-checkable condition. One-hot: one one-hot set owns all the slots and, for Σ = 1, is
      itself Σ = 1 over a subset of them. Chain: neighbouring rungs share an owning chain that lists
      them in the same order. */
  ghost predicate Compatible(gs: seq<Constraint>, c: Constraint) {
    match c
    case OneHot(_, slots, exhaustive) =>
      slots != [] && var h := Owner(gs, slots[0]);
      && h >= 0 && gs[h].OneHot?
      && (forall q :: q in slots ==> Owner(gs, q) == h)
      && (exhaustive ==> gs[h].exhaustive && forall q :: q in gs[h].slots ==> q in slots)
    case Chain(_, slots) =>
      forall j {:trigger slots[j]} :: 0 <= j < |slots| - 1 ==>
        var h := Owner(gs, slots[j]);
        && h >= 0 && h == Owner(gs, slots[j + 1]) && gs[h].Chain?
        && InOrder(gs[h].slots, slots[j], slots[j + 1])
    case HardEdge(_, _, _, _) => true
  }

  // ---------- Tables ----------

  lemma {:induction false} TabulateKeys(slots: seq<int>, flags: seq<bool>, k: nat)
    requires k <= |slots| == |flags|
    ensures Tabulate(slots, flags, k).Keys == SetOf(slots[..k])
  {
    if k > 0 {
      TabulateKeys(slots, flags, k - 1);
      assert slots[..k] == slots[..k - 1] + [slots[k - 1]];
    }
  }

  lemma {:induction false} TabulateValue(slots: seq<int>, flags: seq<bool>, k: nat)
    requires Distinct(slots) && k <= |slots| == |flags|
    ensures forall j :: 0 <= j < k ==> (Yes(Tabulate(slots, flags, k), slots[j]) <==> flags[j])
  {
    if k > 0 { TabulateValue(slots, flags, k - 1); }
  }

  lemma {:induction false} FlagRow(slots: seq<int>, flags: seq<bool>)
    requires Distinct(slots) && |slots| == |flags|
    ensures Tabulate(slots, flags, |slots|).Keys == SetOf(slots)
    ensures forall j :: 0 <= j < |slots| ==> (Yes(Tabulate(slots, flags, |slots|), slots[j]) <==> flags[j])
  {
    TabulateKeys(slots, flags, |slots|);
    TabulateValue(slots, flags, |slots|);
    assert slots[..|slots|] == slots;
  }

  /** A table row is its flags read off the slots, and obeys the constraint. */
  lemma {:induction false} CategoricalSound(c: Constraint, p: World)
    requires c.OneHot? && Distinct(c.slots) && p in Table(c)
    ensures p.Keys == SetOf(c.slots) && Holds(c, p)
  {
    var n := |c.slots|;
    var r :| 0 <= r < |Table(c)| && Table(c)[r] == p;
    if r < n {
      FlagRow(c.slots, OneAt(n, r));
      forall q | q in c.slots ensures Yes(p, q) <==> q == c.slots[r] {
        var j :| 0 <= j < n && c.slots[j] == q;
      }
      CountYesOne(c.slots, p, c.slots[r]);
    } else {
      FlagRow(c.slots, NoneOf(n));
      CountYesNone(c.slots, p);
    }
  }

  lemma {:induction false} TableSound(c: Constraint, p: World)
    requires !c.HardEdge? && Distinct(c.slots) && p in Table(c)
    ensures p.Keys == SetOf(c.slots) && Holds(c, p)
  {
    if c.OneHot? {
      CategoricalSound(c, p);
    } else {
      var r :| 0 <= r < |Table(c)| && Table(c)[r] == p;
      FlagRow(c.slots, FromEnd(|c.slots|, r));
    }
  }

  lemma {:induction false} PickYes(c: Constraint, q: int) returns (p: World)
    requires !c.HardEdge? && Distinct(c.slots) && q in c.slots
    ensures p in Table(c) && Yes(p, q)
    ensures c.Chain? ==> forall s :: s in c.slots ==> Yes(p, s)
  {
    var n := |c.slots|;
    var i :| 0 <= i < n && c.slots[i] == q;
    if c.OneHot? {
      FlagRow(c.slots, OneAt(n, i));
      p := Table(c)[i];
    } else {
      FlagRow(c.slots, FromEnd(n, n));
      p := Table(c)[n];
    }
  }

  lemma {:induction false} PickNo(c: Constraint, q: int) returns (p: World)
    requires !c.HardEdge? && Distinct(c.slots) && q in c.slots && (c.OneHot? ==> |c.slots| >= 2)
    ensures p in Table(c) && !Yes(p, q)
    ensures (c.OneHot? && !c.exhaustive) || c.Chain? ==> forall s :: s in c.slots ==> !Yes(p, s)
  {
    var n := |c.slots|;
    var i :| 0 <= i < n && c.slots[i] == q;
    if c.Chain? {
      FlagRow(c.slots, FromEnd(n, 0));
      p := Table(c)[0];
    } else if c.exhaustive {
      var j := if i == 0 then 1 else 0;
      FlagRow(c.slots, OneAt(n, j));
      p := Table(c)[j];
    } else {
      FlagRow(c.slots, NoneOf(n));
      p := Table(c)[n];
    }
  }

  /** A chain that does not list a before b has a state with a YES and b NO. */
  lemma {:induction false} PickSplit(c: Constraint, a: int, b: int) returns (p: World)
    requires c.Chain? && Distinct(c.slots) && a in c.slots && b in c.slots && a != b && !InOrder(c.slots, a, b)
    ensures p in Table(c) && Yes(p, a) && !Yes(p, b)
  {
    var n := |c.slots|;
    var i :| 0 <= i < n && c.slots[i] == a;
    var j :| 0 <= j < n && c.slots[j] == b;
    assert j < i;
    FlagRow(c.slots, FromEnd(n, n - i));
    p := Table(c)[n - i];
  }

  // ---------- The product is all ways of choosing one row per table ----------

  ghost predicate ValidChoice(gs: seq<Constraint>, choice: seq<World>) {
    |choice| == |gs| && forall i :: 0 <= i < |gs| ==> !gs[i].HardEdge? && choice[i] in Table(gs[i])
  }

  function Merge(choice: seq<World>): World {
    if choice == [] then map[] else Merge(choice[..|choice| - 1]) + choice[|choice| - 1]
  }

  ghost predicate PlainPrefix(gs: seq<Constraint>) {
    gs != [] && PlainSets(gs[..|gs| - 1]) && !gs[|gs| - 1].HardEdge? && Distinct(gs[|gs| - 1].slots)
  }

  lemma {:induction false} PlainSplit(gs: seq<Constraint>)
    requires PlainSets(gs) && gs != []
    ensures PlainPrefix(gs)
    ensures Groups(gs) == Groups(gs[..|gs| - 1]) + [Table(gs[|gs| - 1])]
  {
    var m := |gs| - 1;
    assert gs[m] in gs && forall c :: c in gs[..m] ==> c in gs;
  }

  lemma {:induction false} ChoicePrefix(gs: seq<Constraint>, choice: seq<World>)
    requires ValidChoice(gs, choice) && gs != []
    ensures ValidChoice(gs[..|gs| - 1], choice[..|gs| - 1])
    ensures !gs[|gs| - 1].HardEdge? && choice[|gs| - 1] in Table(gs[|gs| - 1])
  {
  }

  /** The owner's row decides. */
  lemma {:induction false} MergeAt(gs: seq<Constraint>, choice: seq<World>, q: int)
    requires PlainSets(gs) && ValidChoice(gs, choice)
    ensures q in Merge(choice) <==> Owner(gs, q) >= 0
    ensures Yes(Merge(choice), q) <==> Owner(gs, q) >= 0 && Yes(choice[Owner(gs, q)], q)
  {
    if gs != [] {
      var m := |gs| - 1;
      PlainSplit(gs);
      ChoicePrefix(gs, choice);
      MergeAt(gs[..m], choice[..m], q);
      TableSound(gs[m], choice[m]);
      assert Merge(choice) == Merge(choice[..m]) + choice[m];
      assert q in choice[m] <==> q in gs[m].slots;
    }
  }

  lemma {:induction false} ChoiceInProduct(gs: seq<Constraint>, choice: seq<World>)
    requires PlainSets(gs) && ValidChoice(gs, choice)
    ensures Merge(choice) in Product(Groups(gs), |Groups(gs)|)
  {
    if gs != [] {
      var m := |gs| - 1;
      PlainSplit(gs);
      ChoicePrefix(gs, choice);
      ChoiceInProduct(gs[..m], choice[..m]);
      ProductHas(Groups(gs[..m]), Table(gs[m]), Merge(choice[..m]), choice[m]);
    }
  }

  lemma {:induction false} ChoiceSnoc(gs: seq<Constraint>, rest: seq<World>, p: World)
    requires gs != [] && ValidChoice(gs[..|gs| - 1], rest)
    requires !gs[|gs| - 1].HardEdge? && p in Table(gs[|gs| - 1])
    ensures ValidChoice(gs, rest + [p]) && Merge(rest + [p]) == Merge(rest) + p
  {
    hide Table;
    assert (rest + [p])[..|rest|] == rest;
    assert forall i :: 0 <= i < |rest| ==> gs[..|gs| - 1][i] == gs[i];
  }

  lemma {:induction false} ProductIsChoice(gs: seq<Constraint>, x: World) returns (choice: seq<World>)
    requires PlainSets(gs) && x in Product(Groups(gs), |Groups(gs)|)
    ensures ValidChoice(gs, choice) && Merge(choice) == x
  {
    choice := [];
    if gs != [] {
      var m := |gs| - 1;
      PlainSplit(gs);
      var e, p := ProductSplit(Groups(gs[..m]), Table(gs[m]), x);
      var rest := ProductIsChoice(gs[..m], e);
      ChoiceSnoc(gs, rest, p);
      choice := rest + [p];
    }
  }

  // ---------- Compatible owners: every state satisfies the set ----------

  lemma {:induction false} CompatibleOneHot(gs: seq<Constraint>, choice: seq<World>, c: Constraint)
    requires PlainSets(gs) && ValidChoice(gs, choice) && c in gs && c.OneHot? && Compatible(gs, c)
    ensures Holds(c, Merge(choice))
  {
    var w := Merge(choice);
    var h := Owner(gs, c.slots[0]);
    assert gs[h] in gs;
    TableSound(gs[h], choice[h]);
    CountYesBounds(gs[h].slots, choice[h]);
    CountYesBounds(c.slots, w);
    forall q | q in c.slots ensures Yes(w, q) <==> Yes(choice[h], q) {
      MergeAt(gs, choice, q);
    }
    forall i, j | 0 <= i < j < |c.slots| ensures !(Yes(w, c.slots[i]) && Yes(w, c.slots[j])) {
      OwnedPair(gs[h].slots, choice[h], c.slots[i], c.slots[j]);
    }
    if c.exhaustive {
      var q :| q in gs[h].slots && Yes(choice[h], q);
      assert q in c.slots && Yes(w, q);
    }
  }

  lemma {:induction false} OwnedPair(slots: seq<int>, p: World, a: int, b: int)
    requires AtMostOne(slots, p) && p.Keys == SetOf(slots) && a != b
    ensures !(Yes(p, a) && Yes(p, b))
  {
    if a in slots && b in slots {
      var i :| 0 <= i < |slots| && slots[i] == a;
      var j :| 0 <= j < |slots| && slots[j] == b;
      assert i < j || j < i;
    }
  }

  lemma {:induction false} CompatibleChain(gs: seq<Constraint>, choice: seq<World>, c: Constraint)
    requires PlainSets(gs) && ValidChoice(gs, choice) && c in gs && c.Chain? && Compatible(gs, c)
    ensures Holds(c, Merge(choice))
  {
    var w := Merge(choice);
    forall j {:trigger c.slots[j]} | 0 <= j < |c.slots| - 1 && Yes(w, c.slots[j]) ensures Yes(w, c.slots[j + 1]) {
      var h := Owner(gs, c.slots[j]);
      MergeAt(gs, choice, c.slots[j]);
      MergeAt(gs, choice, c.slots[j + 1]);
      assert gs[h] in gs;
      TableSound(gs[h], choice[h]);
      ChainIsMonotone(gs[h].setId, gs[h].slots, choice[h]);
      var m, n :| 0 <= m < n < |gs[h].slots| && gs[h].slots[m] == c.slots[j] && gs[h].slots[n] == c.slots[j + 1];
    }
  }

  // ---------- Incompatible owners: some state breaks the set ----------

  lemma {:induction false} Defaults(gs: seq<Constraint>, k: nat) returns (choice: seq<World>)
    requires PlainSets(gs) && k <= |gs|
    ensures |choice| == k && forall i :: 0 <= i < k ==> !gs[i].HardEdge? && choice[i] in Table(gs[i])
  {
    choice := [];
    if k > 0 {
      choice := Defaults(gs, k - 1);
      assert gs[k - 1] in gs;
      var p := PickYes(gs[k - 1], gs[k - 1].slots[0]);
      choice := choice + [p];
    }
  }

  /** Two different owners can be made to say anything their tables allow of one slot each. */
  lemma {:induction false} ChooseTwo(gs: seq<Constraint>, h: nat, p: World, g: nat, r: World)
    returns (choice: seq<World>)
    requires PlainSets(gs) && h < |gs| && g < |gs| && (h == g ==> p == r)
    requires !gs[h].HardEdge? && p in Table(gs[h]) && !gs[g].HardEdge? && r in Table(gs[g])
    ensures ValidChoice(gs, choice) && choice[h] == p && choice[g] == r
  {
    choice := Defaults(gs, |gs|);
    choice := choice[h := p][g := r];
  }

  lemma {:induction false} OwnerExists(gs: seq<Constraint>, c: Constraint, q: int)
    requires c in gs && q in SlotsOf(c)
    ensures Owner(gs, q) >= 0
  {
    var m := |gs| - 1;
    if q !in SlotsOf(gs[m]) {
      OwnerExists(gs[..m], c, q);
    }
  }

  /** Two YES slots break a one-hot set. */
  lemma {:induction false} TwoYesBreak(c: Constraint, w: World, a: int, b: int)
    requires c.OneHot? && a in c.slots && b in c.slots && a != b && Yes(w, a) && Yes(w, b)
    ensures !Holds(c, w)
  {
    CountYesBounds(c.slots, w);
    var i :| 0 <= i < |c.slots| && c.slots[i] == a;
    var j :| 0 <= j < |c.slots| && c.slots[j] == b;
    if i < j {
      assert Yes(w, c.slots[i]) && Yes(w, c.slots[j]);
    } else {
      assert Yes(w, c.slots[j]) && Yes(w, c.slots[i]);
    }
  }

  lemma {:induction false} BreakOneHotPair(gs: seq<Constraint>, c: Constraint, a: int, b: int)
    returns (choice: seq<World>)
    requires PlainSets(gs) && c in gs && c.OneHot? && a in c.slots && b in c.slots && a != b
    requires Owner(gs, a) != Owner(gs, b) || (Owner(gs, a) >= 0 && gs[Owner(gs, a)].Chain?)
    ensures ValidChoice(gs, choice) && !Holds(c, Merge(choice))
  {
    var h, g := Owner(gs, a), Owner(gs, b);
    OwnerExists(gs, c, a);
    OwnerExists(gs, c, b);
    assert gs[h] in gs && gs[g] in gs;
    var p := PickYes(gs[h], a);
    var r := p;
    if h != g { r := PickYes(gs[g], b); }
    choice := ChooseTwo(gs, h, p, g, r);
    MergeAt(gs, choice, a);
    MergeAt(gs, choice, b);
    TwoYesBreak(c, Merge(choice), a, b);
  }

  /** All slots NO breaks Σ = 1. */
  lemma {:induction false} BreakExhaustive(gs: seq<Constraint>, c: Constraint) returns (choice: seq<World>)
    requires PlainSets(gs) && c in gs && c.OneHot? && c.exhaustive
    requires var h := Owner(gs, c.slots[0]);
             h >= 0 && gs[h].OneHot? && (forall q :: q in c.slots ==> Owner(gs, q) == h)
             && !(gs[h].exhaustive && forall q :: q in gs[h].slots ==> q in c.slots)
    ensures ValidChoice(gs, choice) && !Holds(c, Merge(choice))
  {
    var h := Owner(gs, c.slots[0]);
    assert gs[h] in gs;
    var p: World;
    if !gs[h].exhaustive {
      p := PickNo(gs[h], c.slots[0]);
    } else {
      var q :| q in gs[h].slots && q !in c.slots;
      p := PickYes(gs[h], q);
      TableSound(gs[h], p);
      CountYesBounds(gs[h].slots, p);
      forall s | s in c.slots ensures !Yes(p, s) {
        OwnedPair(gs[h].slots, p, q, s);
      }
    }
    choice := ChooseTwo(gs, h, p, h, p);
    forall q | q in c.slots ensures !Yes(Merge(choice), q) {
      MergeAt(gs, choice, q);
    }
    CountYesNone(c.slots, Merge(choice));
  }

  lemma {:induction false} BreakOneHot(gs: seq<Constraint>, c: Constraint) returns (choice: seq<World>)
    requires PlainSets(gs) && c in gs && c.OneHot? && !Compatible(gs, c)
    ensures ValidChoice(gs, choice) && !Holds(c, Merge(choice))
  {
    var a := c.slots[0];
    var h := Owner(gs, a);
    OwnerExists(gs, c, a);
    assert gs[h] in gs;
    if gs[h].Chain? {
      choice := BreakOneHotPair(gs, c, a, c.slots[1]);
    } else if b :| b in c.slots && Owner(gs, b) != h {
      choice := BreakOneHotPair(gs, c, a, b);
    } else {
      choice := BreakExhaustive(gs, c);
    }
  }

  lemma {:induction false} BreakChain(gs: seq<Constraint>, c: Constraint) returns (choice: seq<World>)
    requires PlainSets(gs) && c in gs && c.Chain? && !Compatible(gs, c)
    ensures ValidChoice(gs, choice) && !Holds(c, Merge(choice))
  {
    var j :| 0 <= j < |c.slots| - 1 &&
      !(var h := Owner(gs, c.slots[j]);
        && h >= 0 && h == Owner(gs, c.slots[j + 1]) && gs[h].Chain?
        && InOrder(gs[h].slots, c.slots[j], c.slots[j + 1]));
    var a, b := c.slots[j], c.slots[j + 1];
    OwnerExists(gs, c, a);
    OwnerExists(gs, c, b);
    var h, g := Owner(gs, a), Owner(gs, b);
    assert gs[h] in gs && gs[g] in gs;
    var p, r: World;
    if h != g {
      p := PickYes(gs[h], a);
      r := PickNo(gs[g], b);
    } else if gs[h].OneHot? {
      p := PickYes(gs[h], a);
      TableSound(gs[h], p);
      CountYesBounds(gs[h].slots, p);
      OwnedPair(gs[h].slots, p, a, b);
      r := p;
    } else {
      p := PickSplit(gs[h], a, b);
      r := p;
    }
    choice := ChooseTwo(gs, h, p, g, r);
    MergeAt(gs, choice, a);
    MergeAt(gs, choice, b);
    assert Yes(Merge(choice), c.slots[j]) && !Yes(Merge(choice), c.slots[j + 1]);
  }

  /** The states of the sets' product satisfy every set exactly when all owners are compatible. */
  lemma {:induction false} ProductSoundIff(gs: seq<Constraint>)
    requires PlainSets(gs)
    ensures (forall x :: x in Product(Groups(gs), |Groups(gs)|) ==> AllHold(gs, x)) <==>
            (forall c :: c in gs ==> Compatible(gs, c))
  {
    if forall c :: c in gs ==> Compatible(gs, c) {
      forall x, c | x in Product(Groups(gs), |Groups(gs)|) && c in gs ensures Holds(c, x) {
        var choice := ProductIsChoice(gs, x);
        if c.OneHot? {
          CompatibleOneHot(gs, choice, c);
        } else {
          CompatibleChain(gs, choice, c);
        }
      }
    }
    if c :| c in gs && !Compatible(gs, c) {
      var choice: seq<World>;
      if c.OneHot? {
        choice := BreakOneHot(gs, c);
      } else {
        choice := BreakChain(gs, c);
      }
      ChoiceInProduct(gs, choice);
      assert !AllHold(gs, Merge(choice));
    }
  }

  // ---------- At the level of a cluster ----------

  ghost function SetsOf(c: Cluster): seq<Constraint> {
    SetConstraints(c.sets, QidSet(c), {})
  }

  ghost predicate ExactlyOmega(c: Cluster, states: seq<World>) {
    forall w :: w in states <==> InOmega(c, {}, w)
  }

  lemma {:induction false} GroupsOfEdges(ss: seq<Constraint>, es: seq<Constraint>)
    requires forall k :: k in es ==> k.HardEdge?
    ensures Groups(ss + es) == Groups(ss)
  {
    hide CategoricalTable, ThresholdTable, SizeProduct, Groups;
    if es == [] {
      assert ss + es == ss;
    } else {
      var m := |es| - 1;
      assert es[m] in es;
      GroupsOfEdges(ss, es[..m]);
      GroupsSnoc(ss + es[..m], es[m]);
      assert ss + es == (ss + es[..m]) + [es[m]];
    }
  }

  lemma {:induction false} FreeTableSound(qids: seq<int>, p: World)
    requires Distinct(qids) && p in FreeTable(qids)
    ensures p.Keys == SetOf(qids)
  {
    var r :| 0 <= r < |FreeTable(qids)| && FreeTable(qids)[r] == p;
    FlagRow(qids, Bits(|qids|, r));
  }

  ghost function FreeOf(c: Cluster): seq<int> {
    Keep(c.qids, QidSet(c) - Covered(SetsOf(c)))
  }

  lemma {:induction false} CandidateGroups(c: Cluster, cap: nat)
    requires Distinct(c.qids) && Enumerate(c, cap).Ok?
    ensures Distinct(FreeOf(c)) && Covered(SetsOf(c)) !! SetOf(FreeOf(c))
    ensures Covered(SetsOf(c)) + SetOf(FreeOf(c)) == QidSet(c)
    ensures AllGroups(Interpret(c, {}), cap) ==
            WithFree(Groups(SetsOf(c)), FreeOf(c))
  {
    var ss, es := SetsOf(c), EdgeConstraints(c.edges, QidSet(c));
    EdgesCoverNothing(c.edges, QidSet(c));
    GroupsOfEdges(ss, es);
    CoveredBySets(ss, es);
    InterpretCovers(c, {});
    PreflightFits(c, cap);
    KeepDistinct(c.qids, QidSet(c) - Covered(ss));
  }

  function WithFree(groups: seq<seq<World>>, free: seq<int>): seq<seq<World>> {
    groups + if free == [] then [] else [FreeTable(free)]
  }

  lemma {:induction false} SplitFree(gs: seq<Constraint>, free: seq<int>, x: World) returns (e: World)
    requires PlainSets(gs) && Distinct(free) && Covered(gs) !! SetOf(free)
    requires x in Product(WithFree(Groups(gs), free), |WithFree(Groups(gs), free)|)
    ensures e in Product(Groups(gs), |Groups(gs)|) && e.Keys == Covered(gs)
    ensures x.Keys == Covered(gs) + SetOf(free) && forall q :: q in Covered(gs) ==> (Yes(x, q) <==> Yes(e, q))
  {
    hide Product, PlainSets, Covered, FreeTable, Groups;
    e := x;
    if free != [] {
      var p;
      e, p := ProductSplit(Groups(gs), FreeTable(free), x);
      FreeTableSound(free, p);
    } else {
      assert WithFree(Groups(gs), free) == Groups(gs);
    }
    var choice := ProductIsChoice(gs, e);
    MergeKeys(gs, choice);
  }

  lemma {:induction false} JoinFree(gs: seq<Constraint>, free: seq<int>, e: World) returns (x: World)
    requires PlainSets(gs) && Distinct(free) && Covered(gs) !! SetOf(free)
    requires e in Product(Groups(gs), |Groups(gs)|)
    ensures x in Product(WithFree(Groups(gs), free), |WithFree(Groups(gs), free)|)
    ensures forall q :: q in Covered(gs) ==> (Yes(x, q) <==> Yes(e, q))
  {
    x := e;
    if free != [] {
      var p := FreeTable(free)[0];
      FreeTableSound(free, p);
      ProductHas(Groups(gs), FreeTable(free), e, p);
      x := e + p;
    } else {
      assert WithFree(Groups(gs), free) == Groups(gs);
    }
  }

  /** Shape of the candidate product: a sets' state, extended over the free questions. */
  lemma {:induction false} CandidateShape(c: Cluster, cap: nat, x: World) returns (e: World)
    requires Distinct(c.qids) && PlainSets(SetsOf(c)) && Enumerate(c, cap).Ok?
    requires var all := AllGroups(Interpret(c, {}), cap); x in Product(all, |all|)
    ensures e in Product(Groups(SetsOf(c)), |Groups(SetsOf(c))|)
    ensures x.Keys == QidSet(c) && forall q :: q in Covered(SetsOf(c)) ==> (Yes(x, q) <==> Yes(e, q))
  {
    CandidateGroups(c, cap);
    e := SplitFree(SetsOf(c), FreeOf(c), x);
  }

  lemma {:induction false} MergeKeys(gs: seq<Constraint>, choice: seq<World>)
    requires PlainSets(gs) && ValidChoice(gs, choice)
    ensures Merge(choice).Keys == Covered(gs)
  {
    forall q ensures q in Merge(choice) <==> q in Covered(gs) {
      MergeAt(gs, choice, q);
      if q in Covered(gs) {
        var k :| k in gs && q in SlotsOf(k);
        OwnerExists(gs, k, q);
      }
      if Owner(gs, q) >= 0 {
        assert gs[Owner(gs, q)] in gs;
      }
    }
  }

  lemma {:induction false} AllHoldLocal(cs: seq<Constraint>, w: World, w': World)
    requires PlainSets(cs) && forall q :: q in Covered(cs) ==> (Yes(w, q) <==> Yes(w', q))
    ensures AllHold(cs, w) <==> AllHold(cs, w')
  {
    forall k | k in cs ensures Holds(k, w) <==> Holds(k, w') {
      assert forall q :: q in SlotsOf(k) ==> q in Covered(cs);
      HoldsLocal(k, w, w');
    }
  }

  lemma {:induction false} EdgesHold(c: Cluster, w: World)
    requires w.Keys == QidSet(c)
    ensures SatisfiesEdges(w, Interpret(c, {}).constraints) <==> AllHold(EdgeConstraints(c.edges, QidSet(c)), w)
  {
    var ss, es := SetsOf(c), EdgeConstraints(c.edges, QidSet(c));
    forall k | k in es ensures k.HardEdge? && (SatisfiesEdge(w, k) <==> Holds(k, w)) {
      EdgesCoverNothing(c.edges, QidSet(c));
      EdgeConstraintsMember(c.edges, QidSet(c), k);
    }
    forall k | k in ss ensures SatisfiesEdge(w, k) {
      SetConstraintsMember(c.sets, QidSet(c), {}, k);
    }
  }

  /** A state in the candidate product is a world of Ω iff its sets' part satisfies the sets and the
      state satisfies the edges. */
  lemma {:induction false} CandidateInOmega(c: Cluster, cap: nat, x: World, e: World)
    requires PlainSets(SetsOf(c)) && x.Keys == QidSet(c)
    requires forall q :: q in Covered(SetsOf(c)) ==> (Yes(x, q) <==> Yes(e, q))
    ensures InOmega(c, {}, x) <==>
            AllHold(SetsOf(c), e) && SatisfiesEdges(x, Interpret(c, {}).constraints)
  {
    EdgesHold(c, x);
    AllHoldLocal(SetsOf(c), x, e);
    var ss, es := SetsOf(c), EdgeConstraints(c.edges, QidSet(c));
    assert AllHold(ss + es, x) <==> AllHold(ss, x) && AllHold(es, x) by {
      assert forall k :: k in ss + es <==> k in ss || k in es;
    }
  }

  /** Compatible owners suffice, hard edges or not: the enumerated states are exactly Ω. */
  lemma {:induction false} CompatibleIsExact(c: Cluster, cap: nat)
    requires Distinct(c.qids) && PlainSets(SetsOf(c)) && Enumerate(c, cap).Ok?
    requires forall k :: k in SetsOf(c) ==> Compatible(SetsOf(c), k)
    ensures ExactlyOmega(c, StatesOf(Enumerate(c, cap)))
  {
    var all := AllGroups(Interpret(c, {}), cap);
    SomeGroup(c, {}, cap);
    ProductSoundIff(SetsOf(c));
    forall w ensures w in StatesOf(Enumerate(c, cap)) <==> InOmega(c, {}, w) {
      FilterMember(Product(all, |all|), Interpret(c, {}).constraints, w);
      if w in Product(all, |all|) {
        var e := CandidateShape(c, cap, w);
        CandidateInOmega(c, cap, w, e);
      } else if InOmega(c, {}, w) {
        EnumerationCoversOmega(c, cap, w);
      }
    }
  }

  lemma {:induction false} ProductExtends(c: Cluster, cap: nat, e: World) returns (x: World)
    requires Distinct(c.qids) && PlainSets(SetsOf(c)) && Enumerate(c, cap).Ok?
    requires e in Product(Groups(SetsOf(c)), |Groups(SetsOf(c))|)
    ensures var all := AllGroups(Interpret(c, {}), cap); x in Product(all, |all|)
    ensures forall q :: q in Covered(SetsOf(c)) ==> (Yes(x, q) <==> Yes(e, q))
  {
    CandidateGroups(c, cap);
    x := JoinFree(SetsOf(c), FreeOf(c), e);
  }

  /** The exact condition. Without hard edges, the enumerated states are exactly Ω if and only if
      every set is compatible with the owners of its slots; with hard edges the condition suffices. */
  lemma {:induction false} EnumerationExactIff(c: Cluster, cap: nat)
    requires Distinct(c.qids) && PlainSets(SetsOf(c)) && Enumerate(c, cap).Ok?
    requires EdgeConstraints(c.edges, QidSet(c)) == []
    ensures ExactlyOmega(c, StatesOf(Enumerate(c, cap))) <==>
            forall k :: k in SetsOf(c) ==> Compatible(SetsOf(c), k)
  {
    if forall k :: k in SetsOf(c) ==> Compatible(SetsOf(c), k) {
      CompatibleIsExact(c, cap);
    } else {
      ProductSoundIff(SetsOf(c));
      var e :| e in Product(Groups(SetsOf(c)), |Groups(SetsOf(c))|) && !AllHold(SetsOf(c), e);
      var x := ProductExtends(c, cap, e);
      var e' := CandidateShape(c, cap, x);
      EdgesHold(c, x);
      CandidateInOmega(c, cap, x, e);
      var all := AllGroups(Interpret(c, {}), cap);
      SomeGroup(c, {}, cap);
      FilterMember(Product(all, |all|), Interpret(c, {}).constraints, x);
    }
  }

  /** A candidate that satisfies the hard edges, but breaks a set: some later set overwrote it, and no edge caught
      it. */
  ghost predicate Slips(c: Cluster, cap: nat, x: World) {
    var all := AllGroups(Interpret(c, {}), cap);
    x in Product(all, |all|) && SatisfiesEdges(x, Interpret(c, {}).constraints) && !AllHold(SetsOf(c), x)
  }

  /** The exact condition with hard edges: the edges may catch what incompatible sets let through, so the enumerated
      states are exactly Ω if and only if no candidate slips. */
  lemma {:induction false} EnumerationExactWithEdges(c: Cluster, cap: nat)
    requires Distinct(c.qids) && PlainSets(SetsOf(c)) && Enumerate(c, cap).Ok?
    ensures ExactlyOmega(c, StatesOf(Enumerate(c, cap))) <==> forall x :: !Slips(c, cap, x)
  {
    hide Product, Interpret, AllHold, SatisfiesEdges, PlainSets, SetsOf;
    var all := AllGroups(Interpret(c, {}), cap);
    SomeGroup(c, {}, cap);
    forall x ensures x in StatesOf(Enumerate(c, cap)) <==> InOmega(c, {}, x) || Slips(c, cap, x) {
      FilterMember(Product(all, |all|), Interpret(c, {}).constraints, x);
      if x in Product(all, |all|) {
        var e := CandidateShape(c, cap, x);
        CandidateInOmega(c, cap, x, x);
      } else if InOmega(c, {}, x) {
        EnumerationCoversOmega(c, cap, x);
      }
    }
    forall x | Slips(c, cap, x) ensures !InOmega(c, {}, x) {
      var e := CandidateShape(c, cap, x);
      CandidateInOmega(c, cap, x, x);
    }
  }

  /** Sets on pairwise disjoint slots own their slots, so they are compatible. */
  lemma {:induction false} DisjointOwner(gs: seq<Constraint>, i: nat, q: int)
    requires ProductShaped(gs) && i < |gs| && q in SlotsOf(gs[i])
    ensures Owner(gs, q) == i
  {
    var m := |gs| - 1;
    assert q in SetOf(SlotsOf(gs[i]));
    if i < m {
      assert q !in SetOf(SlotsOf(gs[m]));
      assert forall k :: k in gs[..m] ==> k in gs;
      DisjointOwner(gs[..m], i, q);
    }
  }

  lemma {:induction false} DisjointCompatible(gs: seq<Constraint>)
    requires ProductShaped(gs)
    ensures forall c :: c in gs ==> Compatible(gs, c)
  {
    forall c | c in gs ensures Compatible(gs, c) {
      var i :| 0 <= i < |gs| && gs[i] == c;
      forall q | q in SlotsOf(c) ensures Owner(gs, q) == i {
        DisjointOwner(gs, i, q);
      }
      if c.Chain? {
        forall j {:trigger c.slots[j]} | 0 <= j < |c.slots| - 1 ensures InOrder(c.slots, c.slots[j], c.slots[j + 1]) {
        }
      }
    }
  }
}
