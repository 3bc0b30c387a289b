/** Fourier-Motzkin elimination over finite systems of linear inequalities, with every derived inequality carried as
    the combination it came from. It yields the duals that the facet LP (services/arb-solver/src/solver/facet-lp.ts)
    needs on clusters of any shape. */
module Elimination {
  import opened Graph

  /** Inequality `l` reads: the sum of coef(l, j) times variable j is at most rhs(l). */
  datatype System<!L> = System(coef: (L, nat) -> real, rhs: L -> real)

  /** A non-negative combination of given inequalities. */
  datatype Combo<L> = Given(l: L) | Plus(a: Combo<L>, b: Combo<L>) | Scaled(c: real, a: Combo<L>)

  ghost predicate NonNegative<L>(p: Combo<L>) {
    match p
    case Given(_) => true
    case Plus(a, b) => NonNegative(a) && NonNegative(b)
    case Scaled(c, a) => c >= 0.0 && NonNegative(a)
  }

  /** A product as a function, so equal factors give equal products. */
  function Times(a: real, b: real): real {
    a * b
  }

  ghost function Coef<L>(sys: System<L>, p: Combo<L>, j: nat): real {
    match p
    case Given(l) => sys.coef(l, j)
    case Plus(a, b) => Coef(sys, a, j) + Coef(sys, b, j)
    case Scaled(c, a) => Times(c, Coef(sys, a, j))
  }

  ghost function Rhs<L>(sys: System<L>, p: Combo<L>): real {
    match p
    case Given(l) => sys.rhs(l)
    case Plus(a, b) => Rhs(sys, a) + Rhs(sys, b)
    case Scaled(c, a) => Times(c, Rhs(sys, a))
  }

  /** Left-hand side at z over the first k variables. */
  ghost function Lhs<L>(sys: System<L>, p: Combo<L>, z: seq<real>, k: nat): real
    requires k <= |z|
  {
    if k == 0 then 0.0 else Lhs(sys, p, z, k - 1) + Times(Coef(sys, p, k - 1), z[k - 1])
  }

  ghost predicate Holds<L>(sys: System<L>, p: Combo<L>, z: seq<real>) {
    Lhs(sys, p, z, |z|) <= Rhs(sys, p)
  }

  ghost predicate AllHold<L>(sys: System<L>, s: set<Combo<L>>, z: seq<real>) {
    forall p :: p in s ==> Holds(sys, p, z)
  }

  // ---------- Linearity ----------

  lemma {:induction false} TimesPlus(a: real, b: real, c: real)
    ensures Times(a + b, c) == Times(a, c) + Times(b, c) && Times(c, a + b) == Times(c, a) + Times(c, b)
  {
  }

  lemma {:induction false} TimesTwice(a: real, b: real, c: real)
    ensures Times(Times(a, b), c) == Times(a, Times(b, c))
  {
    TripleProduct(a, b, c);
  }

  lemma {:induction false} TripleProduct(a: real, b: real, c: real)
    ensures (a * b) * c == a * (b * c)
  {
  }

  lemma {:induction false} LhsPlus<L>(sys: System<L>, a: Combo<L>, b: Combo<L>, z: seq<real>, k: nat)
    requires k <= |z|
    ensures Lhs(sys, Plus(a, b), z, k) == Lhs(sys, a, z, k) + Lhs(sys, b, z, k)
  {
    hide Times;
    if k > 0 {
      LhsPlus(sys, a, b, z, k - 1);
      TimesPlus(Coef(sys, a, k - 1), Coef(sys, b, k - 1), z[k - 1]);
    }
  }

  lemma {:induction false} LhsScaled<L>(sys: System<L>, c: real, a: Combo<L>, z: seq<real>, k: nat)
    requires k <= |z|
    ensures Lhs(sys, Scaled(c, a), z, k) == Times(c, Lhs(sys, a, z, k))
  {
    hide Times;
    if k > 0 {
      LhsScaled(sys, c, a, z, k - 1);
      TimesTwice(c, Coef(sys, a, k - 1), z[k - 1]);
      TimesPlus(Lhs(sys, a, z, k - 1), Times(Coef(sys, a, k - 1), z[k - 1]), c);
    } else {
      TimesZero(c);
    }
  }

  lemma {:induction false} TimesZero(c: real)
    ensures Times(c, 0.0) == 0.0 && Times(0.0, c) == 0.0
  {
  }

  /** Only the variables below k matter. */
  lemma {:induction false} LhsPrefix<L>(sys: System<L>, p: Combo<L>, z: seq<real>, y: seq<real>, k: nat)
    requires k <= |z| && k <= |y| && z[..k] == y[..k]
    ensures Lhs(sys, p, z, k) == Lhs(sys, p, y, k)
  {
    hide Times;
    if k > 0 {
      assert z[..k - 1] == z[..k][..k - 1] && y[..k - 1] == y[..k][..k - 1];
      assert z[k - 1] == z[..k][k - 1] && y[k - 1] == y[..k][k - 1];
      LhsPrefix(sys, p, z, y, k - 1);
    }
  }

  // ---------- One elimination ----------

  /** Cancels variable j between an upper and a lower bound on it. */
  ghost function Cancel<L>(sys: System<L>, p: Combo<L>, q: Combo<L>, j: nat): Combo<L>
    requires Coef(sys, p, j) > 0.0 && Coef(sys, q, j) < 0.0
  {
    Plus(Scaled(1.0 / Coef(sys, p, j), p), Scaled(-1.0 / Coef(sys, q, j), q))
  }

  ghost function Eliminate<L>(sys: System<L>, s: set<Combo<L>>, j: nat): set<Combo<L>> {
    (set p | p in s && Coef(sys, p, j) == 0.0) +
    (set p, q | p in s && q in s && Coef(sys, p, j) > 0.0 && Coef(sys, q, j) < 0.0 :: Cancel(sys, p, q, j))
  }

  ghost predicate Proper<L>(sys: System<L>, s: set<Combo<L>>, k: nat) {
    forall p :: p in s ==> NonNegative(p) && forall j :: j >= k ==> Coef(sys, p, j) == 0.0
  }

  lemma {:induction false} CancelProper<L>(sys: System<L>, p: Combo<L>, q: Combo<L>, j: nat)
    requires Coef(sys, p, j) > 0.0 && Coef(sys, q, j) < 0.0 && NonNegative(p) && NonNegative(q)
    requires forall i :: i >= j + 1 ==> Coef(sys, p, i) == 0.0 && Coef(sys, q, i) == 0.0
    ensures NonNegative(Cancel(sys, p, q, j)) && forall i :: i >= j ==> Coef(sys, Cancel(sys, p, q, j), i) == 0.0
  {
    hide Times;
    var a, b := 1.0 / Coef(sys, p, j), -1.0 / Coef(sys, q, j);
    Reciprocals(Coef(sys, p, j), Coef(sys, q, j));
    forall i | i >= j ensures Coef(sys, Cancel(sys, p, q, j), i) == 0.0 {
      assert Cancel(sys, p, q, j) == Plus(Scaled(a, p), Scaled(b, q));
      assert Coef(sys, Plus(Scaled(a, p), Scaled(b, q)), i) == Coef(sys, Scaled(a, p), i) + Coef(sys, Scaled(b, q), i);
      assert Coef(sys, Scaled(a, p), i) == Times(a, Coef(sys, p, i)) &&
             Coef(sys, Scaled(b, q), i) == Times(b, Coef(sys, q, i));
      TimesZero(a);
      TimesZero(b);
      if i > j { assert Coef(sys, p, i) == 0.0 && Coef(sys, q, i) == 0.0; }
    }
  }

  lemma {:induction false} Reciprocals(x: real, y: real)
    requires x > 0.0 && y < 0.0
    ensures 1.0 / x > 0.0 && -1.0 / y > 0.0 && Times(1.0 / x, x) == 1.0 && Times(-1.0 / y, y) == -1.0
  {
  }

  lemma {:induction false} EliminateProper<L>(sys: System<L>, s: set<Combo<L>>, j: nat)
    requires Proper(sys, s, j + 1)
    ensures Proper(sys, Eliminate(sys, s, j), j)
  {
    hide Coef, NonNegative, Cancel;
    forall r | r in Eliminate(sys, s, j) ensures NonNegative(r) && forall i :: i >= j ==> Coef(sys, r, i) == 0.0 {
      if r in s && Coef(sys, r, j) == 0.0 {
      } else {
        var p, q :| p in s && q in s && Coef(sys, p, j) > 0.0 && Coef(sys, q, j) < 0.0 && r == Cancel(sys, p, q, j);
        CancelProper(sys, p, q, j);
      }
    }
  }

  // ---------- Lifting a point back ----------

  lemma {:induction false} ArgMax<A(!new)>(s: set<A>, f: A -> real) returns (m: A)
    requires s != {}
    ensures m in s && forall x :: x in s ==> f(x) <= f(m)
    decreases |s|
  {
    var first := SomeIn(s);
    var rest := s - {first};
    m := first;
    if rest != {} {
      var x := ArgMax(rest, f);
      if f(x) > f(first) { m := x; }
    }
    forall y | y in s ensures f(y) <= f(m) { assert y == first || y in rest; }
  }

  /** The bound inequality p puts on variable j once the earlier ones are u. */
  ghost function Bound<L>(sys: System<L>, p: Combo<L>, u: seq<real>): real
    requires Coef(sys, p, |u|) != 0.0
  {
    (Rhs(sys, p) - Lhs(sys, p, u, |u|)) / Coef(sys, p, |u|)
  }

  lemma {:induction false} Scales(c: real, x: real, t: real)
    requires c > 0.0
    ensures t <= x <==> Times(c, t) <= Times(c, x)
  {
    Gap(c, x, t);
    if t <= x { assert c * (x - t) >= 0.0; } else { assert c * (t - x) > 0.0; }
  }

  lemma {:induction false} Gap(c: real, x: real, t: real)
    ensures Times(c, x) - Times(c, t) == c * (x - t) && c * (t - x) == -(c * (x - t))
  {
  }

  lemma {:induction false} Quotient(c: real, slack: real)
    requires c != 0.0
    ensures Times(c, slack / c) == slack
  {
  }

  lemma {:induction false} UpperBound(c: real, slack: real, t: real)
    requires c > 0.0
    ensures t <= slack / c <==> Times(c, t) <= slack
  {
    hide Times;
    Quotient(c, slack);
    Scales(c, slack / c, t);
  }

  lemma {:induction false} LowerBound(c: real, slack: real, t: real)
    requires c < 0.0
    ensures t >= slack / c <==> Times(c, t) <= slack
  {
    hide Times;
    Quotient(c, slack);
    Scales(-c, t, slack / c);
    Negated(c, t);
    Negated(c, slack / c);
  }

  lemma {:induction false} Negated(c: real, t: real)
    ensures Times(-c, t) == -Times(c, t)
  {
  }

  /** A cancelled pair says exactly that the lower bound does not pass the upper one. */
  lemma {:induction false} BoundsInOrder<L>(sys: System<L>, p: Combo<L>, q: Combo<L>, u: seq<real>)
    requires Coef(sys, p, |u|) > 0.0 && Coef(sys, q, |u|) < 0.0 && Holds(sys, Cancel(sys, p, q, |u|), u)
    ensures Bound(sys, q, u) <= Bound(sys, p, u)
  {
    hide Times, Lhs;
    var j := |u|;
    var a, b := Coef(sys, p, j), Coef(sys, q, j);
    var x, y := Lhs(sys, p, u, j), Lhs(sys, q, u, j);
    LhsPlus(sys, Scaled(1.0 / a, p), Scaled(-1.0 / b, q), u, j);
    LhsScaled(sys, 1.0 / a, p, u, j);
    LhsScaled(sys, -1.0 / b, q, u, j);
    assert Cancel(sys, p, q, j) == Plus(Scaled(1.0 / a, p), Scaled(-1.0 / b, q));
    assert Rhs(sys, Cancel(sys, p, q, j)) == Rhs(sys, Scaled(1.0 / a, p)) + Rhs(sys, Scaled(-1.0 / b, q));
    Slacks(a, b, Rhs(sys, p), Rhs(sys, q), x, y);
  }

  lemma {:induction false} Slacks(a: real, b: real, r: real, s: real, x: real, y: real)
    requires a > 0.0 && b < 0.0 && Times(1.0 / a, x) + Times(-1.0 / b, y) <= Times(1.0 / a, r) + Times(-1.0 / b, s)
    ensures (s - y) / b <= (r - x) / a
  {
    assert Times(1.0 / a, x) == x / a && Times(1.0 / a, r) == r / a;
    assert Times(-1.0 / b, y) == -(y / b) && Times(-1.0 / b, s) == -(s / b);
    assert (r - x) / a == r / a - x / a;
    assert (s - y) / b == s / b - y / b;
  }

  /** A value for the next variable that meets every bound. */
  lemma {:induction false} PickValue<L(!new)>(sys: System<L>, s: set<Combo<L>>, u: seq<real>) returns (t: real)
    requires forall p, q :: p in s && q in s && Coef(sys, p, |u|) > 0.0 && Coef(sys, q, |u|) < 0.0 ==>
               Bound(sys, q, u) <= Bound(sys, p, u)
    ensures forall p :: p in s && Coef(sys, p, |u|) > 0.0 ==> t <= Bound(sys, p, u)
    ensures forall q :: q in s && Coef(sys, q, |u|) < 0.0 ==> Bound(sys, q, u) <= t
  {
    hide Coef, Bound;
    var lower := set q | q in s && Coef(sys, q, |u|) < 0.0;
    var upper := set p | p in s && Coef(sys, p, |u|) > 0.0;
    var f := (p: Combo<L>) => if Coef(sys, p, |u|) != 0.0 then Bound(sys, p, u) else 0.0;
    var g := (p: Combo<L>) => -f(p);
    if lower != {} {
      var q := ArgMax(lower, f);
      t := f(q);
    } else if upper != {} {
      var p := ArgMax(upper, g);
      t := f(p);
      forall x | x in upper ensures t <= f(x) { assert g(x) <= g(p); }
    } else {
      t := 0.0;
    }
    forall p | p in s && Coef(sys, p, |u|) > 0.0 ensures t <= Bound(sys, p, u) { assert p in upper; }
    forall q | q in s && Coef(sys, q, |u|) < 0.0 ensures Bound(sys, q, u) <= t { assert q in lower; }
  }

  lemma {:induction false} Extends<L>(sys: System<L>, p: Combo<L>, u: seq<real>, t: real)
    ensures Lhs(sys, p, u + [t], |u| + 1) == Lhs(sys, p, u, |u|) + Times(Coef(sys, p, |u|), t)
  {
    assert (u + [t])[..|u|] == u[..|u|];
    LhsPrefix(sys, p, u + [t], u, |u|);
  }

  /** Every point of the projection extends to a point of the system. */
  lemma {:induction false} LiftOne<L(!new)>(sys: System<L>, s: set<Combo<L>>, u: seq<real>) returns (t: real)
    requires AllHold(sys, Eliminate(sys, s, |u|), u)
    ensures AllHold(sys, s, u + [t])
  {
    hide Coef, Lhs, Times, Rhs;
    var j := |u|;
    forall p, q | p in s && q in s && Coef(sys, p, j) > 0.0 && Coef(sys, q, j) < 0.0
      ensures Bound(sys, q, u) <= Bound(sys, p, u) {
      assert Cancel(sys, p, q, j) in Eliminate(sys, s, j);
      BoundsInOrder(sys, p, q, u);
    }
    t := PickValue(sys, s, u);
    forall p | p in s ensures Holds(sys, p, u + [t]) {
      Extends(sys, p, u, t);
      var slack := Rhs(sys, p) - Lhs(sys, p, u, j);
      if Coef(sys, p, j) > 0.0 {
        UpperBound(Coef(sys, p, j), slack, t);
      } else if Coef(sys, p, j) < 0.0 {
        LowerBound(Coef(sys, p, j), slack, t);
      } else {
        assert p in Eliminate(sys, s, j);
        TimesZero(t);
      }
    }
  }

  // ---------- Down to the first variables ----------

  ghost function EliminateTo<L>(sys: System<L>, s: set<Combo<L>>, k: nat, stop: nat): set<Combo<L>>
    requires stop <= k
    decreases k
  {
    if k == stop then s else EliminateTo(sys, Eliminate(sys, s, k - 1), k - 1, stop)
  }

  lemma {:induction false} EliminateToProper<L>(sys: System<L>, s: set<Combo<L>>, k: nat, stop: nat)
    requires stop <= k && Proper(sys, s, k)
    ensures Proper(sys, EliminateTo(sys, s, k, stop), stop)
    decreases k
  {
    hide Proper, Eliminate;
    if k > stop {
      EliminateProper(sys, s, k - 1);
      EliminateToProper(sys, Eliminate(sys, s, k - 1), k - 1, stop);
    }
  }

  /** A point of the last projection extends to a point of the whole system. */
  lemma {:induction false} Lift<L(!new)>(sys: System<L>, s: set<Combo<L>>, k: nat, stop: nat, u: seq<real>)
    returns (z: seq<real>)
    requires stop <= k && |u| == stop && AllHold(sys, EliminateTo(sys, s, k, stop), u)
    ensures |z| == k && z[..stop] == u && AllHold(sys, s, z)
    decreases k
  {
    hide AllHold, Eliminate;
    if k == stop {
      z := u;
    } else {
      var y := Lift(sys, Eliminate(sys, s, k - 1), k - 1, stop, u);
      var t := LiftOne(sys, s, y);
      z := y + [t];
      assert z[..stop] == y[..stop];
    }
  }
}
