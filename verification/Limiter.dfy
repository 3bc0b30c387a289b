/** The shared limiter (packages/llm/src/util/rate-limiter.ts) over all interleavings of its callers: a counting
    semaphore with direct hand-off and a shared pause. Calls are told apart by ids; a call attempts only while it
    holds its permit, at most as often as its retry budgets allow. */
module Limiter {
  import opened Wrappers
  import opened Graph
  import opened Retry

  /** `left` maps each permit holder to the attempts it may still make; `requested` and `granted` are the orders of
      requests and grants so far. */
  datatype State = State(inFlight: int, waiters: seq<int>, left: map<int, nat>, pausedUntil: int, requested: seq<int>,
                         granted: seq<int>)

  datatype Event = Acquire(id: int) | Attempted(id: int) | Release(id: int) | Pause(now: int, delay: int)

  function Start(): State {
    State(0, [], map[], 0, [], [])
  }

  /** A call asks once, attempts and releases only while it holds a permit and has attempts left. */
  predicate Possible(s: State, e: Event) {
    match e
    case Acquire(id) => id !in s.requested
    case Attempted(id) => id in s.left && s.left[id] > 0
    case Release(id) => id in s.left
    case Pause(_, _) => true
  }

  function Step(s: State, e: Event, cap: int, budget: nat): State
    requires Possible(s, e)
  {
    match e
    case Acquire(id) =>
      if s.inFlight < cap then
        s.(inFlight := s.inFlight + 1, left := s.left[id := budget], requested := s.requested + [id],
           granted := s.granted + [id])
      else s.(waiters := s.waiters + [id], requested := s.requested + [id])
    case Attempted(id) => s.(left := s.left[id := s.left[id] - 1])
    case Release(id) =>
      if s.waiters == [] then s.(inFlight := s.inFlight - 1, left := s.left - {id})
      else s.(waiters := s.waiters[1..], left := (s.left - {id})[s.waiters[0] := budget],
              granted := s.granted + [s.waiters[0]])
    case Pause(now, delay) => if now + delay <= s.pausedUntil then s else s.(pausedUntil := now + delay)
  }

  /** The count is the number of permits held and never passes the cap; callers wait only at the cap; grants come
      in the order of requests; nobody is granted more attempts than the budget. */
  ghost predicate Sound(s: State, cap: int, budget: nat) {
    && s.inFlight == |s.left| && s.inFlight <= cap && (s.waiters != [] ==> s.inFlight == cap)
    && s.requested == s.granted + s.waiters && Distinct(s.requested)
    && (forall id :: id in s.left ==> id in s.granted && s.left[id] <= budget)
  }

  lemma {:induction false} DistinctParts(a: seq<int>, b: seq<int>)
    requires Distinct(a + b)
    ensures forall x :: x in a ==> x !in b
  {
    forall i, j | 0 <= i < |a| && 0 <= j < |b| ensures a[i] != b[j] {
      assert (a + b)[i] == a[i] && (a + b)[|a| + j] == b[j];
    }
  }

  lemma {:induction false} StepSound(s: State, e: Event, cap: int, budget: nat)
    requires Sound(s, cap, budget) && Possible(s, e) && cap >= 0
    ensures Sound(Step(s, e, cap, budget), cap, budget)
    ensures Step(s, e, cap, budget).pausedUntil >= s.pausedUntil
  {
    match e
    case Acquire(id) =>
      AcquireSound(s, id, cap, budget);
    case Release(id) =>
      if s.waiters == [] {
        assert |s.left - {id}| == |s.left| - 1 by { Shrinks(s.left, id); }
      } else {
        HandOffSound(s, id, cap, budget);
      }
    case Attempted(id) =>
      assert s.left[id := s.left[id] - 1].Keys == s.left.Keys;
      SameSize(s.left, s.left[id := s.left[id] - 1]);
    case Pause(_, _) =>
  }

  lemma {:induction false} SameSize(a: map<int, nat>, b: map<int, nat>)
    requires a.Keys == b.Keys
    ensures |a| == |b|
  {
    assert |a| == |a.Keys| && |b| == |b.Keys|;
  }

  lemma {:induction false} Shrinks(m: map<int, nat>, id: int)
    requires id in m
    ensures |m - {id}| == |m| - 1
  {
    assert (m - {id}).Keys == m.Keys - {id};
    assert |m| == |m.Keys| && |m - {id}| == |(m - {id}).Keys|;
  }

  lemma {:induction false} Widens(m: map<int, nat>, id: int, v: nat)
    requires id !in m
    ensures |m[id := v]| == |m| + 1
  {
    assert m[id := v].Keys == m.Keys + {id};
    assert |m| == |m.Keys| && |m[id := v]| == |m[id := v].Keys|;
  }

  lemma {:induction false} AcquireSound(s: State, id: int, cap: int, budget: nat)
    requires Sound(s, cap, budget) && id !in s.requested
    ensures Sound(Step(s, Acquire(id), cap, budget), cap, budget)
  {
    if s.inFlight < cap {
      assert s.requested == s.granted;
      assert id !in s.left;
      Widens(s.left, id, budget);
    } else {
      assert s.granted + (s.waiters + [id]) == (s.granted + s.waiters) + [id];
    }
  }

  lemma {:induction false} HandOffSound(s: State, id: int, cap: int, budget: nat)
    requires Sound(s, cap, budget) && id in s.left && s.waiters != []
    ensures Sound(Step(s, Release(id), cap, budget), cap, budget)
  {
    var next := s.waiters[0];
    DistinctParts(s.granted, s.waiters);
    assert next in s.waiters && next !in s.left;
    Shrinks(s.left, id);
    Widens(s.left - {id}, next, budget);
    assert s.granted + s.waiters == (s.granted + [next]) + s.waiters[1..];
  }

  // ---------- Runs ----------

  ghost predicate Run(ss: seq<State>, es: seq<Event>, cap: int, budget: nat) {
    && |ss| == |es| + 1
    && forall i :: 0 <= i < |es| ==> Possible(ss[i], es[i]) && ss[i + 1] == Step(ss[i], es[i], cap, budget)
  }

  /** On every interleaving, at every moment. */
  lemma {:induction false} AlwaysSound(ss: seq<State>, es: seq<Event>, cap: int, budget: nat, k: nat)
    requires Run(ss, es, cap, budget) && ss[0] == Start() && cap >= 0 && k < |ss|
    ensures Sound(ss[k], cap, budget)
  {
    hide Sound, Step;
    if k == 0 {
      StartSound(cap, budget);
    } else {
      AlwaysSound(ss, es, cap, budget, k - 1);
      StepSound(ss[k - 1], es[k - 1], cap, budget);
    }
  }

  lemma {:induction false} StartSound(cap: int, budget: nat)
    requires cap >= 0
    ensures Sound(Start(), cap, budget)
  {
  }

  /** The shared pause only moves later. */
  lemma {:induction false} PauseNeverShrinks(ss: seq<State>, es: seq<Event>, cap: int, budget: nat, j: nat, k: nat)
    requires Run(ss, es, cap, budget) && j <= k < |ss|
    ensures ss[j].pausedUntil <= ss[k].pausedUntil
    decreases k
  {
    if j < k { PauseNeverShrinks(ss, es, cap, budget, j, k - 1); }
  }

  /** It is the latest end that any caller has asked for. */
  lemma {:induction false} PausedIs(ss: seq<State>, es: seq<Event>, cap: int, budget: nat, k: nat)
    requires Run(ss, es, cap, budget) && ss[0] == Start() && k < |ss|
    ensures ss[k].pausedUntil >= 0
    ensures forall i :: 0 <= i < k && es[i].Pause? ==> es[i].now + es[i].delay <= ss[k].pausedUntil
    ensures ss[k].pausedUntil == 0 || exists i :: 0 <= i < k && es[i].Pause? &&
                                                  es[i].now + es[i].delay == ss[k].pausedUntil
  {
    if k > 0 { PausedIs(ss, es, cap, budget, k - 1); }
  }

  // ---------- Every waiter is served ----------

  /** Attempts the permit holders may still make, in all. */
  ghost function TotalLeft(left: map<int, nat>): nat {
    if left == map[] then 0 else
      assert exists id :: id in left.Keys by { var id := SomeIn(left.Keys); }
      var id :| id in left;
      TotalLeft(left - {id}) + left[id]
  }

  lemma {:induction false} TotalPick(left: map<int, nat>, id: int)
    requires id in left
    ensures TotalLeft(left) == TotalLeft(left - {id}) + left[id]
    decreases |left|
  {
    var p :| p in left && TotalLeft(left) == TotalLeft(left - {p}) + left[p];
    if p != id {
      Shrinks(left, p);
      Shrinks(left, id);
      TotalPick(left - {p}, id);
      TotalPick(left - {id}, p);
      assert left - {p} - {id} == left - {id} - {p};
    }
  }

  lemma {:induction false} TotalSet(left: map<int, nat>, id: int, v: nat)
    ensures TotalLeft(left[id := v]) == TotalLeft(left - {id}) + v
  {
    TotalPick(left[id := v], id);
    assert left[id := v] - {id} == left - {id};
  }

  lemma {:induction false} TotalWithout(left: map<int, nat>, id: int)
    ensures TotalLeft(left - {id}) <= TotalLeft(left)
  {
    if id in left { TotalPick(left, id); } else { assert left - {id} == left; }
  }

  /** What may still be attempted before the waiter at position p gets its permit. */
  ghost function Ahead(s: State, p: nat, budget: nat): nat {
    TotalLeft(s.left) + p * budget
  }

  function AttemptsIn(es: seq<Event>, k: nat): nat
    requires k <= |es|
  {
    if k == 0 then 0 else AttemptsIn(es, k - 1) + if es[k - 1].Attempted? then 1 else 0
  }

  function ReleasesIn(es: seq<Event>, k: nat): nat
    requires k <= |es|
  {
    if k == 0 then 0 else ReleasesIn(es, k - 1) + if es[k - 1].Release? then 1 else 0
  }

  /** One step with the waiter still waiting: a release moves it up by one, an attempt uses up what is ahead. */
  lemma {:induction false} StepAhead(s: State, e: Event, cap: int, budget: nat, id: int, p: nat)
    requires Possible(s, e) && Sound(s, cap, budget) && p < |s.waiters| && s.waiters[p] == id
    ensures var s' := Step(s, e, cap, budget);
            var p' := if e.Release? then p - 1 else p;
            p' >= 0 ==> p' < |s'.waiters| && s'.waiters[p'] == id &&
                        Ahead(s', p', budget) + (if e.Attempted? then 1 else 0) <= Ahead(s, p, budget)
  {
    match e
    case Attempted(a) =>
      TotalPick(s.left, a);
      TotalSet(s.left, a, s.left[a] - 1);
    case Release(a) =>
      if p > 0 {
        TotalSet(s.left - {a}, s.waiters[0], budget);
        TotalWithout(s.left - {a}, s.waiters[0]);
        TotalWithout(s.left, a);
        Fewer(p, budget);
      }
    case _ =>
  }

  lemma {:induction false} Fewer(p: nat, budget: nat)
    requires p > 0
    ensures p * budget == (p - 1) * budget + budget
  {
  }

  /** Served after as many releases as there were callers ahead of it and one more; and the attempts made in the
      meantime are at most those the holders had left plus one budget for each caller ahead. */
  lemma {:induction false} WaiterProgress(ss: seq<State>, es: seq<Event>, cap: int, budget: nat, id: int, p: nat,
                                          k: nat)
    requires Run(ss, es, cap, budget) && Sound(ss[0], cap, budget) && cap >= 0 && k <= |es|
    requires p < |ss[0].waiters| && ss[0].waiters[p] == id && ReleasesIn(es, k) <= p
    ensures Sound(ss[k], cap, budget)
    ensures var q := p - ReleasesIn(es, k);
            q < |ss[k].waiters| && ss[k].waiters[q] == id &&
                                Ahead(ss[k], q, budget) + AttemptsIn(es, k) <= Ahead(ss[0], p, budget)
  {
    hide Sound, Step, Ahead, Possible;
    if k > 0 {
      WaiterProgress(ss, es, cap, budget, id, p, k - 1);
      var q := p - ReleasesIn(es, k - 1);
      StepSound(ss[k - 1], es[k - 1], cap, budget);
      StepAhead(ss[k - 1], es[k - 1], cap, budget, id, q);
    }
  }

  lemma {:induction false} ServedStep(s: State, e: Event, cap: int, budget: nat, id: int)
    requires Possible(s, e) && s.waiters != [] && s.waiters[0] == id && e.Release?
    ensures id in Step(s, e, cap, budget).left && Step(s, e, cap, budget).granted == s.granted + [id]
  {
  }

  lemma {:induction false} TotalBound(left: map<int, nat>, budget: nat)
    requires forall id :: id in left ==> left[id] <= budget
    ensures TotalLeft(left) <= |left| * budget
    decreases |left|
  {
    if left != map[] {
      var id := SomeIn(left.Keys);
      TotalPick(left, id);
      Shrinks(left, id);
      TotalBound(left - {id}, budget);
      Fewer(|left|, budget);
    }
  }

  /** No waiter starves. On any interleaving the caller with p others ahead of it in the queue is granted its
      permit by the (p + 1)-th release, and until then the whole group makes at most (cap + p) times one call's
      bound of attempts. */
  lemma {:induction false} EveryWaiterServed(ss: seq<State>, es: seq<Event>, cap: int, maxAttempts: int,
                                             maxRateLimitAttempts: int, id: int, p: nat, k: nat)
    requires var budget := AttemptBound(maxAttempts, maxRateLimitAttempts);
             Run(ss, es, cap, budget) && Sound(ss[0], cap, budget) && cap >= 0
    requires k < |es| && p < |ss[0].waiters| && ss[0].waiters[p] == id && ReleasesIn(es, k) == p && es[k].Release?
    ensures id in ss[k + 1].left
    ensures AttemptsIn(es, k) <= (cap + p) * AttemptBound(maxAttempts, maxRateLimitAttempts)
  {
    hide Step, Possible, AttemptBound;
    var budget := AttemptBound(maxAttempts, maxRateLimitAttempts);
    WaiterProgress(ss, es, cap, budget, id, p, k);
    ServedStep(ss[k], es[k], cap, budget, id);
    TotalBound(ss[0].left, budget);
    Spread(cap, p, budget);
  }

  lemma {:induction false} Spread(cap: int, p: nat, budget: nat)
    ensures (cap + p) * budget == cap * budget + p * budget
  {
  }

  // ---------- Who has been granted ----------

  /** The callers, in the order in which they asked. */
  function RequestsIn(es: seq<Event>, k: nat): seq<int>
    requires k <= |es|
  {
    if k == 0 then [] else RequestsIn(es, k - 1) + if es[k - 1].Acquire? then [es[k - 1].id] else []
  }

  lemma {:induction false} StepTally(s: State, e: Event, cap: int, budget: nat)
    requires Possible(s, e)
    ensures var s' := Step(s, e, cap, budget);
            && s'.requested == s.requested + (if e.Acquire? then [e.id] else [])
            && |s'.granted| - s'.inFlight == |s.granted| - s.inFlight + (if e.Release? then 1 else 0)
  {
  }

  lemma {:induction false} Tally(ss: seq<State>, es: seq<Event>, cap: int, budget: nat, k: nat)
    requires Run(ss, es, cap, budget) && ss[0] == Start() && k < |ss|
    ensures ss[k].requested == RequestsIn(es, k) && |ss[k].granted| == ss[k].inFlight + ReleasesIn(es, k)
  {
    hide Step, Possible;
    if k > 0 {
      Tally(ss, es, cap, budget, k - 1);
      StepTally(ss[k - 1], es[k - 1], cap, budget);
    }
  }

  /** No permit lies idle and none is invented: on every interleaving the callers granted so far are the first ones
      that asked, as many as the cap and the permits given back allow, and everybody else waits in order. */
  lemma {:induction false} GrantsExactly(ss: seq<State>, es: seq<Event>, cap: int, budget: nat, k: nat)
    requires Run(ss, es, cap, budget) && ss[0] == Start() && cap >= 0 && k < |ss|
    ensures var asked, room := RequestsIn(es, k), cap + ReleasesIn(es, k);
            var n := if |asked| <= room then |asked| else room;
            ss[k].granted == asked[..n] && ss[k].waiters == asked[n..] && ss[k].inFlight == n - ReleasesIn(es, k)
  {
    hide Step, Possible, RequestsIn, ReleasesIn;
    AlwaysSound(ss, es, cap, budget, k);
    Tally(ss, es, cap, budget, k);
    var s := ss[k];
    assert s.requested == s.granted + s.waiters;
    assert s.requested[..|s.granted|] == s.granted && s.requested[|s.granted|..] == s.waiters;
  }

  // ---------- The object ----------

  class GlobalLimiter {
    const maxConcurrency: int
    const budget: nat
    var inFlight: int
    var waiters: seq<int>
    var pausedUntil: int
    ghost var left: map<int, nat>
    ghost var requested: seq<int>
    ghost var granted: seq<int>

    constructor (maxConcurrency: int, budget: nat)
      requires maxConcurrency >= 0
      ensures Contents() == Start() && Valid() && this.maxConcurrency == maxConcurrency && this.budget == budget
    {
      this.maxConcurrency, this.budget := maxConcurrency, budget;
      inFlight, waiters, pausedUntil, left, requested, granted := 0, [], 0, map[], [], [];
    }

    ghost function Contents(): State
      reads this
    {
      State(inFlight, waiters, left, pausedUntil, requested, granted)
    }

    ghost predicate Valid()
      reads this
    {
      maxConcurrency >= 0 && Sound(Contents(), maxConcurrency, budget)
    }

    /** True when the permit is there at once; otherwise the call is queued and gets a later release's permit. */
    method Acquire(id: int) returns (now: bool)
      requires Valid() && Possible(Contents(), Event.Acquire(id))
      modifies this
      ensures Valid() && Contents() == Step(old(Contents()), Event.Acquire(id), maxConcurrency, budget)
      ensures now <==> id in left
    {
      hide Sound;
      StepSound(Contents(), Event.Acquire(id), maxConcurrency, budget);
      NotYetGranted(id);
      if inFlight < maxConcurrency {
        inFlight, left, granted := inFlight + 1, left[id := budget], granted + [id];
        now := true;
      } else {
        waiters := waiters + [id];
        now := false;
      }
      requested := requested + [id];
    }

    lemma {:induction false} NotYetGranted(id: int)
      requires Valid() && id !in requested
      ensures id !in left
    {
    }

    /** Hands the permit straight to the next waiter, or frees the slot. */
    method Release(ghost id: int) returns (next: Option<int>)
      requires Valid() && Possible(Contents(), Event.Release(id))
      modifies this
      ensures Valid() && Contents() == Step(old(Contents()), Event.Release(id), maxConcurrency, budget)
      ensures next == if old(waiters) == [] then None else Some(old(waiters)[0])
    {
      hide Sound;
      StepSound(Contents(), Event.Release(id), maxConcurrency, budget);
      if |waiters| > 0 {
        next := Some(waiters[0]);
        left, granted := (left - {id})[waiters[0] := budget], granted + [waiters[0]];
        waiters := waiters[1..];
      } else {
        next := None;
        inFlight, left := inFlight - 1, left - {id};
      }
    }

    /** The longest announced delay wins. */
    method PauseGroup(now: int, delay: int)
      requires Valid()
      modifies this
      ensures Valid() && Contents() == Step(old(Contents()), Event.Pause(now, delay), maxConcurrency, budget)
      ensures pausedUntil >= old(pausedUntil) && pausedUntil >= now + delay
    {
      var until := now + delay;
      if until <= pausedUntil { return; }
      pausedUntil := until;
    }
  }
}
