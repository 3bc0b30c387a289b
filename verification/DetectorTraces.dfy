/** What an alert of one pair monitor tells about everything the monitor has seen, over every sequence of
    evaluations (services/arb-solver/src/sentinel/detector.ts, lines 186-331). */
module DetectorTraces {
  import opened Wrappers
  import opened Graph
  import opened Detector

  /** One evaluation: when, and what the legs showed. */
  datatype Look = Look(now: int, obs: Obs)

  function AfterLooks(looks: seq<Look>, k: nat, mode: Mode, cfg: Config): Evaluated
    requires k <= |looks|
  {
    if k == 0 then Evaluated(NewMonitor(), None)
    else Evaluate(AfterLooks(looks, k - 1, mode, cfg).monitor, mode, looks[k - 1].now, looks[k - 1].obs, cfg)
  }

  function StateAt(looks: seq<Look>, k: nat, mode: Mode, cfg: Config): State
    requires k <= |looks|
  {
    AfterLooks(looks, k, mode, cfg).monitor.state
  }

  /** Look k fires. */
  predicate FiresAt(looks: seq<Look>, k: nat, mode: Mode, cfg: Config)
    requires k < |looks|
  {
    AfterLooks(looks, k + 1, mode, cfg).item.Some?
  }

  predicate Breached(l: Look, mode: Mode, cfg: Config) {
    l.obs.spread.Some? && l.obs.spread.value.metric > Threshold(mode, cfg)
  }

  predicate DeepClear(l: Look, mode: Mode, cfg: Config) {
    l.obs.spread.Some? && l.obs.spread.value.metric < Threshold(mode, cfg) * cfg.clearRatio
  }

  /** The episode open after k looks was opened by look j, a breach in an idle monitor, and no later look
      showed it closed. */
  ghost predicate OpenSince(looks: seq<Look>, j: nat, k: nat, mode: Mode, cfg: Config)
    requires k <= |looks|
  {
    && j < k && StateAt(looks, j, mode, cfg).Idle? && Breached(looks[j], mode, cfg)
    && (forall i :: j < i < k ==> Breached(looks[i], mode, cfg) || looks[i].obs.spread.None?)
  }

  lemma {:induction false} RecordedKeeps(ep: Episode, now: int, sp: Spread, cfg: Config)
    ensures Recorded(ep, now, sp, cfg).startedAt == ep.startedAt && Recorded(ep, now, sp, cfg).fastPath == ep.fastPath
  {
  }

  lemma {:induction false} PendingSince(looks: seq<Look>, k: nat, mode: Mode, cfg: Config) returns (j: nat)
    requires k <= |looks| && StateAt(looks, k, mode, cfg).Pending?
    ensures OpenSince(looks, j, k, mode, cfg) && StateAt(looks, k, mode, cfg).ep.startedAt == looks[j].now
  {
    hide Recorded;
    var before := StateAt(looks, k - 1, mode, cfg);
    var l := looks[k - 1];
    if before.Idle? {
      j := k - 1;
      OpenedAt(l.now, l.obs, cfg);
    } else {
      j := PendingSince(looks, k - 1, mode, cfg);
      if l.obs.spread.Some? { RecordedKeeps(before.ep, l.now, l.obs.spread.value, cfg); }
    }
  }

  lemma {:induction false} OpenedAt(now: int, o: Obs, cfg: Config)
    ensures o.spread.Some? ==> Opened(now, o.spread.value, o, cfg).startedAt == now
  {
    if o.spread.Some? {
      var fast := o.spikeA != o.spikeB;
      RecordedKeeps(Episode(now, fast, if fast then Some(if o.spikeA then A
          else B) else None, [], cfg.minSampleGapMs, 0, false), now, o.spread.value, cfg);
    }
  }

  /** Every alert has a history: a breach in an idle monitor opened the episode it reports, every evaluation
      since was breached or unmeasurable, and the whole window has passed (the full persistence window unless
      the item says post-spike). */
  lemma {:induction false} AlertHasHistory(looks: seq<Look>, n: nat, mode: Mode, cfg: Config) returns (j: nat)
    requires n < |looks| && FiresAt(looks, n, mode, cfg)
    ensures var item := AfterLooks(looks, n + 1, mode, cfg).item.value;
            && OpenSince(looks, j, n + 1, mode, cfg)
            && item.episodeStartedAt == looks[j].now && item.alertedAt == looks[n].now
            && looks[n].now - looks[j].now >= (if item.postSpike then cfg.fastWindowMs else cfg.persistenceWindowMs)
  {
    hide Recorded, Opened;
    assert StateAt(looks, n, mode, cfg).Pending?;
    j := PendingSince(looks, n, mode, cfg);
    var l := looks[n];
    if l.obs.spread.Some? { RecordedKeeps(StateAt(looks, n, mode, cfg).ep, l.now, l.obs.spread.value, cfg); }
  }

  lemma {:induction false} StaysAlerted(looks: seq<Look>, a: nat, k: nat, mode: Mode, cfg: Config)
    requires a < k <= |looks| && FiresAt(looks, a, mode, cfg)
    requires forall i :: a < i < k ==> !DeepClear(looks[i], mode, cfg)
    ensures StateAt(looks, k, mode, cfg).Alerted?
    ensures k > a + 1 ==> AfterLooks(looks, k, mode, cfg).item.None?
    decreases k
  {
    hide Recorded, Opened;
    if k > a + 1 { StaysAlerted(looks, a, k - 1, mode, cfg); }
  }

  /** Between two alerts of a pair the spread was measured below threshold x clearRatio: hovering at the
      threshold cannot re-alert. */
  lemma {:induction false} DeepClearBetween(looks: seq<Look>, a: nat, b: nat, mode: Mode, cfg: Config)
    requires a < b < |looks| && FiresAt(looks, a, mode, cfg) && FiresAt(looks, b, mode, cfg)
    ensures exists i :: a < i < b && DeepClear(looks[i], mode, cfg)
  {
    hide Recorded, Opened;
    if forall i :: a < i < b ==> !DeepClear(looks[i], mode, cfg) {
      StaysAlerted(looks, a, b, mode, cfg);
      assert false;
    }
  }

  // ---------- Counters ----------

  function AlertsIn(looks: seq<Look>, k: nat, mode: Mode, cfg: Config): nat
    requires k <= |looks|
  {
    if k == 0 then 0 else AlertsIn(looks, k - 1, mode, cfg) + if FiresAt(looks, k - 1, mode, cfg) then 1 else 0
  }

  /** One evaluation: an alert counts itself and dates the first; anything else leaves both alone. */
  lemma {:induction false} StepCounts(m: Monitor, mode: Mode, now: int, o: Obs, cfg: Config)
    ensures var r := Evaluate(m, mode, now, o, cfg);
            && r.monitor.alertCount == m.alertCount + (if r.item.Some? then 1 else 0)
            && r.monitor.firstAlertAt == if r.item.Some? && m.firstAlertAt.None? then Some(now) else m.firstAlertAt
  {
    hide Recorded, Opened, FastPathUpdated, Threshold, WindowMs;
  }

  /** The count on an item is its place among the pair's alerts, and the first alert time is that of the first. */
  lemma {:induction false} CountersExact(looks: seq<Look>, k: nat, mode: Mode, cfg: Config)
    requires k <= |looks|
    ensures var m := AfterLooks(looks, k, mode, cfg).monitor;
            && m.alertCount == AlertsIn(looks, k, mode, cfg) && (m.firstAlertAt.Some? <==> m.alertCount > 0)
            && (m.firstAlertAt.Some? ==>
                 exists i :: 0 <= i < k && FiresAt(looks, i, mode, cfg) && AlertsIn(looks, i, mode, cfg) == 0 &&
                              looks[i].now == m.firstAlertAt.value)
  {
    hide Evaluate;
    if k > 0 {
      CountersExact(looks, k - 1, mode, cfg);
      var before := AfterLooks(looks, k - 1, mode, cfg).monitor;
      StepCounts(before, mode, looks[k - 1].now, looks[k - 1].obs, cfg);
      if before.firstAlertAt.None? && FiresAt(looks, k - 1, mode, cfg) {
        assert AlertsIn(looks, k - 1, mode, cfg) == 0 &&
               looks[k - 1].now == AfterLooks(looks, k, mode, cfg).monitor.firstAlertAt.value;
      }
    }
  }

  // ---------- Samples ----------

  ghost predicate ApartBy(s: seq<Sample>, gap: int) {
    forall i :: 0 < i < |s| ==> s[i].t - s[i - 1].t >= gap
  }

  /** Room for the samples: one less than the configured maximum, but never less than one. */
  function Room(cfg: Config): int {
    if cfg.maxEpisodeSamples - 1 > 1 then cfg.maxEpisodeSamples - 1 else 1
  }

  /** The opening sample is always kept, samples are bounded, and consecutive ones at least the current gap
      apart. */
  ghost predicate SamplesSound(ep: Episode, cfg: Config) {
    && 1 <= |ep.samples| <= Room(cfg) && ep.samples[0].t == ep.startedAt
    && ApartBy(ep.samples, ep.sampleGapMs) && ep.samples[|ep.samples| - 1].t <= ep.lastSampleAt
    && ep.sampleGapMs >= cfg.minSampleGapMs
  }

  lemma {:induction false} EveryOtherSound(s: seq<Sample>, gap: int)
    requires s != [] && ApartBy(s, gap) && gap >= 0
    ensures var r := EveryOther(s); r != [] && r[0] == s[0] && ApartBy(r, gap * 2) && r[|r| - 1].t <= s[|s| - 1].t
    decreases |s|
  {
    if |s| > 2 {
      EveryOtherSound(s[2..], gap);
      assert s[2].t - s[1].t >= gap && s[1].t - s[0].t >= gap;
      assert s[2..][|s| - 3] == s[|s| - 1];
    }
  }

  lemma {:induction false} PushApart(s: seq<Sample>, x: Sample, gap: int)
    requires ApartBy(s, gap) && (s == [] || x.t - s[|s| - 1].t >= gap)
    ensures ApartBy(s + [x], gap)
  {
  }

  /** Recording keeps the samples sound through every thinning and doubling. */
  lemma {:induction false} RecordedSound(ep: Episode, now: int, sp: Spread, cfg: Config)
    requires SamplesSound(ep, cfg) && cfg.minSampleGapMs >= 0
    ensures SamplesSound(Recorded(ep, now, sp, cfg), cfg)
  {
    hide EveryOther, ApartBy;
    if now - ep.lastSampleAt >= ep.sampleGapMs {
      var x := Sample(now, sp.metric, sp.signed);
      PushApart(ep.samples, x, ep.sampleGapMs);
      EveryOtherSound(ep.samples + [x], ep.sampleGapMs);
    }
  }

  lemma {:induction false} OpenedSound(now: int, sp: Spread, o: Obs, cfg: Config)
    requires cfg.minSampleGapMs >= 0
    ensures SamplesSound(Opened(now, sp, o, cfg), cfg)
  {
    assert [] + [Sample(now, sp.metric, sp.signed)] == [Sample(now, sp.metric, sp.signed)];
  }

  ghost predicate StateSound(s: State, cfg: Config) {
    s.Pending? || s.Alerted? ==> SamplesSound(s.ep, cfg)
  }

  lemma {:induction false} EvaluateSound(m: Monitor, mode: Mode, now: int, o: Obs, cfg: Config)
    requires StateSound(m.state, cfg) && cfg.minSampleGapMs >= 0
    ensures StateSound(Evaluate(m, mode, now, o, cfg).monitor.state, cfg)
    ensures Evaluate(m, mode, now, o, cfg).item.Some? ==>
              Evaluate(m, mode, now, o, cfg).item.value.samples ==
                Evaluate(m, mode, now, o, cfg).monitor.state.ep.samples
  {
    hide Recorded, Opened, ApartBy;
    if o.spread.Some? {
      if m.state.Idle? { OpenedSound(now, o.spread.value, o, cfg); } else {
        RecordedSound(m.state.ep, now, o.spread.value, cfg);
      }
    }
  }

  /** At every moment of every run the retained samples of an open episode start at its opening, number at most
      the configured bound, and lie at least the minimum gap apart. */
  lemma {:induction false} SamplesAlwaysSound(looks: seq<Look>, k: nat, mode: Mode, cfg: Config)
    requires k <= |looks| && cfg.minSampleGapMs >= 0
    ensures StateSound(StateAt(looks, k, mode, cfg), cfg)
  {
    hide Evaluate, SamplesSound;
    if k > 0 {
      SamplesAlwaysSound(looks, k - 1, mode, cfg);
      EvaluateSound(AfterLooks(looks, k - 1, mode, cfg).monitor, mode, looks[k - 1].now, looks[k - 1].obs, cfg);
    }
  }
}
