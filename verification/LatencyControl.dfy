/**
 AampLatencyMonitor's control logic: the adaptive latency thresholds (danger episodes, restoration
 window) and the rate controller, over every sequence of polls and resets since Start.
 */
module LatencyControl {
  import opened Prelude

  /** LatencyConfig; times in milliseconds except stableSec. */
  datatype Config = Config(
    normalRate: real, minRate: real, maxRate: real,
    minLatency: real, targetLatency: real, maxLatency: real,
    activation: real, step: real, maxIncrement: real, danger: real, stableSec: real)

  /** The fields that the worker and EnableRateCorrection update. windowStart 0 is the unset time_point. */
  datatype Control = Control(
    minMs: real, targetMs: real, maxMs: real, accumulated: real, windowStart: real, shifted: bool, rate: real)

  /** What one iteration of Run's loop observes. */
  datatype Reading = Reading(
    correction: bool, playing: bool, adPlaying: bool, latencyMs: int, bufferMs: real, now: real, sinkAccepts: bool)

  /** A poll, or the threshold reset done by EnableRateCorrection. */
  datatype Event = Poll(r: Reading) | Reset

  /** static_cast<long> of a double: truncation toward zero. */
  function Trunc(x: real): int { if x >= 0.0 then x.Floor else -((-x).Floor) }

  // ---------------------------------------------------------------- the code, on values

  function Shifted(cfg: Config, c: Control, accumulated: real): Control
  {
    c.(accumulated := accumulated, minMs := cfg.minLatency + accumulated,
       targetMs := cfg.targetLatency + accumulated, maxMs := cfg.maxLatency + accumulated)
  }

  function Increased(cfg: Config, c: Control): Control
  {
    var sum := c.accumulated + cfg.step;
    Shifted(cfg, c, if cfg.maxIncrement > 0.0 then Min(sum, cfg.maxIncrement) else sum)
  }

  function Restored(cfg: Config, c: Control): Control
  {
    if c.accumulated <= 0.0 then c else Shifted(cfg, c, Max(0.0, c.accumulated - cfg.step))
  }

  function ResetThresholds(cfg: Config, c: Control): Control
  {
    Shifted(cfg, c, 0.0).(windowStart := 0.0, shifted := false)
  }

  function Started(cfg: Config): Control
  {
    Control(cfg.minLatency, cfg.targetLatency, cfg.maxLatency, 0.0, 0.0, false, cfg.normalRate)
  }

  /** UpdateDangerBufferState */
  function DangerUpdated(cfg: Config, c: Control, bufferMs: real, now: real): Control
  {
    if bufferMs < cfg.danger then
      (if c.shifted then c else Increased(cfg, c).(shifted := true)).(windowStart := 0.0)
    else
      var h := c.(shifted := false);
      if cfg.stableSec <= 0.0 then h
      else if h.accumulated <= 0.0 then h.(windowStart := 0.0)
      else if h.windowStart == 0.0 then h.(windowStart := now)
      else if now - h.windowStart >= cfg.stableSec then Restored(cfg, h).(windowStart := 0.0)
      else h
  }

  function RateSet(c: Control, rate: real, sinkAccepts: bool): Control
  {
    if rate != c.rate && sinkAccepts then c.(rate := rate) else c
  }

  /** Lines 334-358 */
  function DesiredRate(cfg: Config, c: Control, latencyMs: int): real
  {
    if latencyMs > Trunc(c.maxMs) then cfg.maxRate
    else if latencyMs < Trunc(c.minMs) then cfg.minRate
    else if latencyMs <= Trunc(c.targetMs) && c.rate == cfg.maxRate then cfg.normalRate
    else if latencyMs >= Trunc(c.targetMs) && c.rate == cfg.minRate then cfg.normalRate
    else c.rate
  }

  /** Lines 252-293 let the poll go on. */
  predicate Measured(r: Reading) { r.correction && r.playing && !r.adPlaying && r.bufferMs >= 0.0 }

  predicate Adaptive(cfg: Config) { cfg.danger > 0.0 && cfg.step > 0.0 }

  function AfterDanger(cfg: Config, c: Control, r: Reading): Control
  {
    if Adaptive(cfg) then DangerUpdated(cfg, c, r.bufferMs, r.now) else c
  }

  /** One iteration of Run's loop. */
  function Polled(cfg: Config, c: Control, r: Reading): Control
  {
    if !r.correction then RateSet(c, cfg.normalRate, r.sinkAccepts)
    else if !r.playing then c
    else if r.adPlaying then RateSet(c, cfg.normalRate, r.sinkAccepts)
    else if r.bufferMs < 0.0 then c
    else
      var c1 := AfterDanger(cfg, c, r);
      if r.bufferMs < cfg.activation then RateSet(c1, cfg.normalRate, r.sinkAccepts)
      else RateSet(c1, DesiredRate(cfg, c1, r.latencyMs), r.sinkAccepts)
  }

  function Next(cfg: Config, c: Control, e: Event): Control
  {
    match e
    case Poll(r) => Polled(cfg, c, r)
    case Reset => ResetThresholds(cfg, c)
  }

  /** The fields after the first i events since Start. */
  function At(cfg: Config, events: seq<Event>, i: nat): Control
    requires i <= |events|
  {
    if i == 0 then Started(cfg) else Next(cfg, At(cfg, events, i - 1), events[i - 1])
  }

  // ---------------------------------------------------------------- thresholds

  /** The three thresholds are the configured ones plus one increment between zero and the cap. */
  ghost predicate OneSharedIncrement(cfg: Config, c: Control)
  {
    && c.minMs == cfg.minLatency + c.accumulated
    && c.targetMs == cfg.targetLatency + c.accumulated
    && c.maxMs == cfg.maxLatency + c.accumulated
    && 0.0 <= c.accumulated
    && (cfg.maxIncrement > 0.0 ==> c.accumulated <= cfg.maxIncrement)
  }

  lemma {:induction false} IncrementStaysShared(cfg: Config, events: seq<Event>, i: nat)
    requires i <= |events|
    ensures OneSharedIncrement(cfg, At(cfg, events, i))
  {
    if i > 0 {
      IncrementStaysShared(cfg, events, i - 1);
      NextKeepsShared(cfg, At(cfg, events, i - 1), events[i - 1]);
    }
  }

  lemma NextKeepsShared(cfg: Config, c: Control, e: Event)
    requires OneSharedIncrement(cfg, c)
    ensures OneSharedIncrement(cfg, Next(cfg, c, e))
  {
    hide DesiredRate;
    if e.Poll? {
      var c1 := AfterDanger(cfg, c, e.r);
      assert OneSharedIncrement(cfg, c1);
    }
  }

  ghost predicate EvaluatedAt(cfg: Config, events: seq<Event>, i: nat)
  {
    i < |events| && events[i].Poll? && Measured(events[i].r) && cfg.danger > 0.0 && cfg.step > 0.0
  }

  ghost predicate LowAt(cfg: Config, events: seq<Event>, i: nat)
  {
    EvaluatedAt(cfg, events, i) && events[i].r.bufferMs < cfg.danger
  }

  ghost predicate HealthyAt(cfg: Config, events: seq<Event>, i: nat)
  {
    EvaluatedAt(cfg, events, i) && events[i].r.bufferMs >= cfg.danger
  }

  ghost predicate ResetAt(events: seq<Event>, i: nat) { i < |events| && events[i].Reset? }

  /** Event i shifts the thresholds up. */
  ghost predicate ShiftAt(cfg: Config, events: seq<Event>, i: nat)
  {
    LowAt(cfg, events, i) && !At(cfg, events, i).shifted
  }

  /** Event i takes a restoration step. */
  ghost predicate RestoreAt(cfg: Config, events: seq<Event>, i: nat)
  {
    && HealthyAt(cfg, events, i)
    && (var c := At(cfg, events, i);
        cfg.stableSec > 0.0 && c.accumulated > 0.0 && c.windowStart != 0.0 &&
        events[i].r.now - c.windowStart >= cfg.stableSec)
  }

  /** The increment changes only by a shift, a restoration or a reset: these names miss nothing. */
  lemma IncrementChangesOnlyThere(cfg: Config, events: seq<Event>, i: nat)
    requires i < |events|
    ensures var a, a' := At(cfg, events, i).accumulated, At(cfg, events, i + 1).accumulated;
            && (a' > a ==> ShiftAt(cfg, events, i))
            && (a' < a ==> ResetAt(events, i) || RestoreAt(cfg, events, i))
            && (RestoreAt(cfg, events, i) ==> a' < a)
            && (ResetAt(events, i) ==> a' == 0.0)
  {
    IncrementStaysShared(cfg, events, i);
  }

  /** By how much the increment moves: it starts at zero, and these are the only moves. */
  lemma IncrementMovesBy(cfg: Config, events: seq<Event>, i: nat)
    requires i < |events|
    ensures At(cfg, events, 0).accumulated == 0.0
    ensures var a, a' := At(cfg, events, i).accumulated, At(cfg, events, i + 1).accumulated;
            && (ShiftAt(cfg, events, i) ==>
                  a' == if cfg.maxIncrement > 0.0 && a + cfg.step > cfg.maxIncrement then cfg.maxIncrement else a + cfg.step)
            && (RestoreAt(cfg, events, i) ==> a' == if a > cfg.step then a - cfg.step else 0.0)
            && (ResetAt(events, i) ==> a' == 0.0)
            && (!ShiftAt(cfg, events, i) && !RestoreAt(cfg, events, i) && !ResetAt(events, i) ==> a' == a)
  {
  }

  /** No healthy evaluated poll and no reset after event k and before event i: the same danger episode. */
  ghost predicate SameEpisode(cfg: Config, events: seq<Event>, k: nat, i: nat)
  {
    forall m :: k < m < i ==> !HealthyAt(cfg, events, m) && !ResetAt(events, m)
  }

  lemma {:induction false} GuardMeansEpisode(cfg: Config, events: seq<Event>, i: nat)
    requires i <= |events|
    ensures At(cfg, events, i).shifted <==> exists k: nat :: k < i && LowAt(cfg, events, k) && SameEpisode(cfg, events, k, i)
  {
    if i > 0 {
      var p := i - 1;
      GuardMeansEpisode(cfg, events, p);
      if LowAt(cfg, events, p) { assert SameEpisode(cfg, events, p, i); }
      if k: nat :| k < p && LowAt(cfg, events, k) && SameEpisode(cfg, events, k, p) {
        assert SameEpisode(cfg, events, k, i) <==> !HealthyAt(cfg, events, p) && !ResetAt(events, p);
      }
      forall k: nat | k < p && LowAt(cfg, events, k) && SameEpisode(cfg, events, k, i)
        ensures SameEpisode(cfg, events, k, p) && !HealthyAt(cfg, events, p) && !ResetAt(events, p)
      {
      }
    }
  }

  /** The thresholds shift exactly at the first low-buffer evaluated poll of every episode. */
  lemma ShiftsIff(cfg: Config, events: seq<Event>, i: nat)
    requires i < |events|
    ensures ShiftAt(cfg, events, i) <==>
            LowAt(cfg, events, i) && !exists k: nat :: k < i && LowAt(cfg, events, k) && SameEpisode(cfg, events, k, i)
  {
    GuardMeansEpisode(cfg, events, i);
  }

  /** After an event that leaves the guard set, it stays set until a healthy poll or a reset. */
  lemma {:induction false} GuardHolds(cfg: Config, events: seq<Event>, i: nat, j: nat)
    requires i <= j <= |events| && At(cfg, events, i).shifted
    requires forall k :: i <= k < j ==> !HealthyAt(cfg, events, k) && !ResetAt(events, k)
    ensures At(cfg, events, j).shifted
  {
    if i < j {
      GuardHolds(cfg, events, i, j - 1);
      assert !HealthyAt(cfg, events, j - 1) && !ResetAt(events, j - 1);
    }
  }

  /** Two upward shifts are always separated by a healthy evaluated poll or a reset. */
  lemma ShiftsAreSeparated(cfg: Config, events: seq<Event>, i: nat, j: nat)
    requires i < j < |events| && ShiftAt(cfg, events, i) && ShiftAt(cfg, events, j)
    ensures exists k :: i < k < j && (HealthyAt(cfg, events, k) || ResetAt(events, k))
  {
    if forall k :: i < k < j ==> !HealthyAt(cfg, events, k) && !ResetAt(events, k) {
      assert At(cfg, events, i + 1).shifted;
      GuardHolds(cfg, events, i + 1, j);
    }
  }

  /** steady_clock: the times of the polls do not decrease. */
  ghost predicate ClockMonotone(events: seq<Event>)
  {
    forall i, j :: 0 <= i < j < |events| && events[i].Poll? && events[j].Poll? ==> events[i].r.now <= events[j].r.now
  }

  /** The restoration window open before event i began at event w, and nothing disturbed it since. */
  ghost predicate WindowSince(cfg: Config, events: seq<Event>, w: nat, i: nat)
  {
    && w < i <= |events| && HealthyAt(cfg, events, w) && events[w].r.now == At(cfg, events, i).windowStart
    && forall k :: w <= k < i ==> !LowAt(cfg, events, k) && !ResetAt(events, k) && !RestoreAt(cfg, events, k)
  }

  lemma {:induction false} WindowHasStart(cfg: Config, events: seq<Event>, i: nat)
    requires i <= |events| && At(cfg, events, i).windowStart != 0.0
    ensures exists w: nat :: WindowSince(cfg, events, w, i)
  {
    assert i > 0;
    var p := i - 1;
    var before, after := At(cfg, events, p), At(cfg, events, i);
    if before.windowStart == 0.0 {
      assert HealthyAt(cfg, events, p);
      assert WindowSince(cfg, events, p, i);
    } else {
      WindowHasStart(cfg, events, p);
      var w: nat :| WindowSince(cfg, events, w, p);
      assert after.windowStart == before.windowStart;
      assert !LowAt(cfg, events, p) && !ResetAt(events, p) && !RestoreAt(cfg, events, p);
      assert WindowSince(cfg, events, w, i);
    }
  }

  /**
   A restoration at event j closes a window of at least stableSec in which every evaluated poll was
   healthy; and two restorations are at least stableSec apart.
   */
  lemma RestorationsAreApart(cfg: Config, events: seq<Event>, i: nat, j: nat)
    requires ClockMonotone(events)
    requires i < j < |events| && RestoreAt(cfg, events, i) && RestoreAt(cfg, events, j)
    ensures events[j].r.now - events[i].r.now >= cfg.stableSec
    ensures exists w: nat :: i < w && WindowSince(cfg, events, w, j) && events[j].r.now - events[w].r.now >= cfg.stableSec
  {
    WindowHasStart(cfg, events, j);
    var w: nat :| WindowSince(cfg, events, w, j);
    assert i < w by { assert RestoreAt(cfg, events, i); }
    assert events[i].r.now <= events[w].r.now;
  }

  /** The clock never shows the value that marks an unset window. */
  ghost predicate ClockSet(events: seq<Event>)
  {
    forall i :: 0 <= i < |events| && events[i].Poll? ==> events[i].r.now != 0.0
  }

  /** Event w was healthy with something to restore, and no low poll, reset or restoration came from w to before i. */
  ghost predicate StableSince(cfg: Config, events: seq<Event>, w: nat, i: nat)
  {
    && w < i <= |events| && HealthyAt(cfg, events, w) && cfg.stableSec > 0.0 && At(cfg, events, w).accumulated > 0.0
    && forall k :: w <= k < i ==> !LowAt(cfg, events, k) && !ResetAt(events, k) && !RestoreAt(cfg, events, k)
  }

  lemma {:induction false} StableKeepsIncrement(cfg: Config, events: seq<Event>, w: nat, i: nat)
    requires StableSince(cfg, events, w, i)
    ensures At(cfg, events, i).accumulated == At(cfg, events, w).accumulated
  {
    assert !LowAt(cfg, events, i - 1) && !ResetAt(events, i - 1) && !RestoreAt(cfg, events, i - 1);
    IncrementMovesBy(cfg, events, i - 1);
    if w < i - 1 {
      assert StableSince(cfg, events, w, i - 1);
      StableKeepsIncrement(cfg, events, w, i - 1);
    }
  }

  /** The window has been open at least since any such event. */
  lemma {:induction false} StableMeansWindow(cfg: Config, events: seq<Event>, w: nat, i: nat)
    requires ClockMonotone(events) && ClockSet(events) && StableSince(cfg, events, w, i)
    ensures At(cfg, events, i).windowStart != 0.0 && At(cfg, events, i).windowStart <= events[w].r.now
  {
    var p := i - 1;
    assert !LowAt(cfg, events, p) && !ResetAt(events, p) && !RestoreAt(cfg, events, p);
    if w < p {
      assert StableSince(cfg, events, w, p);
      StableMeansWindow(cfg, events, w, p);
      StableKeepsIncrement(cfg, events, w, p);
    } else if At(cfg, events, w).windowStart != 0.0 {
      WindowHasStart(cfg, events, w);
      var v: nat :| WindowSince(cfg, events, v, w);
      assert events[v].r.now <= events[w].r.now;
    }
  }

  lemma {:induction false} WindowMeansStable(cfg: Config, events: seq<Event>, i: nat)
    requires i <= |events| && At(cfg, events, i).windowStart != 0.0
    ensures exists w: nat :: StableSince(cfg, events, w, i) && events[w].r.now == At(cfg, events, i).windowStart
  {
    var p := i - 1;
    if At(cfg, events, p).windowStart == 0.0 {
      assert StableSince(cfg, events, p, i);
    } else {
      WindowMeansStable(cfg, events, p);
      var w: nat :| StableSince(cfg, events, w, p) && events[w].r.now == At(cfg, events, p).windowStart;
      assert StableSince(cfg, events, w, i);
    }
  }

  /**
   A restoration step is taken exactly at a healthy evaluated poll that comes stableSec or more after
   an earlier one, with something to restore and no low poll, reset or restoration since then.
   */
  lemma RestoresIff(cfg: Config, events: seq<Event>, i: nat)
    requires ClockMonotone(events) && ClockSet(events) && i < |events|
    ensures RestoreAt(cfg, events, i) <==>
            HealthyAt(cfg, events, i) &&
            exists w: nat :: StableSince(cfg, events, w, i) && events[i].r.now - events[w].r.now >= cfg.stableSec
  {
    if RestoreAt(cfg, events, i) {
      WindowMeansStable(cfg, events, i);
    }
    if HealthyAt(cfg, events, i) {
      if w: nat :| StableSince(cfg, events, w, i) && events[i].r.now - events[w].r.now >= cfg.stableSec {
        StableMeansWindow(cfg, events, w, i);
        StableKeepsIncrement(cfg, events, w, i);
      }
    }
  }

  // ---------------------------------------------------------------- rates

  ghost predicate DistinctRates(cfg: Config)
  {
    cfg.normalRate != cfg.minRate && cfg.normalRate != cfg.maxRate && cfg.minRate != cfg.maxRate
  }

  ghost predicate OrderedThresholds(cfg: Config) { cfg.minLatency <= cfg.targetLatency <= cfg.maxLatency }

  lemma TruncMonotone(x: real, y: real)
    requires x <= y
    ensures Trunc(x) <= Trunc(y)
  {
    if x >= 0.0 {
      assert x.Floor <= y.Floor;
    } else if y < 0.0 {
      assert (-y).Floor <= (-x).Floor;
    }
  }

  /** The applied rate is always the normal, the minimum or the maximum one. */
  lemma {:induction false} RateIsOneOfThree(cfg: Config, events: seq<Event>, i: nat)
    requires i <= |events|
    ensures At(cfg, events, i).rate in {cfg.normalRate, cfg.minRate, cfg.maxRate}
  {
    if i > 0 { RateIsOneOfThree(cfg, events, i - 1); }
  }

  /** Before any event the rate is normal. A poll that may not correct makes it so again; others leave it alone. */
  lemma NormalUnlessDecided(cfg: Config, events: seq<Event>, k: nat)
    requires k < |events|
    ensures At(cfg, events, 0).rate == cfg.normalRate
    ensures var rate, rate' := At(cfg, events, k).rate, At(cfg, events, k + 1).rate;
            && (events[k].Reset? ==> rate' == rate)
            && (events[k].Poll? ==>
                  var r := events[k].r;
                  && (!r.sinkAccepts ==> rate' == rate)
                  && (r.sinkAccepts && !r.correction ==> rate' == cfg.normalRate)
                  && (r.correction && !r.playing ==> rate' == rate)
                  && (r.sinkAccepts && r.correction && r.playing && r.adPlaying ==> rate' == cfg.normalRate)
                  && (r.correction && r.playing && !r.adPlaying && r.bufferMs < 0.0 ==> rate' == rate)
                  && (r.sinkAccepts && Measured(r) && r.bufferMs < cfg.activation ==> rate' == cfg.normalRate))
  {
  }

  /**
   A decision that the sink accepts: above the band the maximum rate, below it the minimum rate, and
   inside it the old rate, or normal once a correction has reached the target. The band is the
   configured one plus the increment in force.
   */
  lemma DecisionSetsRate(cfg: Config, events: seq<Event>, k: nat)
    requires OrderedThresholds(cfg) && DecidesAt(cfg, events, k) && events[k].r.sinkAccepts
    ensures var a, latency := At(cfg, events, k + 1).accumulated, events[k].r.latencyMs;
            var rate, rate' := At(cfg, events, k).rate, At(cfg, events, k + 1).rate;
            var min, target, max := Trunc(cfg.minLatency + a), Trunc(cfg.targetLatency + a), Trunc(cfg.maxLatency + a);
            && min <= target <= max
            && (latency > max ==> rate' == cfg.maxRate)
            && (latency < min ==> rate' == cfg.minRate)
            && (min <= latency <= max ==>
                  var reached := (rate == cfg.maxRate && latency <= target) || (rate == cfg.minRate && latency >= target);
                  rate' == if reached then cfg.normalRate else rate)
  {
    TargetInsideBand(cfg, events, k);
    IncrementStaysShared(cfg, events, k);
    assert OneSharedIncrement(cfg, ThresholdsAt(cfg, events, k));
    assert At(cfg, events, k + 1).accumulated == ThresholdsAt(cfg, events, k).accumulated;
    assert ThresholdsAt(cfg, events, k).rate == At(cfg, events, k).rate;
  }

  /** Truncation is toward zero. */
  lemma TruncIsTowardZero(x: real)
    ensures x >= 0.0 ==> x - 1.0 < Trunc(x) as real <= x
    ensures x < 0.0 ==> x <= Trunc(x) as real < x + 1.0
  {
  }

  /** Event k reaches the rate decision. */
  ghost predicate DecidesAt(cfg: Config, events: seq<Event>, k: nat)
  {
    k < |events| && events[k].Poll? && Measured(events[k].r) && events[k].r.bufferMs >= cfg.activation
  }

  ghost function ThresholdsAt(cfg: Config, events: seq<Event>, k: nat): Control
    requires DecidesAt(cfg, events, k)
  {
    AfterDanger(cfg, At(cfg, events, k), events[k].r)
  }

  ghost predicate SinkAccepts(events: seq<Event>)
  {
    forall k :: 0 <= k < |events| && events[k].Poll? ==> events[k].r.sinkAccepts
  }

  /** Rate `rate` was entered at event e and has been in effect up to event i. */
  ghost predicate InEffectSince(cfg: Config, events: seq<Event>, rate: real, e: nat, i: nat)
  {
    && e < i <= |events| && At(cfg, events, e).rate != rate
    && forall k :: e < k <= i ==> At(cfg, events, k).rate == rate
  }

  lemma TargetInsideBand(cfg: Config, events: seq<Event>, k: nat)
    requires OrderedThresholds(cfg) && DecidesAt(cfg, events, k)
    ensures var c := ThresholdsAt(cfg, events, k); Trunc(c.minMs) <= Trunc(c.targetMs) <= Trunc(c.maxMs)
  {
    IncrementStaysShared(cfg, events, k);
    var c := ThresholdsAt(cfg, events, k);
    assert OneSharedIncrement(cfg, c);
    TruncMonotone(c.minMs, c.targetMs);
    TruncMonotone(c.targetMs, c.maxMs);
  }

  lemma DecisionKeeps(cfg: Config, c: Control, r: Reading)
    requires DistinctRates(cfg) && Trunc(c.minMs) <= Trunc(c.targetMs) <= Trunc(c.maxMs)
    ensures DesiredRate(cfg, c, r.latencyMs) == cfg.maxRate ==> r.latencyMs > Trunc(c.targetMs)
    ensures DesiredRate(cfg, c, r.latencyMs) == cfg.minRate ==> r.latencyMs < Trunc(c.targetMs)
    ensures c.rate != cfg.maxRate && DesiredRate(cfg, c, r.latencyMs) == cfg.maxRate ==> r.latencyMs > Trunc(c.maxMs)
    ensures c.rate != cfg.minRate && DesiredRate(cfg, c, r.latencyMs) == cfg.minRate ==> r.latencyMs < Trunc(c.minMs)
  {
  }

  /** What a poll has seen if it leaves a correction rate in effect, and more if it is the one that set it. */
  ghost predicate Justified(cfg: Config, events: seq<Event>, k: nat, rate: real, entry: bool)
  {
    && DecidesAt(cfg, events, k)
    && (var c, latency := ThresholdsAt(cfg, events, k), events[k].r.latencyMs;
        && (rate == cfg.maxRate ==> latency > Trunc(c.targetMs) && (entry ==> latency > Trunc(c.maxMs)))
        && (rate == cfg.minRate ==> latency < Trunc(c.targetMs) && (entry ==> latency < Trunc(c.minMs))))
  }

  lemma CorrectionIsJustified(cfg: Config, events: seq<Event>, k: nat, rate: real)
    requires DistinctRates(cfg) && OrderedThresholds(cfg) && SinkAccepts(events) && k < |events|
    requires rate == cfg.maxRate || rate == cfg.minRate
    requires At(cfg, events, k + 1).rate == rate
    ensures events[k].Poll? && Measured(events[k].r) ==> Justified(cfg, events, k, rate, false)
    ensures At(cfg, events, k).rate != rate ==> Justified(cfg, events, k, rate, true)
  {
    if events[k].Poll? {
      assert events[k].r.sinkAccepts;
      if DecidesAt(cfg, events, k) {
        TargetInsideBand(cfg, events, k);
        var c := ThresholdsAt(cfg, events, k);
        assert c.rate == At(cfg, events, k).rate;
        DecisionKeeps(cfg, c, events[k].r);
      }
    }
  }

  lemma {:induction false} CorrectionHasEntry(cfg: Config, events: seq<Event>, rate: real, i: nat)
    requires i <= |events| && rate != cfg.normalRate && At(cfg, events, i).rate == rate
    ensures exists e: nat :: InEffectSince(cfg, events, rate, e, i)
  {
    assert i > 0;
    if At(cfg, events, i - 1).rate != rate {
      assert InEffectSince(cfg, events, rate, i - 1, i);
    } else {
      CorrectionHasEntry(cfg, events, rate, i - 1);
      var e: nat :| InEffectSince(cfg, events, rate, e, i - 1);
      assert InEffectSince(cfg, events, rate, e, i);
    }
  }

  /**
   A correction rate in effect was entered by a decision outside the band, and has persisted only
   over measured polls that all decided on the far side of the target.
   */
  lemma CorrectionPersistsOnlyWhileNeeded(cfg: Config, events: seq<Event>, i: nat, rate: real)
    requires DistinctRates(cfg) && OrderedThresholds(cfg) && SinkAccepts(events)
    requires i <= |events| && (rate == cfg.maxRate || rate == cfg.minRate) && At(cfg, events, i).rate == rate
    ensures exists e: nat ::
              && InEffectSince(cfg, events, rate, e, i)
              && Justified(cfg, events, e, rate, true)
              && forall k :: e <= k < i && events[k].Poll? && Measured(events[k].r) ==> Justified(cfg, events, k, rate, false)
  {
    CorrectionHasEntry(cfg, events, rate, i);
    var e: nat :| InEffectSince(cfg, events, rate, e, i);
    forall k | e <= k < i
      ensures events[k].Poll? && Measured(events[k].r) ==> Justified(cfg, events, k, rate, false)
    {
      CorrectionIsJustified(cfg, events, k, rate);
    }
    CorrectionIsJustified(cfg, events, e, rate);
  }

  /** Event k decides with the latency inside the band in force. */
  ghost predicate InsideBand(cfg: Config, events: seq<Event>, k: nat)
  {
    && DecidesAt(cfg, events, k)
    && (var c := ThresholdsAt(cfg, events, k); Trunc(c.minMs) <= events[k].r.latencyMs <= Trunc(c.maxMs))
  }

  /** From event i to j the rate keeps its value up to m, and is normal after that. */
  ghost predicate ChangesOnlyAt(cfg: Config, events: seq<Event>, i: nat, m: nat, j: nat)
  {
    && i <= m <= j <= |events|
    && (forall k: nat :: i <= k <= m ==> At(cfg, events, k).rate == At(cfg, events, i).rate)
    && (forall k: nat :: m < k <= j ==> At(cfg, events, k).rate == cfg.normalRate)
  }

  /**
   A stretch in which every decision finds the latency inside the band, with any polls that decide
   nothing and any resets in between, changes the rate at most once, and only to normal.
   */
  lemma {:induction false} BandCausesAtMostOneChange(cfg: Config, events: seq<Event>, i: nat, j: nat)
    requires DistinctRates(cfg) && i <= j <= |events|
    requires forall k :: i <= k < j && DecidesAt(cfg, events, k) ==> InsideBand(cfg, events, k)
    ensures exists m: nat :: ChangesOnlyAt(cfg, events, i, m, j)
  {
    if i == j {
      assert ChangesOnlyAt(cfg, events, i, j, j);
    } else {
      BandCausesAtMostOneChange(cfg, events, i, j - 1);
      var m: nat :| ChangesOnlyAt(cfg, events, i, m, j - 1);
      BandDecision(cfg, events, j - 1);
      if m == j - 1 && At(cfg, events, j).rate == At(cfg, events, i).rate {
        assert ChangesOnlyAt(cfg, events, i, j, j);
      } else {
        assert ChangesOnlyAt(cfg, events, i, m, j);
      }
    }
  }

  lemma BandDecision(cfg: Config, events: seq<Event>, k: nat)
    requires DistinctRates(cfg) && k < |events| && (DecidesAt(cfg, events, k) ==> InsideBand(cfg, events, k))
    ensures At(cfg, events, k + 1).rate == At(cfg, events, k).rate || At(cfg, events, k + 1).rate == cfg.normalRate
  {
  }

  // ---------------------------------------------------------------- the object

  class AampLatencyMonitor {
    const mConfig: Config
    var mMinLatencyMs: real
    var mTargetLatencyMs: real
    var mMaxLatencyMs: real
    var mLatencyIncrementAccumulatedMs: real
    var mRestorationWindowStartTime: real
    var mBelowDangerShifted: bool
    var mCurrentRate: real
    ghost var history: seq<Event>  // polls and resets since Start

    ghost function View(): Control
      reads this
    {
      Control(mMinLatencyMs, mTargetLatencyMs, mMaxLatencyMs, mLatencyIncrementAccumulatedMs,
              mRestorationWindowStartTime, mBelowDangerShifted, mCurrentRate)
    }

    /** The fields are what the history prescribes. */
    ghost predicate Valid()
      reads this
    {
      View() == At(mConfig, history, |history|)
    }

    /** Start: lines 92-106 */
    constructor (config: Config)
      ensures Valid() && history == [] && mConfig == config
    {
      mConfig := config;
      mMinLatencyMs, mTargetLatencyMs, mMaxLatencyMs := config.minLatency, config.targetLatency, config.maxLatency;
      mLatencyIncrementAccumulatedMs, mRestorationWindowStartTime, mBelowDangerShifted := 0.0, 0.0, false;
      mCurrentRate := config.normalRate;
      history := [];
    }

    method IncreaseThresholdsLocked()
      modifies this`mMinLatencyMs, this`mTargetLatencyMs, this`mMaxLatencyMs, this`mLatencyIncrementAccumulatedMs
      ensures View() == Increased(mConfig, old(View()))
    {
      var newAccumulated := mLatencyIncrementAccumulatedMs + mConfig.step;
      if mConfig.maxIncrement > 0.0 {
        newAccumulated := Min(newAccumulated, mConfig.maxIncrement);
      }
      mLatencyIncrementAccumulatedMs := newAccumulated;
      mMinLatencyMs := mConfig.minLatency + mLatencyIncrementAccumulatedMs;
      mTargetLatencyMs := mConfig.targetLatency + mLatencyIncrementAccumulatedMs;
      mMaxLatencyMs := mConfig.maxLatency + mLatencyIncrementAccumulatedMs;
    }

    method TryRestoreThresholdsLocked()
      modifies this`mMinLatencyMs, this`mTargetLatencyMs, this`mMaxLatencyMs, this`mLatencyIncrementAccumulatedMs
      ensures View() == Restored(mConfig, old(View()))
    {
      if mLatencyIncrementAccumulatedMs <= 0.0 { return; }
      var newAccumulated := Max(0.0, mLatencyIncrementAccumulatedMs - mConfig.step);
      mLatencyIncrementAccumulatedMs := newAccumulated;
      mMinLatencyMs := mConfig.minLatency + mLatencyIncrementAccumulatedMs;
      mTargetLatencyMs := mConfig.targetLatency + mLatencyIncrementAccumulatedMs;
      mMaxLatencyMs := mConfig.maxLatency + mLatencyIncrementAccumulatedMs;
    }

    method UpdateDangerBufferState(bufferMs: real, now: real)
      modifies this`mMinLatencyMs, this`mTargetLatencyMs, this`mMaxLatencyMs, this`mLatencyIncrementAccumulatedMs,
               this`mRestorationWindowStartTime, this`mBelowDangerShifted
      ensures View() == DangerUpdated(mConfig, old(View()), bufferMs, now)
    {
      if bufferMs < mConfig.danger {
        if !mBelowDangerShifted {
          IncreaseThresholdsLocked();
          mBelowDangerShifted := true;
        }
        mRestorationWindowStartTime := 0.0;
      } else {
        mBelowDangerShifted := false;
        if mConfig.stableSec > 0.0 {
          if mLatencyIncrementAccumulatedMs <= 0.0 {
            mRestorationWindowStartTime := 0.0;
          } else if mRestorationWindowStartTime == 0.0 {
            mRestorationWindowStartTime := now;
          } else {
            var stableTime := now - mRestorationWindowStartTime;
            if stableTime >= mConfig.stableSec {
              TryRestoreThresholdsLocked();
              mRestorationWindowStartTime := 0.0;
            }
          }
        }
      }
    }

    /** EnableRateCorrection, when the state really changes, lines 193-196 */
    method ResetLatencyThresholdsLocked()
      requires Valid()
      modifies this
      ensures Valid() && history == old(history) + [Reset] && mCurrentRate == old(mCurrentRate)
    {
      ghost var before := history;
      mMinLatencyMs := mConfig.minLatency;
      mTargetLatencyMs := mConfig.targetLatency;
      mMaxLatencyMs := mConfig.maxLatency;
      mLatencyIncrementAccumulatedMs, mRestorationWindowStartTime, mBelowDangerShifted := 0.0, 0.0, false;
      history := history + [Reset];
      HistoryGrows(mConfig, before, Reset);
    }

    method ApplyRate(newRate: real, sinkAccepts: bool)
      modifies this`mCurrentRate
      ensures View() == RateSet(old(View()), newRate, sinkAccepts)
    {
      if mCurrentRate == newRate { return; }
      if !sinkAccepts { return; }
      mCurrentRate := newRate;
    }

    /** One iteration of Run's loop, lines 252-364 */
    method Iterate(r: Reading)
      requires Valid()
      modifies this
      ensures Valid() && history == old(history) + [Poll(r)]
    {
      ghost var before := history;
      HistoryGrows(mConfig, before, Poll(r));
      history := history + [Poll(r)];
      if !r.correction {
        ApplyRate(mConfig.normalRate, r.sinkAccepts);
        return;
      }
      if !r.playing { return; }
      if r.adPlaying {
        ApplyRate(mConfig.normalRate, r.sinkAccepts);
        return;
      }
      if r.bufferMs < 0.0 { return; }
      if mConfig.danger > 0.0 && mConfig.step > 0.0 {
        UpdateDangerBufferState(r.bufferMs, r.now);
      }
      if r.bufferMs < mConfig.activation {
        ApplyRate(mConfig.normalRate, r.sinkAccepts);
        return;
      }
      var desiredRate := mCurrentRate;
      if r.latencyMs > Trunc(mMaxLatencyMs) {
        desiredRate := mConfig.maxRate;
      } else if r.latencyMs < Trunc(mMinLatencyMs) {
        desiredRate := mConfig.minRate;
      } else if r.latencyMs <= Trunc(mTargetLatencyMs) && mCurrentRate == mConfig.maxRate {
        desiredRate := mConfig.normalRate;
      } else if r.latencyMs >= Trunc(mTargetLatencyMs) && mCurrentRate == mConfig.minRate {
        desiredRate := mConfig.normalRate;
      }
      if desiredRate != mCurrentRate {
        ApplyRate(desiredRate, r.sinkAccepts);
      }
    }
  }

  lemma {:induction false} HistoryGrows(cfg: Config, events: seq<Event>, e: Event)
    ensures At(cfg, events + [e], |events| + 1) == Next(cfg, At(cfg, events, |events|), e)
  {
    SamePrefix(cfg, events, events + [e], |events|);
  }

  lemma {:induction false} SamePrefix(cfg: Config, a: seq<Event>, b: seq<Event>, i: nat)
    requires i <= |a| && a <= b
    ensures At(cfg, a, i) == At(cfg, b, i)
  {
    if i > 0 { SamePrefix(cfg, a, b, i - 1); }
  }
}
