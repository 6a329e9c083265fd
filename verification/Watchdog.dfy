/** The download loop's ticks: three timer rules, the full-seed gate, and the seed phase that follows. */
module Watchdog {
  import opened Timers
  import opened Wrappers

  // ------------------------------------------------------------- configuration and samples

  /** The rules' settings; times in seconds, a timeout of 0 (or a threshold of -1) turns a rule off. */
  datatype Config = Config(
    total: int,
    slowTimeout: int, slowThreshold: real, isBoosted: bool,
    requireFull: bool, stallTimeout: int,
    lowPeersTimeout: int, lowPeersThreshold: int,
    startedAt: int)

  /** One tick: when, and what the torrent library reported. */
  datatype Sample = Sample(now: int, completed: int, peers: int)

  /** percent < 95, without the division. */
  predicate Below95(c: Config, completed: int) {
    completed * 100 < 95 * c.total
  }

  /** Megabytes since the last tick. */
  function Speed(completed: int, lastCompleted: int): real {
    (completed - lastCompleted) as real / 1048576.0
  }

  function SlowKind(c: Config, s: Sample, lastCompleted: int): Kind {
    if c.slowTimeout > 0 && c.slowThreshold > 0.0 && Below95(c, s.completed) then
      var speed := Speed(s.completed, lastCompleted);
      if (if c.isBoosted then speed == 0.0 else speed < c.slowThreshold) then Bad else Good
    else Skip
  }

  function StallKind(c: Config, s: Sample, lastCompleted: int): Kind {
    if c.stallTimeout > 0 && s.completed < c.total then
      if Speed(s.completed, lastCompleted) == 0.0 then Bad else Good
    else if s.completed >= c.total then Reset
    else Skip
  }

  function LowPeersKind(c: Config, s: Sample): Kind {
    if c.lowPeersTimeout > 0 && c.lowPeersThreshold >= 0 && Below95(c, s.completed) then
      if s.peers <= c.lowPeersThreshold then Bad else Good
    else Skip
  }

  predicate NoFullSeed(c: Config, s: Sample) {
    c.requireFull && s.completed == 0 && s.now - c.startedAt > 60
  }

  // ------------------------------------------------------------- the traces the rules see

  function Before(samples: seq<Sample>, i: nat): int
    requires i < |samples|
  {
    if i == 0 then 0 else samples[i - 1].completed
  }

  function SlowTrace(c: Config, samples: seq<Sample>): (t: seq<Tick>)
    ensures |t| == |samples|
  {
    seq(|samples|, i requires 0 <= i < |samples| =>
      Tick(samples[i].now, SlowKind(c, samples[i], Before(samples, i))))
  }

  function StallTrace(c: Config, samples: seq<Sample>): (t: seq<Tick>)
    ensures |t| == |samples|
  {
    seq(|samples|, i requires 0 <= i < |samples| =>
      Tick(samples[i].now, StallKind(c, samples[i], Before(samples, i))))
  }

  function LowPeersTrace(c: Config, samples: seq<Sample>): (t: seq<Tick>)
    ensures |t| == |samples|
  {
    seq(|samples|, i requires 0 <= i < |samples| => Tick(samples[i].now, LowPeersKind(c, samples[i])))
  }

  predicate Forward(samples: seq<Sample>) {
    forall i, k :: 0 <= i <= k < |samples| ==> samples[i].now <= samples[k].now
  }

  /** Tick i is one at which the download has to be given up, said over the history of samples. */
  ghost predicate GiveUpAt(c: Config, samples: seq<Sample>, i: nat)
    requires i < |samples|
  {
    && c.total > 0
    && (|| Overdue(SlowTrace(c, samples), c.slowTimeout, i)
        || (c.requireFull && samples[i].completed == 0 && samples[i].now - c.startedAt > 60)
        || Overdue(StallTrace(c, samples), c.stallTimeout, i)
        || Overdue(LowPeersTrace(c, samples), c.lowPeersTimeout, i))
  }

  /** What the rule lists on tick n. */
  ghost function WarningOf(timeout: int, trace: seq<Tick>, n: nat): Option<int>
    requires n < |trace|
  {
    Warning(timeout, After(timeout, trace, n + 1))
  }

  // ------------------------------------------------------------- the rules in bytes and peers

  /** The bytes a sample adds to the one before it. */
  function Added(samples: seq<Sample>, i: nat): int
    requires i < |samples|
  {
    samples[i].completed - if i == 0 then 0 else samples[i - 1].completed
  }

  /** Below 95 per cent of the torrent. */
  predicate Early(c: Config, s: Sample) {
    100 * s.completed < 95 * c.total
  }

  /** Fast enough: any byte of a boosted request, otherwise the threshold in MiB per tick. */
  predicate Fast(c: Config, samples: seq<Sample>, i: nat)
    requires i < |samples|
  {
    if c.isBoosted then Added(samples, i) != 0
    else Added(samples, i) as real >= c.slowThreshold * 1048576.0
  }

  predicate SlowRuleOn(c: Config) {
    c.slowTimeout >= 1 && !(c.slowThreshold <= 0.0)
  }

  predicate PeersRuleOn(c: Config) {
    c.lowPeersTimeout >= 1 && !(c.lowPeersThreshold <= -1)
  }

  lemma PerMebibyte(added: int, threshold: real)
    ensures added as real / 1048576.0 < threshold <==> added as real < threshold * 1048576.0
    ensures added as real / 1048576.0 == 0.0 <==> added == 0
  {
    var speed := added as real / 1048576.0;
    assert speed * 1048576.0 == added as real;
  }

  lemma OverdueIsBad(trace: seq<Tick>, timeout: int, i: nat)
    ensures Overdue(trace, timeout, i) ==> IsKind(trace, i, Bad)
  {
  }

  /** What every rule makes of a sample. */
  lemma KindsExactly(c: Config, samples: seq<Sample>, i: nat)
    requires i < |samples|
    ensures var slow := SlowTrace(c, samples)[i].kind;
            && (slow == Bad <==> SlowRuleOn(c) && Early(c, samples[i]) && !Fast(c, samples, i))
            && (slow == Good <==> SlowRuleOn(c) && Early(c, samples[i]) && Fast(c, samples, i))
            && slow != Reset
    ensures var stall := StallTrace(c, samples)[i].kind;
            && (stall == Bad <==> c.stallTimeout >= 1 && samples[i].completed < c.total && Added(samples, i) == 0)
            && (stall == Good <==> c.stallTimeout >= 1 && samples[i].completed < c.total && Added(samples, i) != 0)
            && (stall == Reset <==> samples[i].completed >= c.total)
    ensures var low := LowPeersTrace(c, samples)[i].kind;
            && (low == Bad <==> PeersRuleOn(c) && Early(c, samples[i]) && samples[i].peers <= c.lowPeersThreshold)
            && (low == Good <==> PeersRuleOn(c) && Early(c, samples[i]) && samples[i].peers > c.lowPeersThreshold)
            && low != Reset
  {
    PerMebibyte(samples[i].completed - Before(samples, i), c.slowThreshold);
  }

  /** A download that is fast enough at every sample below 95 per cent is never listed or given up as slow. */
  lemma FastIsNotSlow(c: Config, samples: seq<Sample>, n: nat)
    requires n < |samples|
    requires forall i :: 0 <= i <= n && Early(c, samples[i]) && SlowRuleOn(c) ==> Fast(c, samples, i)
    ensures !Overdue(SlowTrace(c, samples), c.slowTimeout, n)
    ensures WarningOf(c.slowTimeout, SlowTrace(c, samples), n) == None
  {
    hide Early, Fast, SlowTrace, SlowRuleOn;
    forall i | 0 <= i < n + 1 ensures !IsKind(SlowTrace(c, samples), i, Bad) {
      KindsExactly(c, samples, i);
    }
    NoBadNoCountdown(c.slowTimeout, SlowTrace(c, samples), n + 1);
    OverdueIsBad(SlowTrace(c, samples), c.slowTimeout, n);
  }

  /** One that is too slow for longer than the timeout is given up. */
  lemma SlowIsGivenUp(c: Config, samples: seq<Sample>, a: nat, b: nat)
    requires a < b < |samples| && c.total > 0 && SlowRuleOn(c)
    requires forall i :: a <= i <= b ==> Early(c, samples[i]) && !Fast(c, samples, i)
    requires samples[b].now - samples[a].now > c.slowTimeout
    ensures GiveUpAt(c, samples, b)
  {
    hide Early, Fast, Overdue, SlowRuleOn;
    forall i | a <= i <= b ensures IsKind(SlowTrace(c, samples), i, Bad) {
      KindsExactly(c, samples, i);
    }
    BadForTooLong(c.slowTimeout, SlowTrace(c, samples), a, b);
  }

  /** A download that adds bytes at every sample short of its end is never listed or given up as stalled. */
  lemma MovingIsNotStalled(c: Config, samples: seq<Sample>, n: nat)
    requires n < |samples|
    requires forall i :: 0 <= i <= n && samples[i].completed < c.total && c.stallTimeout >= 1 ==> Added(samples, i) != 0
    ensures !Overdue(StallTrace(c, samples), c.stallTimeout, n)
    ensures WarningOf(c.stallTimeout, StallTrace(c, samples), n) == None
  {
    hide StallTrace, Added;
    forall i | 0 <= i < n + 1 ensures !IsKind(StallTrace(c, samples), i, Bad) {
      KindsExactly(c, samples, i);
    }
    NoBadNoCountdown(c.stallTimeout, StallTrace(c, samples), n + 1);
    OverdueIsBad(StallTrace(c, samples), c.stallTimeout, n);
  }

  /** One that adds nothing for longer than the timeout is given up, however near its end. */
  lemma StalledIsGivenUp(c: Config, samples: seq<Sample>, a: nat, b: nat)
    requires a < b < |samples| && c.total > 0 && c.stallTimeout >= 1
    requires forall i :: a <= i <= b ==> samples[i].completed < c.total && Added(samples, i) == 0
    requires samples[b].now - samples[a].now > c.stallTimeout
    ensures GiveUpAt(c, samples, b)
  {
    hide Added, Overdue;
    forall i | a <= i <= b ensures IsKind(StallTrace(c, samples), i, Bad) {
      KindsExactly(c, samples, i);
    }
    BadForTooLong(c.stallTimeout, StallTrace(c, samples), a, b);
  }

  /** A complete download starts anew: no earlier countdown of the stall rule is running after it. */
  lemma CompleteForgetsStall(c: Config, samples: seq<Sample>, m: nat, a: int, n: int)
    requires a <= m < n && m < |samples| && samples[m].completed >= c.total
    ensures !Counting(StallTrace(c, samples), a, n)
  {
    KindsExactly(c, samples, m);
    assert IsKind(StallTrace(c, samples), m, Reset);
  }

  /** More peers than the threshold at every sample below 95 per cent: never listed or given up for peers. */
  lemma PeersAreEnough(c: Config, samples: seq<Sample>, n: nat)
    requires n < |samples|
    requires forall i :: 0 <= i <= n && Early(c, samples[i]) && PeersRuleOn(c) ==> samples[i].peers > c.lowPeersThreshold
    ensures !Overdue(LowPeersTrace(c, samples), c.lowPeersTimeout, n)
    ensures WarningOf(c.lowPeersTimeout, LowPeersTrace(c, samples), n) == None
  {
    hide Early, LowPeersTrace, PeersRuleOn;
    forall i | 0 <= i < n + 1 ensures !IsKind(LowPeersTrace(c, samples), i, Bad) {
      KindsExactly(c, samples, i);
    }
    NoBadNoCountdown(c.lowPeersTimeout, LowPeersTrace(c, samples), n + 1);
    OverdueIsBad(LowPeersTrace(c, samples), c.lowPeersTimeout, n);
  }

  lemma FewPeersIsGivenUp(c: Config, samples: seq<Sample>, a: nat, b: nat)
    requires a < b < |samples| && c.total > 0 && PeersRuleOn(c)
    requires forall i :: a <= i <= b ==> Early(c, samples[i]) && samples[i].peers <= c.lowPeersThreshold
    requires samples[b].now - samples[a].now > c.lowPeersTimeout
    ensures GiveUpAt(c, samples, b)
  {
    hide Early, Overdue, PeersRuleOn;
    forall i | a <= i <= b ensures IsKind(LowPeersTrace(c, samples), i, Bad) {
      KindsExactly(c, samples, i);
    }
    BadForTooLong(c.lowPeersTimeout, LowPeersTrace(c, samples), a, b);
  }

  // ------------------------------------------------------------- the loop

  /** The timer is the rule's after n ticks of its trace, none of them rejected. */
  ghost predicate RuleAt(timeout: int, trace: seq<Tick>, n: nat, t: Timer) {
    && n <= |trace| && Linked(trace, n, t)
    && After(timeout, trace, n).Running? && After(timeout, trace, n).timer == t
  }

  lemma RuleStep(timeout: int, trace: seq<Tick>, n: nat, t: Timer)
    requires n < |trace| && ClockForward(trace) && RuleAt(timeout, trace, n, t)
    ensures var r := Step(timeout, t, trace[n]);
            && (r.Rejected? <==> Overdue(trace, timeout, n))
            && (r.Running? ==> RuleAt(timeout, trace, n + 1, r.timer) && WarningOf(timeout, trace, n) == Warning(timeout, r))
  {
    hide Linked, Overdue, Step, ClockForward;
    RejectsWhenOverdue(timeout, trace, n, t);
    LinkStep(timeout, trace, n, t);
  }

  /** One rule on one tick: the branches on the timer and on the recovery count. */
  method TickRule(timeout: int, t: Timer, tick: Tick, ghost trace: seq<Tick>, ghost n: nat)
    returns (rejected: bool, t': Timer, listed: Option<int>)
    requires n < |trace| && trace[n] == tick && ClockForward(trace) && RuleAt(timeout, trace, n, t)
    ensures rejected <==> Overdue(trace, timeout, n)
    ensures !rejected ==> RuleAt(timeout, trace, n + 1, t') && listed == WarningOf(timeout, trace, n)
  {
    hide RuleAt, Overdue, ClockForward, WarningOf;
    RuleStep(timeout, trace, n, t);
    var since, recovery, active := t.since, t.recovery, false;
    t', listed := t, None;
    match tick.kind {
      case Bad =>
        recovery := 0;
        if since.None? {
          since := Some(tick.now);
        } else if tick.now - since.value > timeout {
          rejected := true;
          return;
        }
        active := true;
      case Good =>
        if since.Some? {
          recovery := recovery + 1;
          if recovery >= RECOVERY_TICKS {
            since := None;
            recovery := 0;
          } else {
            active := true;
          }
        }
      case Reset =>
        since := None;
      case Skip =>
    }
    rejected, t' := false, Timer(since, recovery);
    if active && since.Some? {
      listed := Some(since.value + timeout);
    }
  }

  /** Which countdowns a tick lists, with their moments. */
  datatype Warnings = Warnings(slow: Option<int>, stalled: Option<int>, lowPeers: Option<int>)

  ghost function WarningsAt(c: Config, samples: seq<Sample>, i: nat): Warnings
    requires i < |samples|
  {
    Warnings(WarningOf(c.slowTimeout, SlowTrace(c, samples), i),
             WarningOf(c.stallTimeout, StallTrace(c, samples), i),
             WarningOf(c.lowPeersTimeout, LowPeersTrace(c, samples), i))
  }

  lemma RulesStart(timeout: int, trace: seq<Tick>)
    ensures RuleAt(timeout, trace, 0, CLEAR)
  {
    LinkClear(trace);
  }

  lemma TracesForward(c: Config, samples: seq<Sample>)
    requires Forward(samples)
    ensures ClockForward(SlowTrace(c, samples))
    ensures ClockForward(StallTrace(c, samples))
    ensures ClockForward(LowPeersTrace(c, samples))
  {
  }

  /**
   The ticker branch over a whole download. `gaveUp` is the index of the rejected tick. The verdict
   is the first tick at which the history says to give up, and there is none if the loop runs
   through; the warnings of every tick before it are those of the three countdowns. Of a torrent
   without a length nothing is judged and nothing listed.
   */
  method Watch(c: Config, samples: seq<Sample>) returns (gaveUp: Option<nat>, listed: seq<Warnings>)
    requires Forward(samples)
    ensures gaveUp.None? ==> forall i: nat :: i < |samples| ==> !GiveUpAt(c, samples, i)
    ensures gaveUp.Some? ==>
              && gaveUp.value < |samples| && GiveUpAt(c, samples, gaveUp.value)
              && forall i: nat :: i < gaveUp.value ==> !GiveUpAt(c, samples, i)
    ensures gaveUp.Some? ==> samples[gaveUp.value].completed < c.total
    ensures |listed| == if c.total <= 0 then 0 else if gaveUp.Some? then gaveUp.value else |samples|
    ensures forall i :: 0 <= i < |listed| ==> listed[i] == WarningsAt(c, samples, i)
  {
    hide RuleAt, Overdue, ClockForward, WarningOf, Forward;
    var slow, stall, low := CLEAR, CLEAR, CLEAR;
    var lastCompleted := 0;
    ghost var slowT, stallT, lowT := SlowTrace(c, samples), StallTrace(c, samples), LowPeersTrace(c, samples);
    listed := [];
    if c.total <= 0 {
      return None, [];
    }
    TracesForward(c, samples);
    RulesStart(c.slowTimeout, slowT);
    RulesStart(c.stallTimeout, stallT);
    RulesStart(c.lowPeersTimeout, lowT);
    for i := 0 to |samples|
      invariant RuleAt(c.slowTimeout, slowT, i, slow)
      invariant RuleAt(c.stallTimeout, stallT, i, stall)
      invariant RuleAt(c.lowPeersTimeout, lowT, i, low)
      invariant i < |samples| ==> lastCompleted == Before(samples, i)
      invariant forall k: nat :: k < i ==> !GiveUpAt(c, samples, k)
      invariant |listed| == i
      invariant forall k :: 0 <= k < i ==> listed[k] == WarningsAt(c, samples, k)
    {
      hide SlowKind, StallKind, LowPeersKind;
      var s := samples[i];
      GivingUpIsIncomplete(c, samples, i);
      var rejected, stallWarning, lowWarning, slowWarning;
      rejected, slow, slowWarning :=
        TickRule(c.slowTimeout, slow, Tick(s.now, SlowKind(c, s, lastCompleted)), slowT, i);
      if rejected {
        return Some(i), listed;
      }
      if NoFullSeed(c, s) {
        return Some(i), listed;
      }
      rejected, stall, stallWarning :=
        TickRule(c.stallTimeout, stall, Tick(s.now, StallKind(c, s, lastCompleted)), stallT, i);
      if rejected {
        return Some(i), listed;
      }
      rejected, low, lowWarning :=
        TickRule(c.lowPeersTimeout, low, Tick(s.now, LowPeersKind(c, s)), lowT, i);
      if rejected {
        return Some(i), listed;
      }
      listed := listed + [Warnings(slowWarning, stallWarning, lowWarning)];
      lastCompleted := s.completed;
    }
    gaveUp := None;
  }

  /** No rule gives up a download whose bytes are all there. */
  lemma GivingUpIsIncomplete(c: Config, samples: seq<Sample>, i: nat)
    requires i < |samples|
    ensures GiveUpAt(c, samples, i) ==> samples[i].completed < c.total
  {
    hide Overdue;
    OverdueIsBad(SlowTrace(c, samples), c.slowTimeout, i);
    OverdueIsBad(StallTrace(c, samples), c.stallTimeout, i);
    OverdueIsBad(LowPeersTrace(c, samples), c.lowPeersTimeout, i);
    if Overdue(SlowTrace(c, samples), c.slowTimeout, i) {
      assert SlowTrace(c, samples)[i].kind == Bad;
    } else if Overdue(StallTrace(c, samples), c.stallTimeout, i) {
      assert StallTrace(c, samples)[i].kind == Bad;
    } else if Overdue(LowPeersTrace(c, samples), c.lowPeersTimeout, i) {
      assert LowPeersTrace(c, samples)[i].kind == Bad;
    }
  }

  // ------------------------------------------------------------- the seed phase

  datatype SeedTick = SeedTick(now: int, uploaded: int, peers: int)

  datatype SeedEnd = NothingToSeed | DeadSwarm(at: nat) | RatioReached(at: nat) | TimeUp(at: nat) | StillSeeding

  const NO_PROGRESS_TIMEOUT := 30 * 60

  const DEFAULT_MAX_SEED_HOURS := 24.0

  /** The last moment of the phase, in seconds; without a configured bound the default applies. */
  function Deadline(start: int, maxHours: real): (d: real)
    ensures d > start as real
    ensures d == start as real + if maxHours <= 0.0 then 86400.0 else 3600.0 * maxHours
  {
    start as real + (if maxHours <= 0.0 then DEFAULT_MAX_SEED_HOURS else maxHours) * 3600.0
  }

  /** Tick p uploaded more than every tick before it. */
  predicate Progress(ticks: seq<SeedTick>, p: nat)
    requires p < |ticks|
  {
    ticks[p].uploaded > 0 && forall q :: 0 <= q < p ==> ticks[q].uploaded < ticks[p].uploaded
  }

  /** No peers, and more than half an hour since the start and since every tick with progress. */
  ghost predicate DeadAt(ticks: seq<SeedTick>, start: int, i: nat)
    requires i < |ticks|
  {
    && ticks[i].peers == 0
    && ticks[i].now - start > 1800
    && forall p: nat :: p <= i && Progress(ticks, p) ==> ticks[i].now - ticks[p].now > 1800
  }

  predicate RatioAt(total: int, ratioTarget: real, t: SeedTick)
    requires total > 0
  {
    ratioTarget > 0.0 && t.uploaded as real / total as real >= ratioTarget
  }

  /** The target number of copies has been uploaded, if there is a target. */
  predicate CopiesUploaded(total: int, ratioTarget: real, t: SeedTick) {
    !(ratioTarget <= 0.0) && t.uploaded as real >= ratioTarget * total as real
  }

  lemma RatioIsCopies(total: int, ratioTarget: real, t: SeedTick)
    requires total > 0
    ensures RatioAt(total, ratioTarget, t) <==> CopiesUploaded(total, ratioTarget, t)
  {
    var ratio := t.uploaded as real / total as real;
    assert ratio * total as real == t.uploaded as real;
    if ratio >= ratioTarget {
      TimesTotal(ratioTarget, ratio, total as real);
    } else {
      TimesTotal(ratio, ratioTarget, total as real);
    }
  }

  lemma TimesTotal(x: real, y: real, total: real)
    requires x <= y && total > 0.0
    ensures x * total <= y * total
    ensures x < y ==> x * total < y * total
  {
  }

  ghost predicate EndsAt(total: int, ratioTarget: real, ticks: seq<SeedTick>, start: int, deadline: real, i: nat)
    requires total > 0 && i < |ticks|
  {
    DeadAt(ticks, start, i) || CopiesUploaded(total, ratioTarget, ticks[i]) || ticks[i].now as real > deadline
  }

  /** `up` is the most uploaded among the first n ticks, and `at` when there was progress last, or the start. */
  ghost predicate ProgressSoFar(ticks: seq<SeedTick>, start: int, n: nat, up: int, at: int)
    requires n <= |ticks|
  {
    && up >= 0 && start <= at
    && (forall q :: 0 <= q < n ==> ticks[q].uploaded <= up)
    && (up == 0 || exists q :: 0 <= q < n && ticks[q].uploaded == up)
    && (at == start || exists p: nat :: p < n && Progress(ticks, p) && ticks[p].now == at)
    && (forall p: nat :: p < n && Progress(ticks, p) ==> ticks[p].now <= at)
  }

  ghost predicate SeedClock(ticks: seq<SeedTick>, start: int) {
    forall i, k :: 0 <= i <= k < |ticks| ==> start <= ticks[i].now <= ticks[k].now
  }

  lemma NoProgressYet(ticks: seq<SeedTick>, start: int)
    ensures ProgressSoFar(ticks, start, 0, 0, start)
  {
  }

  lemma ProgressNow(ticks: seq<SeedTick>, start: int, n: nat, up: int, at: int)
    requires n < |ticks| && SeedClock(ticks, start) && ProgressSoFar(ticks, start, n, up, at)
    requires ticks[n].uploaded > up
    ensures ProgressSoFar(ticks, start, n + 1, ticks[n].uploaded, ticks[n].now)
  {
    assert Progress(ticks, n);
  }

  lemma NoProgressNow(ticks: seq<SeedTick>, start: int, n: nat, up: int, at: int)
    requires n < |ticks| && ProgressSoFar(ticks, start, n, up, at)
    requires ticks[n].uploaded <= up
    ensures ProgressSoFar(ticks, start, n + 1, up, at)
  {
    assert !Progress(ticks, n);
    if at != start {
      var p: nat :| p < n && Progress(ticks, p) && ticks[p].now == at;
      assert p < n + 1;
    }
  }

  lemma DeadExactly(ticks: seq<SeedTick>, start: int, i: nat, up: int, at: int)
    requires i < |ticks| && ProgressSoFar(ticks, start, i + 1, up, at)
    ensures DeadAt(ticks, start, i) <==> ticks[i].peers == 0 && ticks[i].now - at > NO_PROGRESS_TIMEOUT
  {
    hide Progress;
    if at != start {
      var p: nat :| p < i + 1 && Progress(ticks, p) && ticks[p].now == at;
    }
  }

  /**
   The seed phase ends at the first tick that is past the deadline, has reached the ratio, or finds
   the swarm dead; so no phase outlives its deadline, whatever the ratio target and even when no
   bound on the hours is configured.
   */
  method SeedPhase(total: int, ratioTarget: real, maxHours: real, ticks: seq<SeedTick>, start: int)
    returns (end: SeedEnd)
    requires SeedClock(ticks, start)
    ensures end == NothingToSeed <==> total <= 0
    ensures end == StillSeeding ==>
              forall i: nat :: i < |ticks| ==> !EndsAt(total, ratioTarget, ticks, start, Deadline(start, maxHours), i)
    ensures end != StillSeeding && end != NothingToSeed ==>
              && end.at < |ticks|
              && (forall i: nat :: i < end.at ==> !EndsAt(total, ratioTarget, ticks, start, Deadline(start, maxHours), i))
              && (end.DeadSwarm? <==> DeadAt(ticks, start, end.at))
              && (end.RatioReached? <==> !DeadAt(ticks, start, end.at) && CopiesUploaded(total, ratioTarget, ticks[end.at]))
              && (end.TimeUp? ==> ticks[end.at].now as real > Deadline(start, maxHours))
  {
    hide RatioAt, CopiesUploaded, Deadline, SeedClock, ProgressSoFar, DeadAt;
    if total <= 0 {
      return NothingToSeed;
    }
    var deadline := Deadline(start, maxHours);
    var lastProgressUp := 0;
    var lastProgressAt := start;
    NoProgressYet(ticks, start);
    for i := 0 to |ticks|
      invariant ProgressSoFar(ticks, start, i, lastProgressUp, lastProgressAt)
      invariant forall k: nat :: k < i ==> !EndsAt(total, ratioTarget, ticks, start, deadline, k)
    {
      var t := ticks[i];
      if t.uploaded > lastProgressUp {
        ProgressNow(ticks, start, i, lastProgressUp, lastProgressAt);
        lastProgressUp := t.uploaded;
        lastProgressAt := t.now;
      } else {
        NoProgressNow(ticks, start, i, lastProgressUp, lastProgressAt);
      }
      DeadExactly(ticks, start, i, lastProgressUp, lastProgressAt);
      if t.peers == 0 && t.now - lastProgressAt > NO_PROGRESS_TIMEOUT {
        return DeadSwarm(i);
      }
      RatioIsCopies(total, ratioTarget, t);
      if RatioAt(total, ratioTarget, t) {
        return RatioReached(i);
      }
      if t.now as real > deadline {
        return TimeUp(i);
      }
    }
    return StillSeeding;
  }
}
