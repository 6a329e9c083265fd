/**
 One watchdog rule: a timer armed by a bad tick, cleared by three good ticks in a row (or a reset),
 that rejects when a bad tick comes too long after it was armed. The timer is compared with a
 predicate over the history of ticks.
 */
module Timers {
  import opened Wrappers

  /** What a tick is to a rule: not evaluated, good, bad, or a reset of the rule. */
  datatype Kind = Skip | Good | Bad | Reset

  datatype Tick = Tick(now: int, kind: Kind)

  const RECOVERY_TICKS := 3

  // ------------------------------------------------------------- the rule as coded

  datatype Timer = Timer(since: Option<int>, recovery: nat)

  const CLEAR := Timer(None, 0)

  /** `active` is whether the rule lists a warning on this tick. */
  datatype Result = Rejected | Running(timer: Timer, active: bool)

  function Step(timeout: int, t: Timer, tick: Tick): Result {
    match tick.kind
    case Skip => Running(t, false)
    case Reset => Running(t.(since := None), false)
    case Bad =>
      if t.since.None? then Running(Timer(Some(tick.now), 0), true)
      else if tick.now - t.since.value > timeout then Rejected
      else Running(Timer(t.since, 0), true)
    case Good =>
      if t.since.None? then Running(t, false)
      else if t.recovery + 1 >= RECOVERY_TICKS then Running(CLEAR, false)
      else Running(Timer(t.since, t.recovery + 1), true)
  }

  /** The timer after the first n ticks, or Rejected if one of them was rejected. */
  function After(timeout: int, trace: seq<Tick>, n: nat): Result
    requires n <= |trace|
  {
    if n == 0 then Running(CLEAR, false)
    else
      match After(timeout, trace, n - 1)
      case Rejected => Rejected
      case Running(t, _) => Step(timeout, t, trace[n - 1])
  }

  // ------------------------------------------------------------- the rule as history

  predicate IsKind(trace: seq<Tick>, i: int, k: Kind) {
    0 <= i < |trace| && trace[i].kind == k
  }

  /** Three good ticks with no bad tick between them: consecutive among the evaluated ticks. */
  predicate InARow(trace: seq<Tick>, x: int, y: int, z: int) {
    && x < y < z
    && IsKind(trace, x, Good) && IsKind(trace, y, Good) && IsKind(trace, z, Good)
    && forall m :: x < m < z ==> !IsKind(trace, m, Bad)
  }

  /** Nothing strictly between a and n cleared the rule. */
  ghost predicate Calm(trace: seq<Tick>, a: int, n: int) {
    && (forall m :: a < m < n ==> !IsKind(trace, m, Reset))
    && (forall x, y, z :: a < x && z < n ==> !InARow(trace, x, y, z))
  }

  /** a is a bad tick whose countdown is still running before tick n. */
  ghost predicate Counting(trace: seq<Tick>, a: int, n: int) {
    0 <= a < n <= |trace| && IsKind(trace, a, Bad) && Calm(trace, a, n)
  }

  /** Tick i is bad and some countdown that started more than the timeout ago is still running. */
  ghost predicate Overdue(trace: seq<Tick>, timeout: int, i: nat) {
    && IsKind(trace, i, Bad)
    && exists a :: Counting(trace, a, i) && trace[i].now - trace[a].now > timeout
  }

  predicate ClockForward(trace: seq<Tick>) {
    forall i, k :: 0 <= i <= k < |trace| ==> trace[i].now <= trace[k].now
  }

  // ------------------------------------------------------------- counting good ticks

  function Goods(trace: seq<Tick>, lo: nat, hi: nat): nat
    requires lo <= hi <= |trace|
    decreases hi - lo
  {
    if lo == hi then 0 else Goods(trace, lo, hi - 1) + if trace[hi - 1].kind == Good then 1 else 0
  }

  lemma {:induction false} OneGood(trace: seq<Tick>, lo: nat, hi: nat) returns (x: nat)
    requires lo <= hi <= |trace| && Goods(trace, lo, hi) >= 1
    ensures lo <= x < hi && IsKind(trace, x, Good)
    ensures Goods(trace, lo, x) == Goods(trace, lo, hi) - 1
    decreases hi - lo
  {
    if trace[hi - 1].kind == Good {
      x := hi - 1;
    } else {
      x := OneGood(trace, lo, hi - 1);
    }
  }

  lemma ThreeGoods(trace: seq<Tick>, lo: nat, hi: nat) returns (x: nat, y: nat, z: nat)
    requires lo <= hi <= |trace| && Goods(trace, lo, hi) >= 3
    ensures lo <= x < y < z < hi
    ensures IsKind(trace, x, Good) && IsKind(trace, y, Good) && IsKind(trace, z, Good)
  {
    z := OneGood(trace, lo, hi);
    y := OneGood(trace, lo, z);
    x := OneGood(trace, lo, y);
  }

  lemma {:induction false} GoodsGrow(trace: seq<Tick>, lo: nat, mid: nat, hi: nat)
    requires lo <= mid <= hi <= |trace|
    ensures Goods(trace, lo, mid) <= Goods(trace, lo, hi)
    decreases hi - mid
  {
    if mid < hi {
      GoodsGrow(trace, lo, mid, hi - 1);
    }
  }

  lemma GoodsAtLeastThree(trace: seq<Tick>, lo: nat, hi: nat, x: nat, y: nat, z: nat)
    requires lo <= x < y < z < hi <= |trace|
    requires IsKind(trace, x, Good) && IsKind(trace, y, Good) && IsKind(trace, z, Good)
    ensures Goods(trace, lo, hi) >= 3
  {
    GoodsGrow(trace, lo, lo, x);
    GoodsGrow(trace, lo, x + 1, y);
    GoodsGrow(trace, lo, y + 1, z);
    GoodsGrow(trace, lo, z + 1, hi);
  }

  // ------------------------------------------------------------- the link

  lemma CalmShrinks(trace: seq<Tick>, a: int, n: int)
    requires Calm(trace, a, n + 1)
    ensures Calm(trace, a, n)
  {
  }

  /** A countdown running after tick n was running before it, or starts at n. */
  lemma StillCounting(trace: seq<Tick>, n: nat)
    requires n < |trace|
    ensures forall b {:trigger Counting(trace, b, n)} {:trigger IsKind(trace, b, Bad)} ::
              var m := n + 1; Counting(trace, b, m) ==> Counting(trace, b, n) || (b == n && IsKind(trace, n, Bad))
  {
    forall b | Counting(trace, b, n + 1) && b < n ensures Counting(trace, b, n) {
      CalmShrinks(trace, b, n);
    }
  }

  /** The timer was armed at tick a, last fed a bad tick at `last`, and no older countdown runs. */
  ghost predicate ArmedAt(trace: seq<Tick>, n: nat, t: Timer, a: int, last: int)
    requires n <= |trace|
  {
    && 0 <= a <= last < n
    && Counting(trace, a, n)
    && IsKind(trace, last, Bad)
    && (forall m :: last < m < n ==> !IsKind(trace, m, Bad))
    && t.since == Some(trace[a].now)
    && t.recovery == Goods(trace, last + 1, n) < RECOVERY_TICKS
    && (forall b :: Counting(trace, b, n) ==> a <= b)
  }

  ghost predicate Linked(trace: seq<Tick>, n: nat, t: Timer)
    requires n <= |trace|
  {
    if t.since.None? then forall b :: !Counting(trace, b, n)
    else exists a, last :: ArmedAt(trace, n, t, a, last)
  }

  lemma LinkBad(trace: seq<Tick>, n: nat, t: Timer)
    requires n < |trace| && Linked(trace, n, t) && trace[n].kind == Bad
    ensures Linked(trace, n + 1, Timer(if t.since.None? then Some(trace[n].now) else t.since, 0))
  {
    StillCounting(trace, n);
    if t.since.None? {
      assert ArmedAt(trace, n + 1, Timer(Some(trace[n].now), 0), n, n);
    } else {
      var a, last :| ArmedAt(trace, n, t, a, last);
      BadKeepsCalm(trace, a, n);
      assert ArmedAt(trace, n + 1, Timer(t.since, 0), a, n);
    }
  }

  lemma BadKeepsCalm(trace: seq<Tick>, a: int, n: nat)
    requires n < |trace| && Calm(trace, a, n) && (trace[n].kind == Bad || trace[n].kind == Skip)
    ensures Calm(trace, a, n + 1)
  {
  }

  lemma GoodKeepsCalm(trace: seq<Tick>, a: int, last: int, n: nat)
    requires 0 <= a <= last < n < |trace| && Calm(trace, a, n)
    requires IsKind(trace, last, Bad) && trace[n].kind == Good
    requires Goods(trace, last + 1, n) + 1 < RECOVERY_TICKS
    ensures Calm(trace, a, n + 1)
  {
    forall x, y, z | a < x && z < n + 1 ensures !InARow(trace, x, y, z) {
      if z == n && InARow(trace, x, y, z) {
        assert !(x < last < z);
        assert x > last;
        GoodsAtLeastThree(trace, last + 1, n + 1, x, y, z);
      }
    }
  }

  lemma LinkGood(trace: seq<Tick>, n: nat, t: Timer)
    requires n < |trace| && Linked(trace, n, t) && trace[n].kind == Good && t.since.Some?
    ensures t.recovery + 1 < RECOVERY_TICKS ==> Linked(trace, n + 1, Timer(t.since, t.recovery + 1))
    ensures t.recovery + 1 >= RECOVERY_TICKS ==> Linked(trace, n + 1, CLEAR)
  {
    var a, last :| ArmedAt(trace, n, t, a, last);
    StillCounting(trace, n);
    if t.recovery + 1 < RECOVERY_TICKS {
      GoodKeepsCalm(trace, a, last, n);
      assert ArmedAt(trace, n + 1, Timer(t.since, t.recovery + 1), a, last);
    } else {
      var m := n + 1;
      if exists b :: Counting(trace, b, m) {
        var b :| Counting(trace, b, m);
        assert b <= last;
        ThreeClear(trace, b, last, n);
      }
    }
  }

  lemma ThreeClear(trace: seq<Tick>, b: int, last: int, n: nat)
    requires 0 <= b <= last < n < |trace| && trace[n].kind == Good
    requires forall m :: last < m < n ==> !IsKind(trace, m, Bad)
    requires Goods(trace, last + 1, n) + 1 >= RECOVERY_TICKS
    ensures !Calm(trace, b, n + 1)
  {
    var x, y, z := ThreeGoods(trace, last + 1, n + 1);
    assert InARow(trace, x, y, z);
  }

  lemma LinkQuiet(trace: seq<Tick>, n: nat, t: Timer)
    requires n < |trace| && Linked(trace, n, t)
    requires trace[n].kind == Skip || (trace[n].kind == Good && t.since.None?)
    ensures Linked(trace, n + 1, t)
  {
    StillCounting(trace, n);
    if t.since.Some? {
      var a, last :| ArmedAt(trace, n, t, a, last);
      BadKeepsCalm(trace, a, n);
      assert ArmedAt(trace, n + 1, t, a, last);
    }
  }

  lemma LinkReset(trace: seq<Tick>, n: nat, t: Timer)
    requires n < |trace| && trace[n].kind == Reset
    ensures Linked(trace, n + 1, t.(since := None))
  {
    assert IsKind(trace, n, Reset) && !IsKind(trace, n, Bad);
  }

  lemma LinkStep(timeout: int, trace: seq<Tick>, n: nat, t: Timer)
    requires n < |trace| && Linked(trace, n, t)
    ensures var r := Step(timeout, t, trace[n]); r.Running? ==> Linked(trace, n + 1, r.timer)
  {
    hide Linked;
    match trace[n].kind
    case Skip => LinkQuiet(trace, n, t);
    case Reset => LinkReset(trace, n, t);
    case Bad => LinkBad(trace, n, t);
    case Good =>
      if t.since.None? {
        LinkQuiet(trace, n, t);
      } else {
        LinkGood(trace, n, t);
      }
  }

  lemma LinkClear(trace: seq<Tick>)
    ensures Linked(trace, 0, CLEAR)
  {
  }

  /** On a forward clock the next tick is rejected exactly when it is overdue. */
  lemma RejectsWhenOverdue(timeout: int, trace: seq<Tick>, n: nat, t: Timer)
    requires ClockForward(trace) && n < |trace| && Linked(trace, n, t)
    ensures Step(timeout, t, trace[n]).Rejected? <==> Overdue(trace, timeout, n)
  {
    hide Calm;
    if t.since.Some? {
      var a, last :| ArmedAt(trace, n, t, a, last);
      if Overdue(trace, timeout, n) {
        var b :| Counting(trace, b, n) && trace[n].now - trace[b].now > timeout;
        assert trace[a].now <= trace[b].now;
      }
    }
  }

  lemma {:induction false} LinkedAfter(timeout: int, trace: seq<Tick>, n: nat)
    requires n <= |trace|
    ensures var r := After(timeout, trace, n); r.Running? ==> Linked(trace, n, r.timer)
  {
    hide Linked, Step;
    if n == 0 {
      LinkClear(trace);
    } else {
      LinkedAfter(timeout, trace, n - 1);
      var r := After(timeout, trace, n - 1);
      if r.Running? {
        LinkStep(timeout, trace, n - 1, r.timer);
      }
    }
  }

  /**
   The coded rule is the history predicate: on every trace with a forward clock, some tick among the
   first n is rejected exactly when some tick among them is overdue.
   */
  lemma {:induction false} RuleIsHistory(timeout: int, trace: seq<Tick>, n: nat)
    requires ClockForward(trace) && n <= |trace|
    ensures After(timeout, trace, n).Rejected? <==> exists i: nat :: i < n && Overdue(trace, timeout, i)
  {
    hide Overdue, Linked, Step;
    if n > 0 {
      RuleIsHistory(timeout, trace, n - 1);
      LinkedAfter(timeout, trace, n - 1);
      var r := After(timeout, trace, n - 1);
      if r.Running? {
        RejectsWhenOverdue(timeout, trace, n - 1, r.timer);
      }
    }
  }

  /** Without a bad tick no countdown ever runs. */
  lemma {:induction false} NoBadNoCountdown(timeout: int, trace: seq<Tick>, n: nat)
    requires n <= |trace| && forall i :: 0 <= i < n ==> !IsKind(trace, i, Bad)
    ensures var r := After(timeout, trace, n); r.Running? && r.timer.since.None? && !r.active
  {
    if n > 0 {
      NoBadNoCountdown(timeout, trace, n - 1);
      assert !IsKind(trace, n - 1, Bad);
    }
  }

  /** Bad ticks only, for longer than the timeout. */
  lemma BadForTooLong(timeout: int, trace: seq<Tick>, a: nat, b: nat)
    requires a < b < |trace| && trace[b].now - trace[a].now > timeout
    requires forall i :: a <= i <= b ==> IsKind(trace, i, Bad)
    ensures Overdue(trace, timeout, b)
  {
    forall m | a < m < b ensures !IsKind(trace, m, Reset) {
      assert IsKind(trace, m, Bad);
    }
    forall x, y, z | a < x && z < b ensures !InARow(trace, x, y, z) {
      if x < y < z {
        assert IsKind(trace, x, Bad);
      }
    }
    assert Calm(trace, a, b);
    assert Counting(trace, a, b);
  }

  // ------------------------------------------------------------- warnings

  /** The oldest running countdown before tick n. */
  ghost predicate Oldest(trace: seq<Tick>, a: int, n: int) {
    Counting(trace, a, n) && forall b :: Counting(trace, b, n) ==> a <= b
  }

  /** What an active rule lists: the moment the rejection would come. */
  function Warning(timeout: int, r: Result): Option<int> {
    if r.Running? && r.active && r.timer.since.Some? then Some(r.timer.since.value + timeout) else None
  }

  predicate Evaluated(trace: seq<Tick>, i: int) {
    IsKind(trace, i, Good) || IsKind(trace, i, Bad)
  }

  lemma ActiveMeansEvaluated(timeout: int, t: Timer, tick: Tick)
    ensures var r := Step(timeout, t, tick);
            r.Running? ==> (r.active <==> (tick.kind == Good || tick.kind == Bad) && r.timer.since.Some?)
  {
  }

  /**
   An evaluated tick lists the warning exactly while a countdown runs, and always with the moment
   the oldest countdown started plus the timeout; no other tick lists it.
   */
  lemma WarningIsHistory(timeout: int, trace: seq<Tick>, n: nat, e: int)
    requires n < |trace| && After(timeout, trace, n + 1).Running?
    ensures Warning(timeout, After(timeout, trace, n + 1)) == Some(e)
       <==> Evaluated(trace, n) && exists a :: Oldest(trace, a, n + 1) && e == trace[a].now + timeout
  {
    hide Calm, Step;
    LinkedAfter(timeout, trace, n + 1);
    var before := After(timeout, trace, n);
    var r := After(timeout, trace, n + 1);
    ActiveMeansEvaluated(timeout, before.timer, trace[n]);
    if r.timer.since.Some? {
      var a, last :| ArmedAt(trace, n + 1, r.timer, a, last);
      assert Oldest(trace, a, n + 1);
    }
  }

  /** A countdown that is running at a later tick was running at every tick since its start. */
  lemma CountingBefore(trace: seq<Tick>, a: int, n: int, m: int)
    requires a < n <= m && Counting(trace, a, m)
    ensures Counting(trace, a, n)
  {
  }

  /**
   Warnings do not flicker: from the tick that starts the oldest countdown until a third good tick in
   a row, a reset or the rejection, every evaluated tick lists the very same moment.
   */
  lemma WarningDoesNotFlicker(timeout: int, trace: seq<Tick>, a: nat, n: nat)
    requires a <= n < |trace| && Oldest(trace, a, a + 1) && Calm(trace, a, n + 1)
    requires Evaluated(trace, n) && After(timeout, trace, n + 1).Running?
    ensures Warning(timeout, After(timeout, trace, n + 1)) == Some(trace[a].now + timeout)
  {
    hide Calm, After;
    var m := n + 1;
    forall b | Counting(trace, b, m) ensures a <= b {
      if b < a {
        CountingBefore(trace, b, a + 1, m);
      }
    }
    assert Oldest(trace, a, m);
    WarningIsHistory(timeout, trace, n, trace[a].now + timeout);
  }
}
