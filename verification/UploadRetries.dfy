/** How often a part is posted, and exactly when an upload returns an error. */
module UploadRetries {
  import opened Article
  import opened Crc32
  import opened Parts
  import opened Upload
  import opened UploadSafety
  import opened UploadRegistry
  import opened UploadRuns
  import opened UploadResults
  import opened UploadLiveness
  import opened Wrappers

  /** The event is a failed post of part k. */
  predicate PostFailsOf(s: State, e: Event, k: nat) {
    e.Work? && e.action == PostFail && e.w < |s.workers| && s.workers[e.w].Posting? && s.workers[e.w].p.number == k
  }

  /** The failed posts of part k in a run. */
  function FailedPosts(j: Job, s: State, events: seq<Event>, k: nat): nat
    decreases |events|
  {
    if events == [] || !Enabled(j, s, events[0]) then 0
    else (if PostFailsOf(s, events[0], k) then 1 else 0) + FailedPosts(j, Apply(j, s, events[0]), events[1..], k)
  }

  /** What a phase says about the failed posts n of the part it holds. */
  predicate Tells(ph: Phase, n: nat) {
    && (Unwritten(ph) ==> n == 0)
    && (ph.Posting? ==> ph.attempt == n + 1 <= 3)
  }

  /** Part k has had n failed posts. */
  ghost predicate Tracked(s: State, k: nat, n: nat) {
    && n <= 3 && (n == 3 ==> s.failed)
    && (k > Taken(s) ==> n == 0)
    && (forall w :: 0 <= w < |s.workers| && NumberOf(s.workers[w]) == k ==> Tells(s.workers[w], n))
  }

  /** How a step changes what its worker says: only a failed post adds one. */
  lemma StepTells(j: Job, s: State, ph: Phase, a: Action, n: nat)
    requires CanAct(j, s, ph, a) && a != Pull && Tells(ph, n)
    ensures var ph', s' := NewPhase(j, s, ph, a), Effects(j, s, ph, a);
            && (NumberOf(ph') == NumberOf(ph) || NumberOf(ph') == 0)
            && (if a != PostFail then Tells(ph', n)
                else if n < 2 then ph' == Posting(ph.p, ph.attempt + 1) && Tells(ph', n + 1) && s' == s
                else n == 2 && ph'.Exited? && NumberOf(ph') == 0 && s'.failed)
  {
    hide Registered, Fold, Printed, Checksum, Encodes;
  }

  lemma NobodysNumber(s: State, w: nat, k: nat)
    requires w < |s.workers| && NumberOf(s.workers[w]) == k >= 1
    ensures PartIn(s.workers[w]).Some? && PartIn(s.workers[w]).value.number == k
  {
  }

  lemma OthersTell(j: Job, s: State, w: nat, a: Action, v: nat)
    requires w < |s.workers| && CanAct(j, s, s.workers[w], a) && v < |s.workers| && v != w
    ensures var ph, ph' := s.workers[v], Moved(j, s, w, a)[v];
            NumberOf(ph') == NumberOf(ph) && forall n :: Tells(ph', n) <==> Tells(ph, n)
  {
    hide NewPhase, Moved, CanAct;
    MovedOthers(j, s, w, a, v);
  }

  lemma {:induction false} PullTells(j: Job, s: State, ph: Phase)
    requires CanAct(j, s, ph, Pull)
    ensures s.queue != [] && NewPhase(j, s, ph, Pull) == Pulled(s.queue[0])
    ensures NumberOf(Pulled(s.queue[0])) == s.queue[0].number && Tells(Pulled(s.queue[0]), 0)
  {
  }

  lemma OtherPart(j: Job, s: State, ph: Phase, a: Action, k: nat)
    requires CanAct(j, s, ph, a) && a != Pull && NumberOf(ph) != k >= 1
    ensures NumberOf(NewPhase(j, s, ph, a)) != k
    ensures ph.Posting? ==> ph.p.number != k
  {
    hide Registered, Fold;
  }

  /** A part that fails to be posted is in one worker's hands. */
  lemma OnlyHolder(s: State, w: nat, v: nat, k: nat)
    requires Balanced(s) && w < |s.workers| && v < |s.workers| && v != w
    requires PostFailsOf(s, Work(w, PostFail), k)
    ensures NumberOf(s.workers[v]) != k || k == 0
  {
    hide Balanced;
    if NumberOf(s.workers[v]) == k >= 1 {
      NobodysNumber(s, v, k);
      HeldOnce(s, v, w);
    }
  }

  lemma PostFailPosts(j: Job, s: State, w: nat)
    requires Enabled(j, s, Work(w, PostFail))
    ensures s.workers[w].Posting? && PostFailsOf(s, Work(w, PostFail), s.workers[w].p.number)
    ensures NumberOf(s.workers[w]) == s.workers[w].p.number
  {
  }

  lemma TrackedByWorker(j: Job, s: State, w: nat, a: Action, k: nat, n: nat)
    requires InOrder(j, s) && Balanced(s) && Tracked(s, k, n) && k >= 1
    requires w < |s.workers| && CanAct(j, s, s.workers[w], a)
    ensures Tracked(Act(j, s, w, a), k, n + if PostFailsOf(s, Work(w, a), k) then 1 else 0)
  {
    hide CanAct, NewPhase, Effects, Moved, Balanced, IsPart, Tells, NumberOf;
    var ph, s' := s.workers[w], Act(j, s, w, a);
    assert PhaseFits(j, s, ph);
    ChannelUnlessPull(j, s, ph, a);
    EffectsExplained(j, s, ph, a);
    MovedExits(j, s, w, a);
    var m := n + if PostFailsOf(s, Work(w, a), k) then 1 else 0;
    if a == PostFail {
      PostFailPosts(j, s, w);
    }
    if a == Pull {
      PullTells(j, s, ph);
      assert s.queue[0].number == Taken(s) + 1;
    } else if NumberOf(ph) == k {
      StepTells(j, s, ph, a, n);
    } else {
      OtherPart(j, s, ph, a, k);
    }
    forall v | 0 <= v < |s'.workers| && NumberOf(s'.workers[v]) == k ensures Tells(s'.workers[v], m) {
      if v != w {
        OthersTell(j, s, w, a, v);
        if m != n {
          OnlyHolder(s, w, v, k);
        }
      }
    }
  }

  /** The failed posts of a part after one more step. */
  function Next(s: State, e: Event, k: nat, n: nat): nat {
    n + if PostFailsOf(s, e, k) then 1 else 0
  }

  lemma TrackedKept(j: Job, s: State, e: Event, k: nat, n: nat)
    requires InOrder(j, s) && Balanced(s) && Tracked(s, k, n) && k >= 1 && Enabled(j, s, e)
    ensures Tracked(Apply(j, s, e), k, Next(s, e, k, n))
  {
    hide Act, CanAct, Balanced, NextPart, Tells, NumberOf;
    if e.Work? {
      TrackedByWorker(j, s, e.w, e.action, k, n);
    }
  }

  lemma OrderlyParts(j: Job, s: State)
    requires Orderly(j, s)
    ensures InOrder(j, s) && Balanced(s)
  {
  }

  lemma {:induction false} TrackedAlong(j: Job, s: State, events: seq<Event>, k: nat, n: nat)
    requires Orderly(j, s) && Tracked(s, k, n) && k >= 1 && Run(j, s, events).Some?
    ensures Tracked(Run(j, s, events).value, k, n + FailedPosts(j, s, events, k))
    decreases |events|
  {
    hide Orderly, Tracked, Apply, Enabled, PostFailsOf;
    if events != [] {
      OrderlyParts(j, s);
      OrderlyKept(j, s, events[0]);
      TrackedKept(j, s, events[0], k, n);
      TrackedAlong(j, Apply(j, s, events[0]), events[1..], k, Next(s, events[0], k, n));
    }
  }

  // ------------------------------------------------------------- when an upload fails

  /** The context ends, the file cannot be read, or the server refuses the login. */
  predicate Interrupts(e: Event) {
    e == Cancel || e == ReadError || (e.Work? && e.action == PostAuth)
  }

  ghost predicate AllTracked(s: State, n: nat -> nat) {
    forall k: nat :: k >= 1 ==> Tracked(s, k, n(k))
  }

  /** The step on which an upload fails, unless interrupted, is the third failed post of a part. */
  lemma FailingStep(j: Job, s: State, e: Event, n: nat -> nat) returns (k: nat)
    requires Orderly(j, s) && AllTracked(s, n) && !s.failed
    requires Enabled(j, s, e) && !Interrupts(e) && Apply(j, s, e).failed
    ensures 1 <= k <= Total(j) && PostFailsOf(s, e, k) && n(k) == 2
  {
    hide Balanced, Explained, WrittenOnce, Delivered, Wired, WaitersHelped, CanAct, NewPhase, Effects, Moved, Tells;
    if Proper(e) {
      ProperKeepsFlags(j, s, e);
      assert false;
    }
    var w := e.w;
    PostFailPosts(j, s, w);
    var ph := s.workers[w];
    k := ph.p.number;
    assert PhaseFits(j, s, ph);
    assert Tracked(s, k, n(k));
    StepTells(j, s, ph, PostFail, n(k));
  }

  lemma AllTrackedKept(j: Job, s: State, e: Event, n: nat -> nat)
    requires Orderly(j, s) && AllTracked(s, n) && Enabled(j, s, e)
    ensures AllTracked(Apply(j, s, e), (k: nat) => Next(s, e, k, n(k)))
  {
    hide Orderly, Tracked, Apply, Enabled, Next;
    OrderlyParts(j, s);
    var m := (k: nat) => Next(s, e, k, n(k));
    forall k: nat | k >= 1 ensures Tracked(Apply(j, s, e), k, m(k)) {
      TrackedKept(j, s, e, k, n(k));
    }
  }

  lemma {:induction false} FailureHasCause(j: Job, s: State, events: seq<Event>, n: nat -> nat) returns (k: nat)
    requires Orderly(j, s) && AllTracked(s, n) && !s.failed && Run(j, s, events).Some?
    requires forall i :: 0 <= i < |events| ==> !Interrupts(events[i])
    requires Run(j, s, events).value.failed
    ensures 1 <= k <= Total(j) && n(k) + FailedPosts(j, s, events, k) == 3
    decreases |events|
  {
    hide Orderly, Tracked, Apply, Enabled, Interrupts, PostFailsOf;
    var e, s1 := events[0], Apply(j, s, events[0]);
    AllTrackedKept(j, s, e, n);
    OrderlyKept(j, s, e);
    if s1.failed {
      k := FailingStep(j, s, e, n);
      TrackedAlong(j, s, events, k, n(k));
      AtMostThree(Run(j, s, events).value, k, n(k) + FailedPosts(j, s, events, k));
    } else {
      k := FailureHasCause(j, s1, events[1..], (i: nat) => Next(s, e, i, n(i)));
    }
  }

  lemma AtMostThree(s: State, k: nat, n: nat)
    requires Tracked(s, k, n)
    ensures n <= 3 && (n == 3 ==> s.failed)
  {
  }

  lemma StartTracked(j: Job, left: Option<PartMap>)
    ensures AllTracked(Start(j, left), (k: nat) => 0) && Orderly(j, Start(j, left))
    ensures !Start(j, left).failed && !Start(j, left).cancelled
    ensures forall k: nat :: Tracked(Start(j, left), k, 0)
  {
    StartInvariant(j, left);
  }

  lemma {:induction false} InterruptsReported(j: Job, s: State, events: seq<Event>, i: nat)
    requires Run(j, s, events).Some? && i < |events| && Interrupts(events[i])
    ensures Returned(Run(j, s, events).value) == Error
    decreases |events|
  {
    hide Apply, Enabled;
    if i == 0 {
      InterruptFails(j, s, events[0]);
      FailureIsReported(j, s, events[0], events[1..]);
    } else {
      InterruptsReported(j, Apply(j, s, events[0]), events[1..], i - 1);
    }
  }

  lemma InterruptFails(j: Job, s: State, e: Event)
    requires Enabled(j, s, e) && Interrupts(e)
    ensures Fails(j, s, e) || e == Cancel
  {
  }

  lemma {:induction false} NotCancelled(j: Job, s: State, events: seq<Event>)
    requires Run(j, s, events).Some? && !s.cancelled
    requires forall i :: 0 <= i < |events| ==> events[i] != Cancel
    ensures !Run(j, s, events).value.cancelled
    decreases |events|
  {
    hide Apply, Enabled;
    if events != [] {
      OnlyCancelCancels(j, s, events[0]);
      NotCancelled(j, Apply(j, s, events[0]), events[1..]);
    }
  }

  lemma OnlyCancelCancels(j: Job, s: State, e: Event)
    requires Enabled(j, s, e) && e != Cancel
    ensures Apply(j, s, e).cancelled == s.cancelled
  {
    hide NextPart, Moved, NewPhase, Effects, CanAct;
    if e.Work? {
      EffectsExplained(j, s, s.workers[e.w], e.action);
    }
  }

  ghost predicate Interrupted(events: seq<Event>) {
    exists i :: 0 <= i < |events| && Interrupts(events[i])
  }

  /**
   An upload returns an error exactly when it was interrupted or some part failed to be posted three
   times; no part is ever posted more often than that, whatever the schedule and the start.
   */
  lemma ErrorExactly(j: Job, left: Option<PartMap>, events: seq<Event>)
    requires Run(j, Start(j, left), events).Some?
    ensures Returned(Run(j, Start(j, left), events).value) == Error
       <==> Interrupted(events)
            || exists k :: 1 <= k <= Total(j) && FailedPosts(j, Start(j, left), events, k) == 3
    ensures forall k :: 1 <= k <= Total(j) ==> FailedPosts(j, Start(j, left), events, k) <= 3
  {
    hide Start, Orderly, Run, FailedPosts, Tracked, Interrupts, Total;
    var s := Start(j, left);
    var t := Run(j, s, events).value;
    StartTracked(j, left);
    forall k | 1 <= k <= Total(j)
      ensures FailedPosts(j, s, events, k) <= 3 && (FailedPosts(j, s, events, k) == 3 ==> t.failed)
    {
      TrackedAlong(j, s, events, k, 0);
      AtMostThree(t, k, FailedPosts(j, s, events, k));
    }
    if Interrupted(events) {
      var i :| 0 <= i < |events| && Interrupts(events[i]);
      InterruptsReported(j, s, events, i);
    } else {
      forall i | 0 <= i < |events| ensures events[i] != Cancel {
        CancelInterrupts(events[i]);
      }
      NotCancelled(j, s, events);
      if t.failed {
        var k := FailureHasCause(j, s, events, (k: nat) => 0);
      }
    }
  }

  lemma CancelInterrupts(e: Event)
    ensures e == Cancel ==> Interrupts(e)
  {
  }

  /**
   A part that fails to be posted for the first or second time is posted again by the same worker, and
   the upload can still succeed, unless it was interrupted or another part had three failures.
   */
  lemma PostedAgain(j: Job, left: Option<PartMap>, events: seq<Event>, w: nat) returns (more: seq<Event>)
    requires j.connections >= 1 && !Interrupted(events)
    requires Run(j, Start(j, left), events).Some?
    requires var s := Run(j, Start(j, left), events).value;
             && Enabled(j, s, Work(w, PostFail))
             && FailedPosts(j, Start(j, left), events, s.workers[w].p.number) < 2
    requires forall k :: 1 <= k <= Total(j) ==> FailedPosts(j, Start(j, left), events, k) < 3
    ensures var s := Run(j, Start(j, left), events).value;
            var s' := Apply(j, s, Work(w, PostFail));
            && s'.workers[w].Posting? && s'.workers[w].p == s.workers[w].p
            && Finishes(j, s', more) && Returned(Run(j, s', more).value).Segments?
  {
    hide Start, Run, FailedPosts, Tells, Interrupts, Finishes, Reached, CanAct, NewPhase, Effects, Moved,
         Balanced, Explained, WrittenOnce, Delivered, Wired, WaitersHelped;
    var s := Run(j, Start(j, left), events).value;
    StartTracked(j, left);
    ErrorExactly(j, left, events);
    OrderlyAlong(j, Start(j, left), events);
    PostFailPosts(j, s, w);
    var k := s.workers[w].p.number;
    assert PhaseFits(j, s, s.workers[w]);
    TrackedAlong(j, Start(j, left), events, k, 0);
    StepTells(j, s, s.workers[w], PostFail, FailedPosts(j, Start(j, left), events, k));
    MovedExits(j, s, w, PostFail);
    ReachStart(j, left);
    ReachRun(j, left, Start(j, left), events);
    ReachStep(j, left, s, Work(w, PostFail));
    more := SucceedsUndisturbed(j, left, Apply(j, s, Work(w, PostFail)));
  }
}
