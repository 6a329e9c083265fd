/** Why an upload always comes to an end: nobody is stranded, nothing is stuck, every run is bounded. */
module UploadLiveness {
  import opened Article
  import opened Crc32
  import opened Parts
  import opened Upload
  import opened UploadSafety
  import opened UploadTrailers
  import opened UploadRegistry
  import opened UploadRuns
  import opened Wrappers

  // ------------------------------------------------------------- nobody is stranded

  /**
   While the final part's worker waits, some earlier part is in the hands of another worker whose
   next step of encoding is possible now.
   */
  lemma NeverStranded(j: Job, left: Option<PartMap>, s: State, w: nat) returns (v: nat)
    requires Reached(j, left, s)
    requires w < |s.workers| && s.workers[w].Waiting? && !s.workers[w].woken
    ensures v < |s.workers| && v != w
    ensures Encoding(s.workers[v]) && NumberOf(s.workers[v]) < Total(j)
    ensures Enabled(j, s, Work(v, Encode))
  {
    hide Balanced, Explained, WrittenOnce, IsPart, Agrees, NumberOf;
    ReachedInvariant(j, left, s);
    var ph := s.workers[w];
    assert PhaseFits(j, s, ph) && PhaseWired(s, ph);
    WaiterIsFinal(j, s, w);
    assert WaitsRightly(j, s, ph);
    var k := MissingPart(s.entries[0], Total(j));
    assert !InEntry(s, k);
    assert BeingEncoded(s, k);
    v :| 0 <= v < |s.workers| && EncodingPart(s.workers[v], k);
    assert PhaseWired(s, s.workers[v]);
    if k == Total(j) {
      assert false;
    }
  }

  /** The waiting worker holds the last part, so all parts have been taken and none is written last. */
  lemma WaiterIsFinal(j: Job, s: State, w: nat)
    requires InOrder(j, s) && WrittenOnce(s)
    requires w < |s.workers| && s.workers[w].Waiting?
    ensures FinalPending(j, s) && Taken(s) == Total(j) && s.queue == []
    ensures s.workers[w].p.number == Total(j)
  {
    var ph := s.workers[w];
    assert PhaseFits(j, s, ph);
    assert Unwritten(ph) && NumberOf(ph) == ph.p.number;
  }

  lemma MissingPart(parts: PartMap, n: nat) returns (k: nat)
    requires |parts| < n
    ensures 1 <= k <= n && k !in parts
  {
    assert |parts.Keys| == |parts|;
    if forall k :: 1 <= k <= n ==> k in parts {
      SubsetSize(Numbers(n), parts.Keys);
      assert false;
    }
    k :| 1 <= k <= n && k !in parts;
  }

  /** A possible encoding step stays possible, for the same part, until its own worker takes it. */
  lemma EncodingStaysPossible(j: Job, s: State, v: nat, e: Event)
    requires Enabled(j, s, Work(v, Encode)) && Enabled(j, s, e)
    requires e.Work? ==> e.w != v
    ensures Enabled(j, Apply(j, s, e), Work(v, Encode))
    ensures Apply(j, s, e).workers[v] == s.workers[v]
  {
    hide NewPhase, Effects, NextPart;
    if e.Work? {
      SharedEffects(j, s, s.workers[e.w], e.action);
      MovedOthers(j, s, e.w, e.action, v);
    }
  }

  /** Steps of encoding a worker still has to make before its part is registered. */
  function StepsLeft(ph: Phase): nat {
    match ph
    case Pulled(_) => 3
    case Missed(_) => 2
    case Loaded(_, _) => 1
    case _ => 0
  }

  function Distance(ws: seq<Phase>): nat {
    if ws == [] then 0 else StepsLeft(ws[0]) + Distance(ws[1..])
  }

  lemma {:induction false} DistanceMove(ws: seq<Phase>, w: nat, ph: Phase)
    requires w < |ws|
    ensures Distance(ws[w := ph]) + StepsLeft(ws[w]) == Distance(ws) + StepsLeft(ph)
  {
    if w == 0 {
      assert ws[w := ph][1..] == ws[1..];
    } else {
      assert ws[w := ph][1..] == ws[1..][w - 1 := ph];
      DistanceMove(ws[1..], w - 1, ph);
    }
  }

  lemma {:induction false} DistanceSame(ws: seq<Phase>, vs: seq<Phase>)
    requires |ws| == |vs|
    requires forall i :: 0 <= i < |ws| ==> StepsLeft(ws[i]) == StepsLeft(vs[i])
    ensures Distance(ws) == Distance(vs)
  {
    if ws != [] {
      DistanceSame(ws[1..], vs[1..]);
    }
  }

  lemma {:induction false} DistanceZero(ws: seq<Phase>, w: nat)
    requires Distance(ws) == 0 && w < |ws|
    ensures StepsLeft(ws[w]) == 0
  {
    if w > 0 {
      DistanceZero(ws[1..], w - 1);
    }
  }

  lemma StepsLeftOf(j: Job, s: State, ph: Phase, a: Action)
    requires CanAct(j, s, ph, a) && a != Pull
    ensures a == Encode ==> StepsLeft(NewPhase(j, s, ph, a)) < StepsLeft(ph)
    ensures a != Encode ==> StepsLeft(NewPhase(j, s, ph, a)) == StepsLeft(ph)
  {
    hide Registered, Fold;
  }

  /**
   While somebody waits for parts, every encoding step brings the others closer to registering, no
   other step takes them further away, and at distance zero nobody waits unwoken. So the waiting
   worker is woken after at most Distance(s.workers) encoding steps, however they are interleaved.
   */
  lemma WaitingIsBounded(j: Job, left: Option<PartMap>, s: State, w: nat, e: Event)
    requires Reached(j, left, s)
    requires w < |s.workers| && s.workers[w].Waiting? && !s.workers[w].woken
    requires Enabled(j, s, e)
    ensures Distance(s.workers) > 0
    ensures Distance(Apply(j, s, e).workers) <= Distance(s.workers)
    ensures e.Work? && e.action == Encode ==> Distance(Apply(j, s, e).workers) < Distance(s.workers)
  {
    hide NewPhase, Effects, Balanced, Explained, Wired, WaitersHelped;
    var v := NeverStranded(j, left, s, w);
    if Distance(s.workers) == 0 {
      DistanceZero(s.workers, v);
    }
    ReachedInvariant(j, left, s);
    WaiterIsFinal(j, s, w);
    if e.Work? {
      var ph := s.workers[e.w];
      if e.action == Pull {
        PullHasQueue(j, s, ph);
      }
      StepsLeftOf(j, s, ph, e.action);
      DistanceMove(s.workers, e.w, NewPhase(j, s, ph, e.action));
      if Wakes(ph, e.action) {
        DistanceSame(s.workers, Woken(s.workers, ph.entry));
        DistanceMove(Woken(s.workers, ph.entry), e.w, NewPhase(j, s, ph, e.action));
      }
    }
  }

  // ------------------------------------------------------------- nothing is stuck

  /** Steps of an upload to which nothing happens: no cancel, no read error, no failed post. */
  predicate Proper(e: Event) {
    e != Cancel && e != ReadError && !(e.Work? && (e.action == PostFail || e.action == PostAuth))
  }

  /** The dispatcher blocks on a full channel. */
  predicate Blocked(j: Job, s: State) {
    s.held && |s.queue| >= Capacity(j)
  }

  lemma DispatcherMoves(j: Job, s: State) returns (e: Event)
    requires InOrder(j, s) && !s.closed && !Blocked(j, s)
    ensures Enabled(j, s, e) && Proper(e)
  {
    e := if s.held then Dispatch
         else if s.cancelled || s.next > Total(j) then CloseJobs
         else ReadPart;
  }

  lemma IdleMoves(j: Job, s: State, w: nat) returns (e: Event)
    requires InOrder(j, s) && w < |s.workers| == j.connections && s.workers[w].Idle?
    ensures Enabled(j, s, e) && Proper(e)
  {
    hide NextPart, IsPart, PhaseFits;
    if s.queue != [] {
      e := Work(w, Pull);
    } else if s.closed {
      e := Work(w, QuitClosed);
    } else {
      e := DispatcherMoves(j, s);
    }
  }

  /** A worker with a part in hand, unless it waits for others, can go on. */
  lemma BusyMoves(j: Job, s: State, w: nat) returns (a: Action)
    requires w < |s.workers| == j.connections && PhaseWired(s, s.workers[w]) && s.results == []
    requires !s.workers[w].Idle? && !s.workers[w].Exited? && (s.workers[w].Waiting? ==> s.workers[w].woken)
    ensures Enabled(j, s, Work(w, a)) && Proper(Work(w, a))
  {
    var ph := s.workers[w];
    a := if ph.Waiting? then Recheck
         else if ph.Folded? then Delete
         else if ph.Posting? then PostOk
         else if ph.Posted? then Send
         else Encode;
  }

  /** The workers and the collector are done, and the dispatcher is too, or it blocks on a full channel. */
  predicate AtRest(j: Job, s: State) {
    Finished(s) && (s.closed || Blocked(j, s))
  }

  /** In every reachable state that is not at rest, some proper step is possible. */
  lemma NeverStuck(j: Job, left: Option<PartMap>, s: State) returns (e: Event)
    requires Reached(j, left, s) && !AtRest(j, s)
    ensures Enabled(j, s, e) && Proper(e)
  {
    hide InOrder, Balanced, Explained, WrittenOnce, Delivered, WaitersHelped, CanAct, PhaseWired, Reached, Blocked;
    ReachedInvariant(j, left, s);
    if Finished(s) {
      e := DispatcherMoves(j, s);
    } else if s.results != [] {
      e := Collect;
    } else {
      var w :| 0 <= w < |s.workers| && !s.workers[w].Exited?;
      assert PhaseWired(s, s.workers[w]);
      if s.workers[w].Idle? {
        e := IdleMoves(j, s, w);
      } else if s.workers[w].Waiting? && !s.workers[w].woken {
        var v := NeverStranded(j, left, s, w);
        e := Work(v, Encode);
      } else {
        var a := BusyMoves(j, s, w);
        e := Work(w, a);
      }
    }
  }

  // ------------------------------------------------------------- every run is bounded

  /** Steps a worker in this phase may still cost, when n workers could be woken by one of them. */
  function Weight(n: nat, ph: Phase): nat {
    match ph
    case Exited => 0
    case Idle => 1
    case Posted(_) => 3
    case Posting(_, attempt) => if attempt < MAX_RETRIES then 4 + MAX_RETRIES - attempt else 4
    case Folded(_, _) => 4 + MAX_RETRIES
    case Waiting(_, _, woken) => if woken then 6 + MAX_RETRIES else 5 + MAX_RETRIES
    case Loaded(_, _) => 6 + MAX_RETRIES + n
    case Missed(_) => 7 + MAX_RETRIES + n
    case Pulled(_) => 8 + MAX_RETRIES + n
  }

  function Weights(n: nat, ws: seq<Phase>): nat {
    if ws == [] then 0 else Weight(n, ws[0]) + Weights(n, ws[1..])
  }

  /** What the dispatcher has still to send. */
  function Ahead(j: Job, s: State): nat {
    if s.next <= Total(j) then Total(j) + 1 - s.next else 0
  }

  function Rank(j: Job, s: State): nat {
    var n := |s.workers|;
    Weights(n, s.workers) + |s.results| + (if s.closed then 0 else 1)
    + (if s.held then 0 else 1) + Ahead(j, s) * (10 + MAX_RETRIES + n) + |s.queue| * (8 + MAX_RETRIES + n)
  }

  lemma {:induction false} WeightsMove(n: nat, ws: seq<Phase>, w: nat, ph: Phase)
    requires w < |ws|
    ensures Weights(n, ws[w := ph]) + Weight(n, ws[w]) == Weights(n, ws) + Weight(n, ph)
  {
    hide Weight;
    if w == 0 {
      assert ws[w := ph][1..] == ws[1..];
    } else {
      assert ws[w := ph][1..] == ws[1..][w - 1 := ph];
      WeightsMove(n, ws[1..], w - 1, ph);
    }
  }

  /** Waking costs at most one step for each worker. */
  lemma {:induction false} WeightsGrow(n: nat, ws: seq<Phase>, vs: seq<Phase>)
    requires |ws| == |vs|
    requires forall i :: 0 <= i < |ws| ==> Weight(n, vs[i]) <= Weight(n, ws[i]) + 1
    ensures Weights(n, vs) <= Weights(n, ws) + |ws|
  {
    hide Weight;
    if ws != [] {
      WeightsGrow(n, ws[1..], vs[1..]);
    }
  }

  lemma WokenGrow(n: nat, ws: seq<Phase>, entry: nat)
    ensures Weights(n, Woken(ws, entry)) <= Weights(n, ws) + |ws|
    ensures forall i :: 0 <= i < |ws| && !ws[i].Waiting? ==> Woken(ws, entry)[i] == ws[i]
  {
    WeightsGrow(n, ws, Woken(ws, entry));
  }

  /** What a step costs its own worker, with what it puts on the results channel. */
  lemma StepCosts(j: Job, s: State, n: nat, ph: Phase, a: Action)
    requires CanAct(j, s, ph, a)
    ensures var after := Weight(n, NewPhase(j, s, ph, a)) + |Effects(j, s, ph, a).results|;
            var before := Weight(n, ph) + |s.results|;
            if a == Pull then after == before + 7 + MAX_RETRIES + n
            else if Wakes(ph, a) then after + n < before
            else after < before
  {
    hide Printed, Checksum, Registered, Fold, Encodes;
    if a == Encode {
      EncodesFrame(s, ph);
    }
  }

  lemma TimesLess(a: int, m: int)
    ensures (a - 1) * m == a * m - m
  {
  }

  lemma ActDrops(j: Job, s: State, w: nat, a: Action)
    requires w < |s.workers| && CanAct(j, s, s.workers[w], a)
    ensures Rank(j, Act(j, s, w, a)) < Rank(j, s)
  {
    hide CanAct, NewPhase, Effects, Weight, Weights, Total;
    var n, ph, s' := |s.workers|, s.workers[w], Act(j, s, w, a);
    StepCosts(j, s, n, ph, a);
    ChannelUnlessPull(j, s, ph, a);
    EffectsExplained(j, s, ph, a);
    WeightsMove(n, s.workers, w, NewPhase(j, s, ph, a));
    if Wakes(ph, a) {
      WokenGrow(n, s.workers, ph.entry);
      WeightsMove(n, Woken(s.workers, ph.entry), w, NewPhase(j, s, ph, a));
    }
    if a == Pull {
      PullHasQueue(j, s, ph);
      TimesLess(|s.queue|, 8 + MAX_RETRIES + n);
    }
  }

  lemma RankDrops(j: Job, s: State, e: Event)
    requires Enabled(j, s, e)
    ensures if e == Cancel then Rank(j, Apply(j, s, e)) == Rank(j, s) else Rank(j, Apply(j, s, e)) < Rank(j, s)
  {
    hide Act, CanAct, NextPart, Weights, Total;
    match e
    case Work(w, a) => ActDrops(j, s, w, a);
    case Dispatch =>
      TimesLess(Ahead(j, s), 10 + MAX_RETRIES + |s.workers|);
      TimesLess(|s.queue| + 1, 8 + MAX_RETRIES + |s.workers|);
    case _ =>
  }

  /** The events of a run that are not a cancel. */
  function Steps(events: seq<Event>): nat {
    if events == [] then 0 else (if events[0] == Cancel then 0 else 1) + Steps(events[1..])
  }

  /** No run of any length takes more steps than the rank of its first state. */
  lemma {:induction false} RunsAreBounded(j: Job, s: State, events: seq<Event>)
    requires Run(j, s, events).Some?
    ensures Steps(events) + Rank(j, Run(j, s, events).value) <= Rank(j, s)
    decreases |events|
  {
    hide Apply, Enabled, Rank;
    if events != [] {
      RankDrops(j, s, events[0]);
      RunsAreBounded(j, Apply(j, s, events[0]), events[1..]);
    }
  }

  /** Proper steps that bring the upload to rest. */
  ghost predicate Finishes(j: Job, s: State, events: seq<Event>) {
    && (forall i :: 0 <= i < |events| ==> Proper(events[i]))
    && Run(j, s, events).Some? && AtRest(j, Run(j, s, events).value)
  }

  lemma FinishesAfter(j: Job, s: State, e: Event, rest: seq<Event>)
    requires Enabled(j, s, e) && Proper(e) && Finishes(j, Apply(j, s, e), rest)
    ensures Finishes(j, s, [e] + rest)
  {
    hide Enabled, Apply, AtRest;
    assert ([e] + rest)[1..] == rest;
  }

  /**
   From every reachable state, whatever the upload started with, steps without cancel, error or failed
   post lead to rest; and as no run exceeds its rank, every schedule that keeps going gets there.
   */
  lemma {:induction false} AlwaysFinishes(j: Job, left: Option<PartMap>, s: State) returns (events: seq<Event>)
    requires Reached(j, left, s)
    ensures Finishes(j, s, events) && |events| <= Rank(j, s)
    decreases Rank(j, s)
  {
    hide Apply, Enabled, AtRest, Reached, Rank;
    if AtRest(j, s) {
      events := [];
    } else {
      var e := NeverStuck(j, left, s);
      RankDrops(j, s, e);
      ReachStep(j, left, s, e);
      var rest := AlwaysFinishes(j, left, Apply(j, s, e));
      FinishesAfter(j, s, e, rest);
      events := [e] + rest;
    }
  }

  lemma ProperKeepsFlags(j: Job, s: State, e: Event)
    requires Enabled(j, s, e) && Proper(e)
    ensures Apply(j, s, e).cancelled == s.cancelled && Apply(j, s, e).failed == s.failed
  {
    hide NextPart, Printed, Checksum, Registered, Fold, Encodes;
    if e.Work? && e.action == Encode {
      EncodesFrame(s, s.workers[e.w]);
    }
  }

  lemma {:induction false} FlagsAlong(j: Job, s: State, events: seq<Event>)
    requires Run(j, s, events).Some? && forall i :: 0 <= i < |events| ==> Proper(events[i])
    ensures var t := Run(j, s, events).value; t.cancelled == s.cancelled && t.failed == s.failed
    decreases |events|
  {
    hide Apply, Enabled;
    if events != [] {
      ProperKeepsFlags(j, s, events[0]);
      FlagsAlong(j, Apply(j, s, events[0]), events[1..]);
    }
  }

  /** An upload to which nothing happens, if it has a worker, succeeds, and its dispatcher is done. */
  lemma SucceedsUndisturbed(j: Job, left: Option<PartMap>, s: State) returns (events: seq<Event>)
    requires Reached(j, left, s) && !s.cancelled && !s.failed && j.connections >= 1
    ensures Finishes(j, s, events)
    ensures var t := Run(j, s, events).value; Finished(t) && t.closed && Returned(t).Segments?
  {
    hide Reached, InOrder, Balanced, WrittenOnce, Delivered, Wired, WaitersHelped, Run;
    events := AlwaysFinishes(j, left, s);
    FlagsAlong(j, s, events);
    var t := Run(j, s, events).value;
    ReachRun(j, left, s, events);
    ReachedInvariant(j, left, t);
    assert t.workers[0].Exited?;
  }
}
