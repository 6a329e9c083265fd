/**
 The dispatcher's end. UploadToUsenet returns when the workers and the collector are done; it does not
 wait for the dispatcher, which sends on the jobs channel without looking for a cancel.
 */
module UploadDispatcher {
  import opened Parts
  import opened Upload
  import opened UploadSafety
  import opened UploadRuns
  import opened UploadLiveness
  import opened Wrappers

  /** The upload has returned, and its dispatcher waits for room that nobody will make. */
  predicate LeftBehind(j: Job, s: State) {
    Finished(s) && !s.closed && Blocked(j, s)
  }

  lemma OnlyCancelIsLeft(j: Job, s: State, e: Event)
    requires LeftBehind(j, s) && Enabled(j, s, e)
    ensures e == Cancel && LeftBehind(j, Apply(j, s, e))
  {
    hide NextPart, Total;
  }

  /** Once left behind, it is for good, whatever happens. */
  lemma {:induction false} LeftForGood(j: Job, s: State, events: seq<Event>)
    requires LeftBehind(j, s) && Run(j, s, events).Some?
    ensures LeftBehind(j, Run(j, s, events).value)
    decreases |events|
  {
    hide Apply, Enabled, LeftBehind;
    if events != [] {
      OnlyCancelIsLeft(j, s, events[0]);
      LeftForGood(j, Apply(j, s, events[0]), events[1..]);
    }
  }

  ghost predicate NeverCloses(j: Job, s: State) {
    forall events :: Run(j, s, events).Some? ==> !Run(j, s, events).value.closed
  }

  /** A dispatcher that does not block can still be let out by a cancel. */
  lemma LetOut(j: Job, s: State) returns (events: seq<Event>)
    requires InOrder(j, s) && !s.closed && !Blocked(j, s)
    ensures Run(j, s, events).Some? && Run(j, s, events).value.closed
  {
    hide NextPart, IsPart, PhaseFits;
    var s0 := if s.held then Apply(j, s, Dispatch) else s;
    var s1 := Apply(j, s0, Cancel);
    var s2 := Apply(j, s1, CloseJobs);
    var rest: seq<Event> := [Cancel, CloseJobs];
    assert rest[1..] == [CloseJobs] && [CloseJobs][1..] == [];
    assert Run(j, s2, []) == Some(s2);
    assert Run(j, s1, [CloseJobs]) == Some(s2);
    assert Run(j, s0, rest) == Some(s2);
    events := if s.held then [Dispatch] + rest else rest;
    assert s.held ==> events[1..] == rest;
  }

  /** After the return, an open channel stays open in every continuation exactly when the dispatcher blocks. */
  lemma LeftBehindExactly(j: Job, left: Option<PartMap>, s: State)
    requires Reached(j, left, s) && Finished(s) && !s.closed
    ensures NeverCloses(j, s) <==> s.held && |s.queue| >= 2 * j.connections
  {
    hide Run, Reached, InOrder, Finished;
    if Blocked(j, s) {
      forall events | Run(j, s, events).Some? ensures !Run(j, s, events).value.closed {
        LeftForGood(j, s, events);
      }
    } else {
      ReachedInvariant(j, left, s);
      var events := LetOut(j, s);
    }
  }

  // ------------------------------------------------------------- left to itself

  /** What is in the channel and what is still to come. */
  function Outstanding(j: Job, s: State): int {
    |s.queue| + Total(j) + 1 - s.next
  }

  ghost predicate Roomy(j: Job, s: State) {
    |s.queue| <= Capacity(j) && |s.results| <= Capacity(j)
  }

  lemma RoomyKept(j: Job, s: State, e: Event)
    requires Roomy(j, s) && Enabled(j, s, e)
    ensures Roomy(j, Apply(j, s, e))
  {
    hide NextPart;
    if e.Work? {
      ChannelUnlessPull(j, s, s.workers[e.w], e.action);
      ResultsOfStep(j, s, s.workers[e.w], e.action);
    }
  }

  lemma ResultsOfStep(j: Job, s: State, ph: Phase, a: Action)
    requires CanAct(j, s, ph, a)
    ensures var s' := Effects(j, s, ph, a);
            s'.results == s.results || (|s'.results| == |s.results| + 1 && |s.results| < Capacity(j))
  {
    hide Encodes;
    if a == Encode {
      EncodesFrame(s, ph);
    }
  }

  lemma {:induction false} RoomyAlong(j: Job, s: State, events: seq<Event>)
    requires Roomy(j, s) && Run(j, s, events).Some?
    ensures Roomy(j, Run(j, s, events).value)
    decreases |events|
  {
    hide Apply, Enabled, Roomy;
    if events != [] {
      RoomyKept(j, s, events[0]);
      RoomyAlong(j, Apply(j, s, events[0]), events[1..]);
    }
  }

  /** Neither channel ever holds more than twice as many as there are connections. */
  lemma ChannelsAreBounded(j: Job, left: Option<PartMap>, s: State)
    requires Reached(j, left, s)
    ensures |s.queue| <= 2 * j.connections && |s.results| <= 2 * j.connections
  {
    hide Run, Start;
    var start :| Run(j, Start(j, left), start) == Some(s);
    EmptyIsRoomy(j, left);
    RoomyAlong(j, Start(j, left), start);
  }

  /** A state in which the dispatcher is alone. */
  predicate Alone(j: Job, s: State, outstanding: int) {
    && Finished(s) && !s.cancelled && |s.queue| <= Capacity(j)
    && Outstanding(j, s) == outstanding
    && (s.closed ==> outstanding <= Capacity(j))
    && (s.held ==> s.next <= Total(j)) && s.next <= Total(j) + 1
  }

  lemma AloneKept(j: Job, s: State, e: Event, outstanding: int)
    requires Alone(j, s, outstanding) && Enabled(j, s, e) && Proper(e)
    ensures Alone(j, Apply(j, s, e), outstanding)
  {
    hide NextPart, Total;
  }

  lemma {:induction false} AloneAlong(j: Job, s: State, events: seq<Event>, outstanding: int)
    requires Alone(j, s, outstanding) && Run(j, s, events).Some?
    requires forall i :: 0 <= i < |events| ==> Proper(events[i])
    ensures Alone(j, Run(j, s, events).value, outstanding)
    decreases |events|
  {
    hide Apply, Enabled, Alone;
    if events != [] {
      AloneKept(j, s, events[0], outstanding);
      AloneAlong(j, Apply(j, s, events[0]), events[1..], outstanding);
    }
  }

  ghost predicate ClosesUnaided(j: Job, s: State) {
    exists events :: Finishes(j, s, events) && Run(j, s, events).value.closed
  }

  /**
   After a return without cancel, with the workers gone, the dispatcher comes to its end by itself
   exactly when all it has still to send fits into the channel.
   */
  lemma ClosesUnaidedExactly(j: Job, left: Option<PartMap>, s: State)
    requires Reached(j, left, s) && Finished(s) && !s.closed && !s.cancelled
    ensures ClosesUnaided(j, s) <==> |s.queue| + Total(j) + 1 - s.next <= 2 * j.connections
  {
    hide Run, AtRest, Start, Orderly;
    var start :| Run(j, Start(j, left), start) == Some(s);
    EmptyIsRoomy(j, left);
    RoomyAlong(j, Start(j, left), start);
    ReachedInvariant(j, left, s);
    IsAlone(j, s);
    if ClosesUnaided(j, s) {
      var events :| Finishes(j, s, events) && Run(j, s, events).value.closed;
      AloneAlong(j, s, events, Outstanding(j, s));
    }
    if Outstanding(j, s) <= Capacity(j) {
      var events := AlwaysFinishes(j, left, s);
      AloneAlong(j, s, events, Outstanding(j, s));
      FitsMeansClosed(j, Run(j, s, events).value, Outstanding(j, s));
    }
  }

  lemma EmptyIsRoomy(j: Job, left: Option<PartMap>)
    ensures Roomy(j, Start(j, left))
  {
  }

  lemma IsAlone(j: Job, s: State)
    requires Orderly(j, s) && Roomy(j, s) && Finished(s) && !s.closed && !s.cancelled
    ensures Alone(j, s, Outstanding(j, s))
  {
    hide Balanced, Explained, Total;
  }

  lemma FitsMeansClosed(j: Job, s: State, outstanding: int)
    requires Alone(j, s, outstanding) && AtRest(j, s) && outstanding <= Capacity(j)
    ensures s.closed
  {
    hide Total;
  }

  // ------------------------------------------------------------- when it can happen

  /** n parts in the channel, nobody at work yet. */
  ghost predicate Filled(j: Job, n: nat, s: State) {
    && s.next == n + 1 && |s.queue| == n && !s.held && !s.closed && !s.cancelled && s.results == []
    && |s.workers| == j.connections && forall w :: 0 <= w < |s.workers| ==> s.workers[w].Idle?
  }

  lemma FillOne(j: Job, left: Option<PartMap>, n: nat, s: State) returns (s': State)
    requires Filled(j, n, s) && Reached(j, left, s) && n < Total(j) && n < Capacity(j)
    ensures Filled(j, n + 1, s') && Reached(j, left, s')
  {
    hide Reached, NextPart, Total;
    ReachStep(j, left, s, ReadPart);
    var s1 := Apply(j, s, ReadPart);
    ReachStep(j, left, s1, Dispatch);
    s' := Apply(j, s1, Dispatch);
  }

  lemma {:induction false} Fill(j: Job, left: Option<PartMap>, n: nat) returns (s: State)
    requires n <= Total(j) && n <= Capacity(j)
    ensures Filled(j, n, s) && Reached(j, left, s)
    decreases n
  {
    hide Reached, Total;
    if n == 0 {
      s := Start(j, left);
      ReachStart(j, left);
    } else {
      var s0 := Fill(j, left, n - 1);
      s := FillOne(j, left, n - 1, s0);
    }
  }

  /** Cancelled, with the dispatcher about to send into a full channel and the first n workers gone. */
  ghost predicate Leaving(j: Job, n: nat, s: State) {
    && s.cancelled && !s.closed && Blocked(j, s) && s.results == []
    && |s.workers| == j.connections && n <= |s.workers|
    && forall w :: 0 <= w < |s.workers| ==> if w < n then s.workers[w].Exited? else s.workers[w].Idle?
  }

  lemma OneLeaves(j: Job, left: Option<PartMap>, n: nat, s: State) returns (s': State)
    requires Leaving(j, n, s) && Reached(j, left, s) && n < j.connections
    ensures Leaving(j, n + 1, s') && Reached(j, left, s')
  {
    hide Reached;
    ReachStep(j, left, s, Work(n, QuitCancelled));
    s' := Apply(j, s, Work(n, QuitCancelled));
  }

  lemma {:induction false} AllLeave(j: Job, left: Option<PartMap>, n: nat) returns (s: State)
    requires Total(j) > Capacity(j) && n <= j.connections
    ensures Leaving(j, n, s) && Reached(j, left, s)
    decreases n
  {
    hide Reached, Total;
    if n == 0 {
      var s0 := Fill(j, left, Capacity(j));
      ReachStep(j, left, s0, ReadPart);
      var s1 := Apply(j, s0, ReadPart);
      ReachStep(j, left, s1, Cancel);
      s := Apply(j, s1, Cancel);
    } else {
      var s0 := AllLeave(j, left, n - 1);
      s := OneLeaves(j, left, n - 1, s0);
    }
  }

  ghost predicate CanBeLeftBehind(j: Job, left: Option<PartMap>) {
    exists s :: Reached(j, left, s) && LeftBehind(j, s)
  }

  /** Some run leaves the dispatcher behind exactly when the file has more parts than the channel has room. */
  lemma CanBeLeftBehindExactly(j: Job, left: Option<PartMap>)
    ensures CanBeLeftBehind(j, left) <==> |j.data| > 716800 * (2 * j.connections)
  {
    hide Reached, InOrder, PartCount;
    PartCountMoreThan(|j.data|, 2 * j.connections);
    if Total(j) > Capacity(j) {
      var s := AllLeave(j, left, j.connections);
      assert LeftBehind(j, s);
    }
    if CanBeLeftBehind(j, left) {
      var s :| Reached(j, left, s) && LeftBehind(j, s);
      ReachedInvariant(j, left, s);
      HeldFits(j, s);
    }
  }

  lemma HeldFits(j: Job, s: State)
    requires InOrder(j, s) && s.held
    ensures |s.queue| < Total(j)
  {
  }
}
