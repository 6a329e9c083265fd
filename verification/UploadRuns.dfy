/** Runs of an upload: what holds in every state that some interleaving of its steps reaches. */
module UploadRuns {
  import opened Parts
  import opened Upload
  import opened UploadSafety
  import opened UploadTrailers
  import opened UploadRegistry
  import opened Wrappers

  /** What every run keeps, whatever entry it started with. */
  ghost predicate Orderly(j: Job, s: State) {
    && |s.workers| == j.connections
    && InOrder(j, s) && Balanced(s) && Explained(j, s) && WrittenOnce(s) && Delivered(j, s) && Wired(s)
    && WaitersHelped(j, s)
  }

  /** What a run keeps that started without an entry, or with one that agrees with the file. */
  ghost predicate Invariant(j: Job, s: State) {
    Orderly(j, s) && Sound(j, s)
  }

  /** An entry left behind by an earlier run, if there is one, agrees with this file. */
  predicate LeftAgrees(j: Job, left: Option<PartMap>) {
    left.Some? ==> Agrees(left.value, j.data)
  }

  lemma StartBalanced(j: Job, left: Option<PartMap>)
    ensures Balanced(Start(j, left))
  {
    var s := Start(j, left);
    forall k: nat ensures Places(s, k) == 0 {
      HeldByNone(s.workers, k);
    }
  }

  lemma StartInvariant(j: Job, left: Option<PartMap>)
    ensures Orderly(j, Start(j, left))
    ensures LeftAgrees(j, left) ==> Invariant(j, Start(j, left))
    ensures left.None? ==> FreshEntry(j, Start(j, left))
  {
    StartBalanced(j, left);
    hide Agrees;
  }

  lemma SameWorkers(j: Job, s: State, e: Event)
    requires Enabled(j, s, e)
    ensures |Apply(j, s, e).workers| == |s.workers|
  {
    hide NextPart, Effects, NewPhase;
  }

  lemma OrderlyKept(j: Job, s: State, e: Event)
    requires Orderly(j, s) && Enabled(j, s, e)
    ensures Orderly(j, Apply(j, s, e))
  {
    hide Apply, Enabled, InOrder, Balanced, Explained, WrittenOnce, Delivered, Wired, WaitersHelped;
    SameWorkers(j, s, e);
    OrderKept(j, s, e);
    BalanceKept(j, s, e);
    ExplainedKept(j, s, e);
    OnceKept(j, s, e);
    DeliveredKept(j, s, e);
    WiredKept(j, s, e);
    HelpedKept(j, s, e);
  }

  lemma InvariantKept(j: Job, s: State, e: Event)
    requires Invariant(j, s) && Enabled(j, s, e)
    ensures Invariant(j, Apply(j, s, e))
  {
    hide Apply, Enabled, InOrder, Balanced, Explained, Sound, WrittenOnce, Delivered, Wired, WaitersHelped;
    OrderlyKept(j, s, e);
    SoundKept(j, s, e);
  }

  lemma {:induction false} OrderlyAlong(j: Job, s: State, events: seq<Event>)
    requires Orderly(j, s) && Run(j, s, events).Some?
    ensures Orderly(j, Run(j, s, events).value)
    decreases |events|
  {
    hide Apply, Enabled, Orderly;
    if events != [] {
      OrderlyKept(j, s, events[0]);
      OrderlyAlong(j, Apply(j, s, events[0]), events[1..]);
    }
  }

  lemma {:induction false} InvariantAlong(j: Job, s: State, events: seq<Event>)
    requires Invariant(j, s) && Run(j, s, events).Some?
    ensures Invariant(j, Run(j, s, events).value)
    decreases |events|
  {
    hide Apply, Enabled, Invariant;
    if events != [] {
      InvariantKept(j, s, events[0]);
      InvariantAlong(j, Apply(j, s, events[0]), events[1..]);
    }
  }

  lemma {:induction false} FreshAlong(j: Job, s: State, events: seq<Event>)
    requires Invariant(j, s) && FreshEntry(j, s) && Run(j, s, events).Some?
    ensures FreshEntry(j, Run(j, s, events).value)
    decreases |events|
  {
    hide Apply, Enabled, InOrder, Balanced, Explained, Sound, WrittenOnce, Delivered, Wired, WaitersHelped, FreshEntry;
    if events != [] {
      InvariantKept(j, s, events[0]);
      FreshKept(j, s, events[0]);
      FreshAlong(j, Apply(j, s, events[0]), events[1..]);
    }
  }

  ghost predicate Reached(j: Job, left: Option<PartMap>, s: State) {
    exists events :: Run(j, Start(j, left), events) == Some(s)
  }

  lemma ReachedInvariant(j: Job, left: Option<PartMap>, s: State)
    requires Reached(j, left, s)
    ensures Orderly(j, s)
    ensures LeftAgrees(j, left) ==> Invariant(j, s)
    ensures left.None? ==> FreshEntry(j, s)
  {
    hide Orderly, Invariant, FreshEntry, Start;
    var events :| Run(j, Start(j, left), events) == Some(s);
    StartInvariant(j, left);
    OrderlyAlong(j, Start(j, left), events);
    if LeftAgrees(j, left) {
      InvariantAlong(j, Start(j, left), events);
    }
    if left.None? {
      FreshAlong(j, Start(j, left), events);
    }
  }

  // ------------------------------------------------------------- building runs

  lemma {:induction false} RunAppend(j: Job, s: State, events: seq<Event>, e: Event)
    requires Run(j, s, events).Some? && Enabled(j, Run(j, s, events).value, e)
    ensures Run(j, s, events + [e]) == Some(Apply(j, Run(j, s, events).value, e))
    decreases |events|
  {
    hide Apply, Enabled;
    if events == [] {
      assert ([] + [e])[1..] == [];
    } else {
      assert (events + [e])[0] == events[0] && (events + [e])[1..] == events[1..] + [e];
      RunAppend(j, Apply(j, s, events[0]), events[1..], e);
    }
  }

  /** One possible step leads from a reached state to a reached state. */
  lemma ReachStep(j: Job, left: Option<PartMap>, s: State, e: Event)
    requires Reached(j, left, s) && Enabled(j, s, e)
    ensures Reached(j, left, Apply(j, s, e))
  {
    hide Apply, Enabled, Start, Run;
    var events :| Run(j, Start(j, left), events) == Some(s);
    RunAppend(j, Start(j, left), events, e);
  }

  lemma ReachStart(j: Job, left: Option<PartMap>)
    ensures Reached(j, left, Start(j, left))
  {
    hide Start;
    assert Run(j, Start(j, left), []) == Some(Start(j, left));
  }

  lemma {:induction false} ReachRun(j: Job, left: Option<PartMap>, s: State, events: seq<Event>)
    requires Reached(j, left, s) && Run(j, s, events).Some?
    ensures Reached(j, left, Run(j, s, events).value)
    decreases |events|
  {
    hide Apply, Enabled, Reached;
    if events != [] {
      ReachStep(j, left, s, events[0]);
      ReachRun(j, left, Apply(j, s, events[0]), events[1..]);
    }
  }
}
