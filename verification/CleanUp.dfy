/** When a successful upload leaves nothing in the registry, and what a failed one can pass on. */
module CleanUp {
  import opened Article
  import opened Bytes
  import opened Crc32
  import opened Parts
  import opened Upload
  import opened UploadSafety
  import opened UploadTrailers
  import opened UploadRegistry
  import opened UploadRuns
  import opened UploadLiveness
  import opened UploadResults
  import opened StaleEntry
  import opened Retry
  import opened Wrappers

  ghost predicate AlwaysCleansUp(j: Job, left: Option<PartMap>) {
    forall s | Reached(j, left, s) && Finished(s) && Returned(s).Segments? :: s.entry == None
  }

  // ------------------------------------------------------------- uploads that never look

  /** A file of one part never touches the registry, and without workers nothing does. */
  predicate NeverLooks(j: Job) {
    Total(j) <= 1 || j.connections == 0
  }

  lemma Untouched(j: Job, s: State, e: Event)
    requires Orderly(j, s) && NeverLooks(j) && Enabled(j, s, e)
    ensures Apply(j, s, e).entry == s.entry
  {
    hide CanAct, NextPart, Effects, NewPhase, Moved, PhaseFits, Balanced, Explained, WrittenOnce, Delivered, Wired,
         WaitersHelped, IsPart;
    if e.Work? {
      var ph := s.workers[e.w];
      assert PhaseFits(j, s, ph);
      SinglePartLooksNowhere(j, s, ph, e.action);
    } else {
      OutsideStep(j, s, e);
    }
  }

  lemma SinglePartLooksNowhere(j: Job, s: State, ph: Phase, a: Action)
    requires Total(j) <= 1 && PhaseFits(j, s, ph) && CanAct(j, s, ph, a)
    ensures Effects(j, s, ph, a).entry == s.entry
  {
    hide Printed, Checksum, Registered, Fold, Total, IsPart;
    if PartIn(ph).Some? {
      FinalIsTotal(j, s, ph);
    }
    if a != Encode && a != Delete {
      QuietEffects(j, s, ph, a);
    }
  }

  lemma {:induction false} UntouchedAlong(j: Job, s: State, events: seq<Event>)
    requires Orderly(j, s) && NeverLooks(j) && Run(j, s, events).Some?
    ensures Run(j, s, events).value.entry == s.entry
    decreases |events|
  {
    hide Apply, Enabled, Orderly, NeverLooks;
    if events != [] {
      Untouched(j, s, events[0]);
      OrderlyKept(j, s, events[0]);
      UntouchedAlong(j, Apply(j, s, events[0]), events[1..]);
    }
  }

  // ------------------------------------------------------------- nothing found, or an empty entry

  /** With nothing registered at the start, every part is registered before the final one folds. */
  lemma EmptyStartCleansUp(j: Job, left: Option<PartMap>, s: State)
    requires left.Some? ==> left.value == map[]
    requires Total(j) > 1 && j.connections >= 1
    requires Reached(j, left, s) && Finished(s) && Returned(s).Segments?
    ensures s.entry == None
  {
    hide Reached, Finished, Returned, Start, Invariant, Total, IsArticle, GoodArticle;
    SegmentsAreExact(j, left, s);
    EmptyStartFresh(j, left);
    var events := RunTo(j, left, s);
    StartInvariant(j, left);
    FreshAlong(j, Start(j, left), events);
  }

  lemma EmptyStartFresh(j: Job, left: Option<PartMap>)
    requires left.Some? ==> left.value == map[]
    ensures FreshEntry(j, Start(j, left)) && LeftAgrees(j, left)
  {
  }

  lemma RunTo(j: Job, left: Option<PartMap>, s: State) returns (events: seq<Event>)
    requires Reached(j, left, s)
    ensures Run(j, Start(j, left), events) == Some(s)
  {
    events :| Run(j, Start(j, left), events) == Some(s);
  }

  // ------------------------------------------------------------- one worker

  /** Once its only worker has written the final part, no part is left to encode. */
  ghost predicate DoneAlone(j: Job, s: State)
    requires |s.workers| == 1
  {
    Total(j) in s.articles ==> s.entry == None && Taken(s) == Total(j) && !Encoding(s.workers[0])
  }

  lemma DoneAloneKept(j: Job, s: State, e: Event)
    requires Total(j) > 1 && InOrder(j, s) && |s.workers| == 1 && DoneAlone(j, s) && Enabled(j, s, e)
    ensures |Apply(j, s, e).workers| == 1 && DoneAlone(j, Apply(j, s, e))
  {
    hide CanAct, NextPart, Effects, NewPhase, Moved, IsPart, PhaseFits, Total;
    SameWorkers(j, s, e);
    var s' := Apply(j, s, e);
    if e.Work? {
      var a, ph := e.action, s.workers[0];
      assert PhaseFits(j, s, ph);
      MovedExits(j, s, 0, a);
      ChannelUnlessPull(j, s, ph, a);
      EncodingStep(j, s, ph, a);
      SharedEffects(j, s, ph, a);
      if Total(j) in s.articles {
        if a == Pull {
          PullHasQueue(j, s, ph);
        }
        DoneEntry(j, s, ph, a);
      } else if Total(j) in s'.articles {
        FinalWrite(j, s, ph, a);
        FoldedTaken(j, s, ph);
      }
    } else {
      OutsideStep(j, s, e);
    }
  }

  lemma FoldedTaken(j: Job, s: State, ph: Phase)
    requires PhaseFits(j, s, ph) && ph.Folded?
    ensures Total(j) <= Taken(s)
  {
    hide IsPart, Total;
    FinalIsTotal(j, s, ph);
  }

  lemma {:induction false} DoneAloneAlong(j: Job, s: State, events: seq<Event>)
    requires Total(j) > 1 && Orderly(j, s) && |s.workers| == 1 && DoneAlone(j, s) && Run(j, s, events).Some?
    ensures var t := Run(j, s, events).value; |t.workers| == 1 && DoneAlone(j, t)
    decreases |events|
  {
    hide Apply, Enabled, DoneAlone, InOrder, Balanced, Explained, WrittenOnce, Delivered, Wired, WaitersHelped, Total;
    if events != [] {
      OrderlyKept(j, s, events[0]);
      DoneAloneKept(j, s, events[0]);
      DoneAloneAlong(j, Apply(j, s, events[0]), events[1..]);
    }
  }

  lemma OneWorkerCleansUp(j: Job, left: Option<PartMap>, s: State)
    requires j.connections == 1 && Total(j) > 1
    requires Reached(j, left, s) && Finished(s) && Returned(s).Segments?
    ensures s.entry == None
  {
    hide Reached, Finished, Returned, Orderly, Total, IsArticle, GoodArticle, Invariant;
    SegmentsAreExact(j, left, s);
    var events := RunTo(j, left, s);
    StartInvariant(j, left);
    DoneAloneAlong(j, Start(j, left), events);
  }

  // ------------------------------------------------------------- an entry that comes back

  lemma FinalGoneStays(j: Job, s: State, e: Event)
    requires Orderly(j, s) && Total(j) in s.articles && s.entry.Some? && Enabled(j, s, e)
    ensures Total(j) in Apply(j, s, e).articles && Apply(j, s, e).entry.Some?
  {
    hide CanAct, NextPart, Effects, NewPhase, Moved, IsPart, PhaseFits, Balanced, Explained, Delivered, Wired,
         WaitersHelped, Total;
    if e.Work? {
      var ph := s.workers[e.w];
      assert PhaseFits(j, s, ph);
      SharedEffects(j, s, ph, e.action);
      EntryMoves(j, s, ph, e.action);
      if e.action == Delete {
        DeletesFinal(j, s, ph);
      }
    } else {
      OutsideStep(j, s, e);
    }
  }

  lemma DeletesFinal(j: Job, s: State, ph: Phase)
    requires CanAct(j, s, ph, Delete) && PhaseFits(j, s, ph)
    ensures Unwritten(ph) && NumberOf(ph) == Total(j)
  {
    hide IsPart, Total;
    FinalIsTotal(j, s, ph);
  }

  lemma {:induction false} FinalGoneAlong(j: Job, s: State, events: seq<Event>)
    requires Orderly(j, s) && Total(j) in s.articles && s.entry.Some? && Run(j, s, events).Some?
    ensures Run(j, s, events).value.entry.Some?
    decreases |events|
  {
    hide Apply, Enabled, Orderly, Total;
    if events != [] {
      FinalGoneStays(j, s, events[0]);
      OrderlyKept(j, s, events[0]);
      FinalGoneAlong(j, Apply(j, s, events[0]), events[1..]);
    }
  }

  /** A worker whose part was overtaken finds no entry and makes a new one. */
  lemma MakesEntry(j: Job, left: Option<PartMap>, s: State) returns (s': State)
    requires Reached(j, left, s) && s.entry == None
    requires |s.workers| >= 1 && s.workers[0].Pulled? && s.workers[0].p.total > 1
    ensures Reached(j, left, s') && s'.entry.Some?
    ensures s'.articles == s.articles && s'.cancelled == s.cancelled && s'.failed == s.failed
  {
    hide Reached;
    ReachStep(j, left, s, Work(0, Encode));
    var s1 := Apply(j, s, Work(0, Encode));
    ReachStep(j, left, s1, Work(0, Encode));
    s' := Apply(j, s1, Work(0, Encode));
  }

  /** With two workers and a part to be found, even a right one, a successful upload can leave a new entry. */
  lemma SuccessLeavesEntry(j: Job, left: PartMap, k: nat) returns (t: State)
    requires j.connections >= 2 && LeftShape(j, left) && k in left
    ensures Reached(j, Some(left), t) && Finished(t) && Returned(t).Segments? && t.entry.Some?
  {
    hide Reached, Finished, Returned, Orderly, Total, Run, LeftShape;
    var s := Overtaking(j, left, k);
    var s' := MakesEntry(j, Some(left), s);
    var events := SucceedsUndisturbed(j, Some(left), s');
    ReachedInvariant(j, Some(left), s');
    FinalGoneAlong(j, s', events);
    ReachRun(j, Some(left), s', events);
    t := Run(j, s', events).value;
  }

  // ------------------------------------------------------------- exactly

  /**
   Every successful upload leaves nothing under its key exactly when it found nothing there, or has
   more than one part and either a single worker or found an entry without parts.
   */
  lemma CleansUpExactly(j: Job, left: Option<PartMap>)
    requires StartShape(j, left)
    ensures AlwaysCleansUp(j, left)
       <==> left.None? || (Total(j) > 1 && (j.connections == 1 || (j.connections >= 1 && left.value == map[])))
  {
    hide Reached, Finished, Returned, Total, Orderly, StartShape, NeverLooks, Start;
    if left.None? || (Total(j) > 1 && (j.connections == 1 || (j.connections >= 1 && left.value == map[]))) {
      forall s | Reached(j, left, s) && Finished(s) && Returned(s).Segments? ensures s.entry == None {
        if Total(j) > 1 && j.connections >= 1 {
          if j.connections == 1 {
            OneWorkerCleansUp(j, left, s);
          } else {
            EmptyStartCleansUp(j, left, s);
          }
        } else {
          NotLooked(j, left, s);
        }
      }
    } else {
      var t := LeavesEntry(j, left);
    }
  }

  lemma NotLooked(j: Job, left: Option<PartMap>, s: State)
    requires (Total(j) <= 1 || j.connections == 0) && Reached(j, left, s)
    ensures s.entry.None? <==> left.None?
  {
    hide Orderly, Total, Reached, Run;
    var events := RunTo(j, left, s);
    StartInvariant(j, left);
    UntouchedAlong(j, Start(j, left), events);
  }

  lemma LeavesEntry(j: Job, left: Option<PartMap>) returns (t: State)
    requires StartShape(j, left) && left.Some?
    requires Total(j) <= 1 || (j.connections != 1 && (j.connections == 0 || left.value != map[]))
    ensures Reached(j, left, t) && Finished(t) && Returned(t).Segments? && t.entry.Some?
  {
    hide Reached, Total, LeftShape, Run;
    ReachStart(j, left);
    if j.connections == 0 {
      t := Start(j, left);
    } else if Total(j) <= 1 {
      var events := SucceedsUndisturbed(j, left, Start(j, left));
      ReachRun(j, left, Start(j, left), events);
      t := Run(j, Start(j, left), events).value;
      NotLooked(j, left, t);
    } else {
      var k :| k in left.value;
      t := SuccessLeavesEntry(j, left.value, k);
    }
  }

  // ------------------------------------------------------------- passing a leftover on

  /** A read error before the first part: the workers leave, and the entry stays as it was found. */
  ghost predicate Quiet(j: Job, left: PartMap, s: State) {
    && s.closed && s.failed && !s.held && s.queue == [] && s.results == []
    && s.entry == Some(0) && s.entries == [left]
    && forall w :: 0 <= w < |s.workers| ==> s.workers[w].Idle? || s.workers[w].Exited?
  }

  lemma QuietKept(j: Job, left: PartMap, s: State, e: Event)
    requires Quiet(j, left, s) && Enabled(j, s, e)
    ensures Quiet(j, left, Apply(j, s, e))
  {
    hide NextPart, Total;
  }

  lemma {:induction false} QuietAlong(j: Job, left: PartMap, s: State, events: seq<Event>)
    requires Quiet(j, left, s) && Run(j, s, events).Some?
    ensures Quiet(j, left, Run(j, s, events).value)
    decreases |events|
  {
    hide Apply, Enabled, Quiet;
    if events != [] {
      QuietKept(j, left, s, events[0]);
      QuietAlong(j, left, Apply(j, s, events[0]), events[1..]);
    }
  }

  /** An upload of a file that is not empty can fail and hand on just what it found. */
  lemma PassesOn(j: Job, left: PartMap) returns (t: State)
    requires Total(j) >= 1
    ensures Reached(j, Some(left), t) && Finished(t) && Returned(t) == Error && LeftIn(t) == Some(left)
  {
    hide Reached, Total, Run;
    ReachStart(j, Some(left));
    var s0 := Start(j, Some(left));
    ReachStep(j, Some(left), s0, ReadError);
    var s := Apply(j, s0, ReadError);
    assert Quiet(j, left, s);
    var events := AlwaysFinishes(j, Some(left), s);
    QuietAlong(j, left, s, events);
    ReachRun(j, Some(left), s, events);
    t := Run(j, s, events).value;
  }

  /**
   A retry of the same file can be wrong when the first attempt itself found a wrong CRC: it can stop
   before it registers anything, and the next attempt finds the same.
   */
  lemma RetryAfterForeignLeftover(j: Job, left: PartMap, k: nat) returns (t: State)
    requires j.connections >= 2 && LeftShape(j, left) && k in left && left[k].pcrc != Checksum(Chunk(j.data, k))
    ensures Reached(j, Some(left), t) && Finished(t) && Returned(t) == Error
    ensures !FinalArticleAlwaysRight(j, LeftIn(t))
  {
    hide Reached, Finished, Returned, LeftIn, Chunk, Checksum, FinalArticleAlwaysRight;
    t := PassesOn(j, left);
    LeftoverExact(j, left);
  }
}
