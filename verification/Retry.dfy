/**
 What an upload leaves in the registry, whatever it found there, and what the next uploads of the same
 name and size make of it.
 */
module Retry {
  import opened Article
  import opened Bytes
  import opened Crc32
  import opened Parts
  import opened Upload
  import opened UploadSafety
  import opened UploadTrailers
  import opened UploadRegistry
  import opened UploadRuns
  import opened StaleEntry
  import opened Wrappers

  /** An upload starts without an entry, or with one that an upload of this name and size can leave. */
  predicate StartShape(j: Job, left: Option<PartMap>) {
    left.Some? ==> LeftShape(j, left.value)
  }

  predicate FromLeft(left: Option<PartMap>, k: nat, info: PartCRC) {
    left.Some? && k in left.value && left.value[k] == info
  }

  /** What is registered is a part of this file, or was left by an earlier upload. */
  predicate Explains(j: Job, left: Option<PartMap>, k: nat, info: PartCRC) {
    1 <= k <= Total(j) && (info == InfoOf(Chunk(j.data, k)) || FromLeft(left, k, info))
  }

  ghost predicate AllExplained(j: Job, left: Option<PartMap>, s: State) {
    forall o, k :: 0 <= o < |s.entries| && k in s.entries[o] ==> Explains(j, left, k, s.entries[o][k])
  }

  predicate HoldsFinal(ph: Phase) {
    ph.Waiting? || ph.Folded?
  }

  /** An entry with the final part in it is only found in the registry while that part's worker waits or has folded. */
  ghost predicate FinalGuarded(j: Job, s: State) {
    forall o :: 0 <= o < |s.entries| && Total(j) in s.entries[o] && s.entry == Some(o) ==>
      exists w :: 0 <= w < |s.workers| && HoldsFinal(s.workers[w])
  }

  ghost predicate Known(j: Job, left: Option<PartMap>, s: State) {
    AllExplained(j, left, s) && FinalGuarded(j, s)
  }

  predicate Creates(s: State, s': State) {
    s'.entries == s.entries + [map[]] && s'.entry == Some(|s.entries|)
  }

  /** What a step can do to the entries: register a part, create an empty entry, or unmap the one there is. */
  lemma EntryMoves(j: Job, s: State, ph: Phase, a: Action)
    requires CanAct(j, s, ph, a)
    ensures var s' := Effects(j, s, ph, a);
            if Wakes(ph, a) then
              && ph.entry < |s.entries| && s'.entry == s.entry
              && s'.entries == s.entries[ph.entry := Registered(s.entries[ph.entry], ph.p)]
            else
              Creates(s, s') || (s'.entries == s.entries && s'.entry == if a == Delete then None else s.entry)
  {
    hide Printed, Checksum, Registered, Fold;
    if a != Encode && a != Delete {
      QuietEffects(j, s, ph, a);
    }
  }

  lemma HoldingGoesOn(j: Job, s: State, ph: Phase, a: Action)
    requires CanAct(j, s, ph, a)
    ensures HoldsFinal(ph) && a != Delete ==> HoldsFinal(NewPhase(j, s, ph, a))
    ensures Wakes(ph, a) && ph.p.number == ph.p.total ==> HoldsFinal(NewPhase(j, s, ph, a))
  {
    hide Registered, Fold;
  }

  lemma StillHolds(j: Job, s: State, w: nat, a: Action, v: nat)
    requires w < |s.workers| && CanAct(j, s, s.workers[w], a) && a != Delete
    requires v < |s.workers| && HoldsFinal(s.workers[v])
    ensures HoldsFinal(Moved(j, s, w, a)[v])
  {
    hide CanAct, NewPhase;
    MovedExits(j, s, w, a);
    if v == w {
      HoldingGoesOn(j, s, s.workers[w], a);
    } else {
      MovedOthers(j, s, w, a, v);
    }
  }

  lemma GuardKept(j: Job, s: State, w: nat, a: Action)
    requires InOrder(j, s) && FinalGuarded(j, s) && w < |s.workers| && CanAct(j, s, s.workers[w], a)
    ensures FinalGuarded(j, Act(j, s, w, a))
  {
    hide CanAct, Effects, NewPhase, Moved, IsPart, PhaseFits, Registered, Total, HoldsFinal;
    var s', ph := Act(j, s, w, a), s.workers[w];
    assert PhaseFits(j, s, ph);
    EntryMoves(j, s, ph, a);
    HoldingGoesOn(j, s, ph, a);
    MovedExits(j, s, w, a);
    if Wakes(ph, a) {
      RegisteredKeys(s.entries[ph.entry], ph.p);
      FinalIsTotal(j, s, ph);
    }
    forall o | 0 <= o < |s'.entries| && Total(j) in s'.entries[o] && s'.entry == Some(o)
      ensures exists v :: 0 <= v < |s'.workers| && HoldsFinal(s'.workers[v])
    {
      if Wakes(ph, a) && o == ph.entry && ph.p.number == Total(j) {
        assert HoldsFinal(s'.workers[w]);
      } else {
        assert Total(j) in s.entries[o] && s.entry == Some(o);
        var v :| 0 <= v < |s.workers| && HoldsFinal(s.workers[v]);
        StillHolds(j, s, w, a, v);
        assert HoldsFinal(s'.workers[v]);
      }
    }
  }

  lemma ExplainedKept(j: Job, left: Option<PartMap>, s: State, w: nat, a: Action)
    requires InOrder(j, s) && AllExplained(j, left, s) && w < |s.workers| && CanAct(j, s, s.workers[w], a)
    ensures AllExplained(j, left, Act(j, s, w, a))
  {
    hide CanAct, Effects, NewPhase, Moved, IsPart, PhaseFits, Registered, Total, Explains, InfoOf, Chunk;
    var s', ph := Act(j, s, w, a), s.workers[w];
    assert PhaseFits(j, s, ph);
    EntryMoves(j, s, ph, a);
    if Wakes(ph, a) {
      RegisteredIs(s.entries[ph.entry], ph.p);
      OwnIsExplained(j, left, s, ph);
    }
    forall o, k | 0 <= o < |s'.entries| && k in s'.entries[o] ensures Explains(j, left, k, s'.entries[o][k]) {
      if o < |s.entries| && k in s.entries[o] {
        assert Explains(j, left, k, s.entries[o][k]);
      }
    }
  }

  lemma OwnIsExplained(j: Job, left: Option<PartMap>, s: State, ph: Phase)
    requires PhaseFits(j, s, ph) && ph.Loaded?
    ensures Explains(j, left, ph.p.number, InfoOf(ph.p.data))
  {
    hide Checksum, Chunk;
    PartInfo(j, s, ph);
  }

  lemma KnownKept(j: Job, left: Option<PartMap>, s: State, e: Event)
    requires InOrder(j, s) && Known(j, left, s) && Enabled(j, s, e)
    ensures Known(j, left, Apply(j, s, e))
  {
    hide CanAct, NextPart, Act, IsPart, Total, Explains, HoldsFinal, InOrder;
    if e.Work? {
      ExplainedKept(j, left, s, e.w, e.action);
      GuardKept(j, s, e.w, e.action);
    } else {
      OutsideStep(j, s, e);
    }
  }

  lemma {:induction false} KnownAlong(j: Job, left: Option<PartMap>, s: State, events: seq<Event>)
    requires Orderly(j, s) && Known(j, left, s) && Run(j, s, events).Some?
    ensures Known(j, left, Run(j, s, events).value)
    decreases |events|
  {
    hide Apply, Enabled, Known, InOrder, Balanced, Explained, WrittenOnce, Delivered, Wired, WaitersHelped;
    if events != [] {
      OrderlyKept(j, s, events[0]);
      KnownKept(j, left, s, events[0]);
      KnownAlong(j, left, Apply(j, s, events[0]), events[1..]);
    }
  }

  lemma ReachedKnown(j: Job, left: Option<PartMap>, s: State)
    requires StartShape(j, left) && Reached(j, left, s)
    ensures Known(j, left, s)
  {
    hide Orderly, Start, Known;
    var events :| Run(j, Start(j, left), events) == Some(s);
    StartInvariant(j, left);
    StartKnown(j, left);
    KnownAlong(j, left, Start(j, left), events);
  }

  lemma StartKnown(j: Job, left: Option<PartMap>)
    requires StartShape(j, left)
    ensures Known(j, left, Start(j, left))
  {
    hide InfoOf, Chunk;
  }

  // ------------------------------------------------------------- what is left

  /** What the registry maps the key to. */
  function LeftIn(s: State): Option<PartMap> {
    if s.entry.Some? && s.entry.value < |s.entries| then Some(s.entries[s.entry.value]) else None
  }

  /**
   What an upload that has come to its end, with or without error, leaves under its key, whatever it
   found there: nothing, or parts before the last with the lengths they have; and each of them with the
   CRC it has in this file, or as it was found.
   */
  lemma LeftBehind(j: Job, left: Option<PartMap>, s: State)
    requires StartShape(j, left) && Reached(j, left, s) && Finished(s)
    ensures LeftIn(s).Some? <==> s.entry.Some?
    ensures StartShape(j, LeftIn(s))
    ensures LeftIn(s).Some? ==> forall k :: k in LeftIn(s).value ==> Explains(j, left, k, LeftIn(s).value[k])
  {
    hide InOrder, Balanced, Explained, WrittenOnce, Delivered, WaitersHelped, Checksum, Chunk, Total;
    ReachedInvariant(j, left, s);
    ReachedKnown(j, left, s);
    TotalIs(j);
    if LeftIn(s).Some? {
      var entry := LeftIn(s).value;
      assert Total(j) !in entry;
      forall k | k in entry ensures 1 <= k < Total(j) && entry[k].length == |Chunk(j.data, k)| {
        assert Explains(j, left, k, entry[k]);
      }
    }
  }

  lemma SameLengths(a: seq<byte>, b: seq<byte>, k: nat)
    requires |a| == |b| && 1 <= k <= PartCount(|a|)
    ensures |Chunk(a, k)| == |Chunk(b, k)|
  {
  }

  predicate SameKey(a: Job, b: Job) {
    FileCRCKey(a.name, |a.data|) == FileCRCKey(b.name, |b.data|)
  }

  /** What fits an upload fits every upload with its key. */
  lemma ShapeGoesWithKey(a: Job, b: Job, left: Option<PartMap>)
    requires SameKey(a, b) && StartShape(a, left)
    ensures StartShape(b, left) && Total(a) == Total(b) == PartCount(|b.data|) == PartCount(|a.data|)
  {
    hide Chunk, FileCRCKey;
    KeyInjective(a.name, |a.data|, b.name, |b.data|);
    if left.Some? {
      forall k | k in left.value ensures 1 <= k < Total(b) && left.value[k].length == |Chunk(b.data, k)| {
        SameLengths(a.data, b.data, k);
      }
    }
  }

  /** Every CRC an upload finds is that of its own part. */
  predicate CRCsFit(j: Job, left: Option<PartMap>)
    requires StartShape(j, left)
  {
    left.Some? ==> forall k :: k in left.value ==> left.value[k].pcrc == Checksum(Chunk(j.data, k))
  }

  /** LeftoverExact, with uploads that find nothing: these are always right. */
  lemma StartExact(j: Job, left: Option<PartMap>)
    requires StartShape(j, left)
    ensures FinalArticleAlwaysRight(j, left) <==> j.connections <= 1 || CRCsFit(j, left)
  {
    hide Checksum, Chunk, Reached, Total, LeftShape, GoodArticle, Invariant;
    TotalIs(j);
    match left
    case Some(entry) => LeftoverExact(j, entry);
    case None =>
      forall s | Reached(j, left, s) && Total(j) in s.articles && Total(j) >= 1
        ensures s.articles[Total(j)] == GoodArticle(j.data, j.name, Total(j))
      {
        ReachedInvariant(j, left, s);
        InvariantArticles(j, s);
      }
  }

  /**
   After an upload that has come to its end, however it started and ended, the next upload with the
   same registry key writes the right final article in every run exactly when it has no second worker
   or what was left are the CRCs of its own parts.
   */
  lemma RetryExact(first: Job, left: Option<PartMap>, s: State, second: Job)
    requires StartShape(first, left) && Reached(first, left, s) && Finished(s) && SameKey(first, second)
    ensures StartShape(second, LeftIn(s))
    ensures FinalArticleAlwaysRight(second, LeftIn(s)) <==> second.connections <= 1 || CRCsFit(second, LeftIn(s))
  {
    hide FinalArticleAlwaysRight, CRCsFit, StartShape, Reached, Finished, LeftIn, SameKey;
    LeftBehind(first, left, s);
    ShapeGoesWithKey(first, second, LeftIn(s));
    StartExact(second, LeftIn(s));
  }

  // ------------------------------------------------------------- any number of attempts

  /** Uploads one after the other, each finding what the one before left; the first finds nothing. */
  ghost predicate Attempts(jobs: seq<Job>, lefts: seq<Option<PartMap>>) {
    && |lefts| == |jobs| + 1 && lefts[0] == None
    && forall i :: 0 <= i < |jobs| ==> Leaves(jobs[i], lefts[i], lefts[i + 1])
  }

  ghost predicate Leaves(j: Job, left: Option<PartMap>, next: Option<PartMap>) {
    exists s :: Reached(j, left, s) && Finished(s) && next == LeftIn(s)
  }

  /** The CRC comes from this part of one of the first n uploads. */
  ghost predicate Descends(jobs: seq<Job>, n: nat, k: nat, info: PartCRC)
    requires n <= |jobs|
  {
    exists i :: 0 <= i < n && 1 <= k <= PartCount(|jobs[i].data|) && info == InfoOf(Chunk(jobs[i].data, k))
  }

  lemma {:induction false} AttemptsLeave(jobs: seq<Job>, lefts: seq<Option<PartMap>>, j: Job, n: nat)
    requires Attempts(jobs, lefts) && n <= |jobs|
    requires forall i :: 0 <= i < |jobs| ==> SameKey(jobs[i], j)
    ensures StartShape(j, lefts[n])
    ensures lefts[n].Some? ==> forall k :: k in lefts[n].value ==> Descends(jobs, n, k, lefts[n].value[k])
    decreases n
  {
    hide StartShape, SameKey, Reached, Finished, LeftIn, InfoOf, Chunk;
    if n == 0 {
      NothingFits(j);
    } else {
      var i := n - 1;
      AttemptsLeave(jobs, lefts, j, i);
      SymmetricKey(jobs[i], j);
      ShapeGoesWithKey(j, jobs[i], lefts[i]);
      assert Leaves(jobs[i], lefts[i], lefts[i + 1]);
      var s :| Reached(jobs[i], lefts[i], s) && Finished(s) && lefts[i + 1] == LeftIn(s);
      LeftBehind(jobs[i], lefts[i], s);
      ShapeGoesWithKey(jobs[i], j, lefts[n]);
      if lefts[n].Some? {
        forall k | k in lefts[n].value ensures Descends(jobs, n, k, lefts[n].value[k]) {
          assert Explains(jobs[i], lefts[i], k, lefts[n].value[k]);
          if FromLeft(lefts[i], k, lefts[n].value[k]) {
            StillDescends(jobs, i, k, lefts[n].value[k]);
          }
        }
      }
    }
  }

  lemma NothingFits(j: Job)
    ensures StartShape(j, None)
  {
  }

  lemma SymmetricKey(a: Job, b: Job)
    requires SameKey(a, b)
    ensures SameKey(b, a)
  {
  }

  lemma StillDescends(jobs: seq<Job>, n: nat, k: nat, info: PartCRC)
    requires n < |jobs| && Descends(jobs, n, k, info)
    ensures Descends(jobs, n + 1, k, info)
  {
    hide InfoOf, Chunk;
    var i :| 0 <= i < n && 1 <= k <= PartCount(|jobs[i].data|) && info == InfoOf(Chunk(jobs[i].data, k));
    assert 0 <= i < n + 1;
  }

  /**
   After any number of uploads with one key, with and without errors: what the next one finds are CRCs
   of parts of theirs, and it is right in every run exactly when it has no second worker or they are
   the CRCs of its own parts.
   */
  lemma ChainExact(jobs: seq<Job>, lefts: seq<Option<PartMap>>, j: Job)
    requires Attempts(jobs, lefts) && forall i :: 0 <= i < |jobs| ==> SameKey(jobs[i], j)
    ensures var left := lefts[|jobs|];
            && StartShape(j, left)
            && (left.Some? ==> forall k :: k in left.value ==> Descends(jobs, |jobs|, k, left.value[k]))
            && (FinalArticleAlwaysRight(j, left) <==> j.connections <= 1 || CRCsFit(j, left))
  {
    hide FinalArticleAlwaysRight, CRCsFit, StartShape, SameKey, Leaves, Descends;
    AttemptsLeave(jobs, lefts, j, |jobs|);
    StartExact(j, lefts[|jobs|]);
  }

  /** So a file may be tried any number of times, as long as all attempts with its key were of this file. */
  lemma RetryOfSameFile(jobs: seq<Job>, lefts: seq<Option<PartMap>>, j: Job)
    requires Attempts(jobs, lefts) && forall i :: 0 <= i < |jobs| ==> jobs[i].name == j.name && jobs[i].data == j.data
    ensures FinalArticleAlwaysRight(j, lefts[|jobs|])
  {
    hide FinalArticleAlwaysRight, StartShape, Leaves, Descends, Chunk, Checksum;
    ChainExact(jobs, lefts, j);
    var left := lefts[|jobs|];
    if left.Some? {
      ShapeIs(j, left);
      forall k | k in left.value ensures left.value[k].pcrc == Checksum(Chunk(j.data, k)) {
        assert Descends(jobs, |jobs|, k, left.value[k]);
        SameFileSameCRC(jobs, |jobs|, k, left.value[k], j);
      }
    }
  }

  lemma ShapeIs(j: Job, left: Option<PartMap>)
    requires StartShape(j, left) && left.Some?
    ensures forall k :: k in left.value ==> 1 <= k < Total(j) == PartCount(|j.data|)
  {
    hide Chunk;
  }

  lemma SameFileSameCRC(jobs: seq<Job>, n: nat, k: nat, info: PartCRC, j: Job)
    requires n <= |jobs| && Descends(jobs, n, k, info)
    requires forall i :: 0 <= i < |jobs| ==> jobs[i].data == j.data
    requires 1 <= k <= PartCount(|j.data|)
    ensures info.pcrc == Checksum(Chunk(j.data, k))
  {
    hide Chunk, Checksum;
  }
}
