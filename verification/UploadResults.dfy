/** The promises of UploadToUsenet, for every interleaving of dispatcher, workers and collector. */
module UploadResults {
  import opened Bytes
  import opened Crc32
  import opened YEnc
  import opened Article
  import opened Parts
  import opened Upload
  import opened UploadSafety
  import opened UploadTrailers
  import opened UploadRegistry
  import opened UploadRuns
  import opened Wrappers

  // ------------------------------------------------------------- trailers

  /**
   In every reachable state, every article written so far reads back as the right part of the file;
   only the final part carries crc32, and it is the CRC of the whole file, in whatever order the
   parts registered. Started without an entry, the entry is gone once the final part is written.
   */
  lemma TrailersAreRight(j: Job, left: Option<PartMap>, s: State, k: nat)
    requires LeftAgrees(j, left) && Reached(j, left, s)
    requires OneLine(j.name) && k in s.articles
    ensures 1 <= k <= Total(j)
    ensures var c := Read(s.articles[k]);
            && c.Some? && c.value.number == c.value.endNumber == k && c.value.total == Total(j)
            && c.value.data == Chunk(j.data, k) && c.value.first == Offset(k) + 1
            && c.value.pcrc == Checksum(Chunk(j.data, k))
            && c.value.crc == if k == Total(j) then Some(Checksum(j.data)) else None
    ensures left.None? && Total(j) > 1 && Total(j) in s.articles ==> s.entry == None
  {
    hide Read, Printed, Checksum, Chunk, InOrder, Balanced, Explained, WrittenOnce, WaitersHelped;
    ReachedInvariant(j, left, s);
    ReadInvertsPrint(PartOf(j.data, j.name, k), FileAttribute(j.data, k));
  }

  // ------------------------------------------------------------- what is returned

  lemma NoneHeldWhenFinished(s: State, k: nat)
    requires Finished(s)
    ensures Held(s.workers, k) == 0
  {
    HeldByNone(s.workers, k);
  }

  lemma FinishedTookAll(j: Job, s: State)
    requires InOrder(j, s) && Explained(j, s) && Finished(s) && Returned(s).Segments?
    requires |s.workers| >= 1 || Total(j) == 0
    ensures Taken(s) == Total(j) && s.lost == multiset{}
  {
    if |s.workers| >= 1 {
      assert s.workers[0].Exited?;
    }
  }

  /** The numbers 1..n, each exactly once. */
  ghost predicate EachOnce(numbers: seq<nat>, n: nat) {
    forall k: nat :: multiset(numbers)[k] == if 1 <= k <= n then 1 else 0
  }

  /**
   If UploadToUsenet returns no error, the segments are the numbers of the parts, each exactly once,
   and every one of them has its article; with an agreeing start that is the right one.
   */
  lemma SegmentsAreExact(j: Job, left: Option<PartMap>, s: State)
    requires j.connections >= 1 || Total(j) == 0
    requires Reached(j, left, s) && Finished(s) && Returned(s).Segments?
    ensures EachOnce(Returned(s).numbers, Total(j))
    ensures forall k :: 1 <= k <= Total(j) ==> k in s.articles && IsArticle(j, k, s.articles[k])
    ensures LeftAgrees(j, left) ==>
              forall k :: 1 <= k <= Total(j) ==> s.articles[k] == GoodArticle(j.data, j.name, k)
  {
    hide Total, GoodArticle, PhasesSound, EntriesAgree, WrittenOnce, Wired, WaitersHelped, Held, IsArticle, InOrder;
    ReachedInvariant(j, left, s);
    FinishedTookAll(j, s);
    forall k: nat ensures multiset(s.segments)[k] == if 1 <= k <= Total(j) then 1 else 0 {
      NoneHeldWhenFinished(s, k);
      assert Places(s, k) == if 1 <= k <= Taken(s) then 1 else 0;
    }
    forall k | 1 <= k <= Total(j) ensures k in s.articles {
      assert k in multiset(s.segments);
      assert k in s.segments;
    }
  }

  ghost predicate AlwaysExact(j: Job, left: Option<PartMap>) {
    forall s | Reached(j, left, s) && Finished(s) && Returned(s).Segments? :: EachOnce(Returned(s).numbers, Total(j))
  }

  /**
   Every run that returns no error returns each part once, whatever it started with, exactly when
   there is a worker or nothing to upload. The number of connections is not checked: with none, the
   results channel closes at once, and a file that is not empty is reported as uploaded.
   */
  lemma ExactWithWorkers(j: Job, left: Option<PartMap>)
    ensures AlwaysExact(j, left) <==> j.connections >= 1 || j.data == []
  {
    hide Reached, Total, EachOnce;
    PartsOf(j);
    if j.connections >= 1 || j.data == [] {
      forall s | Reached(j, left, s) && Finished(s) && Returned(s).Segments?
        ensures EachOnce(Returned(s).numbers, Total(j))
      {
        SegmentsAreExact(j, left, s);
      }
    } else {
      ReachStart(j, left);
      NoneOnce(Total(j));
      assert !EachOnce(Returned(Start(j, left)).numbers, Total(j));
    }
  }

  lemma PartsOf(j: Job)
    ensures Total(j) == 0 <==> j.data == []
  {
  }

  lemma NoneOnce(n: nat)
    requires n >= 1
    ensures !EachOnce([], n)
  {
    var none: seq<nat> := [];
    assert multiset(none)[1] == 0;
  }

  /** The articles of the returned segments, in part order. */
  function ByNumber(s: State, n: nat): seq<seq<byte>>
    requires forall k :: 1 <= k <= n ==> k in s.articles
  {
    seq(n, i requires 0 <= i < n => s.articles[i + 1])
  }

  /**
   A successful upload can be rebuilt, whatever it started with: reading the articles by number
   gives the file back.
   */
  lemma UploadRebuildsFile(j: Job, left: Option<PartMap>, s: State)
    requires j.connections >= 1 || j.data == []
    requires Reached(j, left, s) && Finished(s) && Returned(s).Segments?
    requires OneLine(j.name)
    ensures forall k :: 1 <= k <= Total(j) ==> k in s.articles
    ensures var articles := ByNumber(s, Total(j));
            Concat(seq(|articles|, i requires 0 <= i < |articles| => DecodedPart(articles[i]))) == j.data
  {
    hide GoodArticle, DecodedPart, Returned, IsArticleOf, Reached, Finished;
    PartsOf(j);
    SegmentsAreExact(j, left, s);
    TotalIs(j);
    ArticlesRebuild(j.data, j.name, ByNumber(s, Total(j)));
  }

  /** A step on which a worker or the dispatcher gives up with an error. */
  predicate Fails(j: Job, s: State, e: Event)
    requires Enabled(j, s, e)
  {
    e.ReadError? ||
    (e.Work? && (e.action == PostAuth ||
                 (e.action == PostFail && s.workers[e.w].attempt >= MAX_RETRIES)))
  }

  lemma FailureSticks(j: Job, s: State, e: Event)
    requires Enabled(j, s, e)
    ensures s.failed ==> Apply(j, s, e).failed
    ensures s.cancelled ==> Apply(j, s, e).cancelled
    ensures Fails(j, s, e) ==> Apply(j, s, e).failed
  {
    hide NextPart;
    if e.Work? {
      EffectsExplained(j, s, s.workers[e.w], e.action);
    }
  }

  /** Once anything has failed, every later return is an error. */
  lemma {:induction false} FailureIsReported(j: Job, s: State, e: Event, later: seq<Event>)
    requires Enabled(j, s, e) && (Fails(j, s, e) || e == Cancel || s.failed || s.cancelled)
    requires Run(j, Apply(j, s, e), later).Some?
    ensures Returned(Run(j, Apply(j, s, e), later).value) == Error
    decreases |later|
  {
    hide Apply, Enabled;
    FailureSticks(j, s, e);
    var s1 := Apply(j, s, e);
    CancelCancels(j, s, e);
    if later != [] {
      FailureIsReported(j, s1, later[0], later[1..]);
    }
  }

  lemma CancelCancels(j: Job, s: State, e: Event)
    requires Enabled(j, s, e)
    ensures e == Cancel ==> Apply(j, s, e).cancelled
  {
    hide Act, NextPart;
  }
}
