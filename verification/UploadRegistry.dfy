/**
 The registry entry over a run: which parts are in it, who still has to register, and when it is
 gone. From this follows that a worker waiting for the other parts always gets woken with all of them.
 */
module UploadRegistry {
  import opened Bytes
  import opened Crc32
  import opened Article
  import opened Parts
  import opened Upload
  import opened UploadSafety
  import opened UploadTrailers
  import opened Wrappers

  predicate Unwritten(ph: Phase) {
    Encoding(ph) || ph.Waiting? || ph.Folded?
  }

  function NumberOf(ph: Phase): nat {
    match PartIn(ph)
    case None => 0
    case Some(p) => p.number
  }

  // ------------------------------------------------------------- invariant: one article a part

  /** A worker still encoding a part has not written its article; no untaken part has one. */
  ghost predicate WrittenOnce(s: State) {
    && (forall k :: k in s.articles ==> k <= Taken(s))
    && (forall w :: 0 <= w < |s.workers| && Unwritten(s.workers[w]) ==> NumberOf(s.workers[w]) !in s.articles)
  }

  /** The encoding steps that write the part's article. */
  predicate WritesNow(ph: Phase) {
    (ph.Pulled? && ph.p.total <= 1) || (ph.Loaded? && ph.p.number != ph.p.total)
  }

  lemma KeysOfEncode(s: State, ph: Phase)
    requires Encoding(ph) && (ph.Loaded? ==> ph.entry < |s.entries|)
    ensures Encodes(s, ph).articles.Keys
         == if WritesNow(ph) then s.articles.Keys + {NumberOf(ph)} else s.articles.Keys
  {
    hide Printed, Checksum, Registered;
  }

  lemma PhaseOfEncode(j: Job, s: State, ph: Phase)
    requires CanAct(j, s, ph, Encode)
    ensures Unwritten(NewPhase(j, s, ph, Encode)) <==> !WritesNow(ph)
    ensures !WritesNow(ph) ==> NumberOf(NewPhase(j, s, ph, Encode)) == NumberOf(ph)
  {
    hide Registered, Fold;
  }

  lemma ArticleOfDelete(j: Job, s: State, ph: Phase)
    requires CanAct(j, s, ph, Delete)
    ensures Effects(j, s, ph, Delete).articles.Keys == s.articles.Keys + {NumberOf(ph)}
    ensures Unwritten(ph) && !Unwritten(NewPhase(j, s, ph, Delete))
  {
    hide Printed;
  }

  /** The only new article a step can add is the acting worker's, and then it is done encoding. */
  lemma ArticleOfStep(j: Job, s: State, ph: Phase, a: Action)
    requires CanAct(j, s, ph, a)
    ensures var s', ph' := Effects(j, s, ph, a), NewPhase(j, s, ph, a);
            && (s'.articles.Keys == s.articles.Keys
                || (s'.articles.Keys == s.articles.Keys + {NumberOf(ph)} && Unwritten(ph) && !Unwritten(ph')))
            && (Unwritten(ph') && a != Pull ==> Unwritten(ph) && NumberOf(ph') == NumberOf(ph))
            && (a == Pull ==> s'.articles == s.articles && NumberOf(ph') == s.queue[0].number)
  {
    hide Printed, Checksum, Registered, Fold, Encodes;
    if a == Encode {
      hide NewPhase, WritesNow;
      KeysOfEncode(s, ph);
      PhaseOfEncode(j, s, ph);
    } else if a == Delete {
      ArticleOfDelete(j, s, ph);
    } else {
      QuietEffects(j, s, ph, a);
    }
  }

  lemma MovedOthers(j: Job, s: State, w: nat, a: Action, v: nat)
    requires w < |s.workers| && CanAct(j, s, s.workers[w], a) && v < |s.workers| && v != w
    ensures var ph := s.workers[v];
            Moved(j, s, w, a)[v] == if ph.Waiting? && Wakes(s.workers[w], a) && ph.entry == s.workers[w].entry
                                    then ph.(woken := true) else ph
  {
    hide NewPhase;
  }

  lemma OnceKept(j: Job, s: State, e: Event)
    requires InOrder(j, s) && Balanced(s) && WrittenOnce(s) && Enabled(j, s, e)
    ensures WrittenOnce(Apply(j, s, e))
  {
    hide CanAct, NextPart, Effects, NewPhase, Balanced, Moved, IsPart;
    if e.Work? {
      var w, a, s' := e.w, e.action, Apply(j, s, e);
      var ph := s.workers[w];
      assert PhaseFits(j, s, ph);
      ArticleOfStep(j, s, ph, a);
      ChannelUnlessPull(j, s, ph, a);
      if a == Pull {
        PullHasQueue(j, s, ph);
        assert s.queue[0].number == Taken(s) + 1;
      }
      MovedExits(j, s, w, a);
      forall v | 0 <= v < |s'.workers| && Unwritten(s'.workers[v])
        ensures NumberOf(s'.workers[v]) !in s'.articles
      {
        if v != w {
          MovedOthers(j, s, w, a, v);
          if Unwritten(ph) {
            HeldOnce(s, v, w);
          }
        }
      }
      forall k | k in s'.articles ensures k <= Taken(s') {
        if k !in s.articles {
          assert k == NumberOf(ph);
        }
      }
    }
  }

  // ------------------------------------------------------------- invariant: what is posted is there

  ghost predicate IsArticle(j: Job, k: nat, article: seq<byte>) {
    IsArticleOf(j.data, j.name, k, article)
  }

  predicate PhaseDelivers(s: State, ph: Phase) {
    ph.Posting? || ph.Posted? ==> ph.p.number in s.articles
  }

  /** Every article is one of this file's parts, and whatever is posted, sent or collected has one. */
  ghost predicate Delivered(j: Job, s: State) {
    && (forall k :: k in s.articles ==> IsArticle(j, k, s.articles[k]))
    && (forall i :: 0 <= i < |s.results| ==> s.results[i] in s.articles)
    && (forall i :: 0 <= i < |s.segments| ==> s.segments[i] in s.articles)
    && (forall w :: 0 <= w < |s.workers| ==> PhaseDelivers(s, s.workers[w]))
  }

  lemma WritesArticle(j: Job, s: State, p: Part, whole: Option<bv32>)
    requires IsPart(j, p)
    ensures var s' := Writes(s, p, whole);
            forall k :: k in s'.articles ==> IsArticle(j, k, s'.articles[k]) || (k in s.articles && s'.articles[k] == s.articles[k])
  {
    hide Printed;
  }

  /** A step leaves the articles there are, and adds at most one of this file's. */
  lemma ArticlesOfStep(j: Job, s: State, ph: Phase, a: Action)
    requires CanAct(j, s, ph, a) && PhaseFits(j, s, ph)
    ensures var s' := Effects(j, s, ph, a);
            forall k :: k in s'.articles ==> IsArticle(j, k, s'.articles[k]) || (k in s.articles && s'.articles[k] == s.articles[k])
  {
    hide Printed, Checksum, Registered, Fold, IsArticle, Writes, IsPart, Chunk;
    if a == Encode {
      match ph
      case Pulled(p) =>
        WritesArticle(j, s, p, if p.total == 1 then Some(Checksum(p.data)) else None);
      case Missed(_) =>
      case Loaded(p, entry) =>
        WritesArticle(j, s.(entries := s.entries[entry := Registered(s.entries[entry], p)]), p, None);
    } else if a == Delete {
      WritesArticle(j, s, ph.p, Some(ph.crc));
    } else {
      QuietEffects(j, s, ph, a);
    }
  }

  /** A worker that posts after a step posted before it, or its article was just written. */
  lemma PostedOfStep(j: Job, s: State, ph: Phase, a: Action)
    requires CanAct(j, s, ph, a) && PhaseDelivers(s, ph)
    ensures PhaseDelivers(Effects(j, s, ph, a), NewPhase(j, s, ph, a))
    ensures a == Send ==> ph.p.number in s.articles
  {
    hide Printed, Checksum, Registered, Fold, Encodes, WritesNow;
    if a == Encode {
      KeysOfEncode(s, ph);
      PhaseOfEncode(j, s, ph);
      PostingOfEncode(j, s, ph);
    } else if a != Delete {
      QuietEffects(j, s, ph, a);
    }
  }

  lemma PostingOfEncode(j: Job, s: State, ph: Phase)
    requires CanAct(j, s, ph, Encode)
    ensures var ph' := NewPhase(j, s, ph, Encode);
            ph'.Posting? || ph'.Posted? ==> !Unwritten(ph') && ph'.p.number == NumberOf(ph)
  {
    hide Registered, Fold;
  }

  lemma DeliveredKept(j: Job, s: State, e: Event)
    requires InOrder(j, s) && Delivered(j, s) && Enabled(j, s, e)
    ensures Delivered(j, Apply(j, s, e))
  {
    hide CanAct, NextPart, Effects, NewPhase, Moved, IsArticle, PhaseFits, IsPart;
    var s' := Apply(j, s, e);
    if e.Work? {
      var w, a, ph := e.w, e.action, s.workers[e.w];
      assert PhaseFits(j, s, ph) && PhaseDelivers(s, ph);
      ArticlesOfStep(j, s, ph, a);
      PostedOfStep(j, s, ph, a);
      SharedEffects(j, s, ph, a);
      ResultsOfStep(j, s, ph, a);
      MovedExits(j, s, w, a);
      forall v | 0 <= v < |s'.workers| && v != w ensures PhaseDelivers(s', s'.workers[v]) {
        MovedOthers(j, s, w, a, v);
        assert PhaseDelivers(s, s.workers[v]);
      }
    } else {
      OutsideStep(j, s, e);
    }
  }

  lemma ResultsOfStep(j: Job, s: State, ph: Phase, a: Action)
    requires CanAct(j, s, ph, a)
    ensures var s' := Effects(j, s, ph, a);
            && s'.segments == s.segments
            && s'.results == if a == Send then s.results + [ph.p.number] else s.results
  {
    hide Printed, Checksum, Registered, Encodes;
    if a == Encode {
      EncodesFrame(s, ph);
    }
  }

  // ------------------------------------------------------------- invariant: entries exist

  predicate PhaseWired(s: State, ph: Phase) {
    ph.Loaded? || ph.Waiting? ==> ph.entry < |s.entries|
  }

  /** Every entry that a worker or the registry refers to was created. */
  ghost predicate Wired(s: State) {
    && (s.entry.Some? ==> s.entry.value < |s.entries|)
    && (forall w :: 0 <= w < |s.workers| ==> PhaseWired(s, s.workers[w]))
  }

  lemma EncodeEntries(s: State, ph: Phase)
    requires Encoding(ph) && (ph.Loaded? ==> ph.entry < |s.entries|) && (s.entry.Some? ==> s.entry.value < |s.entries|)
    ensures var s' := Encodes(s, ph);
            && |s.entries| <= |s'.entries| && (s'.entry.Some? ==> s'.entry.value < |s'.entries|)
            && (ph.Missed? && s.entry.None? ==> |s'.entries| == |s.entries| + 1)
  {
    hide Printed, Checksum, Registered;
  }

  lemma EncodeWired(j: Job, s: State, ph: Phase)
    requires CanAct(j, s, ph, Encode) && (s.entry.Some? ==> s.entry.value < |s.entries|)
    ensures var s' := Encodes(s, ph);
            && |s.entries| <= |s'.entries| && (s'.entry.Some? ==> s'.entry.value < |s'.entries|)
            && PhaseWired(s', NewPhase(j, s, ph, Encode))
  {
    hide Encodes, Registered, Fold;
    EncodeEntries(s, ph);
  }

  lemma StepWired(j: Job, s: State, ph: Phase, a: Action)
    requires CanAct(j, s, ph, a) && PhaseWired(s, ph) && (s.entry.Some? ==> s.entry.value < |s.entries|)
    ensures var s' := Effects(j, s, ph, a);
            && |s.entries| <= |s'.entries| && (s'.entry.Some? ==> s'.entry.value < |s'.entries|)
            && PhaseWired(s', NewPhase(j, s, ph, a))
  {
    hide Printed, Checksum, Registered, Fold, Encodes;
    if a == Encode {
      hide NewPhase;
      EncodeWired(j, s, ph);
    } else if a != Delete {
      QuietEffects(j, s, ph, a);
    }
  }

  lemma WiredKept(j: Job, s: State, e: Event)
    requires Wired(s) && Enabled(j, s, e)
    ensures Wired(Apply(j, s, e))
  {
    hide CanAct, NextPart, Effects, NewPhase, Moved;
    var s' := Apply(j, s, e);
    if e.Work? {
      var w, a := e.w, e.action;
      StepWired(j, s, s.workers[w], a);
      MovedExits(j, s, w, a);
      forall v | 0 <= v < |s'.workers| && v != w ensures PhaseWired(s', s'.workers[v]) {
        MovedOthers(j, s, w, a, v);
        assert PhaseWired(s, s.workers[v]);
      }
    } else {
      OutsideStep(j, s, e);
    }
  }

  // ------------------------------------------------------------- invariant: the waiting worker

  predicate FinalPending(j: Job, s: State) {
    Total(j) > 1 && Total(j) !in s.articles
  }

  predicate InEntry(s: State, k: nat) {
    |s.entries| == 1 && k in s.entries[0]
  }

  predicate EncodingPart(ph: Phase, k: nat) {
    Encoding(ph) && NumberOf(ph) == k
  }

  ghost predicate BeingEncoded(s: State, k: nat) {
    exists w :: 0 <= w < |s.workers| && EncodingPart(s.workers[w], k)
  }

  predicate WaitsRightly(j: Job, s: State, ph: Phase) {
    && (ph.Loaded? || ph.Waiting? || ph.Folded? ==> |s.entries| == 1)
    && (ph.Waiting? ==> ph.entry == 0 && ph.p.number in s.entries[0]
                        && (!ph.woken ==> |s.entries[0]| < Total(j)))
  }

  ghost predicate WaitersHelped(j: Job, s: State) {
    FinalPending(j, s) ==>
      && |s.entries| <= 1
      && s.entry == (if |s.entries| == 1 then Some(0) else None)
      && (forall w :: 0 <= w < |s.workers| ==> WaitsRightly(j, s, s.workers[w]))
      && AllHelped(s)
  }

  /** Every part taken from the channel is registered or about to be. */
  ghost predicate AllHelped(s: State) {
    forall k :: 1 <= k <= Taken(s) ==> InEntry(s, k) || BeingEncoded(s, k)
  }

  /** How the one entry changes in a step, while the final part is pending. */
  lemma EntryOfStep(j: Job, s: State, ph: Phase, a: Action)
    requires CanAct(j, s, ph, a)
    requires |s.entries| <= 1 && s.entry == (if |s.entries| == 1 then Some(0) else None)
    requires WaitsRightly(j, s, ph) && PhaseFits(j, s, ph)
    requires Total(j) > 1 && Total(j) !in Effects(j, s, ph, a).articles
    ensures var s', ph' := Effects(j, s, ph, a), NewPhase(j, s, ph, a);
            && |s.entries| <= |s'.entries| <= 1
            && s'.entry == (if |s'.entries| == 1 then Some(0) else None)
            && (|s.entries| == 0 && |s'.entries| == 1 ==> s'.entries[0] == map[])
            && (|s.entries| == 1 ==>
                  s'.entries[0] == if Wakes(ph, a) then Registered(s.entries[0], ph.p) else s.entries[0])
            && (Wakes(ph, a) ==> |s.entries| == 1 && ph.entry == 0)
            && WaitsRightly(j, s', ph')
            && (EncodingPart(ph, NumberOf(ph)) ==>
                  EncodingPart(ph', NumberOf(ph)) || InEntry(s', NumberOf(ph)))
  {
    hide Printed, Checksum, Fold, IsPart, InfoOf, Total;
    if a != Encode && a != Delete {
      QuietEffects(j, s, ph, a);
    }
    match a
    case Encode =>
      FinalIsTotal(j, s, ph);
    case Recheck =>
      FinalIsTotal(j, s, ph);
    case Delete =>
      FinalIsTotal(j, s, ph);
      assert false;
    case _ =>
  }

  lemma FinalIsTotal(j: Job, s: State, ph: Phase)
    requires PhaseFits(j, s, ph) && PartIn(ph).Some?
    ensures PartIn(ph).value.total == Total(j)
  {
  }

  /** The dispatcher, the collector and a cancel leave workers, registry and articles alone. */
  lemma OutsideStep(j: Job, s: State, e: Event)
    requires Enabled(j, s, e) && !e.Work?
    ensures var s' := Apply(j, s, e);
            && s'.workers == s.workers && s'.entries == s.entries && s'.entry == s.entry
            && s'.articles == s.articles && Taken(s') == Taken(s)
  {
    hide NextPart;
  }

  lemma RegisteredHolds(parts: PartMap, p: Part)
    ensures forall k :: k in parts ==> k in Registered(parts, p)
    ensures p.number in Registered(parts, p)
  {
    hide InfoOf;
  }

  lemma StillHelped(s: State, s': State, k: nat, w: nat)
    requires BeingEncoded(s, k)
    requires w < |s.workers| == |s'.workers|
    requires forall v :: 0 <= v < |s.workers| && v != w && Encoding(s.workers[v]) ==> s'.workers[v] == s.workers[v]
    requires EncodingPart(s.workers[w], k) ==> EncodingPart(s'.workers[w], k) || InEntry(s', k)
    ensures BeingEncoded(s', k) || InEntry(s', k)
  {
    var v :| 0 <= v < |s.workers| && EncodingPart(s.workers[v], k);
    if v == w {
      if !InEntry(s', k) {
        assert EncodingPart(s'.workers[w], k);
      }
    } else {
      assert EncodingPart(s'.workers[v], k);
    }
  }

  lemma WaitsOn(j: Job, s: State, s': State, ph: Phase, ph': Phase, wakes: bool, p: Part)
    requires WaitsRightly(j, s, ph)
    requires |s.entries| <= |s'.entries| <= 1
    requires |s.entries| == 1 ==> s'.entries[0] == if wakes then Registered(s.entries[0], p) else s.entries[0]
    requires ph' == if wakes && ph.Waiting? && ph.entry == 0 then ph.(woken := true) else ph
    ensures WaitsRightly(j, s', ph')
  {
    if |s.entries| == 1 {
      RegisteredHolds(s.entries[0], p);
    }
    hide Registered, Total;
  }

  lemma ActHelps(j: Job, s: State, w: nat, a: Action)
    requires InOrder(j, s) && WaitersHelped(j, s)
    requires w < |s.workers| && CanAct(j, s, s.workers[w], a)
    ensures WaitersHelped(j, Act(j, s, w, a))
  {
    hide CanAct, NextPart, Effects, NewPhase, Moved, IsPart, PhaseFits, WaitsRightly, Registered,
         EncodingPart, Total;
    var ph, s' := s.workers[w], Act(j, s, w, a);
    var fx, ph' := Effects(j, s, ph, a), NewPhase(j, s, ph, a);
    assert PhaseFits(j, s, ph);
    SharedEffects(j, s, ph, a);
    ChannelUnlessPull(j, s, ph, a);
    MovedExits(j, s, w, a);
    if FinalPending(j, s') {
      assert WaitsRightly(j, s, ph);
      EntryOfStep(j, s, ph, a);
      forall v | 0 <= v < |s'.workers| ensures WaitsRightly(j, s', s'.workers[v]) {
        if v == w {
          SameWaits(j, fx, s', ph');
        } else {
          MovedOthers(j, s, w, a, v);
          assert WaitsRightly(j, s, s.workers[v]);
          WaitsOn(j, s, s', s.workers[v], s'.workers[v], Wakes(ph, a), if Wakes(ph, a) then ph.p else NoPart());
        }
      }
      StillAllHelped(j, s, w, a);
    }
  }

  lemma StillAllHelped(j: Job, s: State, w: nat, a: Action)
    requires InOrder(j, s) && WaitersHelped(j, s)
    requires w < |s.workers| && CanAct(j, s, s.workers[w], a)
    requires FinalPending(j, s) && FinalPending(j, Act(j, s, w, a))
    ensures AllHelped(Act(j, s, w, a))
  {
    hide CanAct, NextPart, Effects, NewPhase, Moved, IsPart, PhaseFits, WaitsRightly, Registered,
         EncodingPart, Total, BeingEncoded;
    var ph, s' := s.workers[w], Act(j, s, w, a);
    assert PhaseFits(j, s, ph) && WaitsRightly(j, s, ph);
    ChannelUnlessPull(j, s, ph, a);
    MovedExits(j, s, w, a);
    EntryOfStep(j, s, ph, a);
    forall v | 0 <= v < |s.workers| && v != w && Encoding(s.workers[v]) ensures s'.workers[v] == s.workers[v] {
      MovedOthers(j, s, w, a, v);
    }
    if Wakes(ph, a) {
      RegisteredHolds(s.entries[0], ph.p);
    }
    if a == Pull {
      PulledEncodes(j, s, ph);
      EncodedNow(s', w, Taken(s'));
    }
    forall k | 1 <= k <= Taken(s') ensures InEntry(s', k) || BeingEncoded(s', k) {
      if k <= Taken(s) && !InEntry(s, k) {
        OwnPart(ph, k);
        StillHelped(s, s', k, w);
      }
    }
  }

  lemma EncodedNow(s: State, w: nat, k: nat)
    requires w < |s.workers| && EncodingPart(s.workers[w], k)
    ensures BeingEncoded(s, k)
  {
  }

  lemma OwnPart(ph: Phase, k: nat)
    ensures EncodingPart(ph, k) ==> k == NumberOf(ph)
  {
  }

  lemma PulledEncodes(j: Job, s: State, ph: Phase)
    requires InOrder(j, s) && CanAct(j, s, ph, Pull)
    ensures s.queue != []
    ensures EncodingPart(NewPhase(j, s, ph, Pull), Taken(s) + 1)
  {
    assert s.queue[0].number == Taken(s) + 1;
  }

  function NoPart(): Part {
    Part([], [], 0, 0, 0, 0)
  }

  lemma SameWaits(j: Job, s: State, s': State, ph: Phase)
    requires WaitsRightly(j, s, ph) && s'.entries == s.entries
    ensures WaitsRightly(j, s', ph)
  {
  }

  lemma HelpedKept(j: Job, s: State, e: Event)
    requires InOrder(j, s) && WaitersHelped(j, s) && Enabled(j, s, e)
    ensures WaitersHelped(j, Apply(j, s, e))
  {
    hide Apply, CanAct, NextPart, WaitsRightly, EncodingPart, Total;
    if e.Work? {
      ActHelps(j, s, e.w, e.action);
      ApplyIsAct(j, s, e);
    } else {
      OutsideStep(j, s, e);
      SameHelp(j, s, Apply(j, s, e));
    }
  }

  lemma ApplyIsAct(j: Job, s: State, e: Event)
    requires Enabled(j, s, e) && e.Work?
    ensures Apply(j, s, e) == Act(j, s, e.w, e.action)
  {
    hide Act, CanAct;
  }

  lemma SameHelp(j: Job, s: State, s': State)
    requires WaitersHelped(j, s)
    requires s'.workers == s.workers && s'.entries == s.entries && s'.entry == s.entry
    requires s'.articles == s.articles && Taken(s') == Taken(s)
    ensures WaitersHelped(j, s')
  {
    hide WaitsRightly, EncodingPart, Total;
    forall k | 1 <= k <= Taken(s') && BeingEncoded(s, k) ensures BeingEncoded(s', k) {
      var v :| 0 <= v < |s.workers| && EncodingPart(s.workers[v], k);
      assert EncodingPart(s'.workers[v], k);
    }
    forall v | 0 <= v < |s'.workers| && FinalPending(j, s') ensures WaitsRightly(j, s', s'.workers[v]) {
      assert WaitsRightly(j, s, s.workers[v]);
      SameWaits(j, s, s', s.workers[v]);
    }
  }

  // ------------------------------------------------------------- invariant: a fresh entry

  predicate NotYetIn(s: State, ph: Phase) {
    && (Encoding(ph) && |s.entries| == 1 ==> NumberOf(ph) !in s.entries[0])
  }

  ghost predicate FullEntry(j: Job, s: State) {
    |s.entries| == 1 && forall k :: 1 <= k <= Total(j) ==> k in s.entries[0]
  }

  /**
   Started without an entry: what is registered has left the channel and is not being encoded; a
   folded CRC means every part is registered; and once the final part is written the entry is gone
   and nobody is left who could create it again.
   */
  ghost predicate FreshEntry(j: Job, s: State) {
    Total(j) > 1 ==>
      if Total(j) !in s.articles then
        && (|s.entries| == 1 ==> forall k :: k in s.entries[0] ==> k <= Taken(s))
        && (forall w :: 0 <= w < |s.workers| ==> NotYetIn(s, s.workers[w]))
        && (forall w :: 0 <= w < |s.workers| && s.workers[w].Folded? ==> FullEntry(j, s))
      else
        && s.entry == None && Taken(s) == Total(j)
        && (forall w :: 0 <= w < |s.workers| ==> !Encoding(s.workers[w]))
  }

  ghost predicate NoneYetIn(s: State) {
    forall w :: 0 <= w < |s.workers| ==> NotYetIn(s, s.workers[w])
  }

  ghost predicate EntryTaken(s: State) {
    |s.entries| == 1 ==> forall k :: k in s.entries[0] ==> k <= Taken(s)
  }

  lemma StillTaken(j: Job, s: State, w: nat, a: Action)
    requires InOrder(j, s) && Sound(j, s) && WaitersHelped(j, s) && EntryTaken(s)
    requires w < |s.workers| && CanAct(j, s, s.workers[w], a)
    requires FinalPending(j, s) && FinalPending(j, Act(j, s, w, a))
    ensures EntryTaken(Act(j, s, w, a))
  {
    hide CanAct, NextPart, Effects, NewPhase, Moved, IsPart, PhaseFits, PhaseSound, WaitsRightly, Registered, Total;
    var ph := s.workers[w];
    assert PhaseFits(j, s, ph) && PhaseSound(j, s, ph) && WaitsRightly(j, s, ph);
    ChannelUnlessPull(j, s, ph, a);
    if a == Pull {
      PullHasQueue(j, s, ph);
    }
    EntryOfStep(j, s, ph, a);
    if Wakes(ph, a) {
      RegisteredKeys(s.entries[0], ph.p);
      LoadedTaken(j, s, ph);
    }
  }

  lemma LoadedTaken(j: Job, s: State, ph: Phase)
    requires PhaseFits(j, s, ph) && ph.Loaded?
    ensures ph.p.number <= Taken(s)
  {
  }

  lemma StillNotYet(j: Job, s: State, w: nat, a: Action)
    requires InOrder(j, s) && Balanced(s) && Sound(j, s) && WaitersHelped(j, s) && NoneYetIn(s) && EntryTaken(s)
    requires w < |s.workers| && CanAct(j, s, s.workers[w], a)
    requires FinalPending(j, s) && FinalPending(j, Act(j, s, w, a))
    ensures NoneYetIn(Act(j, s, w, a))
  {
    hide CanAct, NextPart, Effects, NewPhase, Moved, IsPart, PhaseFits, PhaseSound, WaitsRightly, Registered,
         Balanced, Total;
    var ph, s' := s.workers[w], Act(j, s, w, a);
    assert PhaseFits(j, s, ph) && PhaseSound(j, s, ph) && WaitsRightly(j, s, ph);
    MovedExits(j, s, w, a);
    EntryOfStep(j, s, ph, a);
    assert NotYetIn(s, ph);
    EncodingStep(j, s, ph, a);
    if Wakes(ph, a) {
      RegisteredKeys(s.entries[0], ph.p);
    }
    if a == Pull {
      PulledEncodes(j, s, ph);
    }
    forall v | 0 <= v < |s'.workers| ensures NotYetIn(s', s'.workers[v]) {
      if v != w {
        MovedOthers(j, s, w, a, v);
        assert NotYetIn(s, s.workers[v]);
        if Wakes(ph, a) && Encoding(s.workers[v]) {
          HeldOnce(s, v, w);
        }
      }
    }
  }

  lemma StillFull(j: Job, s: State, w: nat, a: Action)
    requires InOrder(j, s) && Sound(j, s) && WaitersHelped(j, s) && FullEntry(j, s)
    requires w < |s.workers| && CanAct(j, s, s.workers[w], a)
    requires FinalPending(j, s) && FinalPending(j, Act(j, s, w, a))
    ensures FullEntry(j, Act(j, s, w, a))
  {
    hide CanAct, NextPart, Effects, NewPhase, Moved, IsPart, PhaseFits, PhaseSound, WaitsRightly, Registered, Total;
    var ph := s.workers[w];
    assert PhaseFits(j, s, ph) && PhaseSound(j, s, ph) && WaitsRightly(j, s, ph);
    EntryOfStep(j, s, ph, a);
    if Wakes(ph, a) {
      RegisteredHolds(s.entries[0], ph.p);
    }
  }

  lemma FreshPending(j: Job, s: State, w: nat, a: Action)
    requires InOrder(j, s) && Balanced(s) && Sound(j, s) && WaitersHelped(j, s) && FreshEntry(j, s)
    requires w < |s.workers| && CanAct(j, s, s.workers[w], a)
    requires FinalPending(j, Act(j, s, w, a))
    ensures FreshEntry(j, Act(j, s, w, a))
  {
    hide CanAct, NextPart, Effects, NewPhase, Moved, Balanced, Total, NotYetIn, InOrder, Sound, WaitersHelped, FullEntry;
    var s' := Act(j, s, w, a);
    SharedEffects(j, s, s.workers[w], a);
    MovedExits(j, s, w, a);
    StillTaken(j, s, w, a);
    StillNotYet(j, s, w, a);
    forall v | 0 <= v < |s'.workers| && s'.workers[v].Folded? ensures FullEntry(j, s') {
      if v == w {
        FoldedIsFull(j, s, w, a);
      } else {
        MovedOthers(j, s, w, a, v);
        StillFull(j, s, w, a);
      }
    }
  }

  lemma RegisteredKeys(parts: PartMap, p: Part)
    ensures forall k :: k in Registered(parts, p) <==> k in parts || k == p.number
  {
    hide InfoOf;
  }

  /** A worker that encodes after a step was encoding the same part before it, or has just pulled it. */
  lemma EncodingStep(j: Job, s: State, ph: Phase, a: Action)
    requires CanAct(j, s, ph, a)
    ensures var ph' := NewPhase(j, s, ph, a);
            && (Encoding(ph') && a != Pull ==> Encoding(ph) && NumberOf(ph') == NumberOf(ph) && !Wakes(ph, a))
            && (a == Pull ==> Encoding(ph') && NumberOf(ph') == s.queue[0].number)
            && (Wakes(ph, a) ==> NumberOf(ph) == ph.p.number)
            && (ph'.Folded? ==> Wakes(ph, a) || a == Recheck)
  {
    hide Registered, Fold;
  }

  lemma FoldedCount(j: Job, s: State, ph: Phase, a: Action)
    requires CanAct(j, s, ph, a) && NewPhase(j, s, ph, a).Folded?
    ensures Wakes(ph, a) || ph.Waiting?
    ensures ph.entry < |s.entries|
    ensures var parts := s.entries[ph.entry];
            |if Wakes(ph, a) then Registered(parts, ph.p) else parts| >= ph.p.total
  {
    hide Registered, Fold;
  }

  lemma FoldedIsFull(j: Job, s: State, w: nat, a: Action)
    requires InOrder(j, s) && Sound(j, s) && WaitersHelped(j, s) && FinalPending(j, s)
    requires w < |s.workers| && CanAct(j, s, s.workers[w], a)
    requires FinalPending(j, Act(j, s, w, a))
    requires NewPhase(j, s, s.workers[w], a).Folded?
    ensures FullEntry(j, Act(j, s, w, a))
  {
    hide NextPart, Moved, IsPart, PhaseSound, Agrees, Total, Registered, NewPhase, CanAct, Effects;
    var ph, s' := s.workers[w], Act(j, s, w, a);
    assert PhaseFits(j, s, ph) && PhaseSound(j, s, ph) && WaitsRightly(j, s, ph);
    EntryOfStep(j, s, ph, a);
    EncodingStep(j, s, ph, a);
    FoldedCount(j, s, ph, a);
    FinalIsTotal(j, s, ph);
    ActSound(j, s, w, a);
    assert Agrees(s'.entries[0], j.data);
    TotalIs(j);
    FullWhenCounted(s'.entries[0], j.data);
  }

  lemma TotalIs(j: Job)
    ensures Total(j) == PartCount(|j.data|)
  {
  }

  lemma FreshDone(j: Job, s: State, w: nat, a: Action)
    requires InOrder(j, s) && WaitersHelped(j, s) && FreshEntry(j, s)
    requires w < |s.workers| && CanAct(j, s, s.workers[w], a)
    requires Total(j) > 1 && Total(j) in Act(j, s, w, a).articles
    ensures FreshEntry(j, Act(j, s, w, a))
  {
    hide NextPart, NewPhase, Effects, Moved, IsPart, PhaseSound, CanAct, Total, WaitsRightly;
    var ph, s' := s.workers[w], Act(j, s, w, a);
    var ph' := NewPhase(j, s, ph, a);
    assert PhaseFits(j, s, ph);
    ChannelUnlessPull(j, s, ph, a);
    MovedExits(j, s, w, a);
    EncodingStep(j, s, ph, a);
    if Total(j) in s.articles {
      if a == Pull {
        PullHasQueue(j, s, ph);
        assert false;
      }
      DoneEntry(j, s, ph, a);
    } else {
      FinalWrite(j, s, ph, a);
      assert FullEntry(j, s);
      assert Taken(s) <= Total(j);
      assert Total(j) in s.entries[0];
    }
    forall v | 0 <= v < |s'.workers| ensures !Encoding(s'.workers[v]) {
      if v != w {
        MovedOthers(j, s, w, a, v);
        if Total(j) !in s.articles && Encoding(s.workers[v]) {
          assert NotYetIn(s, s.workers[v]) && PhaseFits(j, s, s.workers[v]);
          NumberInRange(j, s, s.workers[v]);
        }
      }
    }
  }

  lemma NumberInRange(j: Job, s: State, ph: Phase)
    requires PhaseFits(j, s, ph) && PartIn(ph).Some?
    ensures 1 <= NumberOf(ph) <= Total(j)
  {
  }

  lemma DoneEntry(j: Job, s: State, ph: Phase, a: Action)
    requires CanAct(j, s, ph, a) && !Encoding(ph) && s.entry == None
    ensures Effects(j, s, ph, a).entry == None
  {
    if a != Encode && a != Delete {
      QuietEffects(j, s, ph, a);
    }
  }

  /** Only deleting the entry after a fold writes the final part's article. */
  lemma FinalWrite(j: Job, s: State, ph: Phase, a: Action)
    requires CanAct(j, s, ph, a) && PhaseFits(j, s, ph)
    requires Total(j) > 1 && Total(j) !in s.articles && Total(j) in Effects(j, s, ph, a).articles
    ensures a == Delete && ph.Folded? && Effects(j, s, ph, a).entry == None
    ensures Effects(j, s, ph, a).queue == s.queue
    ensures NewPhase(j, s, ph, a).Posting?
  {
    hide Printed, Checksum, Registered, Fold, Total;
    if PartIn(ph).Some? {
      FinalIsTotal(j, s, ph);
    }
    if a != Encode && a != Delete {
      QuietEffects(j, s, ph, a);
    }
  }

  lemma FreshKept(j: Job, s: State, e: Event)
    requires InOrder(j, s) && Balanced(s) && Sound(j, s) && WaitersHelped(j, s) && FreshEntry(j, s)
    requires Enabled(j, s, e)
    ensures FreshEntry(j, Apply(j, s, e))
  {
    hide Apply, Act, CanAct, NextPart, NotYetIn, Balanced, InOrder, Sound, WaitersHelped;
    var s' := Apply(j, s, e);
    if e.Work? {
      ApplyIsAct(j, s, e);
      if Total(j) > 1 {
        if Total(j) in s'.articles {
          FreshDone(j, s, e.w, e.action);
        } else {
          FreshPending(j, s, e.w, e.action);
        }
      }
    } else {
      OutsideStep(j, s, e);
      forall v | 0 <= v < |s'.workers| && NotYetIn(s, s.workers[v]) ensures NotYetIn(s', s'.workers[v]) {
        SameNotYet(s, s', s.workers[v]);
      }
    }
  }

  lemma SameNotYet(s: State, s': State, ph: Phase)
    requires NotYetIn(s, ph) && s.entries == s'.entries
    ensures NotYetIn(s', ph)
  {
  }
}
