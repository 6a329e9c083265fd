/** What the trailers of an upload say, and why the worker with the final part is never stranded. */
module UploadTrailers {
  import opened Crc32
  import opened Article
  import opened Parts
  import opened Upload
  import opened UploadSafety
  import opened Wrappers

  // ------------------------------------------------------------- what steps leave alone

  lemma QuietEffects(j: Job, s: State, ph: Phase, a: Action)
    requires CanAct(j, s, ph, a) && a != Encode && a != Delete
    ensures var s' := Effects(j, s, ph, a);
            s'.entries == s.entries && s'.entry == s.entry && s'.articles == s.articles
  {
  }

  /** Each step either changes nothing shared, or is one of the five that do. */
  lemma SharedEffects(j: Job, s: State, ph: Phase, a: Action)
    requires CanAct(j, s, ph, a)
    ensures var s' := Effects(j, s, ph, a);
            && |s'.entries| >= |s.entries|
            && s.articles.Keys <= s'.articles.Keys
  {
    hide Printed, Checksum, Registered, Fold;
    if a != Encode && a != Delete {
      QuietEffects(j, s, ph, a);
    }
  }

  // ------------------------------------------------------------- invariant: CRCs and articles

  predicate PhaseSound(j: Job, s: State, ph: Phase) {
    && (ph.Loaded? || ph.Waiting? ==> ph.entry < |s.entries|)
    && (ph.Folded? ==> ph.crc == Checksum(j.data))
    && (ph.Posting? || ph.Posted? ==> ph.p.number in s.articles)
  }

  ghost predicate EntriesAgree(j: Job, s: State) {
    && (forall o :: 0 <= o < |s.entries| ==> Agrees(s.entries[o], j.data))
    && (s.entry.Some? ==> s.entry.value < |s.entries|)
  }

  ghost predicate ArticlesGood(j: Job, s: State) {
    && (forall k :: k in s.articles ==>
          1 <= k <= Total(j) && s.articles[k] == GoodArticle(j.data, j.name, k))
    && (forall i :: 0 <= i < |s.results| ==> s.results[i] in s.articles)
    && (forall i :: 0 <= i < |s.segments| ==> s.segments[i] in s.articles)
  }

  ghost predicate PhasesSound(j: Job, s: State) {
    forall w :: 0 <= w < |s.workers| ==> PhaseSound(j, s, s.workers[w])
  }

  ghost predicate Sound(j: Job, s: State) {
    EntriesAgree(j, s) && ArticlesGood(j, s) && PhasesSound(j, s)
  }

  lemma RegisteredAgrees(j: Job, parts: PartMap, p: Part)
    requires Agrees(parts, j.data) && IsPart(j, p)
    ensures Agrees(Registered(parts, p), j.data)
    ensures Registered(parts, p).Keys == parts.Keys + {p.number}
    ensures |Registered(parts, p)| >= |parts|
  {
    hide InfoOf, Chunk;
    var parts' := Registered(parts, p);
    assert parts'.Keys == parts.Keys + {p.number};
    SubsetSize(parts.Keys, parts'.Keys);
    assert |parts.Keys| == |parts| && |parts'.Keys| == |parts'|;
  }

  /** Whatever order the parts registered in, the fold of a full entry is the CRC of the file. */
  lemma CountedSound(j: Job, s: State, p: Part, entry: nat, parts: PartMap)
    requires Agrees(parts, j.data) && IsPart(j, p) && entry < |s.entries|
    ensures PhaseSound(j, s, Counted(p, entry, parts))
  {
    hide Fold, Checksum, Agrees;
    if |parts| >= p.total {
      FullWhenCounted(parts, j.data);
      FoldIsFileChecksum(parts, j.data);
    }
  }

  lemma SinglePartIsFile(j: Job)
    requires Total(j) == 1
    ensures Chunk(j.data, 1) == j.data
  {
  }

  lemma WritesGood(j: Job, s: State, p: Part, whole: Option<bv32>)
    requires ArticlesGood(j, s) && IsPart(j, p)
    requires whole == FileAttribute(j.data, p.number)
    ensures ArticlesGood(j, Writes(s, p, whole))
  {
    hide Printed, Checksum, Chunk;
  }

  lemma PulledSound(j: Job, s: State, ph: Phase)
    requires EntriesAgree(j, s) && ArticlesGood(j, s)
    requires CanAct(j, s, ph, Encode) && PhaseFits(j, s, ph) && ph.Pulled?
    ensures var s' := Encodes(s, ph);
            && EntriesAgree(j, s') && ArticlesGood(j, s')
            && PhaseSound(j, s', NewPhase(j, s, ph, Encode))
  {
    hide Printed, Checksum, Chunk, Fold, Agrees, Registered, ArticlesGood;
    if ph.p.total <= 1 {
      SinglePartIsFile(j);
      WritesGood(j, s, ph.p, Some(Checksum(ph.p.data)));
    } else {
      SameArticles(j, s, Encodes(s, ph));
    }
  }

  lemma LoadedSound(j: Job, s: State, ph: Phase)
    requires EntriesAgree(j, s) && ArticlesGood(j, s)
    requires CanAct(j, s, ph, Encode) && PhaseFits(j, s, ph) && ph.Loaded?
    ensures var s' := Encodes(s, ph);
            && EntriesAgree(j, s') && ArticlesGood(j, s')
            && PhaseSound(j, s', NewPhase(j, s, ph, Encode))
  {
    hide Printed, Checksum, Chunk, Fold, Agrees, Registered, ArticlesGood, Counted, IsPart;
    var p, entry := ph.p, ph.entry;
    RegisteredAgrees(j, s.entries[entry], p);
    var s1 := s.(entries := s.entries[entry := Registered(s.entries[entry], p)]);
    SameArticles(j, s, s1);
    if p.number == p.total {
      CountedSound(j, s1, p, entry, s1.entries[entry]);
    } else {
      FinalHasAttribute(j, p);
      WritesGood(j, s1, p, None);
    }
  }

  lemma FinalHasAttribute(j: Job, p: Part)
    requires IsPart(j, p) && p.number != p.total
    ensures FileAttribute(j.data, p.number) == None
  {
    hide Checksum, Chunk;
  }

  lemma EncodesSound(j: Job, s: State, ph: Phase)
    requires EntriesAgree(j, s) && ArticlesGood(j, s)
    requires CanAct(j, s, ph, Encode) && PhaseFits(j, s, ph)
    ensures var s' := Encodes(s, ph);
            && EntriesAgree(j, s') && ArticlesGood(j, s')
            && PhaseSound(j, s', NewPhase(j, s, ph, Encode))
  {
    hide Printed, Checksum, Chunk, Fold, Agrees, Registered, ArticlesGood;
    match ph
    case Pulled(_) =>
      PulledSound(j, s, ph);
    case Missed(p) =>
      NothingAgrees(j);
      SameArticles(j, s, Encodes(s, ph));
    case Loaded(_, _) =>
      LoadedSound(j, s, ph);
  }

  lemma NothingAgrees(j: Job)
    ensures Agrees(map[], j.data)
  {
  }

  lemma SameArticles(j: Job, s: State, s': State)
    requires ArticlesGood(j, s)
    requires s'.articles == s.articles && s'.results == s.results && s'.segments == s.segments
    ensures ArticlesGood(j, s')
  {
    hide GoodArticle;
  }

  lemma EffectsSound(j: Job, s: State, ph: Phase, a: Action)
    requires InOrder(j, s) && EntriesAgree(j, s) && ArticlesGood(j, s)
    requires CanAct(j, s, ph, a) && PhaseFits(j, s, ph) && PhaseSound(j, s, ph)
    ensures var s' := Effects(j, s, ph, a);
            && EntriesAgree(j, s') && ArticlesGood(j, s')
            && PhaseSound(j, s', NewPhase(j, s, ph, a))
  {
    hide Printed, Checksum, Chunk, Fold, Agrees, Registered, ArticlesGood, InOrder, Encodes;
    match a
    case Encode =>
      EncodesSound(j, s, ph);
    case Delete =>
      WritesGood(j, s, ph.p, Some(ph.crc));
      SameArticles(j, Writes(s, ph.p, Some(ph.crc)), Effects(j, s, ph, a));
    case Recheck =>
      CountedSound(j, s, ph.p, ph.entry, s.entries[ph.entry]);
    case Send =>
      SentArticle(j, s, ph.p.number);
    case _ =>
      SameArticles(j, s, Effects(j, s, ph, a));
  }

  lemma SentArticle(j: Job, s: State, k: nat)
    requires ArticlesGood(j, s) && k in s.articles
    ensures ArticlesGood(j, s.(results := s.results + [k]))
  {
    hide GoodArticle;
  }

  lemma StillSound(j: Job, s: State, s': State, ph: Phase)
    requires PhaseSound(j, s, ph)
    requires |s'.entries| >= |s.entries| && s.articles.Keys <= s'.articles.Keys
    ensures PhaseSound(j, s', ph)
  {
    hide Checksum;
  }

  lemma WakeSound(j: Job, s: State, ph: Phase)
    requires PhaseSound(j, s, ph) && ph.Waiting?
    ensures PhaseSound(j, s, ph.(woken := true))
  {
  }

  lemma ActSound(j: Job, s: State, w: nat, a: Action)
    requires InOrder(j, s) && Sound(j, s)
    requires w < |s.workers| && CanAct(j, s, s.workers[w], a)
    ensures Sound(j, Act(j, s, w, a))
  {
    hide PhaseSound, Effects, NewPhase, CanAct, PhaseFits, IsPart, Agrees, GoodArticle;
    var ph := s.workers[w];
    var s' := Act(j, s, w, a);
    var fx := Effects(j, s, ph, a);
    assert PhaseSound(j, s, ph) && PhaseFits(j, s, ph);
    EffectsSound(j, s, ph, a);
    SharedEffects(j, s, ph, a);
    forall v | 0 <= v < |s'.workers| ensures PhaseSound(j, s', s'.workers[v]) {
      if v == w {
        StillSound(j, fx, s', s'.workers[v]);
      } else {
        assert PhaseSound(j, s, s.workers[v]);
        if s'.workers[v] != s.workers[v] {
          WakeSound(j, s, s.workers[v]);
        }
        StillSound(j, s, s', s'.workers[v]);
      }
    }
    SameArticles(j, fx, s');
  }

  lemma SoundKept(j: Job, s: State, e: Event)
    requires InOrder(j, s) && Sound(j, s) && Enabled(j, s, e)
    ensures Sound(j, Apply(j, s, e))
  {
    hide Act, CanAct, NextPart, PhaseSound, Agrees, GoodArticle;
    if e.Work? {
      ActSound(j, s, e.w, e.action);
    } else {
      var s' := Apply(j, s, e);
      forall v | 0 <= v < |s'.workers| ensures PhaseSound(j, s', s'.workers[v]) {
        assert PhaseSound(j, s, s.workers[v]);
        StillSound(j, s, s', s.workers[v]);
      }
    }
  }
}
