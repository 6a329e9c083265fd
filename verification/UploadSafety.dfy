/** What every reachable state of an upload satisfies, and what follows when it ends. */
module UploadSafety {
  import opened Crc32
  import opened Article
  import opened Parts
  import opened Upload
  import opened Wrappers

  // ------------------------------------------------------------- where each part is

  function PartIn(ph: Phase): Option<Part> {
    match ph
    case Idle => None
    case Exited => None
    case Pulled(p) => Some(p)
    case Missed(p) => Some(p)
    case Loaded(p, _) => Some(p)
    case Waiting(p, _, _) => Some(p)
    case Folded(p, _) => Some(p)
    case Posting(p, _) => Some(p)
    case Posted(p) => Some(p)
  }

  function Holds(ph: Phase, k: nat): nat {
    if PartIn(ph).Some? && PartIn(ph).value.number == k then 1 else 0
  }

  /** How many workers hold part k. */
  function Held(ws: seq<Phase>, k: nat): nat {
    if ws == [] then 0 else Holds(ws[0], k) + Held(ws[1..], k)
  }

  lemma {:induction false} HeldMove(ws: seq<Phase>, w: nat, ph: Phase, k: nat)
    requires w < |ws|
    ensures Held(ws[w := ph], k) + Holds(ws[w], k) == Held(ws, k) + Holds(ph, k)
    ensures Holds(ws[w], k) <= Held(ws, k)
  {
    hide Holds;
    var ws' := ws[w := ph];
    if w == 0 {
      assert ws'[1..] == ws[1..];
    } else {
      assert ws'[1..] == ws[1..][w - 1 := ph];
      HeldMove(ws[1..], w - 1, ph, k);
    }
  }

  lemma {:induction false} HeldTwice(ws: seq<Phase>, a: nat, b: nat, k: nat)
    requires a < b < |ws|
    requires Holds(ws[a], k) == 1 && Holds(ws[b], k) == 1
    ensures Held(ws, k) >= 2
  {
    hide Holds;
    if a == 0 {
      HeldMove(ws[1..], b - 1, ws[b], k);
    } else {
      HeldTwice(ws[1..], a - 1, b - 1, k);
    }
  }

  lemma {:induction false} HeldSame(ws: seq<Phase>, vs: seq<Phase>, k: nat)
    requires |ws| == |vs|
    requires forall i :: 0 <= i < |ws| ==> PartIn(ws[i]) == PartIn(vs[i])
    ensures Held(ws, k) == Held(vs, k)
  {
    if ws != [] {
      HeldSame(ws[1..], vs[1..], k);
    }
  }

  lemma {:induction false} HeldByNone(ws: seq<Phase>, k: nat)
    requires forall i :: 0 <= i < |ws| ==> PartIn(ws[i]).None?
    ensures Held(ws, k) == 0
  {
    if ws != [] {
      HeldByNone(ws[1..], k);
    }
  }

  /** How many parts have left the jobs channel. */
  function Taken(s: State): int {
    s.next - 1 - |s.queue|
  }

  // ------------------------------------------------------------- invariant: parts and counts

  predicate IsPart(j: Job, p: Part) {
    1 <= p.number <= Total(j) && p == PartOf(j.data, j.name, p.number)
  }

  predicate PhaseFits(j: Job, s: State, ph: Phase) {
    && (PartIn(ph).Some? ==> IsPart(j, PartIn(ph).value) && PartIn(ph).value.number <= Taken(s))
    && (ph.Missed? || ph.Loaded? || ph.Waiting? || ph.Folded? ==> PartIn(ph).value.total > 1)
    && (ph.Waiting? || ph.Folded? ==> ph.p.number == ph.p.total)
  }

  /** The channel holds the next parts in order; workers hold parts that left it. */
  ghost predicate InOrder(j: Job, s: State) {
    && 1 <= s.next <= Total(j) + 1
    && (s.held ==> s.next <= Total(j))
    && 0 <= Taken(s)
    && (forall i :: 0 <= i < |s.queue| ==> IsPart(j, s.queue[i]) && s.queue[i].number == Taken(s) + 1 + i)
    && (forall w :: 0 <= w < |s.workers| ==> PhaseFits(j, s, s.workers[w]))
  }

  /** In how many places part k is: with workers, on the results channel, collected, or lost. */
  function Places(s: State, k: nat): nat {
    Held(s.workers, k) + multiset(s.results)[k] + multiset(s.segments)[k] + s.lost[k]
  }

  /** Every part that left the channel is in exactly one place; no other part is anywhere. */
  ghost predicate Balanced(s: State) {
    forall k: nat :: Places(s, k) == if 1 <= k <= Taken(s) then 1 else 0
  }

  /** A part is given up, the channel closed early, or a worker gone early only on error or cancel. */
  ghost predicate Explained(j: Job, s: State) {
    s.cancelled || s.failed ||
    (&& s.lost == multiset{}
     && (s.closed ==> s.next == Total(j) + 1)
     && (forall w :: 0 <= w < |s.workers| && s.workers[w].Exited? ==> s.closed && s.queue == []))
  }

  lemma SameTaken(j: Job, s: State, s': State, ph: Phase)
    requires Taken(s) == Taken(s') && PhaseFits(j, s, ph)
    ensures PhaseFits(j, s', ph)
  {
  }

  /** A worker's next phase holds the part it held, or the one it just pulled. */
  lemma NewPhaseFits(j: Job, s: State, ph: Phase, a: Action)
    requires InOrder(j, s) && PhaseFits(j, s, ph) && CanAct(j, s, ph, a)
    ensures a != Pull ==> PhaseFits(j, s, NewPhase(j, s, ph, a))
    ensures a == Pull ==> PartIn(NewPhase(j, s, ph, a)) == Some(s.queue[0])
    ensures a == Pull ==> NewPhase(j, s, ph, a).Pulled?
  {
    hide Fold, IsPart, Registered;
  }

  lemma MovedFits(j: Job, s: State, s': State, w: nat, a: Action)
    requires InOrder(j, s) && w < |s.workers| && CanAct(j, s, s.workers[w], a)
    requires Taken(s) <= Taken(s')
    requires PhaseFits(j, s', NewPhase(j, s, s.workers[w], a))
    requires s'.workers == Moved(j, s, w, a)
    ensures forall v :: 0 <= v < |s'.workers| ==> PhaseFits(j, s', s'.workers[v])
  {
    hide IsPart, NewPhase;
    forall v | 0 <= v < |s'.workers| ensures PhaseFits(j, s', s'.workers[v]) {
      assert PhaseFits(j, s, s.workers[v]);
    }
  }

  lemma ActOrder(j: Job, s: State, w: nat, a: Action)
    requires InOrder(j, s) && w < |s.workers| && CanAct(j, s, s.workers[w], a)
    ensures InOrder(j, Act(j, s, w, a))
  {
    hide IsPart, NewPhase, Moved, PhaseFits, Encodes;
    var ph := s.workers[w];
    var s' := Act(j, s, w, a);
    assert PhaseFits(j, s, ph);
    NewPhaseFits(j, s, ph, a);
    ChannelUnlessPull(j, s, ph, a);
    if a == Pull {
      assert Taken(s') == Taken(s) + 1;
      forall i | 0 <= i < |s'.queue|
        ensures IsPart(j, s'.queue[i]) && s'.queue[i].number == Taken(s') + 1 + i
      {
        assert s'.queue[i] == s.queue[i + 1];
      }
      PulledFits(j, s', NewPhase(j, s, ph, a));
    } else {
      SameTaken(j, s, s', NewPhase(j, s, ph, a));
    }
    MovedFits(j, s, s', w, a);
  }

  lemma PulledFits(j: Job, s: State, ph: Phase)
    requires ph.Pulled? && IsPart(j, ph.p) && ph.p.number <= Taken(s)
    ensures PhaseFits(j, s, ph)
  {
  }

  lemma ChannelUnlessPull(j: Job, s: State, ph: Phase, a: Action)
    requires CanAct(j, s, ph, a)
    ensures Effects(j, s, ph, a).next == s.next && Effects(j, s, ph, a).held == s.held
    ensures Effects(j, s, ph, a).queue == if a == Pull then s.queue[1..] else s.queue
  {
    hide Registered, Printed, Checksum, Encodes;
    if a == Encode {
      EncodesFrame(s, ph);
    }
  }

  lemma OrderKept(j: Job, s: State, e: Event)
    requires InOrder(j, s) && Enabled(j, s, e)
    ensures InOrder(j, Apply(j, s, e))
  {
    hide Act, PhaseFits;
    match e
    case Work(w, a) => ActOrder(j, s, w, a);
    case _ =>
      var s' := Apply(j, s, e);
      NextPartFits(j, s);
      forall w | 0 <= w < |s'.workers| ensures PhaseFits(j, s', s'.workers[w]) {
        assert PhaseFits(j, s, s.workers[w]);
        SameTaken(j, s, s', s.workers[w]);
      }
  }

  lemma NextPartFits(j: Job, s: State)
    requires 1 <= s.next <= Total(j)+1
    ensures s.next <= Total(j) ==> IsPart(j, NextPart(j, s)) && NextPart(j, s).number == s.next
  {
  }

  lemma MovedHolds(j: Job, s: State, w: nat, a: Action, k: nat)
    requires w < |s.workers| && CanAct(j, s, s.workers[w], a)
    ensures Held(Moved(j, s, w, a), k) + Holds(s.workers[w], k)
         == Held(s.workers, k) + Holds(NewPhase(j, s, s.workers[w], a), k)
  {
    hide NewPhase, Held;
    var ph := s.workers[w];
    HeldMove(s.workers, w, NewPhase(j, s, ph, a), k);
    if Wakes(ph, a) {
      HeldSame(Woken(s.workers, ph.entry), s.workers, k);
      HeldMove(Woken(s.workers, ph.entry), w, NewPhase(j, s, ph, a), k);
    }
  }

  lemma EncodesFrame(s: State, ph: Phase)
    requires Encoding(ph)
    requires ph.Loaded? ==> ph.entry < |s.entries|
    ensures var s' := Encodes(s, ph);
            s' == s.(articles := s'.articles, entries := s'.entries, entry := s'.entry)
  {
    hide Printed, Checksum, Registered;
  }

  lemma EncodeHolds(j: Job, s: State, ph: Phase)
    requires CanAct(j, s, ph, Encode)
    ensures PartIn(NewPhase(j, s, ph, Encode)) == PartIn(ph)
    ensures !NewPhase(j, s, ph, Encode).Exited?
  {
    hide Fold, Registered;
  }

  function Elsewhere(s: State, k: nat): nat {
    multiset(s.results)[k] + multiset(s.segments)[k] + s.lost[k]
  }

  lemma GivesUpPlaces(s: State, p: Part, k: nat)
    ensures Elsewhere(GivesUp(s, p), k) == Elsewhere(s, k) + if p.number == k then 1 else 0
    ensures Elsewhere(GivesUp(s, p).(failed := true), k) == Elsewhere(GivesUp(s, p), k)
  {
  }

  lemma WritesPlaces(s: State, p: Part, whole: Option<bv32>, k: nat)
    ensures Elsewhere(Writes(s, p, whole).(entry := None), k) == Elsewhere(s, k)
  {
    hide Printed;
  }

  lemma SendPlaces(s: State, n: nat, k: nat)
    ensures Elsewhere(s.(results := s.results + [n]), k) == Elsewhere(s, k) + if n == k then 1 else 0
  {
  }

  lemma PostPlaces(j: Job, s: State, ph: Phase, a: Action, k: nat)
    requires CanAct(j, s, ph, a) && (a == PostFail || a == PostAuth || a == QuitCancelled)
    ensures Holds(NewPhase(j, s, ph, a), k) + Elsewhere(Effects(j, s, ph, a), k) == Holds(ph, k) + Elsewhere(s, k)
  {
    hide GivesUp, Elsewhere;
    if ph.Posting? {
      GivesUpPlaces(s, ph.p, k);
    }
  }

  lemma SameElsewhere(s: State, s': State, k: nat)
    requires s'.results == s.results && s'.segments == s.segments && s'.lost == s.lost
    ensures Elsewhere(s', k) == Elsewhere(s, k)
  {
  }

  lemma EncodePlaces(j: Job, s: State, ph: Phase, k: nat)
    requires CanAct(j, s, ph, Encode)
    ensures Holds(NewPhase(j, s, ph, Encode), k) + Elsewhere(Encodes(s, ph), k) == Holds(ph, k) + Elsewhere(s, k)
  {
    hide NewPhase, Encodes, Elsewhere;
    EncodesFrame(s, ph);
    EncodeHolds(j, s, ph);
    SameElsewhere(s, Encodes(s, ph), k);
  }

  /** A step of a worker moves its part along, hands it to the results, or gives it up. */
  lemma EffectsPlaces(j: Job, s: State, ph: Phase, a: Action, k: nat)
    requires CanAct(j, s, ph, a)
    ensures var before, after := Holds(ph, k) + Elsewhere(s, k),
                                 Holds(NewPhase(j, s, ph, a), k) + Elsewhere(Effects(j, s, ph, a), k);
            after == before + if a == Pull && s.queue[0].number == k then 1 else 0
  {
    hide Fold, Printed, Checksum, Registered, Encodes, GivesUp, Writes, Elsewhere;
    match a
    case Encode =>
      hide NewPhase;
      EncodePlaces(j, s, ph, k);
    case Delete =>
      WritesPlaces(s, ph.p, Some(ph.crc), k);
    case Send =>
      SendPlaces(s, ph.p.number, k);
    case PostFail =>
      PostPlaces(j, s, ph, a, k);
    case PostAuth =>
      PostPlaces(j, s, ph, a, k);
    case QuitCancelled =>
      PostPlaces(j, s, ph, a, k);
    case _ =>
      SameElsewhere(s, Effects(j, s, ph, a), k);
  }

  lemma EffectsExplained(j: Job, s: State, ph: Phase, a: Action)
    requires CanAct(j, s, ph, a)
    ensures var s' := Effects(j, s, ph, a);
            && s'.closed == s.closed && s'.cancelled == s.cancelled && (s.failed ==> s'.failed)
            && (s'.lost != s.lost ==> s'.failed || s.cancelled)
            && (NewPhase(j, s, ph, a).Exited? ==> s'.failed || s.cancelled || (s.closed && s.queue == []))
  {
    hide Fold, Printed, Checksum, Registered, Encodes;
    if a == Encode {
      hide NewPhase;
      EncodesFrame(s, ph);
      EncodeHolds(j, s, ph);
    }
  }

  lemma ActBalanced(j: Job, s: State, w: nat, a: Action)
    requires InOrder(j, s) && Balanced(s)
    requires w < |s.workers| && CanAct(j, s, s.workers[w], a)
    ensures Balanced(Act(j, s, w, a))
  {
    hide Moved, NewPhase, Held, Holds, Effects, PhaseFits, IsPart, CanAct;
    var ph := s.workers[w];
    var s' := Act(j, s, w, a);
    ChannelUnlessPull(j, s, ph, a);
    if a == Pull {
      PullHasQueue(j, s, ph);
      assert s.queue[0].number == Taken(s) + 1;
    }
    forall k: nat ensures Places(s', k) == if 1 <= k <= Taken(s') then 1 else 0 {
      MovedHolds(j, s, w, a, k);
      EffectsPlaces(j, s, ph, a, k);
      assert Places(s, k) == if 1 <= k <= Taken(s) then 1 else 0;
    }
  }

  lemma PullHasQueue(j: Job, s: State, ph: Phase)
    requires CanAct(j, s, ph, Pull)
    ensures s.queue != []
  {
  }

  lemma ActExplained(j: Job, s: State, w: nat, a: Action)
    requires Explained(j, s)
    requires w < |s.workers| && CanAct(j, s, s.workers[w], a)
    ensures Explained(j, Act(j, s, w, a))
  {
    hide Moved, NewPhase, Effects, CanAct;
    var ph := s.workers[w];
    EffectsExplained(j, s, ph, a);
    ChannelUnlessPull(j, s, ph, a);
    if a == Pull {
      PullHasQueue(j, s, ph);
    }
    MovedExits(j, s, w, a);
  }

  lemma MovedExits(j: Job, s: State, w: nat, a: Action)
    requires w < |s.workers| && CanAct(j, s, s.workers[w], a)
    ensures forall v :: 0 <= v < |s.workers| && v != w ==> (Moved(j, s, w, a)[v].Exited? <==> s.workers[v].Exited?)
    ensures Moved(j, s, w, a)[w] == NewPhase(j, s, s.workers[w], a)
  {
    hide NewPhase;
  }

  lemma BalanceKept(j: Job, s: State, e: Event)
    requires InOrder(j, s) && Balanced(s) && Enabled(j, s, e)
    ensures Balanced(Apply(j, s, e))
  {
    hide Act, PhaseFits, Held, CanAct, NextPart;
    if e.Work? {
      ActBalanced(j, s, e.w, e.action);
    } else {
      var s' := Apply(j, s, e);
      if e.Collect? {
        assert s.results == [s.results[0]] + s.results[1..];
      }
      forall k: nat ensures Places(s', k) == if 1 <= k <= Taken(s') then 1 else 0 {
        assert Places(s, k) == if 1 <= k <= Taken(s) then 1 else 0;
      }
    }
  }

  lemma ExplainedKept(j: Job, s: State, e: Event)
    requires InOrder(j, s) && Explained(j, s) && Enabled(j, s, e)
    ensures Explained(j, Apply(j, s, e))
  {
    hide Act, PhaseFits, CanAct, NextPart;
    match e
    case Work(w, a) => ActExplained(j, s, w, a);
    case _ =>
  }

  /** No two workers hold the same part. */
  lemma HeldOnce(s: State, a: nat, b: nat)
    requires Balanced(s)
    requires a < |s.workers| && b < |s.workers| && a != b
    requires PartIn(s.workers[a]).Some? && PartIn(s.workers[b]).Some?
    ensures PartIn(s.workers[a]).value.number != PartIn(s.workers[b]).value.number
  {
    var k := PartIn(s.workers[a]).value.number;
    assert Places(s, k) <= 1;
    if PartIn(s.workers[b]).value.number == k {
      HeldTwice(s.workers, if a < b then a else b, if a < b then b else a, k);
    }
  }
}
