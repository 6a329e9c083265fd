/**
 The registry is not cleared when an upload fails. A later upload with the same name and size then
 starts with the parts of the earlier one. This module says exactly when that does harm.
 */
module StaleEntry {
  import opened Bytes
  import opened Crc32
  import opened Gf2
  import opened YEnc
  import opened Article
  import opened Encoder
  import opened Parts
  import opened Upload
  import opened UploadSafety
  import opened UploadTrailers
  import opened UploadRegistry
  import opened UploadRuns
  import opened Wrappers

  // ------------------------------------------------------------- the shift loses nothing

  lemma OddShiftNonzero(x: bv32)
    requires x & 1 == 1
    ensures (x >> 1) ^ 0xedb88320 != 0
  {
  }

  lemma EvenShiftNonzero(x: bv32)
    requires x & 1 != 1 && x != 0
    ensures x >> 1 != 0
  {
  }

  lemma ShiftBitNonzero(x: bv32)
    requires x != 0
    ensures ShiftBit(x) != 0
  {
    if Odd(x) {
      OddShiftNonzero(x);
    } else {
      EvenShiftNonzero(x);
    }
  }

  lemma {:induction false} ShiftBitsNonzero(x: bv32, n: nat)
    requires x != 0
    ensures ShiftBits(x, n) != 0
    decreases n
  {
    hide ShiftBit, Xor;
    if n > 0 {
      ShiftBitNonzero(x);
      ShiftBitsNonzero(ShiftBit(x), n - 1);
    }
  }

  lemma XorNonzero(x: bv32, y: bv32)
    requires x != y
    ensures Xor(x, y) != 0
  {
  }

  /** A wrong CRC for the first part stays wrong after the second part is combined in. */
  lemma WrongStaysWrong(c: bv32, d: bv32, n: nat, crc2: bv32)
    requires c != d
    ensures Xor(ShiftBits(c, n), crc2) != Xor(ShiftBits(d, n), crc2)
  {
    hide Xor, ShiftBits;
    XorNonzero(c, d);
    ShiftBitsNonzero(Xor(c, d), n);
    ShiftBitsLinear(c, d, n);
    XorCancel(ShiftBits(c, n), crc2);
    XorCancel(ShiftBits(d, n), crc2);
    XorUnit(ShiftBits(c, n));
  }

  /** What a failed upload of a file of this name and size can leave: parts before the last, of the right lengths. */
  predicate LeftShape(j: Job, left: PartMap) {
    forall k :: k in left ==> 1 <= k < Total(j) && left[k].length == |Chunk(j.data, k)|
  }

  ghost predicate FinalArticleAlwaysRight(j: Job, left: Option<PartMap>) {
    forall s | Reached(j, left, s) && Total(j) in s.articles && Total(j) >= 1 ::
      s.articles[Total(j)] == GoodArticle(j.data, j.name, Total(j))
  }

  // ------------------------------------------------------------- one wrong part makes a wrong fold

  lemma CombinedDiffers(c: bv32, d: bv32, crc2: bv32, n: nat)
    requires c != d
    ensures Combined(c, crc2, n) != Combined(d, crc2, n)
  {
    hide Xor, ShiftBits;
    if n > 0 {
      WrongStaysWrong(c, d, 8 * n, crc2);
    }
  }

  lemma CombinedDiffersSecond(c: bv32, x: bv32, y: bv32, n: nat)
    requires x != y && n > 0
    ensures Combined(c, x, n) != Combined(c, y, n)
  {
    hide Xor, ShiftBits;
    var z := ShiftBits(c, 8 * n);
    XorCommutes(z, x);
    XorCommutes(z, y);
    XorCancel(x, z);
    XorCancel(y, z);
  }

  lemma {:induction false} FoldSame(p: PartMap, q: PartMap, n: nat)
    requires forall i :: 1 <= i <= n ==> Lookup(p, i) == Lookup(q, i)
    ensures Fold(p, n) == Fold(q, n)
    decreases n
  {
    hide Combined, Lookup;
    if n > 0 {
      FoldSame(p, q, n - 1);
    }
  }

  /** Two registries that differ in the CRC of part k alone fold differently from part k on. */
  lemma {:induction false} FoldDiffers(p: PartMap, q: PartMap, k: nat, n: nat)
    requires 1 <= k <= n
    requires forall i :: 1 <= i <= n && i != k ==> Lookup(p, i) == Lookup(q, i)
    requires Lookup(p, k).length == Lookup(q, k).length > 0 && Lookup(p, k).pcrc != Lookup(q, k).pcrc
    ensures Fold(p, n) != Fold(q, n)
    decreases n
  {
    hide Combined, Lookup;
    if n == k {
      FoldSame(p, q, n - 1);
      CombinedDiffersSecond(Fold(p, n - 1), Lookup(p, k).pcrc, Lookup(q, k).pcrc, Lookup(p, k).length);
    } else {
      FoldDiffers(p, q, k, n - 1);
      CombinedDiffers(Fold(p, n - 1), Fold(q, n - 1), Lookup(p, n).pcrc, Lookup(p, n).length);
    }
  }

  // ------------------------------------------------------------- a run that overtakes part k

  /** The leftover with parts 1..i registered over it, part k excepted. */
  function Mixed(j: Job, left: PartMap, k: nat, i: nat): PartMap
    requires i <= Total(j)
  {
    if i == 0 then left
    else if i == k then Mixed(j, left, k, i - 1)
    else Mixed(j, left, k, i - 1)[i := InfoOf(Chunk(j.data, i))]
  }

  lemma {:induction false} MixedIs(j: Job, left: PartMap, k: nat, i: nat)
    requires i <= Total(j)
    ensures forall n :: n in Mixed(j, left, k, i) <==> n in left || (1 <= n <= i && n != k)
    ensures forall n :: n in Mixed(j, left, k, i) ==>
              Mixed(j, left, k, i)[n] == if 1 <= n <= i && n != k then InfoOf(Chunk(j.data, n)) else left[n]
  {
    hide InfoOf, Chunk, Total;
    if i > 0 {
      MixedIs(j, left, k, i - 1);
    }
  }

  /** With part k stale and all others right, the fold is wrong. */
  lemma MixedFoldsWrong(j: Job, left: PartMap, k: nat)
    requires LeftShape(j, left) && k in left && left[k].pcrc != Checksum(Chunk(j.data, k))
    ensures Fold(Mixed(j, left, k, Total(j)), Total(j)) != Checksum(j.data)
  {
    hide Checksum, Chunk, Fold, Mixed;
    var p := Mixed(j, left, k, Total(j));
    MixedIs(j, left, k, Total(j));
    var right := InfoOf(Chunk(j.data, k));
    var q := p[k := right];
    assert Agrees(q, j.data);
    FoldIsFileChecksum(q, j.data);
    FoldDiffers(p, q, k, Total(j));
  }

  /** i parts have gone through; worker 0 holds part k from the moment it was taken, worker 1 did the rest. */
  ghost predicate Lagging(j: Job, left: PartMap, k: nat, i: nat, s: State) {
    && i <= Total(j)
    && s.next == i + 1 && !s.held && s.queue == [] && !s.closed && s.results == []
    && !s.cancelled && !s.failed
    && |s.workers| == j.connections >= 2
    && (if 1 <= k <= i then s.workers[0].Pulled? && s.workers[0].p.total > 1 else s.workers[0].Idle?) && s.workers[1].Idle?
    && (forall w :: 0 <= w < |s.workers| ==> !s.workers[w].Waiting?)
    && s.entry == Some(0) && s.entries == [Mixed(j, left, k, i)]
  }

  lemma ReadIs(j: Job, s: State)
    requires !s.closed && !s.held && s.next <= Total(j) && !s.cancelled
    ensures Enabled(j, s, ReadPart) && Apply(j, s, ReadPart) == s.(held := true)
  {
    hide PartOf;
  }

  lemma DispatchIs(j: Job, s: State)
    requires !s.closed && s.held && 1 <= s.next <= Total(j) && s.queue == [] && j.connections >= 1
    ensures Enabled(j, s, Dispatch)
    ensures Apply(j, s, Dispatch)
         == s.(next := s.next + 1, held := false, queue := [PartOf(j.data, j.name, s.next)])
  {
    hide PartOf;
  }

  lemma PullIs(j: Job, s: State, w: nat)
    requires w < |s.workers| && s.workers[w].Idle? && |s.queue| == 1
    ensures Enabled(j, s, Work(w, Pull))
    ensures Apply(j, s, Work(w, Pull)) == s.(queue := [], workers := s.workers[w := Pulled(s.queue[0])])
  {
  }

  lemma FindIs(j: Job, s: State, w: nat)
    requires w < |s.workers| && s.workers[w].Pulled? && s.workers[w].p.total > 1 && s.entry == Some(0)
    ensures Enabled(j, s, Work(w, Encode))
    ensures Apply(j, s, Work(w, Encode)) == s.(workers := s.workers[w := Loaded(s.workers[w].p, 0)])
  {
  }

  lemma NoneWoken(ws: seq<Phase>, entry: nat)
    requires forall w :: 0 <= w < |ws| ==> !ws[w].Waiting?
    ensures Woken(ws, entry) == ws
  {
  }

  lemma RegisterIs(j: Job, s: State, w: nat)
    requires w < |s.workers| && s.workers[w].Loaded? && s.workers[w].entry == 0 && |s.entries| == 1
    requires forall v :: 0 <= v < |s.workers| ==> !s.workers[v].Waiting?
    ensures Enabled(j, s, Work(w, Encode))
    ensures var p, s' := s.workers[w].p, Apply(j, s, Work(w, Encode));
            var parts := Registered(s.entries[0], p);
            && s' == s.(entries := [parts], articles := s'.articles, workers := s'.workers)
            && s'.workers == s.workers[w := if p.number == p.total then Counted(p, 0, parts) else Posting(p, 1)]
  {
    hide Registered, Printed, Counted;
    NoneWoken(s.workers, 0);
  }

  lemma PostIs(j: Job, s: State, w: nat)
    requires w < |s.workers| && s.workers[w].Posting?
    ensures Enabled(j, s, Work(w, PostOk))
    ensures Apply(j, s, Work(w, PostOk)) == s.(workers := s.workers[w := Posted(s.workers[w].p)])
  {
  }

  lemma SendIs(j: Job, s: State, w: nat)
    requires w < |s.workers| && s.workers[w].Posted? && s.results == [] && j.connections >= 1
    ensures Enabled(j, s, Work(w, Send))
    ensures Apply(j, s, Work(w, Send)) == s.(results := [s.workers[w].p.number], workers := s.workers[w := Idle])
  {
  }

  lemma CollectIs(j: Job, s: State)
    requires |s.results| == 1
    ensures Enabled(j, s, Collect)
    ensures var s' := Apply(j, s, Collect);
            s' == s.(results := [], segments := s'.segments, lost := s'.lost)
  {
  }

  /** The dispatcher sends the next part and worker w takes it. */
  lemma TakeNext(j: Job, left: Option<PartMap>, s: State, w: nat) returns (s': State)
    requires Reached(j, left, s)
    requires !s.closed && !s.held && !s.cancelled && 1 <= s.next <= Total(j) && s.queue == []
    requires w < |s.workers| == j.connections && s.workers[w].Idle?
    ensures Reached(j, left, s')
    ensures s' == s.(next := s.next + 1, workers := s.workers[w := Pulled(PartOf(j.data, j.name, s.next))])
  {
    hide Enabled, Apply, Reached, PartOf;
    ReadIs(j, s);
    ReachStep(j, left, s, ReadPart);
    var s0 := Apply(j, s, ReadPart);
    DispatchIs(j, s0);
    ReachStep(j, left, s0, Dispatch);
    var s1 := Apply(j, s0, Dispatch);
    PullIs(j, s1, w);
    ReachStep(j, left, s1, Work(w, Pull));
    s' := Apply(j, s1, Work(w, Pull));
  }

  /** Worker w finds the entry and registers its part. */
  lemma RegisterNow(j: Job, left: Option<PartMap>, s: State, w: nat) returns (s': State)
    requires Reached(j, left, s)
    requires w < |s.workers| && s.workers[w].Pulled? && s.workers[w].p.total > 1
    requires s.entry == Some(0) && |s.entries| == 1
    requires forall v :: 0 <= v < |s.workers| ==> !s.workers[v].Waiting?
    ensures Reached(j, left, s')
    ensures var p := s.workers[w].p;
            var parts := Registered(s.entries[0], p);
            && s' == s.(entries := [parts], articles := s'.articles, workers := s'.workers)
            && s'.workers == s.workers[w := if p.number == p.total then Counted(p, 0, parts) else Posting(p, 1)]
  {
    hide Enabled, Apply, Reached, Registered, Counted;
    FindIs(j, s, w);
    ReachStep(j, left, s, Work(w, Encode));
    var s1 := Apply(j, s, Work(w, Encode));
    RegisterIs(j, s1, w);
    ReachStep(j, left, s1, Work(w, Encode));
    s' := Apply(j, s1, Work(w, Encode));
    assert s1.workers[w := s'.workers[w]] == s.workers[w := s'.workers[w]];
  }

  /** Worker w posts and hands in its part. */
  lemma HandIn(j: Job, left: Option<PartMap>, s: State, w: nat) returns (s': State)
    requires Reached(j, left, s)
    requires w < |s.workers| == j.connections && s.workers[w].Posting? && s.results == []
    ensures Reached(j, left, s')
    ensures s' == s.(workers := s.workers[w := Idle], segments := s'.segments, lost := s'.lost)
  {
    hide Enabled, Apply, Reached;
    PostIs(j, s, w);
    ReachStep(j, left, s, Work(w, PostOk));
    var s1 := Apply(j, s, Work(w, PostOk));
    SendIs(j, s1, w);
    ReachStep(j, left, s1, Work(w, Send));
    var s2 := Apply(j, s1, Work(w, Send));
    CollectIs(j, s2);
    ReachStep(j, left, s2, Collect);
    s' := Apply(j, s2, Collect);
    assert s1.workers[w := Idle] == s.workers[w := Idle];
  }

  lemma NextMixed(j: Job, left: PartMap, k: nat, i: nat)
    requires i < Total(j)
    ensures Mixed(j, left, k, i + 1)
         == if i + 1 == k then Mixed(j, left, k, i)
            else Registered(Mixed(j, left, k, i), PartOf(j.data, j.name, i + 1))
  {
    hide Checksum, Chunk;
  }

  lemma OneRound(j: Job, left: PartMap, k: nat, i: nat, s: State) returns (s': State)
    requires i + 1 < Total(j) && Lagging(j, left, k, i, s) && Reached(j, Some(left), s)
    ensures Lagging(j, left, k, i + 1, s') && Reached(j, Some(left), s')
  {
    hide Reached, Registered, Chunk, Mixed, Total;
    NextMixed(j, left, k, i);
    TotalIs(j);
    if i + 1 == k {
      s' := TakeNext(j, Some(left), s, 0);
    } else {
      var s1 := TakeNext(j, Some(left), s, 1);
      var s2 := RegisterNow(j, Some(left), s1, 1);
      s' := HandIn(j, Some(left), s2, 1);
    }
  }

  lemma StartLags(j: Job, left: PartMap, k: nat)
    requires j.connections >= 2 && k >= 1
    ensures Lagging(j, left, k, 0, Start(j, Some(left)))
  {
    hide Total;
  }

  lemma {:induction false} Rounds(j: Job, left: PartMap, k: nat, i: nat) returns (s: State)
    requires i < Total(j) && j.connections >= 2 && k >= 1
    ensures Lagging(j, left, k, i, s) && Reached(j, Some(left), s)
    decreases i
  {
    hide Reached, Total, Lagging, Start;
    if i == 0 {
      s := Start(j, Some(left));
      ReachStart(j, Some(left));
      StartLags(j, left, k);
    } else {
      var s0 := Rounds(j, left, k, i - 1);
      s := OneRound(j, left, k, i - 1, s0);
    }
  }

  lemma DeleteIs(j: Job, s: State, w: nat)
    requires w < |s.workers| && s.workers[w].Folded?
    ensures Enabled(j, s, Work(w, Delete))
    ensures var p := s.workers[w].p;
            var s' := Apply(j, s, Work(w, Delete));
            && s' == s.(entry := None, articles := s'.articles, workers := s'.workers)
            && s'.articles == s.articles[p.number := Printed(p, Some(s.workers[w].crc))]
            && s'.workers == s.workers[w := Posting(p, 1)]
  {
    hide Printed;
  }

  lemma MixedCounts(j: Job, left: PartMap, k: nat)
    requires LeftShape(j, left) && k in left
    ensures |Mixed(j, left, k, Total(j))| >= Total(j)
  {
    hide Mixed, Chunk;
    var p := Mixed(j, left, k, Total(j));
    MixedIs(j, left, k, Total(j));
    SubsetSize(Numbers(Total(j)), p.Keys);
    assert |p.Keys| == |p|;
  }

  /**
   The final part is encoded while part k is still on its way: its trailer trusts the leftover, and
   the entry is deleted under the worker that has part k in hand.
   */
  lemma Overtaking(j: Job, left: PartMap, k: nat) returns (s: State)
    requires j.connections >= 2 && LeftShape(j, left) && k in left
    ensures Reached(j, Some(left), s) && Total(j) >= 1 && Total(j) in s.articles
    ensures s.articles[Total(j)]
         == Printed(PartOf(j.data, j.name, Total(j)), Some(Fold(Mixed(j, left, k, Total(j)), Total(j))))
    ensures |s.workers| >= 2 && s.workers[0].Pulled? && s.workers[0].p.total > 1
    ensures s.entry == None && !s.cancelled && !s.failed
  {
    hide Reached, Registered, Chunk, Mixed, Total, Fold, Printed, Checksum, Enabled, Apply;
    var n := Total(j);
    TotalIs(j);
    var s0 := Rounds(j, left, k, n - 1);
    NextMixed(j, left, k, n - 1);
    MixedCounts(j, left, k);
    var s1 := TakeNext(j, Some(left), s0, 1);
    var s2 := RegisterNow(j, Some(left), s1, 1);
    DeleteIs(j, s2, 1);
    ReachStep(j, Some(left), s2, Work(1, Delete));
    s := Apply(j, s2, Work(1, Delete));
  }

  // ------------------------------------------------------------- articles tell CRCs apart

  lemma PrintedEnds(p: Part, x: bv32) returns (front: seq<byte>)
    ensures Printed(p, Some(x)) == front + (Hex(x, 8) + CRLF)
  {
    hide Body, Decimal, Hex, Checksum, BeginLine, PartLine, Trailer;
    var t := Trailer(p, Some(x));
    var part := PartLine(p, Body(p.data, 0) + t);
    var begin := YBEGIN_PART + Decimal(p.number) + TOTAL + Decimal(p.total) + LINE_SIZE + Decimal(p.size)
      + NAME + p.filename + CRLF;
    var ypart := YPART_BEGIN + Decimal(p.offset + 1) + END + Decimal(p.offset + |p.data|) + CRLF;
    var yend := YEND_SIZE + Decimal(|p.data|) + PART + Decimal(p.number) + PCRC32 + Hex(Checksum(p.data), 8) + CRC32;
    BeginLineFlat(p, part);
    PartLineFlat(p, Body(p.data, 0) + t);
    TrailerFlat(p, Some(x));
    assert t == yend + (Hex(x, 8) + CRLF);
    front := begin + ypart + Body(p.data, 0) + yend;
    assert Printed(p, Some(x)) == begin + (ypart + (Body(p.data, 0) + (yend + (Hex(x, 8) + CRLF))));
  }

  lemma DifferentCRCDifferentArticle(p: Part, x: bv32, y: bv32)
    requires x != y
    ensures Printed(p, Some(x)) != Printed(p, Some(y))
  {
    hide Printed, Hex;
    var a := PrintedEnds(p, x);
    var b := PrintedEnds(p, y);
    HexRoundTrip(x);
    HexRoundTrip(y);
    var s, t := Printed(p, Some(x)), Printed(p, Some(y));
    assert s[|s| - 10..|s| - 2] == Hex(x, 8);
    assert t[|t| - 10..|t| - 2] == Hex(y, 8);
  }

  // ------------------------------------------------------------- one worker heals the entry

  /** Taken parts that are not being encoded are registered as they should be, and every article is right. */
  ghost predicate Healed(j: Job, s: State)
    requires |s.workers| == 1
  {
    && (forall k :: k in s.articles ==> 1 <= k <= Total(j) && s.articles[k] == GoodArticle(j.data, j.name, k))
    && (s.workers[0].Folded? ==> s.workers[0].crc == Checksum(j.data))
    && (FinalPending(j, s) ==>
          && |s.entries| == 1
          && forall k :: k in s.entries[0] ==> Refreshed(j, s, k))
  }

  predicate Refreshed(j: Job, s: State, k: nat)
    requires |s.workers| == 1 && |s.entries| == 1 && k in s.entries[0]
  {
    && 1 <= k <= Total(j)
    && (k <= Taken(s) && !EncodingPart(s.workers[0], k) ==> s.entries[0][k] == InfoOf(Chunk(j.data, k)))
  }

  lemma WritesRight(j: Job, s: State, p: Part, whole: Option<bv32>)
    requires IsPart(j, p) && whole == FileAttribute(j.data, p.number)
    ensures var s' := Writes(s, p, whole);
            forall k :: k in s'.articles ==>
              || (1 <= k <= Total(j) && s'.articles[k] == GoodArticle(j.data, j.name, k))
              || (k in s.articles && s'.articles[k] == s.articles[k])
  {
    hide Printed, Checksum, Chunk;
  }

  lemma RightOfStep(j: Job, s: State, ph: Phase, a: Action)
    requires CanAct(j, s, ph, a) && PhaseFits(j, s, ph)
    requires ph.Folded? ==> ph.crc == Checksum(j.data)
    ensures var s' := Effects(j, s, ph, a);
            forall k :: k in s'.articles ==>
              || (1 <= k <= Total(j) && s'.articles[k] == GoodArticle(j.data, j.name, k))
              || (k in s.articles && s'.articles[k] == s.articles[k])
  {
    hide Printed, Checksum, Chunk, Registered, Fold, Writes, GoodArticle;
    if a == Encode {
      match ph
      case Pulled(p) =>
        if p.total <= 1 {
          SinglePartIsFile(j);
          WritesRight(j, s, p, Some(Checksum(p.data)));
        }
      case Missed(_) =>
      case Loaded(p, entry) =>
        if p.number != p.total {
          FinalHasAttribute(j, p);
          WritesRight(j, s.(entries := s.entries[entry := Registered(s.entries[entry], p)]), p, None);
        }
    } else if a == Delete {
      WritesRight(j, s, ph.p, Some(ph.crc));
    } else {
      QuietEffects(j, s, ph, a);
    }
  }

  /** An encoding worker goes on encoding its part until it registers it. */
  lemma EncodingGoesOn(j: Job, s: State, ph: Phase, a: Action, k: nat)
    requires CanAct(j, s, ph, a) && PhaseFits(j, s, ph) && Total(j) > 1
    requires EncodingPart(ph, k) && !Wakes(ph, a)
    ensures EncodingPart(NewPhase(j, s, ph, a), k)
  {
    hide Total, IsPart;
    FinalIsTotal(j, s, ph);
  }

  lemma PartInfo(j: Job, s: State, ph: Phase)
    requires PhaseFits(j, s, ph) && PartIn(ph).Some?
    ensures InfoOf(PartIn(ph).value.data) == InfoOf(Chunk(j.data, NumberOf(ph)))
    ensures 1 <= NumberOf(ph) <= Total(j) && NumberOf(ph) <= Taken(s)
  {
    hide Chunk, Checksum;
  }

  lemma StillRefreshed(j: Job, s: State, a: Action)
    requires |s.workers| == 1 && InOrder(j, s) && Wired(s) && WaitersHelped(j, s) && Healed(j, s)
    requires CanAct(j, s, s.workers[0], a) && FinalPending(j, s) && FinalPending(j, Act(j, s, 0, a))
    ensures var s' := Act(j, s, 0, a);
            |s'.entries| == 1 && forall k :: k in s'.entries[0] ==> Refreshed(j, s', k)
  {
    hide CanAct, NextPart, Effects, NewPhase, Moved, IsPart, PhaseFits, WaitsRightly, Registered, EncodingPart,
         Total, GoodArticle, Chunk, InfoOf;
    var ph, s' := s.workers[0], Act(j, s, 0, a);
    assert PhaseFits(j, s, ph) && WaitsRightly(j, s, ph);
    ChannelUnlessPull(j, s, ph, a);
    MovedExits(j, s, 0, a);
    EntryOfStep(j, s, ph, a);
    if Wakes(ph, a) {
      RegisteredIs(s.entries[0], ph.p);
      PartInfo(j, s, ph);
    }
    if a == Pull {
      PulledEncodes(j, s, ph);
    }
    forall k | k in s'.entries[0] ensures Refreshed(j, s', k) {
      if k in s.entries[0] {
        assert Refreshed(j, s, k);
        if EncodingPart(ph, k) && !Wakes(ph, a) {
          EncodingGoesOn(j, s, ph, a, k);
        }
        OwnPart(ph, k);
      }
    }
  }

  lemma RegisteredIs(parts: PartMap, p: Part)
    ensures forall k :: k in Registered(parts, p) <==> k in parts || k == p.number
    ensures Registered(parts, p)[p.number] == InfoOf(p.data)
    ensures forall k :: k in parts && k != p.number ==> Registered(parts, p)[k] == parts[k]
  {
    hide InfoOf;
  }

  lemma FoldedRight(j: Job, s: State, a: Action)
    requires |s.workers| == 1 && InOrder(j, s) && Wired(s) && WrittenOnce(s) && WaitersHelped(j, s) && Healed(j, s)
    requires CanAct(j, s, s.workers[0], a) && NewPhase(j, s, s.workers[0], a).Folded?
    requires FinalPending(j, s) && FinalPending(j, Act(j, s, 0, a))
    ensures NewPhase(j, s, s.workers[0], a).crc == Checksum(j.data)
  {
    hide CanAct, NextPart, Effects, NewPhase, Moved, IsPart, PhaseFits, WaitsRightly, Registered, EncodingPart,
         Total, GoodArticle, Chunk, InfoOf, Checksum, Fold, Healed;
    var ph, s' := s.workers[0], Act(j, s, 0, a);
    assert PhaseFits(j, s, ph) && WaitsRightly(j, s, ph);
    StillRefreshed(j, s, a);
    MovedExits(j, s, 0, a);
    ChannelUnlessPull(j, s, ph, a);
    EntryOfStep(j, s, ph, a);
    EncodingStep(j, s, ph, a);
    FoldedCount(j, s, ph, a);
    FoldedIs(j, s, ph, a);
    FinalIsTotal(j, s, ph);
    PartInfo(j, s, ph);
    TotalIs(j);
    NotEncoding(s'.workers[0]);
    var parts := s'.entries[0];
    forall k | k in parts ensures 1 <= k <= PartCount(|j.data|) && parts[k] == InfoOf(Chunk(j.data, k)) {
      assert Refreshed(j, s', k);
    }
    FullWhenCounted(parts, j.data);
    FoldIsFileChecksum(parts, j.data);
  }

  lemma NotEncoding(ph: Phase)
    requires ph.Folded?
    ensures forall k :: !EncodingPart(ph, k)
  {
  }

  /** A fold is of the entry as the step leaves it, by the final part. */
  lemma FoldedIs(j: Job, s: State, ph: Phase, a: Action)
    requires CanAct(j, s, ph, a) && PhaseFits(j, s, ph) && NewPhase(j, s, ph, a).Folded?
    ensures PartIn(ph).Some? && NumberOf(ph) == PartIn(ph).value.total == NewPhase(j, s, ph, a).p.total
    ensures (Wakes(ph, a) || ph.Waiting?) && ph.entry < |s.entries|
    ensures ph.p == PartIn(ph).value && a != Pull
    ensures NewPhase(j, s, ph, a).crc
         == Fold(if Wakes(ph, a) then Registered(s.entries[ph.entry], ph.p) else s.entries[ph.entry], ph.p.total)
  {
    hide Registered, Fold, IsPart;
  }

  lemma HealedKept(j: Job, s: State, e: Event)
    requires |s.workers| == 1 && Enabled(j, s, e)
    requires InOrder(j, s) && Wired(s) && WrittenOnce(s) && WaitersHelped(j, s) && Healed(j, s)
    ensures |Apply(j, s, e).workers| == 1 && Healed(j, Apply(j, s, e))
  {
    hide CanAct, NextPart, Effects, NewPhase, Moved, IsPart, PhaseFits, WaitsRightly, Registered, EncodingPart,
         Total, GoodArticle, Chunk, InfoOf, Checksum, Fold, Refreshed;
    var s' := Apply(j, s, e);
    SameWorkers(j, s, e);
    if e.Work? {
      var a, ph := e.action, s.workers[0];
      assert PhaseFits(j, s, ph);
      RightOfStep(j, s, ph, a);
      SharedEffects(j, s, ph, a);
      MovedExits(j, s, 0, a);
      if s'.workers[0].Folded? {
        FoldingPends(j, s, ph, a);
        FoldedRight(j, s, a);
      }
      if FinalPending(j, s') {
        StillRefreshed(j, s, a);
      }
    } else {
      OutsideStep(j, s, e);
      if FinalPending(j, s') {
        forall k | k in s'.entries[0] ensures Refreshed(j, s', k) {
          SameRefreshed(j, s, s', k);
        }
      }
    }
  }

  lemma SameRefreshed(j: Job, s: State, s': State, k: nat)
    requires |s.workers| == 1 && |s.entries| == 1 && k in s.entries[0] && Refreshed(j, s, k)
    requires s'.workers == s.workers && s'.entries == s.entries && Taken(s') == Taken(s)
    ensures Refreshed(j, s', k)
  {
    hide InfoOf, Chunk;
  }

  /** While the final part is folded its article is not written. */
  lemma FoldingPends(j: Job, s: State, ph: Phase, a: Action)
    requires WrittenOnce(s) && |s.workers| == 1 && ph == s.workers[0]
    requires CanAct(j, s, ph, a) && PhaseFits(j, s, ph) && NewPhase(j, s, ph, a).Folded?
    ensures FinalPending(j, s) && FinalPending(j, Act(j, s, 0, a))
  {
    hide Registered, Fold, IsPart, Total, Printed;
    FoldedIs(j, s, ph, a);
    FinalIsTotal(j, s, ph);
    NumberInRange(j, s, ph);
  }

  lemma {:induction false} HealedAlong(j: Job, s: State, events: seq<Event>)
    requires Orderly(j, s) && |s.workers| == 1 && Healed(j, s) && Run(j, s, events).Some?
    ensures var t := Run(j, s, events).value; |t.workers| == 1 && Healed(j, t)
    decreases |events|
  {
    hide Apply, Enabled, Healed, InOrder, Balanced, Explained, WrittenOnce, Delivered, Wired, WaitersHelped;
    if events != [] {
      OrderlyKept(j, s, events[0]);
      HealedKept(j, s, events[0]);
      HealedAlong(j, Apply(j, s, events[0]), events[1..]);
    }
  }

  lemma OneWorkerStart(j: Job, left: PartMap)
    requires j.connections == 1 && LeftShape(j, left)
    ensures |Start(j, Some(left)).workers| == 1 && Healed(j, Start(j, Some(left)))
  {
    hide Chunk, InfoOf;
  }

  lemma OneWorkerIsRight(j: Job, left: PartMap)
    requires j.connections == 1 && LeftShape(j, left)
    ensures FinalArticleAlwaysRight(j, Some(left))
  {
    hide Orderly, Start, GoodArticle, Total, LeftShape, FinalPending, Refreshed;
    TotalIs(j);
    forall s | Reached(j, Some(left), s) && Total(j) in s.articles && Total(j) >= 1
      ensures s.articles[Total(j)] == GoodArticle(j.data, j.name, Total(j))
    {
      var events :| Run(j, Start(j, Some(left)), events) == Some(s);
      StartInvariant(j, Some(left));
      OneWorkerStart(j, left);
      HealedAlong(j, Start(j, Some(left)), events);
    }
  }

  /** Without workers nothing is written. */
  lemma {:induction false} NoWorkerAlong(j: Job, s: State, events: seq<Event>)
    requires s.workers == [] && s.articles == map[] && Run(j, s, events).Some?
    ensures Run(j, s, events).value.articles == map[]
    decreases |events|
  {
    hide Apply;
    if events != [] {
      OutsideStep(j, s, events[0]);
      NoWorkerAlong(j, Apply(j, s, events[0]), events[1..]);
    }
  }

  lemma NoWorkerIsRight(j: Job, left: PartMap)
    requires j.connections == 0
    ensures FinalArticleAlwaysRight(j, Some(left))
  {
    hide GoodArticle, Total;
    forall s | Reached(j, Some(left), s) ensures s.articles == map[] {
      var events :| Run(j, Start(j, Some(left)), events) == Some(s);
      NoWorkerAlong(j, Start(j, Some(left)), events);
    }
  }

  // ------------------------------------------------------------- exactly when a leftover does harm

  /**
   For every file and every leftover a failed upload of its name and size can leave: each run writes
   the right final article exactly when there is no second worker to overtake a part, or every
   leftover CRC is the CRC of this file's part.
   */
  lemma LeftoverExact(j: Job, left: PartMap)
    requires LeftShape(j, left)
    ensures FinalArticleAlwaysRight(j, Some(left))
       <==> j.connections <= 1 || forall k :: k in left ==> left[k].pcrc == Checksum(Chunk(j.data, k))
  {
    hide Printed, Checksum, Chunk, Reached, Total, Fold, Mixed, Invariant;
    TotalIs(j);
    if j.connections == 0 {
      NoWorkerIsRight(j, left);
    } else if j.connections == 1 {
      OneWorkerIsRight(j, left);
    } else if forall k :: k in left ==> left[k].pcrc == Checksum(Chunk(j.data, k)) {
      LeftoverAgrees(j, left);
      forall s | Reached(j, Some(left), s) && Total(j) in s.articles && Total(j) >= 1
        ensures s.articles[Total(j)] == GoodArticle(j.data, j.name, Total(j))
      {
        ReachedInvariant(j, Some(left), s);
        InvariantArticles(j, s);
      }
    } else {
      var k :| k in left && left[k].pcrc != Checksum(Chunk(j.data, k));
      var s := Overtaking(j, left, k);
      MixedFoldsWrong(j, left, k);
      FinalAttribute(j);
      DifferentCRCDifferentArticle(PartOf(j.data, j.name, Total(j)),
                                   Fold(Mixed(j, left, k, Total(j)), Total(j)), Checksum(j.data));
      assert s.articles[Total(j)] != GoodArticle(j.data, j.name, Total(j));
    }
  }

  lemma FinalAttribute(j: Job)
    ensures Total(j) == PartCount(|j.data|)
    ensures FileAttribute(j.data, Total(j)) == Some(Checksum(j.data))
  {
    hide Checksum;
  }

  lemma LeftoverAgrees(j: Job, left: PartMap)
    requires LeftShape(j, left) && forall k :: k in left ==> left[k].pcrc == Checksum(Chunk(j.data, k))
    ensures LeftAgrees(j, Some(left))
  {
    hide Checksum, Chunk;
  }

  lemma InvariantArticles(j: Job, s: State)
    requires Invariant(j, s)
    ensures forall k :: k in s.articles ==> 1 <= k <= Total(j) && s.articles[k] == GoodArticle(j.data, j.name, k)
  {
    hide GoodArticle, Orderly, PhasesSound, EntriesAgree;
  }
}
