/**
 The paging walk over a tracker's feed: one scan of a few pages per tick, a cursor persisted
 between ticks, a wrap to the start when a page comes back empty.
 */
module FeedWalk {
  import opened Text
  import opened Wrappers

  datatype Item = Item(title: string, link: string, enclosureURL: string, size: int, infoHash: string)

  datatype Release = Release(rawTitle: string, sizeBytes: int, infoHash: string, torrentURL: string)

  function ReleaseOf(it: Item): Release {
    Release(TrimSpace(it.title), it.size, ToLower(TrimSpace(it.infoHash)),
            if TrimSpace(it.link) == "" then TrimSpace(it.enclosureURL) else TrimSpace(it.link))
  }

  predicate Titled(it: Item) {
    TrimSpace(it.title) != ""
  }

  /** The releases of the titled items, in feed order. */
  function Releases(items: seq<Item>): seq<Release> {
    if items == [] then []
    else (if Titled(items[0]) then [ReleaseOf(items[0])] else []) + Releases(items[1..])
  }

  lemma {:induction false} ReleasesAppend(a: seq<Item>, b: seq<Item>)
    ensures Releases(a + b) == Releases(a) + Releases(b)
    decreases |a|
  {
    hide Titled, ReleaseOf;
    if a == [] {
      assert a + b == b;
    } else {
      assert (a + b)[0] == a[0] && (a + b)[1..] == a[1..] + b;
      ReleasesAppend(a[1..], b);
      var first, tail := if Titled(a[0]) then [ReleaseOf(a[0])] else [], Releases(a[1..]);
      assert Releases(a) == first + tail;
      assert Releases(a + b) == first + (tail + Releases(b));
    }
  }

  lemma NothingReleased()
    ensures Releases([]) == []
  {
  }

  predicate AllSpace(s: string) {
    forall i :: 0 <= i < |s| ==> IsSpace(s[i])
  }

  /** What is told of an item: trimmed fields, the hash in lower case, the link before the enclosure. */
  predicate Tells(r: Release, it: Item) {
    && r.rawTitle == TrimSpace(it.title) && r.sizeBytes == it.size
    && r.infoHash == ToLower(TrimSpace(it.infoHash))
    && (!AllSpace(it.link) ==> r.torrentURL == TrimSpace(it.link))
    && (AllSpace(it.link) ==> r.torrentURL == TrimSpace(it.enclosureURL))
  }

  lemma TrimmedToNothing(s: string)
    ensures TrimSpace(s) == "" <==> AllSpace(s)
  {
    var a, b := TrimExactly(s, IsSpace);
  }

  /**
   An item is emitted exactly when its title is not blank, as one release with a trimmed title that
   is not empty. With ReleasesAppend this settles what any stretch of the feed emits.
   */
  lemma ItemExactly(it: Item)
    ensures AllSpace(it.title) ==> Releases([it]) == []
    ensures !AllSpace(it.title) ==>
              && |Releases([it])| == 1 && Tells(Releases([it])[0], it)
              && Releases([it])[0].rawTitle != "" && Tight(Releases([it])[0].rawTitle, IsSpace)
  {
    hide AllSpace, TrimSpace, Tight;
    NothingReleased();
    TrimmedToNothing(it.title);
    TrimmedToNothing(it.link);
    TitleTight(it.title);
    assert [it][1..] == [];
  }

  lemma TitleTight(s: string)
    ensures Tight(TrimSpace(s), IsSpace)
  {
    TrimIsTight(s, IsSpace);
  }

  // ------------------------------------------------------------- fetching

  /** How a page request goes: it fails, or the feed serves up to more + 1 items. */
  datatype Fetch = Failed | Serves(more: nat)

  /** A page of the feed at an offset; empty only past the end. */
  function Page(feed: seq<Item>, offset: nat, f: Fetch): Option<seq<Item>> {
    match f
    case Failed => None
    case Serves(more) =>
      if offset >= |feed| then Some([])
      else if offset + more + 1 <= |feed| then Some(feed[offset..offset + more + 1])
      else Some(feed[offset..])
  }

  /** The offset after n pages that came. */
  function OffsetAfter(feed: seq<Item>, start: nat, fetches: seq<Fetch>, n: nat): (offset: nat)
    requires n <= |fetches|
    ensures offset >= start
  {
    if n == 0 then start
    else
      var offset := OffsetAfter(feed, start, fetches, n - 1);
      match Page(feed, offset, fetches[n - 1])
      case None => offset
      case Some(items) => offset + |items|
  }

  /** The first n pages came, none of them empty. */
  predicate PagesCame(feed: seq<Item>, start: nat, fetches: seq<Fetch>, n: nat)
    requires n <= |fetches|
  {
    forall m :: 0 <= m < n ==>
      var page := Page(feed, OffsetAfter(feed, start, fetches, m), fetches[m]);
      page.Some? && page.value != []
  }

  /**
   How a scan that took n pages ends: after all it may take, with the cursor behind them; at an empty
   page, wrapped; at a failure, with what there is, or as a failure if nothing was emitted.
   */
  ghost predicate EndsAfter(feed: seq<Item>, start: nat, fetches: seq<Fetch>, maxPages: nat, n: nat,
                            failed: bool, before: nat, next: nat)
    requires n <= maxPages <= |fetches|
  {
    var offset := OffsetAfter(feed, start, fetches, n);
    && PagesCame(feed, start, fetches, n)
    && if n == maxPages then !failed && next == offset
       else if Page(feed, offset, fetches[n]) == Some([]) then !failed && next == 0
       else
         && Page(feed, offset, fetches[n]).None?
         && (failed <==> n == 0 || (offset <= |feed| && Releases(feed[start..offset]) == []))
         && next == if failed then before else offset
  }

  lemma NoPages(feed: seq<Item>, start: nat, fetches: seq<Fetch>)
    ensures OffsetAfter(feed, start, fetches, 0) == start && PagesCame(feed, start, fetches, 0)
  {
  }

  lemma OnePageMore(feed: seq<Item>, start: nat, fetches: seq<Fetch>, n: nat)
    requires n < |fetches| && PagesCame(feed, start, fetches, n)
    requires var page := Page(feed, OffsetAfter(feed, start, fetches, n), fetches[n]); page.Some? && page.value != []
    ensures PagesCame(feed, start, fetches, n + 1)
    ensures OffsetAfter(feed, start, fetches, n + 1) == OffsetAfter(feed, start, fetches, n)
            + |Page(feed, OffsetAfter(feed, start, fetches, n), fetches[n]).value|
  {
    hide Page;
  }

  /** A page that came begins inside the feed and ends inside it. */
  lemma PageInside(feed: seq<Item>, offset: nat, f: Fetch)
    ensures var page := Page(feed, offset, f);
            && (page.Some? && page.value != [] ==>
                  offset + |page.value| <= |feed| && page.value == feed[offset..offset + |page.value|])
            && (page == Some([]) ==> offset >= |feed|)
            && (page.None? <==> f.Failed?)
  {
  }

  lemma ScanEnds(feed: seq<Item>, start: nat, fetches: seq<Fetch>, maxPages: nat, n: nat,
                 failed: bool, before: nat, next: nat)
    requires n <= maxPages <= |fetches| && PagesCame(feed, start, fetches, n)
    requires var offset := OffsetAfter(feed, start, fetches, n);
             || (n == maxPages && !failed && next == offset)
             || (n < maxPages && Page(feed, offset, fetches[n]) == Some([]) && !failed && next == 0)
             || (n < maxPages && Page(feed, offset, fetches[n]).None? && next == (if failed then before else offset)
                 && (failed <==> n == 0 || (offset <= |feed| && Releases(feed[start..offset]) == [])))
    ensures EndsAfter(feed, start, fetches, maxPages, n, failed, before, next)
  {
    hide OffsetAfter, PagesCame, Page, Releases;
  }

  const DEFAULT_MAX_PAGES := 10

  /** Pages per tick: the source's setting or the default, capped by the run's. */
  function PagesPerTick(perSource: int, perRun: int): (n: nat)
    ensures n >= 1
    ensures perSource > 0 ==> n <= perSource
    ensures perSource <= 0 ==> n <= 10
    ensures perRun > 0 ==> n <= perRun
    ensures n == perSource || n == perRun || (n == 10 && perSource <= 0)
  {
    var n := if perSource <= 0 then DEFAULT_MAX_PAGES else perSource;
    if perRun > 0 && n > perRun then perRun else n
  }

  // ------------------------------------------------------------- one scan

  /** The inner loop: untitled items are passed over, the others appended. */
  method AppendReleases(out: seq<Release>, items: seq<Item>) returns (out': seq<Release>)
    ensures out' == out + Releases(items)
  {
    hide Titled, ReleaseOf;
    out' := out;
    var n := 0;
    assert items[0..] == items;
    while n < |items|
      invariant 0 <= n <= |items|
      invariant out' + Releases(items[n..]) == out + Releases(items)
    {
      var it := items[n];
      assert items[n..][1..] == items[n + 1..];
      if Titled(it) {
        assert out' + ([ReleaseOf(it)] + Releases(items[n + 1..])) == (out' + [ReleaseOf(it)]) + Releases(items[n + 1..]);
        out' := out' + [ReleaseOf(it)];
      } else {
        assert [] + Releases(items[n + 1..]) == Releases(items[n + 1..]);
      }
      n := n + 1;
    }
    assert items[n..] == [];
  }

  class TorznabScraper {
    const maxPages: nat
    const startOffset: nat
    var nextOffset: nat

    constructor (maxPages: nat, startOffset: nat)
      ensures this.maxPages == maxPages && this.startOffset == startOffset && nextOffset == startOffset
    {
      this.maxPages, this.startOffset := maxPages, startOffset;
      nextOffset := startOffset;
    }

    /**
     A scan either fails with the cursor where it was, or emits exactly the titled items between the
     start and the new cursor; 0 means the feed's end was reached, and then everything from the start
     on was emitted. A start at or past the end wraps at once.
     */
    method Scan(feed: seq<Item>, fetches: seq<Fetch>) returns (out: Option<seq<Release>>)
      requires maxPages >= 1 && |fetches| >= maxPages
      modifies this
      ensures out.None? ==> nextOffset == old(nextOffset) && exists i :: 0 <= i < maxPages && fetches[i].Failed?
      ensures startOffset <= |feed| && out.Some? && nextOffset == 0 ==> out.value == Releases(feed[startOffset..])
      ensures out.Some? && nextOffset != 0 ==>
                startOffset < nextOffset <= |feed| && out.value == Releases(feed[startOffset..nextOffset])
      ensures fetches[0].Serves? && startOffset >= |feed| ==> out == Some([]) && nextOffset == 0
      ensures exists n :: 0 <= n <= maxPages &&
                EndsAfter(feed, startOffset, fetches, maxPages, n, out.None?, old(nextOffset), nextOffset)
    {
      hide Releases, OffsetAfter, PagesCame, Page, EndsAfter;
      NothingReleased();
      NoPages(feed, startOffset, fetches);
      var collected: seq<Release> := [];
      var offset := startOffset;
      assert startOffset <= |feed| ==> feed[startOffset..startOffset] == [];
      var page := 0;
      while page < maxPages
        invariant 0 <= page <= maxPages
        invariant startOffset <= offset
        invariant page > 0 ==> startOffset < offset <= |feed|
        invariant page == 0 ==> offset == startOffset && collected == []
        invariant offset <= |feed| ==> collected == Releases(feed[startOffset..offset])
        invariant nextOffset == old(nextOffset)
        invariant offset == OffsetAfter(feed, startOffset, fetches, page)
        invariant PagesCame(feed, startOffset, fetches, page)
      {
        var items := Page(feed, offset, fetches[page]);
        PageInside(feed, offset, fetches[page]);
        if items.None? {
          if |collected| == 0 {
            ScanEnds(feed, startOffset, fetches, maxPages, page, true, old(nextOffset), nextOffset);
            return None;
          }
          nextOffset := offset;
          ScanEnds(feed, startOffset, fetches, maxPages, page, false, old(nextOffset), nextOffset);
          return Some(collected);
        }
        if |items.value| == 0 {
          assert offset == |feed| ==> feed[startOffset..offset] == feed[startOffset..];
          nextOffset := 0;
          ScanEnds(feed, startOffset, fetches, maxPages, page, false, old(nextOffset), nextOffset);
          return Some(collected);
        }
        OnePageMore(feed, startOffset, fetches, page);
        var next := offset + |items.value|;
        assert feed[startOffset..next] == feed[startOffset..offset] + items.value;
        ReleasesAppend(feed[startOffset..offset], items.value);
        collected := AppendReleases(collected, items.value);
        offset := next;
        page := page + 1;
      }
      nextOffset := offset;
      ScanEnds(feed, startOffset, fetches, maxPages, maxPages, false, old(nextOffset), nextOffset);
      return Some(collected);
    }
  }

  // ------------------------------------------------------------- the persisted cursor

  class CursorStore {
    var rows: map<string, int>

    constructor ()
      ensures rows == map[]
    {
      rows := map[];
    }

    method GetScrapeCursor(source: string) returns (off: int)
      ensures off == if source in rows then rows[source] else 0
    {
      off := if source in rows then rows[source] else 0;
    }

    method SetScrapeCursor(source: string, nextOffset: int)
      modifies this
      ensures rows == old(rows)[source := if nextOffset < 0 then 0 else nextOffset]
    {
      rows := rows[source := if nextOffset < 0 then 0 else nextOffset];
    }
  }

  function CursorOf(rows: map<string, int>, source: string): int {
    if source in rows then rows[source] else 0
  }

  /** One pass over the feed: what was emitted since the last wrap, and the finished passes before it. */
  datatype Walk = Walk(pass: seq<Release>, finished: seq<seq<Release>>)

  /** The cursor is inside the feed, and the pass is exactly the titled items before it. */
  ghost predicate WalkOk(feed: seq<Item>, cursor: int, w: Walk) {
    && 0 <= cursor <= |feed|
    && w.pass == Releases(feed[..cursor])
    && forall i :: 0 <= i < |w.finished| ==> w.finished[i] == Releases(feed)
  }

  lemma SplitReleases(feed: seq<Item>, a: nat, b: nat)
    requires a <= b <= |feed|
    ensures Releases(feed[..b]) == Releases(feed[..a]) + Releases(feed[a..b])
  {
    assert feed[..b] == feed[..a] + feed[a..b];
    ReleasesAppend(feed[..a], feed[a..b]);
  }

  /**
   One sync tick: read the cursor, scan, park the cursor before looking at the error. No item is
   skipped or repeated within a pass, and a pass is finished only when every item was emitted.
   */
  method SyncTick(db: CursorStore, source: string, feed: seq<Item>, maxPages: nat, fetches: seq<Fetch>, w: Walk)
    returns (w': Walk)
    requires maxPages >= 1 && |fetches| >= maxPages
    requires WalkOk(feed, CursorOf(db.rows, source), w)
    modifies db
    ensures WalkOk(feed, CursorOf(db.rows, source), w')
    ensures forall other :: other != source ==> CursorOf(db.rows, other) == CursorOf(old(db.rows), other)
    ensures w'.finished == w.finished
            || (w'.finished == w.finished + [Releases(feed)] && CursorOf(db.rows, source) == 0)
    ensures w.pass <= w'.pass || w'.finished == w.finished + [Releases(feed)]
    ensures (forall i :: 0 <= i < maxPages ==> fetches[i].Serves?) ==>
              || (w'.finished == w.finished && CursorOf(db.rows, source) > CursorOf(old(db.rows), source))
              || w'.finished == w.finished + [Releases(feed)]
  {
    hide Releases;
    var start := db.GetScrapeCursor(source);
    var scraper := new TorznabScraper(maxPages, start);
    var out := scraper.Scan(feed, fetches);
    var next := scraper.nextOffset;
    db.SetScrapeCursor(source, next);
    match out {
      case None =>
        w' := w;
      case Some(releases) =>
        if next == 0 {
          SplitReleases(feed, start, |feed|);
          assert feed[..|feed|] == feed && feed[start..|feed|] == feed[start..];
          assert feed[..0] == [];
          NothingReleased();
          w' := Walk([], w.finished + [w.pass + releases]);
        } else {
          SplitReleases(feed, start, next);
          w' := Walk(w.pass + releases, w.finished);
        }
    }
  }

  /**
   Any number of ticks on a fixed feed, with any pattern of page sizes and failures: what was emitted
   since the last wrap is exactly the titled part of feed[0..cursor], every finished pass is the
   whole titled feed, and |feed| + 1 failure-free ticks always finish one.
   */
  method ManyTicks(db: CursorStore, source: string, feed: seq<Item>, maxPages: nat, ticks: seq<seq<Fetch>>)
    returns (w: Walk)
    requires maxPages >= 1 && forall t :: 0 <= t < |ticks| ==> |ticks[t]| >= maxPages
    requires CursorOf(db.rows, source) == 0
    modifies db
    ensures 0 <= CursorOf(db.rows, source) <= |feed| && w.pass == Releases(feed[..CursorOf(db.rows, source)])
    ensures forall i :: 0 <= i < |w.finished| ==> w.finished[i] == Releases(feed)
    ensures |ticks| > |feed| && (forall t, i :: 0 <= t < |ticks| && 0 <= i < maxPages ==> ticks[t][i].Serves?) ==>
              |w.finished| >= 1
  {
    hide Releases;
    NothingReleased();
    assert feed[..0] == [];
    w := Walk([], []);
    for t := 0 to |ticks|
      invariant WalkOk(feed, CursorOf(db.rows, source), w)
      invariant (forall k, i :: 0 <= k < |ticks| && 0 <= i < maxPages ==> ticks[k][i].Serves?) ==>
                  |w.finished| >= 1 || CursorOf(db.rows, source) >= t
    {
      w := SyncTick(db, source, feed, maxPages, ticks[t], w);
    }
  }
}
