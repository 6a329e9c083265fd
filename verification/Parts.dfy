/**
 Parts of a file: how a file is cut, what the registry remembers of each part, and why folding
 the remembered CRCs in part order gives the CRC of the whole file.
 */
module Parts {
  import opened Bytes
  import opened Crc32
  import opened Gf2
  import opened YEnc
  import opened Article
  import opened Wrappers

  const CHUNK_SIZE := 700 * 1024

  // ------------------------------------------------------------- cutting a file

  function PartCount(size: nat): nat {
    (size + CHUNK_SIZE - 1) / CHUNK_SIZE
  }

  function Offset(k: nat): nat
    requires k >= 1
  {
    (k - 1) * CHUNK_SIZE
  }

  function Min(a: nat, b: nat): nat {
    if a < b then a else b
  }

  /** Part k, counting from 1. */
  function Chunk(data: seq<byte>, k: nat): (c: seq<byte>)
    requires 1 <= k <= PartCount(|data|)
    ensures 0 < |c| <= CHUNK_SIZE
    ensures k < PartCount(|data|) ==> |c| == CHUNK_SIZE
    ensures k == PartCount(|data|) ==> Offset(k) + |c| == |data|
  {
    data[Offset(k)..Min(k * CHUNK_SIZE, |data|)]
  }

  function Chunks(data: seq<byte>): (cs: seq<seq<byte>>)
    ensures |cs| == PartCount(|data|)
  {
    seq(PartCount(|data|), i requires 0 <= i < PartCount(|data|) => Chunk(data, i + 1))
  }

  lemma {:induction false} ChunksCover(data: seq<byte>, n: nat)
    requires n <= PartCount(|data|)
    ensures Concat(Chunks(data)[..n]) == data[..Min(n * CHUNK_SIZE, |data|)]
  {
    var cs := Chunks(data);
    if n > 0 {
      ChunksCover(data, n - 1);
      assert cs[..n] == cs[..n - 1] + [cs[n - 1]];
      ConcatAppend(cs[..n - 1], cs[n - 1]);
    }
  }

  /** As many parts as it takes of 700 KiB each: all but the last are full, and no part is empty. */
  lemma PartsExactly(data: seq<byte>, k: nat)
    requires 1 <= k <= PartCount(|data|)
    ensures 716800 * (PartCount(|data|) - 1) < |data| <= 716800 * PartCount(|data|)
    ensures k < PartCount(|data|) ==> Chunk(data, k) == data[716800 * (k - 1)..716800 * k]
    ensures k == PartCount(|data|) ==> Chunk(data, k) == data[716800 * (k - 1)..]
  {
  }

  lemma PartCountMoreThan(size: nat, n: nat)
    ensures PartCount(size) > n <==> size > 716800 * n
  {
  }

  /** The parts, put together in order, are the file. */
  lemma ChunksRebuild(data: seq<byte>)
    ensures Concat(Chunks(data)) == data
  {
    var n := PartCount(|data|);
    ChunksCover(data, n);
    assert Chunks(data)[..n] == Chunks(data);
    assert data[..|data|] == data;
  }

  /** How one Read goes: an error, or at most more + 1 bytes. */
  datatype ReadResult = Failed | Gives(more: nat)

  /** The i-th read brings all of part i. */
  predicate Fills(data: seq<byte>, i: nat, r: ReadResult)
    requires 1 <= i <= PartCount(|data|)
  {
    r.Gives? && r.more + 1 >= |Chunk(data, i)|
  }

  predicate AllFill(data: seq<byte>, reading: nat -> ReadResult, n: nat)
    requires n <= PartCount(|data|)
  {
    forall i :: 1 <= i <= n ==> Fills(data, i, reading(i))
  }

  predicate IsPiece(job: seq<byte>) {
    1 <= |job| <= CHUNK_SIZE
  }

  /** Some job is not the part of its number. */
  ghost predicate Strays(data: seq<byte>, jobs: seq<seq<byte>>)
    requires |jobs| <= PartCount(|data|)
  {
    exists k :: 0 <= k < |jobs| && jobs[k] != Chunks(data)[k]
  }

  /**
   The dispatcher's loop on a file of which stat reported `size` bytes and which holds `data`. What
   it sends out is always a beginning of the file in order, in no more jobs than were announced. On
   a file that has not changed it sends the parts exactly when every read brings its whole part; a
   short read is not noticed.
   */
  method CutFile(size: nat, data: seq<byte>, reading: nat -> ReadResult) returns (jobs: seq<seq<byte>>, failed: bool)
    ensures |jobs| <= PartCount(size) && Concat(jobs) <= data
    ensures forall k :: 0 <= k < |jobs| ==> 1 <= |jobs[k]| <= 716800
    ensures failed ==> exists i :: 1 <= i <= PartCount(size) && reading(i).Failed?
    ensures size == |data| ==> (!failed && jobs == Chunks(data) <==> AllFill(data, reading, PartCount(size)))
  {
    hide Chunks, Concat, Fills;
    var totalChunks := (size + CHUNK_SIZE - 1) / CHUNK_SIZE;
    jobs, failed := [], false;
    var position: nat := 0;
    NoJobs();
    for i := 1 to totalChunks + 1
      invariant position <= |data| && position <= (i - 1) * CHUNK_SIZE
      invariant !failed && |jobs| == i - 1 && Concat(jobs) == data[..position]
      invariant forall k :: 0 <= k < |jobs| ==> IsPiece(jobs[k])
      invariant size == |data| && AllFill(data, reading, i - 1) ==>
                  position == Min((i - 1) * CHUNK_SIZE, |data|) && !Strays(data, jobs)
      invariant size == |data| && !AllFill(data, reading, i - 1) ==> Strays(data, jobs)
    {
      var want := Min(CHUNK_SIZE, |data| - position);
      if reading(i).Failed? {
        if size == |data| {
          FailedDoesNotFill(data, i, reading);
        }
        return jobs, true;
      }
      var n := Min(reading(i).more + 1, want);
      if n == 0 {
        break;
      }
      var chunk := data[position..position + n];
      if size == |data| {
        ReadFills(data, i, reading, jobs, position, n);
      }
      ConcatAppend(jobs, chunk);
      assert data[..position] + chunk == data[..position + n];
      assert IsPiece(chunk) by { PieceOf(chunk, n); }
      position := position + n;
      jobs := jobs + [chunk];
    }
    if size == |data| {
      NoStrays(data, jobs);
    }
  }

  lemma NoJobs()
    ensures Concat([]) == []
  {
  }

  lemma PieceOf(chunk: seq<byte>, n: nat)
    requires 1 <= |chunk| == n <= CHUNK_SIZE
    ensures IsPiece(chunk)
  {
  }

  lemma FailedDoesNotFill(data: seq<byte>, i: nat, reading: nat -> ReadResult)
    requires 1 <= i <= PartCount(|data|) && reading(i).Failed?
    ensures !AllFill(data, reading, PartCount(|data|))
  {
    assert !Fills(data, i, reading(i));
  }

  /** A read that brings its part keeps the jobs right; a shorter one makes them stray for good. */
  lemma ReadFills(data: seq<byte>, i: nat, reading: nat -> ReadResult, jobs: seq<seq<byte>>, position: nat, n: nat)
    requires 1 <= i <= PartCount(|data|) && |jobs| == i - 1 && reading(i).Gives?
    requires position <= |data| && 0 < n == Min(reading(i).more + 1, Min(CHUNK_SIZE, |data| - position))
    requires AllFill(data, reading, i - 1) ==> position == Min((i - 1) * CHUNK_SIZE, |data|) && !Strays(data, jobs)
    requires !AllFill(data, reading, i - 1) ==> Strays(data, jobs)
    ensures var jobs' := jobs + [data[position..position + n]];
            && (AllFill(data, reading, i) ==> position + n == Min(i * CHUNK_SIZE, |data|) && !Strays(data, jobs'))
            && (!AllFill(data, reading, i) ==> Strays(data, jobs'))
  {
    var jobs' := jobs + [data[position..position + n]];
    if AllFill(data, reading, i - 1) {
      assert AllFill(data, reading, i) <==> Fills(data, i, reading(i));
      assert Chunks(data)[i - 1] == Chunk(data, i);
      if !Fills(data, i, reading(i)) {
        assert |jobs'[i - 1]| < |Chunks(data)[i - 1]|;
      }
    } else {
      var k :| 0 <= k < |jobs| && jobs[k] != Chunks(data)[k];
      assert jobs'[k] != Chunks(data)[k];
    }
  }

  lemma NoStrays(data: seq<byte>, jobs: seq<seq<byte>>)
    requires |jobs| <= PartCount(|data|)
    ensures |jobs| == PartCount(|data|) && !Strays(data, jobs) <==> jobs == Chunks(data)
  {
    hide Chunks;
  }

  // ------------------------------------------------------------- the registry key

  /** File name, NUL, size in decimal. */
  function FileCRCKey(filename: seq<byte>, size: nat): seq<byte> {
    filename + [0] + Decimal(size)
  }

  lemma LastNul(f: seq<byte>, n: nat)
    ensures var key := FileCRCKey(f, n);
            |f| < |key| && key[|f|] == 0 && forall i :: |f| < i < |key| ==> key[i] != 0
  {
  }

  /** Two uploads share an entry only if they agree on both name and size, whatever the names hold. */
  lemma KeyInjective(f: seq<byte>, n: nat, g: seq<byte>, m: nat)
    requires FileCRCKey(f, n) == FileCRCKey(g, m)
    ensures f == g && n == m
  {
    var key := FileCRCKey(f, n);
    LastNul(f, n);
    LastNul(g, m);
    assert f == key[..|f|] == g;
    assert Decimal(n) == key[|f| + 1..] == Decimal(m);
    DecimalRoundTrip(n);
    DecimalRoundTrip(m);
  }

  // ------------------------------------------------------------- registered CRCs

  datatype PartCRC = PartCRC(pcrc: bv32, length: nat)

  type PartMap = map<nat, PartCRC>

  function InfoOf(chunk: seq<byte>): PartCRC {
    PartCRC(Checksum(chunk), |chunk|)
  }

  /** A missing entry reads as the zero value. */
  function Lookup(parts: PartMap, k: nat): PartCRC {
    if k in parts then parts[k] else PartCRC(0, 0)
  }

  /** The fold of the final part: parts 1 to n in order, starting from 0. */
  function Fold(parts: PartMap, n: nat): bv32 {
    if n == 0 then 0
    else Combined(Fold(parts, n - 1), Lookup(parts, n).pcrc, Lookup(parts, n).length)
  }

  /** A part that never registered does not change the fold. */
  lemma MissingIsSkipped(parts: PartMap, k: nat)
    requires k >= 1 && k !in parts
    ensures Fold(parts, k) == Fold(parts, k - 1)
  {
  }

  /** Everything registered is a part of this file, with that part's CRC and length. */
  predicate Agrees(parts: PartMap, data: seq<byte>) {
    forall k :: k in parts ==> 1 <= k <= PartCount(|data|) && parts[k] == InfoOf(Chunk(data, k))
  }

  lemma {:induction false} FoldPrefix(parts: PartMap, data: seq<byte>, n: nat)
    requires n <= PartCount(|data|)
    requires Agrees(parts, data)
    requires forall k :: 1 <= k <= n ==> k in parts
    ensures Fold(parts, n) == Checksum(Concat(Chunks(data)[..n]))
  {
    hide Combined, Checksum;
    var cs := Chunks(data);
    if n == 0 {
      ChecksumEmpty();
    } else {
      FoldPrefix(parts, data, n - 1);
      assert cs[..n] == cs[..n - 1] + [cs[n - 1]];
      ConcatAppend(cs[..n - 1], cs[n - 1]);
      CombineIsConcat(Concat(cs[..n - 1]), cs[n - 1]);
    }
  }

  lemma FoldIsFileChecksum(parts: PartMap, data: seq<byte>)
    requires Agrees(parts, data)
    requires forall k :: 1 <= k <= PartCount(|data|) ==> k in parts
    ensures Fold(parts, PartCount(|data|)) == Checksum(data)
  {
    hide Checksum, Fold;
    FoldPrefix(parts, data, PartCount(|data|));
    assert Chunks(data)[..PartCount(|data|)] == Chunks(data);
    ChunksRebuild(data);
  }

  function Numbers(n: nat): (s: set<nat>)
    ensures forall k :: k in s <==> 1 <= k <= n
    ensures |s| == n
  {
    if n == 0 then {} else Numbers(n - 1) + {n}
  }

  /** The guard `len(parts) >= total` is enough: an agreeing registry of that size holds every part. */
  lemma FullWhenCounted(parts: PartMap, data: seq<byte>)
    requires Agrees(parts, data)
    requires |parts| >= PartCount(|data|)
    ensures forall k :: 1 <= k <= PartCount(|data|) ==> k in parts
  {
    assert |parts.Keys| == |parts|;
    SubsetSize(parts.Keys, Numbers(PartCount(|data|)));
  }

  /** The entry after the wait of a final part during which these parts arrive. */
  function AfterArrivals(parts: PartMap, total: nat, arrivals: seq<Part>): PartMap
    decreases |arrivals|
  {
    if |parts| >= total || arrivals == [] then parts
    else AfterArrivals(parts[arrivals[0].number := InfoOf(arrivals[0].data)], total, arrivals[1..])
  }

  /** One entry of the registry; its fields are only touched under the entry's mutex. */
  class FileCRCState {
    var parts: PartMap

    constructor ()
      ensures parts == map[]
    {
      parts := map[];
    }

    method Register(partNumber: nat, data: seq<byte>)
      modifies this
      ensures parts == old(parts)[partNumber := InfoOf(data)]
    {
      parts := parts[partNumber := PartCRC(Checksum(data), |data|)];
    }

    /** The final part's wait: others register what arrives until the count is reached. */
    method Await(totalParts: nat, arrivals: seq<Part>) returns (full: bool)
      modifies this
      ensures parts == AfterArrivals(old(parts), totalParts, arrivals)
      ensures full <==> |parts| >= totalParts
    {
      var next := 0;
      assert arrivals[0..] == arrivals;
      while |parts| < totalParts && next < |arrivals|
        invariant 0 <= next <= |arrivals|
        invariant AfterArrivals(parts, totalParts, arrivals[next..]) == AfterArrivals(old(parts), totalParts, arrivals)
      {
        assert arrivals[next..][1..] == arrivals[next + 1..];
        Register(arrivals[next].number, arrivals[next].data);
        next := next + 1;
      }
      full := |parts| >= totalParts;
    }

    method WholeFileCRC(totalParts: nat) returns (whole: bv32)
      ensures whole == Fold(parts, totalParts)
    {
      whole := 0;
      for i := 1 to totalParts + 1
        invariant whole == Fold(parts, i - 1)
      {
        var info := Lookup(parts, i);
        whole := Crc32CombineIEEE(whole, info.pcrc, info.length);
      }
    }
  }

  // ------------------------------------------------------------- articles of a file

  function PartOf(data: seq<byte>, name: seq<byte>, k: nat): Part
    requires 1 <= k <= PartCount(|data|)
  {
    Part(Chunk(data, k), name, k, PartCount(|data|), Offset(k), |data|)
  }

  /** The crc32 attribute part k ought to carry: the file's CRC on the last part, nothing before it. */
  function FileAttribute(data: seq<byte>, k: nat): Option<bv32> {
    if k == PartCount(|data|) then Some(Checksum(data)) else None
  }

  function GoodArticle(data: seq<byte>, name: seq<byte>, k: nat): seq<byte>
    requires 1 <= k <= PartCount(|data|)
  {
    Printed(PartOf(data, name, k), FileAttribute(data, k))
  }

  /** The posted ranges tile 1..size: each part starts one past the end of the part before it. */
  lemma RangesTile(data: seq<byte>, name: seq<byte>, k: nat)
    requires 1 <= k <= PartCount(|data|)
    requires OneLine(name)
    ensures var c := Read(GoodArticle(data, name, k));
            && c.Some? && c.value.first == 716800 * (k - 1) + 1 && c.value.last == 716800 * (k - 1) + |c.value.data|
            && c.value.first <= c.value.last
            && (k == 1 ==> c.value.first == 1)
            && (k < PartCount(|data|) ==> c.value.last == 716800 * k)
            && (k == PartCount(|data|) ==> c.value.last == |data|)
  {
    hide Read, Printed, Checksum;
    ReadInvertsPrint(PartOf(data, name, k), FileAttribute(data, k));
  }

  function DecodedPart(article: seq<byte>): seq<byte> {
    match Read(article)
    case None => []
    case Some(c) => c.data
  }

  /** The article of part k, whatever crc32 attribute it carries. */
  ghost predicate IsArticleOf(data: seq<byte>, name: seq<byte>, k: nat, article: seq<byte>) {
    1 <= k <= PartCount(|data|) && exists whole :: article == Printed(PartOf(data, name, k), whole)
  }

  lemma ArticleDecodes(data: seq<byte>, name: seq<byte>, k: nat, article: seq<byte>)
    requires IsArticleOf(data, name, k, article) && OneLine(name)
    ensures DecodedPart(article) == Chunk(data, k)
  {
    hide Printed, Read, Chunk;
    var whole :| article == Printed(PartOf(data, name, k), whole);
    ReadInvertsPrint(PartOf(data, name, k), whole);
  }

  /** Reading the articles by number and joining the data rebuilds the file, whatever crc32 they carry. */
  lemma ArticlesRebuild(data: seq<byte>, name: seq<byte>, articles: seq<seq<byte>>)
    requires OneLine(name)
    requires |articles| == PartCount(|data|)
    requires forall i :: 0 <= i < |articles| ==> var k := i + 1; IsArticleOf(data, name, k, articles[i])
    ensures Concat(seq(|articles|, i requires 0 <= i < |articles| => DecodedPart(articles[i]))) == data
  {
    hide DecodedPart, IsArticleOf, Chunk;
    var parts := seq(|articles|, i requires 0 <= i < |articles| => DecodedPart(articles[i]));
    forall i | 0 <= i < |articles| ensures parts[i] == Chunks(data)[i] {
      ArticleDecodes(data, name, i + 1, articles[i]);
    }
    assert parts == Chunks(data);
    ChunksRebuild(data);
  }
}
