/** PAR2 generation: reading the tool's progress stream, and choosing the slice size. */
module Par2 {
  import opened Bytes
  import opened Scanner
  import opened Text
  import opened Wrappers

  // ------------------------------------------------------------- splitting

  predicate IsBreak(b: byte) {
    b == CR || b == LF
  }

  /** The stream cut at every CR and every LF. */
  function Pieces(s: seq<byte>): (ps: seq<seq<byte>>)
    ensures |ps| >= 1
    decreases |s|
  {
    if s == [] then [[]]
    else if IsBreak(s[0]) then [[]] + Pieces(s[1..])
    else
      var ps := Pieces(s[1..]);
      [[s[0]] + ps[0]] + ps[1..]
  }

  type Trim = seq<byte> -> seq<byte>

  /** The trimmed pieces that are not blank. */
  function NonBlank(pieces: seq<seq<byte>>, trim: Trim): seq<seq<byte>>
    decreases |pieces|
  {
    if pieces == [] then []
    else (if trim(pieces[0]) == [] then [] else [trim(pieces[0])]) + NonBlank(pieces[1..], trim)
  }

  predicate NoBreak(s: seq<byte>) {
    forall i :: 0 <= i < |s| ==> !IsBreak(s[i])
  }

  lemma {:induction false} PiecesAtBreak(head: seq<byte>, b: byte, rest: seq<byte>)
    requires NoBreak(head) && IsBreak(b)
    ensures Pieces(head + [b] + rest) == [head] + Pieces(rest)
    decreases |head|
  {
    var s := head + [b] + rest;
    if head == [] {
      assert s[0] == b && s[1..] == rest;
    } else {
      assert s[0] == head[0] && s[1..] == head[1..] + [b] + rest;
      PiecesAtBreak(head[1..], b, rest);
      assert [head[0]] + head[1..] == head;
    }
  }

  lemma {:induction false} PiecesOfLine(s: seq<byte>)
    requires NoBreak(s)
    ensures Pieces(s) == [s]
    decreases |s|
  {
    if s != [] {
      PiecesOfLine(s[1..]);
      assert [s[0]] + s[1..] == s;
    }
  }

  lemma {:induction false} FirstPieceLong(head: seq<byte>, rest: seq<byte>)
    requires NoBreak(head)
    ensures |Pieces(head + rest)[0]| >= |head|
    decreases |head|
  {
    if head != [] {
      assert (head + rest)[1..] == head[1..] + rest;
      FirstPieceLong(head[1..], rest);
    }
  }

  /** scanLinesOrCR: how far to advance, and the token if there is one. */
  method ScanLinesOrCR(data: seq<byte>, atEOF: bool) returns (advance: nat, token: Option<seq<byte>>)
    ensures advance <= |data|
    ensures token.None? ==> advance == 0 && NoBreak(data) && (atEOF ==> data == [])
    ensures token.Some? ==>
              var t := token.value;
              && t <= data && NoBreak(t) && advance > 0
              && if |t| < |data| then
                   && IsBreak(data[|t|])
                   && advance == |t| + (if data[|t|] == CR && |t| + 1 < |data| && data[|t| + 1] == LF then 2 else 1)
                 else
                   atEOF && advance == |data|
  {
    if atEOF && |data| == 0 {
      return 0, None;
    }
    for i := 0 to |data|
      invariant forall k :: 0 <= k < i ==> !IsBreak(data[k])
    {
      if data[i] == LF {
        return i + 1, Some(data[..i]);
      }
      if data[i] == CR {
        if i + 1 < |data| && data[i + 1] == LF {
          return i + 2, Some(data[..i]);
        }
        return i + 1, Some(data[..i]);
      }
    }
    if atEOF {
      return |data|, Some(data);
    }
    return 0, None;
  }

  // ------------------------------------------------------------- the scanner loop

  function Length(piece: seq<byte>): nat {
    |piece|
  }

  /** What the loop ought to see of a stream: its short pieces up to the first long one, blank ones left out. */
  function Seen(s: seq<byte>, trim: Trim): seq<seq<byte>> {
    NonBlank(UntilLong(Pieces(s), Length), trim)
  }

  predicate TooLong(s: seq<byte>) {
    AnyLong(Pieces(s), Length)
  }

  /** One short piece and the break after it. */
  lemma OnePiece(piece: seq<byte>, b: byte, rest: seq<byte>, trim: Trim)
    requires NoBreak(piece) && IsBreak(b) && |piece| < MAX_SCAN_TOKEN_SIZE
    ensures Seen(piece + [b] + rest, trim) == (if trim(piece) == [] then [] else [trim(piece)]) + Seen(rest, trim)
    ensures TooLong(piece + [b] + rest) <==> TooLong(rest)
  {
    hide Pieces;
    PiecesAtBreak(piece, b, rest);
    AnyLongNext(piece, Pieces(rest), Length);
    UntilLongNext(piece, Pieces(rest), Length);
    var short := [piece] + UntilLong(Pieces(rest), Length);
    assert short[1..] == UntilLong(Pieces(rest), Length);
  }

  /** Taking one token off the front of the buffered stream takes its line, and nothing else that counts. */
  lemma TokenStep(buf: seq<byte>, rest: seq<byte>, t: seq<byte>, advance: nat, trim: Trim)
    requires trim([]) == [] && |buf| <= MAX_SCAN_TOKEN_SIZE
    requires t <= buf && NoBreak(t) && |t| < |buf| && IsBreak(buf[|t|])
    requires advance == |t| + (if buf[|t|] == CR && |t| + 1 < |buf| && buf[|t| + 1] == LF then 2 else 1)
    ensures Seen(buf + rest, trim) == (if trim(t) == [] then [] else [trim(t)]) + Seen(buf[advance..] + rest, trim)
    ensures TooLong(buf + rest) <==> TooLong(buf[advance..] + rest)
  {
    hide Seen, TooLong;
    var after := buf[|t| + 1..] + rest;
    assert buf + rest == t + [buf[|t|]] + after;
    OnePiece(t, buf[|t|], after, trim);
    if advance == |t| + 2 {
      var last := buf[advance..] + rest;
      assert after == [] + [LF] + last;
      OnePiece([], LF, last, trim);
      assert [] + Seen(last, trim) == Seen(last, trim);
    }
  }

  /** Either kind of token: ended by a break, or what is left at the end of the stream. */
  lemma ScanStep(buf: seq<byte>, rest: seq<byte>, t: seq<byte>, advance: nat, eof: bool, trim: Trim)
    requires trim([]) == [] && |buf| <= MAX_SCAN_TOKEN_SIZE
    requires t <= buf && NoBreak(t) && (eof ==> rest == [] && |buf| < MAX_SCAN_TOKEN_SIZE)
    requires if |t| < |buf| then
               && IsBreak(buf[|t|])
               && advance == |t| + (if buf[|t|] == CR && |t| + 1 < |buf| && buf[|t| + 1] == LF then 2 else 1)
             else
               eof && advance == |buf|
    ensures Seen(buf + rest, trim) == (if trim(t) == [] then [] else [trim(t)]) + Seen(buf[advance..] + rest, trim)
    ensures TooLong(buf + rest) <==> TooLong(buf[advance..] + rest)
  {
    hide Seen, TooLong, NoBreak;
    if |t| < |buf| {
      TokenStep(buf, rest, t, advance, trim);
    } else {
      assert t == buf && buf + rest == buf && buf[advance..] + rest == [];
      LastToken(buf, trim);
    }
  }

  lemma LastToken(buf: seq<byte>, trim: Trim)
    requires NoBreak(buf) && trim([]) == [] && |buf| < MAX_SCAN_TOKEN_SIZE
    ensures Seen([], trim) == [] && !TooLong([])
    ensures Seen(buf, trim) == (if trim(buf) == [] then [] else [trim(buf)]) && !TooLong(buf)
  {
    PiecesOfLine(buf);
    assert Pieces([]) == [[]];
    assert Pieces(buf)[1..] == [] && Pieces([])[1..] == [];
    var one: seq<seq<byte>> := [buf];
    var empty: seq<seq<byte>> := [[]];
    UntilLongAppend(one, [], Length);
    UntilLongAppend(empty, [], Length);
    assert one + [] == one && empty + [] == empty && one[1..] == [] && empty[1..] == [];
  }

  lemma FullBuffer(buf: seq<byte>, rest: seq<byte>, trim: Trim)
    requires NoBreak(buf) && |buf| >= MAX_SCAN_TOKEN_SIZE
    ensures Seen(buf + rest, trim) == [] && TooLong(buf + rest)
  {
    FirstPieceLong(buf, rest);
  }

  /** The captured output: every line followed by a line feed. */
  function Joined(lines: seq<seq<byte>>): seq<byte> {
    if lines == [] then [] else Joined(lines[..|lines| - 1]) + lines[|lines| - 1] + [LF]
  }

  function Least(a: nat, b: nat): nat {
    if a < b then a else b
  }

  /**
   parsePAR2Progress on any stream, the n-th read bringing at most reading(n) + 1 bytes of it. What
   it sees does not depend on where the stream is cut into reads: it is the non-blank pieces of the
   whole stream, up to the first that fills the scanner's buffer, if there is one.
   */
  method ParseProgress(stream: seq<byte>, reading: nat -> nat, trim: Trim)
    returns (lines: seq<seq<byte>>, lastOutput: seq<byte>, tooLong: bool)
    requires trim([]) == []
    ensures lines == Seen(stream, trim)
    ensures tooLong <==> TooLong(stream)
    ensures lastOutput == Joined(lines)
  {
    hide Seen, TooLong, NoBreak;
    lines, lastOutput, tooLong := [], [], false;
    var buf: seq<byte> := [];
    var r: nat, at: nat, eof := 0, 0, false;
    assert buf + stream[0..] == stream;
    while true
      invariant at <= |stream| && |buf| <= MAX_SCAN_TOKEN_SIZE
      invariant eof ==> at == |stream| && |buf| < MAX_SCAN_TOKEN_SIZE
      invariant lines + Seen(buf + stream[at..], trim) == Seen(stream, trim)
      invariant TooLong(stream) <==> TooLong(buf + stream[at..])
      invariant lastOutput == Joined(lines)
      decreases |stream| - at, !eof, |buf|
    {
      ghost var rest := stream[at..];
      if |buf| > 0 || eof {
        var advance, token := ScanLinesOrCR(buf, eof);
        if token.Some? {
          ghost var before := lines;
          ScanStep(buf, rest, token.value, advance, eof, trim);
          buf := buf[advance..];
          var line := trim(token.value);
          if line == [] {
            assert [] + Seen(buf + rest, trim) == Seen(buf + rest, trim);
            continue;
          }
          assert lines + ([line] + Seen(buf + rest, trim)) == lines + [line] + Seen(buf + rest, trim);
          lines := lines + [line];
          lastOutput := lastOutput + line + [LF];
          assert lines[..|lines| - 1] == before;
          continue;
        }
      }
      if eof {
        assert buf + rest == [];
        assert NoBreak([]) by { NothingBreaks(); }
        LastToken([], trim);
        return;
      }
      if |buf| >= MAX_SCAN_TOKEN_SIZE {
        FullBuffer(buf, rest, trim);
        tooLong := true;
        return;
      }
      if at < |stream| {
        var n := Least(reading(r) + 1, Least(MAX_SCAN_TOKEN_SIZE - |buf|, |stream| - at));
        assert buf + rest == (buf + stream[at..at + n]) + stream[at + n..];
        buf := buf + stream[at..at + n];
        at := at + n;
        r := r + 1;
      } else {
        eof := true;
      }
    }
  }

  lemma NothingBreaks()
    ensures NoBreak([])
  {
  }

  // ------------------------------------------------------------- slice size

  const MAX_SLICES := 32768

  function FitBlockSize(totalSize: int, want: int): (size: int)
    ensures want > 0 && totalSize > 0 ==> size > 0
  {
    if want <= 0 || totalSize <= 0 || totalSize / want <= MAX_SLICES then want
    else
      var scaled := (totalSize + MAX_SLICES - 1) / MAX_SLICES;
      ((scaled + 3) / 4) * 4
  }

  /** How many slices of this size the data needs. */
  function Slices(totalSize: nat, size: int): int
    requires size > 0
  {
    (totalSize + size - 1) / size
  }

  function TotalSize(sizes: seq<nat>): nat {
    if sizes == [] then 0 else TotalSize(sizes[..|sizes| - 1]) + sizes[|sizes| - 1]
  }

  /** Slices never hold bytes of two files, so each file is cut by itself. */
  function FileSlices(sizes: seq<nat>, size: int): nat
    requires size > 0
  {
    if sizes == [] then 0
    else FileSlices(sizes[..|sizes| - 1], size) + SlicesOf(sizes[|sizes| - 1], size)
  }

  function SlicesOf(fileSize: nat, size: int): (n: nat)
    requires size > 0
  {
    DivBounds(fileSize + size - 1, size);
    TimesMonotone(0, Slices(fileSize, size) + 1, size);
    Slices(fileSize, size)
  }

  lemma SlicesAtMost(totalSize: nat, size: int, n: int)
    requires size > 0
    ensures Slices(totalSize, size) <= n <==> totalSize <= n * size
  {
    var q := Slices(totalSize, size);
    DivBounds(totalSize + size - 1, size);
    assert (q + 1) * size == q * size + size;
    TimesMonotone(q, n, size);
    TimesMonotone(n + 1, q, size);
    assert (n + 1) * size == n * size + size;
  }

  lemma TimesSum(a: int, b: int, m: int)
    ensures (a + b) * m == a * m + b * m
  {
  }

  /** Cutting two files apart costs at most one slice more than cutting them as one. */
  lemma TwoFiles(a: nat, b: nat, size: int)
    requires size > 0
    ensures Slices(a + b, size) <= Slices(a, size) + Slices(b, size) <= Slices(a + b, size) + 1
  {
    hide Slices;
    var x, y := Slices(a, size), Slices(b, size);
    SlicesAtMost(a, size, x);
    SlicesAtMost(b, size, y);
    SlicesAtMost(a + b, size, x + y);
    TimesSum(x, y, size);
    SlicesAtMost(a, size, x - 1);
    SlicesAtMost(b, size, y - 1);
    SlicesAtMost(a + b, size, x - 1 + (y - 1));
    TimesSum(x - 1, y - 1, size);
  }

  /** n files cost at most n - 1 slices more than the one stream the size is chosen for. */
  lemma {:induction false} FileSlicesBounds(sizes: seq<nat>, size: int)
    requires size > 0 && sizes != []
    ensures Slices(TotalSize(sizes), size) <= FileSlices(sizes, size) <= Slices(TotalSize(sizes), size) + |sizes| - 1
    decreases |sizes|
  {
    hide Slices;
    var front, last := sizes[..|sizes| - 1], sizes[|sizes| - 1];
    if front == [] {
      assert TotalSize(front) == 0 && FileSlices(front, size) == 0;
    } else {
      FileSlicesBounds(front, size);
      TwoFiles(TotalSize(front), last, size);
    }
  }

  /** A release of n files, none empty, with these bytes in all. */
  predicate IsRelease(sizes: seq<nat>, n: nat, total: nat) {
    |sizes| == n && TotalSize(sizes) == total && forall i :: 0 <= i < n ==> sizes[i] > 0
  }

  /** One slice for the first byte of each file, and the other bytes as one stream, rounded down. */
  function MostSlices(n: nat, total: nat, size: int): int
    requires size > 0 && n <= total
  {
    n + (total - n) / size
  }

  lemma SlicesOfOne(fileSize: nat, size: int)
    requires size > 0 && fileSize > 0
    ensures SlicesOf(fileSize, size) == 1 + (fileSize - 1) / size
  {
    var q := (fileSize - 1) / size;
    DivBounds(fileSize - 1, size);
    assert (q + 1) * size == q * size + size && (q + 2) * size == q * size + 2 * size;
    SlicesAtMost(fileSize, size, q + 1);
    SlicesAtMost(fileSize, size, q);
  }

  lemma FloorsAdd(a: nat, b: nat, size: int)
    requires size > 0
    ensures a / size + b / size <= (a + b) / size
  {
    var x, y, z := a / size, b / size, (a + b) / size;
    DivBounds(a, size);
    DivBounds(b, size);
    DivBounds(a + b, size);
    TimesSum(x, y, size);
    TimesMonotone(z + 1, x + y, size);
  }

  lemma {:induction false} MostIsMost(sizes: seq<nat>, size: int)
    requires size > 0 && IsRelease(sizes, |sizes|, TotalSize(sizes))
    ensures |sizes| <= TotalSize(sizes)
    ensures FileSlices(sizes, size) <= MostSlices(|sizes|, TotalSize(sizes), size)
    decreases |sizes|
  {
    hide SlicesOf;
    if sizes != [] {
      var front, last := sizes[..|sizes| - 1], sizes[|sizes| - 1];
      MostIsMost(front, size);
      SlicesOfOne(last, size);
      FloorsAdd(TotalSize(front) - |front|, last - 1, size);
    }
  }

  /** n - 1 files of one byte and one with the rest need the most. */
  lemma {:induction false} MostIsNeeded(n: nat, total: nat, size: int) returns (sizes: seq<nat>)
    requires size > 0 && 1 <= n <= total
    ensures IsRelease(sizes, n, total) && FileSlices(sizes, size) == MostSlices(n, total, size)
    decreases n
  {
    hide SlicesOf;
    if n == 1 {
      sizes := [total];
      assert sizes[..0] == [] && TotalSize(sizes[..0]) == 0 && FileSlices(sizes[..0], size) == 0;
      SlicesOfOne(total, size);
    } else {
      var front := MostIsNeeded(n - 1, total - 1, size);
      sizes := front + [1];
      assert sizes[..n - 1] == front;
      SlicesOfOne(1, size);
      assert 0 / size == 0;
    }
  }

  ghost predicate EveryReleaseFits(n: nat, total: nat, size: int)
    requires size > 0
  {
    forall sizes: seq<nat> :: IsRelease(sizes, n, total) ==> FileSlices(sizes, size) <= 32768
  }

  /**
   Every release of n files with this many bytes keeps the ceiling at this slice size exactly when n
   slices and the remaining bytes, rounded down to whole slices, do.
   */
  lemma ReleaseFitsExactly(n: nat, total: nat, size: int)
    requires size > 0 && 1 <= n <= total
    ensures EveryReleaseFits(n, total, size) <==> n + (total - n) / size <= 32768
  {
    hide FileSlices;
    var worst := MostIsNeeded(n, total, size);
    forall sizes: seq<nat> | IsRelease(sizes, n, total) ensures FileSlices(sizes, size) <= MostSlices(n, total, size) {
      MostIsMost(sizes, size);
    }
  }

  /** What GeneratePAR2 finds in the directory. */
  datatype Found = Found(name: string, size: nat)

  const DEFAULT_BLOCK_SIZE := 700 * 1024

  predicate Protected(f: Found) {
    var low := ToLower(f.name);
    !(|low| >= 5 && low[|low| - 5..] == ".par2")
  }

  /** Recovery files are left out, whatever the case of their extension; nothing else is. */
  lemma ProtectedExactly(f: Found)
    ensures Protected(f) <==> !exists stem: string :: ToLower(f.name) == stem + ".par2"
  {
    var low := ToLower(f.name);
    if !Protected(f) {
      assert low == low[..|low| - 5] + ".par2";
    }
    if stem: string :| low == stem + ".par2" {
      assert low[|low| - 5..] == ".par2";
    }
  }

  function ProtectedSizes(files: seq<Found>): seq<nat> {
    if files == [] then []
    else ProtectedSizes(files[..|files| - 1]) + if Protected(files[|files| - 1]) then [files[|files| - 1].size] else []
  }

  /**
   GeneratePAR2's choice of the slice size. It counts the release as one stream. For n files the tool
   needs at most n - 1 slices more than it allowed for; and when no file is empty it stays within the
   ceiling if n slices and the remaining bytes, rounded down to whole slices, do.
   */
  method ChooseBlockSize(files: seq<Found>, wanted: int) returns (size: int)
    ensures size > 0
    ensures size == FitBlockSize(TotalSize(ProtectedSizes(files)), if wanted <= 0 then 716800 else wanted)
    ensures var sizes := ProtectedSizes(files);
            sizes != [] ==>
              Slices(TotalSize(sizes), size) <= FileSlices(sizes, size) <= Slices(TotalSize(sizes), size) + |sizes| - 1
    ensures var sizes := ProtectedSizes(files);
            IsRelease(sizes, |sizes|, TotalSize(sizes)) ==>
              && |sizes| <= TotalSize(sizes)
              && FileSlices(sizes, size) <= MostSlices(|sizes|, TotalSize(sizes), size)
  {
    hide Slices, FileSlices, Protected, MostSlices;
    var blockSize := if wanted <= 0 then DEFAULT_BLOCK_SIZE else wanted;
    var totalSize: nat := 0;
    for i := 0 to |files|
      invariant totalSize == TotalSize(ProtectedSizes(files[..i]))
    {
      assert files[..i + 1][..i] == files[..i];
      var sizes := ProtectedSizes(files[..i]);
      if Protected(files[i]) {
        assert (sizes + [files[i].size])[..|sizes|] == sizes;
        totalSize := totalSize + files[i].size;
      } else {
        assert sizes + [] == sizes;
      }
    }
    assert files[..|files|] == files;
    size := FitBlockSize(totalSize, blockSize);
    var sizes := ProtectedSizes(files);
    if sizes != [] {
      FileSlicesBounds(sizes, size);
    }
    if IsRelease(sizes, |sizes|, TotalSize(sizes)) {
      MostIsMost(sizes, size);
    }
  }

  lemma DivBounds(a: nat, m: int)
    requires m > 0
    ensures (a / m) * m <= a < (a / m + 1) * m
  {
    assert a == (a / m) * m + a % m;
  }

  lemma TimesMonotone(a: int, b: int, m: int)
    requires m > 0
    ensures a <= b <==> a * m <= b * m
  {
  }

  lemma SlicesWithin(totalSize: nat, size: int)
    requires size > 0
    ensures Slices(totalSize, size) <= MAX_SLICES <==> totalSize <= MAX_SLICES * size
  {
    SlicesAtMost(totalSize, size, MAX_SLICES);
  }

  lemma FloorWithin(totalSize: nat, want: int)
    requires want > 0
    ensures totalSize / want <= MAX_SLICES <==> totalSize < (MAX_SLICES + 1) * want
  {
    var q := totalSize / want;
    DivBounds(totalSize, want);
    TimesMonotone(q + 1, MAX_SLICES + 1, want);
    TimesMonotone(MAX_SLICES + 1, q, want);
  }

  /**
   The comparison divides with floor, so sizes that need one partial slice too many are let through:
   the data fits the 32768-slice ceiling exactly when it is not strictly between 32768 and 32769
   wanted slices.
   */
  lemma CeilingHeldExactly(totalSize: nat, want: int)
    requires totalSize > 0 && want > 0
    ensures Slices(totalSize, FitBlockSize(totalSize, want)) <= 32768
       <==> !(32768 * want < totalSize < 32769 * want)
    ensures FitBlockSize(totalSize, want) == want <==> totalSize < 32769 * want
  {
    FloorWithin(totalSize, want);
    if totalSize / want <= MAX_SLICES {
      SlicesWithin(totalSize, want);
    } else {
      RescaleIsBest(totalSize, want);
      SlicesWithin(totalSize, want);
    }
  }

  /** The rounding up to a multiple of 4. */
  lemma RoundedUp(n: int)
    requires n > 0
    ensures var r := ((n + 3) / 4) * 4;
            r % 4 == 0 && n <= r && forall m :: m % 4 == 0 && m >= n ==> r <= m
  {
    DivBounds(n + 3, 4);
    forall m | m % 4 == 0 && m >= n ensures ((n + 3) / 4) * 4 <= m {
      assert m == (m / 4) * 4;
    }
  }

  /** The least size that holds the data in 32768 slices. */
  lemma ScaledFits(totalSize: nat, m: int)
    requires m > 0
    ensures totalSize <= MAX_SLICES * m <==> (totalSize + MAX_SLICES - 1) / MAX_SLICES <= m
  {
    DivBounds(totalSize + MAX_SLICES - 1, MAX_SLICES);
  }

  /** A rescaled size is the smallest multiple of 4 that keeps the data within the ceiling. */
  lemma RescaleIsBest(totalSize: nat, want: int)
    requires totalSize > 0 && want > 0 && totalSize / want > MAX_SLICES
    ensures var size := FitBlockSize(totalSize, want);
            && size > 0 && size % 4 == 0 && Slices(totalSize, size) <= MAX_SLICES
            && forall m :: m > 0 && m % 4 == 0 && Slices(totalSize, m) <= MAX_SLICES ==> size <= m
  {
    hide Slices;
    var size := FitBlockSize(totalSize, want);
    var scaled := (totalSize + MAX_SLICES - 1) / MAX_SLICES;
    RoundedUp(scaled);
    SlicesWithin(totalSize, size);
    ScaledFits(totalSize, size);
    forall m | m > 0 && m % 4 == 0 && Slices(totalSize, m) <= MAX_SLICES ensures size <= m {
      SlicesWithin(totalSize, m);
      ScaledFits(totalSize, m);
    }
  }

  /** One article-sized slice short: 21.9 GiB and one byte keeps 700 KiB slices and needs 32769 of them. */
  lemma CeilingMissedByOneByte()
    ensures var want := 700 * 1024;
            var totalSize := 32768 * want + 1;
            FitBlockSize(totalSize, want) == want && Slices(totalSize, want) == 32769
  {
  }

  /**
   Rescaling is no safeguard either: for every wanted size there is a release of two files that it
   rescales to fill the ceiling exactly, and that needs one slice more.
   */
  lemma TwoFilesExceed(want: int) returns (sizes: seq<nat>)
    requires want > 0
    ensures |sizes| == 2 && sizes[0] > 0 && sizes[1] > 0
    ensures var size := FitBlockSize(TotalSize(sizes), want);
            && TotalSize(sizes) / want > 32768 && Slices(TotalSize(sizes), size) == 32768
            && FileSlices(sizes, size) == 32769
  {
    var size := 4 * want;
    var total := MAX_SLICES * size;
    sizes := [1, total - 1];
    TotalOfTwo(1, total - 1);
    assert total == (4 * MAX_SLICES) * want;
    DivExact(4 * MAX_SLICES, want, 0);
    DivExact(size, MAX_SLICES, MAX_SLICES - 1);
    DivExact(want, 4, 3);
    assert FitBlockSize(total, want) == size;
    DivExact(MAX_SLICES, size, size - 1);
    DivExact(MAX_SLICES, size, size - 2);
    DivExact(1, size, 0);
    FilesOfTwo(1, total - 1, size);
  }

  lemma DivExact(q: nat, m: int, r: int)
    requires m > 0 && 0 <= r < m
    ensures (q * m + r) / m == q
  {
    DivBounds(q * m + r, m);
    var d := (q * m + r) / m;
    assert (d + 1) * m == d * m + m && (q + 1) * m == q * m + m;
    TimesMonotone(d, q, m);
    TimesMonotone(q, d, m);
    TimesMonotone(d + 1, q, m);
    TimesMonotone(q + 1, d, m);
  }

  lemma TotalOfTwo(a: nat, b: nat)
    ensures TotalSize([a, b]) == a + b
  {
    assert [a, b][..1] == [a] && [a][..0] == [];
    assert TotalSize([a]) == a;
  }

  lemma FilesOfTwo(a: nat, b: nat, size: int)
    requires size > 0
    ensures FileSlices([a, b], size) == SlicesOf(a, size) + SlicesOf(b, size)
  {
    assert [a, b][..1] == [a] && [a][..0] == [];
    assert FileSlices([a], size) == SlicesOf(a, size);
  }
}
