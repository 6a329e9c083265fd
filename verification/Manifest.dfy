/**
 The upload manifest: the feature videos of a directory, the diff of two manifests, and the audit
 that refuses an upload with fewer videos than its source.
 */
module Manifest {
  import Staging
  import opened Text
  import opened Wrappers

  const MIN_VIDEO_BYTES := 1048576

  const VIDEO_EXTS: set<string> := {".mkv", ".mp4", ".avi", ".m2ts", ".ts", ".mov", ".wmv", ".webm"}

  /** A file's path below the directory walked, and its size. */
  datatype Entry = Entry(relPath: string, size: int)

  function PathOf(e: Entry): string {
    e.relPath
  }

  /** filepath.Base of a path that does not end in a slash. */
  function Base(path: string): string
    decreases |path|
  {
    if '/' in path then Base(path[1..]) else path
  }

  predicate IsFeature(e: Entry) {
    e.size >= MIN_VIDEO_BYTES && ToLower(Ext(Base(e.relPath))) in VIDEO_EXTS
  }

  lemma BaseStep(path: string)
    ensures Base(path) == if '/' in path then Base(path[1..]) else path
    ensures '/' in path ==> path == [path[0]] + path[1..] && (path[0] == '/' || '/' in path[1..])
  {
  }

  /** The base is what follows the last slash. */
  lemma {:induction false} BaseParts(path: string) returns (dir: string)
    ensures path == dir + Base(path) && '/' !in Base(path)
    ensures dir == "" || dir[|dir| - 1] == '/'
    decreases |path|
  {
    hide Base;
    BaseStep(path);
    if '/' in path {
      var rest := BaseParts(path[1..]);
      dir := [path[0]] + rest;
      assert path == dir + Base(path);
    } else {
      dir := "";
    }
  }

  /** A feature video: a MiB or more, of one of these extensions, in whatever case and directory. */
  lemma FeaturesExactly(e: Entry)
    ensures IsFeature(e) <==> e.size >= 1024 * 1024 && ToLower(Ext(Base(e.relPath))) in {
              ".avi", ".m2ts", ".mkv", ".mov", ".mp4", ".ts", ".webm", ".wmv"}
  {
  }

  /** No video the audit counts is left out by the allowlist of the stage before it. */
  lemma FeaturesAreUploadable(e: Entry)
    requires IsFeature(e) && !(exists rest: string :: Base(e.relPath) == ".torrent." + rest)
    ensures Staging.IsUploadableContent(Base(e.relPath))
  {
    hide Base;
    Staging.BookkeepingExactly(Base(e.relPath));
    Staging.AllowlistIs(ToLower(Ext(Base(e.relPath))));
  }

  datatype UploadManifest = UploadManifest(
    videoCount: int, videoBytes: int, totalCount: int, totalBytes: int, videoFiles: seq<Entry>)

  function SizeOf(files: seq<Entry>): int {
    if files == [] then 0 else SizeOf(files[..|files| - 1]) + files[|files| - 1].size
  }

  /** The files that satisfy a test, in order. */
  function Kept(files: seq<Entry>, test: Entry -> bool): (r: seq<Entry>)
    ensures |r| <= |files|
  {
    if files == [] then []
    else
      var last := files[|files| - 1];
      Kept(files[..|files| - 1], test) + if test(last) then [last] else []
  }

  lemma NothingKept()
    ensures forall test: Entry -> bool :: Kept([], test) == []
    ensures SizeOf([]) == 0
  {
  }

  lemma KeptNext(files: seq<Entry>, n: nat, test: Entry -> bool)
    requires n < |files|
    ensures Kept(files[..n + 1], test) == Kept(files[..n], test) + if test(files[n]) then [files[n]] else []
    ensures SizeOf(files[..n + 1]) == SizeOf(files[..n]) + files[n].size
  {
    assert files[..n + 1][..n] == files[..n];
  }

  lemma SizeAppend(files: seq<Entry>, e: Entry)
    ensures SizeOf(files + [e]) == SizeOf(files) + e.size
  {
    assert (files + [e])[..|files|] == files;
  }

  lemma {:induction false} SizeIgnoresOrder(a: seq<Entry>, b: seq<Entry>)
    requires multiset(a) == multiset(b)
    ensures SizeOf(a) == SizeOf(b)
    decreases |a|
  {
    hide SizeOf;
    SameMembers(a, b);
    if a == [] {
      assert b == [];
    } else {
      var e, front := a[|a| - 1], a[..|a| - 1];
      assert e in b;
      var k :| 0 <= k < |b| && b[k] == e;
      TakeOut(b, k);
      TakeLast(a);
      SizeIgnoresOrder(front, b[..k] + b[k + 1..]);
    }
  }

  lemma BagWithLast(front: seq<Entry>, e: Entry)
    ensures multiset(front + [e]) == multiset(front) + multiset{e}
  {
  }

  lemma TakeLast(a: seq<Entry>)
    requires a != []
    ensures multiset(a[..|a| - 1]) == multiset(a) - multiset{a[|a| - 1]}
    ensures SizeOf(a) == SizeOf(a[..|a| - 1]) + a[|a| - 1].size
  {
    var front, e := a[..|a| - 1], a[|a| - 1];
    SizeAppend(front, e);
    hide SizeOf;
    assert a == front + [e];
    BagWithLast(front, e);
  }

  lemma TakeOut(b: seq<Entry>, k: nat)
    requires k < |b|
    ensures multiset(b[..k] + b[k + 1..]) == multiset(b) - multiset{b[k]}
    ensures SizeOf(b) == SizeOf(b[..k] + b[k + 1..]) + b[k].size
  {
    hide SizeOf;
    var x, front, back := b[k], b[..k], b[k + 1..];
    assert b == front + ([x] + back);
    SizeAround(front, x, back);
  }

  lemma SizeAround(front: seq<Entry>, x: Entry, back: seq<Entry>)
    ensures SizeOf(front + ([x] + back)) == SizeOf(front + back) + x.size
  {
    SizeConcat(front, back);
    SizeConcat(front, [x] + back);
    SizeConcat([x], back);
    assert [x][..0] == [];
  }

  lemma {:induction false} SizeConcat(a: seq<Entry>, b: seq<Entry>)
    ensures SizeOf(a + b) == SizeOf(a) + SizeOf(b)
    decreases |b|
  {
    if b == [] {
      assert a + b == a;
    } else {
      assert (a + b)[..|a + b| - 1] == a + b[..|b| - 1];
      SizeConcat(a, b[..|b| - 1]);
    }
  }

  /** What ManifestOf promises of a directory holding these readable files. */
  ghost predicate IsManifestOf(m: UploadManifest, files: seq<Entry>) {
    && multiset(m.videoFiles) == multiset(Kept(files, IsFeature))
    && SortedBy(m.videoFiles, PathOf)
    && m.videoCount == |m.videoFiles| && m.videoBytes == SizeOf(m.videoFiles)
    && m.totalCount == |files| && m.totalBytes == SizeOf(files)
  }

  method ManifestOf(files: seq<Entry>) returns (m: UploadManifest)
    ensures IsManifestOf(m, files)
  {
    hide IsFeature, Kept, SizeOf, SortedBy, SortBy;
    m := UploadManifest(0, 0, 0, 0, []);
    NothingKept();
    assert files[..0] == [];
    for n := 0 to |files|
      invariant m.videoFiles == Kept(files[..n], IsFeature)
      invariant m.videoCount == |m.videoFiles| && m.videoBytes == SizeOf(m.videoFiles)
      invariant m.totalCount == n && m.totalBytes == SizeOf(files[..n])
    {
      var e := files[n];
      KeptNext(files, n, IsFeature);
      m := m.(totalCount := m.totalCount + 1, totalBytes := m.totalBytes + e.size);
      if IsFeature(e) {
        SizeAppend(m.videoFiles, e);
        m := m.(videoCount := m.videoCount + 1, videoBytes := m.videoBytes + e.size, videoFiles := m.videoFiles + [e]);
      }
    }
    assert files[..|files|] == files;
    SortResult(m.videoFiles, PathOf);
    SameMembers(SortBy(m.videoFiles, PathOf), m.videoFiles);
    SizeIgnoresOrder(SortBy(m.videoFiles, PathOf), m.videoFiles);
    m := m.(videoFiles := SortBy(m.videoFiles, PathOf));
  }

  // ------------------------------------------------------------- the diff

  /** The last file of that name decides. */
  predicate LastNamed(files: seq<Entry>, i: nat) {
    i < |files| && forall k :: i < k < |files| ==> Base(files[k].relPath) != Base(files[i].relPath)
  }

  /** The last uploaded video of the same name has the same size. */
  predicate Arrived(src: Entry, upload: seq<Entry>) {
    exists i: nat :: i < |upload| && LastNamed(upload, i) && Base(upload[i].relPath) == Base(src.relPath) && upload[i].size == src.size
  }

  predicate Named(base: string, files: seq<Entry>) {
    exists i :: 0 <= i < |files| && Base(files[i].relPath) == base
  }

  datatype ManifestDiff = ManifestDiff(missing: seq<Entry>, extra: seq<Entry>)

  /** The map from names to files, where a later file takes the place of an earlier one. */
  function ByBase(files: seq<Entry>): map<string, Entry> {
    if files == [] then map[]
    else
      var last := files[|files| - 1];
      ByBase(files[..|files| - 1])[Base(last.relPath) := last]
  }

  method IndexByBase(files: seq<Entry>) returns (index: map<string, Entry>)
    ensures index == ByBase(files)
  {
    index := map[];
    for n := 0 to |files|
      invariant index == ByBase(files[..n])
    {
      assert files[..n + 1][..n] == files[..n];
      index := index[Base(files[n].relPath) := files[n]];
    }
    assert files[..|files|] == files;
  }

  /** A name that occurs has a last occurrence. */
  lemma {:induction false} LastOccurrence(base: string, files: seq<Entry>) returns (i: nat)
    requires Named(base, files)
    ensures LastNamed(files, i) && Base(files[i].relPath) == base
    decreases |files|
  {
    hide Base;
    var n := |files| - 1;
    if Base(files[n].relPath) == base {
      i := n;
    } else {
      var k :| 0 <= k < |files| && Base(files[k].relPath) == base;
      assert files[..n][k] == files[k];
      i := LastOccurrence(base, files[..n]);
      assert forall j :: i < j < n ==> files[..n][j] == files[j];
    }
  }

  lemma NamedNext(base: string, front: seq<Entry>, last: Entry)
    ensures Named(base, front + [last]) <==> Named(base, front) || Base(last.relPath) == base
  {
    hide Base;
    var files := front + [last];
    if Named(base, front) {
      var i :| 0 <= i < |front| && Base(front[i].relPath) == base;
      assert Base(files[i].relPath) == base;
    }
    assert files[|front|] == last;
  }

  lemma ArrivedNext(src: Entry, front: seq<Entry>, last: Entry)
    ensures Arrived(src, front + [last])
       <==> if Base(last.relPath) == Base(src.relPath) then last.size == src.size else Arrived(src, front)
  {
    hide Base;
    var files := front + [last];
    if Base(last.relPath) == Base(src.relPath) {
      assert files[|front|] == last && LastNamed(files, |front|);
    } else {
      ArrivedEarlier(src, front, last);
      if Arrived(src, front) {
        var i: nat :| i < |front| && LastNamed(front, i) && Base(front[i].relPath) == Base(src.relPath)
                      && front[i].size == src.size;
        assert LastNamed(files, i);
      }
    }
  }

  lemma ArrivedEarlier(src: Entry, front: seq<Entry>, last: Entry)
    requires Base(last.relPath) != Base(src.relPath)
    ensures Arrived(src, front + [last]) ==> Arrived(src, front)
  {
    hide Base;
    var files := front + [last];
    if Arrived(src, files) {
      var i: nat :| i < |files| && LastNamed(files, i) && Base(files[i].relPath) == Base(src.relPath)
                    && files[i].size == src.size;
      assert forall k :: i < k < |front| ==> files[k] == front[k];
      assert LastNamed(front, i);
    }
  }

  lemma NothingArrived(src: Entry)
    ensures !Named(Base(src.relPath), []) && !Arrived(src, [])
  {
  }

  /** What looking a video up in the map says of it. */
  lemma {:induction false} IndexTells(src: Entry, files: seq<Entry>)
    ensures Base(src.relPath) in ByBase(files) <==> Named(Base(src.relPath), files)
    ensures Arrived(src, files)
       <==> Base(src.relPath) in ByBase(files) && ByBase(files)[Base(src.relPath)].size == src.size
    decreases |files|
  {
    hide Base, Named, Arrived;
    if files == [] {
      NothingArrived(src);
    } else {
      var front, last := files[..|files| - 1], files[|files| - 1];
      assert files == front + [last];
      IndexTells(src, front);
      NamedNext(Base(src.relPath), front, last);
      ArrivedNext(src, front, last);
    }
  }

  function Missing(source: seq<Entry>, upload: seq<Entry>): seq<Entry> {
    Kept(source, (e: Entry) => !Arrived(e, upload))
  }

  function Extra(source: seq<Entry>, upload: seq<Entry>): seq<Entry> {
    Kept(upload, (e: Entry) => !Named(Base(e.relPath), source))
  }

  /** DiffManifests: two maps, where the last file of a name wins, against the map-free definition. */
  method DiffManifests(source: UploadManifest, upload: UploadManifest) returns (d: ManifestDiff)
    ensures d.missing == Missing(source.videoFiles, upload.videoFiles)
    ensures d.extra == Extra(source.videoFiles, upload.videoFiles)
  {
    hide Base, Arrived, Named, Kept, ByBase;
    var uploadByBase := IndexByBase(upload.videoFiles);
    var sourceByBase := IndexByBase(source.videoFiles);
    d := ManifestDiff([], []);
    NothingKept();
    ghost var lost := (e: Entry) => !Arrived(e, upload.videoFiles);
    for n := 0 to |source.videoFiles|
      invariant d == ManifestDiff(Kept(source.videoFiles[..n], lost), [])
    {
      var src := source.videoFiles[n];
      KeptNext(source.videoFiles, n, lost);
      IndexTells(src, upload.videoFiles);
      var base := Base(src.relPath);
      if base !in uploadByBase || uploadByBase[base].size != src.size {
        d := d.(missing := d.missing + [src]);
      }
    }
    assert source.videoFiles[..|source.videoFiles|] == source.videoFiles;
    assert d.missing == Missing(source.videoFiles, upload.videoFiles);
    ghost var fresh' := (e: Entry) => !Named(Base(e.relPath), source.videoFiles);
    for n := 0 to |upload.videoFiles|
      invariant d == ManifestDiff(Missing(source.videoFiles, upload.videoFiles), Kept(upload.videoFiles[..n], fresh'))
    {
      var up := upload.videoFiles[n];
      KeptNext(upload.videoFiles, n, fresh');
      IndexTells(up, source.videoFiles);
      if Base(up.relPath) !in sourceByBase {
        d := d.(extra := d.extra + [up]);
      }
    }
    assert upload.videoFiles[..|upload.videoFiles|] == upload.videoFiles;
  }

  // ------------------------------------------------------------- the audit

  predicate DistinctNames(files: seq<Entry>) {
    forall i, k :: 0 <= i < k < |files| ==> Base(files[i].relPath) != Base(files[k].relPath)
  }

  /** Two source videos share a name but not a size. */
  predicate Conflicting(files: seq<Entry>) {
    exists i, k :: 0 <= i < k < |files| && Base(files[i].relPath) == Base(files[k].relPath) && files[i].size != files[k].size
  }

  function Bases(files: seq<Entry>): (r: set<string>)
    ensures |r| <= |files|
  {
    if files == [] then {} else Bases(files[..|files| - 1]) + {Base(files[|files| - 1].relPath)}
  }

  lemma {:induction false} BasesAre(base: string, files: seq<Entry>)
    ensures base in Bases(files) <==> Named(base, files)
    decreases |files|
  {
    hide Base;
    if files != [] {
      var n := |files| - 1;
      BasesAre(base, files[..n]);
      assert files == files[..n] + [files[n]];
      NamedNext(base, files[..n], files[n]);
    }
  }

  /** Names that the upload has too, enough for every source video that is not missing. */
  ghost predicate Taken(taken: set<string>, source: seq<Entry>, upload: seq<Entry>) {
    && taken <= Bases(upload) && taken <= Bases(source)
    && |taken| + |Missing(source, upload)| == |source|
  }

  /** Source videos of different names that arrived take different names of the upload. */
  lemma {:induction false} ArrivedFit(source: seq<Entry>, upload: seq<Entry>) returns (taken: set<string>)
    requires DistinctNames(source)
    ensures Taken(taken, source, upload)
    decreases |source|
  {
    hide Base, Arrived;
    if source == [] {
      taken := {};
    } else {
      var n := |source| - 1;
      var front, last := source[..n], source[n];
      taken := ArrivedFit(front, upload);
      BasesAre(Base(last.relPath), front);
      if Arrived(last, upload) {
        ArrivedIsNamed(last, upload);
        BasesAre(Base(last.relPath), upload);
        taken := taken + {Base(last.relPath)};
      }
    }
  }

  lemma ArrivedIsNamed(e: Entry, upload: seq<Entry>)
    requires Arrived(e, upload)
    ensures Named(Base(e.relPath), upload)
  {
    hide Base;
  }

  /** With different names in the source, the diff names at least as many videos as the counts differ by. */
  lemma MissingCoversTheGap(source: seq<Entry>, upload: seq<Entry>)
    requires DistinctNames(source)
    ensures |Missing(source, upload)| >= |source| - |upload|
  {
    hide Missing, DistinctNames, Bases;
    var taken := ArrivedFit(source, upload);
    SubsetSize(taken, Bases(upload));
  }

  /** The audit before an upload. */
  method CompareManifest(source: UploadManifest, upload: UploadManifest, encrypted: bool)
    returns (err: Option<ManifestDiff>)
    requires source.videoCount == |source.videoFiles| && upload.videoCount == |upload.videoFiles|
    ensures err.Some? <==> !encrypted && source.videoCount != 0 && upload.videoCount < source.videoCount
    ensures err.Some? ==> err.value == ManifestDiff(Missing(source.videoFiles, upload.videoFiles),
                                                    Extra(source.videoFiles, upload.videoFiles))
    ensures err.Some? && DistinctNames(source.videoFiles) ==>
              |err.value.missing| >= source.videoCount - upload.videoCount
  {
    hide Missing, Extra, DistinctNames;
    if encrypted {
      return None;
    }
    if source.videoCount == 0 {
      return None;
    }
    if upload.videoCount < source.videoCount {
      var d := DiffManifests(source, upload);
      if DistinctNames(source.videoFiles) {
        MissingCoversTheGap(source.videoFiles, upload.videoFiles);
      }
      return Some(d);
    }
    return None;
  }

  lemma {:induction false} KeptHas(files: seq<Entry>, test: Entry -> bool, e: Entry)
    ensures e in Kept(files, test) <==> e in files && test(e)
    decreases |files|
  {
    if files != [] {
      KeptHas(files[..|files| - 1], test, e);
      assert files == files[..|files| - 1] + [files[|files| - 1]];
    }
  }

  lemma ArrivedSize(a: Entry, b: Entry, upload: seq<Entry>)
    requires Base(a.relPath) == Base(b.relPath)
    ensures Arrived(a, upload) && Arrived(b, upload) ==> a.size == b.size
  {
    hide Base;
    IndexTells(a, upload);
    IndexTells(b, upload);
  }

  /** Of two source videos with one name and two sizes, one is always missing. */
  lemma ConflictLeavesOneMissing(source: seq<Entry>, upload: seq<Entry>)
    requires Conflicting(source)
    ensures Missing(source, upload) != []
  {
    hide Base, Kept;
    var i, k :| 0 <= i < k < |source| && Base(source[i].relPath) == Base(source[k].relPath) && source[i].size != source[k].size;
    ArrivedSize(source[i], source[k], upload);
    KeptHas(source, e => !Arrived(e, upload), source[i]);
    KeptHas(source, e => !Arrived(e, upload), source[k]);
  }

  lemma TwinArrives(source: seq<Entry>, i: nat, k: nat, e: Entry)
    requires i < k < |source| && Base(source[i].relPath) == Base(source[k].relPath)
    requires !Conflicting(source) && e in source
    ensures Arrived(e, source[..k] + source[k + 1..])
  {
    hide Base;
    var upload := source[..k] + source[k + 1..];
    var j :| 0 <= j < |source| && source[j] == e;
    var at := if j < k then j else if j == k then i else j - 1;
    assert Base(upload[at].relPath) == Base(e.relPath);
    var last := LastOccurrence(Base(e.relPath), upload);
    var origin := if last < k then last else last + 1;
    assert upload[last] == source[origin];
    assert upload[last].size == e.size;
  }

  /** An upload that lacks one of two equal-named, equal-sized videos: fewer files, and none missing. */
  lemma TwinHidesLoss(source: seq<Entry>) returns (upload: seq<Entry>)
    requires !DistinctNames(source) && !Conflicting(source)
    ensures |upload| == |source| - 1 && multiset(upload) < multiset(source)
    ensures Missing(source, upload) == []
  {
    hide Base, Kept, Arrived, Conflicting;
    var i, k :| 0 <= i < k < |source| && Base(source[i].relPath) == Base(source[k].relPath);
    upload := source[..k] + source[k + 1..];
    TakeOut(source, k);
    forall e | e in source ensures Arrived(e, upload) {
      TwinArrives(source, i, k, e);
    }
    if Missing(source, upload) != [] {
      KeptHas(source, e => !Arrived(e, upload), Missing(source, upload)[0]);
    }
  }

  /** Every upload with fewer videos than the source gets a diff that names one. */
  ghost predicate AlwaysNamesOne(source: seq<Entry>) {
    forall upload: seq<Entry> :: |upload| < |source| ==> Missing(source, upload) != []
  }

  /**
   The error always names a missing video exactly when the source's videos have different names, or
   two of one name differ in size; otherwise some short upload is refused with nothing to name.
   */
  lemma NamesLossExactly(source: seq<Entry>)
    ensures AlwaysNamesOne(source) <==> DistinctNames(source) || Conflicting(source)
  {
    hide Missing, DistinctNames, Conflicting;
    if DistinctNames(source) {
      forall upload: seq<Entry> | |upload| < |source| ensures Missing(source, upload) != [] {
        MissingCoversTheGap(source, upload);
      }
    } else if Conflicting(source) {
      forall upload: seq<Entry> | |upload| < |source| ensures Missing(source, upload) != [] {
        ConflictLeavesOneMissing(source, upload);
      }
    } else {
      var upload := TwinHidesLoss(source);
      assert Missing(source, upload) == [];
    }
  }

  /** When the upload's videos are some of the source's and no others, the audit misses no loss. */
  lemma LossIsCounted(sourceFiles: seq<Entry>, uploadFiles: seq<Entry>, source: UploadManifest, upload: UploadManifest)
    requires IsManifestOf(source, sourceFiles) && IsManifestOf(upload, uploadFiles)
    requires multiset(Kept(uploadFiles, IsFeature)) <= multiset(Kept(sourceFiles, IsFeature))
    ensures upload.videoCount < source.videoCount
       <==> multiset(Kept(uploadFiles, IsFeature)) != multiset(Kept(sourceFiles, IsFeature))
  {
    hide Kept, SortedBy;
    var big, small := multiset(source.videoFiles), multiset(upload.videoFiles);
    assert big == small + (big - small);
    assert |big| == |small| + |big - small|;
    if |big - small| == 0 {
      assert big - small == multiset{};
      assert big == small;
    }
  }
}
