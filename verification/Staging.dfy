/**
 Staging for upload: the allowlist, the copy that keeps names, the copy that hides them, and the
 parity audit that counts what arrived.
 */
module Staging {
  import opened Bytes
  import opened Sums
  import opened Text

  // ------------------------------------------------------------- the allowlist

  const MANAGED_DIRS: set<string> := {"_screenshots", "_subtitles"}

  const VIDEO_EXTS: set<string> := {
    ".mkv", ".mp4", ".m4v", ".avi", ".mov", ".wmv", ".flv", ".webm", ".mpg", ".mpeg",
    ".m2ts", ".ts", ".vob", ".iso", ".ogm"
  }
  const AUDIO_EXTS: set<string> := {
    ".flac", ".mp3", ".m4a", ".m4b", ".aac", ".ac3", ".dts", ".wav", ".ogg", ".opus",
    ".alac", ".ape", ".wv", ".mka"
  }
  const SUBTITLE_EXTS: set<string> := {".srt", ".ass", ".ssa", ".sub", ".idx", ".vtt", ".sup", ".smi"}
  const IMAGE_EXTS: set<string> := {".jpg", ".jpeg", ".png", ".webp", ".bmp", ".gif"}
  const PACKAGING_EXTS: set<string> := {
    ".nfo", ".sfv", ".md5", ".txt", ".cue", ".par2", ".rar", ".zip", ".7z"
  }

  predicate IsContentExt(ext: string) {
    ext in VIDEO_EXTS || ext in AUDIO_EXTS || ext in SUBTITLE_EXTS || ext in IMAGE_EXTS || ext in PACKAGING_EXTS
  }

  /** The allowlist, in one piece. */
  lemma AllowlistIs(ext: string)
    ensures IsContentExt(ext) <==> ext in {
              ".7z", ".aac", ".ac3", ".alac", ".ape", ".ass", ".avi", ".bmp", ".cue", ".dts", ".flac", ".flv", ".gif",
              ".idx", ".iso", ".jpeg", ".jpg", ".m2ts", ".m4a", ".m4b", ".m4v", ".md5", ".mka", ".mkv", ".mov",
              ".mp3", ".mp4", ".mpeg", ".mpg", ".nfo", ".ogg", ".ogm", ".opus", ".par2", ".png", ".rar", ".sfv",
              ".smi", ".srt", ".ssa", ".sub", ".sup", ".ts", ".txt", ".vob", ".vtt", ".wav", ".webm", ".webp",
              ".wmv", ".wv", ".zip"}
  {
  }

  predicate IsSplitArchivePart(ext: string) {
    |ext| == 4 &&
    ((IsDigitChar(ext[1]) && IsDigitChar(ext[2]) && IsDigitChar(ext[3])) || (ext[1] == 'r' && IsDigitChar(ext[2]) && IsDigitChar(ext[3])))
  }

  predicate IsAgentManagedFile(name: string) {
    ".torrent." <= name
  }

  predicate IsUploadableContent(name: string) {
    !IsAgentManagedFile(name) && (IsContentExt(ToLower(Ext(name))) || IsSplitArchivePart(ToLower(Ext(name))))
  }

  /** Every allowlisted extension has a letter, so digits alone are never one. */
  predicate HasLetter(ext: string) {
    |ext| >= 3 && (!IsDigitChar(ext[1]) || !IsDigitChar(ext[2]))
  }

  lemma VideoHasLetter(ext: string)
    requires ext in VIDEO_EXTS
    ensures HasLetter(ext)
  {
  }

  lemma AudioHasLetter(ext: string)
    requires ext in AUDIO_EXTS
    ensures HasLetter(ext)
  {
  }

  lemma OthersHaveLetter(ext: string)
    requires ext in SUBTITLE_EXTS || ext in IMAGE_EXTS || ext in PACKAGING_EXTS
    ensures HasLetter(ext)
  {
  }

  lemma ContentHasLetter(ext: string)
    requires IsContentExt(ext)
    ensures HasLetter(ext)
  {
    if ext in VIDEO_EXTS {
      VideoHasLetter(ext);
    } else if ext in AUDIO_EXTS {
      AudioHasLetter(ext);
    } else {
      OthersHaveLetter(ext);
    }
  }

  /**
   A crash dump carries the process id as its extension. The list is meant to keep every dump out; it
   does, except for process ids of three digits, which pass as parts of a split archive.
   */
  lemma CoreDumpsExact(pid: string)
    requires pid != "" && forall i :: 0 <= i < |pid| ==> IsDigitChar(pid[i])
    ensures IsUploadableContent("core" + ("." + pid)) <==> |pid| == 3
    ensures !IsUploadableContent("core")
  {
    hide IsContentExt;
    NoDotNoExt("core");
    assert ToLower("") == "";
    if IsContentExt("") {
      ContentHasLetter("");
    }
    NoDotNoExt(pid);
    ExtOf("core", pid);
    var low := ToLower("." + pid);
    assert forall i :: 1 <= i < |low| ==> low[i] == pid[i - 1];
    if IsContentExt(low) {
      ContentHasLetter(low);
    }
    assert ("core" + ("." + pid))[0] == 'c';
  }

  /** The bookkeeping of the torrent client is never uploaded, whatever its extension. */
  lemma BookkeepingExactly(name: string)
    ensures IsAgentManagedFile(name) <==> exists rest: string :: name == ".torrent." + rest
    ensures IsAgentManagedFile(name) ==> !IsUploadableContent(name)
  {
    if IsAgentManagedFile(name) {
      assert name == ".torrent." + name[9..];
    }
  }

  lemma NoVolumeListed(ext: string)
    requires IsContentExt(ext) && |ext| == 4
    ensures !IsDigitChar(ext[2]) || !IsDigitChar(ext[3])
  {
    AllowlistIs(ext);
  }

  /**
   Extensions of three characters: those of the list, and volumes of a split archive, which are a digit
   or an `r` and two digits; the list has none of these.
   */
  lemma VolumesExactly(stem: string, a: char, b: char, c: char)
    requires a != '.' && b != '.' && c != '.'
    requires !(exists rest: string :: stem + ['.', a, b, c] == ".torrent." + rest)
    ensures var volume := '0' <= b <= '9' && '0' <= c <= '9' && ('0' <= a <= '9' || a == 'r' || a == 'R');
            var listed := IsContentExt(ToLower(['.', a, b, c]));
            (IsUploadableContent(stem + ['.', a, b, c]) <==> listed || volume) && !(listed && volume)
  {
    hide IsContentExt;
    var name, tail := stem + ['.', a, b, c], [a, b, c];
    assert name == stem + ("." + tail);
    BookkeepingExactly(name);
    NoDotNoExt(tail);
    ExtOf(stem, tail);
    assert "." + tail == ['.', a, b, c];
    var low := ToLower("." + tail);
    if IsContentExt(low) {
      NoVolumeListed(low);
    }
  }

  // ------------------------------------------------------------- trees

  /** A file's place below the root, directory by directory. */
  type Path = p: seq<string> | |p| >= 1 witness ["f"]

  type Tree = map<Path, seq<byte>>

  function NameOf(p: Path): string {
    p[|p| - 1]
  }

  /** Whether the walk from a root of this name comes to the file, and the filter lets it through. */
  predicate Eligible(root: string, p: Path, content: seq<byte>) {
    && root !in MANAGED_DIRS
    && (forall i :: 0 <= i < |p| - 1 ==> p[i] !in MANAGED_DIRS)
    && content != [] && IsUploadableContent(NameOf(p))
  }

  /** The part of a tree the upload stage sees. */
  function Visible(root: string, t: Tree): Tree {
    map p | p in t && Eligible(root, p, t[p]) :: t[p]
  }

  /**
   What is to be staged of a directory: the files that are not empty, have an allowed name, and lie in
   no extraction directory of the agent's own.
   */
  lemma VisibleExactly(root: string, t: Tree, p: Path)
    ensures p in Visible(root, t) <==>
              && p in t && |t[p]| >= 1 && IsUploadableContent(p[|p| - 1])
              && root != "_screenshots" && root != "_subtitles"
              && forall i :: 0 <= i < |p| - 1 ==> p[i] != "_screenshots" && p[i] != "_subtitles"
    ensures p in Visible(root, t) ==> Visible(root, t)[p] == t[p]
  {
  }

  function Sizes(t: Tree): map<Path, int> {
    map p | p in t :: |t[p]|
  }

  datatype Counts = Counts(files: int, bytes: int)

  ghost function CountsOf(t: Tree): Counts {
    Counts(|t|, SumMap(Sizes(t)))
  }

  lemma BytesPut(t: Tree, p: Path, content: seq<byte>)
    ensures SumMap(Sizes(t[p := content])) == SumMap(Sizes(t)) - (if p in t then |t[p]| else 0) + |content|
  {
    assert Sizes(t[p := content]) == Sizes(t)[p := |content|];
    SumMapPut(Sizes(t), p, |content|);
  }

  lemma FilesPut(t: Tree, p: Path, content: seq<byte>)
    ensures |t[p := content]| == |t| + (if p in t then 0 else 1)
  {
    var t' := t[p := content];
    assert t'.Keys == t.Keys + {p};
    assert |t.Keys| == |t| && |t'.Keys| == |t'|;
  }

  lemma CountsPut(t: Tree, p: Path, content: seq<byte>)
    ensures CountsOf(t[p := content]).bytes
         == CountsOf(t).bytes - (if p in t then |t[p]| else 0) + |content|
    ensures CountsOf(t[p := content]).files == CountsOf(t).files + (if p in t then 0 else 1)
  {
    hide Sizes, SumMap;
    BytesPut(t, p, content);
    FilesPut(t, p, content);
  }

  /** A walk's list of a tree's files: each once. */
  ghost predicate Lists(listing: seq<Path>, t: Tree) {
    && (forall p :: p in t <==> p in listing)
    && (forall i, k :: 0 <= i < k < |listing| ==> listing[i] != listing[k])
  }

  /** The files among the first n of the listing. */
  function Upto(t: Tree, listing: seq<Path>, n: nat): Tree
    requires n <= |listing|
  {
    map p | p in t && p in listing[..n] :: t[p]
  }

  lemma UptoNext(t: Tree, listing: seq<Path>, n: nat)
    requires Lists(listing, t) && n < |listing|
    ensures listing[n] in t && listing[n] !in Upto(t, listing, n)
    ensures Upto(t, listing, n + 1) == Upto(t, listing, n)[listing[n] := t[listing[n]]]
  {
    assert listing[..n + 1] == listing[..n] + [listing[n]];
  }

  lemma VisiblePut(root: string, t: Tree, p: Path, content: seq<byte>)
    requires p !in t
    ensures Visible(root, t[p := content])
         == if Eligible(root, p, content) then Visible(root, t)[p := content] else Visible(root, t)
  {
  }

  lemma UptoAll(t: Tree, listing: seq<Path>)
    requires Lists(listing, t)
    ensures Upto(t, listing, 0) == map[]
    ensures Upto(t, listing, |listing|) == t
  {
    assert listing[..|listing|] == listing;
  }

  /** countStagedFiles: the walk that tallies what the filter lets through. */
  method CountStagedFiles(root: string, t: Tree, listing: seq<Path>) returns (c: Counts)
    requires Lists(listing, t)
    ensures c == CountsOf(Visible(root, t))
  {
    hide Eligible, Lists, Upto, CountsOf;
    c := Counts(0, 0);
    UptoAll(t, listing);
    NothingVisible(root);
    for n := 0 to |listing|
      invariant c == CountsOf(Visible(root, Upto(t, listing, n)))
    {
      var p := listing[n];
      UptoNext(t, listing, n);
      VisiblePut(root, Upto(t, listing, n), p, t[p]);
      CountsPut(Visible(root, Upto(t, listing, n)), p, t[p]);
      CountsFields(Visible(root, Upto(t, listing, n + 1)));
      CountsFields(Visible(root, Upto(t, listing, n)));
      if Eligible(root, p, t[p]) {
        c := Counts(c.files + 1, c.bytes + |t[p]|);
      }
    }
  }

  lemma CountsFields(t: Tree)
    ensures CountsOf(t) == Counts(CountsOf(t).files, CountsOf(t).bytes)
  {
  }

  lemma NothingVisible(root: string)
    ensures CountsOf(Visible(root, map[])) == Counts(0, 0)
  {
    assert Visible(root, map[]) == map[];
    assert Sizes(map[]) == map[];
  }

  ghost predicate AuditPasses(dstRoot: string, dst: Tree, want: Counts) {
    CountsOf(Visible(dstRoot, dst)) == want
  }

  // ------------------------------------------------------------- what is to be staged

  /** A download is one file or a directory. */
  datatype Source = Single(name: string, content: seq<byte>) | Folder(root: string, tree: Tree)

  /** What of it may be uploaded. */
  function Staged(src: Source): Tree {
    match src
    case Single(name, content) =>
      if content != [] && IsUploadableContent(name) then map[[name] := content] else map[]
    case Folder(root, tree) => Visible(root, tree)
  }

  // ------------------------------------------------------------- copies that keep names

  /** The root directory itself is not one of the agent's own. */
  predicate PlainRoot(root: string) {
    root !in MANAGED_DIRS
  }

  lemma VisibleTwice(srcRoot: string, dstRoot: string, src: Tree)
    requires PlainRoot(dstRoot)
    ensures Visible(dstRoot, Visible(srcRoot, src)) == Visible(srcRoot, src)
  {
  }

  /** The walk over a directory: copy what is eligible, count it, and compare with what arrived. */
  method CopyDirectory(srcRoot: string, src: Tree, listing: seq<Path>, dstRoot: string, dst: Tree, fails: set<Path>)
    returns (ok: bool, dst': Tree)
    requires Lists(listing, src)
    ensures ok ==> forall p :: p in Visible(srcRoot, src) ==> p !in fails && p in dst' && dst'[p] == src[p]
    ensures ok ==> AuditPasses(dstRoot, dst', CountsOf(Visible(srcRoot, src)))
    ensures dst == map[] && fails == {} ==> (ok <==> PlainRoot(dstRoot) || Visible(srcRoot, src) == map[])
    ensures dst == map[] && ok ==> dst' == Visible(srcRoot, src)
  {
    hide Eligible, Lists, Upto, CountsOf;
    dst' := dst;
    var want := Counts(0, 0);
    UptoAll(src, listing);
    NothingVisible(srcRoot);
    NothingAtAll(srcRoot);
    for n := 0 to |listing|
      invariant want == CountsOf(Visible(srcRoot, Upto(src, listing, n)))
      invariant dst' == dst + Visible(srcRoot, Upto(src, listing, n))
      invariant forall p :: p in Visible(srcRoot, Upto(src, listing, n)) ==> p !in fails
    {
      var p := listing[n];
      UptoNext(src, listing, n);
      VisiblePut(srcRoot, Upto(src, listing, n), p, src[p]);
      CountsPut(Visible(srcRoot, Upto(src, listing, n)), p, src[p]);
      CountsFields(Visible(srcRoot, Upto(src, listing, n + 1)));
      CountsFields(Visible(srcRoot, Upto(src, listing, n)));
      if Eligible(srcRoot, p, src[p]) {
        if p in fails {
          return false, dst';
        }
        dst' := dst'[p := src[p]];
        want := Counts(want.files + 1, want.bytes + |src[p]|);
      }
    }
    if PlainRoot(dstRoot) {
      VisibleTwice(srcRoot, dstRoot, src);
    } else {
      ManagedRootHidesAll(dstRoot, dst');
      EmptyCounts(Visible(srcRoot, src));
    }
    assert dst == map[] ==> dst' == Visible(srcRoot, src);
    var names := ListTree(dst');
    var got := CountStagedFiles(dstRoot, dst', names);
    ok := got == want;
  }

  /**
   CopyFiles. `fails` are the files whose copy reports an error. A single file is copied without an
   audit; a directory is audited, and into an empty destination that the audit can see a faithful
   copy always succeeds. On success everything to be staged has arrived, and an empty destination
   holds exactly that, path by path and byte by byte.
   */
  method CopyFiles(src: Source, listing: seq<Path>, dstRoot: string, dst: Tree, fails: set<Path>)
    returns (ok: bool, dst': Tree)
    requires src.Folder? ==> Lists(listing, src.tree)
    ensures ok ==> forall p :: p in Staged(src) ==> p !in fails && p in dst' && dst'[p] == Staged(src)[p]
    ensures ok && src.Folder? ==> AuditPasses(dstRoot, dst', CountsOf(Staged(src)))
    ensures dst == map[] && fails == {} ==> (ok <==> src.Single? || PlainRoot(dstRoot) || Staged(src) == map[])
    ensures dst == map[] && ok ==> dst' == Staged(src)
    ensures src.Single? && ok ==>
              dst' == if |src.content| >= 1 && IsUploadableContent(src.name) then dst[[src.name] := src.content] else dst
  {
    match src {
      case Single(name, content) =>
        if content == [] || !IsUploadableContent(name) {
          return true, dst;
        }
        if [name] in fails {
          return false, dst;
        }
        return true, dst[[name] := content];
      case Folder(root, tree) =>
        ok, dst' := CopyDirectory(root, tree, listing, dstRoot, dst, fails);
    }
  }

  /** A walk that starts in one of the agent's own directories counts nothing. */
  lemma ManagedRootHidesAll(root: string, t: Tree)
    requires !PlainRoot(root)
    ensures CountsOf(Visible(root, t)) == Counts(0, 0)
  {
    assert Visible(root, t) == map[];
    NothingVisible(root);
    NothingAtAll(root);
  }

  lemma EmptyCounts(t: Tree)
    ensures CountsOf(t) == Counts(0, 0) <==> t == map[]
  {
    assert Sizes(map[]) == map[];
  }

  lemma NothingAtAll(root: string)
    ensures Visible(root, map[]) == map[]
  {
  }

  method ListTree(t: Tree) returns (listing: seq<Path>)
    ensures Lists(listing, t)
  {
    listing := [];
    var rest := t.Keys;
    while rest != {}
      invariant rest <= t.Keys
      invariant forall p :: p in listing <==> p in t && p !in rest
      invariant forall i, k :: 0 <= i < k < |listing| ==> listing[i] != listing[k]
      decreases |rest|
    {
      var p :| p in rest;
      rest := rest - {p};
      listing := listing + [p];
    }
  }

  lemma SubmapSmaller(small: Tree, big: Tree)
    requires small.Keys <= big.Keys && forall p :: p in small ==> small[p] == big[p]
    ensures |small| <= |big|
    ensures |small| == |big| ==> small == big
  {
    var gone := big.Keys - small.Keys;
    assert big.Keys == small.Keys + gone && |big.Keys| == |small.Keys| + |gone|;
    assert |big.Keys| == |big| && |small.Keys| == |small|;
    if gone == {} {
      assert small.Keys == big.Keys;
    }
  }

  /**
   A silent drop is always caught: when the destination has some of the staged files and nothing
   else, the audit passes exactly when it has all of them.
   */
  lemma AuditCatchesLoss(srcRoot: string, src: Tree, dstRoot: string, dst: Tree)
    requires PlainRoot(dstRoot)
    requires forall p :: p in dst ==> p in Visible(srcRoot, src) && dst[p] == src[p]
    ensures AuditPasses(dstRoot, dst, CountsOf(Visible(srcRoot, src))) <==> dst == Visible(srcRoot, src)
  {
    hide IsUploadableContent;
    var staged := Visible(srcRoot, src);
    assert Visible(dstRoot, dst) == dst;
    SubmapSmaller(dst, staged);
  }

  // ------------------------------------------------------------- copies that hide names

  /** A generated token: hexadecimal, so without a dot. */
  predicate IsToken(s: string) {
    s != "" && forall i :: 0 <= i < |s| ==> s[i] != '.'
  }

  function Hidden(token: string, p: Path): string {
    token + Ext(NameOf(p))
  }

  /** A hidden name keeps its extension and stays uploadable. */
  lemma HiddenKeepsExtension(token: string, p: Path)
    requires IsToken(token)
    ensures Ext(Hidden(token, p)) == Ext(NameOf(p))
    ensures IsUploadableContent(NameOf(p)) ==> IsUploadableContent(Hidden(token, p))
  {
    var ext := Ext(NameOf(p));
    ExtIsSuffix(NameOf(p));
    if ext == "" {
      assert Hidden(token, p) == token;
      NoDotNoExt(token);
    } else {
      assert ext == "." + ext[1..];
      ExtOf(token, ext[1..]);
    }
    assert Hidden(token, p)[0] == token[0] != '.';
  }

  /** The file names given out so far are all different. */
  ghost predicate Injective(names: map<Path, string>) {
    forall p, q :: p in names && q in names && p != q ==> names[p] != names[q]
  }

  /** The destination holds exactly the renamed files. */
  ghost predicate Renamed(src: Tree, names: map<Path, string>, dst: Tree) {
    && (forall p :: p in names ==> p in src && [names[p]] in dst)
    && (forall d :: d in dst ==> exists p :: p in names && d == [names[p]] && dst[d] == src[p])
  }

  /** Every source file's bytes are found under its new name. */
  ghost predicate Faithful(src: Tree, names: map<Path, string>, dst: Tree) {
    forall p :: p in names ==> p in src && [names[p]] in dst && dst[[names[p]]] == src[p]
  }

  /** The names the files of a tree get. */
  function HiddenNames(t: Tree, tokens: map<Path, string>): map<Path, string>
    requires t.Keys <= tokens.Keys
  {
    map p | p in t :: Hidden(tokens[p], p)
  }

  /**
   The walk over a directory into an empty destination: every visible file gets a flat name made of
   its token and its own extension. It succeeds exactly when no copy fails, the names are all
   different, and the audit can see the destination; a name given out twice overwrites a file.
   */
  method ObfuscateDirectory(srcRoot: string, src: Tree, listing: seq<Path>, dstRoot: string,
                            tokens: map<Path, string>, fails: set<Path>)
    returns (ok: bool, dst: Tree)
    requires Lists(listing, src) && src.Keys <= tokens.Keys
    requires forall p :: p in src ==> IsToken(tokens[p])
    ensures var names := HiddenNames(Visible(srcRoot, src), tokens);
            && (ok <==> Visible(srcRoot, src).Keys !! fails && Injective(names) && (PlainRoot(dstRoot) || names == map[]))
            && (ok ==> Renamed(src, names, dst) && |dst| == |Visible(srcRoot, src)| && Faithful(src, names, dst))
  {
    hide Lists, Upto, CountsOf, IsUploadableContent, Ext, IsToken, Visible, Renamed, Injective, Hidden, Eligible;
    dst := map[];
    ghost var names: map<Path, string> := map[];
    var want := Counts(0, 0);
    UptoAll(src, listing);
    NothingVisible(srcRoot);
    NothingAtAll(srcRoot);
    NothingCounted();
    NothingRenamed(src);
    VisibleWithin(srcRoot, src);
    for n := 0 to |listing|
      invariant want == CountsOf(Visible(srcRoot, Upto(src, listing, n)))
      invariant names.Keys == Visible(srcRoot, Upto(src, listing, n)).Keys
      invariant forall p :: p in names ==> p in src && p !in fails && names[p] == Hidden(tokens[p], p)
      invariant Renamed(src, names, dst)
      invariant PlainRoot(dstRoot) ==> forall d :: d in dst ==> Eligible(dstRoot, d, dst[d])
      invariant Injective(names) ==> CountsOf(dst) == want && Faithful(src, names, dst)
      invariant CountsOf(dst).files <= want.files
      invariant !Injective(names) ==> CountsOf(dst).files < want.files
    {
      var p := listing[n];
      UptoNext(src, listing, n);
      VisiblePut(srcRoot, Upto(src, listing, n), p, src[p]);
      VisibleWithin(srcRoot, Upto(src, listing, n));
      CountsPut(Visible(srcRoot, Upto(src, listing, n)), p, src[p]);
      CountsFields(Visible(srcRoot, Upto(src, listing, n + 1)));
      CountsFields(Visible(srcRoot, Upto(src, listing, n)));
      if Eligible(srcRoot, p, src[p]) {
        if p in fails {
          IsVisible(srcRoot, src, p);
          return false, dst;
        }
        var name := Hidden(tokens[p], p);
        if PlainRoot(dstRoot) {
          HiddenEligible(srcRoot, p, src[p], dstRoot, tokens[p]);
        }
        CountsPut(dst, [name], src[p]);
        CountsFields(dst);
        CountsFields(dst[[name] := src[p]]);
        AddName(src, names, dst, p, name);
        dst := dst[[name] := src[p]];
        names := names[p := name];
        want := Counts(want.files + 1, want.bytes + |src[p]|);
      }
    }
    assert names == HiddenNames(Visible(srcRoot, src), tokens);
    if PlainRoot(dstRoot) {
      AllVisible(dstRoot, dst);
    } else {
      ManagedRootHidesAll(dstRoot, dst);
      EmptyCounts(Visible(srcRoot, src));
      assert names == map[] <==> names.Keys == {};
    }
    var listed := ListTree(dst);
    var got := CountStagedFiles(dstRoot, dst, listed);
    ok := got == want;
    FilesAre(dst);
    FilesAre(Visible(srcRoot, src));
  }

  lemma RenamedVisible(root: string, t: Tree, names: map<Path, string>, dst: Tree)
    requires names.Keys == Visible(root, t).Keys
    ensures Renamed(t, names, dst) ==> Renamed(Visible(root, t), names, dst)
    ensures Faithful(t, names, dst) ==> Faithful(Visible(root, t), names, dst)
  {
    hide Eligible;
  }

  lemma OneRenamed(name: string, content: seq<byte>, hidden: string)
    ensures var src: Tree := map[[name] := content];
            var names: map<Path, string> := map[[name] := hidden];
            var dst: Tree := map[[hidden] := content];
            Injective(names) && Renamed(src, names, dst) && |dst| == |src| == 1 && Faithful(src, names, dst)
  {
    var src: Tree := map[[name] := content];
    var names: map<Path, string> := map[[name] := hidden];
    assert [name] in names && [names[[name]]] == [hidden];
  }

  lemma IsVisible(root: string, t: Tree, p: Path)
    requires p in t && Eligible(root, p, t[p])
    ensures p in Visible(root, t)
  {
  }

  /**
   ObfuscateFiles into an empty destination. On success the destination is a renaming of what was to
   be staged: one file for each, same bytes, same extension.
   */
  method ObfuscateFiles(src: Source, listing: seq<Path>, dstRoot: string, tokens: map<Path, string>, fails: set<Path>)
    returns (ok: bool, dst: Tree)
    requires src.Folder? ==> Lists(listing, src.tree)
    requires Staged(src).Keys <= tokens.Keys && (src.Folder? ==> src.tree.Keys <= tokens.Keys)
    requires forall p :: p in tokens ==> IsToken(tokens[p])
    ensures var names := HiddenNames(Staged(src), tokens);
            && (ok <==> Staged(src).Keys !! fails && Injective(names)
                        && (src.Single? || PlainRoot(dstRoot) || names == map[]))
            && (ok ==> Renamed(Staged(src), names, dst) && |dst| == |Staged(src)| && Faithful(Staged(src), names, dst))
            && forall p :: p in names ==> Ext(names[p]) == Ext(NameOf(p))
  {
    hide IsUploadableContent, Ext, IsToken, Hidden, Visible, Lists, Renamed, Faithful, Injective;
    forall p | p in Staged(src) ensures Ext(Hidden(tokens[p], p)) == Ext(NameOf(p)) {
      HiddenKeepsExtension(tokens[p], p);
    }
    match src {
      case Single(name, content) =>
        dst := map[];
        NothingRenamed(map[]);
        if content == [] || !IsUploadableContent(name) {
          return true, dst;
        }
        OneRenamed(name, content, Hidden(tokens[[name]], [name]));
        assert HiddenNames(Staged(src), tokens) == map[[name] := Hidden(tokens[[name]], [name])];
        if [name] in fails {
          return false, dst;
        }
        dst := dst[[Hidden(tokens[[name]], [name])] := content];
        ok := true;
      case Folder(root, tree) =>
        ok, dst := ObfuscateDirectory(root, tree, listing, dstRoot, tokens, fails);
        RenamedVisible(root, tree, HiddenNames(Visible(root, tree), tokens), dst);
    }
  }

  lemma AllVisible(root: string, t: Tree)
    requires forall p :: p in t ==> Eligible(root, p, t[p])
    ensures Visible(root, t) == t
  {
    hide Eligible;
  }

  lemma VisibleWithin(root: string, t: Tree)
    ensures Visible(root, t).Keys <= t.Keys
  {
    hide Eligible;
  }

  lemma HiddenEligible(srcRoot: string, p: Path, content: seq<byte>, dstRoot: string, token: string)
    requires Eligible(srcRoot, p, content) && PlainRoot(dstRoot) && IsToken(token)
    ensures Eligible(dstRoot, [Hidden(token, p)], content)
  {
    hide IsUploadableContent, Hidden;
    HiddenKeepsExtension(token, p);
  }

  lemma NothingRenamed(src: Tree)
    ensures Renamed(src, map[], map[]) && Injective(map[]) && Faithful(src, map[], map[])
  {
  }

  lemma NothingCounted()
    ensures CountsOf(map[]) == Counts(0, 0)
  {
    NothingVisible("");
    NothingAtAll("");
  }

  lemma FilesAre(t: Tree)
    ensures CountsOf(t).files == |t|
  {
  }

  /** Giving out one more name: it was taken already exactly when the destination has it. */
  lemma AddName(src: Tree, names: map<Path, string>, dst: Tree, p: Path, name: string)
    requires Renamed(src, names, dst) && p !in names && p in src
    ensures Renamed(src, names[p := name], dst[[name] := src[p]])
    ensures [name] !in dst ==> (Injective(names[p := name]) <==> Injective(names))
    ensures [name] in dst ==> !Injective(names[p := name])
    ensures [name] !in dst && Faithful(src, names, dst) ==> Faithful(src, names[p := name], dst[[name] := src[p]])
    ensures !Injective(names) ==> !Injective(names[p := name])
  {
    StillRenamed(src, names, dst, p, name);
    if [name] in dst {
      var q :| q in names && [name] == [names[q]];
      SameName(names, p, name, q);
    } else {
      forall q | q in names ensures names[q] != name {
        assert [names[q]] in dst;
      }
    }
    StillNotInjective(names, p, name);
  }

  lemma SameName(names: map<Path, string>, p: Path, name: string, q: Path)
    requires p !in names && q in names && [name] == [names[q]]
    ensures !Injective(names[p := name])
  {
    assert [names[q]][0] == name;
    assert names[p := name][q] == names[p := name][p];
  }

  lemma StillNotInjective(names: map<Path, string>, p: Path, name: string)
    requires p !in names
    ensures !Injective(names) ==> !Injective(names[p := name])
  {
    if Injective(names[p := name]) {
      forall a, b | a in names && b in names && a != b ensures names[a] != names[b] {
        assert names[p := name][a] != names[p := name][b];
      }
    }
  }

  lemma StillRenamed(src: Tree, names: map<Path, string>, dst: Tree, p: Path, name: string)
    requires Renamed(src, names, dst) && p !in names && p in src
    ensures Renamed(src, names[p := name], dst[[name] := src[p]])
  {
    var names', dst' := names[p := name], dst[[name] := src[p]];
    forall d | d in dst' ensures exists q :: q in names' && d == [names'[q]] && dst'[d] == src[q] {
      if d == [name] {
        assert p in names' && d == [names'[p]] && dst'[d] == src[p];
      } else {
        var q :| q in names && d == [names[q]] && dst[d] == src[q];
        assert q in names' && names'[q] == names[q];
      }
    }
  }
}
