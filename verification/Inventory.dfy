/**
 Inventory reporting: the walk of a root with its filters and its ceiling, the cut into batches, and
 the protocol that closes a generation only on the last batch of a complete walk.
 */
module Inventory {
  import opened Text
  import opened Wrappers

  // ------------------------------------------------------------- the tree on disk

  /**
   `Special` is a symlink or another irregular file; `Unreadable` an entry that the walk gets an error
   for, with what is there all the same.
   */
  datatype Node =
    | File(name: string, size: int)
    | Special(name: string)
    | Unreadable(there: Node)
    | Dir(name: string, kids: seq<Node>)

  datatype Options = Options(minSizeBytes: int, excludeExts: set<string>, maxFiles: int)

  datatype Row = Row(relPath: string, sizeBytes: int)

  function PathOf(r: Row): string {
    r.relPath
  }

  predicate SkippedDir(name: string) {
    "." <= name || name == "@eaDir" || name == "lost+found"
  }

  predicate Passes(opts: Options, name: string, size: int) {
    ToLower(Ext(name)) !in opts.excludeExts && (opts.minSizeBytes > 0 ==> size >= opts.minSizeBytes)
  }

  function Under(prefix: string, name: string): string {
    if prefix == "" then name else prefix + "/" + name
  }

  /** The regular files outside skipped directories in walk order; None for one the filters drop. */
  function Regulars(prefix: string, nodes: seq<Node>, opts: Options): seq<Option<Row>>
    decreases nodes
  {
    if nodes == [] then []
    else RegularsOf(prefix, nodes[0], opts) + Regulars(prefix, nodes[1..], opts)
  }

  function RegularsOf(prefix: string, n: Node, opts: Options): seq<Option<Row>>
    decreases n
  {
    match n
    case File(name, size) => [if Passes(opts, name, size) then Some(Row(Under(prefix, name), size)) else None]
    case Special(_) => []
    case Unreadable(_) => []
    case Dir(name, kids) => if SkippedDir(name) then [] else Regulars(Under(prefix, name), kids, opts)
  }

  /** The rows a complete walk reports. */
  function Rows(regs: seq<Option<Row>>): seq<Row> {
    if regs == [] then []
    else (if regs[0].Some? then [regs[0].value] else []) + Rows(regs[1..])
  }

  // ------------------------------------------------------------- the walk

  predicate AtCeiling(opts: Options, count: nat) {
    opts.maxFiles > 0 && count >= opts.maxFiles
  }

  /** Taking regular files one by one: the ceiling is looked at before each, whatever the filters say. */
  function Collect(files: seq<Row>, regs: seq<Option<Row>>, opts: Options): (seq<Row>, bool)
    decreases |regs|
  {
    if regs == [] then (files, false)
    else if AtCeiling(opts, |files|) then (files, true)
    else Collect(files + (if regs[0].Some? then [regs[0].value] else []), regs[1..], opts)
  }

  lemma {:induction false} CollectAppend(files: seq<Row>, a: seq<Option<Row>>, b: seq<Option<Row>>, opts: Options)
    ensures var first := Collect(files, a, opts);
            Collect(files, a + b, opts)
            == if first.1 then first else Collect(first.0, b, opts)
    decreases |a|
  {
    if a == [] {
      assert a + b == b;
    } else {
      assert (a + b)[1..] == a[1..] + b;
      if !AtCeiling(opts, |files|) {
        CollectAppend(files + (if a[0].Some? then [a[0].value] else []), a[1..], b, opts);
      }
    }
  }

  /** An untruncated collection is everything, a truncated one the first maxFiles rows. */
  lemma {:induction false} CollectResult(files: seq<Row>, regs: seq<Option<Row>>, opts: Options)
    requires opts.maxFiles > 0 ==> |files| <= opts.maxFiles
    ensures var (out, truncated) := Collect(files, regs, opts);
            && (!truncated ==> out == files + Rows(regs))
            && (truncated ==> opts.maxFiles > 0 && |out| == opts.maxFiles && out <= files + Rows(regs))
    decreases |regs|
  {
    if regs != [] && !AtCeiling(opts, |files|) {
      var first := if regs[0].Some? then [regs[0].value] else [];
      assert files + (first + Rows(regs[1..])) == files + first + Rows(regs[1..]);
      CollectResult(files + first, regs[1..], opts);
    }
  }

  /** Some regular file comes after the ceiling was reached, be it one the filters would drop. */
  predicate FileBeyondCeiling(count: nat, regs: seq<Option<Row>>, opts: Options) {
    exists r :: 0 <= r < |regs| && AtCeiling(opts, count + |Rows(regs[..r])|)
  }

  /** A collection is truncated exactly when a regular file comes after the ceiling was reached. */
  lemma {:induction false} CollectTruncates(files: seq<Row>, regs: seq<Option<Row>>, opts: Options)
    ensures Collect(files, regs, opts).1 <==> FileBeyondCeiling(|files|, regs, opts)
    decreases |regs|
  {
    if regs != [] {
      assert regs[..0] == [] && Rows(regs[..0]) == [];
      if !AtCeiling(opts, |files|) {
        var first := if regs[0].Some? then [regs[0].value] else [];
        CollectTruncates(files + first, regs[1..], opts);
        BeyondCeilingNext(|files|, regs, opts);
      }
    }
  }

  lemma BeyondCeilingNext(count: nat, regs: seq<Option<Row>>, opts: Options)
    requires regs != [] && !AtCeiling(opts, count)
    ensures FileBeyondCeiling(count, regs, opts)
       <==> FileBeyondCeiling(count + (if regs[0].Some? then 1 else 0), regs[1..], opts)
  {
    hide AtCeiling;
    var one := if regs[0].Some? then 1 else 0;
    forall r | 1 <= r < |regs| ensures |Rows(regs[..r])| == one + |Rows(regs[1..][..r - 1])| {
      assert regs[..r][0] == regs[0] && regs[..r][1..] == regs[1..][..r - 1];
    }
    if FileBeyondCeiling(count, regs, opts) {
      var r :| 0 <= r < |regs| && AtCeiling(opts, count + |Rows(regs[..r])|);
      assert regs[..0] == [] && r >= 1;
      assert AtCeiling(opts, count + one + |Rows(regs[1..][..r - 1])|);
    }
    if FileBeyondCeiling(count + one, regs[1..], opts) {
      var r :| 0 <= r < |regs[1..]| && AtCeiling(opts, count + one + |Rows(regs[1..][..r])|);
      assert AtCeiling(opts, count + |Rows(regs[..r + 1])|);
    }
  }

  datatype Result = Result(files: seq<Row>, truncated: bool, skipped: nat)

  /** Entries the walk could not read. */
  function Unreadables(nodes: seq<Node>): nat
    decreases nodes
  {
    if nodes == [] then 0 else UnreadablesOf(nodes[0]) + Unreadables(nodes[1..])
  }

  function UnreadablesOf(n: Node): nat
    decreases n
  {
    match n
    case Unreadable(_) => 1
    case Dir(name, kids) => if SkippedDir(name) then 0 else Unreadables(kids)
    case _ => 0
  }

  /** The tree as it is, also where the walk cannot read it. */
  function Opened(nodes: seq<Node>): seq<Node>
    decreases nodes
  {
    if nodes == [] then [] else [OpenedOf(nodes[0])] + Opened(nodes[1..])
  }

  function OpenedOf(n: Node): Node
    decreases n
  {
    match n
    case Unreadable(there) => OpenedOf(there)
    case Dir(name, kids) => Dir(name, Opened(kids))
    case _ => n
  }

  /** The tree as far as the walk can see it. */
  function View(nodes: seq<Node>): seq<Node>
    decreases nodes
  {
    if nodes == [] then [] else [ViewOf(nodes[0])] + View(nodes[1..])
  }

  function ViewOf(n: Node): Node
    decreases n
  {
    match n
    case Unreadable(_) => Unreadable(Special(""))
    case Dir(name, kids) => Dir(name, View(kids))
    case _ => n
  }

  /** The walk function over the entries of one directory, going down; SkipAll ends it everywhere. */
  method WalkDir(prefix: string, nodes: seq<Node>, opts: Options, res: Result) returns (res': Result)
    requires !res.truncated
    ensures (res'.files, res'.truncated) == Collect(res.files, Regulars(prefix, nodes, opts), opts)
    ensures !res'.truncated ==> res'.skipped == res.skipped + Unreadables(nodes)
    decreases nodes
  {
    hide Passes, SkippedDir, Under, AtCeiling;
    res' := res;
    if nodes == [] {
      return;
    }
    CollectAppend(res.files, RegularsOf(prefix, nodes[0], opts), Regulars(prefix, nodes[1..], opts), opts);
    match nodes[0] {
      case Unreadable(_) =>
        res' := res'.(skipped := res'.skipped + 1);
      case Special(_) =>
      case File(name, size) =>
        if AtCeiling(opts, |res'.files|) {
          res' := res'.(truncated := true);
          return;
        }
        if Passes(opts, name, size) {
          res' := res'.(files := res'.files + [Row(Under(prefix, name), size)]);
        } else {
          assert res'.files + [] == res'.files;
        }
      case Dir(name, kids) =>
        if !SkippedDir(name) {
          res' := WalkDir(Under(prefix, name), kids, opts, res');
          if res'.truncated {
            return;
          }
        }
    }
    res' := WalkDir(prefix, nodes[1..], opts, res');
  }

  /**
   ScanInventory below a readable root. Untruncated, it reports every readable regular file outside
   skipped directories that passes the filters, once each, in path order; truncated, exactly
   maxFiles of them.
   */
  method ScanInventory(kids: seq<Node>, opts: Options) returns (res: Result)
    ensures SortedBy(res.files, PathOf)
    ensures !res.truncated ==> multiset(res.files) == multiset(Rows(Regulars("", kids, opts)))
    ensures !res.truncated ==> res.skipped == Unreadables(kids)
    ensures res.truncated ==> |res.files| == opts.maxFiles
    ensures forall r :: r in res.files ==> r in Rows(Regulars("", kids, opts))
    ensures res.truncated <==> FileBeyondCeiling(0, Regulars("", kids, opts), opts)
  {
    hide *;
    var walked := WalkDir("", kids, opts, Result([], false, 0));
    CollectResult([], Regulars("", kids, opts), opts);
    CollectTruncates([], Regulars("", kids, opts), opts);
    res := walked.(files := SortBy(walked.files, PathOf));
    SortResult(walked.files, PathOf);
    SameMembers(walked.files, res.files);
    assert [] + Rows(Regulars("", kids, opts)) == Rows(Regulars("", kids, opts));
  }

  // ------------------------------------------------------------- batches

  function Flatten(batches: seq<seq<Row>>): seq<Row> {
    if batches == [] then [] else Flatten(batches[..|batches| - 1]) + batches[|batches| - 1]
  }

  method BatchInventory(files: seq<Row>, size: int) returns (batches: seq<seq<Row>>)
    ensures Flatten(batches) == files
    ensures var n := if size <= 0 then 1 else size;
            && (forall i :: 0 <= i < |batches| ==> 0 < |batches[i]| <= n)
            && (forall i :: 0 <= i < |batches| - 1 ==> |batches[i]| == n)
    ensures files == [] <==> batches == []
  {
    var n := if size <= 0 then 1 else size;
    batches := [];
    var i := 0;
    while i < |files|
      invariant 0 <= i <= |files|
      invariant Flatten(batches) == files[..i]
      invariant forall k :: 0 <= k < |batches| ==> 0 < |batches[k]| <= n
      invariant forall k :: 0 <= k < |batches| - 1 ==> |batches[k]| == n
      invariant i < |files| && batches != [] ==> |batches[|batches| - 1]| == n
      invariant i > 0 <==> batches != []
    {
      var end := i + n;
      if end > |files| {
        end := |files|;
      }
      ghost var before := batches;
      batches := batches + [files[i..end]];
      assert batches[..|batches| - 1] == before;
      assert files[..end] == files[..i] + files[i..end];
      i := end;
    }
    assert files[..|files|] == files;
  }

  // ------------------------------------------------------------- the site

  datatype Message = Message(scanID: string, final: bool, entries: seq<Row>)

  /** How a request goes: accepted; lost on the way; or taken by the site with the answer lost. */
  datatype Delivery = Accepted | Lost | AnswerLost

  /** The site's staging rows: path to the generation that last reported it. */
  type SiteRows = map<string, string>

  /** Rows are stamped with the generation; closing it drops the rows of every other one. */
  function Upsert(rows: SiteRows, scanID: string, entries: seq<Row>): SiteRows {
    if entries == [] then rows
    else Upsert(rows, scanID, entries[..|entries| - 1])[entries[|entries| - 1].relPath := scanID]
  }

  function Taken(rows: SiteRows, m: Message): SiteRows {
    var stamped := Upsert(rows, m.scanID, m.entries);
    if m.final then map p | p in stamped && stamped[p] == m.scanID :: stamped[p] else stamped
  }

  predicate HasPath(entries: seq<Row>, p: string) {
    exists i :: 0 <= i < |entries| && entries[i].relPath == p
  }

  lemma {:induction false} UpsertResult(rows: SiteRows, scanID: string, entries: seq<Row>)
    ensures forall p :: p in Upsert(rows, scanID, entries) <==> p in rows || HasPath(entries, p)
    ensures forall p :: HasPath(entries, p) ==> p in Upsert(rows, scanID, entries) && Upsert(rows, scanID, entries)[p] == scanID
    ensures forall p :: p in rows && !HasPath(entries, p) ==> Upsert(rows, scanID, entries)[p] == rows[p]
    decreases |entries|
  {
    if entries != [] {
      var front, last := entries[..|entries| - 1], entries[|entries| - 1];
      UpsertResult(rows, scanID, front);
      forall p ensures HasPath(entries, p) <==> HasPath(front, p) || p == last.relPath {
        if HasPath(entries, p) && p != last.relPath {
          var i :| 0 <= i < |entries| && entries[i].relPath == p;
          assert front[i].relPath == p;
        }
        if HasPath(front, p) {
          var i :| 0 <= i < |front| && front[i].relPath == p;
          assert entries[i].relPath == p;
        }
        if p == last.relPath {
          assert entries[|entries| - 1].relPath == p;
        }
      }
    }
  }

  class Site {
    var rows: SiteRows
    ghost var log: seq<Message>   // every request made, in order

    constructor ()
      ensures rows == map[] && log == []
    {
      rows, log := map[], [];
    }

    method OfferInventory(m: Message, d: Delivery) returns (ok: bool)
      modifies this
      ensures ok <==> d == Accepted
      ensures rows == if d == Lost then old(rows) else Taken(old(rows), m)
      ensures log == old(log) + [m]
    {
      if d != Lost {
        rows := Taken(rows, m);
      }
      log := log + [m];
      ok := d == Accepted;
    }
  }

  /** The requests of one walk: batches in order under one id, `final` only on the last of a complete walk. */
  predicate Protocol(sent: seq<Message>, batches: seq<seq<Row>>, scanID: string, truncated: bool) {
    && |sent| <= |batches|
    && (forall i :: 0 <= i < |sent| ==>
          && sent[i].scanID == scanID && sent[i].entries == batches[i]
          && (sent[i].final <==> i == |batches| - 1 && !truncated))
  }

  /** Some file at path p is on disk, readable, and passes the filters. */
  predicate OnDisk(kids: seq<Node>, opts: Options, p: string) {
    HasPath(Rows(Regulars("", kids, opts)), p)
  }

  lemma {:induction false} FlattenHas(batches: seq<seq<Row>>, p: string)
    ensures HasPath(Flatten(batches), p) <==> exists i :: 0 <= i < |batches| && HasPath(batches[i], p)
    decreases |batches|
  {
    if batches != [] {
      var front, last := batches[..|batches| - 1], batches[|batches| - 1];
      FlattenHas(front, p);
      AppendHas(Flatten(front), last, p);
      if HasPath(Flatten(front), p) {
        var i :| 0 <= i < |front| && HasPath(front[i], p);
        assert batches[i] == front[i];
      }
      if exists i :: 0 <= i < |batches| && HasPath(batches[i], p) {
        var i :| 0 <= i < |batches| && HasPath(batches[i], p);
        if i < |front| {
          assert front[i] == batches[i];
        }
      }
    }
  }

  lemma AppendHas(a: seq<Row>, b: seq<Row>, p: string)
    ensures HasPath(a + b, p) <==> HasPath(a, p) || HasPath(b, p)
  {
    if HasPath(a, p) {
      var i :| 0 <= i < |a| && a[i].relPath == p;
      assert (a + b)[i].relPath == p;
    }
    if HasPath(b, p) {
      var i :| 0 <= i < |b| && b[i].relPath == p;
      assert (a + b)[|a| + i].relPath == p;
    }
  }

  lemma SameRowsSamePaths(a: seq<Row>, b: seq<Row>, p: string)
    requires forall r :: r in a ==> r in b
    ensures HasPath(a, p) ==> HasPath(b, p)
  {
    if HasPath(a, p) {
      var i :| 0 <= i < |a| && a[i].relPath == p;
      assert a[i] in b;
    }
  }

  /** No row is gone, and the rows of the batches sent so far carry the walk's id. */
  ghost predicate SentSoFar(rows: SiteRows, before: SiteRows, scanID: string, batches: seq<seq<Row>>, n: nat)
    requires n <= |batches|
  {
    && (forall p :: p in before ==> p in rows)
    && (forall p :: p in rows && rows[p] == scanID <==> exists i :: 0 <= i < n && HasPath(batches[i], p))
  }

  /** The generation was closed after n batches: the rows are the files of these. */
  ghost predicate Closed(rows: SiteRows, batches: seq<seq<Row>>, n: nat)
    requires n <= |batches|
  {
    forall p :: p in rows <==> exists i :: 0 <= i < n && HasPath(batches[i], p)
  }

  /** The site takes the request for batch i. */
  lemma MessageTaken(rows: SiteRows, before: SiteRows, scanID: string, cut: seq<seq<Row>>, i: nat, final: bool)
    requires i < |cut| && SentSoFar(rows, before, scanID, cut, i)
    ensures var rows' := Taken(rows, Message(scanID, final, cut[i]));
            && (!final ==> SentSoFar(rows', before, scanID, cut, i + 1))
            && (final ==> Closed(rows', cut, i + 1))
  {
    hide HasPath, Upsert;
    UpsertResult(rows, scanID, cut[i]);
    var stamped := Upsert(rows, scanID, cut[i]);
    forall p ensures p in stamped && stamped[p] == scanID <==> exists k :: 0 <= k < i + 1 && HasPath(cut[k], p) {
      if p in stamped && stamped[p] == scanID && !HasPath(cut[i], p) {
        assert p in rows && rows[p] == scanID;
      }
      if exists k :: 0 <= k < i + 1 && HasPath(cut[k], p) {
        var k :| 0 <= k < i + 1 && HasPath(cut[k], p);
        if k < i {
          assert p in rows && rows[p] == scanID;
        }
      }
    }
  }

  /** Why `final` has to wait for the last batch: sent earlier, it drops every file still to come. */
  lemma EarlyFinalForgets(rows: SiteRows, before: SiteRows, scanID: string, cut: seq<seq<Row>>, i: nat, p: string)
    requires i < |cut| && SentSoFar(rows, before, scanID, cut, i)
    requires forall k :: 0 <= k <= i ==> !HasPath(cut[k], p)
    ensures p !in Taken(rows, Message(scanID, true, cut[i]))
  {
    hide HasPath, Taken;
    MessageTaken(rows, before, scanID, cut, i, true);
  }

  /** A walk that was not cut short: the batches hold what is on disk. */
  lemma FilesOnDisk(cut: seq<seq<Row>>, res: Result, kids: seq<Node>, opts: Options)
    requires Flatten(cut) == res.files
    requires forall r :: r in res.files ==> r in Rows(Regulars("", kids, opts))
    requires !res.truncated ==> multiset(res.files) == multiset(Rows(Regulars("", kids, opts)))
    ensures forall p :: HasPath(Flatten(cut), p) ==> OnDisk(kids, opts, p)
    ensures !res.truncated ==> forall p :: HasPath(Flatten(cut), p) <==> OnDisk(kids, opts, p)
  {
    hide HasPath, Rows, Regulars, Flatten;
    var all := Rows(Regulars("", kids, opts));
    forall p ensures HasPath(Flatten(cut), p) ==> OnDisk(kids, opts, p) {
      SameRowsSamePaths(res.files, all, p);
    }
    if !res.truncated {
      SameMembers(res.files, all);
      forall p ensures OnDisk(kids, opts, p) ==> HasPath(Flatten(cut), p) {
        SameRowsSamePaths(all, res.files, p);
      }
    }
  }

  /** The rows of a closed generation are the paths of the walk. */
  lemma ClosedHas(rows: SiteRows, cut: seq<seq<Row>>)
    requires Closed(rows, cut, |cut|)
    ensures forall p :: p in rows <==> HasPath(Flatten(cut), p)
  {
    hide HasPath, Flatten;
    forall p ensures p in rows <==> HasPath(Flatten(cut), p) {
      FlattenHas(cut, p);
    }
  }

  // ------------------------------------------------------------- what a walk cannot see

  /** A file that passes the filters is at path p, whether or not the walk can read it. */
  predicate Exists(kids: seq<Node>, opts: Options, p: string) {
    OnDisk(Opened(kids), opts, p)
  }

  /** Every file there is was readable. */
  ghost predicate NothingHidden(kids: seq<Node>, opts: Options) {
    forall p :: Exists(kids, opts, p) ==> OnDisk(kids, opts, p)
  }

  lemma {:induction false} ReadableIsOpen(prefix: string, nodes: seq<Node>, opts: Options)
    requires Unreadables(nodes) == 0
    ensures Regulars(prefix, Opened(nodes), opts) == Regulars(prefix, nodes, opts)
    decreases nodes
  {
    hide Passes, SkippedDir, Under;
    if nodes != [] {
      var all := Opened(nodes);
      assert all[0] == OpenedOf(nodes[0]) && all[1..] == Opened(nodes[1..]);
      ReadableIsOpen(prefix, nodes[1..], opts);
      if nodes[0].Dir? && !SkippedDir(nodes[0].name) {
        ReadableIsOpen(Under(prefix, nodes[0].name), nodes[0].kids, opts);
      }
    }
  }

  lemma {:induction false} WalkSeesView(prefix: string, nodes: seq<Node>, opts: Options)
    ensures Regulars(prefix, View(nodes), opts) == Regulars(prefix, nodes, opts)
    decreases nodes
  {
    hide Passes, SkippedDir, Under;
    if nodes != [] {
      var all := View(nodes);
      assert all[0] == ViewOf(nodes[0]) && all[1..] == View(nodes[1..]);
      WalkSeesView(prefix, nodes[1..], opts);
      if nodes[0].Dir? {
        WalkSeesView(Under(prefix, nodes[0].name), nodes[0].kids, opts);
      }
    }
  }

  /** The tree with f where the first entry is that the walk cannot read. */
  function Planted(nodes: seq<Node>, f: Node): seq<Node>
    requires Unreadables(nodes) > 0
    decreases nodes
  {
    if UnreadablesOf(nodes[0]) > 0 then [PlantedIn(nodes[0], f)] + nodes[1..]
    else [nodes[0]] + Planted(nodes[1..], f)
  }

  function PlantedIn(n: Node, f: Node): Node
    requires UnreadablesOf(n) > 0
    decreases n
  {
    match n
    case Unreadable(_) => Unreadable(f)
    case Dir(name, kids) => Dir(name, Planted(kids, f))
  }

  lemma {:induction false} PlantedLooksAlike(nodes: seq<Node>, f: Node)
    requires Unreadables(nodes) > 0
    ensures View(Planted(nodes, f)) == View(nodes)
    decreases nodes
  {
    hide SkippedDir;
    var all := Planted(nodes, f);
    if UnreadablesOf(nodes[0]) > 0 {
      assert all[0] == PlantedIn(nodes[0], f) && all[1..] == nodes[1..];
      if nodes[0].Dir? {
        PlantedLooksAlike(nodes[0].kids, f);
      }
    } else {
      assert all[0] == nodes[0] && all[1..] == Planted(nodes[1..], f);
      PlantedLooksAlike(nodes[1..], f);
    }
  }

  lemma RowsAppend(a: seq<Option<Row>>, b: seq<Option<Row>>)
    ensures Rows(a + b) == Rows(a) + Rows(b)
    decreases |a|
  {
    if a == [] {
      assert a + b == b;
    } else {
      assert (a + b)[0] == a[0] && (a + b)[1..] == a[1..] + b;
      RowsAppend(a[1..], b);
    }
  }

  lemma OneRow(r: Row)
    ensures Rows([Some(r)]) == [r]
  {
    assert Rows([]) == [];
  }

  /** The planted file is there, at a path at least as long as its name. */
  lemma {:induction false} PlantedIsThere(prefix: string, nodes: seq<Node>, f: Node, opts: Options) returns (p: string)
    requires Unreadables(nodes) > 0 && f.File? && Passes(opts, f.name, f.size)
    ensures |p| >= |f.name| && HasPath(Rows(Regulars(prefix, Opened(Planted(nodes, f)), opts)), p)
    decreases nodes
  {
    hide Passes, SkippedDir, HasPath, Rows;
    var all := Planted(nodes, f);
    var open := Opened(all);
    assert open[0] == OpenedOf(all[0]) && open[1..] == Opened(all[1..]);
    var first, rest := RegularsOf(prefix, open[0], opts), Regulars(prefix, open[1..], opts);
    RowsAppend(first, rest);
    assert Regulars(prefix, open, opts) == first + rest;
    if UnreadablesOf(nodes[0]) > 0 {
      assert all[0] == PlantedIn(nodes[0], f);
      if nodes[0].Dir? {
        p := PlantedIsThere(Under(prefix, nodes[0].name), nodes[0].kids, f, opts);
      } else {
        p := Under(prefix, f.name);
        assert all[0] == Unreadable(f) && OpenedOf(f) == f;
        assert open[0] == f && first == [Some(Row(p, f.size))];
        LongUnder(prefix, f.name);
        OneRow(Row(p, f.size));
        HasItself(Row(p, f.size));
      }
    } else {
      assert all[1..] == Planted(nodes[1..], f);
      p := PlantedIsThere(prefix, nodes[1..], f, opts);
    }
    AppendHas(Rows(first), Rows(rest), p);
  }

  lemma LongUnder(prefix: string, name: string)
    ensures |Under(prefix, name)| >= |name|
  {
  }

  lemma HasItself(r: Row)
    ensures HasPath([r], r.relPath)
  {
    assert [r][0].relPath == r.relPath;
  }

  lemma LongestPath(rows: seq<Row>) returns (n: nat)
    ensures forall p :: HasPath(rows, p) ==> |p| <= n
  {
    n := 0;
    for i := 0 to |rows|
      invariant forall k :: 0 <= k < i ==> |rows[k].relPath| <= n
    {
      if |rows[i].relPath| > n {
        n := |rows[i].relPath|;
      }
    }
  }

  lemma LongestIn(names: set<string>) returns (n: nat)
    ensures forall x :: x in names ==> |x| <= n
    decreases |names|
  {
    if names == {} {
      n := 0;
    } else {
      var x :| x in names;
      n := LongestIn(names - {x});
      if |x| > n {
        n := |x|;
      }
    }
  }

  /** For every filter there is a file that passes it, with a name as long as one likes. */
  lemma LongFilePasses(opts: Options, n: nat) returns (f: Node)
    ensures f.File? && |f.name| > n && Passes(opts, f.name, f.size)
  {
    var m := LongestIn(opts.excludeExts);
    var tail := seq(n + m + 1, i => 'a');
    var name := "" + ("." + tail);
    ExtOf("", tail);
    assert |ToLower(Ext(name))| > m;
    f := File(name, if opts.minSizeBytes > 0 then opts.minSizeBytes else 0);
  }

  /**
   Exactly when a walk read every entry it came to can it rule out a hidden file: with no entry
   skipped nothing is hidden, and otherwise some tree that looks the same to the walk hides a file.
   The code looks at the ceiling before it closes a generation, but not at this count.
   */
  lemma NothingHiddenExactly(kids: seq<Node>, opts: Options)
    ensures Unreadables(kids) == 0 <==> forall alike :: View(alike) == View(kids) ==> NothingHidden(alike, opts)
  {
    hide Rows, Passes, HasPath, Regulars;
    if Unreadables(kids) == 0 {
      forall alike | View(alike) == View(kids) ensures NothingHidden(alike, opts) {
        ViewCounts(kids);
        ViewCounts(alike);
        ReadableIsOpen("", alike, opts);
      }
    } else {
      var n := LongestPath(Rows(Regulars("", kids, opts)));
      var f := LongFilePasses(opts, n);
      var alike := Planted(kids, f);
      PlantedLooksAlike(kids, f);
      var p := PlantedIsThere("", kids, f, opts);
      WalkSeesView("", kids, opts);
      WalkSeesView("", alike, opts);
      assert Exists(alike, opts, p) && !OnDisk(alike, opts, p);
    }
  }

  lemma {:induction false} ViewCounts(nodes: seq<Node>)
    ensures Unreadables(View(nodes)) == Unreadables(nodes)
    decreases nodes
  {
    hide SkippedDir;
    if nodes != [] {
      var all := View(nodes);
      assert all[0] == ViewOf(nodes[0]) && all[1..] == View(nodes[1..]);
      ViewCounts(nodes[1..]);
      if nodes[0].Dir? {
        ViewCounts(nodes[0].kids);
      }
    }
  }

  /** A library of which one directory cannot be read at the moment. */
  const EXAMPLE_KIDS: seq<Node> := [File("a.mkv", 1), Unreadable(Dir("d", [File("b.mkv", 1)]))]
  const EXAMPLE_OPTIONS := Options(0, {}, 0)

  lemma TwoNodes(x: Node, y: Node, prefix: string, opts: Options)
    ensures Opened([x, y]) == [OpenedOf(x), OpenedOf(y)]
    ensures Regulars(prefix, [x, y], opts) == RegularsOf(prefix, x, opts) + RegularsOf(prefix, y, opts)
  {
    assert [x, y][1..] == [y] && [y][1..] == [];
    assert Regulars(prefix, [], opts) == [] && Opened([]) == [];
    assert Regulars(prefix, [y], opts) == RegularsOf(prefix, y, opts) + Regulars(prefix, [], opts);
    assert Opened([y]) == [OpenedOf(y)] + Opened([]);
  }

  lemma OneNode(x: Node, prefix: string, opts: Options)
    ensures Opened([x]) == [OpenedOf(x)]
    ensures Regulars(prefix, [x], opts) == RegularsOf(prefix, x, opts)
  {
    assert [x][1..] == [];
  }

  lemma ExampleSeen()
    ensures Regulars("", EXAMPLE_KIDS, EXAMPLE_OPTIONS) == [Some(Row("a.mkv", 1))]
  {
    TwoNodes(EXAMPLE_KIDS[0], EXAMPLE_KIDS[1], "", EXAMPLE_OPTIONS);
  }

  lemma ExampleThere()
    ensures Regulars("", Opened(EXAMPLE_KIDS), EXAMPLE_OPTIONS) == [Some(Row("a.mkv", 1))] + [Some(Row("d/b.mkv", 1))]
  {
    hide Regulars, Opened;
    var b := File("b.mkv", 1);
    var d := Dir("d", [b]);
    TwoNodes(EXAMPLE_KIDS[0], EXAMPLE_KIDS[1], "", EXAMPLE_OPTIONS);
    OneNode(b, "d", EXAMPLE_OPTIONS);
    TwoNodes(EXAMPLE_KIDS[0], d, "", EXAMPLE_OPTIONS);
    assert Under("", "d") == "d" && Under("d", "b.mkv") == "d/b.mkv";
  }

  /** Its walk is complete, so the last request closes the generation, and the row of a file that is there goes. */
  lemma UnreadableRowIsPruned()
    ensures var seen := Rows(Regulars("", EXAMPLE_KIDS, EXAMPLE_OPTIONS));
            && !Collect([], Regulars("", EXAMPLE_KIDS, EXAMPLE_OPTIONS), EXAMPLE_OPTIONS).1
            && Exists(EXAMPLE_KIDS, EXAMPLE_OPTIONS, "d/b.mkv")
            && "d/b.mkv" !in Taken(map["d/b.mkv" := "old"], Message("new", true, seen))
  {
    hide Regulars, Opened, Rows, Upsert;
    ExampleSeen();
    ExampleThere();
    OneRow(Row("a.mkv", 1));
    OneRow(Row("d/b.mkv", 1));
    RowsAppend([Some(Row("a.mkv", 1))], [Some(Row("d/b.mkv", 1))]);
    assert ([Row("a.mkv", 1)] + [Row("d/b.mkv", 1)])[1].relPath == "d/b.mkv";
    UpsertResult(map["d/b.mkv" := "old"], "new", [Row("a.mkv", 1)]);
    assert !HasPath([Row("a.mkv", 1)], "d/b.mkv");
  }

  /** What may be said of the site's rows when reportRoot stops. */
  ghost predicate Outcome(rows: SiteRows, before: SiteRows, kids: seq<Node>, opts: Options, closed: bool) {
    if closed then forall p :: p in rows <==> OnDisk(kids, opts, p)
    else forall p :: p in before ==> p in rows
  }

  /** The closing request was made and the site took it. */
  predicate ClosingTaken(sent: seq<Message>, deliver: nat -> Delivery) {
    sent != [] && sent[|sent| - 1].final && deliver(|sent| - 1) != Lost
  }

  /**
   reportRoot. `deliver` says how the i-th request goes and `cancelAfter` how many batches the
   context lets through. The requests follow the protocol and only the last can have failed. Unless
   the site took a closing request, it still has every row it had; once it took one, its rows are
   exactly the readable files on disk that pass the filters. So a row of a file that is still there is
   lost only if the walk could not read it, and none is if the walk skipped nothing.
   */
  method ReportRoot(site: Site, kids: seq<Node>, opts: Options, scanID: string, batchMax: int,
                    deliver: nat -> Delivery, cancelAfter: nat)
    returns (ok: bool, ghost sent: seq<Message>, ghost batches: seq<seq<Row>>, ghost truncated: bool)
    requires forall p :: p in site.rows ==> site.rows[p] != scanID
    modifies site
    ensures site.log == old(site.log) + sent
    ensures Protocol(sent, batches, scanID, truncated)
    ensures forall p :: HasPath(Flatten(batches), p) ==> OnDisk(kids, opts, p)
    ensures !truncated ==> forall p :: HasPath(Flatten(batches), p) <==> OnDisk(kids, opts, p)
    ensures forall i :: 0 <= i < |sent| - 1 ==> deliver(i) == Accepted
    ensures ok ==> |sent| == |batches| && forall i :: 0 <= i < |sent| ==> deliver(i) == Accepted
    ensures Outcome(site.rows, old(site.rows), kids, opts, ClosingTaken(sent, deliver))
    ensures forall p :: p in old(site.rows) && OnDisk(kids, opts, p) ==> p in site.rows
    ensures Unreadables(kids) == 0 ==> forall p :: p in old(site.rows) && Exists(kids, opts, p) ==> p in site.rows
  {
    hide Regulars, Rows, SortedBy, AtCeiling, Taken, Flatten, HasPath, OnDisk, SentSoFar, Closed, Exists, Unreadables,
         FileBeyondCeiling;
    SkippedNothing(kids, opts);
    var res := ScanInventory(kids, opts);
    truncated := res.truncated;
    sent, batches := [], [];
    if |res.files| == 0 {
      NothingFlat();
      FilesOnDisk([], res, kids, opts);
      return true, [], [], truncated;
    }
    ok := true;
    var cut := BatchInventory(res.files, batchMax);
    batches := cut;
    FilesOnDisk(cut, res, kids, opts);
    NothingSent(site.rows, scanID, cut);
    for i := 0 to |cut|
      invariant ok && |sent| == i
      invariant site.log == old(site.log) + sent
      invariant Protocol(sent, cut, scanID, truncated)
      invariant forall k :: 0 <= k < i ==> deliver(k) == Accepted
      invariant i < |cut| || truncated ==> SentSoFar(site.rows, old(site.rows), scanID, cut, i)
      invariant i == |cut| && !truncated ==> Closed(site.rows, cut, |cut|)
    {
      if i >= cancelAfter {
        NothingLost(site.rows, old(site.rows), scanID, cut, i);
        return false, sent, batches, truncated;
      }
      var final := i == |cut| - 1 && !res.truncated;
      MessageTaken(site.rows, old(site.rows), scanID, cut, i, final);
      NothingLost(site.rows, old(site.rows), scanID, cut, i);
      ok := site.OfferInventory(Message(scanID, final, cut[i]), deliver(i));
      sent := sent + [Message(scanID, final, cut[i])];
      if !ok {
        if deliver(i) == AnswerLost {
          if final {
            ClosedHas(site.rows, cut);
          } else {
            NothingLost(site.rows, old(site.rows), scanID, cut, i + 1);
          }
        }
        return false, sent, batches, truncated;
      }
    }
    if truncated {
      NothingLost(site.rows, old(site.rows), scanID, cut, |cut|);
    } else {
      ClosedHas(site.rows, cut);
    }
  }

  lemma SkippedNothing(kids: seq<Node>, opts: Options)
    ensures Unreadables(kids) == 0 ==> forall p :: Exists(kids, opts, p) ==> OnDisk(kids, opts, p)
  {
    if Unreadables(kids) == 0 {
      ReadableIsOpen("", kids, opts);
    }
  }

  lemma NothingFlat()
    ensures Flatten([]) == []
  {
  }

  lemma NothingSent(rows: SiteRows, scanID: string, cut: seq<seq<Row>>)
    requires forall p :: p in rows ==> rows[p] != scanID
    ensures SentSoFar(rows, rows, scanID, cut, 0)
  {
  }

  lemma NothingLost(rows: SiteRows, before: SiteRows, scanID: string, cut: seq<seq<Row>>, n: nat)
    requires n <= |cut| && SentSoFar(rows, before, scanID, cut, n)
    ensures forall p :: p in before ==> p in rows
  {
  }

  // ------------------------------------------------------------- which rows a walk reports

  /** The tree holds a readable regular file at this path, directory by directory. */
  ghost predicate FileAt(nodes: seq<Node>, path: seq<string>, size: int)
    decreases |path|
  {
    if |path| == 0 then false
    else if |path| == 1 then File(path[0], size) in nodes
    else exists i :: 0 <= i < |nodes| && nodes[i].Dir? && nodes[i].name == path[0] && FileAt(nodes[i].kids, path[1..], size)
  }

  /** No directory on the way is hidden or one of the tools'. */
  predicate OpenPath(path: seq<string>) {
    forall i :: 0 <= i < |path| - 1 ==>
      (path[i] == "" || path[i][0] != '.') && path[i] != "@eaDir" && path[i] != "lost+found"
  }

  predicate Wanted(opts: Options, name: string, size: int) {
    !(ToLower(Ext(name)) in opts.excludeExts) && (opts.minSizeBytes <= 0 || opts.minSizeBytes <= size)
  }

  /** The path as it is reported. */
  function Slashed(prefix: string, path: seq<string>): string
    requires path != []
    decreases |path|
  {
    var p := if prefix == "" then path[0] else prefix + ['/'] + path[0];
    if |path| == 1 then p else Slashed(p, path[1..])
  }

  ghost predicate Reported(prefix: string, nodes: seq<Node>, opts: Options, path: seq<string>, r: Row) {
    && path != [] && FileAt(nodes, path, r.sizeBytes) && OpenPath(path)
    && Wanted(opts, path[|path| - 1], r.sizeBytes) && r.relPath == Slashed(prefix, path)
  }

  lemma DirIsOpen(name: string)
    ensures SkippedDir(name) <==> !OpenPath([name, ""])
  {
    assert [name, ""][0] == name;
    assert "." <= name <==> name != "" && name[0] == '.';
  }

  lemma OpenFurther(name: string, rest: seq<string>)
    requires rest != []
    ensures OpenPath([name] + rest) <==> OpenPath([name, ""]) && OpenPath(rest)
  {
    var path := [name] + rest;
    assert path[0] == name && [name, ""][0] == name;
    assert forall i :: 1 <= i < |path| ==> path[i] == rest[i - 1];
    if OpenPath(path) {
      forall i | 0 <= i < |rest| - 1
        ensures (rest[i] == "" || rest[i][0] != '.') && rest[i] != "@eaDir" && rest[i] != "lost+found"
      {
        assert path[i + 1] == rest[i];
      }
    }
  }

  lemma {:induction false} RowsOfNode(prefix: string, nodes: seq<Node>, i: nat, opts: Options, r: Row)
    requires i < |nodes| && r in Rows(RegularsOf(prefix, nodes[i], opts))
    ensures r in Rows(Regulars(prefix, nodes, opts))
    decreases i
  {
    hide RegularsOf, Rows;
    RowsAppend(RegularsOf(prefix, nodes[0], opts), Regulars(prefix, nodes[1..], opts));
    if i > 0 {
      RowsOfNode(prefix, nodes[1..], i - 1, opts, r);
    }
  }

  lemma OneFile(prefix: string, name: string, size: int, opts: Options, r: Row)
    ensures r in Rows(RegularsOf(prefix, File(name, size), opts))
       <==> r.sizeBytes == size && Wanted(opts, name, size) && r.relPath == Slashed(prefix, [name])
  {
    OneRow(Row(Under(prefix, name), size));
    assert Rows([None]) == [];
  }

  /** A file in one of the directories. */
  lemma FileInside(nodes: seq<Node>, i: nat, path: seq<string>, size: int)
    requires i < |nodes| && nodes[i].Dir? && path != [] && FileAt(nodes[i].kids, path, size)
    ensures FileAt(nodes, [nodes[i].name] + path, size)
  {
    assert ([nodes[i].name] + path)[1..] == path;
  }

  lemma FileLater(nodes: seq<Node>, path: seq<string>, size: int)
    requires nodes != [] && FileAt(nodes[1..], path, size)
    ensures FileAt(nodes, path, size)
  {
    if |path| == 1 {
      assert File(path[0], size) in nodes[1..];
    } else {
      var i :| 0 <= i < |nodes[1..]| && nodes[1..][i].Dir? && nodes[1..][i].name == path[0]
               && FileAt(nodes[1..][i].kids, path[1..], size);
      assert nodes[i + 1] == nodes[1..][i];
    }
  }

  lemma SlashedFurther(prefix: string, name: string, rest: seq<string>)
    requires rest != []
    ensures Slashed(prefix, [name] + rest) == Slashed(Under(prefix, name), rest)
  {
    assert ([name] + rest)[1..] == rest;
    assert prefix + "/" + name == prefix + ['/'] + name;
  }

  lemma ReportedInside(prefix: string, nodes: seq<Node>, i: nat, opts: Options, path: seq<string>, r: Row)
    requires i < |nodes| && nodes[i].Dir? && !SkippedDir(nodes[i].name)
    requires Reported(Under(prefix, nodes[i].name), nodes[i].kids, opts, path, r)
    ensures Reported(prefix, nodes, opts, [nodes[i].name] + path, r)
  {
    hide FileAt, Slashed, OpenPath, Under, SkippedDir;
    FileInside(nodes, i, path, r.sizeBytes);
    DirIsOpen(nodes[i].name);
    OpenFurther(nodes[i].name, path);
    SlashedFurther(prefix, nodes[i].name, path);
  }

  lemma {:induction false} RowHasPath(prefix: string, nodes: seq<Node>, opts: Options, r: Row) returns (path: seq<string>)
    requires r in Rows(Regulars(prefix, nodes, opts))
    ensures Reported(prefix, nodes, opts, path, r)
    decreases nodes
  {
    hide Rows, SkippedDir, Slashed, Wanted, Under, FileAt, OpenPath;
    NoRows();
    RowsAppend(RegularsOf(prefix, nodes[0], opts), Regulars(prefix, nodes[1..], opts));
    if r in Rows(RegularsOf(prefix, nodes[0], opts)) {
      match nodes[0]
      case File(name, size) =>
        OneFile(prefix, name, size, opts, r);
        path := [name];
        FirstFile(nodes, name, size);
      case Dir(name, kids) =>
        var rest := RowHasPath(Under(prefix, name), kids, opts, r);
        ReportedInside(prefix, nodes, 0, opts, rest, r);
        path := [name] + rest;
      case _ =>
        assert false;
    } else {
      path := RowHasPath(prefix, nodes[1..], opts, r);
      FileLater(nodes, path, r.sizeBytes);
    }
  }

  lemma NoRows()
    ensures Rows([]) == []
  {
  }

  lemma FirstFile(nodes: seq<Node>, name: string, size: int)
    requires nodes != [] && nodes[0] == File(name, size)
    ensures FileAt(nodes, [name], size) && OpenPath([name])
  {
  }

  lemma {:induction false} PathHasRow(prefix: string, nodes: seq<Node>, opts: Options, path: seq<string>, r: Row)
    requires Reported(prefix, nodes, opts, path, r)
    ensures r in Rows(Regulars(prefix, nodes, opts))
    decreases |path|
  {
    hide Rows, SkippedDir, Slashed, Wanted, Under, OpenPath, Regulars;
    if |path| == 1 {
      assert path == [path[0]];
      var i :| 0 <= i < |nodes| && nodes[i] == File(path[0], r.sizeBytes);
      OneFile(prefix, path[0], r.sizeBytes, opts, r);
      RowsOfNode(prefix, nodes, i, opts, r);
    } else {
      var i :| 0 <= i < |nodes| && nodes[i].Dir? && nodes[i].name == path[0] && FileAt(nodes[i].kids, path[1..], r.sizeBytes);
      var rest := path[1..];
      assert path == [path[0]] + rest && rest[|rest| - 1] == path[|path| - 1];
      OpenFurther(path[0], rest);
      DirIsOpen(path[0]);
      SlashedFurther(prefix, path[0], rest);
      PathHasRow(Under(prefix, path[0]), nodes[i].kids, opts, rest, r);
      RowsOfNode(prefix, nodes, i, opts, r);
    }
  }

  /**
   A complete walk reports a row exactly when the tree holds a readable regular file of that size whose
   path is the row's, with no hidden or tooling directory on the way, and the filters want it.
   */
  lemma RowsExactly(kids: seq<Node>, opts: Options, r: Row)
    ensures r in Rows(Regulars("", kids, opts)) <==> exists path :: Reported("", kids, opts, path, r)
  {
    hide Rows, Regulars, Reported;
    if r in Rows(Regulars("", kids, opts)) {
      var path := RowHasPath("", kids, opts, r);
    }
    if path :| Reported("", kids, opts, path, r) {
      PathHasRow("", kids, opts, path, r);
    }
  }
}
