/** What a scan says: the lists of the sessions, one patched onto the other, against what was
    walked (internal/usecase/scan/scanner.go:58-229). What a restore makes of these lists is
    in ScanOnDisk. */
module ScannerTheorems {
  import opened Domain
  import opened TapeFormat
  import opened Scanning
  import Grouping

  type Tree = map<string, FileMeta>

  /** The files of a session applied to what is listed so far: entries replace what is there,
      tombstones remove it. */
  function Patch(tree: Tree, files: seq<FileMeta>): Tree {
    if files == [] then tree
    else
      var n := |files| - 1;
      var t := Patch(tree, files[..n]);
      if files[n].IsDeleted() then t - {files[n].path} else t[files[n].path := files[n]]
  }

  // Two trees say the same about a path.
  ghost predicate AgreeAt(a: Tree, b: Tree, p: string) {
    (p in a <==> p in b) && (p in a ==> a[p] == b[p])
  }

  // ----- Patching ---------------------------------------------------------------------------

  /** Only the last entry for a path matters, and it is the one a snapshot keeps. */
  lemma {:induction false} PatchIsSnapshot(tree: Tree, files: seq<FileMeta>, p: string)
    ensures p !in SnapshotOf(files) ==> AgreeAt(Patch(tree, files), tree, p)
    ensures p in SnapshotOf(files) ==>
      var fm := SnapshotOf(files)[p];
      if fm.IsDeleted() then p !in Patch(tree, files) else p in Patch(tree, files) && Patch(tree, files)[p] == fm
  {
    if files != [] {
      PatchIsSnapshot(tree, files[..|files| - 1], p);
    }
  }

  /** Where no path occurs twice, the entry of a path decides what is there afterwards. */
  lemma PatchAt(tree: Tree, files: seq<FileMeta>, k: nat)
    requires k < |files| && DistinctPaths(files)
    ensures var p := files[k].path;
      if files[k].IsDeleted() then p !in Patch(tree, files)
      else p in Patch(tree, files) && Patch(tree, files)[p] == files[k]
  {
    hide Patch;
    SnapshotAt(files, k);
    PatchIsSnapshot(tree, files, files[k].path);
  }

  lemma {:induction false} SnapshotAt(files: seq<FileMeta>, k: nat)
    requires k < |files| && DistinctPaths(files)
    ensures files[k].path in SnapshotOf(files) && SnapshotOf(files)[files[k].path] == files[k]
  {
    var n := |files| - 1;
    if k < n {
      SnapshotAt(files[..n], k);
    }
  }

  lemma PatchElsewhere(tree: Tree, files: seq<FileMeta>, p: string)
    requires forall x :: x in files ==> x.path != p
    ensures AgreeAt(Patch(tree, files), tree, p)
  {
    hide Patch, SnapshotOf;
    SnapshotHasPaths(files);
    PatchIsSnapshot(tree, files, p);
  }

  // ----- What is reported -------------------------------------------------------------------

  lemma {:induction false} ReportIsThere(s: Scope, snapshot: Snapshot, visits: seq<Visit>, n: nat, i: nat)
    requires i < n <= |visits|
    ensures forall x :: x in Report(s, snapshot, visits, i) ==> x in Reports(s, snapshot, visits, n)
  {
    hide Report;
    if i < n - 1 {
      ReportIsThere(s, snapshot, visits, n - 1, i);
    }
  }

  // The visit an entry was reported at.
  ghost predicate ReportedAt(s: Scope, snapshot: Snapshot, visits: seq<Visit>, i: nat, x: FileMeta) {
    i < |visits| && Report(s, snapshot, visits, i) == [x]
  }

  lemma {:induction false} ReportsAreVisits(s: Scope, snapshot: Snapshot, visits: seq<Visit>, n: nat)
    requires n <= |visits|
    ensures forall x :: x in Reports(s, snapshot, visits, n) ==>
      exists i :: 0 <= i < n && ReportedAt(s, snapshot, visits, i, x)
  {
    if n == 0 {
      return;
    }
    ReportsAreVisits(s, snapshot, visits, n - 1);
    forall x | x in Reports(s, snapshot, visits, n)
      ensures exists i :: 0 <= i < n && ReportedAt(s, snapshot, visits, i, x)
    {
      if x in Reports(s, snapshot, visits, n - 1) {
        var i :| 0 <= i < n - 1 && ReportedAt(s, snapshot, visits, i, x);
      } else {
        assert ReportedAt(s, snapshot, visits, n - 1, x);
      }
    }
  }

  lemma ReportHasPath(s: Scope, snapshot: Snapshot, visits: seq<Visit>, i: nat, x: FileMeta)
    requires ReportedAt(s, snapshot, visits, i, x)
    ensures x.path == visits[i].path && LookedAt(s, visits, i) && !x.IsDeleted()
    ensures x.state == if x.path in snapshot then STATE_MODIFIED else STATE_ADDED
    ensures SameAttributes(Current(s, visits, i), x) && x.isDir == Current(s, visits, i).isDir
  {
  }

  lemma {:induction false} ReportsAreDistinct(s: Scope, snapshot: Snapshot, visits: seq<Visit>, n: nat)
    requires n <= |visits|
    ensures DistinctPaths(Reports(s, snapshot, visits, n))
  {
    hide Report, LookedAt, Current;
    if n == 0 {
      return;
    }
    ReportsAreDistinct(s, snapshot, visits, n - 1);
    var front, new' := Reports(s, snapshot, visits, n - 1), Report(s, snapshot, visits, n - 1);
    ReportIsShort(s, snapshot, visits, n - 1);
    forall k | 0 <= k < |front| && new' != []
      ensures front[k].path != new'[0].path
    {
      ReportsAreVisits(s, snapshot, visits, n - 1);
      assert front[k] in front;
      var i :| 0 <= i < n - 1 && ReportedAt(s, snapshot, visits, i, front[k]);
      ReportHasPath(s, snapshot, visits, i, front[k]);
      ReportHasPath(s, snapshot, visits, n - 1, new'[0]);
      IsFirst(s, visits, n - 1);
    }
  }

  lemma IsFirst(s: Scope, visits: seq<Visit>, i: nat)
    requires i < |visits| && LookedAt(s, visits, i)
    ensures First(visits, i) && forall j :: 0 <= j < i ==> visits[j].path != visits[i].path
    ensures !visits[i].kind.Special?
  {
  }

  lemma ReportIsShort(s: Scope, snapshot: Snapshot, visits: seq<Visit>, i: nat)
    requires i < |visits|
    ensures |Report(s, snapshot, visits, i)| <= 1
  {
  }

  /** No path occurs twice in a scan result. */
  lemma ScanIsDistinct(s: Scope, visits: seq<Visit>, last: seq<FileMeta>, files: seq<FileMeta>)
    requires IsScan(s, visits, last, files)
    ensures DistinctPaths(files)
  {
    hide Before, SnapshotOf, UnderRoots, LookedAt, Report, Current;
    var gone :| ScanIs(s, visits, last, files, gone);
    var snapshot := SnapshotOf(last);
    var reports := Reports(s, snapshot, visits, |visits|);
    ReportsAreDistinct(s, snapshot, visits, |visits|);
    ReportsAreVisits(s, snapshot, visits, |visits|);
    forall i, j | 0 <= i < j < |files|
      ensures files[i].path != files[j].path
    {
      if j < |reports| {
        assert files[i] == reports[i] && files[j] == reports[j];
      } else if i < |reports| {
        assert files[i] in reports && files[j] in gone;
        var v :| 0 <= v < |visits| && ReportedAt(s, snapshot, visits, v, files[i]);
        ReportHasPath(s, snapshot, visits, v, files[i]);
        assert files[i].path in Paths(visits, |visits|);
      } else {
        assert files[i] == gone[i - |reports|] && files[j] == gone[j - |reports|];
        BeforeIsStrict(files[i].path);
      }
    }
  }

  // ----- Hard links -------------------------------------------------------------------------

  // Visit j is the first entry looked at with this inode.
  ghost predicate Anchors(s: Scope, visits: seq<Visit>, j: nat, id: string) {
    && j < |visits| && LookedAt(s, visits, j) && Linkable(visits[j]) && visits[j].linkID == id
    && forall k :: 0 <= k < j ==> !(LookedAt(s, visits, k) && Linkable(visits[k]) && visits[k].linkID == id)
  }

  lemma {:induction false} LinksAreAnchors(s: Scope, visits: seq<Visit>, n: nat, id: string, j: nat)
    requires n <= |visits|
    ensures Anchors(s, visits, j, id) && j < n ==>
      id in LinksAfter(s, visits, n) && LinksAfter(s, visits, n)[id] == visits[j].path
    ensures (forall k :: 0 <= k < n ==> !(LookedAt(s, visits, k) && Linkable(visits[k]) && visits[k].linkID == id))
      <==> id !in LinksAfter(s, visits, n)
  {
    hide LookedAt;
    if n > 0 {
      LinksAreAnchors(s, visits, n - 1, id, j);
    }
  }

  /** An entry is recorded as a hard link exactly when its inode was met before, and it
      names the first entry it was met under, which is none. */
  lemma HardlinksNameTheFirst(s: Scope, visits: seq<Visit>, i: nat, j: nat)
    requires i < |visits| && LookedAt(s, visits, i) && Linkable(visits[i])
    requires Anchors(s, visits, j, visits[i].linkID)
    ensures Current(s, visits, i).IsHardlink() <==> j < i
    ensures j < i ==> Current(s, visits, i).linkname == visits[j].path
    ensures !Current(s, visits, j).IsHardlink()
  {
    hide LookedAt, LinksAfter;
    LinksAreAnchors(s, visits, i, visits[i].linkID, j);
    LinksAreAnchors(s, visits, j, visits[i].linkID, j);
  }

  // ----- What a scan says of a visit ----------------------------------------------------------

  // Another name for the same file was looked at before.
  ghost predicate MetBefore(s: Scope, visits: seq<Visit>, i: nat)
    requires i < |visits|
  {
    && visits[i].kind.Regular? && visits[i].linkID != ""
    && exists j :: 0 <= j < i && LookedAt(s, visits, j) && visits[j].kind.Regular?
         && visits[j].linkID == visits[i].linkID
  }

  /** The entry of a visit: directories have no size, links the size of their target, and a
      second name for a file is a hard link to the first. */
  lemma WalkedEntryIs(s: Scope, visits: seq<Visit>, i: nat)
    requires i < |visits| && LookedAt(s, visits, i)
    ensures var v, cur := visits[i], Current(s, visits, i);
      && cur.path == v.path && cur.modTime == v.mtime && cur.hash == "" && cur.sha256 == "" && cur.state == ""
      && (cur.isDir <==> v.kind.Directory?)
      && (cur.typ == "lnk" <==> MetBefore(s, visits, i))
      && (cur.typ == "sym" <==> v.kind.SymbolicLink?)
      && (cur.typ == "lnk" || cur.typ == "sym" || cur.typ == "")
      && (v.kind.Directory? ==> cur.size == 0)
      && (v.kind.Regular? ==> cur.size == v.size)
      && (v.kind.SymbolicLink? ==> cur.size == |v.kind.target| && cur.linkname == v.kind.target)
      && (cur.typ == "" ==> cur.linkname == "")
  {
    hide LookedAt, LinksAfter;
    assert "lnk"[0] != "sym"[0];
    LinksAreAnchors(s, visits, i, visits[i].linkID, 0);
    assert forall k :: 0 <= k < i ==>
      (LookedAt(s, visits, k) && Linkable(visits[k]) && visits[k].linkID == visits[i].linkID <==>
       LookedAt(s, visits, k) && visits[k].kind.Regular? && visits[k].linkID != ""
       && visits[k].linkID == visits[i].linkID);
  }

  // The snapshot has this size, time stamp, class and target for the path.
  ghost predicate SnapshotHas(snapshot: Snapshot, cur: FileMeta) {
    cur.path in snapshot &&
    var prev := snapshot[cur.path];
    && prev.size == cur.size && prev.modTime == cur.modTime && prev.linkname == cur.linkname
    && (prev.typ == cur.typ || (prev.typ in ["", "reg"] && cur.typ in ["", "reg"]))
  }

  /** What a scan says of a path it looked at: nothing, exactly if the last session has an
      entry of the same size, time stamp, class and target; otherwise it is added or
      modified, and a regular file comes with the sums of what it holds. */
  lemma ScanTells(s: Scope, visits: seq<Visit>, last: seq<FileMeta>, files: seq<FileMeta>, i: nat)
    requires IsScan(s, visits, last, files) && i < |visits| && LookedAt(s, visits, i)
    ensures var cur := Current(s, visits, i);
      var regular := visits[i].kind.Regular? && !MetBefore(s, visits, i);
      var bytes := if cur.path in s.content then s.content[cur.path] else [];
      if SnapshotHas(SnapshotOf(last), cur) then forall x :: x in files ==> x.path != visits[i].path
      else
        FileMeta(cur.path, cur.size, cur.modTime, cur.isDir, if regular then s.codec.xxhash(bytes) else "",
                 if regular then s.codec.sha256(bytes) else "", if cur.path in SnapshotOf(last) then "M" else "A",
                 cur.typ, cur.linkname) in files
  {
    hide Before, UnderRoots, SnapshotOf, LinksAfter, LookedAt, Current, MetBefore;
    var cur, old' := Current(s, visits, i), SnapshotOf(last);
    IsFirst(s, visits, i);
    WalkedEntryIs(s, visits, i);
    SameMeansHas(old', cur);
    var gone :| ScanIs(s, visits, last, files, gone);
    if SnapshotHas(old', cur) {
      NotReported(s, visits, last, files, gone, i);
    } else {
      ReportIsThere(s, old', visits, |visits|, i);
      DigestedIs(s, cur, visits[i].kind.Regular? && !MetBefore(s, visits, i),
                 if cur.path in old' then STATE_MODIFIED else STATE_ADDED);
      assert Report(s, old', visits, i)[0] in files;
    }
  }

  lemma SameMeansHas(snapshot: Snapshot, cur: FileMeta)
    ensures SnapshotHas(snapshot, cur) <==> cur.path in snapshot && SameAttributes(cur, snapshot[cur.path])
  {
  }

  lemma DigestedIs(s: Scope, cur: FileMeta, regular: bool, state: string)
    requires regular <==> !cur.isDir && cur.typ != "lnk" && cur.typ != "sym"
    requires cur.hash == "" && cur.sha256 == ""
    ensures var bytes := if cur.path in s.content then s.content[cur.path] else [];
      Digested(s, cur.(state := state)) ==
      FileMeta(cur.path, cur.size, cur.modTime, cur.isDir, if regular then s.codec.xxhash(bytes) else "",
               if regular then s.codec.sha256(bytes) else "", state, cur.typ, cur.linkname)
  {
  }

  /** What a scan reports of a regular file passes the check before it is written, as long as
      the file holds what it held. */
  lemma ReportIsUnchanged(s: Scope, fm: FileMeta, state: string)
    requires fm.path in s.content && |s.content[fm.path]| == fm.size && s.codec.sha256(s.content[fm.path]) != ""
    requires !fm.isDir && fm.typ == ""
    ensures Unchanged(s.codec, [Digested(s, fm.(state := state))], s.content)
  {
    assert "reg"[0] != "sym"[0] && "reg"[0] != "lnk"[0];
  }

  // ----- Tombstones -----------------------------------------------------------------------------

  /** A path lies under a root of the job if its segments begin with those of the root. */
  lemma UnderBySegments(ps: seq<string>, root: string)
    requires Grouping.Clean(true, ps) && Grouping.Rooted(root)
    ensures UnderRoot(Grouping.Render(true, ps), root) <==> Grouping.Segments(root) <= ps
  {
    hide Grouping.Clean, Grouping.Segments, Grouping.Walk;
    var rs := Grouping.Segments(root);
    Grouping.SegmentsAreClean(root);
    Grouping.RenderedIsNormal(true, rs);
    Grouping.WithinBySegments(true, ps, true, rs);
    if rs == [] {
      RootIsSlash();
    } else {
      Grouping.EndsInName(rs);
      NotTheRoot(rs);
    }
  }

  lemma RootIsSlash()
    ensures Grouping.Render(true, []) == "/"
  {
  }

  lemma NotTheRoot(rs: seq<string>)
    requires Grouping.Clean(true, rs) && rs != []
    ensures Grouping.Render(true, rs) != "/"
  {
    hide Grouping.Segments;
    Grouping.SegmentsOfRendered(true, rs);
    Grouping.SegmentsOfRendered(true, []);
    RootIsSlash();
  }

  /** The tombstones of a mirror job: one for each path that the last session lists under a
      root and the walk did not meet; other jobs write none. */
  lemma TombstonesTell(s: Scope, visits: seq<Visit>, last: seq<FileMeta>, files: seq<FileMeta>, x: FileMeta)
    requires IsScan(s, visits, last, files)
    ensures x in files && x.state == "D" <==>
      && s.job.mode == "mirror"
      && x.path in SnapshotOf(last) && (forall i :: 0 <= i < |visits| ==> visits[i].path != x.path)
      && UnderRoots(x.path, s.job.paths)
      && x == FileMeta(x.path, 0, 0, SnapshotOf(last)[x.path].isDir, "", "", "D", "", "")
  {
    hide Before, UnderRoots, SnapshotOf, Current, Report;
    var gone :| ScanIs(s, visits, last, files, gone);
    var old', seen := SnapshotOf(last), Paths(visits, |visits|);
    ReportsAreVisits(s, old', visits, |visits|);
    if x in files && x !in gone {
      assert x in Reports(s, old', visits, |visits|);
      var v :| 0 <= v < |visits| && ReportedAt(s, old', visits, v, x);
      ReportHasPath(s, old', visits, v, x);
    }
    assert x.path in seen <==> exists i :: 0 <= i < |visits| && visits[i].path == x.path;
    assert s.job.mode == MODE_MIRROR && x in gone ==> Vanished(old', seen, s.job.paths, x.path);
    if s.job.mode == MODE_MIRROR && Vanished(old', seen, s.job.paths, x.path) {
      assert Tombstone(old'[x.path], x.path) in gone;
    }
  }

  // ----- The patched tree -------------------------------------------------------------------

  // What the walk shows of a path is what the tree holds.
  ghost predicate Shows(tree: Tree, cur: FileMeta) {
    cur.path in tree && SameAttributes(cur, tree[cur.path])
  }

  /** A path looked at: the patched tree shows it as it was walked, unless the snapshot has
      a tombstone for it that its attributes cannot be told from. */
  lemma WalkedPathIsShown(s: Scope, visits: seq<Visit>, last: seq<FileMeta>, files: seq<FileMeta>, before: Tree,
                          i: nat)
    requires IsScan(s, visits, last, files)
    requires i < |visits| && LookedAt(s, visits, i)
    ensures var cur, old' := Current(s, visits, i), SnapshotOf(last);
      var after := Patch(Patch(before, last), files);
      var missed := cur.path in old' && SameAttributes(cur, old'[cur.path]);
      && (Shows(after, cur) <==> !(missed && old'[cur.path].IsDeleted()))
      && (Shows(after, cur) ==>
          (after[cur.path].isDir == cur.isDir <==> !(missed && old'[cur.path].isDir != cur.isDir)))
  {
    hide Before, UnderRoots, LookedAt, SnapshotOf, Patch, Digested, LinksAfter, DistinctPaths;
    var cur, old' := Current(s, visits, i), SnapshotOf(last);
    var p := visits[i].path;
    ScanIsDistinct(s, visits, last, files);
    PatchIsSnapshot(before, last, p);
    var gone :| ScanIs(s, visits, last, files, gone);
    if Report(s, old', visits, i) != [] {
      var x := Report(s, old', visits, i)[0];
      assert ReportedAt(s, old', visits, i, x);
      ReportHasPath(s, old', visits, i, x);
      ReportIsThere(s, old', visits, |visits|, i);
      assert x in files;
      var k :| 0 <= k < |files| && files[k] == x;
      PatchAt(Patch(before, last), files, k);
    } else {
      IsFirst(s, visits, i);
      NotReported(s, visits, last, files, gone, i);
      PatchElsewhere(Patch(before, last), files, p);
    }
  }

  // A visited path of which nothing was reported does not occur in the result.
  lemma NotReported(s: Scope, visits: seq<Visit>, last: seq<FileMeta>, files: seq<FileMeta>, gone: seq<FileMeta>,
                    i: nat)
    requires ScanIs(s, visits, last, files, gone)
    requires i < |visits| && First(visits, i) && Report(s, SnapshotOf(last), visits, i) == []
    ensures forall x :: x in files ==> x.path != visits[i].path
  {
    hide Before, UnderRoots, SnapshotOf, Report, Current;
    var old' := SnapshotOf(last);
    ReportsAreVisits(s, old', visits, |visits|);
    assert visits[i].path in Paths(visits, |visits|);
    forall x | x in files
      ensures x.path != visits[i].path
    {
      if x !in gone {
        assert x in Reports(s, old', visits, |visits|);
        var v :| 0 <= v < |visits| && ReportedAt(s, old', visits, v, x);
        ReportHasPath(s, old', visits, v, x);
      }
    }
  }

  /** A path that is visited but excluded, or of a kind that does not go on tape, keeps what
      the tree held. */
  lemma SkippedPathIsKept(s: Scope, visits: seq<Visit>, last: seq<FileMeta>, files: seq<FileMeta>, before: Tree,
                          i: nat)
    requires IsScan(s, visits, last, files)
    requires i < |visits| && First(visits, i) && !LookedAt(s, visits, i)
    ensures AgreeAt(Patch(Patch(before, last), files), Patch(before, last), visits[i].path)
  {
    hide Before, UnderRoots, SnapshotOf, Patch, Current, AgreeAt;
    var gone :| ScanIs(s, visits, last, files, gone);
    NotReported(s, visits, last, files, gone, i);
    PatchElsewhere(Patch(before, last), files, visits[i].path);
  }

  /** A path that is not visited: under the roots of a mirror job it vanishes exactly if the
      last session named it; otherwise the tree keeps it. */
  lemma UnvisitedPath(s: Scope, visits: seq<Visit>, last: seq<FileMeta>, files: seq<FileMeta>, before: Tree,
                      p: string)
    requires IsScan(s, visits, last, files)
    requires p !in Paths(visits, |visits|)
    ensures var held, after := Patch(before, last), Patch(Patch(before, last), files);
      if s.job.mode == MODE_MIRROR && UnderRoots(p, s.job.paths) && p in SnapshotOf(last)
      then p !in after
      else AgreeAt(after, held, p)
  {
    hide Before, UnderRoots, SnapshotOf, Patch, Current, AgreeAt, DistinctPaths;
    var old' := SnapshotOf(last);
    var gone :| ScanIs(s, visits, last, files, gone);
    ReportsAreVisits(s, old', visits, |visits|);
    forall x | x in files && x !in gone
      ensures x.path != p
    {
      assert x in Reports(s, old', visits, |visits|);
      var v :| 0 <= v < |visits| && ReportedAt(s, old', visits, v, x);
      ReportHasPath(s, old', visits, v, x);
      assert x.path in Paths(visits, |visits|);
    }
    if s.job.mode == MODE_MIRROR && UnderRoots(p, s.job.paths) && p in old' {
      assert Vanished(old', Paths(visits, |visits|), s.job.paths, p);
      var t := Tombstone(old'[p], p);
      assert t in files;
      var k :| 0 <= k < |files| && files[k] == t;
      ScanIsDistinct(s, visits, last, files);
      PatchAt(Patch(before, last), files, k);
    } else {
      PatchElsewhere(Patch(before, last), files, p);
    }
  }

  lemma FirstScanHasNoTombstones(s: Scope, visits: seq<Visit>, files: seq<FileMeta>)
    requires IsScan(s, visits, [], files)
    ensures forall x :: x in files ==> !x.IsDeleted()
  {
    hide Before, UnderRoots, Report;
    var gone :| ScanIs(s, visits, [], files, gone);
    ReportsAreVisits(s, map[], visits, |visits|);
    forall x | x in files
      ensures !x.IsDeleted()
    {
      assert x !in gone;
      var v :| 0 <= v < |visits| && ReportedAt(s, map[], visits, v, x);
      ReportHasPath(s, map[], visits, v, x);
    }
  }

  lemma CurrentHasPath(s: Scope, visits: seq<Visit>, i: nat)
    requires i < |visits|
    ensures Current(s, visits, i).path == visits[i].path
  {
    hide LinksAfter;
  }

  // ----- Where it fails -----------------------------------------------------------------------

  // An entry that a first scan looked at stands in the first session as it was walked.
  lemma FirstScanHolds(s: Scope, visits: seq<Visit>, first: seq<FileMeta>, i: nat)
    requires IsScan(s, visits, [], first) && i < |visits| && LookedAt(s, visits, i)
    ensures var cur := Current(s, visits, i);
      && cur.path in SnapshotOf(first) && SameAttributes(cur, SnapshotOf(first)[cur.path])
      && !SnapshotOf(first)[cur.path].IsDeleted()
  {
    hide Before, UnderRoots, LookedAt, SnapshotOf, Digested, LinksAfter, DistinctPaths;
    NothingInSnapshot();
    var gone :| ScanIs(s, visits, [], first, gone);
    var x := Report(s, map[], visits, i)[0];
    assert ReportedAt(s, map[], visits, i, x);
    ReportHasPath(s, map[], visits, i, x);
    ReportIsThere(s, map[], visits, |visits|, i);
    assert x in first;
    var k :| 0 <= k < |first| && first[k] == x;
    ScanIsDistinct(s, visits, [], first);
    SnapshotAt(first, k);
  }

  lemma NothingInSnapshot()
    ensures SnapshotOf([]) == map[]
  {
  }

  /** From the third session on a deletion is forgotten, for only the last session's files
      are compared: a file that the first session holds, that the second scan finds
      unchanged, and that is gone at the third, is still listed, mirror job or
      not. */
  lemma DeletionIsForgotten(s: Scope, visits: seq<Visit>, i: nat, first: seq<FileMeta>, second: seq<FileMeta>,
                            visits': seq<Visit>, third: seq<FileMeta>)
    requires IsScan(s, visits, [], first) && IsScan(s, visits, first, second) && IsScan(s, visits', second, third)
    requires i < |visits| && LookedAt(s, visits, i)
    requires visits[i].path !in Paths(visits', |visits'|)
    ensures visits[i].path in Patch(Patch(Patch(map[], first), second), third)
  {
    hide Before, UnderRoots, SnapshotOf, Patch, Current, LookedAt, SameAttributes, Report;
    var p := visits[i].path;
    CurrentHasPath(s, visits, i);
    FirstScanHolds(s, visits, first, i);
    WalkedPathIsShown(s, visits, first, second, map[], i);
    UnchangedIsNotReported(s, visits, first, second, i);
    assert p !in SnapshotOf(second) by {
      SnapshotHasPaths(second);
    }
    UnvisitedPath(s, visits', second, third, Patch(map[], first), p);
  }

  /** Whether the scan left an entry out because the snapshot shows it unchanged. */
  ghost predicate LeftOut(scope: Scope, visits: seq<Visit>, before: seq<FileMeta>, i: nat)
    requires i < |visits|
  {
    var cur := Current(scope, visits, i);
    cur.path in SnapshotOf(before) && SameAttributes(cur, SnapshotOf(before)[cur.path])
  }

  lemma UnchangedIsNotReported(s: Scope, visits: seq<Visit>, last: seq<FileMeta>, files: seq<FileMeta>, i: nat)
    requires IsScan(s, visits, last, files) && i < |visits| && LookedAt(s, visits, i) && LeftOut(s, visits, last, i)
    ensures forall x :: x in files ==> x.path != visits[i].path
  {
    hide Before, UnderRoots, SnapshotOf, LinksAfter;
    IsFirst(s, visits, i);
    var gone :| ScanIs(s, visits, last, files, gone);
    NotReported(s, visits, last, files, gone, i);
  }

  // A job over /d in mirror mode that does not exclude /d/x.
  ghost predicate MirrorsD(s: Scope) {
    s.job.mode == MODE_MIRROR && s.job.paths == ["/d"] && !Excluded(s.matches, "/d/x")
  }

  // A walk that meets the one regular file /d/x.
  function WalkOfOne(size: int, mtime: int): seq<Visit> {
    [Visit("/d/x", size, mtime, Regular, "")]
  }

  lemma OneIsLookedAt(s: Scope, size: int, mtime: int)
    requires MirrorsD(s)
    ensures LookedAt(s, WalkOfOne(size, mtime), 0)
    ensures Current(s, WalkOfOne(size, mtime), 0) == FileMeta("/d/x", size, mtime, false, "", "", "", "", "")
  {
    hide Excluded;
  }

  /** A run of three sessions: /d/x is there at the first two scans and gone at the third;
      no tombstone is written, and the file stays listed. */
  lemma ForgottenDeletion(s: Scope, first: seq<FileMeta>, second: seq<FileMeta>, third: seq<FileMeta>)
    requires MirrorsD(s)
    requires IsScan(s, WalkOfOne(1, 1), [], first) && IsScan(s, WalkOfOne(1, 1), first, second)
    requires IsScan(s, [], second, third)
    ensures "/d/x" in Patch(Patch(Patch(map[], first), second), third)
  {
    hide Excluded, IsScan, Patch, LookedAt;
    OneIsLookedAt(s, 1, 1);
    DeletionIsForgotten(s, WalkOfOne(1, 1), 0, first, second, [], third);
  }

  /** A file that comes back empty, with the time stamp 0, where the last session has a
      tombstone: it is taken for unchanged, and no session holds it. */
  lemma TombstoneLookalikeIsMissed(s: Scope, last: seq<FileMeta>, files: seq<FileMeta>, before: Tree)
    requires MirrorsD(s)
    requires last == [Tombstone(FileMeta("/d/x", 1, 1, false, "", "", STATE_ADDED, "", ""), "/d/x")]
    requires IsScan(s, WalkOfOne(0, 0), last, files)
    ensures "/d/x" !in Patch(Patch(before, last), files)
    ensures !Shows(Patch(Patch(before, last), files), Current(s, WalkOfOne(0, 0), 0))
  {
    hide Excluded, IsScan, LookedAt, Patch;
    OneIsLookedAt(s, 0, 0);
    OneInSnapshot(last[0]);
    WalkedPathIsShown(s, WalkOfOne(0, 0), last, files, before, 0);
    UnchangedIsNotReported(s, WalkOfOne(0, 0), last, files, 0);
    PatchElsewhere(Patch(before, last), files, "/d/x");
    PatchIsSnapshot(before, last, "/d/x");
  }

  lemma OneInSnapshot(fm: FileMeta)
    ensures SnapshotOf([fm]) == map[fm.path := fm]
  {
    assert [fm][..0] == [];
  }

  /** A directory replaced by an empty file of the same time stamp is taken for unchanged:
      a directory stays listed there. */
  lemma ReplacedDirectoryKeepsItsKind(s: Scope, last: seq<FileMeta>, files: seq<FileMeta>, before: Tree)
    requires MirrorsD(s)
    requires last == [FileMeta("/d/x", 0, 7, true, "", "", STATE_ADDED, "", "")]
    requires IsScan(s, WalkOfOne(0, 7), last, files)
    ensures var after := Patch(Patch(before, last), files);
      "/d/x" in after && after["/d/x"].isDir && !Current(s, WalkOfOne(0, 7), 0).isDir
  {
    hide Excluded, IsScan, LookedAt, Patch;
    OneIsLookedAt(s, 0, 7);
    OneInSnapshot(last[0]);
    WalkedPathIsShown(s, WalkOfOne(0, 7), last, files, before, 0);
  }
}
