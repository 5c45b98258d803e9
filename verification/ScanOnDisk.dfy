/** A scan result put onto what a restore has made so far: which entries are accepted, and
    what the destination then holds of everything the walk met, or did not meet any more. */
module ScanOnDisk {
  import opened Domain
  import opened TapeMachine
  import opened TapeFormat
  import opened Scanning
  import opened ScannerTheorems
  import opened Destinations
  import opened DiskLaws
  import opened Replaying
  import Grouping

  // ----- Absolute paths -------------------------------------------------------------------------

  ghost predicate Absolute(p: string) {
    Grouping.Rooted(p) && Grouping.NormalizePath(p) == p
  }

  /** An absolute path has a place of its own. */
  lemma AbsolutePlace(p: string)
    requires Absolute(p)
    ensures PlaceOf(p) == Some(Grouping.Segments(p)) && SpotOf(p) == Grouping.Segments(p)
    ensures Grouping.Normal(p)
  {
    hide Grouping.Render, Grouping.Segments, Grouping.Normal, Grouping.Rooted;
    Grouping.NormalizedIsNormal(p);
    NoDots(p);
  }

  lemma NoDots(p: string)
    requires Grouping.Rooted(p) && Grouping.Normal(p)
    ensures var ss := Grouping.Segments(p); ss == [] || ss[0] != ".."
  {
    hide Grouping.Render, Grouping.Segments;
    var ss := Grouping.Segments(p);
    if ss != [] {
      assert Grouping.CleanAt(true, ss, 0);
    }
  }

  lemma SamePlace(p: string, q: string)
    requires Absolute(p) && Absolute(q) && SpotOf(p) == SpotOf(q)
    ensures p == q
  {
    hide Grouping.Render, Grouping.Segments, Grouping.Normal;
    AbsolutePlace(p);
    AbsolutePlace(q);
    Grouping.NormalBySegments(p, q);
  }

  // The path of a directory is spelled, and sorted, before the paths below it.
  lemma DirectoryComesFirst(dir: string, p: string)
    requires Absolute(dir) && Absolute(p) && SpotOf(dir) < SpotOf(p)
    ensures Before(dir, p)
  {
    hide Grouping.Render, Grouping.Segments, Grouping.Normal, Grouping.Within, Before;
    AbsolutePlace(dir);
    AbsolutePlace(p);
    Grouping.WithinNormal(p, dir);
    Grouping.WithinIsPrefix(p, dir);
    PrefixIsBefore(dir, p);
  }

  lemma {:induction false} PrefixIsBefore(a: string, b: string)
    requires a <= b && a != b
    ensures Before(a, b)
  {
    if a != "" {
      assert a[0] == b[0];
      assert a[1..] <= b[1..];
      assert a == [a[0]] + a[1..] && b == [b[0]] + b[1..];
      PrefixIsBefore(a[1..], b[1..]);
    }
  }

  // ----- The walk of a tree ---------------------------------------------------------------------

  /** What the walk of a file system meets under absolute roots: only directories have
      something below them. */
  ghost predicate WalkOfTree(visits: seq<Visit>) {
    && (forall i :: 0 <= i < |visits| ==> Absolute(visits[i].path))
    && (forall i :: 0 <= i < |visits| && SpotOf(visits[i].path) == [] ==> visits[i].kind.Directory?)
    && (forall i, j :: 0 <= i < |visits| && 0 <= j < |visits| && SpotOf(visits[i].path) < SpotOf(visits[j].path) ==>
          visits[i].kind.Directory?)
  }

  ghost predicate AbsoluteFiles(files: seq<FileMeta>) {
    forall i :: 0 <= i < |files| ==> Absolute(files[i].path)
  }

  // The visits at which something was reported.
  ghost function ReportVisits(s: Scope, snapshot: Snapshot, visits: seq<Visit>, n: nat): (r: seq<nat>)
    requires n <= |visits|
    ensures forall k :: 0 <= k < |r| ==> r[k] < n
    ensures forall k, l :: 0 <= k < l < |r| ==> r[k] < r[l]
  {
    if n == 0 then []
    else
      ReportVisits(s, snapshot, visits, n - 1) + if Report(s, snapshot, visits, n - 1) == [] then [] else [n - 1]
  }

  lemma {:induction false} ReportsInOrder(s: Scope, snapshot: Snapshot, visits: seq<Visit>, n: nat)
    requires n <= |visits|
    ensures var rv, rs := ReportVisits(s, snapshot, visits, n), Reports(s, snapshot, visits, n);
      |rv| == |rs| && forall k :: 0 <= k < |rs| ==> ReportedAt(s, snapshot, visits, rv[k], rs[k])
    ensures forall i :: 0 <= i < n && Report(s, snapshot, visits, i) != [] ==> i in ReportVisits(s, snapshot, visits, n)
  {
    hide Report;
    if n > 0 {
      ReportsInOrder(s, snapshot, visits, n - 1);
      ReportIsShort(s, snapshot, visits, n - 1);
    }
  }

  // What kind of entry a visit is reported as.
  lemma ReportedKind(s: Scope, snapshot: Snapshot, visits: seq<Visit>, i: nat, x: FileMeta)
    requires ReportedAt(s, snapshot, visits, i, x)
    ensures LookedAt(s, visits, i) && x.path == visits[i].path && !x.IsDeleted()
    ensures KindOf(x) == KindOf(Current(s, visits, i)) && x.linkname == Current(s, visits, i).linkname
  {
    hide Excluded, LinksAfter;
  }

  lemma WalkedKind(s: Scope, visits: seq<Visit>, i: nat)
    requires i < |visits| && LookedAt(s, visits, i)
    ensures KindOf(Current(s, visits, i)) == DirEntry <==> visits[i].kind.Directory?
    ensures KindOf(Current(s, visits, i)) == LinkEntry <==>
      Linkable(visits[i]) && visits[i].linkID in LinksAfter(s, visits, i)
    ensures KindOf(Current(s, visits, i)) == LinkEntry ==>
      Current(s, visits, i).linkname == LinksAfter(s, visits, i)[visits[i].linkID]
    ensures visits[i].kind.Regular? ==>
      KindOf(Current(s, visits, i)) == RegEntry || KindOf(Current(s, visits, i)) == LinkEntry
  {
    hide Excluded, LinksAfter;
  }

  lemma {:induction false} AnchorOf(s: Scope, visits: seq<Visit>, n: nat, id: string) returns (j: nat)
    requires n <= |visits| && id in LinksAfter(s, visits, n)
    ensures j < n && Anchors(s, visits, j, id) && LinksAfter(s, visits, n)[id] == visits[j].path
  {
    hide LookedAt;
    if id in LinksAfter(s, visits, n - 1) {
      j := AnchorOf(s, visits, n - 1, id);
    } else {
      LinksAreAnchors(s, visits, n - 1, id, 0);
      j := n - 1;
    }
  }

  // The file a hard link was found to share.
  lemma LinkedFile(s: Scope, visits: seq<Visit>, i: nat) returns (j: nat)
    requires i < |visits| && LookedAt(s, visits, i) && KindOf(Current(s, visits, i)) == LinkEntry
    ensures j < i && LookedAt(s, visits, j) && visits[j].kind.Regular?
    ensures Current(s, visits, i).linkname == visits[j].path && KindOf(Current(s, visits, j)) == RegEntry
  {
    hide LookedAt, LinksAfter;
    WalkedKind(s, visits, i);
    j := AnchorOf(s, visits, i, visits[i].linkID);
    HardlinksNameTheFirst(s, visits, j, j);
    WalkedKind(s, visits, j);
    assert KindOf(Current(s, visits, j)) != LinkEntry;
  }

  lemma OneVisit(s: Scope, visits: seq<Visit>, i: nat, j: nat)
    requires i < |visits| && j < |visits| && LookedAt(s, visits, i) && LookedAt(s, visits, j)
    requires visits[i].path == visits[j].path
    ensures i == j
  {
    IsFirst(s, visits, i);
    IsFirst(s, visits, j);
  }

  // The reports of a walk show a tree.
  lemma ReportsAreTree(s: Scope, visits: seq<Visit>, last: seq<FileMeta>, files: seq<FileMeta>, gone: seq<FileMeta>)
    requires ScanIs(s, visits, last, files, gone) && WalkOfTree(visits)
    ensures TreeList(files, |Reports(s, SnapshotOf(last), visits, |visits|)|)
  {
    hide Report, LookedAt, Current, SnapshotOf, WalkOfTree, Absolute, PlaceOf, LinkInTree;
    var snapshot := SnapshotOf(last);
    var rs, rv := Reports(s, snapshot, visits, |visits|), ReportVisits(s, snapshot, visits, |visits|);
    ReportsInOrder(s, snapshot, visits, |visits|);
    var m := |rs|;
    forall i | 0 <= i < m
      ensures files[i] == rs[i] && !files[i].IsDeleted() && PlaceOf(files[i].path).Some?
      ensures Spot(files[i]) == SpotOf(visits[rv[i]].path)
      ensures KindOf(files[i]) == DirEntry <==> visits[rv[i]].kind.Directory?
    {
      ReportOnWalk(s, snapshot, visits, rv[i], rs[i]);
    }
    forall i, j | 0 <= i < j < m
      ensures Spot(files[i]) != Spot(files[j])
    {
      PlacesDiffer(s, snapshot, visits, rv[i], rs[i], rv[j], rs[j]);
    }
    forall i, j | 0 <= i < m && 0 <= j < m && Spot(files[i]) < Spot(files[j])
      ensures KindOf(files[i]) == DirEntry
    {
      DirectoryAbove(visits, rv[i], rv[j]);
    }
    forall j | 0 <= j < m && KindOf(files[j]) == LinkEntry
      ensures LinkInTree(files, m, j)
    {
      LinkOnWalk(s, snapshot, visits, files, m, j);
    }
  }

  lemma ReportOnWalk(s: Scope, snapshot: Snapshot, visits: seq<Visit>, v: nat, x: FileMeta)
    requires ReportedAt(s, snapshot, visits, v, x) && WalkOfTree(visits)
    ensures !x.IsDeleted() && PlaceOf(x.path) == Some(Spot(x)) && Spot(x) == SpotOf(visits[v].path)
    ensures KindOf(x) == DirEntry <==> visits[v].kind.Directory?
    ensures Absolute(x.path)
  {
    hide Report, LookedAt, Current, Absolute;
    ReportedKind(s, snapshot, visits, v, x);
    WalkedKind(s, visits, v);
    AbsolutePlace(x.path);
  }

  lemma PlacesDiffer(s: Scope, snapshot: Snapshot, visits: seq<Visit>, v: nat, x: FileMeta, w: nat, y: FileMeta)
    requires ReportedAt(s, snapshot, visits, v, x) && ReportedAt(s, snapshot, visits, w, y) && v != w
    requires WalkOfTree(visits)
    ensures Spot(x) != Spot(y)
  {
    hide Report, LookedAt, Current, Absolute, PlaceOf;
    ReportedKind(s, snapshot, visits, v, x);
    ReportedKind(s, snapshot, visits, w, y);
    if Spot(x) == Spot(y) {
      SamePlace(x.path, y.path);
      OneVisit(s, visits, v, w);
    }
  }

  lemma DirectoryAbove(visits: seq<Visit>, v: nat, w: nat)
    requires WalkOfTree(visits) && v < |visits| && w < |visits| && SpotOf(visits[v].path) < SpotOf(visits[w].path)
    ensures visits[v].kind.Directory?
  {
  }

  lemma LinkOnWalk(s: Scope, snapshot: Snapshot, visits: seq<Visit>, files: seq<FileMeta>, m: nat, j: nat)
    requires WalkOfTree(visits) && j < m <= |files| && KindOf(files[j]) == LinkEntry
    requires var rs := Reports(s, snapshot, visits, |visits|); |rs| == m && rs <= files
    ensures LinkInTree(files, m, j)
  {
    hide Report, LookedAt, Current, Absolute, PlaceOf, WalkOfTree, Reports, ReportVisits;
    var rs, rv := Reports(s, snapshot, visits, |visits|), ReportVisits(s, snapshot, visits, |visits|);
    ReportsInOrder(s, snapshot, visits, |visits|);
    assert files[j] == rs[j];
    ReportedKind(s, snapshot, visits, rv[j], rs[j]);
    var a := LinkedFile(s, visits, rv[j]);
    TargetPlace(visits, a);
    forall i | 0 <= i < m
      ensures Spot(files[i]) == SpotOf(visits[a].path) ==> i < j && KindOf(files[i]) == RegEntry
      ensures !(SpotOf(visits[a].path) < Spot(files[i]))
      ensures Spot(files[i]) < SpotOf(visits[a].path) ==> KindOf(files[i]) == DirEntry
    {
      assert files[i] == rs[i];
      ReportOnWalk(s, snapshot, visits, rv[i], rs[i]);
      BesideTarget(s, snapshot, visits, rv[i], rs[i], a);
      if i > j {
        assert rv[i] > rv[j] > a;
      }
    }
  }

  lemma TargetPlace(visits: seq<Visit>, a: nat)
    requires WalkOfTree(visits) && a < |visits| && visits[a].kind.Regular?
    ensures PlaceOf(visits[a].path) == Some(SpotOf(visits[a].path)) && SpotOf(visits[a].path) != []
  {
    hide Absolute;
    AbsolutePlace(visits[a].path);
  }

  lemma BesideTarget(s: Scope, snapshot: Snapshot, visits: seq<Visit>, v: nat, x: FileMeta, a: nat)
    requires ReportedAt(s, snapshot, visits, v, x) && WalkOfTree(visits)
    requires a < |visits| && LookedAt(s, visits, a) && visits[a].kind.Regular?
    requires KindOf(Current(s, visits, a)) == RegEntry
    ensures Spot(x) == SpotOf(visits[a].path) ==> v == a && KindOf(x) == RegEntry
    ensures !(SpotOf(visits[a].path) < Spot(x))
    ensures Spot(x) < SpotOf(visits[a].path) ==> KindOf(x) == DirEntry
  {
    hide Report, LookedAt, Current, Absolute, PlaceOf;
    ReportedKind(s, snapshot, visits, v, x);
    WalkedKind(s, visits, v);
    if Spot(x) == SpotOf(visits[a].path) {
      SamePlace(x.path, visits[a].path);
      OneVisit(s, visits, v, a);
    }
  }

  // ----- The scan result as a list of entries and tombstones --------------------------------------

  /** How many entries a scan result begins with; what follows are tombstones. */
  function Live(files: seq<FileMeta>): (m: nat)
    ensures m <= |files|
    ensures forall i :: 0 <= i < m ==> !files[i].IsDeleted()
    ensures m < |files| ==> files[m].IsDeleted()
  {
    if files == [] || files[0].IsDeleted() then 0 else 1 + Live(files[1..])
  }

  lemma {:induction false} LiveIs(files: seq<FileMeta>, m: nat)
    requires LiveFirst(files, m)
    ensures Live(files) == m
  {
    if files != [] && !files[0].IsDeleted() {
      LiveIs(files[1..], m - 1);
    }
  }

  lemma SnapshotIsAbsolute(last: seq<FileMeta>)
    requires AbsoluteFiles(last)
    ensures forall p :: p in SnapshotOf(last) ==> Absolute(p)
  {
    hide Absolute;
    SnapshotHasPaths(last);
  }

  lemma TombstonesAreOrderly(snapshot: Snapshot, seen: set<string>, roots: seq<string>, gone: seq<FileMeta>)
    requires AreTombstones(gone, snapshot, seen, roots) && forall p :: p in snapshot ==> Absolute(p)
    ensures TombstonesFrom(gone, 0)
  {
    hide Absolute, UnderRoots, PlaceOf, Before;
    forall i | 0 <= i < |gone|
      ensures gone[i].IsDeleted() && PlaceOf(gone[i].path).Some? && Absolute(gone[i].path)
    {
      assert gone[i] in gone;
      AbsolutePlace(gone[i].path);
    }
    forall i, j | 0 <= i < j < |gone|
      ensures !(Spot(gone[j]) < Spot(gone[i]))
    {
      if Spot(gone[j]) < Spot(gone[i]) {
        DirectoryComesFirst(gone[j].path, gone[i].path);
        BeforeIsTransitive(gone[i].path, gone[j].path, gone[i].path);
        BeforeIsStrict(gone[i].path);
      }
    }
  }

  lemma TombstonesBehind(front: seq<FileMeta>, gone: seq<FileMeta>)
    requires TombstonesFrom(gone, 0)
    ensures TombstonesFrom(front + gone, |front|)
  {
    var all, m := front + gone, |front|;
    forall i | m <= i < |all|
      ensures all[i] == gone[i - m]
    {
    }
  }

  /** A scan result is a tree of entries, and tombstones behind it. */
  lemma ScanIsTree(s: Scope, visits: seq<Visit>, last: seq<FileMeta>, files: seq<FileMeta>)
    requires IsScan(s, visits, last, files) && WalkOfTree(visits) && AbsoluteFiles(last)
    ensures LiveFirst(files, Live(files)) && TreeList(files, Live(files)) && TombstonesFrom(files, Live(files))
    ensures files[..Live(files)] == Reports(s, SnapshotOf(last), visits, |visits|)
    ensures s.job.mode == MODE_MIRROR ==>
      AreTombstones(files[Live(files)..], SnapshotOf(last), Paths(visits, |visits|), s.job.paths)
    ensures s.job.mode != MODE_MIRROR ==> Live(files) == |files|
  {
    hide Reports, WalkOfTree, AbsoluteFiles, Absolute, SnapshotOf, TreeList, TombstonesFrom, AreTombstones, Paths;
    var gone :| ScanIs(s, visits, last, files, gone);
    var rs := Reports(s, SnapshotOf(last), visits, |visits|);
    ReportsAreTree(s, visits, last, files, gone);
    SnapshotIsAbsolute(last);
    if s.job.mode == MODE_MIRROR {
      TombstonesAreOrderly(SnapshotOf(last), Paths(visits, |visits|), s.job.paths, gone);
    } else {
      NoTombstones();
    }
    TombstonesBehind(rs, gone);
    BothAreLive(files, rs, gone);
    LiveIs(files, |rs|);
    assert files[|rs|..] == gone;
  }

  lemma NoTombstones()
    ensures TombstonesFrom([], 0)
  {
  }

  lemma BothAreLive(files: seq<FileMeta>, rs: seq<FileMeta>, gone: seq<FileMeta>)
    requires files == rs + gone && TreeList(files, |rs|) && TombstonesFrom(files, |rs|)
    ensures LiveFirst(files, |rs|)
  {
  }

  // ----- What the scan leaves in the destination --------------------------------------------------

  ghost predicate Scanned(s: Scope, visits: seq<Visit>, last: seq<FileMeta>, files: seq<FileMeta>) {
    IsScan(s, visits, last, files) && WalkOfTree(visits) && AbsoluteFiles(last)
  }

  /** A scan result is put onto a destination without a refusal exactly if every entry fits
      what is there; and then every place shows what the entries say, less what the
      tombstones could remove. */
  lemma ScanIsPut(s: Scope, visits: seq<Visit>, last: seq<FileMeta>, files: seq<FileMeta>, content: Content, d0: Disk)
    requires Scanned(s, visits, last, files) && d0.Valid()
    ensures Live(files) <= |files|
    ensures var m, r := Live(files), Steps(d0, files, content, |files|);
      && (r.ok <==> AllFit(d0, files, m))
      && (r.ok ==>
          var d := Steps(d0, files, content, m).disk;
          && Shaped(d0, files, content, m, d) && r.disk.Valid() && r.disk.data == d.data
          && forall p :: ClearedAt(files, m, |files|, d, r.disk, p))
  {
    hide IsScan, WalkOfTree, AbsoluteFiles, TreeList, TombstonesFrom, Shaped, AllFit, ClearedAt, Steps, Disk.Valid;
    ScanIsTree(s, visits, last, files);
    ScanSteps(d0, files, content, Live(files));
  }

  // A visited path has no tombstone.
  lemma VisitedIsNotBuried(s: Scope, visits: seq<Visit>, last: seq<FileMeta>, files: seq<FileMeta>, i: nat)
    requires Scanned(s, visits, last, files) && i < |visits|
    ensures !Buried(files, Live(files), |files|, SpotOf(visits[i].path))
  {
    hide Absolute, PlaceOf, Scanned, Paths;
    var m := Live(files);
    forall k | m <= k < |files|
      ensures Spot(files[k]) != SpotOf(visits[i].path)
    {
      GoneIsUnvisited(s, visits, last, files, k, i);
      if Spot(files[k]) == SpotOf(visits[i].path) {
        SamePlace(files[k].path, visits[i].path);
      }
    }
  }

  lemma GoneIsUnvisited(s: Scope, visits: seq<Visit>, last: seq<FileMeta>, files: seq<FileMeta>, k: nat, i: nat)
    requires Scanned(s, visits, last, files) && Live(files) <= k < |files| && i < |visits|
    ensures Absolute(files[k].path) && Absolute(visits[i].path) && files[k].path != visits[i].path
  {
    hide Reports, Absolute, SnapshotOf, TreeList, UnderRoots, PlaceOf, IsScan, TombstonesFrom, Live, LiveFirst;
    ScanIsTree(s, visits, last, files);
    SnapshotIsAbsolute(last);
    var gone := files[Live(files)..];
    assert gone[k - Live(files)] == files[k];
    assert files[k] in gone;
    assert visits[i].path in Paths(visits, |visits|);
  }

  /** Something that is there before, or listed, is below this place. */
  lemma OccupiedAfter(d0: Disk, files: seq<FileMeta>, content: Content, m: nat, d: Disk, p: Place)
    requires m <= |files| && Shaped(d0, files, content, m, d) && p != []
    ensures d.Occupied(p) <==> d0.Occupied(p) || ListedBelow(files, m, p)
  {
    if d.Occupied(p) {
      var q :| q in d.names && p < q;
      assert ShapedAt(d0, files, content, m, d, q);
      if q !in d0.names {
        assert Listed(files, m, q) || ListedBelow(files, m, q);
      }
    }
    if d0.Occupied(p) {
      var q :| q in d0.names && p < q;
      StaysPresent(d0, files, content, m, d, q);
    }
    if ListedBelow(files, m, p) {
      var k :| 0 <= k < m && p < Spot(files[k]);
      ListedIsPresent(d0, files, content, m, d, k);
    }
  }

  lemma ListedIsPresent(d0: Disk, files: seq<FileMeta>, content: Content, m: nat, d: Disk, k: nat)
    requires k < m <= |files| && Shaped(d0, files, content, m, d) && Spot(files[k]) != []
    ensures Spot(files[k]) in d.names
  {
    assert ShapedAt(d0, files, content, m, d, Spot(files[k]));
    assert InPlace(d0, d, files[k], content);
  }

  lemma StaysPresent(d0: Disk, files: seq<FileMeta>, content: Content, m: nat, d: Disk, q: Place)
    requires m <= |files| && Shaped(d0, files, content, m, d) && q in d0.names && q != []
    ensures q in d.names
  {
    assert ShapedAt(d0, files, content, m, d, q);
    if Listed(files, m, q) {
      var k :| 0 <= k < m && Spot(files[k]) == q;
      ListedIsPresent(d0, files, content, m, d, k);
    }
  }

  /** A path with a tombstone is gone exactly if nothing lies below it: neither left by the
      sessions before nor among the entries of this one. */
  lemma VanishedPath(s: Scope, visits: seq<Visit>, last: seq<FileMeta>, files: seq<FileMeta>, content: Content,
                     d0: Disk, p: string)
    requires Scanned(s, visits, last, files) && d0.Valid() && SpotOf(p) != []
    requires s.job.mode == MODE_MIRROR && UnderRoots(p, s.job.paths)
    requires p in SnapshotOf(last) && p !in Paths(visits, |visits|)
    requires Steps(d0, files, content, |files|).ok
    ensures SpotOf(p) in Steps(d0, files, content, |files|).disk.names <==>
      d0.Occupied(SpotOf(p)) || ListedBelow(files, Live(files), SpotOf(p))
  {
    hide Reports, Absolute, SnapshotOf, TreeList, UnderRoots, PlaceOf, IsScan, Steps, Disk.Valid, Disk.Occupied,
         Shaped, AllFit, ListedBelow, WalkOfTree, Paths;
    var m, P := Live(files), SpotOf(p);
    var d, r := Steps(d0, files, content, m).disk, Steps(d0, files, content, |files|).disk;
    ScanIsTree(s, visits, last, files);
    ScanIsPut(s, visits, last, files, content, d0);
    TombstoneIsThere(s, visits, last, files, p);
    assert ClearedAt(files, m, |files|, d, r, P);
    OccupiedAfter(d0, files, content, m, d, P);
    OccupiedIsThere(d, P, files, content, m, d0);
  }

  lemma OccupiedIsThere(d: Disk, p: Place, files: seq<FileMeta>, content: Content, m: nat, d0: Disk)
    requires m <= |files| && Shaped(d0, files, content, m, d) && p != []
    ensures d.Occupied(p) ==> d.At(p) == Some(DirNode)
  {
    if d.Occupied(p) {
      var q :| q in d.names && p < q;
      assert p == q[..|p|];
    }
  }

  lemma TombstoneIsThere(s: Scope, visits: seq<Visit>, last: seq<FileMeta>, files: seq<FileMeta>, p: string)
    requires Scanned(s, visits, last, files)
    requires s.job.mode == MODE_MIRROR && UnderRoots(p, s.job.paths)
    requires p in SnapshotOf(last) && p !in Paths(visits, |visits|)
    ensures Buried(files, Live(files), |files|, SpotOf(p))
  {
    hide Reports, Absolute, SnapshotOf, TreeList, UnderRoots, PlaceOf, IsScan, TombstonesFrom, Paths;
    ScanIsTree(s, visits, last, files);
    SnapshotHasPaths(last);
    var m := Live(files);
    assert Vanished(SnapshotOf(last), Paths(visits, |visits|), s.job.paths, p);
    var t := Tombstone(SnapshotOf(last)[p], p);
    assert t in files[m..];
    var k :| 0 <= k < |files[m..]| && files[m..][k] == t;
    assert files[m + k] == t;
  }

  // A path without a tombstone, and not listed, shows what was there.
  lemma OtherPath(s: Scope, visits: seq<Visit>, last: seq<FileMeta>, files: seq<FileMeta>, content: Content,
                  d0: Disk, p: Place)
    requires Scanned(s, visits, last, files) && d0.Valid()
    requires !Buried(files, Live(files), |files|, p) && !Listed(files, Live(files), p)
    requires Steps(d0, files, content, |files|).ok
    ensures Steps(d0, files, content, |files|).disk.At(p) ==
      if p != [] && ListedBelow(files, Live(files), p) then Some(DirNode) else d0.At(p)
  {
    hide IsScan, Disk.Valid, Listed, ListedBelow, Buried, WalkOfTree, AbsoluteFiles, Steps;
    var m := Live(files);
    var d := Steps(d0, files, content, m).disk;
    ScanIsPut(s, visits, last, files, content, d0);
    assert ShapedAt(d0, files, content, m, d, p);
    assert ClearedAt(files, m, |files|, d, Steps(d0, files, content, |files|).disk, p);
  }

  // ----- What is held of an entry -----------------------------------------------------------------

  /** The file this entry truncates ends with data that pass for it. */
  ghost predicate EndsWell(c: Codec, d0: Disk, files: seq<FileMeta>, content: Content, m: nat, fm: FileMeta)
    requires m <= |files|
  {
    var before := d0.At(Spot(fm));
    before.Some? && before.value.FileNode? && before.value.inode < |d0.data| ==>
      Passes(c, fm, LastData(d0, files, content, m, before.value.inode))
  }

  /** An entry of the scan is held in the end exactly if it is no file that was there under
      this name, or the last entry to write that file had data that pass. */
  lemma EntryHeld(s: Scope, visits: seq<Visit>, last: seq<FileMeta>, files: seq<FileMeta>, c: Codec, content: Content,
                  d0: Disk, k: nat)
    requires Scanned(s, visits, last, files) && d0.Valid() && k < Live(files) <= |files|
    requires Unchanged(c, files, content) && Steps(d0, files, content, |files|).ok
    ensures HoldsVersion(c, Steps(d0, files, content, |files|).disk, files[k]) <==>
      (KindOf(files[k]) == RegEntry ==> EndsWell(c, d0, files, content, Live(files), files[k]))
  {
    hide IsScan, Disk.Valid, Listed, ListedBelow, WalkOfTree, AbsoluteFiles, Steps, Passes, Unchanged, LastData,
         Shaped;
    var m := Live(files);
    var d, r := Steps(d0, files, content, m).disk, Steps(d0, files, content, |files|).disk;
    ScanIsPut(s, visits, last, files, content, d0);
    EntryStays(s, visits, last, files, content, d0, k);
    EntryHeldBefore(d0, files, c, content, m, d, k);
  }

  // The tombstones take away neither the entry nor the file a hard link names.
  lemma EntryStays(s: Scope, visits: seq<Visit>, last: seq<FileMeta>, files: seq<FileMeta>, content: Content,
                   d0: Disk, k: nat)
    requires Scanned(s, visits, last, files) && d0.Valid() && k < Live(files) <= |files|
    requires Steps(d0, files, content, |files|).ok
    ensures var d, r := Steps(d0, files, content, Live(files)).disk, Steps(d0, files, content, |files|).disk;
      && r.data == d.data && r.At(Spot(files[k])) == d.At(Spot(files[k]))
      && (KindOf(files[k]) == LinkEntry ==>
          && PlaceOf(files[k].linkname).Some?
          && r.At(PlaceOf(files[k].linkname).value) == d.At(PlaceOf(files[k].linkname).value))
  {
    hide IsScan, Disk.Valid, Listed, ListedBelow, WalkOfTree, AbsoluteFiles, Steps, Shaped, Reports, ReportVisits,
         SnapshotOf, LookedAt, Current, PlaceOf, Absolute, Removable, Live, Report;
    var m, snapshot := Live(files), SnapshotOf(last);
    var d, r := Steps(d0, files, content, m).disk, Steps(d0, files, content, |files|).disk;
    ScanIsPut(s, visits, last, files, content, d0);
    ScanIsTree(s, visits, last, files);
    ReportsInOrder(s, snapshot, visits, |visits|);
    assert files[..m][k] == files[k];
    var v := ReportVisits(s, snapshot, visits, |visits|)[k];
    ReportedKind(s, snapshot, visits, v, files[k]);
    VisitedIsNotBuried(s, visits, last, files, v);
    assert ClearedAt(files, m, |files|, d, r, Spot(files[k]));
    if KindOf(files[k]) == LinkEntry {
      var a := LinkedFile(s, visits, v);
      VisitedIsNotBuried(s, visits, last, files, a);
      TargetPlace(visits, a) by { assert WalkOfTree(visits); }
      assert ClearedAt(files, m, |files|, d, r, SpotOf(visits[a].path));
    }
  }

  lemma EntryHeldBefore(d0: Disk, files: seq<FileMeta>, c: Codec, content: Content, m: nat, d: Disk, k: nat)
    requires k < m <= |files| && Shaped(d0, files, content, m, d) && d0.Valid()
    requires Unchanged(c, files, content) && !files[k].IsDeleted()
    ensures HoldsVersion(c, d, files[k]) <==>
      (KindOf(files[k]) == RegEntry ==> EndsWell(c, d0, files, content, m, files[k]))
  {
    hide LastData, DigestMatches;
    var fm := files[k];
    assert ShapedAt(d0, files, content, m, d, Spot(fm));
    assert InPlace(d0, d, fm, content);
    if KindOf(fm) == RegEntry {
      assert Passes(c, fm, BytesOf(fm, content));
    }
  }

  /** What is left of an entry that the scan left out, as the sessions before hold it. */
  ghost predicate StillHeld(c: Codec, d0: Disk, files: seq<FileMeta>, content: Content, m: nat, fm: FileMeta)
    requires m <= |files|
  {
    var kind, before := KindOf(fm), d0.At(Spot(fm));
    if kind == DirEntry then before == Some(DirNode) || (before.None? && ListedBelow(files, m, Spot(fm)))
    else if kind == RegEntry then
      && before.Some? && before.value.FileNode? && before.value.inode < |d0.data|
      && Passes(c, fm, LastData(d0, files, content, m, before.value.inode))
    else HoldsVersion(c, d0, fm)
  }

  // What the snapshot says of an entry left out, and the walk of its place.
  lemma LeftOutKind(s: Scope, visits: seq<Visit>, last: seq<FileMeta>, i: nat)
    requires i < |visits| && LookedAt(s, visits, i) && LeftOut(s, visits, last, i)
    ensures Current(s, visits, i).path == visits[i].path && visits[i].path in SnapshotOf(last)
    ensures var v, cur := SnapshotOf(last)[visits[i].path], Current(s, visits, i);
      && v.path == visits[i].path && v.linkname == cur.linkname
      && (KindOf(v) == SymEntry ==> !visits[i].kind.Directory?)
      && (KindOf(v) == LinkEntry ==> KindOf(cur) == LinkEntry && visits[i].kind.Regular?)
  {
    hide Excluded, LinksAfter, SnapshotOf;
    SnapshotHasPaths(last);
  }

  lemma LeftOutIsNotListed(s: Scope, visits: seq<Visit>, last: seq<FileMeta>, files: seq<FileMeta>, i: nat)
    requires Scanned(s, visits, last, files) && i < |visits| && LookedAt(s, visits, i) && LeftOut(s, visits, last, i)
    ensures Live(files) <= |files| && !Listed(files, Live(files), SpotOf(visits[i].path))
  {
    hide LookedAt, LeftOut, IsScan, Absolute, PlaceOf, Reports, ReportVisits, Report, SnapshotOf;
    UnchangedIsNotReported(s, visits, last, files, i);
    forall k | 0 <= k < Live(files)
      ensures Spot(files[k]) != SpotOf(visits[i].path)
    {
      var v := ListedAbsolute(s, visits, last, files, k);
      assert files[k] in files;
      if Spot(files[k]) == SpotOf(visits[i].path) {
        SamePlace(files[k].path, visits[i].path);
      }
    }
  }

  // Where an entry of the scan was met.
  lemma ListedAbsolute(s: Scope, visits: seq<Visit>, last: seq<FileMeta>, files: seq<FileMeta>, k: nat) returns (v: nat)
    requires Scanned(s, visits, last, files) && k < Live(files)
    ensures v < |visits| && ReportedAt(s, SnapshotOf(last), visits, v, files[k]) && LookedAt(s, visits, v)
    ensures Absolute(files[k].path) && files[k].path == visits[v].path
    ensures KindOf(files[k]) == DirEntry <==> visits[v].kind.Directory?
  {
    hide LookedAt, IsScan, Absolute, PlaceOf, Reports, ReportVisits, Report, SnapshotOf, TreeList, TombstonesFrom,
         Live, AreTombstones, WalkOfTree, AbsoluteFiles, LiveFirst;
    ScanIsTree(s, visits, last, files);
    ReportsInOrder(s, SnapshotOf(last), visits, |visits|);
    assert files[..Live(files)][k] == files[k];
    v := ReportVisits(s, SnapshotOf(last), visits, |visits|)[k];
    ReportedKind(s, SnapshotOf(last), visits, v, files[k]);
    ReportOnWalk(s, SnapshotOf(last), visits, v, files[k]);
  }

  lemma NothingBelowFile(s: Scope, visits: seq<Visit>, last: seq<FileMeta>, files: seq<FileMeta>, i: nat)
    requires Scanned(s, visits, last, files) && i < |visits| && !visits[i].kind.Directory?
    ensures Live(files) <= |files| && !ListedBelow(files, Live(files), SpotOf(visits[i].path))
    ensures SpotOf(visits[i].path) != []
  {
    hide LookedAt, IsScan, Absolute, PlaceOf, Live;
    forall k | 0 <= k < Live(files)
      ensures !(SpotOf(visits[i].path) < Spot(files[k]))
    {
      var v := ListedAbsolute(s, visits, last, files, k);
    }
  }

  /** An entry left out as unchanged: its place shows what the sessions before left there. */
  lemma LeftOutPlace(s: Scope, visits: seq<Visit>, last: seq<FileMeta>, files: seq<FileMeta>, content: Content,
                     d0: Disk, i: nat)
    requires Scanned(s, visits, last, files) && d0.Valid() && i < |visits|
    requires LookedAt(s, visits, i) && LeftOut(s, visits, last, i) && Steps(d0, files, content, |files|).ok
    ensures Live(files) <= |files|
    ensures var p := SpotOf(visits[i].path);
      Steps(d0, files, content, |files|).disk.At(p) ==
      if p != [] && ListedBelow(files, Live(files), p) then Some(DirNode) else d0.At(p)
  {
    hide Scanned, Disk.Valid, LookedAt, LeftOut, Steps, Live, ListedBelow, Listed, Buried;
    LeftOutIsNotListed(s, visits, last, files, i);
    VisitedIsNotBuried(s, visits, last, files, i);
    OtherPath(s, visits, last, files, content, d0, SpotOf(visits[i].path));
  }

  /** It is held in the end exactly if the sessions before hold it, and no entry of this one
      truncated its file with data that do not pass for it. */
  lemma LeftOutHeld(s: Scope, visits: seq<Visit>, last: seq<FileMeta>, files: seq<FileMeta>, c: Codec, content: Content,
                    d0: Disk, i: nat)
    requires Scanned(s, visits, last, files) && d0.Valid() && i < |visits|
    requires LookedAt(s, visits, i) && LeftOut(s, visits, last, i) && Steps(d0, files, content, |files|).ok
    ensures Live(files) <= |files| && visits[i].path in SnapshotOf(last)
    ensures var v := SnapshotOf(last)[visits[i].path];
      HoldsVersion(c, Steps(d0, files, content, |files|).disk, v) <==>
      StillHeld(c, d0, files, content, Live(files), v)
  {
    hide Scanned, Disk.Valid, LookedAt, LeftOut, Steps, Live, ListedBelow, Listed, Passes, SnapshotOf, Current,
         LastData;
    LeftOutKind(s, visits, last, i);
    LeftOutPlace(s, visits, last, files, content, d0, i);
    ScanIsPut(s, visits, last, files, content, d0);
    var m, v, p := Live(files), SnapshotOf(last)[visits[i].path], SpotOf(visits[i].path);
    var r := Steps(d0, files, content, |files|).disk;
    LeftOutData(d0, files, content, m, r.data, p);
    if KindOf(v) == SymEntry {
      NothingBelowFile(s, visits, last, files, i);
    } else if KindOf(v) == LinkEntry {
      NothingBelowFile(s, visits, last, files, i);
      LeftOutTarget(s, visits, last, files, content, d0, i);
      InodeIsOld(d0, p);
    }
  }

  lemma InodeIsOld(d: Disk, p: Place)
    requires d.Valid()
    ensures d.At(p).Some? && d.At(p).value.FileNode? ==> d.At(p).value.inode < |d.data|
  {
  }

  // The data of a file that is still under its name.
  lemma LeftOutData(d0: Disk, files: seq<FileMeta>, content: Content, m: nat, data: seq<seq<byte>>, p: Place)
    requires m <= |files| && AllFit(d0, files, m) && d0.Valid()
    requires |d0.data| <= |data| && forall i :: 0 <= i < |d0.data| ==> data[i] == LastData(d0, files, content, m, i)
    ensures p != [] && ListedBelow(files, m, p) ==> d0.At(p) == None || d0.At(p) == Some(DirNode)
    ensures d0.At(p).Some? && d0.At(p).value.FileNode? ==>
      var i := d0.At(p).value.inode;
      i < |d0.data| && data[i] == LastData(d0, files, content, m, i)
  {
    hide FitsIn, LastData;
    if p != [] && ListedBelow(files, m, p) {
      var k :| 0 <= k < m && p < Spot(files[k]);
      AboveFits(d0, files, k, p);
    }
  }

  // The file a hard link left out names.
  lemma LeftOutTarget(s: Scope, visits: seq<Visit>, last: seq<FileMeta>, files: seq<FileMeta>, content: Content,
                      d0: Disk, i: nat)
    requires Scanned(s, visits, last, files) && d0.Valid() && i < |visits| && LookedAt(s, visits, i)
    requires KindOf(Current(s, visits, i)) == LinkEntry && Steps(d0, files, content, |files|).ok
    requires Live(files) <= |files|
    ensures PlaceOf(Current(s, visits, i).linkname).Some?
    ensures var t, r := PlaceOf(Current(s, visits, i).linkname).value, Steps(d0, files, content, |files|).disk;
      || r.At(t) == d0.At(t)
      || (d0.At(t).None? && r.At(t).Some? && r.At(t).value.FileNode? && r.At(t).value.inode >= |d0.data|)
  {
    hide IsScan, Disk.Valid, LookedAt, Steps, Live, ListedBelow, Listed, Buried, Current, Absolute, PlaceOf;
    var a := LinkedFile(s, visits, i);
    TargetPlace(visits, a);
    var t, m := SpotOf(visits[a].path), Live(files);
    NothingBelowFile(s, visits, last, files, a);
    VisitedIsNotBuried(s, visits, last, files, a);
    if Listed(files, m, t) {
      ListedTarget(s, visits, last, files, content, d0, t, a);
    } else {
      OtherPath(s, visits, last, files, content, d0, t);
    }
  }

  lemma ListedTarget(s: Scope, visits: seq<Visit>, last: seq<FileMeta>, files: seq<FileMeta>, content: Content,
                     d0: Disk, t: Place, a: nat)
    requires Scanned(s, visits, last, files) && d0.Valid() && Live(files) <= |files| && Listed(files, Live(files), t)
    requires a < |visits| && visits[a].kind.Regular? && LookedAt(s, visits, a) && t == SpotOf(visits[a].path)
    requires KindOf(Current(s, visits, a)) == RegEntry
    requires Steps(d0, files, content, |files|).ok && !Buried(files, Live(files), |files|, t)
    ensures var r := Steps(d0, files, content, |files|).disk;
      || r.At(t) == d0.At(t)
      || (d0.At(t).None? && r.At(t).Some? && r.At(t).value.FileNode? && r.At(t).value.inode >= |d0.data|)
  {
    hide IsScan, Disk.Valid, LookedAt, Steps, Live, ListedBelow, Buried, Current, Absolute, PlaceOf, WalkOfTree,
         AbsoluteFiles, LastData;
    var m := Live(files);
    var k :| 0 <= k < m && Spot(files[k]) == t;
    ScanIsPut(s, visits, last, files, content, d0);
    var v := ListedAbsolute(s, visits, last, files, k);
    BesideTarget(s, SnapshotOf(last), visits, v, files[k], a);
    var d := Steps(d0, files, content, m).disk;
    assert ShapedAt(d0, files, content, m, d, t);
    assert InPlace(d0, d, files[k], content);
    assert ClearedAt(files, m, |files|, d, Steps(d0, files, content, |files|).disk, t);
    assert FitsIn(d0, files, k);
    assert t != [];
  }

  // What the session says of entry i.
  ghost predicate ReportOf(s: Scope, visits: seq<Visit>, i: nat, fm: FileMeta)
    requires i < |visits|
  {
    fm.path == visits[i].path && SameAttributes(Current(s, visits, i), fm) && fm.isDir == Current(s, visits, i).isDir
  }

  lemma ReportedEntry(s: Scope, visits: seq<Visit>, before: seq<FileMeta>, files: seq<FileMeta>, i: nat)
    returns (k: nat)
    requires Scanned(s, visits, before, files) && i < |visits|
    requires LookedAt(s, visits, i) && !LeftOut(s, visits, before, i)
    ensures k < Live(files) <= |files| && ReportOf(s, visits, i, files[k])
  {
    hide IsScan, WalkOfTree, AbsoluteFiles, TreeList, TombstonesFrom, AreTombstones, Reports, ReportVisits,
         SnapshotOf, LinksAfter, Excluded, Live, LiveFirst;
    var snapshot := SnapshotOf(before);
    ScanIsTree(s, visits, before, files);
    ReportsInOrder(s, snapshot, visits, |visits|);
    assert Report(s, snapshot, visits, i) != [];
    var rv := ReportVisits(s, snapshot, visits, |visits|);
    k :| 0 <= k < |rv| && rv[k] == i;
    assert files[..Live(files)][k] == files[k];
    ReportHasPath(s, snapshot, visits, i, files[k]);
  }

  // ----- Where no two names share a file ----------------------------------------------------------

  /** Then every entry of the scan is held, and every entry left out that was held before. */
  lemma UnsharedIsHeld(s: Scope, visits: seq<Visit>, last: seq<FileMeta>, files: seq<FileMeta>, c: Codec,
                       content: Content, d0: Disk)
    requires Scanned(s, visits, last, files) && d0.Valid() && Unshared(d0)
    requires Unchanged(c, files, content) && Steps(d0, files, content, |files|).ok
    ensures Live(files) <= |files|
    ensures forall k :: 0 <= k < Live(files) ==> HoldsVersion(c, Steps(d0, files, content, |files|).disk, files[k])
    ensures forall i :: 0 <= i < |visits| && LookedAt(s, visits, i) && LeftOut(s, visits, last, i) ==>
      KeepsLeftOut(visits, last, c, d0, Steps(d0, files, content, |files|).disk, i)
  {
    hide IsScan, WalkOfTree, AbsoluteFiles, Steps, Live, HoldsVersion, LookedAt, LeftOut, Disk.Valid, Unshared,
         LastData, TreeList, SnapshotOf, Unchanged, LiveFirst, TombstonesFrom, AreTombstones, Reports, EndsWell,
         StillHeld;
    ScanIsTree(s, visits, last, files);
    var r := Steps(d0, files, content, |files|).disk;
    forall k | 0 <= k < Live(files)
      ensures HoldsVersion(c, r, files[k])
    {
      EntryHeld(s, visits, last, files, c, content, d0, k);
      OwnDataPass(files, c, content, d0, Live(files), k);
    }
    forall i | 0 <= i < |visits| && LookedAt(s, visits, i) && LeftOut(s, visits, last, i)
      ensures KeepsLeftOut(visits, last, c, d0, r, i)
    {
      LeftOutHeld(s, visits, last, files, c, content, d0, i);
      LeftOutIsNotListed(s, visits, last, files, i);
      LeftOutKind(s, visits, last, i);
      var v := SnapshotOf(last)[visits[i].path];
      if HoldsVersion(c, d0, v) {
        HeldIsStillHeld(files, c, content, d0, Live(files), v);
      }
    }
  }

  // What was held of an entry left out is held still.
  ghost predicate KeepsLeftOut(visits: seq<Visit>, last: seq<FileMeta>, c: Codec, d0: Disk, r: Disk, i: nat)
    requires i < |visits|
  {
    && visits[i].path in SnapshotOf(last)
    && (HoldsVersion(c, d0, SnapshotOf(last)[visits[i].path]) ==>
        HoldsVersion(c, r, SnapshotOf(last)[visits[i].path]))
  }

  lemma OwnDataPass(files: seq<FileMeta>, c: Codec, content: Content, d0: Disk, m: nat, k: nat)
    requires d0.Valid() && Unshared(d0) && k < m <= |files| && TreeList(files, m) && Unchanged(c, files, content)
    ensures KindOf(files[k]) == RegEntry ==> EndsWell(c, d0, files, content, m, files[k])
  {
    hide LastData, DigestMatches, LinkInTree;
    var before := d0.At(Spot(files[k]));
    if KindOf(files[k]) == RegEntry && before.Some? && before.value.FileNode? && before.value.inode < |d0.data| {
      LastDataIsOwn(d0, files, content, m, m, k, before.value.inode);
      assert Passes(c, files[k], BytesOf(files[k], content));
    }
  }

  lemma HeldIsStillHeld(files: seq<FileMeta>, c: Codec, content: Content, d0: Disk, m: nat, v: FileMeta)
    requires d0.Valid() && Unshared(d0) && m <= |files| && !Listed(files, m, Spot(v))
    requires HoldsVersion(c, d0, v)
    ensures StillHeld(c, d0, files, content, m, v)
  {
    hide LastData, Passes;
    var before := d0.At(Spot(v));
    if KindOf(v) == RegEntry {
      LastDataIsOld(d0, files, content, m, Spot(v), before.value.inode);
    }
  }

  // ----- A first session and one more ------------------------------------------------------------

  lemma AllReportedAtFirst(s: Scope, visits: seq<Visit>, i: nat)
    requires i < |visits| && LookedAt(s, visits, i)
    ensures Report(s, map[], visits, i) != []
  {
  }

  // Into an empty destination everything fits.
  lemma FirstScanFits(s: Scope, visits: seq<Visit>, first: seq<FileMeta>)
    requires Scanned(s, visits, [], first)
    ensures Live(first) == |first| && AllFit(EMPTY_DISK, first, |first|)
  {
    hide LookedAt, IsScan, Absolute, PlaceOf, Reports, ReportVisits, Report, TreeList, TombstonesFrom, FitsIn,
         SnapshotOf;
    NothingInSnapshot();
    ScanIsTree(s, visits, [], first);
    NoneVanish(s, visits, first);
    forall k | 0 <= k < |first|
      ensures FitsIn(EMPTY_DISK, first, k)
    {
      FitsEmpty(s, visits, first, k);
    }
  }

  lemma NoneVanish(s: Scope, visits: seq<Visit>, first: seq<FileMeta>)
    requires Scanned(s, visits, [], first)
    ensures Live(first) == |first|
  {
    hide IsScan, WalkOfTree;
    var m := Live(first);
    assert m < |first| ==> first[m] in first;
    FirstScanHasNoTombstones(s, visits, first);
  }

  lemma FitsEmpty(s: Scope, visits: seq<Visit>, first: seq<FileMeta>, k: nat)
    requires Scanned(s, visits, [], first) && k < Live(first) == |first|
    ensures FitsIn(EMPTY_DISK, first, k)
  {
    hide LookedAt, IsScan, Absolute, PlaceOf, Reports, ReportVisits, Report, TreeList, TombstonesFrom, SnapshotOf,
         Live, Current, LiveFirst, AreTombstones;
    NothingInSnapshot();
    var v := ListedAbsolute(s, visits, [], first, k);
    if KindOf(first[k]) != DirEntry {
      NothingBelowFile(s, visits, [], first, v);
    }
    if KindOf(first[k]) == LinkEntry {
      var i := TargetIsListed(s, visits, first, k);
    }
  }

  // At the first scan the file a hard link names was listed before it.
  lemma TargetIsListed(s: Scope, visits: seq<Visit>, first: seq<FileMeta>, k: nat) returns (i: nat)
    requires Scanned(s, visits, [], first) && k < Live(first) == |first| && KindOf(first[k]) == LinkEntry
    ensures i < k && PlaceOf(first[k].linkname) == Some(Spot(first[i]))
  {
    hide LookedAt, IsScan, Absolute, PlaceOf, Reports, ReportVisits, Report, TreeList, TombstonesFrom, SnapshotOf,
         Live, Current, LiveFirst, AreTombstones, WalkOfTree;
    NothingInSnapshot();
    ScanIsTree(s, visits, [], first);
    assert first[..|first|] == first;
    var rv := ReportVisits(s, map[], visits, |visits|);
    ReportsInOrder(s, map[], visits, |visits|);
    ReportedKind(s, map[], visits, rv[k], first[k]);
    var a := LinkedFile(s, visits, rv[k]);
    AllReportedAtFirst(s, visits, a);
    i :| 0 <= i < |rv| && rv[i] == a;
    ReportedKind(s, map[], visits, rv[i], first[i]);
    TargetPlace(visits, a);
  }

  /** What the first session leaves: exactly the places listed, and the directories above
      them. */
  lemma FirstSession(s: Scope, visits: seq<Visit>, first: seq<FileMeta>, content: Content)
    requires Scanned(s, visits, [], first)
    ensures var r := Steps(EMPTY_DISK, first, content, |first|);
      && r.ok && r.disk.Valid()
      && forall p :: p != [] ==>
           && (p in r.disk.names <==> Listed(first, |first|, p) || ListedBelow(first, |first|, p))
           && (r.disk.Occupied(p) <==> ListedBelow(first, |first|, p))
  {
    hide Scanned, Shaped, AllFit, ClearedAt, Steps, Live, Listed, ListedBelow, Disk.Occupied;
    FirstScanFits(s, visits, first);
    assert EMPTY_DISK.Valid();
    ScanIsPut(s, visits, [], first, content, EMPTY_DISK);
    var r := Steps(EMPTY_DISK, first, content, |first|);
    forall p | p != []
      ensures p in r.disk.names <==> Listed(first, |first|, p) || ListedBelow(first, |first|, p)
      ensures r.disk.Occupied(p) <==> ListedBelow(first, |first|, p)
    {
      OccupiedAfter(EMPTY_DISK, first, content, |first|, r.disk, p);
      EmptyIsFree(p);
      PresentAfterFirst(first, content, r.disk, p);
    }
  }

  lemma EmptyIsFree(p: Place)
    ensures !EMPTY_DISK.Occupied(p)
  {
  }

  lemma PresentAfterFirst(first: seq<FileMeta>, content: Content, d: Disk, p: Place)
    requires Shaped(EMPTY_DISK, first, content, |first|, d) && p != []
    ensures p in d.names <==> Listed(first, |first|, p) || ListedBelow(first, |first|, p)
  {
    assert ShapedAt(EMPTY_DISK, first, content, |first|, d, p);
    if Listed(first, |first|, p) {
      var k :| 0 <= k < |first| && Spot(first[k]) == p;
      ListedIsPresent(EMPTY_DISK, first, content, |first|, d, k);
    }
  }

  /** A first session and one more in mirror mode, restored into an empty destination. The
      first is never refused; the second is accepted exactly if its entries fit what the
      first one left. Of what the second walk did not meet any more under the roots, exactly
      that stays which has something listed below it: a directory that was not empty is
      reached before what lies in it, and is not removed. */
  lemma FullAndIncrementRestore(s0: Scope, visits0: seq<Visit>, s: Scope, visits: seq<Visit>,
                                first: seq<FileMeta>, second: seq<FileMeta>, content0: Content, content: Content,
                                p: string)
    requires Scanned(s0, visits0, [], first) && Scanned(s, visits, first, second)
    requires s.job.mode == MODE_MIRROR && UnderRoots(p, s.job.paths) && Absolute(p) && SpotOf(p) != []
    ensures var full := Steps(EMPTY_DISK, first, content0, |first|);
      var both := Steps(full.disk, second, content, |second|);
      && full.ok && Live(second) <= |second|
      && (both.ok <==> AllFit(full.disk, second, Live(second)))
      && (both.ok && p !in Paths(visits, |visits|) ==>
          (SpotOf(p) in both.disk.names <==>
           ListedBelow(first, |first|, SpotOf(p)) || ListedBelow(second, Live(second), SpotOf(p))))
  {
    hide Scanned, Steps, AllFit, Listed, ListedBelow, Disk.Occupied, UnderRoots, Absolute, SnapshotOf, Paths,
         Disk.Valid, Shaped, ClearedAt, SpotOf;
    FirstSession(s0, visits0, first, content0);
    var d1 := Steps(EMPTY_DISK, first, content0, |first|).disk;
    ScanIsPut(s, visits, first, second, content, d1);
    var r := Steps(d1, second, content, |second|);
    if r.ok && p !in Paths(visits, |visits|) {
      if p in SnapshotOf(first) {
        VanishedPath(s, visits, first, second, content, d1, p);
      } else {
        NotInFirst(s0, visits0, s, visits, first, second, p);
        OtherPath(s, visits, first, second, content, d1, SpotOf(p));
        PresentIsAt(r.disk, d1, SpotOf(p));
      }
    }
  }

  lemma PresentIsAt(r: Disk, d: Disk, p: Place)
    requires p != []
    ensures (p in r.names <==> r.At(p).Some?) && (p in d.names <==> d.At(p).Some?)
  {
  }

  // A path neither met nor named before is listed nowhere.
  lemma NotInFirst(s0: Scope, visits0: seq<Visit>, s: Scope, visits: seq<Visit>,
                   first: seq<FileMeta>, second: seq<FileMeta>, p: string)
    requires Scanned(s0, visits0, [], first) && Scanned(s, visits, first, second)
    requires Absolute(p) && p !in Paths(visits, |visits|) && p !in SnapshotOf(first)
    ensures !Listed(first, |first|, SpotOf(p)) && Live(second) <= |second| && !Listed(second, Live(second), SpotOf(p))
    ensures !Buried(second, Live(second), |second|, SpotOf(p))
  {
    hide IsScan, Absolute, PlaceOf, Live, UnderRoots, WalkOfTree, LookedAt, SnapshotOf;
    SnapshotHasPaths(first);
    forall k | 0 <= k < |first|
      ensures Spot(first[k]) != SpotOf(p)
    {
      assert first[k].path in FilePaths(first, |first|);
      if Spot(first[k]) == SpotOf(p) {
        SamePlace(first[k].path, p);
      }
    }
    forall k | 0 <= k < Live(second)
      ensures Spot(second[k]) != SpotOf(p)
    {
      var v := ListedAbsolute(s, visits, first, second, k);
      if Spot(second[k]) == SpotOf(p) {
        SamePlace(second[k].path, p);
      }
    }
    forall k | Live(second) <= k < |second|
      ensures Spot(second[k]) != SpotOf(p)
    {
      GoneIsNamed(s, visits, first, second, k);
      if Spot(second[k]) == SpotOf(p) {
        SamePlace(second[k].path, p);
      }
    }
  }

  lemma GoneIsNamed(s: Scope, visits: seq<Visit>, last: seq<FileMeta>, files: seq<FileMeta>, k: nat)
    requires Scanned(s, visits, last, files) && Live(files) <= k < |files|
    ensures Absolute(files[k].path) && files[k].path in SnapshotOf(last)
  {
    hide Reports, Absolute, SnapshotOf, TreeList, UnderRoots, PlaceOf, IsScan, TombstonesFrom, Live, LiveFirst, Paths;
    ScanIsTree(s, visits, last, files);
    SnapshotIsAbsolute(last);
    var gone := files[Live(files)..];
    assert gone[k - Live(files)] == files[k];
    assert files[k] in gone;
  }
}
