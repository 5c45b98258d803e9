/** Inputs for which a restore does not give back what was walked. */
module RestoreExamples {
  import opened Domain
  import opened TapeMachine
  import opened TapeFormat
  import opened Scanning
  import opened ScannerTheorems
  import opened Destinations
  import opened DiskLaws
  import opened Replaying
  import opened ScanOnDisk
  import Grouping

  // ----- Paths and walks --------------------------------------------------------------------

  lemma PathOf(ss: seq<string>)
    requires Grouping.Clean(true, ss)
    ensures var p := Grouping.Render(true, ss);
      Absolute(p) && SpotOf(p) == ss && PlaceOf(p) == Some(ss)
  {
    hide Grouping.Clean, Grouping.Render, Grouping.Segments;
    Grouping.RenderedIsNormal(true, ss);
    AbsolutePlace(Grouping.Render(true, ss));
  }

  // The paths of the examples and their places.
  lemma Paths3()
    ensures Absolute("/d") && SpotOf("/d") == ["d"] && PlaceOf("/d") == Some(["d"])
    ensures Absolute("/d/x") && SpotOf("/d/x") == ["d", "x"] && PlaceOf("/d/x") == Some(["d", "x"])
    ensures Absolute("/d/y") && SpotOf("/d/y") == ["d", "y"] && PlaceOf("/d/y") == Some(["d", "y"])
    ensures Absolute("/d/x/f") && SpotOf("/d/x/f") == ["d", "x", "f"] && PlaceOf("/d/x/f") == Some(["d", "x", "f"])
  {
    hide Absolute, PlaceOf, SpotOf;
    PathOf(["d"]);
    PathOf(["d", "x"]);
    PathOf(["d", "y"]);
    PathOf(["d", "x", "f"]);
    assert Grouping.Render(true, ["d"]) == "/d";
    assert Grouping.Join(["x"]) == "x" && Grouping.Render(true, ["d", "x"]) == "/d/x";
    assert Grouping.Join(["y"]) == "y" && Grouping.Render(true, ["d", "y"]) == "/d/y";
    assert Grouping.Join(["f"]) == "f" && Grouping.Join(["x", "f"]) == "x/f";
    assert Grouping.Render(true, ["d", "x", "f"]) == "/d/x/f";
  }

  // A mirror job over /d that excludes nothing there.
  ghost predicate MirrorsAll(s: Scope) {
    && s.job.mode == MODE_MIRROR && s.job.paths == ["/d"]
    && !Excluded(s.matches, "/d") && !Excluded(s.matches, "/d/x") && !Excluded(s.matches, "/d/y")
    && !Excluded(s.matches, "/d/x/f")
  }

  lemma UnderD(s: Scope)
    requires MirrorsAll(s)
    ensures UnderRoots("/d/x", s.job.paths) && UnderRoots("/d/x/f", s.job.paths)
  {
    hide Excluded, Grouping.NormalizePath;
    Paths3();
    assert Grouping.NormalizePath("/d") == "/d";
    assert UnderRoot("/d/x", s.job.paths[0]) && UnderRoot("/d/x/f", s.job.paths[0]);
  }

  // ----- A directory that was not empty -------------------------------------------------------

  function DirectoryWithFile(): seq<Visit> {
    [Visit("/d", 0, 1, Directory, ""), Visit("/d/x", 0, 1, Directory, ""), Visit("/d/x/f", 1, 1, Regular, "")]
  }

  function DirectoryAlone(): seq<Visit> { [Visit("/d", 0, 1, Directory, "")] }

  /** /d/x and the file in it are removed after the first session. The second one has
      tombstones for both, the directory first; a restore removes the file and keeps the
      directory. */
  lemma NonemptyDirectoryStays(s: Scope, first: seq<FileMeta>, second: seq<FileMeta>, content0: Content,
                               content: Content)
    requires MirrorsAll(s)
    requires IsScan(s, DirectoryWithFile(), [], first) && IsScan(s, DirectoryAlone(), first, second)
    ensures var full := Steps(EMPTY_DISK, first, content0, |first|);
      var both := Steps(full.disk, second, content, |second|);
      full.ok && both.ok && ["d", "x"] in both.disk.names && ["d", "x", "f"] !in both.disk.names
  {
    hide IsScan, Excluded, Steps, ListedBelow, Absolute, PlaceOf, SpotOf, AllFit, UnderRoots;
    Paths3();
    UnderD(s);
    FilesAreAbsolute(s, DirectoryWithFile(), first);
    FullAndIncrementRestore(s, DirectoryWithFile(), s, DirectoryAlone(), first, second, content0, content, "/d/x");
    FullAndIncrementRestore(s, DirectoryWithFile(), s, DirectoryAlone(), first, second, content0, content, "/d/x/f");
    NothingNew(s, first, second);
    NoneToFit(second);
    NoneVanish(s, DirectoryWithFile(), first);
    FileBelow(s, first);
  }

  lemma NoneToFit(files: seq<FileMeta>)
    ensures forall d :: AllFit(d, files, 0)
    ensures forall p :: !ListedBelow(files, 0, p)
  {
  }

  // What a first scan of absolute paths gives can be compared with.
  lemma FilesAreAbsolute(s: Scope, visits: seq<Visit>, first: seq<FileMeta>)
    requires IsScan(s, visits, [], first) && WalkOfTree(visits)
    ensures Scanned(s, visits, [], first) && AbsoluteFiles(first)
  {
    hide IsScan, Absolute, WalkOfTree, PlaceOf, Live;
    NoneVanish(s, visits, first);
    forall k | 0 <= k < |first|
      ensures Absolute(first[k].path)
    {
      var v := ListedAbsolute(s, visits, [], first, k);
    }
  }

  lemma NothingNew(s: Scope, first: seq<FileMeta>, second: seq<FileMeta>)
    requires MirrorsAll(s) && Scanned(s, DirectoryWithFile(), [], first) && Scanned(s, DirectoryAlone(), first, second)
    ensures Live(second) == 0
  {
    hide IsScan, Excluded, Absolute, PlaceOf, WalkOfTree, SnapshotOf;
    FirstScanHolds(s, DirectoryWithFile(), first, 0);
    assert LeftOut(s, DirectoryAlone(), first, 0);
    if Live(second) > 0 {
      var v := ListedAbsolute(s, DirectoryAlone(), first, second, 0);
    }
  }

  lemma FileBelow(s: Scope, first: seq<FileMeta>)
    requires MirrorsAll(s) && Scanned(s, DirectoryWithFile(), [], first) && Live(first) == |first|
    ensures ListedBelow(first, |first|, ["d", "x"]) && !ListedBelow(first, |first|, ["d", "x", "f"])
  {
    hide IsScan, Excluded, Absolute, PlaceOf, WalkOfTree, SpotOf, Live;
    Paths3();
    NothingInSnapshot();
    var k := ReportedEntry(s, DirectoryWithFile(), [], first, 2);
    assert ["d", "x"] < Spot(first[k]);
    forall k | 0 <= k < |first|
      ensures !(["d", "x", "f"] < Spot(first[k]))
    {
      var v := ListedAbsolute(s, DirectoryWithFile(), [], first, k);
    }
  }

  // ----- A directory replaced by a file ---------------------------------------------------------

  function DirectoryX(): seq<Visit> { [Visit("/d/x", 0, 1, Directory, "")] }

  function FileX(): seq<Visit> { [Visit("/d/x", 1, 2, Regular, "")] }

  /** /d/x is a directory in the first session and a file in the second: the destination
      refuses the file, and the restore ends there. */
  lemma ReplacedDirectoryIsRefused(s: Scope, first: seq<FileMeta>, second: seq<FileMeta>, content0: Content,
                                   content: Content)
    requires MirrorsAll(s) && IsScan(s, DirectoryX(), [], first) && IsScan(s, FileX(), first, second)
    ensures var full := Steps(EMPTY_DISK, first, content0, |first|);
      full.ok && !Steps(full.disk, second, content, |second|).ok
  {
    hide IsScan, Excluded, Steps, ListedBelow, Absolute, PlaceOf, SpotOf, FitsIn, SnapshotOf, LinksAfter, Shaped;
    Paths3();
    FilesAreAbsolute(s, DirectoryX(), first);
    FirstSession(s, DirectoryX(), first, content0);
    var d := Steps(EMPTY_DISK, first, content0, |first|).disk;
    DirectoryIsThere(s, first, content0);
    ScanIsPut(s, FileX(), first, second, content, d);
    IsOneDirectory(s, first);
    var k := ReportedEntry(s, FileX(), first, second, 0);
    FileDoesNotFit(d, second, k);
  }

  lemma IsOneDirectory(s: Scope, first: seq<FileMeta>)
    requires MirrorsAll(s) && Scanned(s, DirectoryX(), [], first)
    ensures !LeftOut(s, FileX(), first, 0)
  {
    hide IsScan, Excluded, Absolute, PlaceOf, SpotOf, SnapshotOf;
    FirstScanHolds(s, DirectoryX(), first, 0);
    assert Current(s, DirectoryX(), 0).size == 0 && Current(s, FileX(), 0).size == 1;
  }

  lemma FileDoesNotFit(d: Disk, files: seq<FileMeta>, k: nat)
    requires k < |files| && d.At(Spot(files[k])) == Some(DirNode) && KindOf(files[k]) == RegEntry
    ensures !FitsIn(d, files, k)
  {
  }

  lemma DirectoryIsThere(s: Scope, first: seq<FileMeta>, content: Content)
    requires MirrorsAll(s) && Scanned(s, DirectoryX(), [], first)
    ensures Steps(EMPTY_DISK, first, content, |first|).disk.At(["d", "x"]) == Some(DirNode)
  {
    hide IsScan, Excluded, Steps, ListedBelow, Absolute, PlaceOf, SpotOf, AllFit, SnapshotOf, LinksAfter, ClearedAt;
    Paths3();
    NothingInSnapshot();
    FirstScanFits(s, DirectoryX(), first);
    ScanIsPut(s, DirectoryX(), [], first, content, EMPTY_DISK);
    var k := ReportedEntry(s, DirectoryX(), [], first, 0);
    var d := Steps(EMPTY_DISK, first, content, |first|).disk;
    assert ShapedAt(EMPTY_DISK, first, content, |first|, d, Spot(first[k]));
    assert InPlace(EMPTY_DISK, d, first[k], content);
  }

  // ----- A hard link taken apart ----------------------------------------------------------------

  function TwoNames(): seq<Visit> {
    [Visit("/d/x", 1, 1, Regular, "7"), Visit("/d/y", 1, 1, Regular, "7")]
  }

  function TwoFiles(): seq<Visit> {
    [Visit("/d/x", 2, 2, Regular, "8"), Visit("/d/y", 1, 1, Regular, "7")]
  }

  /** /d/x and /d/y name one file in the first session; then /d/x is replaced by a new file.
      The second session lists both as files. A restore writes one into the other: both
      names still share a file, which holds the data of /d/y in the end. */
  lemma HardLinkTakenApart(s: Scope, first: seq<FileMeta>, second: seq<FileMeta>, c: Codec, content0: Content,
                           content: Content)
    requires MirrorsAll(s) && IsScan(s, TwoNames(), [], first) && IsScan(s, TwoFiles(), first, second)
    requires Unchanged(c, second, content)
    ensures var full := Steps(EMPTY_DISK, first, content0, |first|);
      var both := Steps(full.disk, second, content, |second|);
      && full.ok && both.ok && |second| > 0 && second[0].path == "/d/x" && second[0].size == 2
      && !HoldsVersion(c, both.disk, second[0])
  {
    hide IsScan, Excluded, Steps, ListedBelow, Absolute, PlaceOf, SpotOf, FitsIn, SnapshotOf, LinksAfter, Shaped,
         DigestMatches, Live, Reports, Current, AllFit, HoldsVersion, EndsWell;
    Paths3();
    FilesAreAbsolute(s, TwoNames(), first);
    FirstSession(s, TwoNames(), first, content0);
    var d := Steps(EMPTY_DISK, first, content0, |first|).disk;
    var i := SharedFile(s, first, content0);
    BothReported(s, first, second);
    ScanIsPut(s, TwoFiles(), first, second, content, d);
    FilesFit(d, second, i);
    EntryHeld(s, TwoFiles(), first, second, c, content, d, 0);
    EndsWithTheOther(c, d, second, content, i);
  }

  // Both names of the first session share a file.
  lemma SharedFile(s: Scope, first: seq<FileMeta>, content: Content) returns (i: nat)
    requires MirrorsAll(s) && Scanned(s, TwoNames(), [], first)
    ensures var d := Steps(EMPTY_DISK, first, content, |first|).disk;
      i < |d.data| && d.At(["d", "x"]) == Some(FileNode(i)) && d.At(["d", "y"]) == Some(FileNode(i))
  {
    hide IsScan, Excluded, Steps, ListedBelow, Absolute, PlaceOf, SpotOf, AllFit, SnapshotOf, ClearedAt, LinksAfter;
    Paths3();
    NothingInSnapshot();
    NamesAreLinked(s);
    FirstScanFits(s, TwoNames(), first);
    ScanIsPut(s, TwoNames(), [], first, content, EMPTY_DISK);
    var x := ReportedEntry(s, TwoNames(), [], first, 0);
    var y := ReportedEntry(s, TwoNames(), [], first, 1);
    var d := Steps(EMPTY_DISK, first, content, |first|).disk;
    assert ShapedAt(EMPTY_DISK, first, content, |first|, d, Spot(first[x]));
    assert ShapedAt(EMPTY_DISK, first, content, |first|, d, Spot(first[y]));
    assert InPlace(EMPTY_DISK, d, first[x], content) && InPlace(EMPTY_DISK, d, first[y], content);
    i := d.At(["d", "x"]).value.inode;
  }

  lemma NamesAreLinked(s: Scope)
    requires MirrorsAll(s)
    ensures LookedAt(s, TwoNames(), 0) && LookedAt(s, TwoNames(), 1)
    ensures Current(s, TwoNames(), 0) == FileMeta("/d/x", 1, 1, false, "", "", "", "", "")
    ensures Current(s, TwoNames(), 1) == FileMeta("/d/y", 1, 1, false, "", "", "", TYPE_HARDLINK, "/d/x")
  {
    hide Excluded;
    assert LinksAfter(s, TwoNames(), 0) == map[];
  }

  lemma FilesAreApart(s: Scope)
    requires MirrorsAll(s)
    ensures LookedAt(s, TwoFiles(), 0) && LookedAt(s, TwoFiles(), 1)
    ensures Current(s, TwoFiles(), 0) == FileMeta("/d/x", 2, 2, false, "", "", "", "", "")
    ensures Current(s, TwoFiles(), 1) == FileMeta("/d/y", 1, 1, false, "", "", "", "", "")
  {
    hide Excluded;
    assert LinksAfter(s, TwoFiles(), 0) == map[];
  }

  lemma BothReported(s: Scope, first: seq<FileMeta>, second: seq<FileMeta>)
    requires MirrorsAll(s) && IsScan(s, TwoNames(), [], first) && Scanned(s, TwoFiles(), first, second)
    ensures Live(second) == 2 <= |second|
    ensures second[0].path == "/d/x" && second[0].size == 2 && KindOf(second[0]) == RegEntry
    ensures second[1].path == "/d/y" && second[1].size == 1 && KindOf(second[1]) == RegEntry
    ensures !second[1].IsDeleted()
  {
    hide IsScan, Excluded, Absolute, PlaceOf, SpotOf, SnapshotOf, LinksAfter, WalkOfTree, Live, TreeList,
         TombstonesFrom, LookedAt, Current, AreTombstones, Digested;
    NamesAreLinked(s);
    FilesAreApart(s);
    FirstScanHolds(s, TwoNames(), first, 0);
    FirstScanHolds(s, TwoNames(), first, 1);
    ScanIsTree(s, TwoFiles(), first, second);
    TwoReports(s, SnapshotOf(first), TwoFiles());
    var live := second[..Live(second)];
    assert live == Report(s, SnapshotOf(first), TwoFiles(), 0) + Report(s, SnapshotOf(first), TwoFiles(), 1);
    ReportHasPath(s, SnapshotOf(first), TwoFiles(), 0, live[0]);
    ReportHasPath(s, SnapshotOf(first), TwoFiles(), 1, live[1]);
    assert second[0] == live[0] && second[1] == live[1];
  }

  lemma TwoReports(s: Scope, snapshot: Snapshot, visits: seq<Visit>)
    requires |visits| == 2
    ensures Reports(s, snapshot, visits, 2) == Report(s, snapshot, visits, 0) + Report(s, snapshot, visits, 1)
  {
    hide Report;
    assert Reports(s, snapshot, visits, 0) == [];
    assert Reports(s, snapshot, visits, 1) == [] + Report(s, snapshot, visits, 0);
  }

  lemma FilesFit(d: Disk, files: seq<FileMeta>, i: nat)
    requires d.Valid() && |files| >= 2 && KindOf(files[0]) == RegEntry && KindOf(files[1]) == RegEntry
    requires d.At(Spot(files[0])) == Some(FileNode(i)) && d.At(Spot(files[1])) == Some(FileNode(i))
    ensures AllFit(d, files, 2)
  {
    hide SpotOf;
    PresentIsReached(d, Spot(files[0]));
    PresentIsReached(d, Spot(files[1]));
    assert FitsIn(d, files, 0) && FitsIn(d, files, 1);
  }

  lemma EndsWithTheOther(c: Codec, d: Disk, files: seq<FileMeta>, content: Content, i: nat)
    requires |files| >= 2 && KindOf(files[1]) == RegEntry && !files[1].IsDeleted() && Unchanged(c, files, content)
    requires i < |d.data| && files[0].size != files[1].size
    requires d.At(Spot(files[0])) == Some(FileNode(i)) && d.At(Spot(files[1])) == Some(FileNode(i))
    ensures !EndsWell(c, d, files, content, 2, files[0])
  {
    hide SpotOf, DigestMatches;
    assert LastData(d, files, content, 2, i) == BytesOf(files[1], content);
  }

  // ----- A forced full backup -------------------------------------------------------------------

  /** /d/x is in the last session and unchanged, and a full backup is forced. The scan leaves
      it out; what is restored from the new session alone does not have it, what is restored
      from both has. */
  lemma ForcedFullLosesFiles(s: Scope, first: seq<FileMeta>, files: seq<FileMeta>, content0: Content, content: Content)
    requires MirrorsAll(s)
    requires IsScan(s, WalkOfOne(1, 1), [], first) && IsScan(s, WalkOfOne(1, 1), first, files)
    ensures var full := Steps(EMPTY_DISK, first, content0, |first|);
      var alone, both := Steps(EMPTY_DISK, files, content, |files|), Steps(full.disk, files, content, |files|);
      && full.ok && alone.ok && both.ok
      && ["d", "x"] !in alone.disk.names && ["d", "x"] in both.disk.names
  {
    hide IsScan, Excluded, Steps, ListedBelow, Absolute, PlaceOf, SpotOf, SnapshotOf, LinksAfter, Shaped, Live,
         Current, LookedAt, LeftOut, AllFit;
    Paths3();
    FilesAreAbsolute(s, WalkOfOne(1, 1), first);
    FirstSession(s, WalkOfOne(1, 1), first, content0);
    OneIsUnchanged(s, first, files);
    NoneToFit(files);
    var d := Steps(EMPTY_DISK, first, content0, |first|).disk;
    ScanIsPut(s, WalkOfOne(1, 1), first, files, content, EMPTY_DISK);
    ScanIsPut(s, WalkOfOne(1, 1), first, files, content, d);
    LeftOutPlace(s, WalkOfOne(1, 1), first, files, content, EMPTY_DISK, 0);
    LeftOutPlace(s, WalkOfOne(1, 1), first, files, content, d, 0);
    NothingInSnapshot();
    var k := ReportedEntry(s, WalkOfOne(1, 1), [], first, 0) by { NotLeftOutAtFirst(s, WalkOfOne(1, 1), 0); }
    assert Listed(first, |first|, ["d", "x"]);
  }

  lemma NotLeftOutAtFirst(s: Scope, visits: seq<Visit>, i: nat)
    requires i < |visits|
    ensures !LeftOut(s, visits, [], i)
  {
    hide LinksAfter;
  }

  lemma OneIsUnchanged(s: Scope, first: seq<FileMeta>, files: seq<FileMeta>)
    requires MirrorsAll(s) && IsScan(s, WalkOfOne(1, 1), [], first) && Scanned(s, WalkOfOne(1, 1), first, files)
    ensures LookedAt(s, WalkOfOne(1, 1), 0) && LeftOut(s, WalkOfOne(1, 1), first, 0) && Live(files) == 0
  {
    hide IsScan, Excluded, Absolute, PlaceOf, WalkOfTree, SnapshotOf, LinksAfter;
    FirstScanHolds(s, WalkOfOne(1, 1), first, 0);
    assert LeftOut(s, WalkOfOne(1, 1), first, 0);
    if Live(files) > 0 {
      var v := ListedAbsolute(s, WalkOfOne(1, 1), first, files, 0);
    }
  }

  // ----- A deletion that is forgotten -----------------------------------------------------------

  /** /d/x is there at the first two scans and gone at the third. No session has a tombstone
      for it, and a restore of the three brings it back. */
  lemma DeletedFileComesBack(s: Scope, first: seq<FileMeta>, second: seq<FileMeta>, third: seq<FileMeta>,
                             c0: Content, c1: Content, c2: Content)
    requires MirrorsAll(s)
    requires IsScan(s, WalkOfOne(1, 1), [], first) && IsScan(s, WalkOfOne(1, 1), first, second)
    requires IsScan(s, [], second, third)
    ensures var one := Steps(EMPTY_DISK, first, c0, |first|);
      var two := Steps(one.disk, second, c1, |second|);
      var three := Steps(two.disk, third, c2, |third|);
      one.ok && two.ok && three.ok && ["d", "x"] in three.disk.names
  {
    hide IsScan, Excluded, Steps, ListedBelow, Listed, Buried, Absolute, PlaceOf, SpotOf, SnapshotOf, Shaped, Live,
         AllFit, LeftOut, LookedAt, Paths;
    Paths3();
    ForcedFullLosesFiles(s, first, second, c0, c1);
    FilesAreAbsolute(s, WalkOfOne(1, 1), first);
    OneIsUnchanged(s, first, second);
    SecondIsOther(s, first, second);
    NothingMet(s, second, third);
    FirstSession(s, WalkOfOne(1, 1), first, c0);
    var two := Steps(Steps(EMPTY_DISK, first, c0, |first|).disk, second, c1, |second|);
    ScanIsPut(s, WalkOfOne(1, 1), first, second, c1, Steps(EMPTY_DISK, first, c0, |first|).disk);
    NoneToFit(third);
    ScanIsPut(s, [], second, third, c2, two.disk);
    OtherPath(s, [], second, third, c2, two.disk, ["d", "x"]);
    assert two.disk.At(["d", "x"]).Some?;
  }

  // The second session names other paths only, all of them absolute.
  lemma SecondIsOther(s: Scope, first: seq<FileMeta>, second: seq<FileMeta>)
    requires MirrorsAll(s) && Scanned(s, WalkOfOne(1, 1), first, second)
    requires LookedAt(s, WalkOfOne(1, 1), 0) && LeftOut(s, WalkOfOne(1, 1), first, 0) && Live(second) == 0
    ensures AbsoluteFiles(second) && forall x :: x in second ==> x.path != "/d/x"
  {
    hide IsScan, Excluded, Absolute, SnapshotOf, LeftOut, LookedAt, WalkOfTree, Live;
    UnchangedIsNotReported(s, WalkOfOne(1, 1), first, second, 0);
    forall k | 0 <= k < |second|
      ensures Absolute(second[k].path)
    {
      GoneIsNamed(s, WalkOfOne(1, 1), first, second, k);
    }
  }

  lemma NothingMet(s: Scope, second: seq<FileMeta>, third: seq<FileMeta>)
    requires IsScan(s, [], second, third) && AbsoluteFiles(second) && forall x :: x in second ==> x.path != "/d/x"
    ensures Scanned(s, [], second, third) && Live(third) == 0
    ensures !Listed(third, 0, ["d", "x"]) && !ListedBelow(third, 0, ["d", "x"])
    ensures !Buried(third, 0, |third|, ["d", "x"])
  {
    hide IsScan, Absolute, PlaceOf, SpotOf, Live;
    Paths3();
    if Live(third) > 0 {
      var v := ListedAbsolute(s, [], second, third, 0);
    }
    SnapshotHasPaths(second);
    forall k | 0 <= k < |third|
      ensures Spot(third[k]) != ["d", "x"]
    {
      GoneIsNamed(s, [], second, third, k);
      assert third[k].path in FilePaths(second, |second|);
      if Spot(third[k]) == SpotOf("/d/x") {
        SamePlace(third[k].path, "/d/x");
      }
    }
  }
}
