/** Histories in which every entry comes back: no path changes between directory, symbolic
    link and file, and there are no hard links. */
module PlainHistories {
  import opened Domain
  import opened Catalogs
  import opened TapeMachine
  import opened TapeFormat
  import opened Layout
  import opened Destinations
  import opened DiskLaws
  import opened Replaying
  import opened Scanning
  import opened ScannerTheorems
  import opened ScanOnDisk
  import opened Restoring
  import opened Worlds
  import opened SpanRuns
  import opened Backups
  import opened RoundTrips
  import SpanPlanner

  // ----- Kinds ------------------------------------------------------------------------------

  /** In a list of files, of however many sessions: each path has one kind, only directories
      have something below them, and nothing is a hard link. */
  ghost predicate KindsKept(all: seq<FileMeta>) {
    && (forall i :: 0 <= i < |all| && !all[i].IsDeleted() ==>
          && Absolute(all[i].path) && KindOf(all[i]) != LinkEntry
          && (KindOf(all[i]) != DirEntry ==> Spot(all[i]) != []))
    && (forall i, j :: 0 <= i < |all| && 0 <= j < |all| && !all[i].IsDeleted() && !all[j].IsDeleted() ==>
          && (Spot(all[i]) == Spot(all[j]) ==> KindOf(all[i]) == KindOf(all[j]))
          && (Spot(all[i]) < Spot(all[j]) ==> KindOf(all[i]) == DirEntry))
  }

  ghost predicate Matches(node: Node, kind: EntryKind) {
    && (node == DirNode <==> kind == DirEntry) && (node.LinkNode? <==> kind == SymEntry)
    && (node.FileNode? <==> kind == RegEntry)
  }

  // Where a node of the destination comes from.
  ghost predicate Explained(all: seq<FileMeta>, p: Place, node: Node) {
    || (exists i :: 0 <= i < |all| && !all[i].IsDeleted() && Spot(all[i]) == p && Matches(node, KindOf(all[i])))
    || (node == DirNode && exists i :: 0 <= i < |all| && !all[i].IsDeleted() && p < Spot(all[i]))
  }

  /** A destination that holds nothing but what such a list puts there. */
  ghost predicate Plain(d: Disk, all: seq<FileMeta>) {
    d.Valid() && Unshared(d) && forall p :: p in d.names ==> Explained(all, p, d.names[p])
  }

  lemma PlainAccepts(d: Disk, all: seq<FileMeta>, k: nat, linkname: string)
    requires Plain(d, all) && KindsKept(all) && k < |all| && !all[k].IsDeleted()
    ensures Accepts(d, KindOf(all[k]), Spot(all[k]), linkname)
  {
    hide Disk.Valid, Unshared, Absolute, PlaceOf, SpotOf, Disk.Occupied;
    var p := Spot(all[k]);
    forall q | q in d.names && q < p
      ensures d.names[q] == DirNode
    {
      assert Explained(all, q, d.names[q]);
    }
    assert !d.Blocked(p);
    if p in d.names {
      assert Explained(all, p, d.names[p]);
    }
  }

  lemma PlainPut(d: Disk, all: seq<FileMeta>, k: nat, linkname: string, bytes: seq<byte>)
    requires Plain(d, all) && KindsKept(all) && k < |all| && !all[k].IsDeleted()
    ensures var r := PutEntry(d, KindOf(all[k]), Some(Spot(all[k])), linkname, bytes);
      r.ok && Plain(r.disk, all)
  {
    hide Disk.Valid, Unshared, Absolute, PlaceOf, SpotOf, Accepts, PutEntry;
    var p, kind := Spot(all[k]), KindOf(all[k]);
    PlainAccepts(d, all, k, linkname);
    PutAt(d, kind, p, linkname, bytes);
    PutUnshared(d, kind, p, linkname, bytes);
    var r := PutEntry(d, kind, Some(p), linkname, bytes).disk;
    NewNodeMatches(d, kind, p, linkname);
    forall q | q in r.names
      ensures Explained(all, q, r.names[q])
    {
      NamedIsNotRoot(r, q);
      assert r.At(q) == Some(r.names[q]);
      if q != p && !(q < p) {
        assert d.At(q) == r.At(q) && q in d.names;
      }
    }
  }

  lemma NamedIsNotRoot(d: Disk, q: Place)
    requires d.Valid() && q in d.names
    ensures q != []
  {
  }

  lemma NewNodeMatches(d: Disk, kind: EntryKind, p: Place, linkname: string)
    requires d.Valid() && Accepts(d, kind, p, linkname) && kind != LinkEntry && kind != OtherEntry
    ensures Matches(NodeFor(d, kind, p, linkname), kind)
  {
  }

  lemma PlainRemove(d: Disk, all: seq<FileMeta>, place: Option<Place>)
    requires Plain(d, all)
    ensures Plain(RemoveAt(d, place), all)
  {
    hide Disk.Valid, Unshared, Explained, Disk.Blocked, Removable;
    RemoveUnshared(d, place);
  }

  // ----- Sessions ---------------------------------------------------------------------------

  ghost predicate Among(files: seq<FileMeta>, all: seq<FileMeta>) {
    forall x :: x in files ==> x in all
  }

  // An entry elsewhere leaves it alone.
  lemma PutKeepsHeld(c: Codec, d: Disk, all: seq<FileMeta>, v: FileMeta, fm: FileMeta, bytes: seq<byte>)
    requires Plain(d, all) && KindsKept(all) && v in all && fm in all && !v.IsDeleted() && !fm.IsDeleted()
    requires HoldsVersion(c, d, v) && Spot(v) != Spot(fm)
    ensures HoldsVersion(c, PutEntry(d, KindOf(fm), Some(Spot(fm)), fm.linkname, bytes).disk, v)
  {
    hide PutEntry, Passes, Disk.Blocked, Disk.Occupied, Accepts, Absolute, PlaceOf, SpotOf, Explained;
    var k :| 0 <= k < |all| && all[k] == fm;
    var i :| 0 <= i < |all| && all[i] == v;
    PlainAccepts(d, all, k, fm.linkname);
    PutAt(d, KindOf(fm), Spot(fm), fm.linkname, bytes);
    var r := PutEntry(d, KindOf(fm), Some(Spot(fm)), fm.linkname, bytes).disk;
    assert Spot(v) < Spot(fm) ==> KindOf(v) == DirEntry;
    if KindOf(v) == RegEntry {
      assert r.At(Spot(v)) == d.At(Spot(v));
    }
  }

  lemma {:induction false} EntriesAreHeld(c: Codec, files: seq<FileMeta>, all: seq<FileMeta>, entries: seq<TarEntry>,
                                          n: nat, d: Disk)
    requires Plain(d, all) && KindsKept(all) && Among(files, all) && AsListed(files, entries) && n <= |entries|
    requires forall k :: 0 <= k < |entries| ==> EntryPasses(c, files, entries[k])
    ensures var a := ApplyEntries(c, Everything, files, entries, n, d);
      && a.verdict.Fine? && Plain(a.disk, all)
      && forall k :: 0 <= k < n ==> NamedIsHeld(c, files, entries[k].name, a.disk)
  {
    hide KindsKept, Plain, Among, AsListed, EntryPasses, ApplyEntry, NamedIsHeld;
    if n > 0 {
      EntriesAreHeld(c, files, all, entries, n - 1, d);
      var a := ApplyEntries(c, Everything, files, entries, n - 1, d);
      OneMoreIsHeld(c, files, all, entries, n - 1, a.disk);
    }
  }

  ghost predicate NamedIsHeld(c: Codec, files: seq<FileMeta>, path: string, d: Disk) {
    FileNamed(files, path).Some? && HoldsVersion(c, d, FileNamed(files, path).value)
  }

  lemma OneMoreIsHeld(c: Codec, files: seq<FileMeta>, all: seq<FileMeta>, entries: seq<TarEntry>, n: nat, d: Disk)
    requires Plain(d, all) && KindsKept(all) && Among(files, all) && AsListed(files, entries) && n < |entries|
    requires EntryPasses(c, files, entries[n])
    requires forall k :: 0 <= k < n ==> NamedIsHeld(c, files, entries[k].name, d)
    ensures var a := ApplyEntry(c, Everything, files, entries[n], d);
      && a.verdict.Fine? && Plain(a.disk, all)
      && forall k :: 0 <= k < n + 1 ==> NamedIsHeld(c, files, entries[k].name, a.disk)
  {
    hide KindsKept, Plain, Accepts, PutEntry, HoldsVersion, RemoveAt, DigestMatches, PlaceOf;
    var e := entries[n];
    var fm := FileNamed(files, e.name).value;
    NamedIsAmong(files, e.name);
    var i := IndexIn(all, fm);
    PlaceKept(all, i);
    PlainPut(d, all, i, fm.linkname, e.content);
    PlainAccepts(d, all, i, fm.linkname);
    assert KindOf(fm) == RegEntry ==> Passes(c, fm, e.content);
    PlainIsValid(d, all);
    PutIsHeld(c, d, fm, e.content);
    var r := PutEntry(d, KindOf(fm), Some(Spot(fm)), fm.linkname, e.content).disk;
    forall k | 0 <= k < n + 1
      ensures NamedIsHeld(c, files, entries[k].name, r)
    {
      if k < n {
        assert NamedIsHeld(c, files, entries[k].name, d);
        var v := FileNamed(files, entries[k].name).value;
        NamedIsAmong(files, entries[k].name);
        if Spot(v) == Spot(fm) {
          var j := IndexIn(all, v);
          PlaceKept(all, j);
          SamePlace(v.path, fm.path);
        } else {
          PutKeepsHeld(c, d, all, v, fm, e.content);
        }
      }
    }
  }

  lemma PlainIsValid(d: Disk, all: seq<FileMeta>)
    requires Plain(d, all)
    ensures d.Valid()
  {
  }

  lemma IndexIn(all: seq<FileMeta>, fm: FileMeta) returns (i: nat)
    requires fm in all
    ensures i < |all| && all[i] == fm
  {
    i :| 0 <= i < |all| && all[i] == fm;
  }

  lemma PlaceKept(all: seq<FileMeta>, i: nat)
    requires KindsKept(all) && i < |all| && !all[i].IsDeleted()
    ensures Absolute(all[i].path) && PlaceOf(all[i].path) == Some(Spot(all[i])) && KindOf(all[i]) != LinkEntry
  {
    hide Absolute, PlaceOf;
    AbsolutePlace(all[i].path);
  }

  // Tombstones of other paths leave a live file alone.
  lemma {:induction false} ClearingKeepsHeld(c: Codec, files: seq<FileMeta>, all: seq<FileMeta>, n: nat, d: Disk,
                                             v: FileMeta)
    requires Plain(d, all) && KindsKept(all) && n <= |files| && AbsoluteFiles(files) && DistinctPaths(files)
    requires v in files && v in all && !v.IsDeleted() && HoldsVersion(c, d, v)
    ensures Plain(Cleared(Everything, files, n, d), all) && HoldsVersion(c, Cleared(Everything, files, n, d), v)
  {
    hide KindsKept, Plain, HoldsVersion, Absolute, Remove, PlaceOf;
    if n > 0 {
      ClearingKeepsHeld(c, files, all, n - 1, d, v);
      var prev, fm := Cleared(Everything, files, n - 1, d), files[n - 1];
      PlainRemove(prev, all, PlaceOf(fm.path));
      if fm.IsDeleted() {
        var i := IndexIn(files, v);
        assert fm.path != v.path;
        AbsolutePlace(fm.path);
        if SpotOf(fm.path) == SpotOf(v.path) {
          SamePlace(fm.path, v.path);
        }
        var j := IndexIn(all, v);
        PlaceKept(all, j);
        RemovalKeepsHeld(c, prev, all, v, SpotOf(fm.path));
      }
    }
  }

  lemma RemovalKeepsHeld(c: Codec, d: Disk, all: seq<FileMeta>, v: FileMeta, p: Place)
    requires Plain(d, all) && HoldsVersion(c, d, v) && KindOf(v) != LinkEntry && Spot(v) != p
    ensures HoldsVersion(c, Remove(d, p).disk, v)
  {
    hide Remove, Passes, Disk.Valid, Explained;
    RemoveAtPlace(d, p);
  }

  // A session as it was written puts everything in its place.
  ghost predicate PlainSession(c: Codec, rec: Recorded, all: seq<FileMeta>)
    requires Readable(c, rec)
  {
    var files := ReadIndex(c, Concat(rec.index)).idx.files;
    Among(files, all) && AsListed(files, c.untar(Concat(rec.tar)).value)
  }

  lemma {:induction false} ClearingKeepsPlain(files: seq<FileMeta>, all: seq<FileMeta>, n: nat, d: Disk)
    requires Plain(d, all) && n <= |files|
    ensures Plain(Cleared(Everything, files, n, d), all)
  {
    hide Plain, RemoveAt;
    if n > 0 {
      ClearingKeepsPlain(files, all, n - 1, d);
      PlainRemove(Cleared(Everything, files, n - 1, d), all, PlaceOf(files[n - 1].path));
    }
  }

  lemma SessionIsPlain(c: Codec, rec: Recorded, all: seq<FileMeta>, d: Disk)
    requires Readable(c, rec) && PlainSession(c, rec, all) && KindsKept(all) && Plain(d, all)
    ensures ReplaySession(c, rec, d).ok && Plain(ReplaySession(c, rec, d).disk, all)
  {
    hide KindsKept, Plain, Among, AsListed, EntryPasses, ApplyEntries, ReadIndex, Concat, NamedIsHeld, Cleared;
    var files, entries := ReadIndex(c, Concat(rec.index)).idx.files, c.untar(Concat(rec.tar)).value;
    EntriesAreHeld(c, files, all, entries, |entries|, d);
    ClearingKeepsPlain(files, all, |files|, ApplyEntries(c, Everything, files, entries, |entries|, d).disk);
  }

  /** After it, the destination holds every live file it lists. */
  lemma SessionIsHeld(c: Codec, rec: Recorded, all: seq<FileMeta>, d: Disk, v: FileMeta)
    requires Readable(c, rec) && PlainSession(c, rec, all) && KindsKept(all) && Plain(d, all)
    requires var files := ReadIndex(c, Concat(rec.index)).idx.files;
      AbsoluteFiles(files) && DistinctPaths(files) && v in files && !v.IsDeleted()
    ensures HoldsVersion(c, ReplaySession(c, rec, d).disk, v)
  {
    hide KindsKept, Plain, EntryPasses, ApplyEntries, ReadIndex, Concat, Cleared, AsListed, AbsoluteFiles,
         DistinctPaths, HoldsVersion;
    var files, entries := ReadIndex(c, Concat(rec.index)).idx.files, c.untar(Concat(rec.tar)).value;
    EntriesAreHeld(c, files, all, entries, |entries|, d);
    var i := IndexIn(files, v);
    FileNamedUnique(files, i);
    assert MetIn(files[i], entries);
    var k :| 0 <= k < |entries| && entries[k].name == v.path;
    assert NamedIsHeld(c, files, entries[k].name, ApplyEntries(c, Everything, files, entries, |entries|, d).disk);
    ClearingKeepsHeld(c, files, all, |files|, ApplyEntries(c, Everything, files, entries, |entries|, d).disk, v);
  }

  lemma {:induction false} HistoryIsPlain(c: Codec, recs: seq<Recorded>, all: seq<FileMeta>, n: nat, d: Disk)
    requires AllReadable(c, recs) && n <= |recs| && KindsKept(all) && Plain(d, all)
    requires forall k :: 0 <= k < |recs| ==> PlainSession(c, recs[k], all)
    ensures Replayed(c, recs, n, d).ok && Plain(Replayed(c, recs, n, d).disk, all)
  {
    hide KindsKept, Plain, ReplaySession, Readable, PlainSession;
    if n > 0 {
      HistoryIsPlain(c, recs, all, n - 1, d);
      SessionIsPlain(c, recs[n - 1], all, Replayed(c, recs, n - 1, d).disk);
    }
  }

  // ----- A backup of such a history -----------------------------------------------------------

  /** All files the chain lists: those of the sessions kept, and those of the scan. */
  ghost function AllFiles(a: Account): seq<FileMeta>
    requires AllReadable(a.run.setup.codec, a.run.base)
    reads a.run
  {
    FilesRead(Headers(a.run.setup.codec, a.run.base)) + a.files
  }

  lemma {:induction false} PartIsAmong(lists: seq<seq<FileMeta>>, k: nat)
    requires k < |lists|
    ensures Among(lists[k], SpanPlanner.Flatten(lists))
  {
    var n := |lists| - 1;
    if k < n {
      PartIsAmong(lists[..n], k);
    }
  }

  lemma SessionIsAmong(a: Account, k: nat)
    requires AllReadable(a.run.setup.codec, a.run.base) && k < |a.run.base|
    ensures Readable(a.run.setup.codec, a.run.base[k])
    ensures Among(ReadIndex(a.run.setup.codec, Concat(a.run.base[k].index)).idx.files, AllFiles(a))
  {
    hide ReadIndex, Concat, ReadsTar, SpanPlanner.Flatten;
    var headers := Headers(a.run.setup.codec, a.run.base);
    PartIsAmong(FileLists(headers), k);
  }

  /** The sessions kept were written as their indexes list them. */
  ghost predicate WrittenAsListed(c: Codec, base: seq<Recorded>)
    requires AllReadable(c, base)
  {
    forall k :: 0 <= k < |base| ==> ListedSession(c, base[k])
  }

  ghost predicate ListedSession(c: Codec, rec: Recorded) {
    Readable(c, rec) && AsListed(ReadIndex(c, Concat(rec.index)).idx.files, c.untar(Concat(rec.tar)).value)
  }

  /** An entry comes back as walked. If it was reported, always. If it was left out as
      unchanged, then because the sessions kept hold it: those end with the session it was
      compared with, unless a full backup was forced onto them or the run began on a new
      cartridge. */
  ghost predicate ComesBack(c: Codec, scope: Scope, visits: seq<Visit>, config: Config, opts: Options, a: Account,
                            disk: Disk, i: nat)
    requires i < |visits|
  {
    if LeftOut(scope, visits, a.before, i) then
      && visits[i].path in SnapshotOf(a.before)
      && var v := SnapshotOf(a.before)[visits[i].path];
         !v.IsDeleted() ==>
           && (BuildsOn(config, opts, a) ==> HoldsVersion(c, disk, v))
           && (KindOf(v) != DirEntry && !BuildsOn(config, opts, a) ==> !HoldsVersion(c, disk, v))
    else
      exists k :: 0 <= k < Live(a.files) <= |a.files| && ReportOf(scope, visits, i, a.files[k])
        && HoldsVersion(c, disk, a.files[k])
  }

  /** Whether the new sessions build on the ones the scan was compared with: always, but for
      a full backup forced onto a cartridge that has sessions, and a move to a new cartridge
      before the first part. */
  predicate BuildsOn(config: Config, opts: Options, a: Account) {
    a.kept == 0 || (!opts.full && !Rotates(config, a.plan))
  }

  lemma EmptyIsPlain(all: seq<FileMeta>)
    ensures Plain(EMPTY_DISK, all)
  {
  }

  lemma PlainFits(d: Disk, all: seq<FileMeta>, files: seq<FileMeta>, m: nat)
    requires Plain(d, all) && KindsKept(all) && Among(files, all) && LiveFirst(files, m)
    ensures AllFit(d, files, m)
  {
    hide Plain, KindsKept, Accepts;
    forall k | 0 <= k < m
      ensures FitsIn(d, files, k)
    {
      var i := IndexIn(all, files[k]);
      PlainAccepts(d, all, i, files[k].linkname);
    }
  }

  lemma PlainIsUnshared(d: Disk, all: seq<FileMeta>)
    requires Plain(d, all)
    ensures d.Valid() && Unshared(d)
  {
  }

  // The sessions kept are plain, and so is what they leave.
  lemma BaseIsPlain(a: Account)
    requires AllReadable(a.run.setup.codec, a.run.base) && KindsKept(AllFiles(a))
    requires WrittenAsListed(a.run.setup.codec, a.run.base)
    ensures BaseReplayed(a, EMPTY_DISK).ok && Plain(BaseReplayed(a, EMPTY_DISK).disk, AllFiles(a))
  {
    hide ReadIndex, Concat, ReadsTar, KindsKept, Plain, AsListed, Among, Replayed;
    EmptyIsPlain(AllFiles(a));
    BasePlainSessions(a);
    HistoryIsPlain(a.run.setup.codec, a.run.base, AllFiles(a), |a.run.base|, EMPTY_DISK);
  }

  lemma BasePlainSessions(a: Account)
    requires AllReadable(a.run.setup.codec, a.run.base) && WrittenAsListed(a.run.setup.codec, a.run.base)
    ensures forall k :: 0 <= k < |a.run.base| ==> PlainSession(a.run.setup.codec, a.run.base[k], AllFiles(a))
  {
    hide ReadIndex, Concat, ReadsTar, AsListed, Among;
    forall k | 0 <= k < |a.run.base|
      ensures PlainSession(a.run.setup.codec, a.run.base[k], AllFiles(a))
    {
      SessionIsAmong(a, k);
      assert ListedSession(a.run.setup.codec, a.run.base[k]);
    }
  }

  // The sessions kept hold what the last of them lists.
  lemma LastIsHeld(c: Codec, w: World, a: Account, v: FileMeta)
    requires c == a.run.setup.codec && AllReadable(c, a.run.base) && KindsKept(AllFiles(a))
    requires WrittenAsListed(c, a.run.base)
    requires a.first.uuid in w && 0 < a.kept <= |w[a.first.uuid].sessions|
    requires a.run.base == w[a.first.uuid].sessions[..a.kept]
    requires a.before == FilesOnTape(c, w[a.first.uuid], a.kept)
    requires AbsoluteFiles(a.before) && DistinctPaths(a.before) && v in a.before && !v.IsDeleted()
    ensures HoldsVersion(c, BaseReplayed(a, EMPTY_DISK).disk, v)
  {
    hide ReadIndex, Concat, ReadsTar, KindsKept, Plain, AsListed, Among, AbsoluteFiles, DistinctPaths, HoldsVersion,
         ReplaySession, PlainSession;
    var last := a.kept - 1;
    EmptyIsPlain(AllFiles(a));
    BasePlainSessions(a);
    HistoryIsPlain(c, a.run.base, AllFiles(a), last, EMPTY_DISK);
    assert a.run.base[last] == w[a.first.uuid].sessions[last];
    assert Readable(c, a.run.base[last]);
    SessionIsHeld(c, a.run.base[last], AllFiles(a), Replayed(c, a.run.base, last, EMPTY_DISK).disk, v);
  }

  // Into an empty destination nothing comes back of what was left out.
  lemma NothingHeld(c: Codec, files: seq<FileMeta>, content: Content, m: nat, v: FileMeta)
    requires m <= |files| && KindOf(v) != DirEntry
    ensures !StillHeld(c, EMPTY_DISK, files, content, m, v)
  {
    hide LastData, Passes, SpotOf;
  }

  lemma {:induction false} SnapshotIsAmong(files: seq<FileMeta>)
    ensures forall p :: p in SnapshotOf(files) ==> SnapshotOf(files)[p] in files
  {
    if files != [] {
      SnapshotIsAmong(files[..|files| - 1]);
    }
  }

  lemma LeftOutComesBack(w: World, scope: Scope, visits: seq<Visit>, config: Config, opts: Options, a: Account,
                         i: nat)
    requires AllReadable(a.run.setup.codec, a.run.base) && KindsKept(AllFiles(a))
    requires WrittenAsListed(a.run.setup.codec, a.run.base)
    requires a.first.uuid in w && a.kept <= |w[a.first.uuid].sessions|
    requires a.run.base ==
      if StartsOver(opts, a.kept) || Rotates(config, a.plan) then [] else w[a.first.uuid].sessions[..a.kept]
    requires a.before == FilesOnTape(a.run.setup.codec, w[a.first.uuid], a.kept) && DistinctPaths(a.before)
    requires a.plan.newTape ==> !StartsOver(opts, a.kept)
    requires Scanned(scope, visits, a.before, a.files) && Live(a.files) <= |a.files|
    requires var base := BaseReplayed(a, EMPTY_DISK).disk;
      && base.Valid() && Unshared(base) && Unchanged(a.run.setup.codec, a.files, a.run.setup.content)
      && Steps(base, a.files, a.run.setup.content, |a.files|).ok
    requires i < |visits| && LookedAt(scope, visits, i) && LeftOut(scope, visits, a.before, i)
    ensures ComesBack(a.run.setup.codec, scope, visits, config, opts, a,
                      Steps(BaseReplayed(a, EMPTY_DISK).disk, a.files, a.run.setup.content, |a.files|).disk, i)
  {
    hide ReadIndex, Concat, ReadsTar, KindsKept, IsScan, WalkOfTree, DistinctPaths, HoldsVersion, LookedAt, LeftOut,
         Steps, Live, Unshared, Disk.Valid, SnapshotOf, StillHeld, Unchanged, WrittenAsListed, AllFiles, Readable,
         AbsoluteFiles, ReplaySession;
    var c, content := a.run.setup.codec, a.run.setup.content;
    var base := BaseReplayed(a, EMPTY_DISK).disk;
    UnsharedIsHeld(scope, visits, a.before, a.files, c, content, base);
    LeftOutHeld(scope, visits, a.before, a.files, c, content, base, i);
    var v := SnapshotOf(a.before)[visits[i].path];
    SnapshotIsAmong(a.before);
    if !v.IsDeleted() && a.kept > 0 {
      if BuildsOn(config, opts, a) {
        LastIsHeld(c, w, a, v);
        assert KeepsLeftOut(visits, a.before, c, base, Steps(base, a.files, content, |a.files|).disk, i);
      } else if KindOf(v) != DirEntry {
        assert a.run.base == [];
        assert base == EMPTY_DISK;
        NothingHeld(c, a.files, content, Live(a.files), v);
      }
    }
  }

  /** Where no path ever changed between directory, symbolic link and file, and there are no
      hard links, a followable chain is always read to its end, and everything the walk
      looked at comes back, but what the new sessions do not build on. */
  lemma EverythingComesBack(w: World, t: Tape, rows: SessionTable, held: FileTable, scope: Scope, visits: seq<Visit>,
                            config: Config, opts: Options, a: Account, r: FullResult, read: seq<SessionIndex>,
                            disk: Disk)
    requires BackedUp(w, config, opts, a) && a.run.WorldOK()
    requires Opened(a.run.setup.codec, t, rows, held, w, scope, visits, config, opts, a.run.setup.job, a)
    requires AllReadable(a.run.setup.codec, a.run.base) && WalkOfTree(visits) && AbsoluteFiles(a.before)
    requires forall i :: 0 <= i < |visits| ==> visits[i].size >= 0
    requires forall j :: 0 <= j < |LabelsOf(a.run)| ==> LabelsOf(a.run)[j].uuid in a.run.world
    requires FullRestores(a.run.setup.codec, CartsOf(a.run.world, LabelsOf(a.run)), true, EMPTY_DISK, r, read, disk)
    requires !r.Cancelled? && !r.ChangerFailed? && !r.DestinationFailed?
    requires DistinctPaths(a.before) && KindsKept(AllFiles(a)) && WrittenAsListed(a.run.setup.codec, a.run.base)
    ensures r.AllRead? <==> Followable(a.run.setup.job.name, CartsOf(a.run.world, LabelsOf(a.run)))
    ensures r.AllRead? ==> forall i :: 0 <= i < |visits| && LookedAt(scope, visits, i) ==>
      ComesBack(a.run.setup.codec, scope, visits, config, opts, a, disk, i)
  {
    hide IsScan, Followable, LinkedFrom, FullRestores, AllReadable, LookedAt, SpanRun.Valid, SpanRun.Settled,
         SpanRun.WorldOK, PlannedFrom, FilesOnTape, Headers, InStep, RestoredExactly, BuriedExactly, WalkOfTree,
         AbsoluteFiles, Disk.Valid, AllFit, Replayed, Steps, Live, DistinctPaths, ComesBack, KindsKept, Plain,
         WrittenAsListed, AllFiles, Unshared, Unchanged, LeftOut, HoldsVersion, EndsWell, ReportOf;
    BackupReadsBack(w, t, rows, held, scope, visits, config, opts, a, EMPTY_DISK, r, read, disk) by {
      assert EMPTY_DISK.Valid() by { EmptyIsPlain([]); PlainIsValid(EMPTY_DISK, []); }
    }
    BaseIsPlain(a);
    var base := BaseReplayed(a, EMPTY_DISK).disk;
    PlainIsUnshared(base, AllFiles(a));
    var m := LiveOfScan(scope, visits, a.before, a.files);
    LiveIs(a.files, m);
    ScanIsAmong(a);
    PlainFits(base, AllFiles(a), a.files, m);
    if r.AllRead? {
      forall i | 0 <= i < |visits| && LookedAt(scope, visits, i)
        ensures ComesBack(a.run.setup.codec, scope, visits, config, opts, a, disk, i)
      {
        if LeftOut(scope, visits, a.before, i) {
          LeftOutComesBack(w, scope, visits, config, opts, a, i);
        } else {
          ReportComesBack(scope, visits, config, opts, a, disk, i);
        }
      }
    }
  }

  lemma ScanIsAmong(a: Account)
    requires AllReadable(a.run.setup.codec, a.run.base)
    ensures Among(a.files, AllFiles(a))
  {
    hide AllReadable;
  }

  lemma ReportComesBack(scope: Scope, visits: seq<Visit>, config: Config, opts: Options, a: Account, disk: Disk, i: nat)
    requires AllReadable(a.run.setup.codec, a.run.base) && Scanned(scope, visits, a.before, a.files)
    requires var base := BaseReplayed(a, EMPTY_DISK).disk;
      && base.Valid() && Unshared(base) && Unchanged(a.run.setup.codec, a.files, a.run.setup.content)
      && Steps(base, a.files, a.run.setup.content, |a.files|) == Effect(true, disk)
    requires i < |visits| && LookedAt(scope, visits, i) && !LeftOut(scope, visits, a.before, i)
    ensures ComesBack(a.run.setup.codec, scope, visits, config, opts, a, disk, i)
  {
    hide AllReadable, IsScan, WalkOfTree, AbsoluteFiles, Disk.Valid, Replayed, Steps, Live, Unshared, Unchanged,
         LeftOut, HoldsVersion, LookedAt, ReportOf, KeepsLeftOut, SnapshotOf, BuildsOn;
    UnsharedIsHeld(scope, visits, a.before, a.files, a.run.setup.codec, a.run.setup.content,
                   BaseReplayed(a, EMPTY_DISK).disk);
    var k := ReportedEntry(scope, visits, a.before, a.files, i);
  }
}
