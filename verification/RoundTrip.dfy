/** A backup run and the restore of what it wrote: the chain of cartridges a finished run
    leaves is read back session by session (internal/usecase/backup/span.go:132-271,
    internal/usecase/restore/usecase.go:81-141, internal/usecase/restore/chain.go:57-124). */
module RoundTrips {
  import opened Domain
  import opened TapeMachine
  import opened Canonical
  import opened TapeFormat
  import opened Layout
  import opened WriteParts
  import opened TapeNames
  import opened Destinations
  import opened DiskLaws
  import opened Replaying
  import opened ScanOnDisk
  import opened Chains
  import opened SpanRuns
  import opened Restoring
  import opened Scanning
  import opened ScannerTheorems
  import opened Catalogs
  import opened Worlds
  import opened Backups
  import SpanPlanner
  import SpanPlannerTheorems

  // ----- What the parts read back as ----------------------------------------------------

  /** The index under which part k of a run is read. */
  function PartHeader(setup: Setup, parts: seq<seq<FileMeta>>, done: seq<PartRec>, k: nat): SessionIndex
    requires k < |done| <= |parts|
  {
    Seal(setup.codec.sha, IndexOf(setup, done[k].sess, done[k].continues, parts[k], done[k].dedup))
  }

  function PartHeaders(setup: Setup, parts: seq<seq<FileMeta>>, done: seq<PartRec>): (r: seq<SessionIndex>)
    requires |done| <= |parts|
    ensures |r| == |done| && forall k :: 0 <= k < |r| ==> r[k] == PartHeader(setup, parts, done, k)
  {
    seq(|done|, k requires 0 <= k < |done| => PartHeader(setup, parts, done, k))
  }

  /** The files of the sessions read, one list after the other. */
  function FilesRead(read: seq<SessionIndex>): seq<FileMeta> {
    SpanPlanner.Flatten(FileLists(read))
  }

  function FileLists(read: seq<SessionIndex>): (r: seq<seq<FileMeta>>)
    ensures |r| == |read| && forall k :: 0 <= k < |r| ==> r[k] == read[k].files
  {
    seq(|read|, k requires 0 <= k < |read| => read[k].files)
  }

  lemma PartReadsBack(setup: Setup, jobRunID: string, parts: seq<seq<FileMeta>>, done: seq<PartRec>, k: nat)
    requires Lawful(setup.codec) && HoldParts(setup, jobRunID, parts, done) && k < |done|
    requires DistinctPaths(parts[k])
    ensures ReadIndex(setup.codec, Concat(done[k].rec.index)) == Index(PartHeader(setup, parts, done, k))
    ensures Readable(setup.codec, done[k].rec)
  {
    hide Lawful, ReadIndex, ReadsTar, Concat, Records, DistinctPaths, CanonicalIndex;
    var d := done[k];
    assert HoldsPart(setup, jobRunID, parts, k, d);
    RecordedReadsBack(setup, IndexOf(setup, d.sess, d.continues, parts[k], d.dedup), d.rec);
  }

  /** All sessions of the run, and those it found on the first cartridge, are readable and
      give these headers. */
  lemma RunSessionsReadBack(setup: Setup, jobRunID: string, parts: seq<seq<FileMeta>>, base: seq<Recorded>,
                            done: seq<PartRec>)
    requires Lawful(setup.codec) && HoldParts(setup, jobRunID, parts, done)
    requires AllReadable(setup.codec, base) && forall k :: 0 <= k < |done| ==> DistinctPaths(parts[k])
    ensures AllReadable(setup.codec, base + Recs(done))
    ensures Headers(setup.codec, base + Recs(done)) == Headers(setup.codec, base) + PartHeaders(setup, parts, done)
  {
    hide Lawful, ReadIndex, Concat, HoldsPart, DistinctPaths, Readable, PartHeader;
    var all := base + Recs(done);
    forall i | 0 <= i < |all|
      ensures Readable(setup.codec, all[i])
      ensures i >= |base| ==>
        ReadIndex(setup.codec, Concat(all[i].index)) == Index(PartHeader(setup, parts, done, i - |base|))
    {
      if i >= |base| {
        PartReadsBack(setup, jobRunID, parts, done, i - |base|);
      }
    }
    var headers := Headers(setup.codec, all);
    forall i | 0 <= i < |all|
      ensures headers[i] == (Headers(setup.codec, base) + PartHeaders(setup, parts, done))[i]
    {
      if i < |base| {
        assert all[i] == base[i];
      }
    }
  }

  lemma PartHasItsFiles(setup: Setup, parts: seq<seq<FileMeta>>, done: seq<PartRec>, k: nat)
    requires k < |done| <= |parts|
    ensures PartHeader(setup, parts, done, k).files == parts[k]
  {
    hide CanonicalIndex, Setup.JobHash;
  }

  lemma PartFilesAre(setup: Setup, parts: seq<seq<FileMeta>>, done: seq<PartRec>)
    requires |done| == |parts|
    ensures FilesRead(PartHeaders(setup, parts, done)) == SpanPlanner.Flatten(parts)
  {
    hide PartHeader;
    forall k | 0 <= k < |parts|
      ensures FileLists(PartHeaders(setup, parts, done))[k] == parts[k]
    {
      PartHasItsFiles(setup, parts, done, k);
    }
    assert FileLists(PartHeaders(setup, parts, done)) == parts;
  }

  // ----- The chain of a finished run ------------------------------------------------------

  lemma {:induction false} SessionsOfLegs(c: Codec, chain: seq<Leg>, n: nat)
    requires n <= |chain| && AllReadable(c, SessionsOf(chain[..n]))
    ensures forall j :: 0 <= j < n ==> AllReadable(c, chain[j].cart.sessions)
  {
    hide Readable;
    if n > 0 {
      var last := n - 1;
      assert chain[..n] == chain[..last] + [chain[last]];
      SessionsSnoc(chain[..last], chain[last]);
      var front, mine := SessionsOf(chain[..last]), chain[last].cart.sessions;
      forall k | 0 <= k < |front| ensures Readable(c, front[k]) { assert (front + mine)[k] == front[k]; }
      forall k | 0 <= k < |mine| ensures Readable(c, mine[k]) { assert (front + mine)[|front| + k] == mine[k]; }
      SessionsOfLegs(c, chain, last);
    }
  }

  // The cartridges of a run, the one left in the drive last.
  ghost function ChainOf(run: SpanRun): (r: seq<Leg>)
    reads run
  {
    run.legs + [Leg(run.tapeLabel, run.cart)]
  }

  ghost predicate Complete(run: SpanRun)
    reads run, run.tape, run.cat
  {
    run.Valid() && run.Settled() && |run.done| == |run.parts| > 0
  }

  /** What lies outside the run's control: every cartridge after the first carries the name
      the pointer gave, and none was left without a session. */
  ghost predicate Followable(job: string, chain: seq<Leg>) {
    forall j :: 0 < j < |chain| ==>
      chain[j].tapeLabel.name == NextTapeName(job, chain[j - 1].tapeLabel.name) && chain[j].cart.sessions != []
  }

  // Sessions that were on the first cartridge are readable, and no part names a path twice.
  ghost predicate Sound(run: SpanRun)
    reads run
  {
    && AllReadable(run.setup.codec, run.base)
    && forall k :: 0 <= k < |run.parts| ==> DistinctPaths(run.parts[k])
  }

  lemma ChainHolds(run: SpanRun)
    requires Complete(run) && Sound(run)
    ensures SessionsOf(ChainOf(run)) == run.base + Recs(run.done)
    ensures AllReadable(run.setup.codec, SessionsOf(ChainOf(run)))
    ensures Headers(run.setup.codec, SessionsOf(ChainOf(run)))
         == Headers(run.setup.codec, run.base) + PartHeaders(run.setup, run.parts, run.done)
  {
    hide Lawful, Readable, HoldParts, SpanRun.RowsOK, SpanRun.DriveOK, DistinctPaths, ClosedLegs, Headers,
         PartHeaders;
    SessionsSnoc(run.legs, Leg(run.tapeLabel, run.cart));
    assert run.cart.sessions[..run.lastNum] == run.cart.sessions;
    RunSessionsReadBack(run.setup, run.jobRunID, run.parts, run.base, run.done);
  }

  lemma ChainIsIntact(run: SpanRun)
    requires Complete(run) && Sound(run)
    ensures IntactChain(run.setup.codec, ChainOf(run))
  {
    hide Lawful, Readable, HoldParts, SpanRun.RowsOK, DistinctPaths, Headers, PartHeaders, HasLabel, Items, PointsTo,
         SessionsOf;
    var c, chain := run.setup.codec, ChainOf(run);
    var last := |chain| - 1;
    ChainHolds(run);
    assert chain[..|chain|] == chain;
    SessionsOfLegs(c, chain, |chain|);
    forall j | 0 <= j < |chain|
      ensures Intact(c, chain[j]) && (j < last ==> GoesOn(c, chain[j]))
    {
      assert AllReadable(c, chain[j].cart.sessions);
      if j < last {
        assert chain[j] == run.legs[j] && ClosedLeg(c, run.setup.job.name, run.legs[j]);
        PointerIsRead(c, run.legs[j].cart, NextTapeName(run.setup.job.name, run.legs[j].tapeLabel.name));
      } else {
        LabelIsRead(run);
      }
    }
    NoPointerAtEnd(c, chain[last]);
  }

  lemma PointerIsRead(c: Codec, cart: Cart, name: string)
    requires PointsTo(c, cart, name)
    ensures PointerRead(c, cart).Continues? && PointerRead(c, cart).pointer.nextTapeName == name
  {
  }

  lemma LabelIsRead(run: SpanRun)
    requires run.DriveOK()
    ensures HasLabel(run.setup.codec, Leg(run.tapeLabel, run.cart))
  {
  }

  lemma NoPointerAtEnd(c: Codec, leg: Leg)
    requires leg.cart.tail == CLOSED
    ensures Ends(c, leg)
  {
    assert Concat([]) == [];
  }

  /** In the chain of a run every link holds exactly where the next cartridge is the one
      asked for and got a session. */
  lemma LinksOfRun(run: SpanRun, j: nat)
    requires Complete(run) && Sound(run) && j + 1 < |ChainOf(run)|
    ensures var chain := ChainOf(run);
      LinkHolds(run.setup.codec, chain[j], chain[j + 1])
      <==> chain[j + 1].tapeLabel.name == NextTapeName(run.setup.job.name, chain[j].tapeLabel.name)
           && chain[j + 1].cart.sessions != []
  {
    hide Lawful, Readable, HoldParts, SpanRun.RowsOK, SpanRun.DriveOK, DistinctPaths, HasLabel, SessionsOf,
         FirstContinues, PointsTo, Recs;
    var c, chain, job := run.setup.codec, ChainOf(run), run.setup.job.name;
    assert chain[j] == run.legs[j];
    assert ClosedLeg(c, job, run.legs[j]);
    PointerIsRead(c, chain[j].cart, NextTapeName(job, chain[j].tapeLabel.name));
    PointsElsewhere(c, chain[j].cart, NextTapeName(job, chain[j].tapeLabel.name), chain[j + 1].tapeLabel.name);
    if j + 1 < |run.legs| {
      assert PointsBack(c, run.legs, j + 1);
    }
  }

  lemma PointsElsewhere(c: Codec, cart: Cart, name: string, other: string)
    requires PointsTo(c, cart, name)
    ensures PointsTo(c, cart, other) <==> name == other
  {
  }

  lemma ChainIsLinked(run: SpanRun)
    requires Complete(run) && Sound(run)
    ensures LinkedFrom(run.setup.codec, ChainOf(run), 0) == |ChainOf(run)| <==>
      Followable(run.setup.job.name, ChainOf(run))
  {
    hide Complete, Sound, LinkHolds, LinkedFrom, NextTapeName, SessionsOf;
    var c, chain, job := run.setup.codec, ChainOf(run), run.setup.job.name;
    AllLinked(c, chain, 0);
    forall j | 0 <= j < |chain| - 1
      ensures LinkHolds(c, chain[j], chain[j + 1])
        <==>
        chain[j + 1].tapeLabel.name == NextTapeName(job, chain[j].tapeLabel.name) && chain[j + 1].cart.sessions != []
    {
      LinksOfRun(run, j);
    }
    if Followable(job, chain) {
      forall i | 0 <= i < |chain| - 1 ensures LinkHolds(c, chain[i], chain[i + 1]) { assert 0 < i + 1 < |chain|; }
    } else {
      var j :| 0 < j < |chain| &&
        !(chain[j].tapeLabel.name == NextTapeName(job, chain[j - 1].tapeLabel.name) && chain[j].cart.sessions != []);
      assert !LinkHolds(c, chain[j - 1], chain[j - 1 + 1]);
    }
  }

  // ----- On the cartridges left behind ------------------------------------------------------

  /** The cartridges with these labels, as the world has them. */
  ghost function CartsOf(w: World, labels: seq<TapeLabel>): (r: seq<Leg>)
    requires forall j :: 0 <= j < |labels| ==> labels[j].uuid in w
    ensures |r| == |labels| && forall j :: 0 <= j < |r| ==> r[j] == Leg(labels[j], w[labels[j].uuid])
  {
    seq(|labels|, j requires 0 <= j < |labels| => Leg(labels[j], w[labels[j].uuid]))
  }

  /** The labels of the cartridges a run used, in order. */
  ghost function LabelsOf(run: SpanRun): (r: seq<TapeLabel>)
    reads run
    ensures |r| == |run.legs| + 1
    ensures forall j :: 0 <= j < |r| ==> r[j] == ChainOf(run)[j].tapeLabel
  {
    LabelsOn(ChainOf(run))
  }

  function LabelsOn(chain: seq<Leg>): (r: seq<TapeLabel>)
    ensures |r| == |chain| && forall j :: 0 <= j < |r| ==> r[j] == chain[j].tapeLabel
  {
    seq(|chain|, j requires 0 <= j < |chain| => chain[j].tapeLabel)
  }

  /** The chain of a run is not only its record: these are the cartridges of the world. */
  lemma ChainLiesInWorld(run: SpanRun)
    requires run.WorldOK() && run.ChainOK()
    ensures forall j :: 0 <= j < |LabelsOf(run)| ==> LabelsOf(run)[j].uuid in run.world
    ensures CartsOf(run.world, LabelsOf(run)) == ChainOf(run)
    ensures LabelsOf(run)[0] == run.firstLabel
  {
    hide Tracks, AllPlaced, ClosedLegs, HoldParts, SessionsOf;
    var chain, labels := ChainOf(run), LabelsOf(run);
    forall j | 0 <= j < |labels|
      ensures labels[j].uuid in run.world && run.world[labels[j].uuid] == chain[j].cart
    {
      assert j < |run.legs| ==> LegLies(run.world, run.legs[j]);
    }
    forall j | 0 <= j < |labels|
      ensures CartsOf(run.world, labels)[j] == chain[j]
    {
    }
  }

  /** The restore finds these cartridges as an intact chain. */
  lemma ChainAtHand(run: SpanRun)
    requires Complete(run) && Sound(run) && run.WorldOK()
    requires forall j :: 0 <= j < |LabelsOf(run)| ==> LabelsOf(run)[j].uuid in run.world
    ensures var chain := CartsOf(run.world, LabelsOf(run));
      AtHand(run.setup.codec, chain, Items(chain[0].cart), ItemsOfAll(chain[1..]))
  {
    hide Complete, Sound, SpanRun.WorldOK, SpanRun.ChainOK, IntactChain, Items;
    PartsDone(run);
    ChainLiesInWorld(run);
    ChainIsIntact(run);
  }

  /** What the sessions of the chain leave in a destination: those the first cartridge held,
      then the parts. */
  ghost function ChainReplayed(run: SpanRun, d0: Disk): Effect
    requires AllReadable(run.setup.codec, run.base + Recs(run.done))
    reads run
  {
    var recs := run.base + Recs(run.done);
    Replayed(run.setup.codec, recs, |recs|, d0)
  }

  /** A restore of the cartridges of a finished run, as they are left behind, reads on until
      a link does not hold or the destination refuses an entry; so it succeeds exactly when
      their chain is followable and every entry is accepted. It then reads the sessions the
      first cartridge held before, then the parts in order; the files of the parts, one part
      after the other, are the files of the plan. */
  lemma RunReadsBack(run: SpanRun, d0: Disk, r: FullResult, read: seq<SessionIndex>, disk: Disk)
    requires Complete(run) && Sound(run) && run.WorldOK()
    requires forall j :: 0 <= j < |LabelsOf(run)| ==> LabelsOf(run)[j].uuid in run.world
    requires FullRestores(run.setup.codec, CartsOf(run.world, LabelsOf(run)), true, d0, r, read, disk)
    requires !r.Cancelled? && !r.ChangerFailed? && !r.DestinationFailed?
    ensures AllReadable(run.setup.codec, run.base + Recs(run.done))
    ensures r.AllRead? <==>
      Followable(run.setup.job.name, CartsOf(run.world, LabelsOf(run))) && ChainReplayed(run, d0).ok
    ensures r.AllRead? ==> disk == ChainReplayed(run, d0).disk
    ensures r.AllRead? || r.BrokenChain? || r.WriteRefused?
    ensures r.AllRead? ==>
      && read == Headers(run.setup.codec, run.base) + PartHeaders(run.setup, run.parts, run.done)
      && FilesRead(read[|run.base|..]) == SpanPlanner.Flatten(run.parts)
  {
    hide Complete, Sound, Followable, SessionsOf, Headers, PartHeader, LinkedFrom, FilesRead, SpanRun.WorldOK,
         SpanRun.ChainOK, FullRestores, ReplaySession, Replayed;
    ChainIsLinked(run);
    ChainHolds(run);
    PartsDone(run);
    ChainLiesInWorld(run);
    var chain := ChainOf(run);
    assert chain[..|chain|] == chain;
    PartFilesAre(run.setup, run.parts, run.done);
    RefusedOrRead(run.setup.codec, chain, true, d0, r, read, disk);
    if !r.WriteRefused? {
      RestoresAsReads(run.setup.codec, chain, d0, r, read, disk);
    }
    if r.AllRead? {
      assert read[|run.base|..] == PartHeaders(run.setup, run.parts, run.done);
    }
  }

  // How a restore ends that is neither refused nor stopped.
  lemma RestoresAsReads(c: Codec, chain: seq<Leg>, d0: Disk, r: FullResult, read: seq<SessionIndex>, disk: Disk)
    requires chain != [] && FullRestores(c, chain, true, d0, r, read, disk)
    requires !r.Cancelled? && !r.ChangerFailed? && !r.DestinationFailed? && !r.WriteRefused?
    ensures r.AllRead? || r.BrokenChain?
    ensures r.AllRead? <==> LinkedFrom(c, chain, 0) == |chain|
  {
    hide LinkedFrom, SessionsOf, Replayed, Readable;
  }

  lemma PartsDone(run: SpanRun)
    requires Complete(run)
    ensures |run.done| == |run.parts| && |Headers(run.setup.codec, [])| == 0 && run.ChainOK()
  {
  }

  // A part is a stretch of the files it was planned from.
  lemma {:induction false} PartIsStretch<T>(parts: seq<seq<T>>, n: nat, k: nat)
    requires k < n <= |parts|
    ensures var lo := |SpanPlanner.Flatten(parts[..k])|;
      && lo + |parts[k]| <= |SpanPlanner.Flatten(parts[..n])|
      && SpanPlanner.Flatten(parts[..n])[lo..lo + |parts[k]|] == parts[k]
  {
    var lo, last := |SpanPlanner.Flatten(parts[..k])|, n - 1;
    assert parts[..n][..last] == parts[..last];
    if k < last {
      PartIsStretch(parts, last, k);
    }
  }

  lemma StretchIsDistinct(all: seq<FileMeta>, part: seq<FileMeta>, lo: nat)
    requires lo + |part| <= |all| && all[lo..lo + |part|] == part
    requires DistinctPaths(all)
    ensures DistinctPaths(part)
  {
    forall i, j | 0 <= i < j < |part|
      ensures part[i].path != part[j].path
    {
      assert part[i] == all[lo + i] && part[j] == all[lo + j];
    }
  }

  lemma PartsAreDistinct(parts: seq<seq<FileMeta>>)
    requires DistinctPaths(SpanPlanner.Flatten(parts))
    ensures forall k :: 0 <= k < |parts| ==> DistinctPaths(parts[k])
  {
    hide DistinctPaths, SpanPlanner.Flatten;
    assert parts[..|parts|] == parts;
    forall k | 0 <= k < |parts|
      ensures DistinctPaths(parts[k])
    {
      PartIsStretch(parts, |parts|, k);
      StretchIsDistinct(SpanPlanner.Flatten(parts), parts[k], |SpanPlanner.Flatten(parts[..k])|);
    }
  }

  /** From the scan to the restore: when the run's parts were planned from a scan result
      without doubled paths, a restore that reads the whole chain gives back the scan
      result, in order. */
  lemma ScanReadsBack(run: SpanRun, d0: Disk, r: FullResult, read: seq<SessionIndex>, disk: Disk,
                      files: seq<FileMeta>, budget: int, roots: seq<string>, depth: int)
    requires Complete(run) && AllReadable(run.setup.codec, run.base) && run.WorldOK()
    requires forall i :: 0 <= i < |files| ==> files[i].size >= 0
    requires DistinctPaths(files) && PlannedFrom(files, budget, roots, depth, run.parts)
    requires forall j :: 0 <= j < |LabelsOf(run)| ==> LabelsOf(run)[j].uuid in run.world
    requires FullRestores(run.setup.codec, CartsOf(run.world, LabelsOf(run)), true, d0, r, read, disk)
    requires !r.Cancelled? && !r.ChangerFailed? && !r.DestinationFailed?
    ensures AllReadable(run.setup.codec, run.base + Recs(run.done)) && SpanPlanner.Flatten(run.parts) == files
    ensures r.AllRead? <==>
      Followable(run.setup.job.name, CartsOf(run.world, LabelsOf(run))) && ChainReplayed(run, d0).ok
    ensures r.AllRead? ==> disk == ChainReplayed(run, d0).disk
    ensures r.AllRead? ==>
      && |run.base| <= |read| && read[..|run.base|] == Headers(run.setup.codec, run.base)
      && FilesRead(read[|run.base|..]) == files
    ensures forall k :: 0 <= k < |run.parts| ==> DistinctPaths(run.parts[k])
  {
    hide Complete, Followable, SessionsOf, Headers, PartHeader, LinkedFrom, FilesRead, SpanPlanner.Plan,
         SpanPlanner.Flatten, DistinctPaths, FullRestores, AllReadable, SpanRun.WorldOK, Replayed;
    SpanPlannerTheorems.PartsAreTheFiles(files, budget, roots, depth);
    PartsAreDistinct(run.parts);
    RunReadsBack(run, d0, r, read, disk);
  }

  lemma ScannedSizes(scope: Scope, visits: seq<Visit>, last: seq<FileMeta>, files: seq<FileMeta>)
    requires IsScan(scope, visits, last, files)
    requires forall i :: 0 <= i < |visits| ==> visits[i].size >= 0
    ensures forall i :: 0 <= i < |files| ==> files[i].size >= 0
  {
    hide Before, UnderRoots, Report, SnapshotOf;
    var gone :| ScanIs(scope, visits, last, files, gone);
    var reports := Reports(scope, SnapshotOf(last), visits, |visits|);
    ReportsAreVisits(scope, SnapshotOf(last), visits, |visits|);
    forall i | 0 <= i < |files|
      ensures files[i].size >= 0
    {
      if i < |reports| {
        assert files[i] == reports[i] && reports[i] in reports;
        var v :| 0 <= v < |visits| && ReportedAt(scope, SnapshotOf(last), visits, v, files[i]);
        ReportHasPath(scope, SnapshotOf(last), visits, v, files[i]);
      } else {
        assert files[i] == gone[i - |reports|] && gone[i - |reports|] in gone;
      }
    }
  }

  // ----- What is restored -------------------------------------------------------------------

  lemma {:induction false} ReplayConcat(c: Codec, a: seq<Recorded>, b: seq<Recorded>, n: nat, d: Disk)
    requires AllReadable(c, a) && AllReadable(c, b) && AllReadable(c, a + b) && n <= |b|
    ensures var first := Replayed(c, a, |a|, d);
      Replayed(c, a + b, |a| + n, d) == if first.ok then Replayed(c, b, n, first.disk) else first
  {
    hide Readable, ReplaySession;
    if n > 0 {
      ReplayConcat(c, a, b, n - 1, d);
      assert (a + b)[|a| + n - 1] == b[n - 1];
    } else {
      ReplayOfFront(c, a, b, |a|, d);
    }
  }

  lemma {:induction false} ReplayOfFront(c: Codec, a: seq<Recorded>, b: seq<Recorded>, n: nat, d: Disk)
    requires AllReadable(c, a) && AllReadable(c, a + b) && n <= |a|
    ensures Replayed(c, a + b, n, d) == Replayed(c, a, n, d)
  {
    hide Readable, ReplaySession;
    if n > 0 {
      ReplayOfFront(c, a, b, n - 1, d);
      assert (a + b)[n - 1] == a[n - 1];
    }
  }

  // A part put into a destination is its files put in place one after the other.
  lemma PartReplays(setup: Setup, jobRunID: string, parts: seq<seq<FileMeta>>, done: seq<PartRec>, k: nat, m: nat,
                    d: Disk)
    requires Lawful(setup.codec) && HoldParts(setup, jobRunID, parts, done) && k < |done|
    requires DistinctPaths(parts[k]) && LiveFirst(parts[k], m)
    ensures Readable(setup.codec, done[k].rec) && Unchanged(setup.codec, parts[k], setup.content)
    ensures ReplaySession(setup.codec, done[k].rec, d) == Steps(d, parts[k], setup.content, |parts[k]|)
  {
    hide ReadIndex, ReadsTar, Concat, DistinctPaths, CanonicalIndex, EntriesOf, Unchanged, ApplyEntries, Cleared,
         Steps, LiveFirst;
    PartReadsBack(setup, jobRunID, parts, done, k);
    PartHasItsFiles(setup, parts, done, k);
    assert HoldsPart(setup, jobRunID, parts, k, done[k]);
    var entries := EntriesOf(parts[k], setup.content);
    TarOfPart(setup, parts[k], done[k].rec);
    SessionIsSteps(setup.codec, parts[k], setup.content, m, d);
  }

  lemma TarOfPart(setup: Setup, files: seq<FileMeta>, rec: Recorded)
    requires Lawful(setup.codec)
    requires setup.codec.tar(EntriesOf(files, setup.content)) <= Concat(rec.tar)
    ensures setup.codec.untar(Concat(rec.tar)) == Some(EntriesOf(files, setup.content))
  {
    hide Concat, EntriesOf;
    var bytes := setup.codec.tar(EntriesOf(files, setup.content));
    assert Concat(rec.tar) == bytes + Concat(rec.tar)[|bytes|..];
  }

  // The parts of a run, put into a destination, are the scan result put in place.
  lemma {:induction false} PartsReplay(setup: Setup, jobRunID: string, parts: seq<seq<FileMeta>>, done: seq<PartRec>,
                                       files: seq<FileMeta>, m: nat, n: nat, d: Disk)
    requires Lawful(setup.codec) && HoldParts(setup, jobRunID, parts, done) && n <= |done| == |parts|
    requires SpanPlanner.Flatten(parts) == files && LiveFirst(files, m) && AllReadable(setup.codec, Recs(done))
    requires forall k :: 0 <= k < |parts| ==> DistinctPaths(parts[k])
    ensures var front := SpanPlanner.Flatten(parts[..n]);
      Replayed(setup.codec, Recs(done), n, d) == Steps(d, front, setup.content, |front|)
  {
    hide Lawful, HoldParts, SpanPlanner.Flatten, LiveFirst, AllReadable, ReplaySession, Step, DistinctPaths, Readable;
    if n == 0 {
      NothingFlat<FileMeta>();
      assert parts[..0] == [];
    } else {
      PartsReplay(setup, jobRunID, parts, done, files, m, n - 1, d);
      var front, part := SpanPlanner.Flatten(parts[..n - 1]), parts[n - 1];
      FlatMore(parts, n - 1);
      assert parts[..|parts|] == parts;
      PartIsStretch(parts, |parts|, n - 1);
      var k := StretchIsLiveFirst(files, m, |front|, part);
      var prev := Replayed(setup.codec, Recs(done), n - 1, d);
      PartReplays(setup, jobRunID, parts, done, n - 1, k, prev.disk);
      StepsConcat(d, front, part, setup.content, |part|);
    }
  }

  lemma NothingFlat<T>()
    ensures SpanPlanner.Flatten<T>([]) == []
  {
  }

  lemma FlatMore<T>(parts: seq<seq<T>>, n: nat)
    requires n < |parts|
    ensures SpanPlanner.Flatten(parts[..n + 1]) == SpanPlanner.Flatten(parts[..n]) + parts[n]
  {
    assert parts[..n + 1][..n] == parts[..n];
  }

  // Every file of the run still was what the scan saw.
  lemma {:induction false} FilesUnchanged(setup: Setup, jobRunID: string, parts: seq<seq<FileMeta>>,
                                          done: seq<PartRec>, n: nat)
    requires HoldParts(setup, jobRunID, parts, done) && n <= |done| == |parts|
    ensures Unchanged(setup.codec, SpanPlanner.Flatten(parts[..n]), setup.content)
  {
    hide EncodeIndex, CanonicalIndex, DigestMatches, SpanPlanner.Flatten, ValidIndex;
    if n == 0 {
      NothingFlat<FileMeta>();
      assert parts[..0] == [];
    } else {
      FilesUnchanged(setup, jobRunID, parts, done, n - 1);
      FlatMore(parts, n - 1);
      assert HoldsPart(setup, jobRunID, parts, n - 1, done[n - 1]);
      assert Unchanged(setup.codec, parts[n - 1], setup.content);
      var front := SpanPlanner.Flatten(parts[..n - 1]);
      BothUnchanged(setup.codec, front, parts[n - 1], setup.content);
    }
  }

  lemma BothUnchanged(c: Codec, a: seq<FileMeta>, b: seq<FileMeta>, content: Content)
    requires Unchanged(c, a, content) && Unchanged(c, b, content)
    ensures Unchanged(c, a + b, content)
  {
    hide DigestMatches;
    var all := a + b;
    forall i | 0 <= i < |all| && !all[i].IsDeleted() && KindOf(all[i]) == RegEntry
      ensures all[i].path in content && |content[all[i].path]| == all[i].size
      ensures DigestMatches(c, all[i], content[all[i].path])
    {
      if i < |a| {
        assert all[i] == a[i];
      } else {
        assert all[i] == b[i - |a|];
      }
    }
  }

  lemma {:induction false} ReplayKeepsValid(c: Codec, recs: seq<Recorded>, n: nat, d: Disk)
    requires AllReadable(c, recs) && n <= |recs| && d.Valid()
    ensures Replayed(c, recs, n, d).disk.Valid()
  {
    hide Disk.Valid, Readable, ApplyEntries, Cleared;
    if n > 0 {
      ReplayKeepsValid(c, recs, n - 1, d);
      SessionKeepsValid(c, recs[n - 1], Replayed(c, recs, n - 1, d).disk);
    }
  }

  lemma SessionKeepsValid(c: Codec, rec: Recorded, d: Disk)
    requires Readable(c, rec) && d.Valid()
    ensures ReplaySession(c, rec, d).disk.Valid()
  {
    hide Disk.Valid, ApplyEntries, Cleared, ReadIndex, Concat, EntryPasses;
    var files, entries := ReadIndex(c, Concat(rec.index)).idx.files, c.untar(Concat(rec.tar)).value;
    EntriesKeepValid(c, Everything, files, entries, |entries|, d);
    ClearingKeepsValid(Everything, files, |files|, ApplyEntries(c, Everything, files, entries, |entries|, d).disk);
  }

  /** What the sessions that were kept leave in a destination. */
  ghost function BaseReplayed(a: Account, d0: Disk): Effect
    requires AllReadable(a.run.setup.codec, a.run.base)
    reads a.run
  {
    Replayed(a.run.setup.codec, a.run.base, |a.run.base|, d0)
  }

  /** What becomes of entry i of the walk. If it was reported, it is restored as said, unless
      it is a file that was there and another entry wrote the same file with other data. If
      it was left out as unchanged, its place shows what the sessions before left there, or
      a directory made for what lies below it. */
  ghost predicate RestoredExactly(c: Codec, scope: Scope, visits: seq<Visit>, before: seq<FileMeta>,
                                  files: seq<FileMeta>, content: Content, base: Disk, disk: Disk, i: nat)
    requires i < |visits|
  {
    var m, p := Live(files), SpotOf(visits[i].path);
    if LeftOut(scope, visits, before, i) then
      && visits[i].path in SnapshotOf(before)
      && disk.At(p) == (if p != [] && ListedBelow(files, m, p) then Some(DirNode) else base.At(p))
      && var v := SnapshotOf(before)[visits[i].path];
         (HoldsVersion(c, disk, v) <==> StillHeld(c, base, files, content, m, v))
    else
      exists k :: 0 <= k < m && ReportOf(scope, visits, i, files[k])
        && (HoldsVersion(c, disk, files[k]) <==>
            (KindOf(files[k]) == RegEntry ==> EndsWell(c, base, files, content, m, files[k])))
  }

  lemma EntryRestored(scope: Scope, visits: seq<Visit>, before: seq<FileMeta>, files: seq<FileMeta>, c: Codec,
                      content: Content, base: Disk, i: nat)
    requires Scanned(scope, visits, before, files) && base.Valid() && Unchanged(c, files, content)
    requires Steps(base, files, content, |files|).ok && i < |visits| && LookedAt(scope, visits, i)
    ensures RestoredExactly(c, scope, visits, before, files, content, base,
                            Steps(base, files, content, |files|).disk, i)
  {
    hide Scanned, Unchanged, Steps, LookedAt, LeftOut, HoldsVersion, StillHeld, EndsWell, Disk.Valid, ReportOf,
         SnapshotOf, ListedBelow, Live;
    if LeftOut(scope, visits, before, i) {
      LeftOutPlace(scope, visits, before, files, content, base, i);
      LeftOutHeld(scope, visits, before, files, c, content, base, i);
    } else {
      var k := ReportedEntry(scope, visits, before, files, i);
      EntryHeld(scope, visits, before, files, c, content, base, k);
    }
  }

  /** What vanished under the roots is gone exactly if nothing is left below it. */
  ghost predicate BuriedExactly(files: seq<FileMeta>, base: Disk, disk: Disk, k: nat)
    requires k < |files|
  {
    var p := Spot(files[k]);
    p in disk.names <==> p != [] && (base.Occupied(p) || ListedBelow(files, Live(files), p))
  }

  lemma TombstoneApplied(scope: Scope, visits: seq<Visit>, before: seq<FileMeta>, files: seq<FileMeta>,
                         content: Content, base: Disk, k: nat)
    requires Scanned(scope, visits, before, files) && base.Valid()
    requires Steps(base, files, content, |files|).ok && Live(files) <= k < |files|
    ensures BuriedExactly(files, base, Steps(base, files, content, |files|).disk, k)
  {
    hide Scanned, Steps, Disk.Valid, ListedBelow, Live, Shaped, AllFit, Disk.Occupied;
    var m, p := Live(files), Spot(files[k]);
    var d, r := Steps(base, files, content, m).disk, Steps(base, files, content, |files|).disk;
    ScanIsPut(scope, visits, before, files, content, base);
    assert Buried(files, m, |files|, p);
    assert ClearedAt(files, m, |files|, d, r, p);
    if p != [] {
      OccupiedAfter(base, files, content, m, d, p);
      OccupiedIsThere(d, p, files, content, m, base);
    } else {
      NoRootName(r);
    }
  }

  /** From the walk to the restore. After a finished backup the cartridges left behind are
      read to the end exactly if their chain is followable, the destination takes the
      sessions that were kept, and every new entry fits what those left: directories above
      it, and in its place nothing, or something of its own kind, or something that gives
      way to a link. The new sessions then give back the scan result, and what the
      destination holds of every entry looked at, and of everything that vanished, is
      known. */
  lemma BackupReadsBack(w: World, t: Tape, rows: SessionTable, held: FileTable, scope: Scope, visits: seq<Visit>,
                        config: Config, opts: Options, a: Account, d0: Disk, r: FullResult, read: seq<SessionIndex>,
                        disk: Disk)
    requires BackedUp(w, config, opts, a) && a.run.WorldOK() && d0.Valid()
    requires Opened(a.run.setup.codec, t, rows, held, w, scope, visits, config, opts, a.run.setup.job, a)
    requires AllReadable(a.run.setup.codec, a.run.base) && WalkOfTree(visits) && AbsoluteFiles(a.before)
    requires forall i :: 0 <= i < |visits| ==> visits[i].size >= 0
    requires forall j :: 0 <= j < |LabelsOf(a.run)| ==> LabelsOf(a.run)[j].uuid in a.run.world
    requires FullRestores(a.run.setup.codec, CartsOf(a.run.world, LabelsOf(a.run)), true, d0, r, read, disk)
    requires !r.Cancelled? && !r.ChangerFailed? && !r.DestinationFailed?
    ensures !Rotates(config, a.plan) ==> LabelsOf(a.run)[0] == a.first
    ensures Live(a.files) <= |a.files|
    ensures r.AllRead? <==>
      && Followable(a.run.setup.job.name, CartsOf(a.run.world, LabelsOf(a.run)))
      && BaseReplayed(a, d0).ok && AllFit(BaseReplayed(a, d0).disk, a.files, Live(a.files))
    ensures r.AllRead? ==>
      && |a.run.base| <= |read| && read[..|a.run.base|] == Headers(a.run.setup.codec, a.run.base)
      && FilesRead(read[|a.run.base|..]) == a.files
    ensures r.AllRead? ==> forall i :: 0 <= i < |visits| && LookedAt(scope, visits, i) ==>
      RestoredExactly(a.run.setup.codec, scope, visits, a.before, a.files, a.run.setup.content,
                      BaseReplayed(a, d0).disk, disk, i)
    ensures r.AllRead? ==> forall k :: Live(a.files) <= k < |a.files| ==>
      BuriedExactly(a.files, BaseReplayed(a, d0).disk, disk, k)
    ensures Unchanged(a.run.setup.codec, a.files, a.run.setup.content) && BaseReplayed(a, d0).disk.Valid()
    ensures r.AllRead? ==>
      Steps(BaseReplayed(a, d0).disk, a.files, a.run.setup.content, |a.files|) == Effect(true, disk)
  {
    hide IsScan, Followable, FilesRead, LinkedFrom, FullRestores, AllReadable, LookedAt, SpanRun.Valid,
         SpanRun.Settled, SpanRun.WorldOK, SpanPlanner.FilePlan, FilesOnTape, Headers, InStep, RestoredExactly,
         BuriedExactly, WalkOfTree, AbsoluteFiles, Disk.Valid, AllFit, Replayed, Steps, Live, SpanPlanner.Flatten,
         DistinctPaths;
    ScannedSizes(scope, visits, a.before, a.files);
    ScanIsDistinct(scope, visits, a.before, a.files);
    RunIsComplete(a.run);
    ChainLiesInWorld(a.run);
    ScanReadsBack(a.run, d0, r, read, disk, a.files, a.plan.budget, a.run.setup.job.paths, a.run.setup.job.spanDepth);
    var base, content := BaseReplayed(a, d0), a.run.setup.content;
    RunOnBase(a.run, a.files, scope, visits, a.before, d0);
    ScanIsPut(scope, visits, a.before, a.files, content, base.disk);
    if r.AllRead? {
      forall i | 0 <= i < |visits| && LookedAt(scope, visits, i)
        ensures RestoredExactly(a.run.setup.codec, scope, visits, a.before, a.files, content, base.disk, disk, i)
      {
        EntryRestored(scope, visits, a.before, a.files, a.run.setup.codec, content, base.disk, i);
      }
      forall k | Live(a.files) <= k < |a.files|
        ensures BuriedExactly(a.files, base.disk, disk, k)
      {
        TombstoneApplied(scope, visits, a.before, a.files, content, base.disk, k);
      }
    }
  }

  // The sessions of the chain leave what the scan result leaves on the sessions kept.
  lemma RunOnBase(run: SpanRun, files: seq<FileMeta>, scope: Scope, visits: seq<Visit>, before: seq<FileMeta>,
                  d0: Disk)
    requires Complete(run) && AllReadable(run.setup.codec, run.base) && d0.Valid()
    requires AllReadable(run.setup.codec, run.base + Recs(run.done))
    requires Scanned(scope, visits, before, files) && SpanPlanner.Flatten(run.parts) == files
    requires forall k :: 0 <= k < |run.parts| ==> DistinctPaths(run.parts[k])
    ensures Unchanged(run.setup.codec, files, run.setup.content)
    ensures var base := Replayed(run.setup.codec, run.base, |run.base|, d0);
      && base.disk.Valid()
      && ChainReplayed(run, d0) == if base.ok then Steps(base.disk, files, run.setup.content, |files|) else base
  {
    hide Readable, SpanRun.Settled, SpanRun.RowsOK, SpanRun.DriveOK, Replayed, Steps, SpanPlanner.Flatten, Scanned,
         DistinctPaths, Unchanged, HoldParts, Disk.Valid, LiveFirst, ClosedLegs, SessionsOf, Lawful;
    var c, recs := run.setup.codec, Recs(run.done);
    assert HoldParts(run.setup, run.jobRunID, run.parts, run.done) && Lawful(c);
    assert run.parts[..|run.parts|] == run.parts;
    FilesUnchanged(run.setup, run.jobRunID, run.parts, run.done, |run.parts|);
    ReplayKeepsValid(c, run.base, |run.base|, d0);
    LaterReadable(c, run.base, recs);
    ReplayConcat(c, run.base, recs, |recs|, d0);
    var m := LiveOfScan(scope, visits, before, files);
    PartsReplay(run.setup, run.jobRunID, run.parts, run.done, files, m, |run.parts|,
                Replayed(c, run.base, |run.base|, d0).disk);
  }

  lemma LaterReadable(c: Codec, a: seq<Recorded>, b: seq<Recorded>)
    requires AllReadable(c, a + b)
    ensures AllReadable(c, b)
  {
    hide Readable;
    forall k | 0 <= k < |b|
      ensures Readable(c, b[k])
    {
      assert (a + b)[|a| + k] == b[k];
    }
  }

  lemma LiveOfScan(scope: Scope, visits: seq<Visit>, before: seq<FileMeta>, files: seq<FileMeta>) returns (m: nat)
    requires Scanned(scope, visits, before, files)
    ensures LiveFirst(files, m)
  {
    hide IsScan, WalkOfTree, AbsoluteFiles, TreeList, TombstonesFrom;
    ScanIsTree(scope, visits, before, files);
    m := Live(files);
  }

  lemma RunIsComplete(run: SpanRun)
    requires run.Valid() && run.Settled() && |run.done| == |run.parts| > 0
    ensures Complete(run) && run.ChainOK()
  {
  }
}
