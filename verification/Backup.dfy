/** A backup from the scan to the last part, and what it leaves behind: after every way a
    run can end, catalogue and cartridges are in step
    (internal/usecase/backup/usecase.go:126-330, internal/usecase/backup/span.go:60-128). */
module Backups {
  import opened Domain
  import opened TapeMachine
  import opened FakeTapes
  import opened Canonical
  import opened TapeFormat
  import opened Layout
  import opened Catalogs
  import opened Worlds
  import opened Formatting
  import opened WriteParts
  import opened SpanRuns
  import opened Scanning
  import opened PlansOnTape
  import SpanPlanner

  // ----- Planning -----------------------------------------------------------------------

  datatype SpanPlan = SpanPlan(parts: seq<seq<FileMeta>>, budget: int, byBudget: bool, newTape: bool)

  /** Bytes of the files of these sessions; tombstones are not on the tape. */
  function BytesOf(files: seq<FileMeta>): int {
    if files == [] then 0
    else BytesOf(files[..|files| - 1]) + if files[|files| - 1].IsDeleted() then 0 else files[|files| - 1].size
  }

  function Used(files: FileTable, ids: seq<int>): int {
    if ids == [] then 0
    else Used(files, ids[..|ids| - 1]) + if ids[|ids| - 1] in files then BytesOf(files[ids[|ids| - 1]]) else 0
  }

  /** Sessions and files add up, one file at a time; a tombstone takes nothing. */
  lemma {:induction false} BytesAddUp(a: seq<FileMeta>, b: seq<FileMeta>)
    ensures BytesOf(a + b) == BytesOf(a) + BytesOf(b)
    ensures forall fm: FileMeta :: BytesOf([fm]) == if fm.state == "D" then 0 else fm.size
  {
    assert forall fm: FileMeta :: [fm][..0] == [];
    if b == [] {
      assert a + b == a;
    } else {
      var n := |b| - 1;
      assert (a + b)[..|a + b| - 1] == a + b[..n];
      BytesAddUp(a, b[..n]);
    }
  }

  lemma {:induction false} UsedAddsUp(files: FileTable, a: seq<int>, b: seq<int>)
    ensures Used(files, a + b) == Used(files, a) + Used(files, b)
    ensures forall id: int :: Used(files, [id]) == if id in files then BytesOf(files[id]) else 0
  {
    hide BytesOf;
    assert forall id: int :: [id][..0] == [];
    if b == [] {
      assert a + b == a;
    } else {
      var n := |b| - 1;
      assert (a + b)[..|a + b| - 1] == a + b[..n];
      UsedAddsUp(files, a, b[..n]);
    }
  }

  /** The catalogue never knows less than what the tar streams hold. */
  lemma {:induction false} BytesCoverTheTape(files: seq<FileMeta>, content: Content)
    requires NoNegativeSize(files)
    ensures OnTape(files, content) <= BytesOf(files)
  {
    hide OnTape, BytesOf;
    BytesAddUp([], []);
    assert files == [] ==> files + [] == files;
    NothingOnTape(content);
    if files != [] {
      var n := |files| - 1;
      BytesCoverTheTape(files[..n], content);
      assert files == files[..n] + [files[n]];
      BytesAddUp(files[..n], [files[n]]);
      OnTapeConcat(files[..n], [files[n]], content);
      OnTapeOne(files[n], content);
    }
  }

  method UsedBytes(cat: Catalog, ids: seq<int>) returns (used: int)
    ensures used == Used(cat.files, ids)
  {
    used := 0;
    for i := 0 to |ids|
      invariant used == Used(cat.files, ids[..i])
    {
      var files, sum := cat.FilesOf(ids[i]), 0;
      for j := 0 to |files|
        invariant sum == BytesOf(files[..j])
      {
        if !files[j].IsDeleted() {
          sum := sum + files[j].size;
        }
        assert files[..j + 1][..j] == files[..j];
      }
      assert files[..|files|] == files;
      used := used + sum;
      assert ids[..i + 1][..i] == ids[..i];
    }
    assert ids[..|ids|] == ids;
  }

  datatype Planning = Plan(plan: SpanPlan) | BadCapacity | FileTooLarge(file: FileMeta, limit: int)

  /** Cuts the scan result into parts. A cartridge that is written from its beginning takes
      the whole capacity; one that is appended to takes what is left, unless that is less
      than the least tail, when a new cartridge is taken. */
  method PlanSpanning(cat: Catalog, ids: seq<int>, startsOver: bool, capacity: int, minTail: int,
                      files: seq<FileMeta>, roots: seq<string>, depth: int)
    returns (r: Planning)
    ensures r.BadCapacity? <==> capacity < 0
    ensures r.Plan? ==>
      var left := if capacity > Used(cat.files, ids) then capacity - Used(cat.files, ids) else 0;
      && (r.plan.byBudget <==> capacity > 0 && !startsOver && 0 < left && minTail <= left)
      && (r.plan.newTape <==> capacity > 0 && !startsOver && !(0 < left && minTail <= left))
      && r.plan.budget == (if r.plan.byBudget then left else capacity)
      && PlannedFrom(files, r.plan.budget, roots, depth, r.plan.parts) && r.plan.parts != []
    ensures capacity >= 0 ==>
      var left := if capacity > Used(cat.files, ids) then capacity - Used(cat.files, ids) else 0;
      var budget := if capacity > 0 && !startsOver && 0 < left && minTail <= left then left else capacity;
      && (r.FileTooLarge? <==> budget > 0 && TooLargeEntry(EntriesOf(files, map[]), budget))
      && (r.FileTooLarge? ==> r.file in files && r.limit == budget && OnTape([r.file], map[]) > budget)
  {
    hide SpanPlanner.FilePlan, TooLargeEntry, OnTape;
    if capacity < 0 {
      return BadCapacity;
    }
    var budget, byBudget, newTape := capacity, false, false;
    if capacity > 0 && !startsOver {
      var used := UsedBytes(cat, ids);
      var left := capacity - used;
      if left < 0 {
        left := 0;
      }
      if left > 0 && left >= minTail {
        budget, byBudget := left, true;
      } else {
        newTape := true;
      }
    }
    var planned := SpanPlanner.PlanSpan(files, budget, roots, depth);
    SomePart(files, budget, roots, depth);
    PlanningFailsExactly(files, budget, roots, depth, map[]);
    match planned {
      case Planned(parts) =>
        r := Plan(SpanPlan(parts, budget, byBudget, newTape));
      case TooLarge(file, limit) =>
        TooLargeIsReported(file, budget);
        r := FileTooLarge(file, limit);
    }
  }

  ghost predicate PlannedFrom(files: seq<FileMeta>, budget: int, roots: seq<string>, depth: int,
                              parts: seq<seq<FileMeta>>)
  {
    SpanPlanner.FilePlan(files, budget, roots, depth) == SpanPlanner.Planned(parts)
  }

  lemma SomePart(files: seq<FileMeta>, budget: int, roots: seq<string>, depth: int)
    ensures var r := SpanPlanner.FilePlan(files, budget, roots, depth);
      r.Planned? ==> r.parts != []
  {
    hide SpanPlanner.Run, SpanPlanner.FittingPrefix;
  }

  lemma TooLargeIsReported(file: FileMeta, budget: int)
    requires budget > 0
    ensures TooLargeEntry(EntriesOf([file], map[]), budget) <==> OnTape([file], map[]) > budget
  {
    hide OnTape;
    TooLargeOne(file, budget, map[]);
    CostIsOnTape(file, map[]);
  }

  // ----- The world after a run --------------------------------------------------------------

  /** Nothing of the run was kept: the rows are those of before. */
  lemma RolledBackInStep(c: Codec, rows: SessionTable, files: FileTable,
                         t0: TapeTable, t: TapeTable, w0: World, w: World, u0: string, ids0: seq<int>)
    requires SystemOK(c, rows, files, t0, w0) && Tracks(c, w0, t0, u0, |ids0|, w, t)
    requires InStep(c, rows, files, u0, w0[u0].sessions, ids0)
    ensures SystemOK(c, rows, files, t, w)
  {
    hide InStep, InOrder;
    forall u | u in w
      ensures Mirrored(c, rows, files, u, w[u].sessions)
    {
      var ids := StepBefore(c, rows, files, t0, t, w0, w, u0, ids0, u);
    }
  }

  // What a cartridge was in step with before the run, it still holds.
  lemma StepBefore(c: Codec, rows: SessionTable, files: FileTable,
                   t0: TapeTable, t: TapeTable, w0: World, w: World, u0: string, ids0: seq<int>, u: string)
    returns (ids: seq<int>)
    requires SystemOK(c, rows, files, t0, w0) && Tracks(c, w0, t0, u0, |ids0|, w, t)
    requires InStep(c, rows, files, u0, w0[u0].sessions, ids0) && u in w
    ensures InStep(c, rows, files, u, w[u].sessions, ids)
    ensures u == u0 ==> ids == ids0
    ensures u !in t0 ==> ids == []
  {
    hide InOrder, RowMirrors;
    if u == u0 {
      ids := ids0;
      StepKeepsFront(c, rows, files, u, w0[u].sessions, w[u].sessions, ids0);
    } else if u in w0 {
      assert Mirrored(c, rows, files, u, w0[u].sessions);
      ids :| InStep(c, rows, files, u, w0[u].sessions, ids);
    } else {
      ids := [];
    }
  }

  /** The parts written were kept: one more row on each cartridge that got a part. */
  lemma PartsInStep(setup: Setup, jobRunID: string, parts: seq<seq<FileMeta>>, done: seq<PartRec>, created: seq<int>,
                    rows: SessionTable, files: FileTable,
                    rows0: SessionTable, files0: FileTable,
                    t0: TapeTable, t: TapeTable, w0: World, w: World, u0: string, ids0: seq<int>)
    requires Lawful(setup.codec)
    requires SystemOK(setup.codec, rows0, files0, t0, w0) && Tracks(setup.codec, w0, t0, u0, |ids0|, w, t)
    requires InStep(setup.codec, rows0, files0, u0, w0[u0].sessions, ids0)
    requires HoldParts(setup, jobRunID, parts, done) && AllPlaced(t0, u0, |ids0|, w, done)
    requires RowsAre(rows, files, rows0, files0, created, done, parts)
    requires forall id :: id in rows ==> rows[id].tapeUUID in t
    ensures SystemOK(setup.codec, rows, files, t, w)
  {
    hide InStep, InOrder, Lawful, HoldsPart, AllPlaced, RowsAre;
    var c := setup.codec;
    forall u | u in w
      ensures Mirrored(c, rows, files, u, w[u].sessions)
    {
      var ids := StepBefore(c, rows0, files0, t0, t, w0, w, u0, ids0, u);
      if k :| 0 <= k < |done| && done[k].sess.tapeUUID == u {
        PartInStep(setup, jobRunID, parts, done, created, rows, files, rows0, files0, t0, w, u0, |ids0|, ids, k);
      } else {
        OthersInStep(c, done, created, rows, files, rows0, files0, parts, u, w[u].sessions, ids);
      }
    }
  }

  lemma OthersInStep(c: Codec, done: seq<PartRec>, created: seq<int>,
                     rows: SessionTable, files: FileTable,
                     rows0: SessionTable, files0: FileTable, parts: seq<seq<FileMeta>>,
                     u: string, recs: seq<Recorded>, ids: seq<int>)
    requires RowsAre(rows, files, rows0, files0, created, done, parts)
    requires InStep(c, rows0, files0, u, recs, ids)
    requires forall k :: 0 <= k < |done| ==> done[k].sess.tapeUUID != u
    ensures Mirrored(c, rows, files, u, recs)
  {
    hide InStep, Entered;
    StepUntouched(c, rows, files, rows0, files0, created, Rows(done), parts, u, recs, ids);
  }

  lemma AsManyRows(rows: SessionTable, files: FileTable,
                   rows0: SessionTable, files0: FileTable,
                   created: seq<int>, sess: seq<Session>, lists: seq<seq<FileMeta>>)
    requires Entered(rows, files, rows0, files0, created, sess, lists)
    ensures |created| == |sess|
  {
  }

  lemma OnePartEach(t0: TapeTable, u0: string, n0: nat, w: World, done: seq<PartRec>, k: nat)
    requires AllPlaced(t0, u0, n0, w, done) && k < |done|
    ensures forall j :: 0 <= j < |done| && j != k ==> done[j].sess.tapeUUID != done[k].sess.tapeUUID
  {
    hide Placed;
  }

  lemma SealKeeps(sha: Digest, idx: SessionIndex)
    ensures forall u :: RowFor(u, Seal(sha, idx)) == RowFor(u, idx)
    ensures Seal(sha, idx).files == idx.files && Seal(sha, idx).sessionNum == idx.sessionNum
  {
    hide CanonicalIndex;
  }

  lemma StepSizes(c: Codec, rows: SessionTable, files: FileTable, u: string, recs: seq<Recorded>, ids: seq<int>)
    requires InStep(c, rows, files, u, recs, ids)
    ensures |ids| <= |recs|
  {
  }

  lemma PartInStep(setup: Setup, jobRunID: string, parts: seq<seq<FileMeta>>, done: seq<PartRec>, created: seq<int>,
                   rows: SessionTable, files: FileTable,
                   rows0: SessionTable, files0: FileTable,
                   t0: TapeTable, w: World, u0: string, n0: nat, ids: seq<int>, k: nat)
    requires Lawful(setup.codec) && k < |done| <= |parts|
    requires HoldParts(setup, jobRunID, parts, done) && AllPlaced(t0, u0, n0, w, done)
    requires RowsAre(rows, files, rows0, files0, created, done, parts)
    requires var u := done[k].sess.tapeUUID;
      && u in w && InStep(setup.codec, rows0, files0, u, w[u].sessions, ids)
      && (u == u0 ==> |ids| == n0) && (u !in t0 ==> ids == []) && (u0 in t0)
    ensures var u := done[k].sess.tapeUUID;
      Mirrored(setup.codec, rows, files, u, w[u].sessions)
  {
    hide InStep, Lawful, Entered, ReadIndex, Records, CanonicalIndex, Setup.JobHash;
    var c, u, d := setup.codec, done[k].sess.tapeUUID, done[k];
    assert Placed(t0, u0, n0, w, d.sess, d.rec);
    assert HoldsPart(setup, jobRunID, parts, k, d);
    var idx := IndexOf(setup, d.sess, d.continues, parts[k], d.dedup);
    RecordedReadsBack(setup, idx, d.rec);
    StepSizes(c, rows0, files0, u, w[u].sessions, ids);
    OnePartEach(t0, u0, n0, w, done, k);
    SealKeeps(c.sha, idx);
    AsManyRows(rows, files, rows0, files0, created, Rows(done), parts);
    assert Rows(done)[k] == d.sess == RowFor(u, Seal(c.sha, idx));
    StepGrown(c, rows, files, rows0, files0, created, Rows(done), parts, u, w[u].sessions, ids, k, Seal(c.sha, idx));
    assert InStep(c, rows, files, u, w[u].sessions, ids + [created[k]]);
  }

  /** Whatever way a run ends, catalogue and cartridges are in step again. */
  lemma RunEndsInStep(run: SpanRun, end: RunEnd, ids0: seq<int>)
    requires run.cat.Valid() && run.WorldOK() && Lawful(run.setup.codec)
    requires SystemOK(run.setup.codec, run.rows0, run.files0, run.tapes0, run.world0)
    requires |ids0| == run.lastNum0 && run.uuid0 in run.world0
    requires InStep(run.setup.codec, run.rows0, run.files0, run.uuid0, run.world0[run.uuid0].sessions, ids0)
    requires end.RolledBack? ==> run.cat.sessions == run.rows0 && run.cat.files == run.files0
    requires !end.RolledBack? ==> run.RowsOK() && HoldParts(run.setup, run.jobRunID, run.parts, run.done)
    ensures SystemOK(run.setup.codec, run.cat.sessions, run.cat.files, run.cat.tapes, run.world)
  {
    hide Lawful, HoldParts, SystemOK, Tracks, InStep, RowsAre, AllPlaced;
    if end.RolledBack? {
      RolledBackInStep(run.setup.codec, run.rows0, run.files0, run.tapes0, run.cat.tapes, run.world0, run.world,
                       run.uuid0, ids0);
    } else {
      PartsInStep(run.setup, run.jobRunID, run.parts, run.done, run.created, run.cat.sessions, run.cat.files,
                  run.rows0, run.files0, run.tapes0, run.cat.tapes, run.world0, run.world, run.uuid0, ids0);
    }
  }

  // ----- The backup ---------------------------------------------------------------------------

  datatype Options = Options(full: bool, dryRun: bool, verify: bool)

  datatype Config = Config(capacity: int, minTail: int, hasChanger: bool)

  datatype BackupResult =
    | NoCartridge                      // no readable label, or one the catalogue does not know
    | ScanFailed
    | NotPlanned(planning: Planning)
    | DryRun(planned: nat)
    | NoChanger
    | Ended(end: RunEnd)

  /** Deletes the rows of a cartridge that is written anew. */
  method DropSessions(cat: Catalog, ids: seq<int>)
    requires cat.Valid()
    modifies cat`sessions, cat`files
    ensures cat.Valid()
    ensures cat.sessions == old(cat.sessions) - AsSet(ids) && cat.files == old(cat.files) - AsSet(ids)
  {
    RollbackRows(cat, ids);
  }

  // Dropping other rows leaves the rows of a cartridge in step.
  lemma StepWithout(c: Codec, rows: SessionTable, files: FileTable, gone: set<int>,
                    u: string, recs: seq<Recorded>, mine: seq<int>)
    requires InStep(c, rows, files, u, recs, mine)
    requires forall id :: id in gone && id in rows ==> rows[id].tapeUUID != u
    ensures InStep(c, rows - gone, files - gone, u, recs, mine)
  {
    hide ReadIndex;
    forall i | 0 <= i < |mine|
      ensures RowMirrors(c, rows - gone, files - gone, mine[i], u, recs[i], i + 1)
    {
      assert RowMirrors(c, rows, files, mine[i], u, recs[i], i + 1);
    }
  }

  lemma DroppedInStep(c: Codec, rows: SessionTable, files: FileTable, t: TapeTable, w: World,
                      u0: string, ids: seq<int>)
    requires SystemOK(c, rows, files, t, w)
    requires forall i :: 0 <= i < |ids| ==> ids[i] in rows && rows[ids[i]].tapeUUID == u0
    requires forall id :: id in rows && rows[id].tapeUUID == u0 ==> id in ids
    ensures SystemOK(c, rows - AsSet(ids), files - AsSet(ids), t, w)
    ensures u0 in w ==> InStep(c, rows - AsSet(ids), files - AsSet(ids), u0, w[u0].sessions, [])
  {
    hide RowMirrors, InOrder;
    var rows', files' := rows - AsSet(ids), files - AsSet(ids);
    forall u | u in w
      ensures Mirrored(c, rows', files', u, w[u].sessions)
      ensures u == u0 ==> InStep(c, rows', files', u, w[u].sessions, [])
    {
      if u == u0 {
        assert InStep(c, rows', files', u, w[u].sessions, []);
      } else {
        var mine := SystemStep(c, rows, files, t, w, u);
        StepWithout(c, rows, files, AsSet(ids), u, w[u].sessions, mine);
      }
    }
  }

  // The cartridge in the drive, if the catalogue knows it, is the one the world has.
  ghost predicate DriveHolds(c: Codec, t: Tape, tapes: TapeTable, w: World) {
    var l := HeadOf(c, t.items);
    l.Label? && l.tapeLabel.uuid in tapes ==>
      var u := l.tapeLabel.uuid;
      u in w && t.items == Items(w[u]) && t.capacity == w[u].capacity
  }

  /** Reads the label, and finds the cartridge in the catalogue. */
  method ReadLabel(tape: FakeTape, cat: Catalog, c: Codec, ghost w: World) returns (l: Option<TapeLabel>)
    requires tape.Valid() && DriveHolds(c, tape.View(), cat.tapes, w)
    modifies tape`pos
    ensures tape.Valid()
    ensures l.Some? ==> l.value.uuid in cat.tapes && HeadOf(c, tape.items) == Label(l.value)
    ensures l.Some? ==>
      l.value.uuid in w && tape.items == Items(w[l.value.uuid]) && tape.capacity == w[l.value.uuid].capacity
    ensures l.Some? ==> DecodeLabel(c, w[l.value.uuid].heading) == Label(l.value)
    ensures l.None? <==> !Known(c, tape.items, cat.tapes)
  {
    HeadIs(c, tape.items);
    OneHead(c, tape.items);
    hide DecodeLabel, HeadIsOurs, HeadIsNewer, HeadIsBroken;
    tape.Rewind();
    var block := tape.ReadBlock();
    if block.EndOfFile? {
      return None;
    }
    var r := DecodeLabel(c, block.block);
    if !r.Label? || r.tapeLabel.uuid !in cat.tapes {
      return None;
    }
    l := Some(r.tapeLabel);
    LabelAt(w[l.value.uuid]);
  }

  lemma OneHead(c: Codec, items: seq<Item>)
    ensures forall l, l' :: HeadIsOurs(c, items, l) && HeadIsOurs(c, items, l') ==> l == l'
  {
    hide TrimZeros;
  }

  lemma SystemLabels(c: Codec, rows: SessionTable, files: FileTable, t: TapeTable, w: World)
    requires SystemOK(c, rows, files, t, w)
    ensures w.Keys <= t.Keys && "" !in t && forall u :: u in w ==> InOrder(c, u, w[u])
  {
  }

  lemma SystemStep(c: Codec, rows: SessionTable, files: FileTable, t: TapeTable, w: World, u: string)
    returns (ids: seq<int>)
    requires SystemOK(c, rows, files, t, w) && u in w
    ensures InStep(c, rows, files, u, w[u].sessions, ids)
  {
    hide InStep;
    assert Mirrored(c, rows, files, u, w[u].sessions);
    ids :| InStep(c, rows, files, u, w[u].sessions, ids);
  }

  /** The files session k of a cartridge lists; none before the first session. */
  ghost function FilesOnTape(c: Codec, cart: Cart, k: nat): seq<FileMeta>
    requires k <= |cart.sessions|
  {
    if k == 0 then []
    else match ReadIndex(c, Concat(cart.sessions[k - 1].index))
      case Index(idx) => idx.files
      case _ => []
  }

  /** Label, rows of the cartridge, number of its last session and that session's files, as
      the catalogue has them: the files are those the session lists on the cartridge. */
  method Prepare(tape: FakeTape, cat: Catalog, c: Codec, ghost w: World)
    returns (l: Option<TapeLabel>, ids: seq<int>, lastNum: int, snapshot: seq<FileMeta>, ghost step: seq<int>)
    requires tape.Valid() && cat.Valid() && DriveHolds(c, tape.View(), cat.tapes, w)
    requires SystemOK(c, cat.sessions, cat.files, cat.tapes, w)
    modifies tape`pos
    ensures tape.Valid()
    ensures l.None? <==> !Known(c, tape.items, cat.tapes)
    ensures l.Some? ==>
      var u := l.value.uuid;
      && HeadOf(c, tape.items) == Label(l.value)
      && u in w && tape.items == Items(w[u]) && tape.capacity == w[u].capacity
      && DecodeLabel(c, w[u].heading) == Label(l.value)
      && (forall i :: 0 <= i < |ids| ==> ids[i] in cat.sessions && cat.sessions[ids[i]].tapeUUID == u)
      && (forall id :: id in cat.sessions && cat.sessions[id].tapeUUID == u ==> id in ids)
      && InStep(c, cat.sessions, cat.files, u, w[u].sessions, step)
      && lastNum == |step| <= |w[u].sessions|
      && snapshot == FilesOnTape(c, w[u], lastNum)
  {
    hide SystemOK, DriveHolds, Items, DecodeLabel, Labelled, InStep, ReadIndex, HeadOf, Known;
    ids, lastNum, snapshot, step := [], 0, [], [];
    SystemLabels(c, cat.sessions, cat.files, cat.tapes, w);
    l := ReadLabel(tape, cat, c, w);
    if l.None? {
      return;
    }
    var u := l.value.uuid;
    ids := cat.ListSessions(u);
    var last;
    lastNum, last := cat.LastSession(ids);
    step := SystemStep(c, cat.sessions, cat.files, cat.tapes, w, u);
    TopNumber(c, cat.sessions, cat.files, u, w[u].sessions, step, ids, lastNum, last);
    StepSizes(c, cat.sessions, cat.files, u, w[u].sessions, step);
    if lastNum > 0 {
      StepFiles(c, cat.sessions, cat.files, u, w[u].sessions, step, lastNum - 1);
      assert last in cat.sessions;
      snapshot := cat.FilesOf(last);
    }
  }

  lemma StepFiles(c: Codec, rows: SessionTable, files: FileTable, u: string, recs: seq<Recorded>, ids: seq<int>,
                  i: nat)
    requires InStep(c, rows, files, u, recs, ids) && i < |ids|
    ensures var r := ReadIndex(c, Concat(recs[i].index));
      r.Index? && (if ids[i] in files then files[ids[i]] else []) == r.idx.files
  {
    hide ReadIndex;
    assert RowMirrors(c, rows, files, ids[i], u, recs[i], i + 1);
  }

  lemma PartsAreHeld(run: SpanRun)
    requires run.ChainOK()
    ensures HoldParts(run.setup, run.jobRunID, run.parts, run.done)
  {
  }

  /** The catalogue holds these rows and files, and one row with its files for each part
      that was written, under the identifier of the run. */
  ghost predicate PartsEntered(rows: SessionTable, files: FileTable, run: SpanRun)
    reads run, run.cat
  {
    && RowsAre(run.cat.sessions, run.cat.files, rows, files, run.created, run.done, run.parts)
    && HoldParts(run.setup, run.jobRunID, run.parts, run.done)
  }

  /** Why a run ends as it does, where nothing outside it failed. */
  ghost predicate HasCause(run: SpanRun, end: RunEnd, fault: bool)
    reads run
  {
    match end
    case Finished => !fault
    case RolledBack => fault || run.Stuck()
    case VerifyFailed => 0 < |run.done| <= |run.parts| && (fault || !DistinctPaths(run.parts[|run.done| - 1]))
    case TooBigForCartridge => run.NoRoom() && run.lastNum == 0 && run.hasChanger && run.budget == run.capacity > 0
  }

  /** Writes the planned parts; catalogue and cartridges end in step. */
  method WritePlan(tape: FakeTape, l: TapeLabel, cat: Catalog, setup: Setup, plan: SpanPlan, config: Config,
                   verify: bool, isFull: bool, lastNum: nat, jobRunID: string, now: string, ghost w: World,
                   ghost ids: seq<int>)
    returns (end: RunEnd, ghost w': World, ghost run': SpanRun, ghost fault: bool)
    requires tape.Valid() && cat.Valid() && Lawful(setup.codec) && setup.codec.validTime(now) && plan.parts != []
    requires SystemOK(setup.codec, cat.sessions, cat.files, cat.tapes, w)
    requires l.uuid in w && tape.items == Items(w[l.uuid]) && tape.capacity == w[l.uuid].capacity
    requires DecodeLabel(setup.codec, w[l.uuid].heading) == Label(l)
    requires InStep(setup.codec, cat.sessions, cat.files, l.uuid, w[l.uuid].sessions, ids) && |ids| == lastNum
    requires isFull ==> lastNum == 0
    modifies tape, cat
    ensures cat.Valid() && SystemOK(setup.codec, cat.sessions, cat.files, cat.tapes, w')
    ensures end.RolledBack? ==> cat.sessions == old(cat.sessions) && cat.files == old(cat.files)
    ensures run'.parts == plan.parts && run'.setup == setup && run'.attempts <= 2 * |plan.parts| + 1
    ensures run'.world == w' && run'.WorldOK() && run'.cat == cat && run'.jobRunID == jobRunID
    ensures !end.RolledBack? ==> PartsEntered(old(cat.sessions), old(cat.files), run')
    ensures end.Finished? ==> run'.Valid() && run'.Settled() && |run'.done| == |run'.parts|
    ensures end.Finished? ==>
      run'.base == if plan.newTape && config.hasChanger then [] else w[l.uuid].sessions[..lastNum]
    ensures end.Finished? && !(plan.newTape && config.hasChanger) ==> run'.firstLabel == l
    ensures HasCause(run', end, fault) && run'.hasChanger == config.hasChanger && run'.capacity == config.capacity
  {
    hide SystemOK, Lawful, Items, DecodeLabel, Labelled, InStep, Tracks, AllPlaced, HoldParts, RowsAre,
         SpanRun.Settled, SpanRun.DriveOK, SpanRun.ChainOK, SpanRun.Stuck, SpanRun.NoRoom, Entered, DistinctPaths;
    SystemLabels(setup.codec, cat.sessions, cat.files, cat.tapes, w);
    StepSizes(setup.codec, cat.sessions, cat.files, l.uuid, w[l.uuid].sessions, ids);
    var run := new SpanRun(cat, setup, plan.parts, jobRunID, config.capacity, isFull, config.hasChanger, verify, now,
                           tape, l, lastNum, plan.budget, w[l.uuid], w);
    end, fault := run.Run(plan.newTape);
    if end.Finished? {
      PartsAreHeld(run);
    }
    RunEndsInStep(run, end, ids);
    w', run' := run.world, run;
  }

  // The cartridge is written from its beginning.
  predicate StartsOver(opts: Options, kept: nat) { opts.full || kept == 0 }

  // The run leaves the cartridge for a new one before its first part.
  predicate Rotates(config: Config, plan: SpanPlan) { plan.newTape && config.hasChanger }

  ghost function RowsOf(rows: SessionTable, uuid: string): set<int> {
    set id | id in rows && rows[id].tapeUUID == uuid
  }

  lemma ListedRows(rows: SessionTable, u: string, ids: seq<int>)
    requires forall i :: 0 <= i < |ids| ==> ids[i] in rows && rows[ids[i]].tapeUUID == u
    requires forall id :: id in rows && rows[id].tapeUUID == u ==> id in ids
    ensures AsSet(ids) == RowsOf(rows, u)
  {
    forall id
      ensures id in AsSet(ids) <==> id in RowsOf(rows, u)
    {
      if id in ids {
        var i :| 0 <= i < |ids| && ids[i] == id;
      }
    }
  }

  /** Drops the rows of a cartridge that is written anew, and writes the plan. */
  method DropAndWrite(tape: FakeTape, l: TapeLabel, cat: Catalog, setup: Setup, plan: SpanPlan, config: Config,
                      opts: Options, ids: seq<int>, kept: nat, jobRunID: string, now: string, ghost w: World,
                      ghost step: seq<int>)
    returns (end: RunEnd, ghost w': World, ghost run: SpanRun, ghost fault: bool)
    requires tape.Valid() && cat.Valid() && Lawful(setup.codec) && setup.codec.validTime(now) && plan.parts != []
    requires SystemOK(setup.codec, cat.sessions, cat.files, cat.tapes, w)
    requires l.uuid in w && tape.items == Items(w[l.uuid]) && tape.capacity == w[l.uuid].capacity
    requires DecodeLabel(setup.codec, w[l.uuid].heading) == Label(l)
    requires InStep(setup.codec, cat.sessions, cat.files, l.uuid, w[l.uuid].sessions, step) && |step| == kept
    requires kept <= |w[l.uuid].sessions|
    requires forall i :: 0 <= i < |ids| ==> ids[i] in cat.sessions && cat.sessions[ids[i]].tapeUUID == l.uuid
    requires forall id :: id in cat.sessions && cat.sessions[id].tapeUUID == l.uuid ==> id in ids
    modifies tape, cat
    ensures cat.Valid() && SystemOK(setup.codec, cat.sessions, cat.files, cat.tapes, w')
    ensures end.RolledBack? ==>
      var gone := if StartsOver(opts, kept) then RowsOf(old(cat.sessions), l.uuid) else {};
      cat.sessions == old(cat.sessions) - gone && cat.files == old(cat.files) - gone
    ensures run.setup == setup && run.world == w' && run.WorldOK() && run.parts == plan.parts
    ensures run.cat == cat && run.jobRunID == jobRunID
    ensures !end.RolledBack? ==>
      var gone := if StartsOver(opts, kept) then RowsOf(old(cat.sessions), l.uuid) else {};
      PartsEntered(old(cat.sessions) - gone, old(cat.files) - gone, run)
    ensures end.Finished? ==> run.Valid() && run.Settled() && |run.done| == |run.parts|
    ensures end.Finished? ==>
      run.base == if StartsOver(opts, kept) || Rotates(config, plan) then [] else w[l.uuid].sessions[..kept]
    ensures end.Finished? && !Rotates(config, plan) ==> run.firstLabel == l
    ensures HasCause(run, end, fault) && run.hasChanger == config.hasChanger && run.capacity == config.capacity
  {
    hide SystemOK, Lawful, Items, DecodeLabel, InStep, SpanRun.Settled, SpanRun.Valid, SpanRun.WorldOK, AsSet, RowsOf,
         PartsEntered, Catalog.Valid, HasCause;
    ListedRows(cat.sessions, l.uuid, ids);
    var lastNum := kept;
    ghost var mine := step;
    assert cat.sessions - {} == cat.sessions && cat.files - {} == cat.files;
    if opts.full || kept == 0 {
      DroppedInStep(setup.codec, cat.sessions, cat.files, cat.tapes, w, l.uuid, ids);
      DropSessions(cat, ids);
      lastNum, mine := 0, [];
    }
    end, w', run, fault := WritePlan(tape, l, cat, setup, plan, config, opts.verify, opts.full || kept == 0, lastNum,
                                     jobRunID, now, w, mine);
  }

  /** What is known of a backup that got as far as writing: the cartridge it began with, how
      many of its sessions the catalogue knew, the files it compared with, the scan result,
      the plan and the run. */
  datatype Account = Account(first: TapeLabel, kept: nat, before: seq<FileMeta>, files: seq<FileMeta>, plan: SpanPlan,
                             run: SpanRun)

  // The same before a run is begun.
  datatype Draft = Draft(first: TapeLabel, kept: nat, before: seq<FileMeta>, files: seq<FileMeta>, plan: SpanPlan)

  // How the account begins: before anything is written.
  ghost predicate Drafted(c: Codec, t: Tape, rows: SessionTable, files: FileTable, w: World, scope: Scope,
                          visits: seq<Visit>, opts: Options, job: Job, d: Draft)
  {
    var u := d.first.uuid;
    && HeadOf(c, t.items) == Label(d.first) && u in w && d.kept <= |w[u].sessions|
    && (exists ids :: InStep(c, rows, files, u, w[u].sessions, ids) && |ids| == d.kept)
    && d.before == FilesOnTape(c, w[u], d.kept)
    && IsScan(scope, visits, d.before, d.files)
    && PlannedFrom(d.files, d.plan.budget, job.paths, job.spanDepth, d.plan.parts)
    && (d.plan.newTape ==> !StartsOver(opts, d.kept))
  }

  /** What a backup answers once the plan stands, and before. */
  ghost predicate ItsResult(r: BackupResult, d: Option<Draft>, opts: Options, config: Config) {
    match d
    case None =>
      || r.NoCartridge? || r.ScanFailed?
      || (r.NotPlanned? && (r.planning.BadCapacity? <==> config.capacity < 0))
    case Some(draft) =>
      if opts.dryRun then r == DryRun(|draft.plan.parts|)
      else if |draft.plan.parts| > 1 && !config.hasChanger then r.NoChanger?
      else r.Ended?
  }

  /** The tape begins with a label of ours, and the catalogue knows the cartridge. */
  ghost predicate Known(c: Codec, items: seq<Item>, tapes: TapeTable) {
    exists head :: HeadIsOurs(c, items, head) && head.uuid in tapes
  }

  ghost predicate Opened(c: Codec, t: Tape, rows: SessionTable, files: FileTable, w: World, scope: Scope,
                         visits: seq<Visit>, config: Config, opts: Options, job: Job, a: Account)
  {
    Drafted(c, t, rows, files, w, scope, visits, opts, job, Draft(a.first, a.kept, a.before, a.files, a.plan))
  }

  /** What a finished run has to show: its parts are those of the plan, its chain begins with
      the cartridge the backup began with, or with a new one, and behind the sessions kept
      there come the parts. */
  ghost predicate BackedUp(w: World, config: Config, opts: Options, a: Account)
    reads a.run, a.run.tape, a.run.cat
  {
    var u := a.first.uuid;
    && a.run.parts == a.plan.parts != []
    && a.run.Valid() && a.run.Settled() && |a.run.done| == |a.run.parts|
    && u in w && a.kept <= |w[u].sessions|
    && a.run.base == (if StartsOver(opts, a.kept) || Rotates(config, a.plan) then [] else w[u].sessions[..a.kept])
    && (!Rotates(config, a.plan) ==> a.run.firstLabel == a.first)
  }

  /** Backs a job up: scan against the files the last session of the cartridge lists, plan,
      write. Catalogue and cartridges are in step before and after, whatever happens in
      between; nothing is written on a dry run or before the plan stands. A run that was
      rolled back leaves the rows as they were, but for those of a cartridge that was to be
      written anew. */
  method Backup(tape: FakeTape, cat: Catalog, setup: Setup, scope: Scope, visits: seq<Visit>, config: Config,
                opts: Options, jobRunID: string, now: string, ghost w: World)
    returns (r: BackupResult, ghost w': World, ghost a: Option<Account>, ghost d: Option<Draft>, ghost fault: bool)
    requires tape.Valid() && cat.Valid() && Lawful(setup.codec) && setup.codec.validTime(now)
    requires SystemOK(setup.codec, cat.sessions, cat.files, cat.tapes, w)
    requires DriveHolds(setup.codec, tape.View(), cat.tapes, w)
    modifies tape, cat
    ensures cat.Valid() && SystemOK(setup.codec, cat.sessions, cat.files, cat.tapes, w')
    ensures !r.Ended? ==> cat.sessions == old(cat.sessions) && cat.files == old(cat.files)
    ensures !r.Ended? ==> tape.items == old(tape.items) && w' == w
    ensures r.NoCartridge? <==> !Known(setup.codec, old(tape.items), old(cat.tapes))
    ensures r.ScanFailed? ==> fault
    ensures ItsResult(r, d, opts, config)
    ensures r.Ended? ==>
      && a.Some? && a.value.run.setup == setup && a.value.run.world == w' && a.value.run.WorldOK()
      && Opened(setup.codec, old(tape.View()), old(cat.sessions), old(cat.files), w, scope, visits, config, opts,
                setup.job, a.value)
    ensures r == Ended(RolledBack) ==>
      var gone := if StartsOver(opts, a.value.kept) then RowsOf(old(cat.sessions), a.value.first.uuid) else {};
      cat.sessions == old(cat.sessions) - gone && cat.files == old(cat.files) - gone
    ensures r.Ended? ==> a.value.run.cat == cat && a.value.run.jobRunID == jobRunID
    ensures r.Ended? && !r.end.RolledBack? ==>
      var gone := if StartsOver(opts, a.value.kept) then RowsOf(old(cat.sessions), a.value.first.uuid) else {};
      PartsEntered(old(cat.sessions) - gone, old(cat.files) - gone, a.value.run)
    ensures r == Ended(Finished) ==> BackedUp(w, config, opts, a.value)
    ensures r.Ended? ==> HasCause(a.value.run, r.end, fault)
    ensures d.Some? ==>
      Drafted(setup.codec, old(tape.View()), old(cat.sessions), old(cat.files), w, scope, visits, opts, setup.job,
              d.value)
  {
    hide SystemOK, DriveHolds, Lawful, Items, DecodeLabel, HeadOf, InStep, IsScan, PlannedFrom, SpanRun.Settled,
         SpanRun.Valid, SpanRun.WorldOK, AsSet, RowsOf, Used, FilesOnTape, PartsEntered, Catalog.Valid, HasCause,
         Known;
    w', a, d, fault := w, None, None, false;
    var l, ids, lastNum, snapshot;
    ghost var step;
    l, ids, lastNum, snapshot, step := Prepare(tape, cat, setup.codec, w);
    if l.None? {
      r := NoCartridge;
      return;
    }
    var u := l.value.uuid;
    var scanner := new Scanner();
    var scanned;
    scanned, fault := scanner.Scan(scope, visits, snapshot);
    if scanned.None? {
      r := ScanFailed;
      return;
    }
    var startsOver := opts.full || lastNum == 0;
    var planning := PlanSpanning(cat, ids, startsOver, config.capacity, config.minTail, scanned.value,
                                 setup.job.paths, setup.job.spanDepth);
    if !planning.Plan? {
      r := NotPlanned(planning);
      return;
    }
    var plan := planning.plan;
    d := Some(Draft(l.value, lastNum, snapshot, scanned.value, plan));
    if opts.dryRun {
      r := DryRun(|plan.parts|);
      return;
    }
    if |plan.parts| > 1 && !config.hasChanger {
      r := NoChanger;
      return;
    }
    var end;
    ghost var run;
    end, w', run, fault := DropAndWrite(tape, l.value, cat, setup, plan, config, opts, ids, lastNum, jobRunID, now,
                                        w, step);
    a := Some(Account(l.value, lastNum, snapshot, scanned.value, plan, run));
    r := Ended(end);
  }
}
