/** Rebuilding the catalogue from a cartridge: sessions the catalogue lacks are entered from
    the indexes on the tape (internal/usecase/catalog/rebuild.go). */
module Rebuilding {
  import opened Domain
  import opened TapeMachine
  import opened FakeTapes
  import opened TapeFormat
  import opened Layout
  import opened Catalogs
  import opened Worlds
  import opened Chains
  import opened Formatting
  import opened WriteParts

  datatype RebuildResult =
    | Rebuilt(sessions: nat, files: nat, skipped: nat, nextTapeName: string)
    | NoLabel
    | RebuildFailed                // a damaged index, or a catalogue that refused

  // ----- What is missing ------------------------------------------------------------------

  // Session i, counted from 0, has a row.
  predicate HasRow(nums: set<int>, i: int) { i + 1 in nums }

  /** Which of the first n sessions have no row, given the numbers that have one. */
  function Missing(nums: set<int>, n: nat): (r: seq<nat>)
    ensures forall k :: 0 <= k < |r| ==> r[k] < n && !HasRow(nums, r[k])
    ensures forall i :: 0 <= i < n && !HasRow(nums, i) ==> i in r
    ensures |r| <= n
  {
    if n == 0 then [] else Missing(nums, n - 1) + if HasRow(nums, n - 1) then [] else [n - 1]
  }

  /** The numbers of the rows of a cartridge; a label with an empty identifier stands for
      the rows of all cartridges. */
  ghost function Numbers(rows: SessionTable, uuid: string): set<int> {
    set id | id in rows && (uuid == "" || rows[id].tapeUUID == uuid) :: rows[id].num
  }

  ghost function IndexAt(c: Codec, recs: seq<Recorded>, i: nat): SessionIndex
    requires i < |recs| && NumberedAt(c, recs, i)
  {
    ReadIndex(c, Concat(recs[i].index)).idx
  }

  ghost function MissingRows(c: Codec, uuid: string, recs: seq<Recorded>, missing: seq<nat>): (r: seq<Session>)
    requires Numbered(c, recs) && forall k :: 0 <= k < |missing| ==> missing[k] < |recs|
    ensures |r| == |missing|
    ensures forall k :: 0 <= k < |r| ==>
      NumberedAt(c, recs, missing[k]) && r[k] == RowFor(uuid, IndexAt(c, recs, missing[k]))
  {
    seq(|missing|, k requires 0 <= k < |missing| && NumberedAt(c, recs, missing[k]) =>
      RowFor(uuid, IndexAt(c, recs, missing[k])))
  }

  ghost function MissingFiles(c: Codec, recs: seq<Recorded>, missing: seq<nat>): (r: seq<seq<FileMeta>>)
    requires Numbered(c, recs) && forall k :: 0 <= k < |missing| ==> missing[k] < |recs|
    ensures |r| == |missing|
    ensures forall k :: 0 <= k < |r| ==>
      NumberedAt(c, recs, missing[k]) && r[k] == IndexAt(c, recs, missing[k]).files
  {
    seq(|missing|, k requires 0 <= k < |missing| && NumberedAt(c, recs, missing[k]) =>
      IndexAt(c, recs, missing[k]).files)
  }

  function FileCount(lists: seq<seq<FileMeta>>): nat {
    if lists == [] then 0 else FileCount(lists[..|lists| - 1]) + |lists[|lists| - 1]|
  }

  // How many files the missing ones among the first n sessions list.
  ghost function MissingCount(c: Codec, recs: seq<Recorded>, nums: set<int>, n: nat): nat {
    if Numbered(c, recs) && n <= |recs| then FileCount(MissingFiles(c, recs, Missing(nums, n))) else 0
  }

  lemma MissingCountGrows(c: Codec, uuid: string, recs: seq<Recorded>, nums: set<int>, i: nat)
    requires Numbered(c, recs) && i < |recs| && NumberedAt(c, recs, i)
    ensures MissingCount(c, recs, nums, i + 1) ==
            MissingCount(c, recs, nums, i) + if HasRow(nums, i) then 0 else |IndexAt(c, recs, i).files|
  {
    hide ReadIndex, NumberedAt;
    assert Missing(nums, i + 1) == Missing(nums, i) + if HasRow(nums, i) then [] else [i];
    if HasRow(nums, i) {
      assert Missing(nums, i + 1) == Missing(nums, i);
    } else {
      var lists, fs := MissingFiles(c, recs, Missing(nums, i)), IndexAt(c, recs, i).files;
      MoreRows(c, uuid, recs, Missing(nums, i), i);
      assert (lists + [fs])[..|lists|] == lists;
    }
  }

  /** The catalogue got exactly the rows it lacked, each with the files of its session. */
  ghost predicate Completed(c: Codec, rows: SessionTable, files: FileTable,
                            rows0: SessionTable, files0: FileTable,
                            uuid: string, recs: seq<Recorded>, n: nat, added: seq<int>)
    requires Numbered(c, recs) && n <= |recs|
  {
    var missing := Missing(Numbers(rows0, uuid), n);
    Entered(rows, files, rows0, files0, added, MissingRows(c, uuid, recs, missing), MissingFiles(c, recs, missing))
  }

  // ----- On the tape ------------------------------------------------------------------------

  // A cartridge a rebuild can read to its end.
  ghost predicate Whole(c: Codec, leg: Leg) {
    && HasLabel(c, leg) && Numbered(c, leg.cart.sessions)
    && (PointerRead(c, leg.cart).NoIndex? || PointerRead(c, leg.cart).Continues?)
  }

  // Where a rebuild stands after i sessions, and what it finds there.
  lemma NextOnTape(c: Codec, leg: Leg, i: nat)
    requires Whole(c, leg) && i <= |leg.cart.sessions|
    ensures var items, at := Items(leg.cart), |Body(leg.cart.heading, leg.cart.sessions[..i])|;
      && at <= |items|
      && if i < |leg.cart.sessions| then
           && NumberedAt(c, leg.cart.sessions, i)
           && ReadIndex(c, Concat(Segment(items, at))) == Index(IndexAt(c, leg.cart.sessions, i))
           && SegmentEnd(items, at) <= |items|
           && Forward(items, SegmentEnd(items, at), 1) == Some(|Body(leg.cart.heading, leg.cart.sessions[..i + 1])|)
         else
           ReadIndex(c, Concat(Segment(items, at))) == PointerRead(c, leg.cart)
  {
    hide Segment, SegmentEnd, Body, Concat, ReadIndex, Forward, Items;
    var cart := leg.cart;
    if i < |cart.sessions| {
      assert NumberedAt(c, cart.sessions, i);
      SessionAt(cart, i);
      var items, middle := Items(cart), SegmentEnd(Items(cart), |Body(cart.heading, cart.sessions[..i])|);
      BodyGrows(cart.heading, cart.sessions, i);
      SegmentClosed(items, middle, cart.sessions[i].tar);
      ForwardOverSegment(items, middle);
    } else {
      assert cart.sessions[..i] == cart.sessions;
      TailAt(cart);
    }
  }

  // ----- The rebuild --------------------------------------------------------------------------

  /** The numbers the catalogue has rows for. */
  method ExistingNums(cat: Catalog, uuid: string) returns (nums: set<int>)
    requires cat.Valid()
    ensures nums == Numbers(cat.sessions, uuid)
  {
    var ids := cat.ListSessions(uuid);
    nums := {};
    for i := 0 to |ids|
      invariant nums == set j | 0 <= j < i :: cat.sessions[ids[j]].num
    {
      nums := nums + {cat.sessions[ids[i]].num};
    }
    assert forall id :: id in cat.sessions && (uuid == "" || cat.sessions[id].tapeUUID == uuid) ==> id in ids;
    assert forall x :: x in Numbers(cat.sessions, uuid) ==> x in nums;
  }

  /** Enters a session unless it has a row already. */
  method RebuildSession(cat: Catalog, uuid: string, existing: set<int>, idx: SessionIndex)
    returns (ok: bool, id: Option<int>, ghost fault: bool)
    requires cat.Valid() && idx.part >= 1
    modifies cat`nextID, cat`sessions, cat`files
    ensures cat.Valid()
    ensures !ok ==> fault || uuid !in cat.tapes
    ensures ok ==> (id.None? <==> idx.sessionNum in existing)
    ensures ok && id.None? ==> cat.sessions == old(cat.sessions) && cat.files == old(cat.files)
    ensures ok && id.Some? ==>
      && id.value !in old(cat.sessions) && id.value !in old(cat.files)
      && cat.sessions == old(cat.sessions)[id.value := RowFor(uuid, idx)]
      && cat.files - {id.value} == old(cat.files)
      && RowIs(cat.sessions, cat.files, id.value, RowFor(uuid, idx), idx.files)
  {
    if idx.sessionNum in existing {
      return true, None, false;
    }
    id, fault := cat.CreateSession(RowFor(uuid, idx));
    if id.None? {
      return false, id, fault;
    }
    assert old(cat.files) - {id.value} == old(cat.files);
    ok, fault := cat.SaveFiles(id.value, idx.files);
  }

  lemma PartIsPositive(c: Codec, bytes: seq<byte>)
    requires ReadIndex(c, bytes).Index?
    ensures ReadIndex(c, bytes).idx.part >= 1
  {
    hide TrimZeros;
  }

  // After i sessions of a whole cartridge.
  ghost predicate SoFar(c: Codec, leg: Leg, i: nat, pos: nat, rows: SessionTable, files: FileTable,
                        rows0: SessionTable, files0: FileTable, added: seq<int>)
  {
    && Whole(c, leg) && i <= |leg.cart.sessions|
    && pos == |Body(leg.cart.heading, leg.cart.sessions[..i])|
    && Completed(c, rows, files, rows0, files0, leg.tapeLabel.uuid, leg.cart.sessions, i, added)
  }

  lemma SoFarStarts(c: Codec, leg: Leg, rows: SessionTable, files: FileTable)
    requires Whole(c, leg) && files.Keys <= rows.Keys
    ensures SoFar(c, leg, 0, |Body(leg.cart.heading, [])|, rows, files, rows, files, [])
    ensures forall nums :: MissingCount(c, leg.cart.sessions, nums, 0) == 0
  {
    hide Body, ReadIndex, DecodeLabel, HasLabel;
    assert leg.cart.sessions[..0] == [];
    EnteredNone(rows, files, []);
  }

  // One more session, entered or skipped.
  lemma SoFarGrows(c: Codec, leg: Leg, i: nat, pos: nat, rows: SessionTable, files: FileTable,
                   rows': SessionTable, files': FileTable,
                   rows0: SessionTable, files0: FileTable, added: seq<int>, id: Option<int>)
    requires SoFar(c, leg, i, pos, rows, files, rows0, files0, added) && i < |leg.cart.sessions|
    requires NumberedAt(c, leg.cart.sessions, i)
    requires id.None? <==> HasRow(Numbers(rows0, leg.tapeLabel.uuid), i)
    requires id.None? ==> rows' == rows && files' == files
    requires id.Some? ==>
      var idx := IndexAt(c, leg.cart.sessions, i);
      && id.value !in rows && id.value !in files && rows' == rows[id.value := RowFor(leg.tapeLabel.uuid, idx)]
      && files' - {id.value} == files && RowIs(rows', files', id.value, RowFor(leg.tapeLabel.uuid, idx), idx.files)
    ensures SoFar(c, leg, i + 1, |Body(leg.cart.heading, leg.cart.sessions[..i + 1])|, rows', files', rows0, files0,
                  added + if id.Some? then [id.value] else [])
  {
    hide Body, ReadIndex, HasLabel, Numbers, Entered, RowIs, NumberedAt, PointerRead;
    var recs, u := leg.cart.sessions, leg.tapeLabel.uuid;
    var nums := Numbers(rows0, u);
    var missing, missing' := Missing(nums, i), Missing(nums, i + 1);
    if id.Some? {
      assert missing' == missing + [i];
      MoreRows(c, u, recs, missing, i);
      var row, fs := RowFor(u, IndexAt(c, recs, i)), IndexAt(c, recs, i).files;
      EnteredMore(rows, files, rows0, files0, added, MissingRows(c, u, recs, missing), MissingFiles(c, recs, missing),
                  fs);
      EnteredOne(rows, files, rows', files', rows0, files0, added, MissingRows(c, u, recs, missing),
                 MissingFiles(c, recs, missing) + [fs], id.value, row);
    } else {
      assert missing' == missing && added + [] == added;
    }
  }

  lemma MoreRows(c: Codec, u: string, recs: seq<Recorded>, missing: seq<nat>, i: nat)
    requires Numbered(c, recs) && i < |recs| && NumberedAt(c, recs, i)
    requires forall k :: 0 <= k < |missing| ==> missing[k] < |recs|
    ensures MissingRows(c, u, recs, missing + [i]) ==
            MissingRows(c, u, recs, missing) + [RowFor(u, IndexAt(c, recs, i))]
    ensures MissingFiles(c, recs, missing + [i]) == MissingFiles(c, recs, missing) + [IndexAt(c, recs, i).files]
  {
    hide ReadIndex;
    var more := missing + [i];
    forall k | 0 <= k < |more|
      ensures MissingRows(c, u, recs, more)[k] ==
              (MissingRows(c, u, recs, missing) + [RowFor(u, IndexAt(c, recs, i))])[k]
      ensures MissingFiles(c, recs, more)[k] == (MissingFiles(c, recs, missing) + [IndexAt(c, recs, i).files])[k]
    {
      if k < |missing| {
        assert more[k] == missing[k];
      } else {
        assert more[k] == i;
      }
    }
  }

  lemma EnteredMore(s: SessionTable, f: FileTable, rows0: SessionTable, files0: FileTable,
                    ids: seq<int>, rows: seq<Session>, lists: seq<seq<FileMeta>>, fs: seq<FileMeta>)
    requires Entered(s, f, rows0, files0, ids, rows, lists)
    ensures Entered(s, f, rows0, files0, ids, rows, lists + [fs])
  {
    forall i | 0 <= i < |ids|
      ensures RowIs(s, f, ids[i], rows[i], (lists + [fs])[i])
    {
      assert RowIs(s, f, ids[i], rows[i], lists[i]);
    }
  }

  // What a finished rebuild reports and leaves behind.
  ghost predicate Reported(c: Codec, leg: Leg, r: RebuildResult, nums: set<int>) {
    r.Rebuilt? ==>
      var missing := Missing(nums, |leg.cart.sessions|);
      && r.sessions == |missing| && r.skipped == |leg.cart.sessions| - |missing|
      && r.files == MissingCount(c, leg.cart.sessions, nums, |leg.cart.sessions|)
      && var next := PointerRead(c, leg.cart);
         r.nextTapeName == (if next.Continues? then next.pointer.nextTapeName else "")
  }

  lemma RowsHaveFiles(cat: Catalog)
    requires cat.Valid()
    ensures cat.files.Keys <= cat.sessions.Keys
  {
  }

  lemma WholeStarts(c: Codec, leg: Leg)
    requires Whole(c, leg)
    ensures var items := Items(leg.cart);
      && |items| > 1 && items[0] == Blk(leg.cart.heading) && DecodeLabel(c, leg.cart.heading) == Label(leg.tapeLabel)
      && Forward(items, 1, 1) == Some(|Body(leg.cart.heading, [])|)
  {
    hide DecodeLabel, Forward, Items;
    LabelAt(leg.cart);
  }

  // What a rebuild finds next.
  lemma NextSoFar(c: Codec, leg: Leg, i: nat, pos: nat, rows: SessionTable, files: FileTable,
                  rows0: SessionTable, files0: FileTable, added: seq<int>)
    requires SoFar(c, leg, i, pos, rows, files, rows0, files0, added)
    ensures var items, recs := Items(leg.cart), leg.cart.sessions;
      && pos <= |items| && i <= |recs| && Numbered(c, recs) && pos == |Body(leg.cart.heading, recs[..i])|
      && if i < |recs| then
           && NumberedAt(c, recs, i)
           && ReadIndex(c, Concat(Segment(items, pos))) == Index(IndexAt(c, recs, i))
           && IndexAt(c, recs, i).sessionNum == i + 1
           && SegmentEnd(items, pos) <= |items|
           && Forward(items, SegmentEnd(items, pos), 1) == Some(|Body(leg.cart.heading, recs[..i + 1])|)
         else
           && recs[..i] == recs
           && ReadIndex(c, Concat(Segment(items, pos))) == PointerRead(c, leg.cart)
           && (PointerRead(c, leg.cart).NoIndex? || PointerRead(c, leg.cart).Continues?)
  {
    hide Segment, SegmentEnd, Body, Concat, ReadIndex, Forward, Items, Completed, PointerRead;
    NextOnTape(c, leg, i);
  }

  datatype Step = Added(id: int, count: nat) | Skipped | AtEnd | AtPointer(name: string) | Broken

  /** Reads the next index and passes its session; on a whole cartridge the step is what
      the tape has there. */
  method RebuildNext(tape: FakeTape, cat: Catalog, c: Codec, uuid: string, existing: set<int>, ghost good: bool,
                     ghost leg: Leg, ghost i: nat,
                     ghost rows0: SessionTable, ghost files0: FileTable, ghost added: seq<int>)
    returns (step: Step, ghost fault: bool)
    requires tape.Valid() && cat.Valid()
    requires good ==> tape.items == Items(leg.cart) && uuid == leg.tapeLabel.uuid && existing == Numbers(rows0, uuid)
    requires good ==> SoFar(c, leg, i, tape.pos, cat.sessions, cat.files, rows0, files0, added)
    modifies tape`pos, cat`nextID, cat`sessions, cat`files
    ensures tape.Valid() && cat.Valid()
    ensures step.Added? || step.Skipped? ==> old(tape.pos) < tape.pos
    ensures good && step.Broken? ==> fault || uuid !in cat.tapes
    ensures good && (step.Added? || step.Skipped?) ==>
      && i < |leg.cart.sessions| && (step.Skipped? <==> i + 1 in existing)
      && SoFar(c, leg, i + 1, tape.pos, cat.sessions, cat.files, rows0, files0,
               added + if step.Added? then [step.id] else [])
    ensures good && (step.Added? || step.Skipped?) ==>
      MissingCount(c, leg.cart.sessions, existing, i + 1) ==
      MissingCount(c, leg.cart.sessions, existing, i) + if step.Added? then step.count else 0
    ensures good && (step.AtEnd? || step.AtPointer?) ==>
      && i == |leg.cart.sessions| && cat.sessions == old(cat.sessions) && cat.files == old(cat.files)
      && SoFar(c, leg, i, old(tape.pos), cat.sessions, cat.files, rows0, files0, added)
      && PointerRead(c, leg.cart).Continues? == step.AtPointer?
      && (step.AtPointer? ==> PointerRead(c, leg.cart).pointer.nextTapeName == step.name)
  {
    hide Segment, SegmentEnd, Items, Body, Concat, ReadIndex, SoFar, Forward, PointerRead, Numbers, Catalog.Valid,
         RowIs, NumberedAt, MissingCount;
    EmptySegmentHasNoIndex(c, tape.items, tape.pos);
    if good {
      NextSoFar(c, leg, i, tape.pos, cat.sessions, cat.files, rows0, files0, added);
    }
    ghost var start := tape.pos;
    fault := false;
    var bytes := ReadSegmentBytes(tape);
    match ReadIndex(c, bytes) {
      case NoIndex => return AtEnd, fault;
      case Continues(pointer) => return AtPointer(pointer.nextTapeName), fault;
      case NewerIndex => return Broken, fault;
      case Damaged => return Broken, fault;
      case Index(idx) =>
        PartIsPositive(c, bytes);
        ghost var rows, held := cat.sessions, cat.files;
        var ok, id;
        ok, id, fault := RebuildSession(cat, uuid, existing, idx);
        if !ok {
          return Broken, fault;
        }
        ok := tape.ForwardFilemarks(1);
        if !ok {
          return Broken, fault;
        }
        if good {
          SoFarGrows(c, leg, i, start, rows, held, cat.sessions, cat.files, rows0, files0, added, id);
          MissingCountGrows(c, uuid, leg.cart.sessions, existing, i);
        }
        step := if id.Some? then Added(id.value, |idx.files|) else Skipped;
    }
  }

  // Label, registration, rows there are; then the tape stands at its first session.
  method Begin(tape: FakeTape, cat: Catalog, c: Codec, ghost good: bool, ghost leg: Leg)
    returns (r: RebuildResult, present: TapeLabel, existing: set<int>, ghost fault: bool)
    requires tape.Valid() && cat.Valid()
    requires good ==> tape.items == Items(leg.cart) && Whole(c, leg)
    modifies tape`pos, cat`tapes
    ensures tape.Valid() && cat.Valid() && cat.files.Keys <= cat.sessions.Keys
    ensures good ==> !r.NoLabel? && (r.Rebuilt? <==> !fault)
    ensures r.Rebuilt? ==>
      cat.tapes == old(cat.tapes)[present.uuid := present.name] && existing == Numbers(cat.sessions, present.uuid)
    ensures r.Rebuilt? && good ==> present == leg.tapeLabel && tape.pos == |Body(leg.cart.heading, [])|
  {
    hide Items, Body, DecodeLabel, Whole, Forward, Numbers, Catalog.Valid;
    if good {
      WholeStarts(c, leg);
    }
    RowsHaveFiles(cat);
    r, present, existing, fault := NoLabel, TapeLabel("", 0, "", "", ""), {}, false;
    tape.Rewind();
    var block := tape.ReadBlock();
    if block.EndOfFile? {
      return;
    }
    var l := DecodeLabel(c, block.block);
    if !l.Label? {
      return;
    }
    r, present := RebuildFailed, l.tapeLabel;
    var ok;
    ok, fault := cat.RegisterTape(present.uuid, present.name);
    if !ok {
      return;
    }
    existing := ExistingNums(cat, present.uuid);
    ok := tape.ForwardFilemarks(1);
    if ok {
      r := Rebuilt(0, 0, 0, "");
    }
  }

  /** Rebuilds the rows of the cartridge in the drive: from a whole cartridge exactly the
      missing sessions are entered, those that have a row are left alone, and the rebuild
      ends at the closing marks or at the pointer; only the catalogue can make it fail. */
  method Rebuild(tape: FakeTape, cat: Catalog, c: Codec, ghost leg: Leg)
    returns (r: RebuildResult, ghost added: seq<int>, ghost fault: bool)
    requires tape.Valid() && cat.Valid()
    modifies tape`pos, cat
    ensures tape.Valid() && cat.Valid()
    ensures tape.items == Items(leg.cart) && Whole(c, leg) ==>
      && !r.NoLabel? && (r.RebuildFailed? ==> fault)
      && Reported(c, leg, r, Numbers(old(cat.sessions), leg.tapeLabel.uuid))
      && (r.Rebuilt? ==>
          && Completed(c, cat.sessions, cat.files, old(cat.sessions), old(cat.files), leg.tapeLabel.uuid,
                       leg.cart.sessions, |leg.cart.sessions|, added)
          && cat.tapes == old(cat.tapes)[leg.tapeLabel.uuid := leg.tapeLabel.name])
  {
    hide Segment, SegmentEnd, Items, Body, Concat, ReadIndex, DecodeLabel, Whole, SoFar, Forward, PointerRead,
         Numbers, Catalog.Valid, RowIs, NumberedAt, Completed, MissingCount;
    ghost var good := tape.items == Items(leg.cart) && Whole(c, leg);
    added := [];
    var present, existing;
    r, present, existing, fault := Begin(tape, cat, c, good, leg);
    if !r.Rebuilt? {
      return;
    }
    r := RebuildFailed;
    var uuid := present.uuid;
    if good {
      SoFarStarts(c, leg, cat.sessions, cat.files);
    }
    var entered, held, skipped := 0, 0, 0;
    ghost var i := 0;
    while true
      invariant tape.Valid() && cat.Valid() && tape.items == old(tape.items) && r == RebuildFailed
      invariant cat.tapes == old(cat.tapes)[uuid := present.name] && uuid in cat.tapes
      invariant good ==> SoFar(c, leg, i, tape.pos, cat.sessions, cat.files, old(cat.sessions), old(cat.files), added)
      invariant good ==> entered == |Missing(existing, i)| && entered + skipped == i
      invariant good ==> held == MissingCount(c, leg.cart.sessions, existing, i)
      invariant held >= 0 && entered >= 0 && skipped >= 0 && i >= 0
      decreases |tape.items| - tape.pos
    {
      ghost var pos := tape.pos;
      var step;
      step, fault := RebuildNext(tape, cat, c, uuid, existing, good, leg, i, old(cat.sessions), old(cat.files), added);
      match step {
        case Broken => return;
        case AtEnd =>
          r := Rebuilt(entered, held, skipped, "");
        case AtPointer(name) =>
          r := Rebuilt(entered, held, skipped, name);
        case Added(id, count) =>
          entered, held, added := entered + 1, held + count, added + [id];
        case Skipped =>
          skipped, added := skipped + 1, added + [];
      }
      if r.Rebuilt? {
        if good {
          SoFarIsComplete(c, leg, i, pos, cat.sessions, cat.files, old(cat.sessions), old(cat.files), added);
        }
        return;
      }
      i := i + 1;
    }
  }

  lemma SoFarIsComplete(c: Codec, leg: Leg, i: nat, pos: nat, rows: SessionTable, files: FileTable,
                        rows0: SessionTable, files0: FileTable, added: seq<int>)
    requires SoFar(c, leg, i, pos, rows, files, rows0, files0, added) && i == |leg.cart.sessions|
    ensures Numbered(c, leg.cart.sessions)
    ensures Completed(c, rows, files, rows0, files0, leg.tapeLabel.uuid, leg.cart.sessions, |leg.cart.sessions|, added)
  {
  }

  // ----- What a rebuild is worth ----------------------------------------------------------------

  lemma EveryNumberIsThere(c: Codec, rows: SessionTable, files: FileTable,
                           rows0: SessionTable, files0: FileTable,
                           uuid: string, recs: seq<Recorded>, added: seq<int>, i: nat)
    requires Numbered(c, recs) && i < |recs|
    requires Completed(c, rows, files, rows0, files0, uuid, recs, |recs|, added)
    ensures HasRow(Numbers(rows, uuid), i)
  {
    hide ReadIndex, NumberedAt, Entered, MissingRows, MissingFiles;
    var nums := Numbers(rows0, uuid);
    var missing := Missing(nums, |recs|);
    var news, lists := MissingRows(c, uuid, recs, missing), MissingFiles(c, recs, missing);
    if HasRow(nums, i) {
      var id :| id in rows0 && (uuid == "" || rows0[id].tapeUUID == uuid) && rows0[id].num == i + 1;
      OldRowIsKept(rows, files, rows0, files0, added, news, lists, id);
      assert rows[id].num == i + 1;
    } else {
      var k :| 0 <= k < |missing| && missing[k] == i;
      EnteredAt(rows, files, rows0, files0, added, news, lists, k);
      NumberOf(c, uuid, recs, i);
      assert news[k] == RowFor(uuid, IndexAt(c, recs, missing[k]));
      NumberIsListed(rows, uuid, added[k]);
    }
  }

  lemma EnteredAt(rows: SessionTable, files: FileTable, rows0: SessionTable, files0: FileTable,
                  ids: seq<int>, news: seq<Session>, lists: seq<seq<FileMeta>>, k: nat)
    requires Entered(rows, files, rows0, files0, ids, news, lists) && k < |news|
    ensures k < |ids| && ids[k] in rows && rows[ids[k]] == news[k]
  {
    assert RowIs(rows, files, ids[k], news[k], lists[k]);
  }

  lemma NumberIsListed(rows: SessionTable, uuid: string, id: int)
    requires id in rows && rows[id].tapeUUID == uuid
    ensures rows[id].num in Numbers(rows, uuid)
  {
  }

  lemma NumberOf(c: Codec, uuid: string, recs: seq<Recorded>, i: nat)
    requires i < |recs| && NumberedAt(c, recs, i)
    ensures RowFor(uuid, IndexAt(c, recs, i)).num == i + 1 && RowFor(uuid, IndexAt(c, recs, i)).tapeUUID == uuid
  {
  }

  /** A second rebuild finds nothing missing. */
  lemma RebuildIsIdempotent(c: Codec, rows: SessionTable, files: FileTable,
                            rows0: SessionTable, files0: FileTable,
                            uuid: string, recs: seq<Recorded>, added: seq<int>)
    requires Numbered(c, recs) && Completed(c, rows, files, rows0, files0, uuid, recs, |recs|, added)
    ensures Missing(Numbers(rows, uuid), |recs|) == []
  {
    hide Completed, Numbers, ReadIndex, NumberedAt;
    forall i | 0 <= i < |recs|
      ensures HasRow(Numbers(rows, uuid), i)
    {
      EveryNumberIsThere(c, rows, files, rows0, files0, uuid, recs, added, i);
    }
    AllThere(Numbers(rows, uuid), |recs|);
  }

  lemma {:induction false} MissingAfter(nums: set<int>, k: nat, n: nat)
    requires k <= n && forall i :: HasRow(nums, i) <==> 0 <= i < k
    ensures |Missing(nums, n)| == n - k && forall j :: 0 <= j < n - k ==> Missing(nums, n)[j] == k + j
  {
    if k < n {
      assert !HasRow(nums, n - 1);
      MissingAfter(nums, k, n - 1);
    } else if n > 0 {
      assert HasRow(nums, n - 1);
      AllThere(nums, n);
    }
  }

  lemma SomeMissing(nums: set<int>, n: nat)
    ensures Missing(nums, n) != [] ==> exists i :: 0 <= i < n && !HasRow(nums, i)
  {
    if Missing(nums, n) != [] {
      assert !HasRow(nums, Missing(nums, n)[0]);
    }
  }

  lemma AllThere(nums: set<int>, n: nat)
    requires forall i :: 0 <= i < n ==> HasRow(nums, i)
    ensures Missing(nums, n) == []
  {
    SomeMissing(nums, n);
  }

  lemma NumbersInStep(c: Codec, rows: SessionTable, files: FileTable, uuid: string, recs: seq<Recorded>,
                      ids: seq<int>)
    requires InStep(c, rows, files, uuid, recs, ids) && uuid != ""
    ensures forall i :: HasRow(Numbers(rows, uuid), i) <==> 0 <= i < |ids|
  {
    hide ReadIndex;
    forall i
      ensures HasRow(Numbers(rows, uuid), i) <==> 0 <= i < |ids|
    {
      if 0 <= i < |ids| {
        assert RowMirrors(c, rows, files, ids[i], uuid, recs[i], i + 1);
        assert rows[ids[i]].num == i + 1;
      }
      if HasRow(Numbers(rows, uuid), i) {
        var id :| id in rows && rows[id].tapeUUID == uuid && rows[id].num == i + 1;
        var j :| 0 <= j < |ids| && ids[j] == id;
        assert RowMirrors(c, rows, files, ids[j], uuid, recs[j], j + 1);
      }
    }
  }

  /** A catalogue in step with the first sessions of a cartridge is, after a rebuild, in step
      with all of them. */
  lemma RebuildCompletesStep(c: Codec, rows: SessionTable, files: FileTable,
                             rows0: SessionTable, files0: FileTable,
                             uuid: string, recs: seq<Recorded>, added: seq<int>, ids: seq<int>)
    requires Numbered(c, recs) && Completed(c, rows, files, rows0, files0, uuid, recs, |recs|, added)
    requires InStep(c, rows0, files0, uuid, recs, ids) && uuid != ""
    ensures InStep(c, rows, files, uuid, recs, ids + added) && |ids + added| == |recs|
  {
    hide ReadIndex, Numbers, Entered, RowMirrors, NumberedAt, Missing, HasRow, MissingRows, MissingFiles, RowFor;
    var missing := Missing(Numbers(rows0, uuid), |recs|);
    var news, lists := MissingRows(c, uuid, recs, missing), MissingFiles(c, recs, missing);
    NumbersInStep(c, rows0, files0, uuid, recs, ids);
    MissingAfter(Numbers(rows0, uuid), |ids|, |recs|);
    EnteredSizes(rows, files, rows0, files0, added, news, lists);
    var all := ids + added;
    forall i | 0 <= i < |all|
      ensures RowMirrors(c, rows, files, all[i], uuid, recs[i], i + 1)
    {
      if i < |ids| {
        OldMirrorIsKept(c, rows, files, rows0, files0, added, news, lists, ids[i], uuid, recs[i], i + 1);
      } else {
        NewMirrors(c, rows, files, rows0, files0, added, news, lists, uuid, recs, i - |ids|, i);
      }
    }
    forall id | id in rows && rows[id].tapeUUID == uuid
      ensures id in all
    {
      RowIsOldOrNew(rows, files, rows0, files0, added, news, lists, id);
    }
  }

  lemma EnteredSizes(rows: SessionTable, files: FileTable, rows0: SessionTable, files0: FileTable,
                     ids: seq<int>, news: seq<Session>, lists: seq<seq<FileMeta>>)
    requires Entered(rows, files, rows0, files0, ids, news, lists)
    ensures |ids| == |news|
  {
  }

  lemma OldMirrorIsKept(c: Codec, rows: SessionTable, files: FileTable,
                        rows0: SessionTable, files0: FileTable,
                        ids: seq<int>, news: seq<Session>, lists: seq<seq<FileMeta>>, id: int, uuid: string,
                        rec: Recorded, num: int)
    requires Entered(rows, files, rows0, files0, ids, news, lists)
    requires RowMirrors(c, rows0, files0, id, uuid, rec, num)
    ensures RowMirrors(c, rows, files, id, uuid, rec, num)
  {
    hide ReadIndex, Entered;
    OldRowIsKept(rows, files, rows0, files0, ids, news, lists, id);
  }

  lemma NewMirrors(c: Codec, rows: SessionTable, files: FileTable,
                   rows0: SessionTable, files0: FileTable,
                   ids: seq<int>, news: seq<Session>, lists: seq<seq<FileMeta>>, uuid: string, recs: seq<Recorded>,
                   k: nat, i: nat)
    requires Entered(rows, files, rows0, files0, ids, news, lists) && k < |ids| && i < |recs|
    requires NumberedAt(c, recs, i) && news[k] == RowFor(uuid, IndexAt(c, recs, i))
    requires lists[k] == IndexAt(c, recs, i).files
    ensures RowMirrors(c, rows, files, ids[k], uuid, recs[i], i + 1)
  {
    hide ReadIndex;
    assert RowIs(rows, files, ids[k], news[k], lists[k]);
  }

  lemma NothingInStep(c: Codec, rows: SessionTable, files: FileTable, uuid: string, recs: seq<Recorded>)
    requires forall id :: id in rows ==> rows[id].tapeUUID != uuid
    ensures InStep(c, rows, files, uuid, recs, [])
  {
    hide RowMirrors;
  }

  // Two rows that mirror one session are equal, and so are their files.
  lemma SameMirror(c: Codec, rows: SessionTable, files: FileTable, id: int,
                   rows': SessionTable, files': FileTable, id': int, uuid: string, rec: Recorded, num: int)
    requires RowMirrors(c, rows, files, id, uuid, rec, num) && RowMirrors(c, rows', files', id', uuid, rec, num)
    ensures id in rows && id' in rows' && rows[id] == rows'[id']
    ensures (if id in files then files[id] else []) == (if id' in files' then files'[id'] else [])
  {
    hide ReadIndex;
  }

  /** A rebuild from a catalogue that does not know the cartridge gives back the rows the
      backups had made, number by number, with their files; it gives back these alone
      exactly when no run that was rolled back left sessions behind. */
  lemma RebuildReproduces(c: Codec, native: SessionTable, nativeFiles: FileTable, ids: seq<int>,
                          rows: SessionTable, files: FileTable,
                          rows0: SessionTable, files0: FileTable,
                          uuid: string, recs: seq<Recorded>, added: seq<int>)
    requires InStep(c, native, nativeFiles, uuid, recs, ids) && uuid != ""
    requires Numbered(c, recs) && Completed(c, rows, files, rows0, files0, uuid, recs, |recs|, added)
    requires forall id :: id in rows0 ==> rows0[id].tapeUUID != uuid
    ensures |added| == |recs| && (|added| == |ids| <==> |recs| == |ids|)
    ensures forall i :: 0 <= i < |ids| ==>
      && ids[i] in native && added[i] in rows && native[ids[i]] == rows[added[i]]
      && (if ids[i] in nativeFiles then nativeFiles[ids[i]] else []) ==
         (if added[i] in files then files[added[i]] else [])
  {
    hide ReadIndex, Completed, RowMirrors;
    NothingInStep(c, rows0, files0, uuid, recs);
    RebuildCompletesStep(c, rows, files, rows0, files0, uuid, recs, added, []);
    assert [] + added == added;
    forall i | 0 <= i < |ids|
      ensures ids[i] in native && added[i] in rows && native[ids[i]] == rows[added[i]]
      ensures (if ids[i] in nativeFiles then nativeFiles[ids[i]] else []) ==
              (if added[i] in files then files[added[i]] else [])
    {
      SameMirror(c, native, nativeFiles, ids[i], rows, files, added[i], uuid, recs[i], i + 1);
    }
  }

  lemma NewRowsAreItsOwn(c: Codec, uuid: string, recs: seq<Recorded>, missing: seq<nat>)
    requires Numbered(c, recs) && forall k :: 0 <= k < |missing| ==> missing[k] < |recs|
    ensures forall k :: 0 <= k < |missing| ==> MissingRows(c, uuid, recs, missing)[k].tapeUUID == uuid
  {
    hide ReadIndex;
  }

  /** A rebuild of one cartridge leaves the whole system in step. */
  lemma RebuildKeepsSystem(c: Codec, rows: SessionTable, files: FileTable, rows0: SessionTable, files0: FileTable,
                           t: TapeTable, w: World, uuid: string, name: string, added: seq<int>)
    requires SystemOK(c, rows0, files0, t, w) && uuid in w
    requires Completed(c, rows, files, rows0, files0, uuid, w[uuid].sessions, |w[uuid].sessions|, added)
    ensures SystemOK(c, rows, files, t[uuid := name], w)
  {
    hide ReadIndex, Labelled, Numbered, InStep, Entered, Missing, MissingRows, MissingFiles, Numbers;
    var recs := w[uuid].sessions;
    var missing := Missing(Numbers(rows0, uuid), |recs|);
    var news, lists := MissingRows(c, uuid, recs, missing), MissingFiles(c, recs, missing);
    NewRowsAreItsOwn(c, uuid, recs, missing);
    EnteredSizes(rows, files, rows0, files0, added, news, lists);
    forall id | id in rows
      ensures rows[id].tapeUUID in t[uuid := name]
    {
      RowIsOldOrNew(rows, files, rows0, files0, added, news, lists, id);
    }
    forall u | u in w
      ensures Mirrored(c, rows, files, u, w[u].sessions)
    {
      assert Mirrored(c, rows0, files0, u, w[u].sessions);
      var ids :| InStep(c, rows0, files0, u, w[u].sessions, ids);
      if u == uuid {
        RebuildCompletesStep(c, rows, files, rows0, files0, uuid, recs, added, ids);
      } else {
        StepUntouched(c, rows, files, rows0, files0, added, news, lists, u, w[u].sessions, ids);
      }
    }
  }
}
