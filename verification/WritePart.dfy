/** Writing one part of a session onto a cartridge, and bringing the cartridge back when
    that fails (internal/usecase/backup/usecase.go:370-550,
    internal/adapter/tapeformat/encoder.go:68-192). */
module WriteParts {
  import opened Domain
  import opened TapeMachine
  import opened FakeTapes
  import opened BlockIO
  import opened Canonical
  import opened TapeFormat
  import opened Layout
  import opened Catalogs
  import opened Snapshots

  // ----- Positions on any tape ----------------------------------------------------------

  /** Where session number lastNum+1 is written: behind mark 2*lastNum+1. */
  function WritePosition(items: seq<Item>, lastNum: nat): Option<nat> {
    Forward(items, 0, 2 * lastNum + 1)
  }

  // What lies before a position is all that decides whether marks lead to it.
  lemma PositionDependsOnFront(items: seq<Item>, items': seq<Item>, n: int, p: nat)
    requires Forward(items, 0, n) == Some(p)
    requires p <= |items'| && items'[..p] == items[..p]
    ensures Forward(items', 0, n) == Some(p)
  {
    hide Marks, Forward;
    ForwardExactly(items, 0, n, p);
    ForwardExactly(items', 0, n, p);
    assert items[0..p] == items[..p] == items'[0..p];
    assert items[p - 1] == items[..p][p - 1] == items'[..p][p - 1];
  }

  lemma {:induction false} BackwardSucceeds(items: seq<Item>, from: nat, n: int)
    requires from <= |items| && 0 < n <= Marks(items[..from])
    ensures Backward(items, from, n).Some?
    decreases from
  {
    hide Marks;
    MarksNone();
    assert items[..0] == [];
    if from > 0 {
      MarksLast(items, 0, from);
      assert items[0..from] == items[..from] && items[0..from - 1] == items[..from - 1];
      var n' := if items[from - 1].Mark? then n - 1 else n;
      if n' > 0 {
        BackwardSucceeds(items, from - 1, n');
      }
    }
  }

  /** Reading the previous index and stepping over its tar leads back to where the detour
      began, whatever the tape holds between the marks. */
  lemma DetourReturns(items: seq<Item>, lastNum: nat, p: nat)
    requires lastNum > 0 && WritePosition(items, lastNum) == Some(p)
    ensures var q := Backward(items, p, 3);
      && q.Some?
      && Forward(items, SegmentEnd(items, q.value), 1) == Some(p)
  {
    hide Marks, Forward, Backward;
    ForwardExactly(items, 0, 2 * lastNum + 1, p);
    assert items[0..p] == items[..p];
    BackwardSucceeds(items, p, 3);
    var q := Backward(items, p, 3).value;
    BackwardExactly(items, p, 3, q);
    var r := SegmentEnd(items, q);
    var e := q + |Segment(items, q)|;
    SegmentMarks(items, q, e, p);
    MarksSplit(items, q, r, p);
    assert items[q..r] == items[q..e] + [Mark];
    MarksConcat(items[q..e], [Mark]);
    MarksOne(Mark);
    ForwardExactly(items, r, 1, p);
  }

  // A segment holds no mark, so it ends before any stretch that does.
  lemma SegmentMarks(items: seq<Item>, q: nat, e: nat, p: nat)
    requires q <= p <= |items| && e == q + |Segment(items, q)|
    requires Marks(items[q..p]) > 0
    ensures e < p && items[e] == Mark && Marks(items[q..e]) == 0
    ensures SegmentEnd(items, q) == e + 1
  {
    hide Marks;
    MarksOfBlocks(Segment(items, q));
    if e >= p {
      MarksSplit(items, q, p, e);
      assert false;
    }
  }

  // A segment that does not end where its blocks end is closed by a mark.
  lemma SegmentClosed(items: seq<Item>, q: nat, blocks: seq<Block>)
    requires q <= |items| && Segment(items, q) == blocks && SegmentEnd(items, q) > q + |blocks|
    ensures q + |blocks| < |items| && items[q + |blocks|].Mark?
  {
    hide Segment;
  }

  /** One mark forward from the beginning of a segment leads to its end. */
  lemma ForwardOverSegment(items: seq<Item>, q: nat)
    requires q <= |items| && q + |Segment(items, q)| < |items|
    ensures Forward(items, q, 1) == Some(SegmentEnd(items, q))
  {
    hide Marks, Forward;
    var e := q + |Segment(items, q)|;
    MarksOfBlocks(Segment(items, q));
    assert items[q..e + 1] == items[q..e] + [Mark];
    MarksConcat(items[q..e], [Mark]);
    MarksOne(Mark);
    ForwardExactly(items, q, 1, e + 1);
  }

  // ----- Reading the index segment --------------------------------------------------------

  /** Reads the blocks up to the next mark. */
  method ReadSegmentBytes(tape: FakeTape) returns (bytes: seq<byte>)
    requires tape.Valid()
    modifies tape`pos
    ensures tape.Valid()
    ensures bytes == Concat(Segment(tape.items, old(tape.pos)))
    ensures tape.pos == SegmentEnd(tape.items, old(tape.pos))
  {
    hide Concat, Segment, SegmentEnd;
    bytes := [];
    var done := false;
    while !done
      invariant tape.Valid()
      invariant !done ==> bytes + Concat(Segment(tape.items, tape.pos)) == Concat(Segment(tape.items, old(tape.pos)))
      invariant !done ==> SegmentEnd(tape.items, tape.pos) == SegmentEnd(tape.items, old(tape.pos))
      invariant done ==> bytes == Concat(Segment(tape.items, old(tape.pos)))
      invariant done ==> tape.pos == SegmentEnd(tape.items, old(tape.pos))
      decreases !done, |tape.items| - tape.pos
    {
      SegmentStep(tape.items, tape.pos);
      ghost var before := bytes;
      var r := tape.ReadBlock();
      match r {
        case EndOfFile => done := true;
        case Data(block) =>
          bytes := bytes + block;
          assert bytes + Concat(Segment(tape.items, tape.pos)) ==
                 before + (block + Concat(Segment(tape.items, tape.pos)));
      }
    }
  }

  // ----- Configuration snapshot -------------------------------------------------------------

  // What a run of a job is made from; content is what the files hold at writing time.
  datatype Setup = Setup(
    codec: Codec,
    content: Content,
    job: Job,
    toolVersion: string,
    configSource: string,
    configMTime: int)
  {
    function JobHash(): string { codec.sha(CanonicalJobConfig(job)) }
  }

  method SeekWritePosition(tape: FakeTape, lastNum: nat) returns (ok: bool)
    requires tape.Valid()
    modifies tape`pos
    ensures tape.Valid()
    ensures ok <==> WritePosition(tape.items, lastNum).Some?
    ensures ok ==> tape.pos == WritePosition(tape.items, lastNum).value
  {
    tape.Rewind();
    ok := tape.ForwardFilemarks(2 * lastNum + 1);
  }

  /** The configuration hash in the index segment before the one that ends at pos. */
  ghost function PreviousHash(items: seq<Item>, pos: nat, c: Codec): Option<string>
    requires pos <= |items|
  {
    var q := Backward(items, pos, 3);
    if q.None? then None
    else match ReadIndex(c, Concat(Segment(items, q.value)))
      case Index(idx) => Some(idx.jobConfigHash)
      case _ => None
  }

  /** Whether the previous session of the cartridge carries the same configuration hash.
      The detour may be cut short by a read failure; the write position is kept in every
      case. */
  method PrevJobConfigHash(tape: FakeTape, c: Codec, lastNum: nat) returns (hash: Option<string>, ghost fault: bool)
    requires tape.Valid() && lastNum > 0
    requires WritePosition(tape.items, lastNum) == Some(tape.pos)
    modifies tape`pos
    ensures tape.Valid() && tape.pos == old(tape.pos)
    ensures hash == if fault then None else PreviousHash(tape.items, tape.pos, c)
  {
    hide Concat, Segment, SegmentEnd, Forward, Backward, Marks;
    DetourReturns(tape.items, lastNum, tape.pos);
    hash := None;
    var ok := tape.BackwardFilemarks(3);
    var bytes := ReadSegmentBytes(tape);
    var r := ReadIndex(c, bytes);
    var fails: bool := *;
    fault := fails;
    if r.Index? && !fails {
      ok := tape.ForwardFilemarks(1);
      return Some(r.idx.jobConfigHash), fault;
    }
    ok := SeekWritePosition(tape, lastNum);
  }

  /** Whether the job body may be left out of the index: exactly if the previous session of
      the cartridge can be read and carries the same hash. */
  method Deduplicates(tape: FakeTape, setup: Setup, lastNum: nat) returns (dedup: bool, ghost fault: bool)
    requires tape.Valid() && WritePosition(tape.items, lastNum) == Some(tape.pos)
    modifies tape`pos
    ensures tape.Valid() && tape.pos == old(tape.pos)
    ensures dedup <==>
      lastNum > 0 && !fault && PreviousHash(tape.items, tape.pos, setup.codec) == Some(setup.JobHash())
  {
    dedup, fault := false, false;
    if lastNum > 0 {
      var prev;
      prev, fault := PrevJobConfigHash(tape, setup.codec, lastNum);
      dedup := prev == Some(setup.JobHash());
    }
  }

  // ----- Room on a tape -------------------------------------------------------------------------

  /** What so many bytes take as a segment: full blocks and the mark behind them. */
  function SegmentSize(bytes: nat): (r: nat)
    ensures r > 0
  {
    (bytes + BLOCK_SIZE - 1) / BLOCK_SIZE * BLOCK_SIZE + 1
  }

  /** What the two segments of a session take. */
  ghost function SessionSize(setup: Setup, idx: SessionIndex): nat {
    SegmentSize(|setup.codec.marshal(IndexDoc(Seal(setup.codec.sha, idx)))|)
    + SegmentSize(|setup.codec.tar(EntriesOf(idx.files, setup.content))|)
  }

  /** What a part takes: its session, its pointer if the chain goes on, the closing pair. */
  ghost function PartSize(setup: Setup, idx: SessionIndex, cont: Option<Continuation>): nat {
    SessionSize(setup, idx) + (if cont.Some? then BLOCK_SIZE else 0) + 2
  }

  /** Whether so much fits behind the position. */
  ghost predicate HasRoom(t: Tape, size: nat)
    requires t.Valid()
  {
    t.capacity > 0 ==> Usage(t.items[..t.pos]) + size <= t.capacity
  }

  lemma {:induction false} UsageOfBlocks(bs: seq<Block>)
    ensures Usage(Blocks(bs)) == |bs| * BLOCK_SIZE
  {
    if bs != [] {
      assert Blocks(bs)[..|bs| - 1] == Blocks(bs[..|bs| - 1]);
      UsageOfBlocks(bs[..|bs| - 1]);
    }
  }

  lemma {:induction false} UsageOfMarks(n: nat)
    ensures Usage(MarkRun(n)) == n
  {
    if n > 0 {
      assert MarkRun(n)[..n - 1] == MarkRun(n - 1);
      UsageOfMarks(n - 1);
    }
  }

  // What was written has its place behind the position it was written from.
  lemma RoomAfter(start: Tape, now: Tape, added: seq<Item>, size: nat)
    requires start.Valid() && now.Valid() && Wrote(start, now, added)
    ensures HasRoom(now, size) <==> HasRoom(start, Usage(added) + size)
  {
    hide Usage;
    UsageConcat(start.items[..start.pos], added);
  }

  lemma RoomTaken(start: Tape, now: Tape, added: seq<Item>)
    requires start.Valid() && now.Valid() && Wrote(start, now, added) && added != []
    ensures HasRoom(start, Usage(added))
  {
    hide Usage;
    UsageConcat(start.items[..start.pos], added);
    assert now.items[..now.pos] == now.items;
  }

  lemma SegmentUsage(bs: seq<Block>)
    ensures Usage(Blocks(bs) + [Mark]) == |bs| * BLOCK_SIZE + 1
  {
    UsageOfBlocks(bs);
    UsageConcat(Blocks(bs), [Mark]);
    UsageOne(Mark);
  }

  /** The index blocks and their mark take what their bytes say. */
  lemma IndexUsage(c: Codec, idx: SessionIndex)
    ensures |EncodeIndex(c, idx)| * BLOCK_SIZE + 1 == SegmentSize(|c.marshal(IndexDoc(Seal(c.sha, idx)))|)
  {
    hide Cut, SegmentSize, Seal;
    var bytes := c.marshal(IndexDoc(Seal(c.sha, idx)));
    PaddedSize(bytes);
  }

  lemma PaddedSize(bytes: seq<byte>)
    ensures |PadToBlocks(bytes)| + 1 == SegmentSize(|bytes|)
  {
    var n, m := |bytes| / BLOCK_SIZE, |bytes| % BLOCK_SIZE;
    assert |bytes| == n * BLOCK_SIZE + m;
    assert (|bytes| + BLOCK_SIZE - 1) / BLOCK_SIZE == if m == 0 then n else n + 1;
  }

  /** A recorded session takes what its index and its entries say. */
  lemma SessionUsage(setup: Setup, idx: SessionIndex, rec: Recorded)
    requires Records(setup, idx, rec)
    ensures Usage(SessionItems(rec)) == SessionSize(setup, idx)
  {
    hide Usage, EncodeIndex, EntriesOf, Unchanged, Concat;
    IndexUsage(setup.codec, idx);
    SegmentUsage(rec.index);
    SegmentUsage(rec.tar);
    var a, b := Blocks(rec.index) + [Mark], Blocks(rec.tar) + [Mark];
    UsageConcat(a, b);
    assert SessionItems(rec) == a + b;
  }

  // ----- Writing a session --------------------------------------------------------------------

  datatype Outcome = Written | TapeFull | Failed

  /** Writes blocks and a mark behind them; stops at the first refusal. */
  method WriteSegment(tape: FakeTape, blocks: seq<Block>) returns (ok: bool, ghost added: seq<Item>)
    requires tape.Valid()
    modifies tape
    ensures tape.Valid() && Wrote(old(tape.View()), tape.View(), added)
    ensures ok ==> added == Blocks(blocks) + [Mark]
    ensures !ok ==> !HasRoom(old(tape.View()), |blocks| * BLOCK_SIZE + 1)
  {
    hide Usage;
    ghost var start := tape.View();
    assert Blocks(blocks[..0]) == [];
    for i := 0 to |blocks|
      invariant tape.Valid() && Wrote(start, tape.View(), Blocks(blocks[..i]))
    {
      added := Blocks(blocks[..i]);
      UsageOfBlocks(blocks[..i]);
      ok := WriteItem(tape, Blk(blocks[i]), start, added);
      if !ok {
        return;
      }
      assert Blocks(blocks[..i + 1]) == added + [Blk(blocks[i])];
    }
    assert blocks[..|blocks|] == blocks;
    UsageOfBlocks(blocks);
    added := Blocks(blocks);
    ok := WriteItem(tape, Mark, start, added);
    if ok {
      added := added + [Mark];
    }
  }

  // Adds one more item to those written since `start`, or leaves the tape as it is.
  method WriteItem(tape: FakeTape, item: Item, ghost start: Tape, ghost added: seq<Item>) returns (ok: bool)
    requires tape.Valid() && start.Valid() && Wrote(start, tape.View(), added)
    modifies tape
    ensures tape.Valid()
    ensures ok == Fits(old(tape.View()), item)
    ensures ok ==> Wrote(start, tape.View(), added + [item])
    ensures !ok ==> tape.View() == old(tape.View())
    ensures !ok ==> !HasRoom(start, Usage(added) + Cost(item))
  {
    ghost var before := tape.View();
    RoomAfter(start, before, added, Cost(item));
    ok := tape.Write(item);
    if ok {
      WroteOne(before, item);
      WroteTwice(start, before, tape.View(), added, [item]);
    }
  }

  /** Writes the tar stream of the files. A file that changed since the scan, or a read
      failure, stops it with any number of blocks written. */
  method WriteTar(tape: FakeTape, setup: Setup, files: seq<FileMeta>)
    returns (r: Outcome, ghost blocks: seq<Block>, ghost fault: bool)
    requires tape.Valid()
    modifies tape
    ensures tape.Valid() && Wrote(old(tape.View()), tape.View(), Blocks(blocks))
    ensures r.Written? ==> Unchanged(setup.codec, files, setup.content)
    ensures r.Written? ==> Holds(blocks, setup.codec.tar(EntriesOf(files, setup.content)))
    ensures r.TapeFull? ==>
      !HasRoom(old(tape.View()), SegmentSize(|setup.codec.tar(EntriesOf(files, setup.content))|) - 1)
    ensures r.Failed? ==> fault || !Unchanged(setup.codec, files, setup.content)
  {
    hide Concat, EntriesOf, Unchanged, Usage;
    var bytes := setup.codec.tar(EntriesOf(files, setup.content));
    ghost var start := tape.View();
    var ok;
    var fails: bool := *;
    fault := fails;
    if fails || !Unchanged(setup.codec, files, setup.content) {
      var stop: int := *;
      var w := new TapeBlockWriter(tape);
      var count;
      count, ok := w.Write(if 0 <= stop < |bytes| then bytes[..stop] else bytes);
      NextBlockRefused(start, tape.View(), w.full, |bytes|);
      return if ok then Failed else TapeFull, w.full, fault;
    }
    ok, blocks := WriteStream(tape, [bytes]);
    ConcatOne(bytes);
    NextBlockRefused(start, tape.View(), blocks, |bytes|);
    r := if ok then Written else TapeFull;
  }

  // If one of the blocks for these bytes is refused, there is no room for all of them.
  lemma NextBlockRefused(start: Tape, now: Tape, blocks: seq<Block>, bytes: nat)
    requires start.Valid() && now.Valid() && Wrote(start, now, Blocks(blocks))
    ensures |blocks| * BLOCK_SIZE < bytes && !HasRoom(now, BLOCK_SIZE) ==> !HasRoom(start, SegmentSize(bytes) - 1)
  {
    hide Usage;
    UsageOfBlocks(blocks);
    RoomAfter(start, now, Blocks(blocks), BLOCK_SIZE);
  }

  lemma ConcatOne(b: Block)
    ensures Concat([b]) == b
  {
    assert [b][1..] == [];
  }

  /** Writes a session: the index segment, then the tar segment, each ended by a mark. An
      invalid index is refused before anything is written. */
  method WriteSession(tape: FakeTape, setup: Setup, idx: SessionIndex)
    returns (r: Outcome, ghost added: seq<Item>, ghost rec: Recorded, ghost fault: bool)
    requires tape.Valid()
    modifies tape
    ensures tape.Valid() && Wrote(old(tape.View()), tape.View(), added)
    ensures !ValidIndex(idx) ==> r.Failed? && added == []
    ensures r.Written? ==> added == SessionItems(rec) && Records(setup, idx, rec)
    ensures r.TapeFull? ==> !HasRoom(old(tape.View()), SessionSize(setup, idx))
    ensures r.Failed? ==> fault || !ValidIndex(idx) || !Unchanged(setup.codec, idx.files, setup.content)
  {
    hide Usage, EncodeIndex, EntriesOf, Unchanged, Concat, Wrote, ValidIndex, HasRoom, SegmentSize, SessionItems;
    rec, fault := Recorded([], []), false;
    added := [];
    WroteNothing(tape.View());
    if !ValidIndex(idx) {
      return Failed, [], rec, fault;
    }
    ghost var start := tape.View();
    var blocks := EncodeIndex(setup.codec, idx);
    var ok;
    ok, added := WriteSegment(tape, blocks);
    IndexUsage(setup.codec, idx);
    if !ok {
      MoreRoom(start, |blocks| * BLOCK_SIZE + 1, SessionSize(setup, idx));
      return TapeFull, added, rec, fault;
    }
    SegmentUsage(blocks);
    ghost var tarBlocks;
    r, added, tarBlocks, fault := WriteTarSegment(tape, setup, idx.files, start, added);
    if r.Written? {
      rec := Recorded(blocks, tarBlocks);
      SessionItemsAre(rec);
    }
  }

  lemma SessionItemsAre(rec: Recorded)
    ensures SessionItems(rec) == Blocks(rec.index) + [Mark] + Blocks(rec.tar) + [Mark]
  {
  }

  // The tar stream and the mark behind it.
  method WriteTarSegment(tape: FakeTape, setup: Setup, files: seq<FileMeta>, ghost start: Tape, ghost added: seq<Item>)
    returns (r: Outcome, ghost all: seq<Item>, ghost blocks: seq<Block>, ghost fault: bool)
    requires tape.Valid() && start.Valid() && Wrote(start, tape.View(), added)
    modifies tape
    ensures tape.Valid() && Wrote(start, tape.View(), all)
    ensures r.Written? ==> Unchanged(setup.codec, files, setup.content)
    ensures r.Written? ==> Holds(blocks, setup.codec.tar(EntriesOf(files, setup.content)))
    ensures r.Written? ==> all == added + Blocks(blocks) + [Mark]
    ensures r.TapeFull? ==>
      !HasRoom(start, Usage(added) + SegmentSize(|setup.codec.tar(EntriesOf(files, setup.content))|))
    ensures r.Failed? ==> fault || !Unchanged(setup.codec, files, setup.content)
  {
    hide Usage, EntriesOf, Unchanged, Concat, Wrote, HasRoom, SegmentSize;
    ghost var middle := tape.View();
    r, blocks, fault := WriteTar(tape, setup, files);
    ghost var size := SegmentSize(|setup.codec.tar(EntriesOf(files, setup.content))|);
    WroteTwice(start, middle, tape.View(), added, Blocks(blocks));
    all := added + Blocks(blocks);
    if r.Written? {
      var ok := WriteItem(tape, Mark, start, all);
      UsageConcat(added, Blocks(blocks));
      UsageOfBlocks(blocks);
      SegmentSizeIs(|setup.codec.tar(EntriesOf(files, setup.content))|);
      if ok {
        all := all + [Mark];
      } else {
        r := TapeFull;
      }
    } else {
      RoomAfter(start, middle, added, size - 1);
      MoreRoom(start, Usage(added) + size - 1, Usage(added) + size);
    }
  }

  lemma SegmentSizeIs(bytes: nat)
    ensures SegmentSize(bytes) == (bytes + BLOCK_SIZE - 1) / BLOCK_SIZE * BLOCK_SIZE + 1
  {
  }

  lemma MoreRoom(t: Tape, size: nat, more: nat)
    requires t.Valid() && size <= more
    ensures HasRoom(t, more) ==> HasRoom(t, size)
  {
    hide Usage;
  }

  /** The recorded session is this index, sealed, with a tar stream of its files. */
  ghost predicate Records(setup: Setup, idx: SessionIndex, rec: Recorded) {
    && ValidIndex(idx)
    && rec.index == EncodeIndex(setup.codec, idx)
    && Unchanged(setup.codec, idx.files, setup.content)
    && Holds(rec.tar, setup.codec.tar(EntriesOf(idx.files, setup.content)))
  }

  /** A recorded session reads back: its index as sealed, its tar stream without damage. */
  lemma RecordedReadsBack(setup: Setup, idx: SessionIndex, rec: Recorded)
    requires Lawful(setup.codec) && Records(setup, idx, rec)
    requires idx.formatVersion <= FORMAT_VERSION && idx.part >= 1
    ensures ReadIndex(setup.codec, Concat(rec.index)) == Index(Seal(setup.codec.sha, idx))
    ensures DistinctPaths(idx.files) ==> ReadsTar(setup.codec, idx.files, Concat(rec.tar))
  {
    hide Concat, EncodeIndex, ReadIndex, ReadsTar, EntriesOf, Lawful, Unchanged, DistinctPaths;
    IndexRoundTrip(setup.codec, idx);
    var bytes := setup.codec.tar(EntriesOf(idx.files, setup.content));
    assert Concat(rec.tar) == bytes + Concat(rec.tar)[|bytes|..];
    if DistinctPaths(idx.files) {
      TarRoundTrip(setup.codec, idx.files, setup.content, Concat(rec.tar)[|bytes|..]);
    }
  }

  // ----- Closing and restoring ------------------------------------------------------------------

  /** Writes the closing pair of marks; a full tape may take one mark or none. */
  method CloseEOD(tape: FakeTape) returns (ok: bool, ghost marks: nat)
    requires tape.Valid()
    modifies tape
    ensures tape.Valid() && marks <= 2 && ok == (marks == 2)
    ensures Wrote(old(tape.View()), tape.View(), MarkRun(marks))
    ensures marks == PairRoom(old(tape.View())) && (ok <==> HasRoom(old(tape.View()), 2))
  {
    hide Usage;
    ghost var start := tape.View();
    marks := 0;
    assert MarkRun(0) == [];
    ok := WriteItem(tape, Mark, start, []);
    if ok {
      assert [] + [Mark] == MarkRun(1);
      marks := 1;
      UsageConcat(start.items[..start.pos], [Mark]);
      UsageOne(Mark);
      assert tape.items[..tape.pos] == start.items[..start.pos] + [Mark];
      ok := WriteItem(tape, Mark, start, MarkRun(1));
      if ok {
        assert MarkRun(1) + [Mark] == MarkRun(2);
        marks := 2;
      }
    }
  }

  /** How many marks of a closing pair fit at the position. */
  function PairRoom(t: Tape): (r: nat)
    requires t.Valid()
    ensures r <= 2
  {
    var used := Usage(t.items[..t.pos]);
    if t.capacity == 0 || used + 2 <= t.capacity then 2
    else if used + 1 <= t.capacity then 1
    else 0
  }

  /** The tape brought back after a failure: the front up to the position, closed by the
      marks that fit. If not even one mark fits, nothing had been written either. */
  function Restored(items: seq<Item>, p: nat, capacity: nat): seq<Item>
    requires p <= |items|
  {
    var room := PairRoom(Tape(items, p, capacity));
    if room == 0 then items else items[..p] + MarkRun(room)
  }

  method RestoreEOD(tape: FakeTape, lastNum: nat) returns (ok: bool)
    requires tape.Valid() && WritePosition(tape.items, lastNum).Some?
    modifies tape
    ensures tape.Valid()
    ensures var p := WritePosition(old(tape.items), lastNum).value;
      && tape.items == Restored(old(tape.items), p, tape.capacity)
      && ok == HasRoom(Tape(old(tape.items), p, tape.capacity), 2)
  {
    tape.Rewind();
    ok := tape.ForwardFilemarks(2 * lastNum + 1);
    ghost var marks;
    ok, marks := CloseEOD(tape);
  }

  // ----- A part of a session -----------------------------------------------------------------------

  /** The index of a part, as the header and the files give it. */
  function IndexOf(setup: Setup, sess: Session, continues: string, files: seq<FileMeta>, dedup: bool): SessionIndex {
    SessionIndex(FORMAT_VERSION, sess.num, sess.typ, sess.jobRunID, sess.timestamp, setup.job.name, sess.part,
                 continues, "", "", setup.toolVersion, setup.configSource, setup.configMTime, setup.JobHash(),
                 if dedup then None else Some(setup.job), files)
  }

  function PointerBlocks(c: Codec, cont: Option<Continuation>): seq<Block> {
    if cont.None? then []
    else match EncodeContinuation(c, cont.value)
      case None => []
      case Some(b) => [b]
  }

  /** Writes the pointer block, if the chain goes on, where the next session would begin. */
  method WriteContinuation(tape: FakeTape, c: Codec, cont: Continuation, ghost start: Tape, ghost added: seq<Item>)
    returns (r: Outcome)
    requires tape.Valid() && start.Valid() && Wrote(start, tape.View(), added)
    modifies tape
    ensures tape.Valid()
    ensures r.Written? ==> EncodeContinuation(c, cont).Some?
    ensures r.Written? ==> Wrote(start, tape.View(), added + Blocks(PointerBlocks(c, Some(cont))))
    ensures !r.Written? ==> tape.View() == old(tape.View())
    ensures r.Failed? <==> EncodeContinuation(c, cont).None?
    ensures r.TapeFull? ==> !HasRoom(start, Usage(added) + BLOCK_SIZE)
  {
    hide Usage;
    var b := EncodeContinuation(c, cont);
    if b.None? {
      return Failed;
    }
    assert Blocks(PointerBlocks(c, Some(cont))) == [Blk(b.value)];
    var ok := WriteItem(tape, Blk(b.value), start, added);
    r := if ok then Written else TapeFull;
  }

  lemma PointerUsage(c: Codec, cont: Option<Continuation>)
    requires cont.Some? ==> EncodeContinuation(c, cont.value).Some?
    ensures Usage(Blocks(PointerBlocks(c, cont))) == if cont.Some? then BLOCK_SIZE else 0
  {
    hide EncodeContinuation;
    UsageOfBlocks(PointerBlocks(c, cont));
  }

  /** A part can be written if its index is valid, no file changed since the scan, and its
      pointer fits a block. */
  ghost predicate CanWrite(setup: Setup, idx: SessionIndex, cont: Option<Continuation>) {
    && ValidIndex(idx)
    && Unchanged(setup.codec, idx.files, setup.content)
    && (cont.Some? ==> EncodeContinuation(setup.codec, cont.value).Some?)
  }

  // The session, the pointer and the closing pair, one after the other.
  method WriteAll(tape: FakeTape, setup: Setup, idx: SessionIndex, cont: Option<Continuation>)
    returns (r: Outcome, ghost added: seq<Item>, ghost rec: Recorded, ghost fault: bool)
    requires tape.Valid()
    modifies tape
    ensures tape.Valid() && Wrote(old(tape.View()), tape.View(), added)
    ensures r.Written? ==> Records(setup, idx, rec) && HasRoom(old(tape.View()), PartSize(setup, idx, cont))
    ensures r.Written? ==> added == SessionItems(rec) + Blocks(PointerBlocks(setup.codec, cont)) + MarkRun(2)
    ensures r.Written? && cont.Some? ==> EncodeContinuation(setup.codec, cont.value).Some?
    ensures r.TapeFull? ==> !HasRoom(old(tape.View()), PartSize(setup, idx, cont))
    ensures r.Failed? ==> fault || !CanWrite(setup, idx, cont)
  {
    hide Records, Usage, SessionSize, EncodeContinuation, Unchanged, ValidIndex;
    ghost var start := tape.View();
    r, added, rec, fault := WriteSession(tape, setup, idx);
    if r.Written? {
      SessionUsage(setup, idx, rec);
    }
    if r.Written? && cont.Some? {
      r := WriteContinuation(tape, setup.codec, cont.value, start, added);
      if r.Written? {
        PointerUsage(setup.codec, cont);
        UsageConcat(added, Blocks(PointerBlocks(setup.codec, cont)));
        added := added + Blocks(PointerBlocks(setup.codec, cont));
      }
    }
    assert cont.None? ==> added + Blocks(PointerBlocks(setup.codec, cont)) == added;
    if r.Written? {
      ghost var before := tape.View();
      ghost var marks;
      var ok;
      ok, marks := CloseEOD(tape);
      RoomAfter(start, before, added, 2);
      WroteTwice(start, before, tape.View(), added, MarkRun(marks));
      added := added + MarkRun(marks);
      if !ok {
        r := TapeFull;
      }
    }
  }

  /** Puts a pointer and a closing pair behind the first lastNum sessions; a full tape may
      take less. */
  method WritePointerEnd(tape: FakeTape, c: Codec, pointer: Continuation, lastNum: nat)
    returns (ok: bool, ghost blocks: seq<Block>, ghost marks: nat)
    requires tape.Valid() && WritePosition(tape.items, lastNum).Some?
    modifies tape
    ensures tape.Valid() && marks <= 2
    ensures ok ==> marks == 2 && blocks != []
    ensures ok <==>
      && EncodeContinuation(c, pointer).Some?
      && HasRoom(Tape(old(tape.items), WritePosition(old(tape.items), lastNum).value, tape.capacity), BLOCK_SIZE + 2)
    ensures blocks == [] || (|blocks| == 1 && EncodeContinuation(c, pointer) == Some(blocks[0]))
    ensures blocks == [] ==> !ok && tape.items == old(tape.items)
    ensures blocks != [] && tape.capacity > 0 ==> Usage(tape.items) <= tape.capacity
    ensures blocks != [] ==>
      tape.items == old(tape.items)[..WritePosition(old(tape.items), lastNum).value] + (Blocks(blocks) + MarkRun(marks))
  {
    hide Usage, EncodeContinuation, Forward, PairRoom;
    blocks, marks := [], 0;
    tape.Rewind();
    ok := tape.ForwardFilemarks(2 * lastNum + 1);
    ghost var start := tape.View();
    WroteNothing(start);
    var w := WriteContinuation(tape, c, pointer, start, []);
    UsageOfBlocks([]);
    assert Blocks([]) == [];
    if !w.Written? {
      return false, [], 0;
    }
    blocks := PointerBlocks(c, Some(pointer));
    assert [] + Blocks(blocks) == Blocks(blocks);
    UsageOfBlocks(blocks);
    ghost var before := tape.View();
    RoomAfter(start, before, Blocks(blocks), 2);
    ok, marks := CloseEOD(tape);
    WroteTwice(start, before, tape.View(), Blocks(blocks), MarkRun(marks));
  }

  datatype PartResult = PartWritten | PartFull | PartFailed | NotPositioned

  /** Writes one part of a run onto a cartridge behind its first lastNum sessions. Nothing
      before mark 2*lastNum+1 changes, whatever fails. On failure the session's row is
      deleted and the cartridge closed again at that mark. */
  method WritePart(tape: FakeTape, cat: Catalog, setup: Setup, sess: Session, id: int, files: seq<FileMeta>,
                   lastNum: nat, continues: string, cont: Option<Continuation>)
    returns (r: PartResult, ghost rec: Recorded, ghost dedup: bool, ghost fault: bool)
    requires tape.Valid() && cat.Valid()
    modifies tape, cat`sessions, cat`files
    ensures tape.Valid() && cat.Valid()
    ensures r.NotPositioned? <==> WritePosition(old(tape.items), lastNum).None?
    ensures r.NotPositioned? ==> tape.items == old(tape.items)
    ensures WritePosition(old(tape.items), lastNum).Some? ==>
      var p := WritePosition(old(tape.items), lastNum).value;
      && (r.PartWritten? ==>
          && tape.items ==
             old(tape.items)[..p] + SessionItems(rec) + Blocks(PointerBlocks(setup.codec, cont)) + MarkRun(2)
          && Records(setup, IndexOf(setup, sess, continues, files, dedup), rec)
          && (cont.Some? ==> EncodeContinuation(setup.codec, cont.value).Some?))
      && (!r.PartWritten? ==> tape.items == Restored(old(tape.items), p, tape.capacity))
    ensures WritePosition(old(tape.items), lastNum).Some? ==>
      var previous := PreviousHash(old(tape.items), WritePosition(old(tape.items), lastNum).value, setup.codec);
      && (dedup ==> lastNum > 0 && previous == Some(setup.JobHash()))
      && (!dedup ==> fault || lastNum == 0 || previous != Some(setup.JobHash()))
    ensures r.PartWritten? && Lawful(setup.codec) && sess.part >= 1 ==>
      var p := WritePosition(old(tape.items), lastNum).value;
      Tells(setup, sess, continues, files, dedup, ReadIndex(setup.codec, Concat(Segment(tape.items, p))))
    ensures WritePosition(old(tape.items), lastNum).Some? ==>
      var start := Tape(old(tape.items), WritePosition(old(tape.items), lastNum).value, tape.capacity);
      var idx := IndexOf(setup, sess, continues, files, dedup);
      && (r.PartWritten? ==> HasRoom(start, PartSize(setup, idx, cont)))
      && (r.PartFull? ==> !HasRoom(start, PartSize(setup, idx, cont)))
      && (r.PartFailed? ==> fault || !CanWrite(setup, idx, cont))
    ensures WritePosition(old(tape.items), lastNum).Some? ==>
      var p := WritePosition(old(tape.items), lastNum).value;
      p <= |tape.items| && tape.items[..p] == old(tape.items)[..p]
    ensures r.PartWritten? && tape.capacity > 0 ==> Usage(tape.items) <= tape.capacity
    ensures r.PartFull? || r.PartFailed? ==>
      cat.sessions == old(cat.sessions) - {id} && cat.files == old(cat.files) - {id}
    ensures r.PartWritten? || r.NotPositioned? ==> cat.sessions == old(cat.sessions) && cat.files == old(cat.files)
  {
    hide Records, PointerBlocks, EncodeContinuation, PreviousHash, Usage, Forward, Restored, SessionItems, IndexOf,
         PairRoom, PartSize, Tells, Lawful, Segment, Concat, ReadIndex, CanWrite, HasRoom;
    rec, dedup, fault := Recorded([], []), false, false;
    tape.Rewind();
    var ok := tape.ForwardFilemarks(2 * lastNum + 1);
    if !ok {
      return NotPositioned, rec, dedup, fault;
    }
    RestoredKeepsFront(tape.items, tape.pos, tape.capacity);
    r, rec, dedup, fault := WriteHere(tape, cat, setup, sess, id, files, lastNum, continues, cont);
  }

  // Writes the part at the position, or brings tape and catalogue back.
  method WriteHere(tape: FakeTape, cat: Catalog, setup: Setup, sess: Session, id: int, files: seq<FileMeta>,
                   lastNum: nat, continues: string, cont: Option<Continuation>)
    returns (r: PartResult, ghost rec: Recorded, ghost dedup: bool, ghost fault: bool)
    requires tape.Valid() && cat.Valid() && WritePosition(tape.items, lastNum) == Some(tape.pos)
    modifies tape, cat`sessions, cat`files
    ensures tape.Valid() && cat.Valid() && !r.NotPositioned?
    ensures r.PartWritten? ==>
      && tape.items == old(tape.items[..tape.pos]) + SessionItems(rec) + Blocks(PointerBlocks(setup.codec, cont))
                       + MarkRun(2)
      && Records(setup, IndexOf(setup, sess, continues, files, dedup), rec)
      && (cont.Some? ==> EncodeContinuation(setup.codec, cont.value).Some?)
      && (tape.capacity > 0 ==> Usage(tape.items) <= tape.capacity)
    ensures !r.PartWritten? ==> tape.items == Restored(old(tape.items), old(tape.pos), tape.capacity)
    ensures
      var previous := PreviousHash(old(tape.items), old(tape.pos), setup.codec);
      && (dedup ==> lastNum > 0 && previous == Some(setup.JobHash()))
      && (!dedup ==> fault || lastNum == 0 || previous != Some(setup.JobHash()))
    ensures r.PartWritten? && Lawful(setup.codec) && sess.part >= 1 ==>
      Tells(setup, sess, continues, files, dedup, ReadIndex(setup.codec, Concat(Segment(tape.items, old(tape.pos)))))
    ensures
      var idx := IndexOf(setup, sess, continues, files, dedup);
      && (r.PartWritten? ==> HasRoom(old(tape.View()), PartSize(setup, idx, cont)))
      && (r.PartFull? ==> !HasRoom(old(tape.View()), PartSize(setup, idx, cont)))
      && (r.PartFailed? ==> fault || !CanWrite(setup, idx, cont))
    ensures if r.PartWritten? then cat.sessions == old(cat.sessions) && cat.files == old(cat.files)
            else cat.sessions == old(cat.sessions) - {id} && cat.files == old(cat.files) - {id}
  {
    hide Records, PointerBlocks, EncodeContinuation, PreviousHash, Usage, Forward, Restored, SessionItems, IndexOf,
         PairRoom, SessionSize, Tells, Lawful, Segment, Concat, ReadIndex, CanWrite, HasRoom;
    ghost var p := tape.pos;
    ghost var readFault, writeFault;
    var lean;
    lean, readFault := Deduplicates(tape, setup, lastNum);
    dedup := lean;
    ghost var start := tape.View();
    var w;
    ghost var added;
    w, added, rec, writeFault := WriteAll(tape, setup, IndexOf(setup, sess, continues, files, lean), cont);
    fault := readFault || writeFault;
    if w.Written? {
      assert tape.items[..tape.pos] == tape.items;
      if Lawful(setup.codec) && sess.part >= 1 {
        PartTells(setup, sess, continues, files, dedup, cont, rec, start.items, p, tape.items);
      }
      r := PartWritten;
      return;
    }
    var ok := cat.DeleteSession(id);
    AfterFailure(start, tape.View(), added, lastNum, p);
    MoreRoom(start, 2, PartSize(setup, IndexOf(setup, sess, continues, files, dedup), cont));
    ok := RestoreEOD(tape, lastNum);
    r := if w.TapeFull? || !ok then PartFull else PartFailed;
  }

  lemma RestoredKeepsFront(items: seq<Item>, p: nat, capacity: nat)
    requires p <= |items|
    ensures p <= |Restored(items, p, capacity)| && Restored(items, p, capacity)[..p] == items[..p]
  {
    hide PairRoom;
  }

  lemma FrontUsage(items: seq<Item>, p: nat)
    requires p < |items|
    ensures Usage(items[..p]) < Usage(items)
  {
    hide Usage;
    var last := |items| - 1;
    assert items == items[..p] + items[p..];
    UsageConcat(items[..p], items[p..]);
    assert items[p..] == [items[p]] + items[p + 1..];
    UsageConcat([items[p]], items[p + 1..]);
    UsageOne(items[p]);
  }

  // Whatever was written behind the position, restoring from it forgets it.
  lemma AfterFailure(start: Tape, now: Tape, added: seq<Item>, lastNum: nat, p: nat)
    requires start.Valid() && now.Valid() && start.pos == p
    requires WritePosition(start.items, lastNum) == Some(p)
    requires Wrote(start, now, added)
    ensures WritePosition(now.items, lastNum) == Some(p)
    ensures Restored(now.items, p, now.capacity) == Restored(start.items, p, start.capacity)
    ensures HasRoom(Tape(now.items, p, now.capacity), 2) <==> HasRoom(start, 2)
  {
    hide Forward, Usage;
    if added != [] {
      FrontUsage(now.items, p);
    }
    assert now.items[..p] == now.items[..now.pos][..p] == start.items[..p];
    PositionDependsOnFront(start.items, now.items, 2 * lastNum + 1, p);
  }

  // ----- In terms of the layout ---------------------------------------------------------------------

  /** The cartridge with a part written behind its first k sessions. */
  ghost function WithPart(cart: Cart, k: nat, rec: Recorded, pointer: seq<Block>): Cart
    requires k <= |cart.sessions|
  {
    cart.(sessions := cart.sessions[..k] + [rec], tail := Tail(pointer, 2))
  }

  /** The cartridge after a part failed: back to its first k sessions, closed as far as
      there is room. */
  ghost function WithoutPart(cart: Cart, k: nat): Cart
    requires k <= |cart.sessions|
  {
    var front := Body(cart.heading, cart.sessions[..k]);
    var room := PairRoom(Tape(front, |front|, cart.capacity));
    if room == 0 then cart else cart.(sessions := cart.sessions[..k], tail := Tail([], room))
  }

  lemma WrittenPartIsLaidOut(cart: Cart, k: nat, rec: Recorded, pointer: seq<Block>)
    requires k <= |cart.sessions|
    ensures var p := WritePosition(Items(cart), k);
      && p.Some?
      && Items(cart)[..p.value] + SessionItems(rec) + Blocks(pointer) + MarkRun(2) ==
         Items(WithPart(cart, k, rec, pointer))
  {
    hide Forward, Body, SessionItems;
    PositionOf(cart, k);
    BodySnoc(cart.heading, cart.sessions[..k], rec);
    var front := Body(cart.heading, cart.sessions[..k]) + SessionItems(rec);
    assert front + (Blocks(pointer) + MarkRun(2)) == front + Blocks(pointer) + MarkRun(2);
  }

  lemma FailedPartIsLaidOut(cart: Cart, k: nat)
    requires k <= |cart.sessions|
    ensures var p := WritePosition(Items(cart), k);
      p.Some? && Restored(Items(cart), p.value, cart.capacity) == Items(WithoutPart(cart, k))
  {
    hide Forward, Body, Usage;
    PositionOf(cart, k);
    var front := Body(cart.heading, cart.sessions[..k]);
    assert front[..|front|] == front;
    var room := PairRoom(Tape(Items(cart), |front|, cart.capacity));
    assert Blocks([]) + MarkRun(room) == MarkRun(room);
  }

  lemma UsageOfFront(items: seq<Item>, front: seq<Item>, rest: seq<Item>)
    requires items == front + rest
    ensures Usage(items) == Usage(front) + Usage(rest) && |rest| <= Usage(rest)
  {
    UsageConcat(front, rest);
    UsageAtLeastLength(rest);
  }

  lemma {:induction false} UsageAtLeastLength(items: seq<Item>)
    ensures |items| <= Usage(items)
  {
    if items != [] {
      UsageAtLeastLength(items[..|items| - 1]);
    }
  }

  /** On a cartridge within its capacity whose first k sessions are followed by two more
      items (the closing pair, say) the restoring pair always fits: the failed part leaves
      the first k sessions and a closing pair. If there were just these, nothing changed. */
  lemma FailureRestores(cart: Cart, k: nat)
    requires k <= |cart.sessions| && WithinCapacity(cart)
    requires k < |cart.sessions| || cart.tail.marks == 2
    ensures WithoutPart(cart, k) == cart.(sessions := cart.sessions[..k], tail := CLOSED)
    ensures k == |cart.sessions| && cart.tail.pointer == [] ==> WithoutPart(cart, k) == cart
  {
    hide Usage, Body, Forward;
    PositionOf(cart, k);
    var front, items := Body(cart.heading, cart.sessions[..k]), Items(cart);
    var rest := items[|front|..];
    UsageOfFront(items, front, rest);
    assert front[..|front|] == front;
    assert |rest| >= 2 by {
      if k < |cart.sessions| {
        assert cart.sessions[..k + 1] == cart.sessions[..k] + [cart.sessions[k]];
        BodySnoc(cart.heading, cart.sessions[..k], cart.sessions[k]);
        BodyPrefix(cart.heading, cart.sessions, k + 1);
      } else {
        assert cart.sessions[..k] == cart.sessions;
        assert rest == TailItems(cart.tail);
      }
    }
    if k == |cart.sessions| {
      assert cart.sessions[..k] == cart.sessions;
    }
  }

  /** However little fits, a restored cartridge stays within its capacity. */
  lemma FailureFits(cart: Cart, k: nat)
    requires k <= |cart.sessions| && WithinCapacity(cart)
    ensures WithinCapacity(WithoutPart(cart, k))
  {
    hide Usage, Body;
    var front := Body(cart.heading, cart.sessions[..k]);
    var room := PairRoom(Tape(front, |front|, cart.capacity));
    assert front[..|front|] == front;
    if room > 0 {
      ItemsAre(WithoutPart(cart, k));
      assert Blocks([]) + MarkRun(room) == MarkRun(room);
      UsageConcat(front, MarkRun(room));
      UsageOfMarks(room);
    }
  }

  /** Whether so much fits behind the first k sessions of a cartridge. */
  ghost predicate RoomBehind(cart: Cart, k: nat, size: nat)
    requires k <= |cart.sessions|
  {
    cart.capacity > 0 ==> Usage(Body(cart.heading, cart.sessions[..k])) + size <= cart.capacity
  }

  lemma RoomIs(cart: Cart, k: nat, size: nat)
    requires k <= |cart.sessions|
    ensures var p := WritePosition(Items(cart), k);
      && p.Some?
      && (RoomBehind(cart, k, size) <==> HasRoom(Tape(Items(cart), p.value, cart.capacity), size))
  {
    hide Forward, Body, Items, Usage;
    PositionOf(cart, k);
  }

  /** Three marks back from where session k+1 is written begins the index of session k. */
  lemma PreviousIsBefore(c: Codec, cart: Cart, k: nat)
    requires k <= |cart.sessions|
    ensures WritePosition(Items(cart), k).Some?
    ensures k > 0 ==>
      PreviousHash(Items(cart), WritePosition(Items(cart), k).value, c) == HashBefore(c, cart.sessions, k)
  {
    hide Forward, Backward, Body, Items, Marks, ReadIndex, Concat, Segment;
    PositionOf(cart, k);
    if k > 0 {
      var items := Items(cart);
      var q, p := |Body(cart.heading, cart.sessions[..k - 1])|, |Body(cart.heading, cart.sessions[..k])|;
      PositionOf(cart, k - 1);
      ForwardExactly(items, 0, 2 * k + 1, p);
      ForwardExactly(items, 0, 2 * (k - 1) + 1, q);
      SessionAt(cart, k - 1);
      assert q <= p;
      MarksSplit(items, 0, q, p);
      BackwardExactly(items, p, 3, q);
    }
  }

  /** What is read back where a session was written: the header of the run, the source of its
      configuration, its hash and, unless it was left out, the job itself. */
  lemma WrittenIndexTells(setup: Setup, sess: Session, continues: string, files: seq<FileMeta>, dedup: bool,
                          rec: Recorded, front: seq<Item>, rest: seq<Item>)
    requires Lawful(setup.codec) && sess.part >= 1
    requires Records(setup, IndexOf(setup, sess, continues, files, dedup), rec)
    ensures Tells(setup, sess, continues, files, dedup, IndexRead(setup.codec, rec))
    ensures var items := front + SessionItems(rec) + rest;
      Tells(setup, sess, continues, files, dedup, ReadIndex(setup.codec, Concat(Segment(items, |front|))))
  {
    hide Records, Lawful, ReadIndex, Concat, Segment, SessionItems, CanonicalIndex, CanonicalJobConfig, Tells;
    RecordedReadsBack(setup, IndexOf(setup, sess, continues, files, dedup), rec);
    SealedIndexTells(setup, sess, continues, files, dedup);
    SegmentWritten(front, rec, rest);
  }

  lemma PartTells(setup: Setup, sess: Session, continues: string, files: seq<FileMeta>, dedup: bool,
                  cont: Option<Continuation>, rec: Recorded, before: seq<Item>, p: nat, after: seq<Item>)
    requires Lawful(setup.codec) && sess.part >= 1 && p <= |before|
    requires Records(setup, IndexOf(setup, sess, continues, files, dedup), rec)
    requires after == before[..p] + SessionItems(rec) + Blocks(PointerBlocks(setup.codec, cont)) + MarkRun(2)
    ensures Tells(setup, sess, continues, files, dedup, ReadIndex(setup.codec, Concat(Segment(after, p))))
  {
    hide Records, Lawful, ReadIndex, Concat, Segment, SessionItems, PointerBlocks, Tells;
    var rest := Blocks(PointerBlocks(setup.codec, cont)) + MarkRun(2);
    assert after == before[..p] + SessionItems(rec) + rest;
    WrittenIndexTells(setup, sess, continues, files, dedup, rec, before[..p], rest);
  }

  lemma SegmentWritten(front: seq<Item>, rec: Recorded, rest: seq<Item>)
    ensures Segment(front + SessionItems(rec) + rest, |front|) == rec.index
  {
    hide Segment;
    var items, n := front + SessionItems(rec) + rest, |rec.index|;
    assert items[|front|..|front| + n] == SessionItems(rec)[..n] == Blocks(rec.index);
    assert items[|front| + n] == SessionItems(rec)[n] == Mark;
    SegmentOf(items, |front|, rec.index);
  }

  lemma SealedIndexTells(setup: Setup, sess: Session, continues: string, files: seq<FileMeta>, dedup: bool)
    ensures Tells(setup, sess, continues, files, dedup,
                  Index(Seal(setup.codec.sha, IndexOf(setup, sess, continues, files, dedup))))
  {
    hide CanonicalIndex, CanonicalJobConfig;
  }

  /** An index that tells of this run, its configuration and its files. */
  ghost predicate Tells(setup: Setup, sess: Session, continues: string, files: seq<FileMeta>, dedup: bool,
                        r: IndexResult)
  {
    && r.Index?
    && r.idx.formatVersion == 2
    && r.idx.sessionNum == sess.num && r.idx.typ == sess.typ && r.idx.part == sess.part
    && r.idx.jobRunID == sess.jobRunID && r.idx.timestamp == sess.timestamp && r.idx.continues == continues
    && r.idx.jobName == setup.job.name && r.idx.toolVersion == setup.toolVersion
    && r.idx.configSource == setup.configSource && r.idx.configMTime == setup.configMTime
    && r.idx.jobConfigHash == setup.codec.sha(CanonicalJobConfig(setup.job))
    && r.idx.jobConfig == (if dedup then None else Some(setup.job))
    && r.idx.files == files
  }

  /** WritePart, in terms of the layout of the cartridge. */
  method WritePartOnCart(tape: FakeTape, cat: Catalog, setup: Setup, sess: Session, id: int, files: seq<FileMeta>,
                         lastNum: nat, continues: string, cont: Option<Continuation>, ghost cart: Cart)
    returns (r: PartResult, ghost rec: Recorded, ghost dedup: bool, ghost fault: bool)
    requires tape.Valid() && cat.Valid() && tape.items == Items(cart) && lastNum <= |cart.sessions|
    requires tape.capacity == cart.capacity
    modifies tape, cat`sessions, cat`files
    ensures tape.Valid() && cat.Valid() && !r.NotPositioned?
    ensures r.PartWritten? ==> WithinCapacity(WithPart(cart, lastNum, rec, PointerBlocks(setup.codec, cont)))
    ensures r.PartWritten? ==>
      && tape.items == Items(WithPart(cart, lastNum, rec, PointerBlocks(setup.codec, cont)))
      && Records(setup, IndexOf(setup, sess, continues, files, dedup), rec)
      && (cont.Some? ==> EncodeContinuation(setup.codec, cont.value).Some?)
      && cat.sessions == old(cat.sessions) && cat.files == old(cat.files)
    ensures !r.PartWritten? ==>
      && tape.items == Items(WithoutPart(cart, lastNum))
      && cat.sessions == old(cat.sessions) - {id} && cat.files == old(cat.files) - {id}
    ensures var room := RoomBehind(cart, lastNum, PartSize(setup, IndexOf(setup, sess, continues, files, dedup), cont));
      && (r.PartWritten? ==> room)
      && (r.PartFull? ==> !room)
    ensures r.PartFailed? ==> fault || !CanWrite(setup, IndexOf(setup, sess, continues, files, dedup), cont)
    ensures dedup ==> HashBefore(setup.codec, cart.sessions, lastNum) == Some(setup.JobHash())
    ensures !dedup ==> fault || HashBefore(setup.codec, cart.sessions, lastNum) != Some(setup.JobHash())
  {
    hide Forward, Items, SessionItems, Records, Body, Usage, Restored, PointerBlocks, EncodeContinuation,
         PreviousHash, PartSize, CanWrite, IndexOf, HasRoom, CarriedHash;
    FailedPartIsLaidOut(cart, lastNum);
    RoomIs(cart, lastNum, PartSize(setup, IndexOf(setup, sess, continues, files, true), cont));
    RoomIs(cart, lastNum, PartSize(setup, IndexOf(setup, sess, continues, files, false), cont));
    PreviousIsBefore(setup.codec, cart, lastNum);
    r, rec, dedup, fault := WritePart(tape, cat, setup, sess, id, files, lastNum, continues, cont);
    WrittenPartIsLaidOut(cart, lastNum, rec, PointerBlocks(setup.codec, cont));
  }
}
