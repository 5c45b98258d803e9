/** Byte streams over tape blocks: a writer that gathers bytes into full blocks, and a
    reader that hands the bytes of a segment out again
    (internal/adapter/tapeformat/blockio.go). */
module BlockIO {
  import opened Domain
  import opened TapeMachine
  import opened FakeTapes

  class TapeBlockWriter {
    const tape: FakeTape
    const buf: array<byte>
    var n: nat
    var failed: bool

    ghost const start: Tape        // the tape before the first block
    ghost var full: seq<Block>     // blocks on the tape so far
    ghost var written: seq<byte>   // bytes accepted so far

    // What the blocks on the tape are, and why a write may have been refused.
    ghost predicate OnTape()
      reads this, tape
    {
      && tape.Valid() && start.Valid()
      && Wrote(start, tape.View(), Blocks(full))
      && FullBlocks(full)
      && (failed ==> tape.capacity > 0 && Usage(tape.items[..tape.pos]) + BLOCK_SIZE > tape.capacity)
      && (failed ==> |full| * BLOCK_SIZE < |written|)
    }

    ghost predicate Valid()
      reads this, tape, buf
    {
      && buf.Length == BLOCK_SIZE
      && n < BLOCK_SIZE
      && OnTape()
      && (!failed ==> Concat(full) + buf[..n] == written)
      && (!failed && full == [] ==> forall i :: n <= i < BLOCK_SIZE ==> buf[i] == 0)
    }

    constructor (tape: FakeTape)
      requires tape.Valid()
      ensures Valid() && this.tape == tape && fresh(buf)
      ensures start == tape.View() && full == [] && written == [] && !failed
    {
      this.tape := tape;
      buf := new byte[BLOCK_SIZE](_ => 0);
      n, failed, full, written := 0, false, [], [];
      start := tape.View();
      new;
      assert Blocks([]) == [];
      assert Concat(full) + buf[..n] == written;
    }

    // Puts the buffer on the tape as one block, whatever its tail holds.
    method WriteBlock()
      requires OnTape() && buf.Length == BLOCK_SIZE && !failed && |full| * BLOCK_SIZE < |written|
      modifies this`n, this`failed, this`full, tape
      ensures OnTape() && n == 0
      ensures !failed ==> full == old(full) + [buf[..]]
      ensures failed ==> full == old(full) && tape.View() == old(tape.View())
    {
      hide Usage;
      ghost var before := tape.View();
      var ok := tape.Write(Blk(buf[..]));
      n := 0;
      if ok {
        full := full + [buf[..]];
        WroteOne(before, Blk(buf[..]));
        WroteTwice(start, before, tape.View(), Blocks(old(full)), [Blk(buf[..])]);
        assert Blocks(full) == Blocks(old(full)) + [Blk(buf[..])];
      } else {
        failed := true;
      }
    }

    // Copies bytes into the free part of the buffer.
    method Fill(p: seq<byte>)
      requires buf.Length == BLOCK_SIZE && n + |p| <= BLOCK_SIZE
      modifies this`n, buf
      ensures n == old(n) + |p|
      ensures buf[..n] == old(buf[..n]) + p
      ensures forall i :: n <= i < BLOCK_SIZE ==> buf[i] == old(buf[i])
    {
      forall i | 0 <= i < |p| {
        buf[n + i] := p[i];
      }
      n := n + |p|;
    }

    // One turn of the write loop: a chunk that fits the buffer.
    method WriteChunk(p: seq<byte>)
      requires Valid() && !failed && 0 < |p| <= BLOCK_SIZE - n
      modifies this`n, this`failed, this`full, this`written, tape, buf
      ensures Valid() && old(full) <= full
      ensures written == old(written) + p
    {
      hide Usage, Wrote;
      ghost var blocks := full;
      ConcatLength(blocks);
      Fill(p);
      written := written + p;
      assert Concat(blocks) + buf[..n] == written;
      if n == BLOCK_SIZE {
        assert buf[..n] == buf[..];
        WriteBlock();
        ConcatSnoc(blocks, buf[..]);
        assert Concat(blocks + [buf[..]]) + buf[..0] == written;
      }
    }

    /** Accepts bytes; the first refusal sticks. */
    method Write(bytes: seq<byte>) returns (count: nat, ok: bool)
      requires Valid()
      modifies this`n, this`failed, this`full, this`written, tape, buf
      ensures Valid() && old(full) <= full
      ensures ok == !failed
      ensures ok ==> count == |bytes| && written == old(written) + bytes
      ensures |old(written)| <= |written| <= |old(written)| + |bytes|
      ensures old(failed) ==> failed && full == old(full) && tape.View() == old(tape.View())
    {
      hide Usage, Wrote, Concat;
      count := 0;
      while count < |bytes| && !failed
        invariant Valid() && old(full) <= full && count <= |bytes|
        invariant old(failed) ==> failed && full == old(full) && tape.View() == old(tape.View())
        invariant old(failed) ==> written == old(written)
        invariant !old(failed) ==> written == old(written) + bytes[..count]
      {
        var k := if BLOCK_SIZE - n < |bytes| - count then BLOCK_SIZE - n else |bytes| - count;
        WriteChunk(bytes[count..count + k]);
        assert bytes[..count + k] == bytes[..count] + bytes[count..count + k];
        count := count + k;
      }
      assert count == |bytes| ==> bytes[..count] == bytes;
      ok := !failed;
    }

    /** Writes the last, incomplete block. On success the tape holds every byte accepted,
        in the smallest number of full blocks; a stream of one block is padded with
        zeros. */
    method Flush() returns (ok: bool)
      requires Valid()
      modifies this`n, this`failed, this`full, tape
      ensures OnTape() && old(full) <= full && written == old(written)
      ensures ok == !failed
      ensures ok ==> Holds(full, written)
      ensures old(failed) ==> failed && full == old(full) && tape.View() == old(tape.View())
    {
      hide Usage, Wrote;
      ghost var blocks := full;
      ConcatLength(blocks);
      if !failed && n > 0 {
        assert buf[..] == buf[..n] + buf[n..];
        ConcatSnoc(blocks, buf[..]);
        assert Concat(blocks) + buf[..] == Concat(blocks) + buf[..n] + buf[n..];
        ghost var m := n;
        WriteBlock();
        assert !failed ==> Concat(full)[|written|..] == buf[m..];
      } else if !failed {
        assert buf[..0] == [];
        assert Concat(full) == written;
      }
      ok := !failed;
    }
  }

  /** These blocks carry these bytes: the bytes come first, less than one block of padding
      follows, and a single block is padded with zeros. */
  ghost predicate Holds(bs: seq<Block>, data: seq<byte>) {
    && FullBlocks(bs)
    && data <= Concat(bs)
    && |bs| == (|data| + BLOCK_SIZE - 1) / BLOCK_SIZE
    && (|bs| == 1 ==> forall i :: |data| <= i < |Concat(bs)| ==> Concat(bs)[i] == 0)
  }

  class TapeBlockReader {
    const tape: FakeTape
    var cur: seq<byte>
    var done: bool

    ghost const end: nat           // where the tape stands once the segment is used up

    ghost predicate Valid()
      reads this, tape
    {
      && tape.Valid()
      && (done ==> cur == [] && tape.pos == end)
      && (!done ==> SegmentEnd(tape.items, tape.pos) == end)
    }

    /** Bytes still to be handed out. */
    ghost function Rest(): seq<byte>
      requires tape.Valid()
      reads this, tape
    {
      if done then [] else cur + Concat(Segment(tape.items, tape.pos))
    }

    constructor (tape: FakeTape)
      requires tape.Valid()
      ensures Valid() && this.tape == tape && end == SegmentEnd(tape.items, tape.pos)
      ensures Rest() == Concat(Segment(tape.items, tape.pos))
    {
      this.tape := tape;
      cur, done := [], false;
      end := SegmentEnd(tape.items, tape.pos);
    }

    /** Hands out at most m bytes; the end of the segment is reported once nothing is
        left, and only then. */
    method Read(m: nat) returns (chunk: seq<byte>, eof: bool)
      requires Valid()
      modifies this`cur, this`done, tape`pos
      ensures Valid() && tape.Valid()
      ensures eof <==> old(Rest()) == []
      ensures eof ==> chunk == [] && tape.pos == end && Rest() == []
      ensures !eof ==> old(Rest()) == chunk + Rest() && |chunk| <= m && (m > 0 ==> chunk != [])
    {
      hide Concat, Segment, SegmentEnd;
      while |cur| == 0
        invariant Valid() && Rest() == old(Rest())
        decreases !done, |tape.items| - tape.pos
      {
        SegmentStep(tape.items, tape.pos);
        if done {
          return [], true;
        }
        var r := tape.ReadBlock();
        if r.EndOfFile? {
          done := true;
          return [], true;
        }
        cur := r.block;
      }
      var k := if m < |cur| then m else |cur|;
      chunk, cur, eof := cur[..k], cur[k..], false;
      assert old(Rest()) == chunk + Rest();
    }

    /** Reads on to the end of the segment, in chunks of at most m bytes. */
    method Drain(m: nat) returns (data: seq<byte>)
      requires Valid() && tape.Valid() && m > 0
      modifies this`cur, this`done, tape`pos
      ensures Valid() && tape.Valid() && data == old(Rest()) && tape.pos == end
    {
      hide Concat, Segment, SegmentEnd, TapeBlockReader.Rest, TapeBlockReader.Valid;
      data := [];
      ghost var whole, rest := Rest(), Rest();
      var eof := false;
      while !eof
        invariant Valid() && tape.Valid() && rest == Rest() && data + rest == whole
        invariant eof ==> rest == [] && tape.pos == end
        decreases !eof, |rest|
      {
        var chunk;
        chunk, eof := Read(m);
        Moved(data, chunk, Rest(), rest, whole, eof);
        data, rest := data + chunk, Rest();
      }
    }
  }

  // A chunk taken off the rest and added to the data leaves their sum as it was.
  lemma Moved(data: seq<byte>, chunk: seq<byte>, after: seq<byte>, rest: seq<byte>, whole: seq<byte>, eof: bool)
    requires data + rest == whole
    requires if eof then rest == [] && chunk == [] && after == [] else rest == chunk + after
    ensures data + chunk + after == whole
  {
    assert data + chunk + after == data + (chunk + after);
  }

  /** Writes a stream of bytes, given in any chunks, as blocks. On success the blocks hold
      exactly these bytes; on a refusal the blocks written so far stay, and the next one
      did not fit. */
  method WriteStream(tape: FakeTape, chunks: seq<seq<byte>>) returns (ok: bool, ghost blocks: seq<Block>)
    requires tape.Valid()
    modifies tape
    ensures tape.Valid()
    ensures Wrote(old(tape.View()), tape.View(), Blocks(blocks)) && FullBlocks(blocks)
    ensures ok ==> Holds(blocks, Concat(chunks))
    ensures !ok ==> tape.capacity > 0 && Usage(tape.items[..tape.pos]) + BLOCK_SIZE > tape.capacity
    ensures !ok ==> |blocks| * BLOCK_SIZE < |Concat(chunks)|
  {
    hide Concat, Usage;
    var w := new TapeBlockWriter(tape);
    ok := true;
    ConcatNone();
    assert chunks[..0] == [];
    for i := 0 to |chunks|
      invariant fresh(w) && fresh(w.buf) && w.Valid() && w.tape == tape && ok == !w.failed
      invariant w.start == old(tape.View())
      invariant ok ==> w.written == Concat(chunks[..i])
      invariant |w.written| <= |Concat(chunks[..i])|
    {
      var count;
      count, ok := w.Write(chunks[i]);
      assert chunks[..i + 1] == chunks[..i] + [chunks[i]];
      ConcatSnoc(chunks[..i], chunks[i]);
    }
    assert chunks[..|chunks|] == chunks;
    ok := w.Flush();
    blocks := w.full;
  }

  lemma ConcatNone()
    ensures Concat([]) == []
  {
  }

  /** Whatever the chunks written and the sizes read, a segment gives back the bytes that
      went in, followed by less than one block of padding. */
  method WriteThenRead(chunks: seq<seq<byte>>, m: nat, capacity: nat) returns (ok: bool, data: seq<byte>)
    requires m > 0
    ensures ok ==> Concat(chunks) <= data
    ensures ok ==> |data| == (|Concat(chunks)| + BLOCK_SIZE - 1) / BLOCK_SIZE * BLOCK_SIZE
    ensures capacity == 0 ==> ok
  {
    hide Concat, Segment, SegmentEnd, Usage;
    var tape := new FakeTape([], capacity);
    ghost var blocks;
    data := [];
    ok, blocks := WriteStream(tape, chunks);
    if ok {
      ok := tape.Write(Mark);
    }
    if ok {
      assert tape.items[..0] == [];
      assert tape.items == Blocks(blocks) + [Mark];
      SegmentOf(tape.items, 0, blocks);
      ConcatLength(blocks);
      tape.Rewind();
      var r := new TapeBlockReader(tape);
      data := r.Drain(m);
    }
  }
}
