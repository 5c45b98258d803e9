/** The tape as an abstract machine: a sequence of blocks and filemarks, a position, and
    a capacity. Any write cuts off what lies behind it; a write that does not fit is
    refused and changes nothing.

    Items and moves are those of internal/testutil/faketape.go:57-168; the capacity
    rule is that of internal/adapter/filetape/filetape.go:311-379. */
module TapeMachine {
  import opened Domain

  type byte = x: int | 0 <= x < 256
  type Block = seq<byte>

  datatype Item = Blk(data: Block) | Mark

  // capacity 0: no limit.
  datatype Tape = Tape(items: seq<Item>, pos: nat, capacity: nat) {
    predicate Valid() { pos <= |items| }
  }

  datatype Reading = Data(block: Block) | EndOfFile

  // ----- Counting -------------------------------------------------------------------

  function Marks(items: seq<Item>): nat {
    if items == [] then 0
    else Marks(items[..|items| - 1]) + if items[|items| - 1].Mark? then 1 else 0
  }

  function Cost(item: Item): nat {
    if item.Mark? then 1 else BLOCK_SIZE
  }

  function Usage(items: seq<Item>): nat {
    if items == [] then 0 else Usage(items[..|items| - 1]) + Cost(items[|items| - 1])
  }

  // ----- Moves ----------------------------------------------------------------------

  /** Position right behind the n-th filemark at or after `from`. */
  function Forward(items: seq<Item>, from: nat, n: int): (r: Option<nat>)
    requires from <= |items|
    ensures r.Some? ==> from < r.value <= |items|
    decreases |items| - from
  {
    if n <= 0 || from == |items| then None
    else if !items[from].Mark? then Forward(items, from + 1, n)
    else if n == 1 then Some(from + 1)
    else Forward(items, from + 1, n - 1)
  }

  /** Position right behind the n-th filemark before `from`, counted backwards. */
  function Backward(items: seq<Item>, from: nat, n: int): (r: Option<nat>)
    requires from <= |items|
    ensures r.Some? ==> 0 < r.value <= from
    decreases from
  {
    if n <= 0 || from == 0 then None
    else if !items[from - 1].Mark? then Backward(items, from - 1, n)
    else if n == 1 then Some(from)
    else Backward(items, from - 1, n - 1)
  }

  // ----- Operations -----------------------------------------------------------------

  function Rewound(t: Tape): Tape { t.(pos := 0) }

  predicate Fits(t: Tape, item: Item)
    requires t.Valid()
  {
    t.capacity == 0 || Usage(t.items[..t.pos]) + Cost(item) <= t.capacity
  }

  /** The tape after writing an item: everything behind the position is gone. */
  function Put(t: Tape, item: Item): (r: Tape)
    requires t.Valid()
    ensures r.Valid()
  {
    if Fits(t, item) then Tape(t.items[..t.pos] + [item], t.pos + 1, t.capacity) else t
  }

  /** A read takes one block, or consumes a filemark; at the end of data it stays. */
  function ReadResult(t: Tape): Reading
    requires t.Valid()
  {
    if t.pos < |t.items| && t.items[t.pos].Blk? then Data(t.items[t.pos].data) else EndOfFile
  }

  function ReadNext(t: Tape): (r: Tape)
    requires t.Valid()
    ensures r.Valid()
  {
    if t.pos < |t.items| then t.(pos := t.pos + 1) else t
  }

  /** Exactly these items were written, one after the other, from the position on. What
      lies before the position stays; what lay behind it is gone once an item is written. */
  ghost predicate Wrote(before: Tape, after: Tape, added: seq<Item>)
    requires before.Valid()
  {
    && after.capacity == before.capacity
    && after.pos == before.pos + |added| <= |after.items|
    && after.items[..after.pos] == before.items[..before.pos] + added
    && if added == [] then after == before
       else after.pos == |after.items| && (after.capacity > 0 ==> Usage(after.items) <= after.capacity)
  }

  lemma WroteNothing(t: Tape)
    requires t.Valid()
    ensures Wrote(t, t, [])
  {
  }

  lemma WroteOne(t: Tape, item: Item)
    requires t.Valid() && Fits(t, item)
    ensures Wrote(t, Put(t, item), [item])
  {
    UsageConcat(t.items[..t.pos], [item]);
    UsageOne(item);
  }

  lemma WroteTwice(a: Tape, b: Tape, c: Tape, x: seq<Item>, y: seq<Item>)
    requires a.Valid() && b.Valid() && Wrote(a, b, x) && Wrote(b, c, y)
    ensures Wrote(a, c, x + y)
  {
    assert a.items[..a.pos] + (x + y) == a.items[..a.pos] + x + y;
  }

  // ----- Laws of counting -----------------------------------------------------------

  lemma {:induction false} MarksConcat(a: seq<Item>, b: seq<Item>)
    ensures Marks(a + b) == Marks(a) + Marks(b)
  {
    if b == [] {
      assert a + b == a;
    } else {
      assert (a + b)[..|a + b| - 1] == a + b[..|b| - 1];
      MarksConcat(a, b[..|b| - 1]);
    }
  }

  lemma {:induction false} UsageConcat(a: seq<Item>, b: seq<Item>)
    ensures Usage(a + b) == Usage(a) + Usage(b)
  {
    if b == [] {
      assert a + b == a;
    } else {
      assert (a + b)[..|a + b| - 1] == a + b[..|b| - 1];
      UsageConcat(a, b[..|b| - 1]);
    }
  }

  lemma MarksSplit(items: seq<Item>, i: nat, j: nat, k: nat)
    requires i <= j <= k <= |items|
    ensures Marks(items[i..k]) == Marks(items[i..j]) + Marks(items[j..k])
  {
    assert items[i..k] == items[i..j] + items[j..k];
    MarksConcat(items[i..j], items[j..k]);
  }

  lemma MarksOne(item: Item)
    ensures Marks([item]) == if item.Mark? then 1 else 0
  {
    assert [item][..0] == [];
  }

  lemma UsageOne(item: Item)
    ensures Usage([item]) == Cost(item)
  {
    assert [item][..0] == [];
  }

  lemma MarksHead(items: seq<Item>, i: nat, k: nat)
    requires i < k <= |items|
    ensures Marks(items[i..k]) == (if items[i].Mark? then 1 else 0) + Marks(items[i + 1..k])
  {
    MarksSplit(items, i, i + 1, k);
    assert items[i..i + 1] == [items[i]];
    MarksOne(items[i]);
  }

  lemma MarksLast(items: seq<Item>, i: nat, k: nat)
    requires i < k <= |items|
    ensures Marks(items[i..k]) == Marks(items[i..k - 1]) + (if items[k - 1].Mark? then 1 else 0)
  {
    MarksSplit(items, i, k - 1, k);
    assert items[k - 1..k] == [items[k - 1]];
    MarksOne(items[k - 1]);
  }

  // ----- Moves, by counting ---------------------------------------------------------

  /** Moving forward ends at p exactly when p lies behind a mark and n marks lie between. */
  lemma {:induction false} ForwardExactly(items: seq<Item>, from: nat, n: int, p: nat)
    requires from <= |items|
    ensures Forward(items, from, n) == Some(p)
      <==> n > 0 && from < p <= |items| && items[p - 1].Mark? && Marks(items[from..p]) == n
    decreases |items| - from
  {
    hide Marks;
    if n <= 0 || from == |items| {
      return;
    }
    if from < p <= |items| {
      MarksHead(items, from, p);
      if p == from + 1 {
        assert items[p..p] == [];
        MarksNone();
      }
    }
    ForwardExactly(items, from + 1, if items[from].Mark? then n - 1 else n, p);
    if n == 1 && items[from].Mark? && from + 1 < p <= |items| && items[p - 1].Mark? {
      MarksLast(items, from + 1, p);
    }
  }

  lemma MarksNone()
    ensures Marks([]) == 0
  {
  }

  /** Moving backward ends at p exactly when p lies behind a mark and the n-1 nearer marks
      lie between p and the start. */
  lemma {:induction false} BackwardExactly(items: seq<Item>, from: nat, n: int, p: nat)
    requires from <= |items|
    ensures Backward(items, from, n) == Some(p)
      <==> n > 0 && 0 < p <= from && items[p - 1].Mark? && Marks(items[p..from]) == n - 1
    decreases from
  {
    hide Marks;
    if n <= 0 || from == 0 {
      return;
    }
    MarksNone();
    if p == from {
      assert items[p..from] == [];
    } else if 0 < p < from {
      MarksLast(items, p, from);
    }
    BackwardExactly(items, from - 1, if items[from - 1].Mark? then n - 1 else n, p);
  }

  /** There is a place to move to exactly when enough marks lie ahead. */
  lemma {:induction false} ForwardSucceeds(items: seq<Item>, from: nat, n: int)
    requires from <= |items| && n > 0
    ensures Forward(items, from, n).Some? <==> n <= Marks(items[from..])
    decreases |items| - from
  {
    hide Marks;
    MarksNone();
    assert items[|items|..] == [];
    if from < |items| {
      MarksHead(items, from, |items|);
      assert items[from..|items|] == items[from..] && items[from + 1..|items|] == items[from + 1..];
      var n' := if items[from].Mark? then n - 1 else n;
      if n' > 0 {
        ForwardSucceeds(items, from + 1, n');
      }
    }
  }

  // ----- Segments ---------------------------------------------------------------------

  function Blocks(bs: seq<Block>): (r: seq<Item>)
    ensures |r| == |bs| && forall i :: 0 <= i < |r| ==> r[i] == Blk(bs[i])
  {
    seq(|bs|, i requires 0 <= i < |bs| => Blk(bs[i]))
  }

  /** Blocks from a position up to the next mark or the end of data. */
  function Segment(items: seq<Item>, pos: nat): (r: seq<Block>)
    requires pos <= |items|
    ensures pos + |r| <= |items|
    ensures items[pos..pos + |r|] == Blocks(r)
    ensures pos + |r| < |items| ==> items[pos + |r|].Mark?
    decreases |items| - pos
  {
    if pos == |items| || items[pos].Mark? then []
    else
      var rest := Segment(items, pos + 1);
      assert items[pos..pos + 1 + |rest|] == [items[pos]] + items[pos + 1..pos + 1 + |rest|];
      [items[pos].data] + rest
  }

  /** Position after reading a whole segment: behind its mark, if it has one. */
  function SegmentEnd(items: seq<Item>, pos: nat): (r: nat)
    requires pos <= |items|
    ensures pos <= r <= |items|
  {
    var e := pos + |Segment(items, pos)|;
    if e < |items| then e + 1 else e
  }

  function Concat(bs: seq<Block>): seq<byte> {
    if bs == [] then [] else bs[0] + Concat(bs[1..])
  }

  ghost predicate FullBlocks(bs: seq<Block>) {
    forall i :: 0 <= i < |bs| ==> |bs[i]| == BLOCK_SIZE
  }

  lemma {:induction false} ConcatSnoc(bs: seq<Block>, b: Block)
    ensures Concat(bs + [b]) == Concat(bs) + b
  {
    if bs == [] {
      assert [b][1..] == [];
      assert [] + [b] == [b] && b + [] == b;
    } else {
      ConcatSnoc(bs[1..], b);
      assert (bs + [b])[1..] == bs[1..] + [b];
      assert bs[0] + (Concat(bs[1..]) + b) == bs[0] + Concat(bs[1..]) + b;
    }
  }

  lemma {:induction false} ConcatLength(bs: seq<Block>)
    requires FullBlocks(bs)
    ensures |Concat(bs)| == |bs| * BLOCK_SIZE
  {
    if bs != [] {
      ConcatLength(bs[1..]);
    }
  }

  /** Reading one item takes the first block off the segment, or ends it. */
  lemma SegmentStep(items: seq<Item>, pos: nat)
    requires pos <= |items|
    ensures pos < |items| && items[pos].Blk? ==>
      && Concat(Segment(items, pos)) == items[pos].data + Concat(Segment(items, pos + 1))
      && SegmentEnd(items, pos) == SegmentEnd(items, pos + 1)
    ensures pos == |items| || items[pos].Mark? ==>
      && Concat(Segment(items, pos)) == []
      && SegmentEnd(items, pos) == if pos == |items| then pos else pos + 1
  {
    if pos < |items| && items[pos].Blk? {
      var rest := Segment(items, pos + 1);
      assert ([items[pos].data] + rest)[1..] == rest;
    }
  }

  /** A segment known by its layout is read as laid out. */
  lemma {:induction false} SegmentOf(items: seq<Item>, pos: nat, bs: seq<Block>)
    requires pos + |bs| <= |items| && items[pos..pos + |bs|] == Blocks(bs)
    requires pos + |bs| < |items| ==> items[pos + |bs|].Mark?
    ensures Segment(items, pos) == bs
    decreases |bs|
  {
    if bs != [] {
      assert items[pos] == items[pos..pos + |bs|][0] == Blk(bs[0]);
      assert items[pos + 1..pos + |bs|] == items[pos..pos + |bs|][1..];
      SegmentOf(items, pos + 1, bs[1..]);
    }
  }
}
