/** The tape kept in a file: a magic header followed by framed records
    (internal/adapter/filetape/filetape.go). Parsing the frames gives the items of the
    abstract machine, and every method performs exactly one of its moves. */
module FileTapes {
  import opened Domain
  import opened TapeMachine

  // "FTAPEV1" and a zero byte
  const MAGIC: seq<byte> := [70, 84, 65, 80, 69, 86, 49, 0]
  const MAGIC_SIZE: nat := 8
  const HDR_SIZE: nat := 5
  const REC_DATA: byte := 1
  const REC_FILEMARK: byte := 2

  // ----- Records --------------------------------------------------------------------

  datatype Record = Record(typ: byte, next: nat)

  function GetUint32(b: seq<byte>): (r: nat)
    requires |b| == 4
  {
    b[0] as int + 256 * b[1] as int + 65536 * b[2] as int + 16777216 * b[3] as int
  }

  /** Header of the record at an offset; None if it cannot be read, has an unknown type,
      or reaches beyond the data. */
  function RecordAt(f: seq<byte>, off: nat): (r: Option<Record>)
    ensures r.Some? ==> off + HDR_SIZE <= r.value.next <= |f|
  {
    if off + HDR_SIZE > |f| then None
    else if f[off] != REC_DATA && f[off] != REC_FILEMARK then None
    else
      var next := off + HDR_SIZE + GetUint32(f[off + 1..off + HDR_SIZE]);
      if next > |f| then None else Some(Record(f[off], next))
  }

  function ItemAt(f: seq<byte>, off: nat, rec: Record): Item
    requires off + HDR_SIZE <= rec.next <= |f|
  {
    if rec.typ == REC_FILEMARK then Mark else Blk(f[off + HDR_SIZE..rec.next])
  }

  /** Items of the records that fill the bytes between two offsets. */
  function Parse(f: seq<byte>, from: nat, to: nat): Option<seq<Item>>
    decreases to - from
  {
    if from == to then Some([])
    else
      var rec := RecordAt(f, from);
      if rec.None? || rec.value.next > to then None
      else
        var rest := Parse(f, rec.value.next, to);
        if rest.None? then None else Some([ItemAt(f, from, rec.value)] + rest.value)
  }

  ghost predicate Boundary(f: seq<byte>, off: nat) {
    MAGIC_SIZE <= off <= |f| && Parse(f, MAGIC_SIZE, off).Some?
  }

  ghost function ItemsUpTo(f: seq<byte>, off: nat): seq<Item>
    requires Boundary(f, off)
  {
    Parse(f, MAGIC_SIZE, off).value
  }

  ghost predicate WellFormed(f: seq<byte>) {
    |f| >= MAGIC_SIZE && f[..MAGIC_SIZE] == MAGIC && Boundary(f, |f|)
  }

  lemma {:induction false} ParseJoin(f: seq<byte>, a: nat, b: nat, c: nat)
    requires a <= b <= c && Parse(f, a, b).Some?
    ensures Parse(f, a, c)
         == if Parse(f, b, c).Some? then Some(Parse(f, a, b).value + Parse(f, b, c).value) else None
    decreases b - a
  {
    hide RecordAt, ItemAt;
    if a == b {
      if Parse(f, b, c).Some? {
        assert [] + Parse(f, b, c).value == Parse(f, b, c).value;
      }
    } else {
      var next := RecordAt(f, a).value.next;
      ParseJoin(f, next, b, c);
      if Parse(f, b, c).Some? {
        var item := ItemAt(f, a, RecordAt(f, a).value);
        var x, y := Parse(f, next, b).value, Parse(f, b, c).value;
        assert [item] + (x + y) == [item] + x + y;
      }
    }
  }

  lemma SameSlice(f: seq<byte>, g: seq<byte>, b: nat, i: nat, j: nat)
    requires i <= j <= b <= |f| && b <= |g| && f[..b] == g[..b]
    ensures f[i..j] == g[i..j]
  {
    forall k | i <= k < j
      ensures f[k] == g[k]
    {
      assert f[k] == f[..b][k] && g[k] == g[..b][k];
    }
  }

  // What is parsed depends only on the bytes before the end of the range.
  lemma {:induction false} ParseFrame(f: seq<byte>, g: seq<byte>, a: nat, b: nat)
    requires a <= b <= |f| && b <= |g| && f[..b] == g[..b]
    ensures Parse(f, a, b) == Parse(g, a, b)
    decreases b - a
  {
    if a < b {
      assert f[a] == f[..b][a] && g[a] == g[..b][a];
      if a + HDR_SIZE <= b {
        SameSlice(f, g, b, a + 1, a + HDR_SIZE);
        var next := a + HDR_SIZE + GetUint32(f[a + 1..a + HDR_SIZE]);
        if next <= b {
          SameSlice(f, g, b, a + HDR_SIZE, next);
          ParseFrame(f, g, next, b);
        }
      }
    }
  }

  lemma OneRecord(f: seq<byte>, off: nat)
    requires RecordAt(f, off).Some?
    ensures var rec := RecordAt(f, off).value;
      Parse(f, off, rec.next) == Some([ItemAt(f, off, rec)])
  {
    var rec := RecordAt(f, off).value;
    assert Parse(f, rec.next, rec.next) == Some([]);
    assert [ItemAt(f, off, rec)] + [] == [ItemAt(f, off, rec)];
  }

  /** At a record boundary before the end there is one more record. */
  lemma NextRecord(f: seq<byte>, off: nat)
    requires WellFormed(f) && Boundary(f, off) && off < |f|
    ensures RecordAt(f, off).Some? && Boundary(f, RecordAt(f, off).value.next)
    ensures var rec := RecordAt(f, off).value;
      ItemsUpTo(f, rec.next) == ItemsUpTo(f, off) + [ItemAt(f, off, rec)]
  {
    ParseJoin(f, MAGIC_SIZE, off, |f|);
    var rec := RecordAt(f, off).value;
    OneRecord(f, off);
    ParseJoin(f, MAGIC_SIZE, off, rec.next);
  }

  /** The items up to a boundary are a prefix of all items. */
  lemma ItemsArePrefix(f: seq<byte>, off: nat)
    requires WellFormed(f) && Boundary(f, off)
    ensures ItemsUpTo(f, off) <= ItemsUpTo(f, |f|)
    ensures off < |f| ==> |ItemsUpTo(f, off)| < |ItemsUpTo(f, |f|)|
  {
    ParseJoin(f, MAGIC_SIZE, off, |f|);
  }

  // ----- Encoding of records ----------------------------------------------------------

  function PutUint32(n: nat): seq<byte>
    requires n < 0x1_0000_0000
  {
    var q1 := n / 256;
    var q2 := q1 / 256;
    [n % 256, q1 % 256, q2 % 256, q2 / 256]
  }

  lemma Uint32RoundTrip(n: nat)
    requires n < 0x1_0000_0000
    ensures GetUint32(PutUint32(n)) == n
  {
  }

  // A block is stored filled up with zeros.
  function Padded(block: Block): Block
    requires |block| <= BLOCK_SIZE
  {
    block + seq(BLOCK_SIZE - |block|, _ => 0)
  }

  function DataRecord(block: Block): seq<byte>
    requires |block| <= BLOCK_SIZE
  {
    [REC_DATA] + PutUint32(BLOCK_SIZE) + Padded(block)
  }

  const MARK_RECORD: seq<byte> := [REC_FILEMARK, 0, 0, 0, 0]

  ghost predicate Encodes(rec: seq<byte>, item: Item) {
    forall f: seq<byte> :: Parse(f + rec, |f|, |f + rec|) == Some([item])
  }

  lemma DataRecordEncodes(block: Block)
    requires |block| <= BLOCK_SIZE
    ensures Encodes(DataRecord(block), Blk(Padded(block)))
  {
    Uint32RoundTrip(BLOCK_SIZE);
    forall f: seq<byte>
      ensures Parse(f + DataRecord(block), |f|, |f + DataRecord(block)|) == Some([Blk(Padded(block))])
    {
      var g := f + DataRecord(block);
      assert g[|f|] == REC_DATA;
      assert g[|f| + 1..|f| + HDR_SIZE] == PutUint32(BLOCK_SIZE);
      assert g[|f| + HDR_SIZE..|g|] == Padded(block);
      var rec := RecordAt(g, |f|);
      assert rec == Some(Record(REC_DATA, |g|));
      OneRecord(g, |f|);
    }
  }

  lemma MarkRecordEncodes()
    ensures Encodes(MARK_RECORD, Mark)
  {
    forall f: seq<byte>
      ensures Parse(f + MARK_RECORD, |f|, |f + MARK_RECORD|) == Some([Mark])
    {
      var g := f + MARK_RECORD;
      assert g[|f|] == REC_FILEMARK;
      assert g[|f| + 1..|f| + HDR_SIZE] == [0, 0, 0, 0];
      assert RecordAt(g, |f|) == Some(Record(REC_FILEMARK, |g|));
      OneRecord(g, |f|);
    }
  }

  /** Cutting the file at a boundary and appending a record writes one item. */
  lemma AppendRecord(f: seq<byte>, off: nat, rec: seq<byte>, item: Item)
    requires WellFormed(f) && Boundary(f, off) && Encodes(rec, item)
    ensures var g := f[..off] + rec;
      && WellFormed(g)
      && ItemsUpTo(g, |g|) == ItemsUpTo(f, off) + [item]
  {
    hide Encodes;
    var g := f[..off] + rec;
    assert |f[..off]| == off;
    assert Parse(g, off, |g|) == Some([item]) by {
      EncodesAt(f[..off], rec, item);
    }
    assert g[..off] == f[..off];
    ParseFrame(f, g, MAGIC_SIZE, off);
    ParseJoin(g, MAGIC_SIZE, off, |g|);
    assert g[..MAGIC_SIZE] == f[..off][..MAGIC_SIZE] == f[..MAGIC_SIZE];
  }

  lemma EncodesAt(f: seq<byte>, rec: seq<byte>, item: Item)
    requires Encodes(rec, item)
    ensures Parse(f + rec, |f|, |f + rec|) == Some([item])
  {
  }

  // ----- The tape ---------------------------------------------------------------------

  class FileTape {
    var file: seq<byte>
    var pos: nat
    var size: nat
    const capacity: nat
    var used: nat

    ghost predicate Valid()
      reads this
    {
      && WellFormed(file)
      && size == |file|
      && Boundary(file, pos)
      && (capacity > 0 ==> used == Usage(ItemsUpTo(file, size)))
    }

    /** The abstract tape this file stands for. */
    ghost function View(): (t: Tape)
      requires Valid()
      reads this
      ensures t.Valid()
    {
      ItemsArePrefix(file, pos);
      Tape(ItemsUpTo(file, size), |ItemsUpTo(file, pos)|, capacity)
    }

    constructor (content: seq<byte>, capacity: nat)
      ensures file == content && size == |content| && this.capacity == capacity && pos == MAGIC_SIZE && used == 0
    {
      file, size, this.capacity, pos, used := content, |content|, capacity, MAGIC_SIZE, 0;
    }

    /** Opening succeeds on a new file and on a tape file; with a limit the records are
        also parsed to find the space in use. */
    static method Open(content: seq<byte>, capacity: nat) returns (t: FileTape?)
      ensures t != null ==> fresh(t) && t.capacity == capacity
      ensures content == [] ==> t != null && t.Valid() && t.View() == Tape([], 0, capacity)
      ensures content != [] && capacity > 0 ==> (t != null <==> WellFormed(content))
      ensures content != [] && capacity == 0 ==> (t != null <==> MAGIC <= content)
      ensures content != [] && t != null ==> t.file == content && t.size == |content| && t.pos == MAGIC_SIZE
      ensures content != [] && WellFormed(content) ==>
        t != null && t.Valid() && t.View() == Tape(ItemsUpTo(content, |content|), 0, capacity)
    {
      if |content| == 0 {
        t := new FileTape(MAGIC, capacity);
      } else if |content| < MAGIC_SIZE || content[..MAGIC_SIZE] != MAGIC {
        return null;
      } else {
        t := new FileTape(content, capacity);
      }
      if capacity > 0 {
        var used := t.UsageUpTo(t.size);
        if used.None? {
          return null;
        }
        t.used := used.value;
      }
    }

    /** Space taken by the records before an offset; None if they do not parse. The offset
        is a record boundary or the end of the data. */
    method UsageUpTo(off: nat) returns (r: Option<nat>)
      requires MAGIC_SIZE <= off <= |file|
      requires off == |file| || Boundary(file, off)
      ensures r.Some? <==> Boundary(file, off)
      ensures r.Some? ==> r.value == Usage(ItemsUpTo(file, off))
    {
      var used, cur := 0, MAGIC_SIZE;
      ghost var items: seq<Item> := [];
      while cur < off
        invariant MAGIC_SIZE <= cur <= off
        invariant Parse(file, MAGIC_SIZE, cur) == Some(items) && used == Usage(items)
      {
        var rec := RecordAt(file, cur);
        ParseJoin(file, MAGIC_SIZE, cur, off);
        if rec.None? {
          return None;
        }
        OneRecord(file, cur);
        ParseJoin(file, MAGIC_SIZE, cur, rec.value.next);
        ghost var item := ItemAt(file, cur, rec.value);
        UsageConcat(items, [item]);
        UsageOne(item);
        used := used + if rec.value.typ == REC_DATA then BLOCK_SIZE else 1;
        items := items + [item];
        cur := rec.value.next;
      }
      r := Some(used);
    }

    method Rewind()
      requires Valid()
      modifies this`pos
      ensures Valid() && View() == Rewound(old(View()))
    {
      pos := MAGIC_SIZE;
      assert Parse(file, MAGIC_SIZE, MAGIC_SIZE) == Some([]);
    }

    method EndOfData()
      requires Valid()
      modifies this`pos
      ensures Valid() && View() == old(View()).(pos := |old(View()).items|)
    {
      pos := size;
    }

    method ReadBlock() returns (r: Reading)
      requires Valid()
      modifies this`pos
      ensures Valid() && View() == ReadNext(old(View()))
      ensures r == ReadResult(old(View()))
    {
      ItemsArePrefix(file, pos);
      if pos >= size {
        return EndOfFile;
      }
      NextRecord(file, pos);
      var rec := RecordAt(file, pos).value;
      ItemsArePrefix(file, rec.next);
      assert ItemsUpTo(file, rec.next)[|ItemsUpTo(file, pos)|] == ItemAt(file, pos, rec);
      if rec.typ == REC_FILEMARK {
        pos := rec.next;
        return EndOfFile;
      }
      r := Data(file[pos + HDR_SIZE..rec.next]);
      pos := rec.next;
    }

    // Writes one record at the position; a record that does not fit is refused before
    // anything changes.
    method Append(rec: seq<byte>, ghost item: Item) returns (ok: bool)
      requires Valid() && rec != []
      requires Encodes(rec, item) && (rec[0] == REC_DATA <==> item.Blk?)
      modifies this`file, this`pos, this`size, this`used
      ensures Valid() && View() == Put(old(View()), item)
      ensures ok == Fits(old(View()), item)
      ensures !ok ==> unchanged(this)
    {
      ItemsArePrefix(file, pos);
      ghost var before := View();
      assert before.items[..before.pos] == ItemsUpTo(file, pos);
      var base := used;
      var cost := if rec[0] == REC_DATA then BLOCK_SIZE else 1;
      if capacity > 0 {
        if pos < size {
          var b := UsageUpTo(pos);
          base := b.value;
        }
        if base + cost > capacity {
          return false;
        }
      }
      AppendRecord(file, pos, rec, item);
      UsageConcat(ItemsUpTo(file, pos), [item]);
      UsageOne(item);
      file := file[..pos] + rec;
      pos := |file|;
      size := |file|;
      if capacity > 0 {
        used := base + cost;
      }
      ok := true;
    }

    /** Writes a block filled up with zeros; a block longer than a tape block is an error. */
    method WriteBlock(block: Block) returns (ok: bool)
      requires Valid()
      modifies this`file, this`pos, this`size, this`used
      ensures Valid()
      ensures |block| <= BLOCK_SIZE ==>
        ok == Fits(old(View()), Blk(Padded(block))) && View() == Put(old(View()), Blk(Padded(block)))
      ensures |block| > BLOCK_SIZE ==> !ok
      ensures !ok ==> unchanged(this)
    {
      if |block| > BLOCK_SIZE {
        return false;
      }
      DataRecordEncodes(block);
      ok := Append(DataRecord(block), Blk(Padded(block)));
    }

    method WriteEOF() returns (ok: bool)
      requires Valid()
      modifies this`file, this`pos, this`size, this`used
      ensures Valid() && View() == Put(old(View()), Mark)
      ensures ok == Fits(old(View()), Mark)
      ensures !ok ==> unchanged(this)
    {
      MarkRecordEncodes();
      ok := Append(MARK_RECORD, Mark);
    }

    method ForwardFilemarks(n: int) returns (ok: bool)
      requires Valid()
      modifies this`pos
      ensures Valid()
      ensures var t, p := old(View()), Forward(old(View()).items, old(View()).pos, n);
        ok == p.Some? && View() == t.(pos := if ok then p.value else t.pos)
    {
      ghost var t := View();
      ItemsArePrefix(file, pos);
      if n <= 0 {
        return false;
      }
      var found, off := 0, pos;
      while off < size
        invariant unchanged(this) && Boundary(file, off) && off <= size
        invariant 0 <= found < n
        invariant ItemsUpTo(file, off) <= t.items
        invariant Forward(t.items, t.pos, n) == Forward(t.items, |ItemsUpTo(file, off)|, n - found)
        decreases size - off
      {
        NextRecord(file, off);
        var rec := RecordAt(file, off).value;
        ItemsArePrefix(file, rec.next);
        assert ItemsUpTo(file, rec.next)[|ItemsUpTo(file, off)|] == ItemAt(file, off, rec);
        if rec.typ == REC_FILEMARK {
          found := found + 1;
          if found == n {
            pos := rec.next;
            return true;
          }
        }
        off := rec.next;
      }
      ok := false;
    }

    method BackwardFilemarks(n: int) returns (ok: bool)
      requires Valid()
      modifies this`pos
      ensures Valid()
      ensures var t, p := old(View()), Backward(old(View()).items, old(View()).pos, n);
        ok == p.Some? && View() == t.(pos := if ok then p.value else t.pos)
    {
      ghost var t := View();
      if n <= 0 {
        return false;
      }
      var markEnds := MarkEnds();
      assert Marks(t.items[0..t.pos]) == |markEnds| by {
        ItemsArePrefix(file, pos);
        assert t.items[0..t.pos] == ItemsUpTo(file, pos);
      }
      if |markEnds| < n {
        NoMarkBehind(t.items, t.pos, n);
        return false;
      }
      pos := markEnds[|markEnds| - n];
      ghost var p := |ItemsUpTo(file, pos)|;
      ItemsArePrefix(file, pos);
      assert t.items[0..p] == ItemsUpTo(file, pos);
      MarksSplit(t.items, 0, p, t.pos);
      BackwardExactly(t.items, t.pos, n, p);
      ok := true;
    }

    // Offsets right behind the filemarks before the position, in order.
    method MarkEnds() returns (ends: seq<nat>)
      requires Valid()
      ensures |ends| == Marks(ItemsUpTo(file, pos))
      ensures forall k :: 0 <= k < |ends| ==> IsMarkEnd(file, ends[k], k + 1, pos)
    {
      ends := [];
      var off := MAGIC_SIZE;
      assert Parse(file, MAGIC_SIZE, MAGIC_SIZE) == Some([]);
      while off < pos
        invariant Boundary(file, off) && off <= pos
        invariant |ends| == Marks(ItemsUpTo(file, off))
        invariant forall k :: 0 <= k < |ends| ==> IsMarkEnd(file, ends[k], k + 1, pos)
        decreases pos - off
      {
        NextRecord(file, off);
        ParseJoin(file, MAGIC_SIZE, off, pos);
        var rec := RecordAt(file, off).value;
        ghost var item := ItemAt(file, off, rec);
        MarksConcat(ItemsUpTo(file, off), [item]);
        MarksOne(item);
        ParseJoin(file, MAGIC_SIZE, rec.next, pos);
        if rec.typ == REC_FILEMARK {
          ends := ends + [rec.next];
          assert IsMarkEnd(file, rec.next, |ends|, pos);
        }
        off := rec.next;
      }
    }
  }

  // The k-th filemark ends at this offset, at or before the limit.
  ghost predicate IsMarkEnd(f: seq<byte>, off: nat, k: nat, limit: nat) {
    && Boundary(f, off) && Boundary(f, limit)
    && var items := ItemsUpTo(f, off);
       items != [] && items[|items| - 1].Mark? && Marks(items) == k && |items| <= |ItemsUpTo(f, limit)|
  }

  lemma NoMarkBehind(items: seq<Item>, pos: nat, n: int)
    requires pos <= |items| && n > Marks(items[0..pos])
    ensures Backward(items, pos, n).None?
  {
    var r := Backward(items, pos, n);
    if r.Some? {
      BackwardExactly(items, pos, n, r.value);
      MarksSplit(items, 0, r.value, pos);
      MarksLast(items, 0, r.value);
    }
  }
}
