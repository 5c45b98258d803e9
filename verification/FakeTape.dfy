/** The item-list tape, the machine every use case of this model runs on. Each method
    performs one move of the abstract machine (internal/testutil/faketape.go). A
    capacity of 0 gives the test double of the repository; a limit adds the refusal rule
    of the file tape. */
module FakeTapes {
  import opened Domain
  import opened TapeMachine

  class FakeTape {
    var items: seq<Item>
    var pos: nat
    const capacity: nat

    ghost predicate Valid()
      reads this
    {
      pos <= |items|
    }

    function View(): Tape
      reads this
    {
      Tape(items, pos, capacity)
    }

    constructor (items: seq<Item>, capacity: nat)
      ensures Valid() && View() == Tape(items, 0, capacity)
    {
      this.items := items;
      this.capacity := capacity;
      pos := 0;
    }

    method Rewind()
      modifies this`pos
      ensures Valid() && View() == Rewound(old(View()))
    {
      pos := 0;
    }

    method ReadBlock() returns (r: Reading)
      requires Valid()
      modifies this`pos
      ensures Valid() && View() == ReadNext(old(View()))
      ensures r == ReadResult(old(View()))
    {
      if pos >= |items| {
        return EndOfFile;
      }
      var item := items[pos];
      pos := pos + 1;
      if item.Mark? {
        return EndOfFile;
      }
      r := Data(item.data);
    }

    method Write(item: Item) returns (ok: bool)
      requires Valid()
      modifies this`items, this`pos
      ensures Valid() && View() == Put(old(View()), item)
      ensures ok == Fits(old(View()), item)
    {
      ok := capacity == 0 || Usage(items[..pos]) + Cost(item) <= capacity;
      if ok {
        items := items[..pos] + [item];
        pos := pos + 1;
      }
    }

    method ForwardFilemarks(n: int) returns (ok: bool)
      requires Valid()
      modifies this`pos
      ensures Valid() && items == old(items)
      ensures var p := Forward(items, old(pos), n);
        ok == p.Some? && pos == if ok then p.value else old(pos)
    {
      var skipped := 0;
      var i := pos;
      while i < |items|
        invariant old(pos) <= i <= |items| && pos == old(pos) && items == old(items)
        invariant skipped >= 0
        invariant n > 0 ==> n > skipped && Forward(items, old(pos), n) == Forward(items, i, n - skipped)
      {
        if items[i].Mark? {
          skipped := skipped + 1;
          if skipped == n {
            pos := i + 1;
            return true;
          }
        }
        i := i + 1;
      }
      ok := false;
    }

    method BackwardFilemarks(n: int) returns (ok: bool)
      requires Valid()
      modifies this`pos
      ensures Valid() && items == old(items)
      ensures var p := Backward(items, old(pos), n);
        ok == p.Some? && pos == if ok then p.value else old(pos)
    {
      var found := 0;
      var i := pos;
      while i > 0
        invariant 0 <= i <= old(pos) && pos == old(pos) && items == old(items)
        invariant found >= 0
        invariant n > 0 ==> n > found && Backward(items, old(pos), n) == Backward(items, i, n - found)
      {
        if items[i - 1].Mark? {
          found := found + 1;
          if found == n {
            pos := i;
            return true;
          }
        }
        i := i - 1;
      }
      ok := false;
    }
  }
}
