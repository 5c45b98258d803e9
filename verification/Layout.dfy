/** The layout of a cartridge: label, sessions of two segments each, and what closes the
    tape (docs/FORMAT.md, sections 3 and 3.1). Positions follow from counting marks. */
module Layout {
  import opened Domain
  import opened TapeMachine

  // A session as it lies on the tape: the blocks of its index and of its tar stream.
  datatype Recorded = Recorded(index: seq<Block>, tar: seq<Block>)

  // What follows the sessions: at most one pointer block and up to two marks. A pair of
  // marks closes the tape; fewer are left by formatting (one) or by a full tape.
  datatype Tail = Tail(pointer: seq<Block>, marks: nat)

  // capacity 0: no limit.
  datatype Cart = Cart(heading: Block, sessions: seq<Recorded>, tail: Tail, capacity: nat)

  const CLOSED := Tail([], 2)

  function MarkRun(n: nat): (r: seq<Item>)
    ensures |r| == n && forall i :: 0 <= i < n ==> r[i].Mark?
  {
    seq(n, _ => Mark)
  }

  function SessionItems(s: Recorded): seq<Item> {
    Blocks(s.index) + [Mark] + Blocks(s.tar) + [Mark]
  }

  function TailItems(t: Tail): seq<Item> {
    Blocks(t.pointer) + MarkRun(t.marks)
  }

  function Body(heading: Block, ss: seq<Recorded>): (r: seq<Item>)
    ensures |r| >= 2 && r[|r| - 1].Mark?
  {
    if ss == [] then [Blk(heading), Mark]
    else Body(heading, ss[..|ss| - 1]) + SessionItems(ss[|ss| - 1])
  }

  function Items(cart: Cart): seq<Item> {
    Body(cart.heading, cart.sessions) + TailItems(cart.tail)
  }

  ghost predicate WithinCapacity(cart: Cart) {
    cart.capacity > 0 ==> Usage(Items(cart)) <= cart.capacity
  }

  lemma ItemsAre(cart: Cart)
    ensures Items(cart) == Body(cart.heading, cart.sessions) + (Blocks(cart.tail.pointer) + MarkRun(cart.tail.marks))
  {
  }

  // ----- Counting ---------------------------------------------------------------------

  lemma {:induction false} MarksOfBlocks(bs: seq<Block>)
    ensures Marks(Blocks(bs)) == 0
  {
    if bs != [] {
      assert Blocks(bs)[..|bs| - 1] == Blocks(bs[..|bs| - 1]);
      MarksOfBlocks(bs[..|bs| - 1]);
    }
  }

  lemma MarksOfSession(s: Recorded)
    ensures Marks(SessionItems(s)) == 2
  {
    hide Marks;
    var a, b := Blocks(s.index), Blocks(s.tar);
    MarksOfBlocks(s.index);
    MarksOfBlocks(s.tar);
    MarksOne(Mark);
    MarksConcat(a, [Mark]);
    MarksConcat(a + [Mark], b);
    MarksConcat(a + [Mark] + b, [Mark]);
  }

  /** The label and k sessions hold 2k+1 marks. */
  lemma {:induction false} MarksOfBody(heading: Block, ss: seq<Recorded>)
    ensures Marks(Body(heading, ss)) == 2 * |ss| + 1
  {
    if ss == [] {
      assert Body(heading, ss) == [Blk(heading)] + [Mark];
      MarksConcat([Blk(heading)], [Mark]);
      MarksOne(Blk(heading));
      MarksOne(Mark);
    } else {
      var last := |ss| - 1;
      MarksOfBody(heading, ss[..last]);
      MarksOfSession(ss[last]);
      MarksConcat(Body(heading, ss[..last]), SessionItems(ss[last]));
    }
  }

  lemma {:induction false} MarksOfRun(n: nat)
    ensures Marks(MarkRun(n)) == n
  {
    if n > 0 {
      assert MarkRun(n)[..n - 1] == MarkRun(n - 1);
      MarksOfRun(n - 1);
    }
  }

  lemma BodySnoc(heading: Block, ss: seq<Recorded>, s: Recorded)
    ensures Body(heading, ss + [s]) == Body(heading, ss) + SessionItems(s)
  {
    assert (ss + [s])[..|ss|] == ss;
  }

  lemma BodyGrows(heading: Block, ss: seq<Recorded>, k: nat)
    requires k < |ss|
    ensures |Body(heading, ss[..k + 1])| == |Body(heading, ss[..k])| + |ss[k].index| + |ss[k].tar| + 2
  {
    hide Body;
    assert ss[..k + 1] == ss[..k] + [ss[k]];
    BodySnoc(heading, ss[..k], ss[k]);
  }

  /** The first k sessions are a prefix of the tape. */
  lemma {:induction false} BodyPrefix(heading: Block, ss: seq<Recorded>, k: nat)
    requires k <= |ss|
    ensures Body(heading, ss[..k]) <= Body(heading, ss)
    decreases |ss| - k
  {
    if k < |ss| {
      assert ss[..k + 1] == ss[..k] + [ss[k]];
      BodySnoc(heading, ss[..k], ss[k]);
      BodyPrefix(heading, ss, k + 1);
    } else {
      assert ss[..k] == ss;
    }
  }

  // ----- Positions --------------------------------------------------------------------

  /** Mark 2k+1 ends right behind the first k sessions: the place to append session k+1,
      and to read it. */
  lemma PositionOf(cart: Cart, k: nat)
    requires k <= |cart.sessions|
    ensures Forward(Items(cart), 0, 2 * k + 1) == Some(|Body(cart.heading, cart.sessions[..k])|)
    ensures Items(cart)[..|Body(cart.heading, cart.sessions[..k])|] == Body(cart.heading, cart.sessions[..k])
  {
    hide Marks, Body;
    var items, front := Items(cart), Body(cart.heading, cart.sessions[..k]);
    BodyPrefix(cart.heading, cart.sessions, k);
    assert items[0..|front|] == front;
    MarksOfBody(cart.heading, cart.sessions[..k]);
    assert items[|front| - 1] == front[|front| - 1];
    ForwardExactly(items, 0, 2 * k + 1, |front|);
  }

  /** The label block comes first; one mark behind it lies the first session. */
  lemma LabelAt(cart: Cart)
    ensures var items := Items(cart);
      && |items| > 1 && items[0] == Blk(cart.heading)
      && Forward(items, 0, 1) == Forward(items, 1, 1) == Some(|Body(cart.heading, [])|)
  {
    var items := Items(cart);
    PositionOf(cart, 0);
    assert cart.sessions[..0] == [];
    assert items[..2] == [Blk(cart.heading), Mark];
    assert items[0] == items[..2][0] && items[1] == items[..2][1];
  }

  // A session laid down at a place is read there.
  lemma SessionFrom(items: seq<Item>, at: nat, s: Recorded)
    requires at + |s.index| + |s.tar| + 2 <= |items|
    requires items[at..at + |s.index| + |s.tar| + 2] == SessionItems(s)
    ensures Segment(items, at) == s.index && SegmentEnd(items, at) == at + |s.index| + 1
    ensures Segment(items, at + |s.index| + 1) == s.tar
    ensures SegmentEnd(items, at + |s.index| + 1) == at + |s.index| + |s.tar| + 2
  {
    hide Segment, Blocks, SessionItems;
    var m, e := |s.index|, |s.index| + |s.tar| + 1;
    var all := items[at..at + e + 1];
    SessionParts(s);
    SliceOfSlice(items, at, e + 1, 0, m);
    assert all[0..m] == all[..m];
    SegmentOf(items, at, s.index);
    SliceOfSlice(items, at, e + 1, m + 1, e);
    SegmentOf(items, at + m + 1, s.tar);
  }

  lemma SliceOfSlice<T>(s: seq<T>, at: nat, n: nat, lo: nat, hi: nat)
    requires at + n <= |s| && lo <= hi <= n
    ensures s[at + lo..at + hi] == s[at..at + n][lo..hi]
    ensures hi < n ==> s[at + hi] == s[at..at + n][hi]
  {
    var a, b := s[at + lo..at + hi], s[at..at + n][lo..hi];
    forall i | 0 <= i < hi - lo
      ensures a[i] == b[i]
    {
      assert a[i] == s[at + lo + i] == s[at..at + n][lo + i];
    }
    assert a == b;
  }

  lemma SessionParts(s: Recorded)
    ensures var all, m, e := SessionItems(s), |s.index|, |s.index| + |s.tar| + 1;
      && |all| == e + 1 && all[..m] == Blocks(s.index) && all[m] == Mark
      && all[m + 1..e] == Blocks(s.tar) && all[e] == Mark
  {
  }

  lemma SessionLength(s: Recorded)
    ensures |SessionItems(s)| == |s.index| + |s.tar| + 2
  {
  }

  // The next session lies right behind the first k.
  lemma SessionLies(cart: Cart, k: nat)
    requires k < |cart.sessions|
    ensures var items, s := Items(cart), cart.sessions[k];
      var at := |Body(cart.heading, cart.sessions[..k])|;
      && at + |s.index| + |s.tar| + 2 == |Body(cart.heading, cart.sessions[..k + 1])| <= |items|
      && items[at..at + |s.index| + |s.tar| + 2] == SessionItems(s)
  {
    hide Body, SessionItems, TailItems;
    var ss := cart.sessions;
    var front := Body(cart.heading, ss[..k]);
    assert ss[..k + 1] == ss[..k] + [ss[k]];
    BodySnoc(cart.heading, ss[..k], ss[k]);
    BodyPrefix(cart.heading, ss, k + 1);
    SessionLength(ss[k]);
    var next := Body(cart.heading, ss[..k + 1]);
    assert Items(cart)[|front|..|next|] == next[|front|..];
  }

  /** Reading session k+1: its index segment, then its tar segment, then the next place. */
  lemma SessionAt(cart: Cart, k: nat)
    requires k < |cart.sessions|
    ensures var items, s := Items(cart), cart.sessions[k];
      var at := |Body(cart.heading, cart.sessions[..k])|;
      && at + |s.index| + 1 <= |items|
      && Segment(items, at) == s.index
      && SegmentEnd(items, at) == at + |s.index| + 1
      && Segment(items, at + |s.index| + 1) == s.tar
      && SegmentEnd(items, at + |s.index| + 1) == |Body(cart.heading, cart.sessions[..k + 1])| <= |items|
  {
    hide Segment, SegmentEnd, Body, Items, SessionItems;
    SessionLies(cart, k);
    SessionFrom(Items(cart), |Body(cart.heading, cart.sessions[..k])|, cart.sessions[k]);
  }

  /** Behind the last session lies the pointer block, or nothing. */
  lemma TailAt(cart: Cart)
    ensures |Body(cart.heading, cart.sessions)| <= |Items(cart)|
    ensures Segment(Items(cart), |Body(cart.heading, cart.sessions)|) == cart.tail.pointer
  {
    hide Segment, Body;
    var items, at := Items(cart), |Body(cart.heading, cart.sessions)|;
    var n := |cart.tail.pointer|;
    assert items[at..] == TailItems(cart.tail);
    assert items[at..at + n] == TailItems(cart.tail)[..n] == Blocks(cart.tail.pointer);
    assert at + n < |items| ==> items[at + n] == TailItems(cart.tail)[n];
    SegmentOf(items, at, cart.tail.pointer);
  }
}
