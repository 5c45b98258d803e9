/** Reading cartridges back: one session, all sessions of a cartridge, and a chain of
    cartridges (internal/usecase/restore/usecase.go:73-151, chain.go,
    internal/adapter/tapeformat/decoder.go). */
module Restoring {
  import opened Domain
  import opened TapeMachine
  import opened FakeTapes
  import opened BlockIO
  import opened TapeFormat
  import opened Destinations
  import opened Layout
  import opened WriteParts
  import opened Chains
  import opened Formatting

  datatype ReadOutcome =
    | SessionRead(idx: SessionIndex)
    | EndOfSessions
    | PointerMet(pointer: Continuation)
    | SessionDamage
    | Unreadable                   // stops a restore
    | WriteFailed                  // the destination refused an entry; stops a restore

  /** Reads one session from the position on. Damage shows while the tar segment is read;
      the tape then stands somewhere inside it. */
  method ReadSession(tape: FakeTape, c: Codec) returns (r: ReadOutcome)
    requires tape.Valid()
    modifies tape`pos
    ensures tape.Valid() && old(tape.pos) <= tape.pos
    ensures !r.EndOfSessions? ==> old(tape.pos) < tape.pos
    ensures Tampered(c, Concat(Segment(tape.items, old(tape.pos)))) ==> r.SessionDamage?
    ensures var head := ReadIndex(c, Concat(Segment(tape.items, old(tape.pos))));
      var middle := SegmentEnd(tape.items, old(tape.pos));
      match head
      case NoIndex => r.EndOfSessions? && tape.pos == middle
      case Continues(p) => r == PointerMet(p) && tape.pos == middle
      case NewerIndex => r.Unreadable? && tape.pos == middle
      case Damaged => r.SessionDamage? && tape.pos == middle
      case Index(idx) =>
        && (r.SessionRead? <==> ReadsTar(c, idx.files, Concat(Segment(tape.items, middle))))
        && (r.SessionRead? ==> r.idx == idx && tape.pos == SegmentEnd(tape.items, middle))
        && (!r.SessionRead? ==>
          && (if c.untar(Concat(Segment(tape.items, middle))).Some? then r.SessionDamage? else r.Unreadable?)
          && middle <= tape.pos <= SegmentEnd(tape.items, middle))
  {
    hide Concat, Segment, SegmentEnd, ReadIndex, ReadsTar, Tampered;
    EmptySegmentHasNoIndex(c, tape.items, tape.pos);
    var bytes := ReadSegmentBytes(tape);
    if Tampered(c, bytes) {
      TamperedIsDamaged(c, bytes);
    }
    match ReadIndex(c, bytes) {
      case NoIndex => r := EndOfSessions;
      case Continues(p) => r := PointerMet(p);
      case NewerIndex => r := Unreadable;
      case Damaged => r := SessionDamage;
      case Index(idx) =>
        var middle := tape.pos;
        var reader := new TapeBlockReader(tape);
        var data := reader.Drain(1);
        if ReadsTar(c, idx.files, data) {
          r := SessionRead(idx);
        } else {
          r := if c.untar(data).None? then Unreadable else SessionDamage;
          var stop: int := *;
          if middle <= stop <= tape.pos {
            tape.pos := stop;
          }
        }
    }
  }

  /** Reads one session and writes what the filter lets through: the entries in the order of
      the tar stream, up to the first that is damaged or refused. A stream that breaks off
      gave some entries before. */
  method ReadSessionInto(tape: FakeTape, c: Codec, dest: Destination, filter: Filter) returns (r: ReadOutcome)
    requires tape.Valid()
    modifies tape`pos, dest
    ensures tape.Valid() && old(tape.pos) <= tape.pos
    ensures !r.EndOfSessions? ==> old(tape.pos) < tape.pos
    ensures Tampered(c, Concat(Segment(tape.items, old(tape.pos)))) ==> r.SessionDamage? && dest.disk == old(dest.disk)
    ensures var head := ReadIndex(c, Concat(Segment(tape.items, old(tape.pos))));
      var middle := SegmentEnd(tape.items, old(tape.pos));
      match head
      case NoIndex => r.EndOfSessions? && tape.pos == middle && dest.disk == old(dest.disk)
      case Continues(p) => r == PointerMet(p) && tape.pos == middle && dest.disk == old(dest.disk)
      case NewerIndex => r.Unreadable? && tape.pos == middle && dest.disk == old(dest.disk)
      case Damaged => r.SessionDamage? && tape.pos == middle && dest.disk == old(dest.disk)
      case Index(idx) =>
        && WritesSession(c, filter, idx.files, Concat(Segment(tape.items, middle)), old(dest.disk), r, dest.disk)
        && (r.SessionRead? ==> r.idx == idx && tape.pos == SegmentEnd(tape.items, middle))
        && middle <= tape.pos <= SegmentEnd(tape.items, middle)
  {
    hide Concat, Segment, SegmentEnd, ReadIndex, ApplyEntries, WritesSession, OutcomeOf, Tampered;
    EmptySegmentHasNoIndex(c, tape.items, tape.pos);
    var bytes := ReadSegmentBytes(tape);
    if Tampered(c, bytes) {
      TamperedIsDamaged(c, bytes);
    }
    match ReadIndex(c, bytes) {
      case NoIndex => r := EndOfSessions;
      case Continues(p) => r := PointerMet(p);
      case NewerIndex => r := Unreadable;
      case Damaged => r := SessionDamage;
      case Index(idx) =>
        var middle := tape.pos;
        var reader := new TapeBlockReader(tape);
        var data := reader.Drain(1);
        var some: seq<TarEntry> := *;
        var entries := c.untar(data).GetOr(some);
        var verdict := dest.ExtractAll(c, filter, idx.files, entries);
        r := OutcomeOf(c, idx, data, verdict);
        SessionWritten(c, filter, idx, data, entries, old(dest.disk), verdict, dest.disk);
        var stop: int := *;
        if !r.SessionRead? && middle <= stop <= tape.pos {
          tape.pos := stop;
        }
    }
  }

  function OutcomeOf(c: Codec, idx: SessionIndex, data: seq<byte>, verdict: Verdict): ReadOutcome {
    match verdict
    case Refused => WriteFailed
    case Damage => SessionDamage
    case Fine =>
      if c.untar(data).None? then Unreadable
      else if forall i :: 0 <= i < |idx.files| ==> MetIn(idx.files[i], c.untar(data).value) then SessionRead(idx)
      else SessionDamage
  }

  /** What reading a session into a destination does to it, and how it ends. */
  ghost predicate WritesSession(c: Codec, filter: Filter, files: seq<FileMeta>, bytes: seq<byte>, d: Disk,
                                r: ReadOutcome, d': Disk)
  {
    exists entries ::
      && (c.untar(bytes).Some? ==> entries == c.untar(bytes).value)
      && var a := ApplyEntries(c, filter, files, entries, |entries|, d);
         && d' == a.disk
         && (r.WriteFailed? <==> a.verdict.Refused?)
         && (r.SessionRead? <==> a.verdict.Fine? && ReadsTar(c, files, bytes))
         && (r.SessionRead? || r.WriteFailed? || r.SessionDamage? || r.Unreadable?)
         && (r.Unreadable? <==> a.verdict.Fine? && c.untar(bytes).None?)
  }

  lemma {:induction false} FinePasses(c: Codec, filter: Filter, files: seq<FileMeta>, entries: seq<TarEntry>, n: nat,
                                      d: Disk)
    requires n <= |entries|
    ensures ApplyEntries(c, filter, files, entries, n, d).verdict.Fine? ==>
      forall k :: 0 <= k < n ==> EntryPasses(c, files, entries[k])
    ensures ApplyEntries(c, filter, files, entries, n, d).verdict.Damage? ==>
      exists k :: 0 <= k < n && !EntryPasses(c, files, entries[k])
  {
    hide EntryPasses, ApplyEntry;
    if n > 0 {
      FinePasses(c, filter, files, entries, n - 1, d);
      var before := ApplyEntries(c, filter, files, entries, n - 1, d);
      OnePasses(c, filter, files, entries[n - 1], before.disk);
    }
  }

  lemma OnePasses(c: Codec, filter: Filter, files: seq<FileMeta>, e: TarEntry, d: Disk)
    ensures var v := ApplyEntry(c, filter, files, e, d).verdict;
      (v.Fine? ==> EntryPasses(c, files, e)) && (v.Damage? ==> !EntryPasses(c, files, e))
  {
    hide PutEntry, Writable, RemoveAt;
  }

  lemma SessionWritten(c: Codec, filter: Filter, idx: SessionIndex, data: seq<byte>, entries: seq<TarEntry>,
                       d: Disk, verdict: Verdict, d': Disk)
    requires c.untar(data).Some? ==> entries == c.untar(data).value
    requires Applied(verdict, d') == ApplyEntries(c, filter, idx.files, entries, |entries|, d)
    ensures WritesSession(c, filter, idx.files, data, d, OutcomeOf(c, idx, data, verdict), d')
    ensures OutcomeOf(c, idx, data, verdict).SessionRead? ==> OutcomeOf(c, idx, data, verdict).idx == idx
    ensures !OutcomeOf(c, idx, data, verdict).EndOfSessions?
  {
    hide EntryPasses, ApplyEntries, MetIn;
    FinePasses(c, filter, idx.files, entries, |entries|, d);
  }

  // ----- Following the chain --------------------------------------------------------------

  /** What a cartridge must show to be taken as the next one: the name the pointer gives,
      and a first session that points back. */
  predicate FollowsOn(c: Codec, items: seq<Item>, current: TapeLabel, pointer: Continuation) {
    var label' := HeadOf(c, items);
    var first := Forward(items, 0, 1);
    && label'.Label? && label'.tapeLabel.name == pointer.nextTapeName
    && first.Some?
    && var head := ReadIndex(c, Concat(Segment(items, first.value)));
       head.Index? && head.idx.continues == current.uuid
  }

  /** Takes the next cartridge, if there is one, and checks that it belongs here; it then
      stands at its first session. The changer may fail at any time. */
  method Follow(c: Codec, current: TapeLabel, pointer: Continuation, supply: seq<seq<Item>>)
    returns (tape: FakeTape?, l: TapeLabel, fault: bool)
    ensures fault ==> tape == null
    ensures !fault ==> (tape != null <==> supply != [] && FollowsOn(c, supply[0], current, pointer))
    ensures tape != null ==>
      && fresh(tape) && tape.Valid() && tape.items == supply[0]
      && Forward(tape.items, 0, 1) == Some(tape.pos)
      && HeadOf(c, tape.items) == Label(l)
  {
    hide Concat, Segment, SegmentEnd, ReadIndex, DecodeLabel;
    l := TapeLabel("", 0, "", "", "");
    tape := null;
    fault := *;
    if fault || supply == [] {
      return;
    }
    var next := new FakeTape(supply[0], 0);
    var block := next.ReadBlock();
    if block.EndOfFile? {
      return;
    }
    var present := DecodeLabel(c, block.block);
    if !present.Label? || present.tapeLabel.name != pointer.nextTapeName {
      return;
    }
    next.Rewind();
    var ok := next.ForwardFilemarks(1);
    if !ok {
      return;
    }
    var bytes := ReadSegmentBytes(next);
    var head := ReadIndex(c, bytes);
    if !head.Index? || head.idx.continues != current.uuid {
      return;
    }
    next.Rewind();
    ok := next.ForwardFilemarks(1);
    tape, l := next, present.tapeLabel;
  }

  /** Two neighbours of a chain belong together: the left one names the right cartridge, and
      its first session, which must exist, points back to the left one. */
  ghost predicate LinkHolds(c: Codec, left: Leg, right: Leg) {
    && PointsTo(c, left.cart, right.tapeLabel.name)
    && right.cart.sessions != []
    && FirstContinues(c, right.cart, left.tapeLabel.uuid)
  }

  // A recorded session that reads without damage.
  ghost predicate Readable(c: Codec, rec: Recorded) {
    var r := ReadIndex(c, Concat(rec.index));
    r.Index? && ReadsTar(c, r.idx.files, Concat(rec.tar))
  }

  ghost predicate Intact(c: Codec, leg: Leg) {
    HasLabel(c, leg) && forall i :: 0 <= i < |leg.cart.sessions| ==> Readable(c, leg.cart.sessions[i])
  }

  ghost predicate Ends(c: Codec, leg: Leg) { PointerRead(c, leg.cart).NoIndex? }

  ghost predicate GoesOn(c: Codec, leg: Leg) { PointerRead(c, leg.cart).Continues? }

  /** Cartridges without damage; all but the last go on elsewhere. */
  ghost predicate IntactChain(c: Codec, chain: seq<Leg>) {
    && chain != []
    && (forall j :: 0 <= j < |chain| ==> Intact(c, chain[j]))
    && (forall j :: 0 <= j < |chain| - 1 ==> GoesOn(c, chain[j]))
    && Ends(c, chain[|chain| - 1])
  }

  function ItemsOfAll(chain: seq<Leg>): (r: seq<seq<Item>>)
    ensures |r| == |chain| && forall j :: 0 <= j < |r| ==> r[j] == Items(chain[j].cart)
  {
    seq(|chain|, j requires 0 <= j < |chain| => Items(chain[j].cart))
  }

  /** The indexes of recorded sessions, as they are read. */
  ghost function Headers(c: Codec, recs: seq<Recorded>): (r: seq<SessionIndex>)
    requires forall i :: 0 <= i < |recs| ==> Readable(c, recs[i])
    ensures |r| == |recs|
    ensures forall i :: 0 <= i < |r| ==> ReadIndex(c, Concat(recs[i].index)) == Index(r[i])
  {
    seq(|recs|, i requires 0 <= i < |recs| && Readable(c, recs[i]) => ReadIndex(c, Concat(recs[i].index)).idx)
  }

  lemma HeadersSnoc(c: Codec, recs: seq<Recorded>, rec: Recorded)
    requires (forall i :: 0 <= i < |recs| ==> Readable(c, recs[i])) && Readable(c, rec)
    ensures forall i :: 0 <= i < |recs + [rec]| ==> Readable(c, (recs + [rec])[i])
    ensures Headers(c, recs + [rec]) == Headers(c, recs) + [ReadIndex(c, Concat(rec.index)).idx]
  {
    hide ReadIndex, Concat, Readable;
    var all := recs + [rec];
    assert all[|recs|] == rec;
  }

  /** How many cartridges from number j on a restore passes through before the first link
      that does not hold. */
  ghost function LinkedFrom(c: Codec, chain: seq<Leg>, j: nat): (n: nat)
    requires j < |chain|
    ensures j < n <= |chain|
    decreases |chain| - j
  {
    if j + 1 < |chain| && LinkHolds(c, chain[j], chain[j + 1]) then LinkedFrom(c, chain, j + 1) else j + 1
  }

  lemma {:induction false} AllLinked(c: Codec, chain: seq<Leg>, j: nat)
    requires j < |chain|
    ensures LinkedFrom(c, chain, j) == |chain| <==>
      forall i :: j <= i < |chain| - 1 ==> LinkHolds(c, chain[i], chain[i + 1])
    decreases |chain| - j
  {
    hide LinkHolds;
    if j + 1 < |chain| && LinkHolds(c, chain[j], chain[j + 1]) {
      AllLinked(c, chain, j + 1);
    }
  }

  // The label and the way to the first session of a laid-out cartridge.
  lemma HeadOfLeg(c: Codec, leg: Leg)
    requires HasLabel(c, leg)
    ensures HeadOf(c, Items(leg.cart)) == Label(leg.tapeLabel)
    ensures Forward(Items(leg.cart), 0, 1) == Some(|Body(leg.cart.heading, [])|)
  {
    hide Forward, DecodeLabel;
    LabelAt(leg.cart);
  }

  /** A laid-out cartridge is taken as the next one exactly when the link holds. */
  lemma FollowsLeg(c: Codec, left: Leg, right: Leg)
    requires GoesOn(c, left) && Intact(c, right)
    requires right.cart.sessions == [] ==> !PointerRead(c, right.cart).Index?
    ensures FollowsOn(c, Items(right.cart), left.tapeLabel, PointerRead(c, left.cart).pointer) <==>
      LinkHolds(c, left, right)
  {
    hide Forward, DecodeLabel, ReadIndex, Concat, Segment, SegmentEnd, Body, Items;
    HeadOfLeg(c, right);
    assert right.cart.sessions[..0] == [];
    if right.cart.sessions == [] {
      TailAt(right.cart);
    } else {
      SessionAt(right.cart, 0);
      assert Readable(c, right.cart.sessions[0]);
    }
  }

  // ----- The whole restore ------------------------------------------------------------------

  datatype FullResult =
    | AllRead
    | NeedsCartridge(pointer: Continuation)    // no changer: the rest is on the next cartridge
    | BrokenChain                              // the next cartridge is missing or does not belong here
    | NoLabel
    | Stopped                                  // a newer format or a broken tar stream
    | Cancelled
    | ChangerFailed
    | WriteRefused                             // the destination does not accept an entry
    | DestinationFailed                        // it fails for reasons of its own

  /** Where two moves by one mark lead; a move that finds no mark is the last. */
  function SkipTo(items: seq<Item>, p: nat): (q: nat)
    requires p <= |items|
    ensures p <= q <= |items|
  {
    match Forward(items, p, 1)
    case None => p
    case Some(first) =>
      match Forward(items, first, 1)
      case None => first
      case Some(second) => second
  }

  // Past a damaged session: two marks forward, or as far as there are marks.
  method SkipToNextSession(tape: FakeTape)
    requires tape.Valid()
    modifies tape`pos
    ensures tape.Valid() && tape.pos == SkipTo(tape.items, old(tape.pos))
  {
    hide Forward;
    var ok := tape.ForwardFilemarks(1);
    if ok {
      ok := tape.ForwardFilemarks(1);
    }
  }

  // From within a segment its rest is read.
  lemma RestOfSegment(items: seq<Item>, q: nat, blocks: seq<Block>, p: nat)
    requires q + |blocks| < |items| && items[q..q + |blocks|] == Blocks(blocks) && items[q + |blocks|].Mark?
    requires q <= p <= q + |blocks|
    ensures Segment(items, p) == blocks[p - q..]
  {
    hide Segment;
    var rest := blocks[p - q..];
    forall i | 0 <= i < |rest|
      ensures items[p + i] == Blk(rest[i])
    {
      assert items[p + i] == items[q..q + |blocks|][p - q + i];
    }
    assert items[p..p + |rest|] == Blocks(rest);
    SegmentOf(items, p, rest);
  }

  // One mark forward from anywhere before the end of a tar segment leads to the next place.
  lemma OutOfTar(cart: Cart, k: nat, p: nat)
    requires k < |cart.sessions|
    requires var middle := |Body(cart.heading, cart.sessions[..k])| + |cart.sessions[k].index| + 1;
      middle <= p <= middle + |cart.sessions[k].tar|
    ensures p <= |Items(cart)|
    ensures Forward(Items(cart), p, 1) == Some(|Body(cart.heading, cart.sessions[..k + 1])|)
  {
    hide Segment, SegmentEnd, Body, Items, Forward, Blocks;
    SessionAt(cart, k);
    BodyGrows(cart.heading, cart.sessions, k);
    var items, tar := Items(cart), cart.sessions[k].tar;
    var middle := |Body(cart.heading, cart.sessions[..k])| + |cart.sessions[k].index| + 1;
    SegmentClosed(items, middle, tar);
    RestOfSegment(items, middle, tar, p);
    ForwardOverSegment(items, p);
    SegmentEndIs(items, p);
  }

  lemma SegmentEndIs(items: seq<Item>, q: nat)
    requires q <= |items| && q + |Segment(items, q)| < |items|
    ensures SegmentEnd(items, q) == q + |Segment(items, q)| + 1
  {
  }

  // ----- Behind a damaged session -----------------------------------------------------------

  // Where damage in session k may leave the tape: behind the index mark, anywhere in the
  // tar segment, or behind its mark.
  ghost predicate DamageLeaves(cart: Cart, k: nat, p: nat)
    requires k < |cart.sessions|
  {
    |Body(cart.heading, cart.sessions[..k])| + |cart.sessions[k].index| + 1 <= p <= NextPlace(cart, k)
  }

  // Where session k+1 begins, or what closes the cartridge.
  ghost function NextPlace(cart: Cart, k: nat): nat
    requires k < |cart.sessions|
  {
    |Body(cart.heading, cart.sessions[..k + 1])|
  }

  /** The next read begins where it should, or there is nothing at either place. */
  ghost predicate ReadsOn(items: seq<Item>, q: nat, next: nat)
    requires q <= |items| && next <= |items|
  {
    q == next || (Segment(items, q) == [] && Segment(items, next) == [])
  }

  // One or two marks forward from within a tar segment.
  lemma FirstMove(cart: Cart, k: nat, p: nat)
    requires k < |cart.sessions| && DamageLeaves(cart, k, p) && p < NextPlace(cart, k)
    ensures p <= |Items(cart)| && Forward(Items(cart), p, 1) == Some(NextPlace(cart, k))
  {
    hide Body, Items, Forward;
    BodyGrows(cart.heading, cart.sessions, k);
    OutOfTar(cart, k, p);
  }

  lemma SecondMove(cart: Cart, k: nat)
    requires k < |cart.sessions|
    ensures NextPlace(cart, k) <= |Items(cart)|
    ensures k + 1 < |cart.sessions| ==>
      Forward(Items(cart), NextPlace(cart, k), 1) == Some(NextPlace(cart, k) + |cart.sessions[k + 1].index| + 1)
    ensures k + 1 == |cart.sessions| && cart.tail.marks > 0 ==>
      Forward(Items(cart), NextPlace(cart, k), 1) == Some(NextPlace(cart, k) + |cart.tail.pointer| + 1)
    ensures k + 1 == |cart.sessions| && cart.tail.marks == 0 ==> Forward(Items(cart), NextPlace(cart, k), 1) == None
  {
    hide Segment, SegmentEnd, Body, Items, Forward;
    var items, next := Items(cart), NextPlace(cart, k);
    if k + 1 < |cart.sessions| {
      SessionAt(cart, k + 1);
      ForwardOverSegment(items, next);
    } else {
      assert cart.sessions[..k + 1] == cart.sessions;
      TailAt(cart);
      TailEnds(cart);
      if cart.tail.marks > 0 {
        ForwardOverSegment(items, next);
        SegmentEndIs(items, next);
      } else {
        NoMarkInRest(items, next, cart.tail.pointer);
      }
    }
  }

  lemma TailEnds(cart: Cart)
    ensures |Items(cart)| == |Body(cart.heading, cart.sessions)| + |cart.tail.pointer| + cart.tail.marks
  {
    hide Body;
  }

  lemma NoMarkInRest(items: seq<Item>, q: nat, blocks: seq<Block>)
    requires q <= |items| && Segment(items, q) == blocks && q + |blocks| == |items|
    ensures Forward(items, q, 1) == None
  {
    hide Marks, Forward, Segment;
    MarksOfBlocks(blocks);
    assert items[q..] == items[q..q + |blocks|];
    ForwardSucceeds(items, q, 1);
  }

  // Behind the pointer and one mark, or two, nothing is read.
  lemma NothingBehindTail(cart: Cart, q: nat)
    requires |Body(cart.heading, cart.sessions)| + |cart.tail.pointer| <= q <= |Items(cart)|
    ensures Segment(Items(cart), q) == []
  {
    hide Body;
    var items, tail := Items(cart), TailItems(cart.tail);
    if q < |items| {
      assert items[q] == tail[q - |Body(cart.heading, cart.sessions)|];
    }
  }

  /** The code passes a damaged session by two marks, although the mark of its index lies
      behind the tape already. The next read is not disturbed by this if and only if neither
      a session nor a closed pointer follows on the cartridge. If the damage was noticed in
      the tar, the tape then stands behind the index of the session that follows; a pointer
      is passed, so that the restore ends there and takes the chain for complete. */
  lemma SkipPassesTheNextIndex(cart: Cart, k: nat, p: nat)
    requires k < |cart.sessions| && DamageLeaves(cart, k, p)
    requires forall i :: 0 <= i < |cart.sessions| ==> cart.sessions[i].index != []
    ensures p <= |Items(cart)| && NextPlace(cart, k) <= |Items(cart)|
    ensures ReadsOn(Items(cart), SkipTo(Items(cart), p), NextPlace(cart, k)) <==>
      k + 1 == |cart.sessions| && (cart.tail.pointer == [] || cart.tail.marks == 0)
    ensures k + 1 < |cart.sessions| && p < NextPlace(cart, k) ==>
      SkipTo(Items(cart), p) == NextPlace(cart, k) + |cart.sessions[k + 1].index| + 1
    ensures k + 1 < |cart.sessions| && p == NextPlace(cart, k) ==> SkipTo(Items(cart), p) == NextPlace(cart, k + 1)
    ensures k + 1 == |cart.sessions| && cart.tail.marks > 0 ==> Segment(Items(cart), SkipTo(Items(cart), p)) == []
  {
    hide Segment, SegmentEnd, Body, Items, Forward, NextPlace;
    var items, next := Items(cart), NextPlace(cart, k);
    PlacesAre(cart, k);
    SecondMove(cart, k);
    if p < next {
      FirstMove(cart, k, p);
    }
    if k + 1 < |cart.sessions| {
      SessionIsThere(cart, k + 1);
      FirstMove(cart, k + 1, next + |cart.sessions[k + 1].index| + 1);
    } else {
      TailEnds(cart);
      TailAt(cart);
      assert cart.sessions[..k + 1] == cart.sessions;
      LastMoves(cart, k, p);
    }
  }

  lemma PlacesAre(cart: Cart, k: nat)
    requires k < |cart.sessions|
    ensures NextPlace(cart, k) == |Body(cart.heading, cart.sessions[..k + 1])|
    ensures k + 1 == |cart.sessions| ==> NextPlace(cart, k) == |Body(cart.heading, cart.sessions)|
  {
    hide Body;
    if k + 1 == |cart.sessions| {
      assert cart.sessions[..k + 1] == cart.sessions;
    }
  }

  lemma SessionIsThere(cart: Cart, k: nat)
    requires 0 < k < |cart.sessions|
    ensures NextPlace(cart, k - 1) <= |Items(cart)|
    ensures Segment(Items(cart), NextPlace(cart, k - 1)) == cart.sessions[k].index
    ensures NextPlace(cart, k) == NextPlace(cart, k - 1) + |cart.sessions[k].index| + |cart.sessions[k].tar| + 2
    ensures DamageLeaves(cart, k, NextPlace(cart, k - 1) + |cart.sessions[k].index| + 1)
  {
    hide Segment, SegmentEnd, Body, Items;
    SessionAt(cart, k);
    BodyGrows(cart.heading, cart.sessions, k);
  }

  // At the last session the moves end in what closes the cartridge.
  lemma LastMoves(cart: Cart, k: nat, p: nat)
    requires k + 1 == |cart.sessions| && DamageLeaves(cart, k, p)
    ensures var items, next := Items(cart), |Body(cart.heading, cart.sessions)|;
      && p <= next <= |items|
      && (cart.tail.marks == 0 ==> SkipTo(items, p) == next)
      && (cart.tail.marks > 0 ==>
          next + |cart.tail.pointer| < SkipTo(items, p) && Segment(items, SkipTo(items, p)) == [])
  {
    hide Segment, SegmentEnd, Body, Items, Forward, NextPlace;
    var items, next := Items(cart), NextPlace(cart, k);
    PlacesAre(cart, k);
    SecondMove(cart, k);
    TailEnds(cart);
    if p < next {
      FirstMove(cart, k, p);
    }
    if cart.tail.marks > 0 {
      var first := next + |cart.tail.pointer| + 1;
      assert SkipTo(items, p) >= first by {
        if p == next {
          assert Forward(items, p, 1) == Some(first);
        }
      }
      NothingBehindTail(cart, SkipTo(items, p));
    }
  }

  // What lies between a position and the end of the tar segment of session k.
  ghost function RestOfTar(cart: Cart, k: nat, p: nat): seq<Block>
    requires k < |cart.sessions|
  {
    var middle := |Body(cart.heading, cart.sessions[..k])| + |cart.sessions[k].index| + 1;
    if middle <= p <= middle + |cart.sessions[k].tar| then cart.sessions[k].tar[p - middle..] else []
  }

  /** The next session is read after all: at once, or after what is read at the position was
      taken for a damaged index and left the tape there. */
  ghost predicate Resumes(c: Codec, items: seq<Item>, p: nat, next: nat)
    requires p <= |items|
  {
    p == next || (ReadIndex(c, Concat(Segment(items, p))).Damaged? && SegmentEnd(items, p) == next)
  }

  /** On every later cartridge the code passes no mark at all, for it moves the first one.
      Reading goes on where the damage was noticed, and comes to the next session exactly if
      the tar segment was used up, or its rest reads as a damaged index. At the mark of the
      tar segment the restore ends as if there were no more. */
  lemma LaterCartridgesAreNotSkipped(c: Codec, cart: Cart, k: nat, p: nat)
    requires k < |cart.sessions| && DamageLeaves(cart, k, p)
    ensures p <= |Items(cart)|
    ensures Resumes(c, Items(cart), p, NextPlace(cart, k)) <==>
      p == NextPlace(cart, k) || ReadIndex(c, Concat(RestOfTar(cart, k, p))).Damaged?
    ensures p == NextPlace(cart, k) - 1 ==> ReadIndex(c, Concat(Segment(Items(cart), p))).NoIndex?
  {
    hide Segment, SegmentEnd, Body, Items, Forward, ReadIndex;
    PlacesAre(cart, k);
    SecondMove(cart, k);
    if p < NextPlace(cart, k) {
      RestIsRead(cart, k, p);
      NothingIsNoIndex(c);
    }
  }

  lemma RestIsRead(cart: Cart, k: nat, p: nat)
    requires k < |cart.sessions| && DamageLeaves(cart, k, p) && p < NextPlace(cart, k)
    ensures var items := Items(cart);
      && p <= |items| && Segment(items, p) == RestOfTar(cart, k, p) && SegmentEnd(items, p) == NextPlace(cart, k)
      && (p == NextPlace(cart, k) - 1 ==> RestOfTar(cart, k, p) == [])
  {
    hide Segment, SegmentEnd, Body, Items, Forward;
    SessionAt(cart, k);
    BodyGrows(cart.heading, cart.sessions, k);
    var items, tar := Items(cart), cart.sessions[k].tar;
    var middle := |Body(cart.heading, cart.sessions[..k])| + |cart.sessions[k].index| + 1;
    SegmentClosed(items, middle, tar);
    RestOfSegment(items, middle, tar, p);
    SegmentEndIs(items, p);
    assert tar[|tar|..] == [];
  }

  lemma NothingIsNoIndex(c: Codec)
    ensures ReadIndex(c, Concat([])).NoIndex?
  {
  }

  // Where a restore of an intact chain stands: at session i of cartridge j, everything
  // before it read.
  ghost predicate Standing(c: Codec, chain: seq<Leg>, j: nat, i: nat, items: seq<Item>, pos: nat, current: TapeLabel,
                           rest: seq<seq<Item>>, read: seq<SessionIndex>)
  {
    && j < |chain| && IntactChain(c, chain)
    && i <= |chain[j].cart.sessions|
    && items == Items(chain[j].cart)
    && current == chain[j].tapeLabel
    && pos == |Body(chain[j].cart.heading, chain[j].cart.sessions[..i])|
    && rest == ItemsOfAll(chain[j + 1..])
    && var recs := SessionsOf(chain[..j]) + chain[j].cart.sessions[..i];
       (forall k :: 0 <= k < |recs| ==> Readable(c, recs[k])) && read == Headers(c, recs)
  }

  lemma StandsAtStart(c: Codec, chain: seq<Leg>)
    requires IntactChain(c, chain)
    ensures Standing(c, chain, 0, 0, Items(chain[0].cart), |Body(chain[0].cart.heading, [])|, chain[0].tapeLabel,
                     ItemsOfAll(chain[1..]), [])
  {
    hide Readable, Items, Body;
    assert chain[0].cart.sessions[..0] == [];
    assert chain[..0] == [];
  }

  /** Reading on from session i of a cartridge reads that session. */
  lemma StandsOnRead(c: Codec, chain: seq<Leg>, j: nat, i: nat, items: seq<Item>, pos: nat, current: TapeLabel,
                     rest: seq<seq<Item>>, read: seq<SessionIndex>)
    requires Standing(c, chain, j, i, items, pos, current, rest, read) && i < |chain[j].cart.sessions|
    ensures pos <= |items|
    ensures var head := ReadIndex(c, Concat(Segment(items, pos)));
      var middle := SegmentEnd(items, pos);
      && head.Index?
      && ReadsTar(c, head.idx.files, Concat(Segment(items, middle)))
      && Standing(c, chain, j, i + 1, items, SegmentEnd(items, middle), current, rest, read + [head.idx])
  {
    hide Segment, SegmentEnd, Items, Body, Concat, ReadIndex, ReadsTar, SessionsOf, PointerRead;
    var cart := chain[j].cart;
    SessionAt(cart, i);
    var rec := cart.sessions[i];
    assert Intact(c, chain[j]) && Readable(c, rec);
    assert cart.sessions[..i + 1] == cart.sessions[..i] + [rec];
    var recs := SessionsOf(chain[..j]) + cart.sessions[..i];
    HeadersSnoc(c, recs, rec);
    assert SessionsOf(chain[..j]) + cart.sessions[..i + 1] == recs + [rec];
  }

  /** Behind the last session the end, or the pointer, is found. */
  lemma StandsAtTail(c: Codec, chain: seq<Leg>, j: nat, items: seq<Item>, pos: nat, current: TapeLabel,
                     rest: seq<seq<Item>>, read: seq<SessionIndex>)
    requires j < |chain|
    requires Standing(c, chain, j, |chain[j].cart.sessions|, items, pos, current, rest, read)
    ensures pos <= |items| && ReadIndex(c, Concat(Segment(items, pos))) == PointerRead(c, chain[j].cart)
    ensures PointerRead(c, chain[j].cart).NoIndex? <==> j + 1 == |chain|
    ensures PointerRead(c, chain[j].cart).Continues? <==> j + 1 < |chain|
    ensures AllReadable(c, SessionsOf(chain[..j + 1])) && read == Headers(c, SessionsOf(chain[..j + 1]))
  {
    hide Segment, Items, Body, Concat, ReadIndex, Readable, Intact;
    var cart := chain[j].cart;
    assert cart.sessions[..|cart.sessions|] == cart.sessions;
    TailAt(cart);
    assert chain[..j + 1] == chain[..j] + [chain[j]];
    SessionsSnoc(chain[..j], chain[j]);
    assert j + 1 < |chain| ==> GoesOn(c, chain[j]);
  }

  ghost predicate AllReadable(c: Codec, recs: seq<Recorded>) {
    forall k :: 0 <= k < |recs| ==> Readable(c, recs[k])
  }

  /** The next cartridge is taken exactly when the link holds, and the reading goes on at
      its first session. */
  lemma StandsOnNext(c: Codec, chain: seq<Leg>, j: nat, items: seq<Item>, pos: nat, current: TapeLabel,
                     rest: seq<seq<Item>>, read: seq<SessionIndex>)
    requires j + 1 < |chain| && GoesOn(c, chain[j])
    requires Standing(c, chain, j, |chain[j].cart.sessions|, items, pos, current, rest, read)
    ensures rest != [] && rest[0] == Items(chain[j + 1].cart)
    ensures FollowsOn(c, rest[0], current, PointerRead(c, chain[j].cart).pointer) <==>
      LinkHolds(c, chain[j], chain[j + 1])
    ensures HeadOf(c, rest[0]) == Label(chain[j + 1].tapeLabel)
    ensures Forward(rest[0], 0, 1) == Some(|Body(chain[j + 1].cart.heading, [])|)
    ensures Standing(c, chain, j + 1, 0, rest[0], |Body(chain[j + 1].cart.heading, [])|, chain[j + 1].tapeLabel,
                     rest[1..], read)
  {
    hide Segment, SegmentEnd, Items, Body, Concat, ReadIndex, Readable, LinkHolds, FollowsOn, HeadOf, Forward;
    var next := chain[j + 1];
    assert Intact(c, next);
    assert chain[j + 1..][1..] == chain[j + 2..] && chain[j + 1..][0] == next;
    assert ItemsOfAll(chain[j + 1..])[1..] == ItemsOfAll(chain[j + 2..]);
    assert j + 2 < |chain| ==> GoesOn(c, next);
    FollowsLeg(c, chain[j], next);
    HeadOfLeg(c, next);
    StandsAtTail(c, chain, j, items, pos, current, rest, read);
    assert next.cart.sessions[..0] == [];
    assert SessionsOf(chain[..j + 1]) + [] == SessionsOf(chain[..j + 1]);
  }

  lemma {:induction false} ChainReadable(c: Codec, chain: seq<Leg>, n: nat)
    requires IntactChain(c, chain) && n <= |chain|
    ensures AllReadable(c, SessionsOf(chain[..n]))
  {
    hide Readable;
    if n > 0 {
      ChainReadable(c, chain, n - 1);
      assert chain[..n] == chain[..n - 1] + [chain[n - 1]];
      SessionsSnoc(chain[..n - 1], chain[n - 1]);
    }
  }

  lemma {:induction false} SessionsPrefix(chain: seq<Leg>, n: nat, m: nat)
    requires n <= m <= |chain|
    ensures SessionsOf(chain[..n]) <= SessionsOf(chain[..m])
    decreases m
  {
    if n < m {
      SessionsPrefix(chain, n, m - 1);
      assert chain[..m] == chain[..m - 1] + [chain[m - 1]];
      SessionsSnoc(chain[..m - 1], chain[m - 1]);
    }
  }

  // What was read is the beginning of what the first n cartridges hold.
  lemma ReadSoFar(c: Codec, chain: seq<Leg>, j: nat, i: nat, items: seq<Item>, pos: nat, current: TapeLabel,
                  rest: seq<seq<Item>>, read: seq<SessionIndex>, n: nat)
    requires Standing(c, chain, j, i, items, pos, current, rest, read) && j < n <= |chain|
    ensures AllReadable(c, SessionsOf(chain[..n])) && read <= Headers(c, SessionsOf(chain[..n]))
  {
    hide Readable, Items, Body, ReadIndex, SessionsOf, IntactChain, ItemsOfAll;
    ChainReadable(c, chain, n);
    SessionsPrefix(chain, j + 1, n);
    assert chain[..j + 1] == chain[..j] + [chain[j]];
    SessionsSnoc(chain[..j], chain[j]);
    var recs, all := SessionsOf(chain[..j]) + chain[j].cart.sessions[..i], SessionsOf(chain[..n]);
    assert recs <= all;
    HeadersPrefix(c, recs, all);
  }

  lemma HeadersPrefix(c: Codec, recs: seq<Recorded>, all: seq<Recorded>)
    requires AllReadable(c, all) && recs <= all
    ensures AllReadable(c, recs) && Headers(c, recs) <= Headers(c, all)
  {
    hide Readable, ReadIndex;
    forall k | 0 <= k < |recs|
      ensures Readable(c, recs[k])
    {
      assert recs[k] == all[k];
    }
    forall k | 0 <= k < |recs|
      ensures Headers(c, recs)[k] == Headers(c, all)[k]
    {
      assert recs[k] == all[k];
    }
  }

  // How many cartridges a restore reads.
  ghost function Reach(c: Codec, chain: seq<Leg>, hasChanger: bool): (n: nat)
    requires chain != []
    ensures 0 < n <= |chain|
  {
    if hasChanger then LinkedFrom(c, chain, 0) else 1
  }

  /** What a restore of an intact chain does. */
  ghost predicate FullReads(c: Codec, chain: seq<Leg>, hasChanger: bool, r: FullResult, read: seq<SessionIndex>)
    requires chain != []
  {
    var n := Reach(c, chain, hasChanger);
    && AllReadable(c, SessionsOf(chain[..n]))
    && if r.Cancelled? || r.ChangerFailed? || r.DestinationFailed? then read <= Headers(c, SessionsOf(chain[..n]))
       else
         && read == Headers(c, SessionsOf(chain[..n]))
         && (r.AllRead? <==> n == |chain|)
         && (r.BrokenChain? <==> n < |chain| && hasChanger)
         && (r.NeedsCartridge? <==> n < |chain| && !hasChanger)
         && (r.NeedsCartridge? ==> PointerRead(c, chain[0].cart) == Continues(r.pointer))
  }

  // ----- What is written -------------------------------------------------------------------

  /** A readable session put into the destination: its entries, then its tombstones. */
  ghost function ReplaySession(c: Codec, rec: Recorded, d: Disk): Effect
    requires Readable(c, rec)
  {
    var files, entries := ReadIndex(c, Concat(rec.index)).idx.files, c.untar(Concat(rec.tar)).value;
    var a := ApplyEntries(c, Everything, files, entries, |entries|, d);
    if a.verdict.Fine? then Effect(true, Cleared(Everything, files, |files|, a.disk)) else Effect(false, a.disk)
  }

  /** The first n sessions one after the other, up to the first that is refused. */
  ghost function Replayed(c: Codec, recs: seq<Recorded>, n: nat, d: Disk): Effect
    requires AllReadable(c, recs) && n <= |recs|
  {
    if n == 0 then Effect(true, d)
    else
      var prev := Replayed(c, recs, n - 1, d);
      if prev.ok then ReplaySession(c, recs[n - 1], prev.disk) else prev
  }

  /** What a restore of an intact chain reads and leaves in the destination. It goes on until
      an entry is refused; the session it belongs to is then not among those read, and the
      destination is left as it stood at that entry. */
  ghost predicate FullRestores(c: Codec, chain: seq<Leg>, hasChanger: bool, d0: Disk, r: FullResult,
                               read: seq<SessionIndex>, disk: Disk)
    requires chain != []
  {
    var recs := SessionsOf(chain[..Reach(c, chain, hasChanger)]);
    && AllReadable(c, recs) && |read| <= |recs| && read == Headers(c, recs)[..|read|]
    && Replayed(c, recs, |read|, d0).ok
    && if r.WriteRefused? then
         |read| < |recs| && Replayed(c, recs, |read| + 1, d0) == Effect(false, disk)
       else
         && FullReads(c, chain, hasChanger, r, read)
         && (!r.DestinationFailed? ==> disk == Replayed(c, recs, |read|, d0).disk)
  }

  /** Unless it is stopped from outside, a restore reads all it can reach exactly if the
      destination accepts every entry. */
  lemma RefusedOrRead(c: Codec, chain: seq<Leg>, hasChanger: bool, d0: Disk, r: FullResult,
                      read: seq<SessionIndex>, disk: Disk)
    requires chain != [] && FullRestores(c, chain, hasChanger, d0, r, read, disk)
    requires !r.Cancelled? && !r.ChangerFailed? && !r.DestinationFailed?
    ensures var recs := SessionsOf(chain[..Reach(c, chain, hasChanger)]);
      && AllReadable(c, recs)
      && (r.WriteRefused? <==> !Replayed(c, recs, |recs|, d0).ok)
      && (!r.WriteRefused? ==> read == Headers(c, recs) && disk == Replayed(c, recs, |recs|, d0).disk)
  {
    hide Readable, ReplaySession, SessionsOf, LinkedFrom;
    var recs := SessionsOf(chain[..Reach(c, chain, hasChanger)]);
    if r.WriteRefused? {
      ReplayStays(c, recs, |read| + 1, |recs|, d0);
    }
  }

  lemma {:induction false} ReplayStays(c: Codec, recs: seq<Recorded>, n: nat, m: nat, d: Disk)
    requires AllReadable(c, recs) && n <= m <= |recs| && !Replayed(c, recs, n, d).ok
    ensures Replayed(c, recs, m, d) == Replayed(c, recs, n, d)
    decreases m
  {
    hide Readable, ReplaySession;
    if n < m {
      ReplayStays(c, recs, n, m - 1, d);
    }
  }

  // The next session on the tape is the next one of those a restore reaches.
  lemma ReadIsNext(c: Codec, chain: seq<Leg>, j: nat, i: nat, items: seq<Item>, pos: nat, current: TapeLabel,
                   rest: seq<seq<Item>>, read: seq<SessionIndex>, n: nat)
    requires Standing(c, chain, j, i, items, pos, current, rest, read) && j < n <= |chain|
    requires i < |chain[j].cart.sessions|
    ensures pos <= |items| && SegmentEnd(items, pos) <= |items|
    ensures var recs := SessionsOf(chain[..n]);
      && |read| < |recs|
      && recs[|read|].index == Segment(items, pos) && recs[|read|].tar == Segment(items, SegmentEnd(items, pos))
  {
    hide Readable, Items, Body, ReadIndex, SessionsOf, IntactChain, ItemsOfAll, Segment, SegmentEnd;
    SessionAt(chain[j].cart, i);
    SessionsPrefix(chain, j + 1, n);
    assert chain[..j + 1] == chain[..j] + [chain[j]];
    SessionsSnoc(chain[..j], chain[j]);
    var front, mine := SessionsOf(chain[..j]), chain[j].cart.sessions;
    assert |read| == |front| + i;
    assert (front + mine)[|front| + i] == mine[i];
    assert front + mine <= SessionsOf(chain[..n]);
  }

  // What was read was written.
  ghost predicate Wrote(c: Codec, chain: seq<Leg>, hasChanger: bool, d0: Disk, read: seq<SessionIndex>, disk: Disk)
    requires chain != []
  {
    var recs := SessionsOf(chain[..Reach(c, chain, hasChanger)]);
    AllReadable(c, recs) && |read| <= |recs| && Replayed(c, recs, |read|, d0) == Effect(true, disk)
  }

  // Reading the next session writes it, or is refused.
  lemma WritesNext(c: Codec, chain: seq<Leg>, hasChanger: bool, j: nat, i: nat, items: seq<Item>, pos: nat,
                   current: TapeLabel, rest: seq<seq<Item>>, read: seq<SessionIndex>,
                   d0: Disk, disk: Disk, r: ReadOutcome, after: Disk)
    requires chain != [] && OnTheWay(c, chain, hasChanger, j, i, items, pos, current, rest, read)
    requires Wrote(c, chain, hasChanger, d0, read, disk)
    requires pos <= |items| && SegmentEnd(items, pos) <= |items|
    requires ReadIndex(c, Concat(Segment(items, pos))).Index?
    requires var idx := ReadIndex(c, Concat(Segment(items, pos))).idx;
      WritesSession(c, Everything, idx.files, Concat(Segment(items, SegmentEnd(items, pos))), disk, r, after)
    ensures r.SessionRead? || r.WriteFailed?
    ensures var idx := ReadIndex(c, Concat(Segment(items, pos))).idx;
      r.SessionRead? ==>
        Wrote(c, chain, hasChanger, d0, read + [idx], Cleared(Everything, idx.files, |idx.files|, after))
    ensures r.WriteFailed? ==> FullRestores(c, chain, hasChanger, d0, WriteRefused, read, after)
  {
    hide Segment, SegmentEnd, Concat, ReadIndex, ReadsTar, Standing, SessionsOf, LinkedFrom, Cleared, ReplaySession,
         WritesSession, Readable, OnTheWay, FollowsOn, HeadOf, Forward, Headers;
    NextTurn(c, chain, hasChanger, j, i, items, pos, current, rest, read);
    AtSession(c, chain, hasChanger, j, i, items, pos, current, rest, read);
    var n := Reach(c, chain, hasChanger);
    var recs := SessionsOf(chain[..n]);
    StandsHere(c, chain, hasChanger, j, i, items, pos, current, rest, read);
    ReadIsNext(c, chain, j, i, items, pos, current, rest, read, n);
    ReplayNext(c, recs[|read|], disk, r, after);
    assert Replayed(c, recs, |read| + 1, d0) == ReplaySession(c, recs[|read|], disk);
    if r.WriteFailed? {
      FirstOfAll(c, recs, read);
    }
  }

  lemma FirstOfAll(c: Codec, recs: seq<Recorded>, read: seq<SessionIndex>)
    requires AllReadable(c, recs) && read <= Headers(c, recs)
    ensures |read| <= |recs| && read == Headers(c, recs)[..|read|]
  {
    hide Readable;
  }

  lemma StandsHere(c: Codec, chain: seq<Leg>, hasChanger: bool, j: nat, i: nat, items: seq<Item>, pos: nat,
                   current: TapeLabel, rest: seq<seq<Item>>, read: seq<SessionIndex>)
    requires OnTheWay(c, chain, hasChanger, j, i, items, pos, current, rest, read)
    ensures Standing(c, chain, j, i, items, pos, current, rest, read)
  {
  }

  // A readable session is put into the destination, or refused.
  lemma ReplayNext(c: Codec, rec: Recorded, d: Disk, r: ReadOutcome, after: Disk)
    requires Readable(c, rec)
    requires WritesSession(c, Everything, ReadIndex(c, Concat(rec.index)).idx.files, Concat(rec.tar), d, r, after)
    ensures r.SessionRead? || r.WriteFailed?
    ensures var files := ReadIndex(c, Concat(rec.index)).idx.files;
      ReplaySession(c, rec, d) ==
      if r.SessionRead? then Effect(true, Cleared(Everything, files, |files|, after)) else Effect(false, after)
  {
    hide ReadIndex, Concat, ApplyEntries, Cleared;
    TarIsRead(c, ReadIndex(c, Concat(rec.index)).idx.files, Concat(rec.tar));
    NeverDamaged(c, rec, c.untar(Concat(rec.tar)).value, d);
  }

  lemma TarIsRead(c: Codec, files: seq<FileMeta>, bytes: seq<byte>)
    requires ReadsTar(c, files, bytes)
    ensures c.untar(bytes).Some?
  {
  }

  lemma AtSession(c: Codec, chain: seq<Leg>, hasChanger: bool, j: nat, i: nat, items: seq<Item>, pos: nat,
                  current: TapeLabel, rest: seq<seq<Item>>, read: seq<SessionIndex>)
    requires chain != [] && OnTheWay(c, chain, hasChanger, j, i, items, pos, current, rest, read)
    requires pos <= |items| && ReadIndex(c, Concat(Segment(items, pos))).Index?
    ensures j < |chain| && i < |chain[j].cart.sessions| && j < Reach(c, chain, hasChanger)
  {
    hide Segment, SegmentEnd, Concat, ReadIndex, Items, Body, Readable;
    TurnAt(c, chain, j, i, items, pos, current, rest, read);
  }

  lemma NeverDamaged(c: Codec, rec: Recorded, entries: seq<TarEntry>, d: Disk)
    requires Readable(c, rec) && c.untar(Concat(rec.tar)) == Some(entries)
    ensures var files := ReadIndex(c, Concat(rec.index)).idx.files;
      ApplyEntries(c, Everything, files, entries, |entries|, d).verdict != Damage
  {
    hide ApplyEntries, EntryPasses, ReadIndex, Concat;
    var files := ReadIndex(c, Concat(rec.index)).idx.files;
    FinePasses(c, Everything, files, entries, |entries|, d);
  }

  // What the next read finds.
  lemma TurnAt(c: Codec, chain: seq<Leg>, j: nat, i: nat, items: seq<Item>, pos: nat, current: TapeLabel,
               rest: seq<seq<Item>>, read: seq<SessionIndex>)
    requires Standing(c, chain, j, i, items, pos, current, rest, read)
    ensures pos <= |items| && j < |chain| && i <= |chain[j].cart.sessions|
    ensures var head := ReadIndex(c, Concat(Segment(items, pos)));
      var middle := SegmentEnd(items, pos);
      if i < |chain[j].cart.sessions| then
        && head.Index?
        && ReadsTar(c, head.idx.files, Concat(Segment(items, middle)))
        && Standing(c, chain, j, i + 1, items, SegmentEnd(items, middle), current, rest, read + [head.idx])
      else
        && head == PointerRead(c, chain[j].cart)
        && (head.NoIndex? <==> j + 1 == |chain|)
        && (head.Continues? <==> j + 1 < |chain|)
        && (j + 1 < |chain| ==> GoesOn(c, chain[j]))
        && AllReadable(c, SessionsOf(chain[..j + 1])) && read == Headers(c, SessionsOf(chain[..j + 1]))
  {
    hide Segment, SegmentEnd, Items, Body, Concat, ReadIndex, ReadsTar, SessionsOf, PointerRead, Readable;
    if i < |chain[j].cart.sessions| {
      StandsOnRead(c, chain, j, i, items, pos, current, rest, read);
    } else {
      StandsAtTail(c, chain, j, items, pos, current, rest, read);
    }
  }

  // On the way through an intact chain, within the cartridges that will be read.
  ghost predicate OnTheWay(c: Codec, chain: seq<Leg>, hasChanger: bool, j: nat, i: nat, items: seq<Item>, pos: nat,
                           current: TapeLabel, rest: seq<seq<Item>>, read: seq<SessionIndex>)
  {
    && Standing(c, chain, j, i, items, pos, current, rest, read)
    && if hasChanger then LinkedFrom(c, chain, 0) == LinkedFrom(c, chain, j) else j == 0
  }

  lemma SetsOut(c: Codec, chain: seq<Leg>, hasChanger: bool)
    requires chain != [] && IntactChain(c, chain)
    ensures OnTheWay(c, chain, hasChanger, 0, 0, Items(chain[0].cart), |Body(chain[0].cart.heading, [])|,
                     chain[0].tapeLabel,
                     ItemsOfAll(chain[1..]), [])
    ensures var items := Items(chain[0].cart);
      && |items| > 1 && items[0] == Blk(chain[0].cart.heading)
      && DecodeLabel(c, chain[0].cart.heading) == Label(chain[0].tapeLabel)
      && Forward(items, 1, 1) == Some(|Body(chain[0].cart.heading, [])|)
  {
    hide Standing, DecodeLabel, Items, Body, Readable, Forward;
    StandsAtStart(c, chain);
    assert Intact(c, chain[0]);
    LabelAt(chain[0].cart);
  }

  /** One turn of the restore loop: the next session, or a justified end, or the next
      cartridge. */
  lemma NextTurn(c: Codec, chain: seq<Leg>, hasChanger: bool, j: nat, i: nat, items: seq<Item>, pos: nat,
                 current: TapeLabel, rest: seq<seq<Item>>, read: seq<SessionIndex>)
    requires chain != [] && OnTheWay(c, chain, hasChanger, j, i, items, pos, current, rest, read)
    ensures pos <= |items| && FullReads(c, chain, hasChanger, Cancelled, read)
    ensures FullReads(c, chain, hasChanger, ChangerFailed, read)
    ensures var head := ReadIndex(c, Concat(Segment(items, pos)));
      match head
      case Index(idx) =>
        var middle := SegmentEnd(items, pos);
        && ReadsTar(c, idx.files, Concat(Segment(items, middle)))
        && OnTheWay(c, chain, hasChanger, j, i + 1, items, SegmentEnd(items, middle), current, rest, read + [idx])
      case NoIndex => FullReads(c, chain, hasChanger, AllRead, read)
      case Continues(pointer) =>
        if !hasChanger then FullReads(c, chain, hasChanger, NeedsCartridge(pointer), read)
        else if rest == [] || !FollowsOn(c, rest[0], current, pointer) then
          FullReads(c, chain, hasChanger, BrokenChain, read)
        else
          && HeadOf(c, rest[0]).Label? && Forward(rest[0], 0, 1).Some?
          && OnTheWay(c, chain, hasChanger, j + 1, 0, rest[0], Forward(rest[0], 0, 1).value,
                      HeadOf(c, rest[0]).tapeLabel, rest[1..], read)
      case NewerIndex => false
      case Damaged => false
  {
    hide Segment, SegmentEnd, Items, Body, Concat, ReadIndex, ReadsTar, SessionsOf, PointerRead, Readable, Standing,
         LinkHolds, FollowsOn, HeadOf, Forward, AllReadable;
    TurnAt(c, chain, j, i, items, pos, current, rest, read);
    ReadSoFar(c, chain, j, i, items, pos, current, rest, read, Reach(c, chain, hasChanger));
    var head := ReadIndex(c, Concat(Segment(items, pos)));
    if head.Continues? && hasChanger {
      StandsOnNext(c, chain, j, items, pos, current, rest, read);
    }
  }

  /** The tapes at hand are those of an intact chain. */
  ghost predicate AtHand(c: Codec, chain: seq<Leg>, items: seq<Item>, supply: seq<seq<Item>>) {
    && chain != [] && IntactChain(c, chain)
    && items == Items(chain[0].cart) && supply == ItemsOfAll(chain[1..])
  }

  lemma SetsOutAtHand(c: Codec, chain: seq<Leg>, hasChanger: bool, items: seq<Item>, supply: seq<seq<Item>>)
    requires AtHand(c, chain, items, supply)
    ensures chain != [] && |items| > 1 && items[0] == Blk(chain[0].cart.heading)
    ensures DecodeLabel(c, chain[0].cart.heading) == Label(chain[0].tapeLabel)
    ensures Forward(items, 1, 1).Some?
    ensures OnTheWay(c, chain, hasChanger, 0, 0, items, Forward(items, 1, 1).value, chain[0].tapeLabel, supply, [])
  {
    hide IntactChain, Items, OnTheWay, DecodeLabel, Forward, Body;
    SetsOut(c, chain, hasChanger);
  }

  // Reads the label of the first cartridge and goes to its first session.
  method BeginFull(tape: FakeTape, c: Codec, hasChanger: bool, supply: seq<seq<Item>>, ghost chain: seq<Leg>)
    returns (l: Option<TapeLabel>)
    requires tape.Valid()
    modifies tape`pos
    ensures tape.Valid()
    ensures AtHand(c, chain, tape.items, supply) ==>
      l.Some? && chain != [] && OnTheWay(c, chain, hasChanger, 0, 0, tape.items, tape.pos, l.value, supply, [])
  {
    hide AtHand, OnTheWay, DecodeLabel, Forward;
    if AtHand(c, chain, tape.items, supply) {
      SetsOutAtHand(c, chain, hasChanger, tape.items, supply);
    }
    tape.Rewind();
    var block := tape.ReadBlock();
    if block.EndOfFile? {
      return None;
    }
    var present := DecodeLabel(c, block.block);
    if !present.Label? {
      return None;
    }
    var ok := tape.ForwardFilemarks(1);
    l := if ok then Some(present.tapeLabel) else None;
  }

  /** Restores all sessions from the first cartridge on into the destination, following the
      pointers. From an intact chain it reads and writes every session of every cartridge up
      to the first link that does not hold, in order, and nothing else; without a changer it
      stops at the first pointer. An entry the destination refuses ends it. */
  method Full(tape: FakeTape, c: Codec, dest: Destination, hasChanger: bool, supply: seq<seq<Item>>,
              ghost chain: seq<Leg>)
    returns (r: FullResult, read: seq<SessionIndex>)
    requires tape.Valid()
    modifies tape`pos, dest
    ensures AtHand(c, chain, tape.items, supply) ==>
      chain != [] && FullRestores(c, chain, hasChanger, old(dest.disk), r, read, dest.disk)
  {
    hide Segment, SegmentEnd, Concat, ReadIndex, ReadsTar, OnTheWay, AtHand, FollowsOn, Forward, HeadOf, FullReads,
         FullRestores, SkipTo, Wrote, WritesSession, Cleared;
    ghost var good, d0 := AtHand(c, chain, tape.items, supply), dest.disk;
    r, read := NoLabel, [];
    var l := BeginFull(tape, c, hasChanger, supply, chain);
    if l.None? {
      return;
    }
    if good {
      NothingWritten(c, chain, hasChanger, tape.items, supply, tape.pos, l.value, dest.disk);
    }
    var cur, current, rest := tape, l.value, supply;
    ghost var j, i: nat := 0, 0;
    while true
      invariant cur.Valid() && tape.Valid() && (cur == tape || fresh(cur))
      invariant good ==> chain != [] && OnTheWay(c, chain, hasChanger, j, i, cur.items, cur.pos, current, rest, read)
      invariant good ==> Wrote(c, chain, hasChanger, d0, read, dest.disk)
      decreases |rest|, |cur.items| - cur.pos
    {
      var cancelled: bool := *;
      if good {
        NextTurn(c, chain, hasChanger, j, i, cur.items, cur.pos, current, rest, read);
        EndsHere(c, chain, hasChanger, d0, read, dest.disk);
      }
      if cancelled {
        r := Cancelled;
        return;
      }
      var fails: bool := *;
      if fails {
        dest.disk := *;
        r := DestinationFailed;
        return;
      }
      ghost var pos, disk := cur.pos, dest.disk;
      var session := ReadSessionInto(cur, c, dest, Everything);
      if good && ReadIndex(c, Concat(Segment(cur.items, pos))).Index? {
        WritesNext(c, chain, hasChanger, j, i, cur.items, pos, current, rest, read, d0, disk, session, dest.disk);
      }
      match session {
        case EndOfSessions =>
          r := AllRead;
          return;
        case Unreadable =>
          r := Stopped;
          return;
        case WriteFailed =>
          r := WriteRefused;
          return;
        case PointerMet(pointer) =>
          if !hasChanger {
            r := NeedsCartridge(pointer);
            return;
          }
          var next, nextLabel, fault := Follow(c, current, pointer, rest);
          if fault {
            r := ChangerFailed;
            return;
          }
          if next == null {
            r := BrokenChain;
            return;
          }
          cur, current, rest := next, nextLabel, rest[1..];
          j, i := j + 1, 0;
        case SessionDamage =>
          SkipToNextSession(tape);
        case SessionRead(idx) =>
          dest.ApplyTombstones(Everything, idx.files);
          read := read + [idx];
          i := i + 1;
      }
    }
  }

  lemma NothingWritten(c: Codec, chain: seq<Leg>, hasChanger: bool, items: seq<Item>, supply: seq<seq<Item>>,
                       pos: nat, current: TapeLabel, d0: Disk)
    requires chain != [] && OnTheWay(c, chain, hasChanger, 0, 0, items, pos, current, supply, [])
    ensures Wrote(c, chain, hasChanger, d0, [], d0)
  {
    hide Standing, ReadIndex, LinkedFrom, SessionsOf, Segment, SegmentEnd, Concat, ReadsTar, FollowsOn, HeadOf,
         Forward;
    NextTurn(c, chain, hasChanger, 0, 0, items, pos, current, supply, []);
  }

  // However the reading ends here, what was read was written.
  lemma EndsHere(c: Codec, chain: seq<Leg>, hasChanger: bool, d0: Disk, read: seq<SessionIndex>, disk: Disk)
    requires chain != [] && Wrote(c, chain, hasChanger, d0, read, disk)
    requires FullReads(c, chain, hasChanger, Cancelled, read)
    ensures forall r: FullResult :: !r.WriteRefused? && FullReads(c, chain, hasChanger, r, read) ==>
      FullRestores(c, chain, hasChanger, d0, r, read, disk)
    ensures forall d :: FullRestores(c, chain, hasChanger, d0, DestinationFailed, read, d)
  {
    hide LinkedFrom, SessionsOf, Replayed;
  }
}
