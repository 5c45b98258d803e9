/** A backup run over one or more cartridges: parts in order, planned cartridge changes,
    moves of a part off a full cartridge, and the rollback of the catalogue
    (internal/usecase/backup/span.go). */
module SpanRuns {
  import opened Domain
  import opened TapeMachine
  import opened FakeTapes
  import opened Canonical
  import opened TapeFormat
  import opened Layout
  import opened Catalogs
  import opened Snapshots
  import opened TapeNames
  import opened Chains
  import opened Formatting
  import opened WriteParts
  import opened Worlds
  import opened Verifying

  // How a run ends. Only the last two keep rows of a run that did not finish.
  datatype RunEnd = Finished | RolledBack | VerifyFailed | TooBigForCartridge

  // A part that was written: its row, its header, and what lies on the tape.
  datatype PartRec = PartRec(sess: Session, continues: string, dedup: bool, rec: Recorded)

  function Recs(done: seq<PartRec>): (r: seq<Recorded>)
    ensures |r| == |done| && forall k :: 0 <= k < |r| ==> r[k] == done[k].rec
  {
    seq(|done|, k requires 0 <= k < |done| => done[k].rec)
  }

  /** Part k of the run holds exactly the files planned for it. */
  ghost predicate HoldsPart(setup: Setup, jobRunID: string, parts: seq<seq<FileMeta>>, k: nat, d: PartRec)
    requires k < |parts|
  {
    && d.sess.part == k + 1
    && d.sess.jobRunID == jobRunID
    && Records(setup, IndexOf(setup, d.sess, d.continues, parts[k], d.dedup), d.rec)
  }

  ghost predicate HoldParts(setup: Setup, jobRunID: string, parts: seq<seq<FileMeta>>, done: seq<PartRec>) {
    |done| <= |parts| && forall k :: 0 <= k < |done| ==> HoldsPart(setup, jobRunID, parts, k, done[k])
  }

  function Rows(done: seq<PartRec>): (r: seq<Session>)
    ensures |r| == |done| && forall k :: 0 <= k < |r| ==> r[k] == done[k].sess
  {
    seq(|done|, k requires 0 <= k < |done| => done[k].sess)
  }

  /** The catalogue holds what it held before the run, and one row with its files for each
      part written so far. */
  ghost predicate RowsAre(sessions: SessionTable, files: FileTable,
                          rows0: SessionTable, files0: FileTable,
                          created: seq<int>, done: seq<PartRec>, parts: seq<seq<FileMeta>>)
  {
    Entered(sessions, files, rows0, files0, created, Rows(done), parts)
  }

  // What a cartridge is once a part was written behind its first k sessions.
  lemma WithPartIs(c: Codec, cart: Cart, k: nat, rec: Recorded, cont: Option<Continuation>)
    requires Lawful(c) && k <= |cart.sessions|
    requires cont.Some? ==> EncodeContinuation(c, cont.value).Some?
    ensures var after := WithPart(cart, k, rec, PointerBlocks(c, cont));
      && after.heading == cart.heading && after.capacity == cart.capacity
      && |after.sessions| == k + 1 && after.sessions[..k] == cart.sessions[..k] && after.sessions[k] == rec
      && (cont.Some? ==> PointsTo(c, after, cont.value.nextTapeName))
      && (cont.None? ==> after.tail == CLOSED)
  {
    hide Lawful, ReadIndex, EncodeContinuation;
    if cont.Some? {
      var pointer := PointerBlocks(c, cont);
      ContinuationRoundTrip(c, cont.value);
      ConcatOne(pointer[0]);
      assert pointer == [pointer[0]];
    }
  }

  lemma WithoutPartIs(cart: Cart, k: nat)
    requires k <= |cart.sessions|
    ensures var after := WithoutPart(cart, k);
      && after.heading == cart.heading && after.capacity == cart.capacity
      && k <= |after.sessions| && after.sessions[..k] == cart.sessions[..k] && SameFront(cart, after, k)
      && (after == cart || after.sessions == cart.sessions[..k])
  {
    hide Body, PairRoom;
  }

  // A job left out is that of the session before.
  lemma IndexCarriesJob(setup: Setup, sess: Session, continues: string, files: seq<FileMeta>, dedup: bool,
                        before: Option<string>)
    requires dedup ==> before == Some(setup.JobHash())
    ensures var idx := IndexOf(setup, sess, continues, files, dedup);
      && CarriesJob(setup.codec, before, Index(idx))
      && idx.sessionNum == sess.num && idx.formatVersion == FORMAT_VERSION && idx.part == sess.part
  {
    hide CanonicalJobConfig;
  }

  // A part numbered as it lies keeps its cartridge in order.
  lemma PartKeepsOrder(setup: Setup, u: string, cart: Cart, k: nat, rec: Recorded, pointer: seq<Block>,
                       idx: SessionIndex)
    requires Lawful(setup.codec) && InOrder(setup.codec, u, cart) && k <= |cart.sessions|
    requires Records(setup, idx, rec) && idx.sessionNum == k + 1 && idx.formatVersion <= FORMAT_VERSION && idx.part >= 1
    requires WithinCapacity(WithPart(cart, k, rec, pointer))
    requires CarriesJob(setup.codec, HashBefore(setup.codec, cart.sessions, k), Index(idx))
    ensures InOrder(setup.codec, u, WithPart(cart, k, rec, pointer))
  {
    hide Lawful, Records, ReadIndex, Numbered, Items, DecodeLabel, CanonicalIndex, Configured, CarriedHash,
         CanonicalJobConfig;
    RecordedReadsBack(setup, idx, rec);
    NumberedFront(setup.codec, cart.sessions, k);
    ConfiguredFront(setup.codec, cart.sessions, k);
    ConfiguredSnoc(setup.codec, cart.sessions[..k], rec);
    assert cart.sessions[..k] + [rec] == WithPart(cart, k, rec, pointer).sessions;
    NumberedSnoc(setup.codec, cart.sessions[..k], rec, Seal(setup.codec.sha, idx));
  }

  lemma FailureKeepsOrder(c: Codec, u: string, cart: Cart, k: nat)
    requires InOrder(c, u, cart) && k <= |cart.sessions|
    ensures InOrder(c, u, WithoutPart(cart, k))
  {
    hide Numbered, Items, DecodeLabel, WithoutPart, WithinCapacity, Configured;
    FailureFits(cart, k);
    WithoutPartIs(cart, k);
    NumberedFront(c, cart.sessions, k);
    ConfiguredFront(c, cart.sessions, k);
  }

  // A cartridge closed behind its first k sessions is in order if it has the room.
  lemma ClosingKeepsOrder(c: Codec, u: string, cart: Cart, after: Cart, k: nat)
    requires InOrder(c, u, cart) && k <= |cart.sessions|
    requires after.heading == cart.heading && after.sessions == cart.sessions[..k] && WithinCapacity(after)
    ensures InOrder(c, u, after)
  {
    hide Numbered, Items, DecodeLabel, WithinCapacity, Configured;
    NumberedFront(c, cart.sessions, k);
    ConfiguredFront(c, cart.sessions, k);
  }

  // Two cartridges that agree on their first k sessions, and on what these have room in.
  ghost predicate SameFront(a: Cart, b: Cart, k: nat) {
    && a.heading == b.heading && a.capacity == b.capacity
    && k <= |a.sessions| && k <= |b.sessions| && a.sessions[..k] == b.sessions[..k]
  }

  lemma SameRoom(a: Cart, b: Cart, k: nat, size: nat)
    requires SameFront(a, b, k)
    ensures RoomBehind(a, k, size) <==> RoomBehind(b, k, size)
  {
    hide Usage, Body;
  }

  // The cartridges closed by a run are those of the world, and the one in the drive is none
  // of them.
  ghost predicate LegsLie(w: World, legs: seq<Leg>, u: string) {
    forall j :: 0 <= j < |legs| ==> LegLies(w, legs[j]) && legs[j].tapeLabel.uuid != u
  }

  ghost predicate LegLies(w: World, leg: Leg) {
    leg.tapeLabel.uuid in w && w[leg.tapeLabel.uuid] == leg.cart
  }

  lemma LegsLieOn(w: World, legs: seq<Leg>, u: string, cart: Cart)
    requires LegsLie(w, legs, u)
    ensures LegsLie(w[u := cart], legs, u)
  {
  }

  // A new cartridge is none of those closed, and neither is the one it replaces.
  lemma LegsLieApart(w: World, legs: seq<Leg>, u: string, next: string, cart: Cart)
    requires LegsLie(w, legs, u) && u in w && next !in w
    ensures LegsLie(w[next := cart], legs, next)
    ensures w[next := cart][u] == w[u] && u != next
  {
  }

  lemma LegJoins(w: World, legs: seq<Leg>, leg: Leg, u: string)
    requires LegsLie(w, legs, u) && LegLies(w, leg) && leg.tapeLabel.uuid != u
    ensures LegsLie(w, legs + [leg], u)
  {
    hide LegLies;
  }

  // Every part written lies where its row says, on a cartridge of its own.
  ghost predicate AllPlaced(t0: TapeTable, u0: string, n0: nat, w: World, done: seq<PartRec>) {
    && (forall k :: 0 <= k < |done| ==> Placed(t0, u0, n0, w, done[k].sess, done[k].rec))
    && (forall j, k :: 0 <= j < k < |done| ==> done[j].sess.tapeUUID != done[k].sess.tapeUUID)
  }

  ghost predicate NotUsed(done: seq<PartRec>, u: string) {
    forall k :: 0 <= k < |done| ==> done[k].sess.tapeUUID != u
  }

  lemma PlacedElsewhere(t0: TapeTable, u0: string, n0: nat, w: World, done: seq<PartRec>, u: string, cart: Cart)
    requires AllPlaced(t0, u0, n0, w, done) && NotUsed(done, u)
    ensures AllPlaced(t0, u0, n0, w[u := cart], done)
  {
    forall k | 0 <= k < |done|
      ensures Placed(t0, u0, n0, w[u := cart], done[k].sess, done[k].rec)
    {
      assert Placed(t0, u0, n0, w, done[k].sess, done[k].rec);
    }
  }

  lemma NewIsNotUsed(t0: TapeTable, u0: string, n0: nat, w: World, done: seq<PartRec>, u: string)
    requires AllPlaced(t0, u0, n0, w, done) && u !in w
    ensures NotUsed(done, u)
  {
    forall k | 0 <= k < |done| ensures done[k].sess.tapeUUID != u {
      assert Placed(t0, u0, n0, w, done[k].sess, done[k].rec);
    }
  }

  lemma PlacedOne(t0: TapeTable, u0: string, n0: nat, w: World, done: seq<PartRec>, d: PartRec)
    requires AllPlaced(t0, u0, n0, w, done) && NotUsed(done, d.sess.tapeUUID)
    requires Placed(t0, u0, n0, w, d.sess, d.rec)
    ensures AllPlaced(t0, u0, n0, w, done + [d])
  {
    hide Placed;
  }

  lemma NewToWorld(c: Codec, w0: World, t0: TapeTable, u0: string, n0: nat, w: World, t: TapeTable, u: string)
    requires Tracks(c, w0, t0, u0, n0, w, t) && u !in t
    ensures u !in w && u != u0 && u !in t0
  {
    hide InOrder;
  }

  // A new cartridge joins the world and takes the place of the one in the drive.
  lemma WorldGrows(c: Codec, w0: World, t0: TapeTable, u0: string, n0: nat, w: World, t: TapeTable,
                   done: seq<PartRec>, legs: seq<Leg>, u: string, l: TapeLabel, cart: Cart)
    requires Tracks(c, w0, t0, u0, n0, w, t) && AllPlaced(t0, u0, n0, w, done) && LegsLie(w, legs, u) && u in w
    requires l.uuid !in t && l.uuid != "" && InOrder(c, l.uuid, cart)
    ensures Tracks(c, w0, t0, u0, n0, w[l.uuid := cart], t[l.uuid := l.name])
    ensures AllPlaced(t0, u0, n0, w[l.uuid := cart], done) && NotUsed(done, l.uuid)
    ensures LegsLie(w[l.uuid := cart], legs, l.uuid)
    ensures w[l.uuid := cart][u] == w[u] && u != l.uuid && l.uuid != u0 && l.uuid !in t0
  {
    hide AllPlaced, NotUsed, InOrder, Tracks, LegsLie;
    TracksNew(c, w0, t0, u0, n0, w, t, l.uuid, l.name, cart);
    NewToWorld(c, w0, t0, u0, n0, w, t, l.uuid);
    NewIsNotUsed(t0, u0, n0, w, done, l.uuid);
    PlacedElsewhere(t0, u0, n0, w, done, l.uuid, cart);
    LegsLieApart(w, legs, u, l.uuid, cart);
  }

  // Deleting the rows of the run brings the catalogue back.
  ghost predicate Undoable(sessions: SessionTable, files: FileTable,
                           rows0: SessionTable, files0: FileTable, created: seq<int>)
  {
    sessions - AsSet(created) == rows0 && files - AsSet(created) == files0
  }

  method RollbackRows(cat: Catalog, created: seq<int>)
    requires cat.Valid()
    modifies cat`sessions, cat`files
    ensures cat.Valid()
    ensures cat.sessions == old(cat.sessions) - AsSet(created)
    ensures cat.files == old(cat.files) - AsSet(created)
  {
    assert AsSet(created[..0]) == {};
    for i := 0 to |created|
      invariant cat.Valid()
      invariant cat.sessions == old(cat.sessions) - AsSet(created[..i])
      invariant cat.files == old(cat.files) - AsSet(created[..i])
    {
      var ok := cat.DeleteSession(created[i]);
      assert AsSet(created[..i + 1]) == AsSet(created[..i]) + {created[i]};
    }
    assert created[..|created|] == created;
  }

  // What the changer was given: nothing, or a cartridge, the name chosen for it, and the
  // identifier and the room it has.
  datatype Answer = Refusal | Inserted(items: seq<Item>, name: string, uuid: string, room: nat)

  /** A cartridge that can be formatted for the run: it does not begin with a label of the
      family, it has a name, a new identifier, and room for its label. */
  ghost predicate Usable(c: Codec, tapes: TapeTable, a: Answer, now: string) {
    && a.Inserted? && a.name != "" && a.uuid != "" && a.uuid !in tapes
    && (forall l :: !HeadIsOurs(c, a.items, l) && !HeadIsNewer(c, a.items, l) && !HeadIsBroken(c, a.items, l))
    && LabelFits(c, TapeLabel(MAGIC, FORMAT_VERSION, a.name, a.uuid, now), a.room)
  }

  /** The changer's answer: a cartridge that was formatted for the run and registered under
      a fresh identifier, or none. The operator may have chosen another name. */
  method RequestNext(cat: Catalog, c: Codec, name: string, now: string)
    returns (tape: FakeTape?, l: TapeLabel, ghost heading: Block, ghost answer: Answer, ghost fault: bool)
    requires cat.Valid() && Lawful(c) && c.validTime(now)
    modifies cat`tapes
    ensures cat.Valid()
    ensures tape != null ==> fresh(tape) && tape.Valid()
    ensures tape != null ==>
      tape.items == Items(FreshCart(heading, tape.capacity)) && DecodeLabel(c, heading) == Label(l)
    ensures tape != null ==> InOrder(c, l.uuid, FreshCart(heading, tape.capacity))
    ensures tape != null ==> l.uuid != "" && l.uuid !in old(cat.tapes) && cat.tapes == old(cat.tapes)[l.uuid := l.name]
    ensures tape == null ==> cat.tapes == old(cat.tapes)
    ensures tape != null <==> Usable(c, old(cat.tapes), answer, now) && !fault
    ensures tape != null ==> l == TapeLabel("LENTOVODEC_TAPE_V2", 2, answer.name, answer.uuid, now)
    ensures tape != null ==> tape.capacity == answer.room
  {
    hide Lawful, DecodeLabel, EncodeLabel, Items, WithinCapacity, InOrder, HeadIsOurs, HeadIsNewer, HeadIsBroken,
         LabelFits;
    fault, answer := false, Refusal;
    l, heading := TapeLabel("", 0, "", "", ""), [];
    var refused: bool := *;
    var inserted: seq<Item> := *;
    var renamed: bool := *;
    var other: string := *;
    var chosen := if renamed then other else name;
    var uuid: string := *;
    var room: int := *;
    if refused {
      return null, l, heading, answer, fault;
    }
    answer := Inserted(inserted, chosen, uuid, if room > 0 then room else 0);
    if uuid == "" || uuid in cat.tapes {
      return null, l, heading, answer, fault;
    }
    tape := new FakeTape(inserted, if room > 0 then room else 0);
    var r;
    r, fault := Format(tape, cat, c, chosen, false, uuid, now);
    if !r.Formatted? {
      return null, l, heading, answer, fault;
    }
    l := r.tapeLabel;
    heading := EncodeLabel(c, l).value;
    FreshCartInOrder(c, l, heading, tape.capacity);
  }

  // ----- The run ----------------------------------------------------------------------------

  class SpanRun {
    const cat: Catalog
    const setup: Setup
    const parts: seq<seq<FileMeta>>
    const jobRunID: string
    const capacity: int              // from the configuration; 0: no spanning
    const isFull: bool
    const hasChanger: bool
    const verify: bool
    const now: string                // time stamp of labels written during the run

    // the cartridge in the drive
    var tape: FakeTape
    var tapeLabel: TapeLabel
    var lastNum: nat
    var continues: string

    var budget: int
    var prevMoveAtCapacity: bool
    var created: seq<int>

    ghost const rows0: SessionTable             // the catalogue before the run
    ghost const files0: FileTable
    ghost var base: seq<Recorded>                    // sessions kept on the first cartridge of the chain
    ghost var firstLabel: TapeLabel                  // label of the first cartridge of the chain
    ghost var cart: Cart                             // layout of the cartridge in the drive
    ghost var legs: seq<Leg>                         // cartridges closed by this run
    ghost var done: seq<PartRec>                     // parts written so far
    ghost var attempts: nat                          // sessions begun on some cartridge

    ghost const world0: World                        // all cartridges before the run
    ghost const tapes0: TapeTable
    ghost const uuid0: string                        // the cartridge the run began with
    ghost const lastNum0: nat
    ghost var world: World                           // all cartridges now

    constructor (cat: Catalog, setup: Setup, parts: seq<seq<FileMeta>>, jobRunID: string, capacity: int, isFull: bool,
                 hasChanger: bool, verify: bool, now: string, tape: FakeTape, tapeLabel: TapeLabel, lastNum: nat,
                 budget: int, ghost cart: Cart, ghost world: World)
      requires cat.Valid() && Lawful(setup.codec) && setup.codec.validTime(now)
      requires tape.Valid() && tape.items == Items(cart) && DecodeLabel(setup.codec, cart.heading) == Label(tapeLabel)
      requires lastNum <= |cart.sessions| && (isFull ==> lastNum == 0)
      requires tapeLabel.uuid in world && world[tapeLabel.uuid] == cart
      requires tape.capacity == cart.capacity && "" !in cat.tapes
      requires world.Keys <= cat.tapes.Keys && forall u :: u in world ==> InOrder(setup.codec, u, world[u])
      ensures this.cat == cat && this.setup == setup && this.parts == parts && this.jobRunID == jobRunID
      ensures this.tape == tape && this.cart == cart && this.lastNum == lastNum && this.tapeLabel == tapeLabel
      ensures this.capacity == capacity && this.hasChanger == hasChanger && this.verify == verify && this.now == now
      ensures base == cart.sessions[..lastNum] && legs == [] && done == [] && created == [] && attempts == 0
      ensures world0 == world && tapes0 == cat.tapes && uuid0 == tapeLabel.uuid && lastNum0 == lastNum
      ensures firstLabel == tapeLabel && continues == "" && !prevMoveAtCapacity && rows0 == cat.sessions
      ensures files0 == cat.files
      ensures Valid() && AtStart() && WorldOK() && Unused()
    {
      this.cat, this.setup, this.parts, this.jobRunID := cat, setup, parts, jobRunID;
      this.capacity, this.isFull, this.hasChanger, this.verify, this.now := capacity, isFull, hasChanger, verify, now;
      this.tape, this.tapeLabel, this.lastNum, this.continues := tape, tapeLabel, lastNum, "";
      this.budget, this.prevMoveAtCapacity, this.created := budget, false, [];
      rows0, files0 := cat.sessions, cat.files;
      world0, tapes0, uuid0, lastNum0, this.world := world, cat.tapes, tapeLabel.uuid, lastNum, world;
      base, firstLabel, this.cart, legs, done, attempts := cart.sessions[..lastNum], tapeLabel, cart, [], [], 0;
      new;
      hide Lawful, Items, DecodeLabel, HoldsPart, Labelled, Placed;
      EnteredNone(cat.sessions, cat.files, parts);
      assert Rows([]) == [];
      assert SessionsOf([]) + cart.sessions[..lastNum] == base + Recs([]);
    }

    // The cartridge in the drive is laid out as recorded.
    ghost predicate DriveOK()
      reads this`tape, this`cart, this`tapeLabel, this`lastNum, tape
    {
      && tape.Valid()
      && tape.items == Items(cart) && tape.capacity == cart.capacity
      && DecodeLabel(setup.codec, cart.heading) == Label(tapeLabel)
      && lastNum <= |cart.sessions|
    }

    ghost predicate RowsOK()
      reads this`created, this`done, cat
    {
      cat.Valid() && RowsAre(cat.sessions, cat.files, rows0, files0, created, done, parts)
    }

    // The closed cartridges and the one in the drive hold what was there before the run
    // and the parts written so far, in order.
    ghost predicate ChainOK()
      reads this`legs, this`done, this`cart, this`lastNum, this`base, this`firstLabel, this`tapeLabel, this`continues
    {
      && ClosedLegs(setup.codec, setup.job.name, legs)
      && HoldParts(setup, jobRunID, parts, done)
      && lastNum <= |cart.sessions|
      && SessionsOf(legs) + cart.sessions[..lastNum] == base + Recs(done)
      && firstLabel == (if legs == [] then tapeLabel else legs[0].tapeLabel)
      && (legs != [] ==> continues == legs[|legs| - 1].tapeLabel.uuid)
    }

    ghost predicate Valid()
      reads this, tape, cat
    {
      DriveOK() && RowsOK() && ChainOK() && Lawful(setup.codec) && setup.codec.validTime(now)
    }

    // The world is as before the run but for the cartridges of the run, and these hold
    // the parts where their rows say.
    ghost predicate WorldOK()
      reads this`world, this`cart, this`tapeLabel, this`done, this`legs, cat`tapes
    {
      && LegsLie(world, legs, tapeLabel.uuid)
      && Tracks(setup.codec, world0, tapes0, uuid0, lastNum0, world, cat.tapes)
      && AllPlaced(tapes0, uuid0, lastNum0, world, done)
      && tapeLabel.uuid in world && world[tapeLabel.uuid] == cart
      && (tapeLabel.uuid == uuid0 || tapeLabel.uuid !in tapes0)
    }

    lemma DriveInOrder()
      requires WorldOK()
      ensures InOrder(setup.codec, tapeLabel.uuid, cart)
    {
      hide AllPlaced, InOrder, LegsLie;
    }

    // The cartridge in the drive is as the run found it: nothing of the run is counted.
    ghost predicate Unused()
      reads this`done, this`tapeLabel, this`lastNum
    {
      NotUsed(done, tapeLabel.uuid) && lastNum == if tapeLabel.uuid == uuid0 then lastNum0 else 0
    }

    // The drive's cartridge changes behind its first lastNum sessions.
    lemma WorldFollows(after: Cart)
      requires WorldOK() && Unused()
      requires InOrder(setup.codec, tapeLabel.uuid, after)
      requires lastNum <= |cart.sessions| && lastNum <= |after.sessions|
      requires after.sessions[..lastNum] == cart.sessions[..lastNum]
      ensures Tracks(setup.codec, world0, tapes0, uuid0, lastNum0, world[tapeLabel.uuid := after], cat.tapes)
      ensures AllPlaced(tapes0, uuid0, lastNum0, world[tapeLabel.uuid := after], done)
      ensures LegsLie(world[tapeLabel.uuid := after], legs, tapeLabel.uuid)
    {
      hide Tracks, AllPlaced, NotUsed, InOrder, LegsLie;
      LegsLieOn(world, legs, tapeLabel.uuid, after);
      TracksCart(setup.codec, world0, tapes0, uuid0, lastNum0, world, cat.tapes, tapeLabel.uuid, after);
      PlacedElsewhere(tapes0, uuid0, lastNum0, world, done, tapeLabel.uuid, after);
    }

    // Takes note of the new contents of the cartridge in the drive.
    ghost method Note(after: Cart)
      requires WorldOK() && Unused()
      requires InOrder(setup.codec, tapeLabel.uuid, after)
      requires lastNum <= |cart.sessions| && lastNum <= |after.sessions|
      requires after.sessions[..lastNum] == cart.sessions[..lastNum]
      modifies this`cart, this`world
      ensures cart == after && WorldOK() && Unused()
    {
      hide Tracks, AllPlaced, NotUsed, InOrder, LegsLie;
      WorldFollows(after);
      cart, world := after, world[tapeLabel.uuid := after];
    }

    // No part of the run is on the cartridge in the drive yet.
    ghost predicate AtStart()
      reads this`legs, this`done, this`lastNum
    {
      && (legs == [] ==> done == [])
      && (legs != [] ==> lastNum == 0)
      && (isFull ==> lastNum == 0)
    }

    /** Attempts left for the part at hand, less one. */
    ghost function Phase(): nat
      reads this
    {
      if budget != capacity then 2 else if !prevMoveAtCapacity then 1 else 0
    }

    method RollbackRun()
      requires cat.Valid() && Undoable(cat.sessions, cat.files, rows0, files0, created)
      modifies cat`sessions, cat`files
      ensures cat.Valid() && cat.sessions == rows0 && cat.files == files0
    {
      RollbackRows(cat, created);
    }

    lemma RowsCanBeUndone()
      requires RowsOK()
      ensures cat.Valid() && Undoable(cat.sessions, cat.files, rows0, files0, created)
    {
    }

    lemma PartsKept()
      requires Valid()
      ensures cat.Valid() && HoldParts(setup, jobRunID, parts, done)
    {
    }

    method SuggestNextName() returns (name: Option<string>, ghost fault: bool)
      ensures name == if fault then None else Some(NextTapeName(setup.job.name, tapeLabel.name))
    {
      var fails: bool := *;
      fault := fails;
      name := if fails then None else Some(NextTapeName(setup.job.name, tapeLabel.name));
    }

    /** Closes the cartridge in the drive and takes the next one; only the changer or the
        catalogue can fail. */
    method Swap(next: string) returns (ok: bool, ghost fault: bool)
      requires cat.Valid() && Lawful(setup.codec) && setup.codec.validTime(now) && WorldOK()
      modifies this`tape, this`tapeLabel, this`lastNum, this`continues, this`budget, this`cart, this`world, cat`tapes
      ensures cat.Valid() && WorldOK()
      ensures ok ==> Unused()
      ensures ok ==> fresh(tape) && DriveOK() && cart.sessions == [] && lastNum == 0 && budget == capacity
      ensures ok ==> continues == old(tapeLabel).uuid
      ensures ok ==> LegLies(world, Leg(old(tapeLabel), old(cart))) && old(tapeLabel).uuid != tapeLabel.uuid
      ensures !ok ==> unchanged(this)
      ensures ok <==> !fault
    {
      hide Catalog.Valid, Lawful, DecodeLabel, Items, Tracks, AllPlaced, NotUsed, LegsLie, InOrder;
      hide Usable;
      var closeFault: bool := *;
      if closeFault {
        return false, true;
      }
      var t, l;
      ghost var heading, answer;
      t, l, heading, answer, fault := RequestNext(cat, setup.codec, next, now);
      fault := t == null;
      if t == null {
        return false, fault;
      }
      continues := tapeLabel.uuid;
      ghost var fresh' := FreshCart(heading, t.capacity);
      WorldGrows(setup.codec, world0, tapes0, uuid0, lastNum0, world, old(cat.tapes), done, legs, tapeLabel.uuid, l,
                 fresh');
      tape, tapeLabel, lastNum := t, l, 0;
      budget := capacity;
      cart := fresh';
      world := world[l.uuid := cart];
      ok := true;
    }

    // The cartridge in the drive can be closed as a link of the chain.
    ghost predicate Closable()
      reads this`cart, this`tapeLabel, this`lastNum, this`legs, this`continues
    {
      && PointsTo(setup.codec, cart, NextTapeName(setup.job.name, tapeLabel.name))
      && lastNum == |cart.sessions|
      && (legs != [] ==> lastNum <= 1 && FirstContinues(setup.codec, cart, continues))
    }

    ghost method Join(leg: Leg)
      requires WorldOK() && LegLies(world, leg) && leg.tapeLabel.uuid != tapeLabel.uuid
      modifies this`legs
      ensures WorldOK() && legs == old(legs) + [leg]
    {
      hide LegsLie, LegLies, Tracks, AllPlaced;
      LegJoins(world, legs, leg, tapeLabel.uuid);
      legs := legs + [leg];
    }

    // The cartridge in the drive becomes a link of the chain, and the next one is taken.
    method Link(next: string) returns (ok: bool, ghost fault: bool)
      requires Valid() && Closable() && WorldOK()
      modifies this, cat
      ensures cat.Valid() && WorldOK()
      ensures ok ==>
        Valid() && AtStart() && Unused() && fresh(tape) && base == old(base) && firstLabel == old(firstLabel)
      ensures ok ==> legs == old(legs) + [Leg(old(tapeLabel), old(cart))]
      ensures ok ==> budget == capacity && prevMoveAtCapacity == old(prevMoveAtCapacity)
      ensures !ok ==> cat.sessions == rows0 && cat.files == files0
      ensures ok <==> !fault
      ensures attempts == old(attempts) && done == old(done)
    {
      hide Catalog.Valid, WorldOK, Unused, RowsAre, Undoable, Entered, Tracks, AllPlaced, NotUsed, LegsLie, LegLies,
           InOrder, Lawful, HoldParts, Items, DecodeLabel, ReadIndex, NextTapeName, SessionsOf, ClosedLegs, RowIs;
      RowsCanBeUndone();
      ghost var leg := Leg(tapeLabel, cart);
      assert cart.sessions[..lastNum] == cart.sessions;
      SessionsSnoc(legs, leg);
      ClosedLegsSnoc(setup.codec, setup.job.name, legs, leg);
      ok, fault := Swap(next);
      if ok {
        Join(leg);
        assert SessionsOf(legs) + cart.sessions[..0] == SessionsOf(legs);
      } else {
        RollbackRun();
      }
    }

    /** A planned change of cartridge. */
    method Rotate() returns (ok: bool, ghost fault: bool)
      requires Valid() && Closable() && WorldOK()
      modifies this, cat
      ensures cat.Valid() && WorldOK()
      ensures ok ==>
        Valid() && AtStart() && Unused() && fresh(tape) && base == old(base) && firstLabel == old(firstLabel)
      ensures ok ==> legs == old(legs) + [Leg(old(tapeLabel), old(cart))]
      ensures ok ==> budget == capacity && prevMoveAtCapacity == old(prevMoveAtCapacity)
      ensures !ok ==> cat.sessions == rows0 && cat.files == files0
      ensures ok <==> !fault
      ensures attempts == old(attempts) && done == old(done)
    {
      hide Catalog.Valid, WorldOK, Unused, RowsOK, DriveOK, ChainOK, Closable, AtStart, Undoable, Lawful,
           NextTapeName;
      RowsCanBeUndone();
      var next;
      next, fault := SuggestNextName();
      if next.None? {
        RollbackRun();
        return false, fault;
      }
      ok, fault := Link(next.value);
    }

    /** The change of cartridge before the first part, when too little room is left: the old
        cartridge is not part of the chain. */
    method RotateFirst() returns (ok: bool, ghost fault: bool)
      requires Valid() && AtStart() && legs == [] && WorldOK()
      modifies this, cat
      ensures cat.Valid() && WorldOK()
      ensures ok ==> Valid() && AtStart() && Unused() && fresh(tape) && done == [] && legs == [] && base == []
      ensures ok ==> budget == capacity && prevMoveAtCapacity == old(prevMoveAtCapacity)
      ensures !ok ==> cat.sessions == rows0 && cat.files == files0
      ensures ok <==> !fault
      ensures attempts == old(attempts)
    {
      hide Catalog.Valid, WorldOK, Unused, RowsAre, Undoable, Entered, Tracks, AllPlaced, NotUsed, LegsLie, LegLies,
           InOrder, Lawful, HoldParts, Items, DecodeLabel, ReadIndex, NextTapeName;
      RowsCanBeUndone();
      var next;
      next, fault := SuggestNextName();
      ok := next.Some?;
      if ok {
        ok, fault := Swap(next.value);
      }
      if ok {
        base, firstLabel := [], tapeLabel;
        assert SessionsOf([]) + cart.sessions[..0] == [] + Recs([]);
      } else {
        RollbackRun();
      }
    }

    lemma DriveIsRegistered()
      requires WorldOK()
      ensures tapeLabel.uuid in cat.tapes
    {
      hide AllPlaced, LegsLie, InOrder;
    }

    /** The pointer that ends the part at hand; the last part has none. */
    ghost function NextPointer(): Option<Continuation>
      reads this`done, this`lastNum, this`tapeLabel
    {
      if |done| + 1 < |parts|
      then Some(Continuation(jobRunID, lastNum + 1, |done| + 2, NextTapeName(setup.job.name, tapeLabel.name)))
      else None
    }

    /** Builds the row of part k and, unless it is the last one, its pointer; creates the row. */
    method BeginPart(k: nat)
      returns (ok: bool, sess: Session, cont: Option<Continuation>, id: int, ghost fault: bool)
      requires Valid() && AtStart() && k < |parts| && |done| == k && WorldOK()
      modifies cat`sessions, cat`files, cat`nextID
      ensures cat.Valid()
      ensures ok ==> sess.num == lastNum + 1
      ensures ok ==> sess.part == k + 1 && sess.jobRunID == jobRunID && sess.tapeUUID == tapeLabel.uuid
      ensures ok ==> (sess.typ == SESSION_FULL <==> isFull || lastNum == 0) && ValidSessionType(sess.typ)
      ensures ok ==> cont == NextPointer() && ok == !fault
      ensures ok ==> PartBegun(id, sess, cont)
      ensures ok ==> id !in old(cat.sessions) && id !in cat.files
      ensures ok ==> cat.sessions == old(cat.sessions)[id := sess] && cat.files == old(cat.files)
      ensures !ok ==> cat.sessions == rows0 && cat.files == files0 && fault
    {
      hide Catalog.Valid, WorldOK, Unused, RowsAre, Undoable, Entered, Tracks, AllPlaced, NotUsed, LegsLie, LegLies,
           InOrder, Lawful, HoldParts, Items, DecodeLabel, ReadIndex, NextTapeName, SessionsOf, ClosedLegs, RowIs;
      DriveIsRegistered();
      RowsCanBeUndone();
      ghost var before := cat.sessions;
      var clock: int := *;
      sess := Session(tapeLabel.uuid, lastNum + 1, SESSION_INC, clock, jobRunID, k + 1);
      if isFull || lastNum == 0 {
        sess := sess.(num := 1, typ := SESSION_FULL);
      }
      cont, id := None, 0;
      if k + 1 < |parts| {
        var next;
        next, fault := SuggestNextName();
        if next.None? {
          RollbackRun();
          return false, sess, cont, id, fault;
        }
        cont := Some(Continuation(jobRunID, sess.num, k + 2, next.value));
      }
      var r;
      r, fault := cat.CreateSession(sess);
      if r.None? {
        RollbackRun();
        return false, sess, cont, id, fault;
      }
      ok, id := true, r.value;
      assert cat.sessions - {id} == before;
    }

    // Part number |done| is on the cartridge in the drive, behind its first lastNum
    // sessions; its row exists, its files are not saved yet.
    ghost predicate PartOnTape(id: int, d: PartRec)
      reads this, tape, cat
    {
      && DriveOK() && ChainOK() && cat.Valid()
      && |cart.sessions| == lastNum + 1 && cart.sessions[lastNum] == d.rec
      && |done| < |parts| && HoldsPart(setup, jobRunID, parts, |done|, d)
      && d.continues == continues && d.sess.num == lastNum + 1
      && d.sess.tapeUUID == tapeLabel.uuid && ValidSessionType(d.sess.typ)
      && (|done| + 1 < |parts| ==> PointsTo(setup.codec, cart, NextTapeName(setup.job.name, tapeLabel.name)))
      && (|done| + 1 == |parts| ==> cart.tail == CLOSED)
      && RowsAre(cat.sessions - {id}, cat.files, rows0, files0, created, done, parts)
      && id in cat.sessions && cat.sessions[id] == d.sess && id !in cat.files
    }

    // Once committed, the part is among the sessions kept.
    lemma Committed(d: PartRec)
      requires ChainOK()
      requires |cart.sessions| == lastNum + 1 && cart.sessions[lastNum] == d.rec
      requires |done| < |parts| && HoldsPart(setup, jobRunID, parts, |done|, d)
      ensures SessionsOf(legs) + cart.sessions[..lastNum + 1] == base + Recs(done + [d])
      ensures HoldParts(setup, jobRunID, parts, done + [d])
    {
      hide HoldsPart, SessionsOf, ClosedLegs;
      assert cart.sessions[..lastNum + 1] == cart.sessions[..lastNum] + [d.rec];
      assert Recs(done + [d]) == Recs(done) + [d.rec];
      assert SessionsOf(legs) + (cart.sessions[..lastNum] + [d.rec]) ==
             SessionsOf(legs) + cart.sessions[..lastNum] + [d.rec];
    }

    // A part that opens its cartridge points back to the cartridge before.
    lemma OpensCartridge(d: PartRec)
      requires Lawful(setup.codec)
      requires |done| < |parts| && HoldsPart(setup, jobRunID, parts, |done|, d)
      requires |cart.sessions| == 1 && cart.sessions[0] == d.rec && d.continues == continues
      ensures FirstContinues(setup.codec, cart, continues)
    {
      hide Lawful, ReadIndex;
      RecordedReadsBack(setup, IndexOf(setup, d.sess, d.continues, parts[|done|], d.dedup), d.rec);
    }

    lemma PartIsPlaced(d: PartRec)
      requires WorldOK() && Unused()
      requires |cart.sessions| == lastNum + 1 && cart.sessions[lastNum] == d.rec
      requires d.sess.num == lastNum + 1 && d.sess.tapeUUID == tapeLabel.uuid
      ensures AllPlaced(tapes0, uuid0, lastNum0, world, done + [d])
    {
      hide Tracks, AllPlaced, NotUsed;
      PlacedOne(tapes0, uuid0, lastNum0, world, done, d);
    }

    /** Saves the files of the written part; a failure rolls the run back. */
    method EnterPart(id: int, ghost d: PartRec) returns (ok: bool, ghost fault: bool)
      requires PartOnTape(id, d) && WorldOK() && AllPlaced(tapes0, uuid0, lastNum0, world, done + [d])
      modifies this`created, this`done, cat`sessions, cat`files
      ensures cat.Valid() && WorldOK()
      ensures ok ==> RowsOK() && done == old(done) + [d] && |created| == |done|
      ensures !ok ==> cat.sessions == rows0 && cat.files == files0
      ensures ok <==> !fault
    {
      hide Catalog.Valid, Tracks, AllPlaced, NotUsed, LegsLie, LegLies, InOrder, Lawful, Items, DecodeLabel,
           ReadIndex, NextTapeName, SessionsOf, ClosedLegs, HoldsPart, HoldParts;
      created := created + [id];
      ghost var s, f := cat.sessions - {id}, cat.files;
      ok, fault := cat.SaveFiles(id, parts[|created| - 1]);
      if ok {
        assert f - {id} == f;
        EnteredOne(s, f, cat.sessions, cat.files, rows0, files0, old(created), Rows(done), parts, id, d.sess);
        assert Rows(done + [d]) == Rows(done) + [d.sess];
        done := done + [d];
      } else {
        assert AsSet(created) == AsSet(old(created)) + {id};
        RollbackRun();
      }
    }

    // The drive holds the end of what was written so far, fit to be closed if more follows.
    ghost predicate Settled()
      reads this`cart, this`tapeLabel, this`lastNum, this`legs, this`continues, this`done
    {
      && lastNum == |cart.sessions|
      && (legs != [] ==> lastNum == 1 && FirstContinues(setup.codec, cart, continues))
      && (|done| < |parts| ==> PointsTo(setup.codec, cart, NextTapeName(setup.job.name, tapeLabel.name)))
      && (|done| == |parts| ==> cart.tail == CLOSED)
    }

    // Re-reads the part that was written last.
    method Verified(sess: Session) returns (good: bool, ghost mediumFault: bool)
      requires DriveOK() && 0 < |created| <= |parts| && 0 < sess.num <= |cart.sessions|
      modifies tape`pos
      ensures DriveOK()
      ensures !good ==>
        mediumFault || !Passes(setup.codec, cart.sessions[sess.num - 1], |parts[|created| - 1]|)
    {
      hide Items, DecodeLabel, Passes;
      good, mediumFault := VerifyPart(tape, setup.codec, sess.num, parts[|created| - 1], cart);
    }

    // A written part with distinct paths passes its verification.
    lemma PartPasses(d: PartRec)
      requires Lawful(setup.codec)
      requires |done| < |parts| && HoldsPart(setup, jobRunID, parts, |done|, d)
      ensures DistinctPaths(parts[|done|]) ==> Passes(setup.codec, d.rec, |parts[|done|]|)
    {
      hide Lawful, Records, Passes, DistinctPaths;
      if DistinctPaths(parts[|done|]) {
        WrittenPartPasses(setup, IndexOf(setup, d.sess, d.continues, parts[|done|], d.dedup), d.rec);
      }
    }

    // Catalogue, verification, bookkeeping.
    method Settle(sess: Session, id: int, ghost d: PartRec) returns (r: RunEnd, ghost fault: bool)
      requires Lawful(setup.codec) && setup.codec.validTime(now)
      requires AtStart() && PartOnTape(id, d) && sess == d.sess && WorldOK() && Unused()
      modifies this`created, this`done, this`lastNum, this`prevMoveAtCapacity, cat`sessions, cat`files, tape`pos
      ensures cat.Valid() && WorldOK() && (r.Finished? || r.RolledBack? || r.VerifyFailed?)
      ensures r.RolledBack? ==> cat.sessions == rows0 && cat.files == files0
      ensures r.VerifyFailed? ==>
        verify && RowsOK() && HoldParts(setup, jobRunID, parts, done) && done == old(done) + [d]
      ensures r.Finished? ==> Valid() && Settled() && done == old(done) + [d] && !prevMoveAtCapacity
      ensures r.Finished? ==> |created| == |done|
      ensures r.Finished? ==> !fault
      ensures r.RolledBack? ==> fault
      ensures r.VerifyFailed? ==> fault || !DistinctPaths(parts[|old(done)|])
    {
      hide Catalog.Valid, WorldOK, Unused, RowsAre, Undoable, Entered, Tracks, AllPlaced, NotUsed, LegsLie, LegLies,
           InOrder, Lawful, Items, DecodeLabel, ReadIndex, NextTapeName, SessionsOf, ClosedLegs, HoldsPart, HoldParts,
           PointsTo, FirstContinues, HasLabel, Recs, Records, IndexOf, ValidSessionType, RowIs, DistinctPaths,
           Passes;
      PartPasses(d);
      Committed(d);
      PartIsPlaced(d);
      if lastNum == 0 {
        OpensCartridge(d);
      }
      var saved;
      saved, fault := EnterPart(id, d);
      if !saved {
        return RolledBack, fault;
      }
      if verify {
        var good;
        good, fault := Verified(sess);
        if !good {
          return VerifyFailed, fault;
        }
        fault := false;
      }
      lastNum := sess.num;
      prevMoveAtCapacity := false;
      r := Finished;
    }

    /** Enters a written part into the catalogue; then the planned change of cartridge,
        unless it was the last part. */
    method Commit(sess: Session, id: int, ghost d: PartRec) returns (r: RunEnd, ghost fault: bool)
      requires Lawful(setup.codec) && setup.codec.validTime(now)
      requires AtStart() && PartOnTape(id, d) && sess == d.sess && WorldOK() && Unused()
      modifies this, tape, cat
      ensures cat.Valid() && WorldOK() && attempts == old(attempts)
      ensures r != TooBigForCartridge
      ensures r.RolledBack? ==> cat.sessions == rows0 && cat.files == files0
      ensures r.VerifyFailed? ==>
        verify && RowsOK() && HoldParts(setup, jobRunID, parts, done) && done == old(done) + [d]
      ensures r.Finished? ==>
        Valid() && done == old(done) + [d] && !prevMoveAtCapacity && base == old(base) && firstLabel == old(firstLabel)
      ensures r.Finished? && |done| < |parts| ==> AtStart() && Unused() && fresh(tape) && budget == capacity
      ensures r.Finished? && |done| == |parts| ==> Settled() && tape == old(tape) && budget == old(budget)
      ensures r.Finished? ==> !fault
      ensures r.RolledBack? ==> fault
      ensures r.VerifyFailed? ==> fault || !DistinctPaths(parts[|old(done)|])
    {
      hide Catalog.Valid, WorldOK, Unused, RowsAre, Undoable, Entered, Tracks, AllPlaced, NotUsed, LegsLie, LegLies,
           InOrder, Lawful, Items, DecodeLabel, ReadIndex, NextTapeName, SessionsOf, ClosedLegs, HoldsPart, HoldParts,
           PointsTo, FirstContinues, HasLabel, Recs, Records, IndexOf, ValidSessionType, RowIs, DistinctPaths;
      r, fault := Settle(sess, id, d);
      if r.Finished? && |created| < |parts| {
        var ok;
        ok, fault := Rotate();
        r := if ok then Finished else RolledBack;
      }
    }

    /** The part at hand has no room behind the sessions kept on the cartridge in the drive. */
    ghost predicate Refused(sess: Session, dedup: bool)
      reads this`done, this`lastNum, this`cart, this`continues, this`tapeLabel
    {
      && |done| < |parts| && lastNum <= |cart.sessions|
      && sess.num == lastNum + 1 && sess.part == |done| + 1 && sess.jobRunID == jobRunID
      && (dedup ==> HashBefore(setup.codec, cart.sessions, lastNum) == Some(setup.JobHash()))
      && !RoomBehind(cart, lastNum,
                     PartSize(setup, IndexOf(setup, sess, continues, parts[|done|], dedup), NextPointer()))
    }

    /** A file of the part at hand is not valid or changed since the scan, or the pointer to
        the next cartridge takes more than a block. */
    ghost predicate Unwritable()
      reads this`done, this`lastNum, this`tapeLabel
    {
      && |done| < |parts|
      && (|| (exists i :: 0 <= i < |parts[|done|]| && !ValidFile(parts[|done|][i]))
          || !Unchanged(setup.codec, parts[|done|], setup.content)
          || (NextPointer().Some? && EncodeContinuation(setup.codec, NextPointer().value).None?))
    }

    /** The cartridge in the drive cannot be closed behind the sessions it keeps: the pointer
        and two marks find no room, or the pointer takes more than a block. */
    ghost predicate ClosingRefused()
      reads this`done, this`lastNum, this`cart, this`tapeLabel
    {
      && lastNum <= |cart.sessions|
      && (|| !RoomBehind(cart, lastNum, BLOCK_SIZE + 2)
          || EncodeContinuation(setup.codec, Continuation(jobRunID, lastNum + 1, |done| + 1,
                                                          NextTapeName(setup.job.name, tapeLabel.name))).None?)
    }

    /** The part at hand found no room. */
    ghost predicate NoRoom()
      reads this`done, this`lastNum, this`cart, this`continues, this`tapeLabel
    {
      exists sess, dedup :: Refused(sess, dedup)
    }

    /** Why a run without faults is rolled back: the part at hand cannot be written anywhere,
        or it found no room and cannot be moved. */
    ghost predicate Stuck()
      reads this`done, this`lastNum, this`cart, this`continues, this`tapeLabel
    {
      Unwritable() || (NoRoom() && (!hasChanger || capacity <= 0 || ClosingRefused()))
    }

    /** Closes a full cartridge behind the sessions it keeps with a pointer to the next
        one. */
    method AbandonTape(sess: Session, part: nat, next: string) returns (ok: bool)
      requires DriveOK() && Lawful(setup.codec) && WorldOK() && Unused()
      modifies tape, this`cart, this`world
      ensures DriveOK() && WorldOK() && Unused() && cart.sessions[..lastNum] == old(cart).sessions[..lastNum]
      ensures ok ==> PointerRead(setup.codec, cart) == Continues(Continuation(jobRunID, sess.num, part, next))
      ensures ok ==> |cart.sessions| == lastNum
      ensures SameFront(old(cart), cart, lastNum)
      ensures ok <==>
        && EncodeContinuation(setup.codec, Continuation(jobRunID, sess.num, part, next)).Some?
        && RoomBehind(cart, lastNum, BLOCK_SIZE + 2)
    {
      hide Catalog.Valid, WorldOK, Unused, RowsAre, Undoable, Entered, Tracks, AllPlaced, NotUsed, LegsLie, LegLies,
           InOrder, Lawful, Items, DecodeLabel, ReadIndex, EncodeContinuation, Forward, Body, Usage, HasRoom,
           RoomBehind;
      PositionOf(cart, lastNum);
      RoomIs(cart, lastNum, BLOCK_SIZE + 2);
      ghost var before := cart;
      var pointer := Continuation(jobRunID, sess.num, part, next);
      ghost var blocks, marks;
      ok, blocks, marks := WritePointerEnd(tape, setup.codec, pointer, lastNum);
      if blocks != [] {
        ghost var after := cart.(sessions := cart.sessions[..lastNum], tail := Tail(blocks, marks));
        ItemsAre(after);
        DriveInOrder();
        ClosingKeepsOrder(setup.codec, tapeLabel.uuid, cart, after, lastNum);
        Note(after);
        ContinuationRoundTrip(setup.codec, pointer);
        ConcatOne(blocks[0]);
        assert blocks == [blocks[0]];
      }
      SameRoom(before, cart, lastNum, BLOCK_SIZE + 2);
    }

    /** Moves a part that did not fit to the next cartridge. A second refusal at the full
        budget ends the run without a rollback. */
    method MoveAfterENOSPC(k: nat, sess: Session, ghost dedup: bool) returns (r: RunEnd, ghost fault: bool)
      requires Valid() && AtStart() && |done| == k < |parts| && WorldOK() && Unused() && Refused(sess, dedup)
      modifies this, tape, cat
      ensures cat.Valid() && WorldOK() && attempts == old(attempts) && done == old(done)
      ensures r != VerifyFailed
      ensures r.Finished? ==>
        Valid() && AtStart() && Unused() && fresh(tape) && base == old(base) && firstLabel == old(firstLabel)
      ensures r.Finished? ==> old(Phase()) > 0 && Phase() < old(Phase())
      ensures r.Finished? ==> legs != [] && !fault
      ensures r.TooBigForCartridge? ==> Refused(sess, dedup) && unchanged(this)
      ensures r.TooBigForCartridge? ==> old(Phase()) == 0 && RowsOK() && HoldParts(setup, jobRunID, parts, done)
      ensures r.RolledBack? && !fault ==> Refused(sess, dedup) && ClosingRefused()
      ensures r.RolledBack? ==> cat.sessions == rows0 && cat.files == files0
    {
      hide Catalog.Valid, WorldOK, Unused, RowsAre, Undoable, Entered, Tracks, AllPlaced, NotUsed, LegsLie, LegLies,
           InOrder, Lawful, Items, DecodeLabel, ReadIndex, NextTapeName, SessionsOf, ClosedLegs, HoldParts, RowIs,
           Refused, ClosingRefused, RowsOK, DriveOK, ChainOK, Closable, AtStart;
      PartsKept();
      fault := false;
      var moveAtCapacity := budget == capacity;
      if moveAtCapacity && prevMoveAtCapacity {
        return TooBigForCartridge, fault;
      }
      prevMoveAtCapacity := moveAtCapacity;
      var next;
      next, fault := SuggestNextName();
      if next.None? {
        RowsCanBeUndone();
        RollbackRun();
        return RolledBack, fault;
      }
      var ok := AbandonForPart(k, sess, next.value, dedup);
      if !ok {
        RowsCanBeUndone();
        RollbackRun();
        return RolledBack, fault;
      }
      ok, fault := Link(next.value);
      r := if ok then Finished else RolledBack;
    }

    /** Closes the cartridge that refused the part at hand, if it can be closed. */
    method AbandonForPart(k: nat, sess: Session, next: string, ghost dedup: bool) returns (ok: bool)
      requires Valid() && AtStart() && WorldOK() && Unused() && Refused(sess, dedup) && |done| == k
      requires next == NextTapeName(setup.job.name, tapeLabel.name)
      modifies tape, this`cart, this`world
      ensures Valid() && AtStart() && WorldOK() && Unused() && Refused(sess, dedup)
      ensures if ok then Closable() else ClosingRefused()
    {
      hide Catalog.Valid, WorldOK, Unused, RowsAre, Undoable, Entered, Tracks, AllPlaced, NotUsed, LegsLie, LegLies,
           InOrder, Lawful, Items, DecodeLabel, ReadIndex, NextTapeName, SessionsOf, ClosedLegs, HoldParts, RowIs,
           Refused, PartSize, RoomBehind, NextPointer, CarriedHash, EncodeContinuation;
      RefusedIs(sess, dedup);
      ghost var before := cart;
      ok := AbandonTape(sess, k + 1, next);
      StillRefused(before, sess, dedup);
      if ok {
        AbandonedCloses();
      }
    }

    // An abandoned cartridge is a link of the chain; a fresh one holds no session.
    lemma AbandonedCloses()
      requires |cart.sessions| == lastNum && AtStart()
      ensures legs != [] ==> cart.sessions == [] && FirstContinues(setup.codec, cart, legs[|legs| - 1].tapeLabel.uuid)
    {
    }

    // The row of part number |done| exists; nothing of it is on a cartridge yet.
    ghost predicate PartBegun(id: int, sess: Session, cont: Option<Continuation>)
      reads this, tape, cat
    {
      && DriveOK() && ChainOK() && Lawful(setup.codec) && setup.codec.validTime(now) && cat.Valid()
      && |done| < |parts|
      && sess.num == lastNum + 1 && sess.part == |done| + 1 && sess.jobRunID == jobRunID
      && sess.tapeUUID == tapeLabel.uuid && ValidSessionType(sess.typ)
      && cont == NextPointer()
      && RowsAre(cat.sessions - {id}, cat.files, rows0, files0, created, done, parts)
      && id in cat.sessions && cat.sessions[id] == sess && id !in cat.files
    }

    /** Writes the part begun onto the cartridge in the drive, or brings the cartridge and
        the catalogue back to where they were. */
    method Attempt(sess: Session, cont: Option<Continuation>, id: int)
      returns (w: PartResult, ghost d: PartRec, ghost fault: bool)
      requires PartBegun(id, sess, cont) && WorldOK() && Unused()
      modifies tape, cat`sessions, cat`files, this`cart, this`world, this`attempts
      ensures WorldOK() && Unused()
      ensures attempts == old(attempts) + 1
      ensures !w.NotPositioned?
      ensures w.PartWritten? ==> PartOnTape(id, d) && d.sess == sess
      ensures !w.PartWritten? ==> Valid() && SameFront(old(cart), cart, lastNum)
      ensures !w.PartFailed? ==>
        (w.PartWritten? <==>
          RoomBehind(old(cart), lastNum,
                     PartSize(setup, IndexOf(setup, sess, continues, parts[|done|], d.dedup), cont)))
      ensures w.PartFull? ==> Refused(sess, d.dedup)
      ensures d.dedup ==> HashBefore(setup.codec, old(cart).sessions, lastNum) == Some(setup.JobHash())
      ensures w.PartFailed? ==> fault || Unwritable()
    {
      hide Catalog.Valid, WorldOK, Unused, RowsAre, Undoable, Entered, Tracks, AllPlaced, NotUsed, LegsLie, LegLies,
           InOrder, Lawful, Items, DecodeLabel, ReadIndex, NextTapeName, SessionsOf, ClosedLegs, HoldParts, RowIs,
           Records, Forward, EncodeContinuation, PreviousHash, WithPart, WithoutPart, PointerBlocks, PointsTo,
           SessionItems, PairRoom, Recs, Body, Restored, PartSize, RoomBehind, CarriedHash, CarriesJob, IndexOf,
           SameFront, CanWrite;
      ghost var rec, dedup;
      ghost var before := cart;
      ghost var files := cat.files;
      DriveInOrder();
      w, rec, dedup, fault := WritePartOnCart(tape, cat, setup, sess, id, parts[sess.part - 1], lastNum, continues,
                                              cont, cart);
      attempts := attempts + 1;
      d := PartRec(sess, continues, dedup, rec);
      if w.PartWritten? {
        ghost var after := WithPart(cart, lastNum, rec, PointerBlocks(setup.codec, cont));
        IndexCarriesJob(setup, sess, continues, parts[sess.part - 1], dedup,
                        HashBefore(setup.codec, cart.sessions, lastNum));
        WithPartIs(setup.codec, cart, lastNum, rec, cont);
        PartKeepsOrder(setup, tapeLabel.uuid, cart, lastNum, rec, PointerBlocks(setup.codec, cont),
                       IndexOf(setup, sess, continues, parts[sess.part - 1], dedup));
        Note(after);
      } else {
        ghost var after := WithoutPart(cart, lastNum);
        WithoutPartIs(cart, lastNum);
        FailureKeepsOrder(setup.codec, tapeLabel.uuid, cart, lastNum);
        Note(after);
        assert files - {id} == files;
        StillRefused(before, sess, dedup);
        NotWritable(sess, dedup);
      }
    }

    lemma RefusedIs(sess: Session, dedup: bool)
      requires Refused(sess, dedup)
      ensures |done| < |parts| && lastNum <= |cart.sessions|
      ensures sess.num == lastNum + 1 && sess.part == |done| + 1 && sess.jobRunID == jobRunID
      ensures dedup ==> HashBefore(setup.codec, cart.sessions, lastNum) == Some(setup.JobHash())
      ensures !RoomBehind(cart, lastNum,
                          PartSize(setup, IndexOf(setup, sess, continues, parts[|done|], dedup), NextPointer()))
    {
      hide RoomBehind, CarriedHash, PartSize, NextPointer;
    }

    // What has no room before the failure has none behind it either.
    lemma StillRefused(before: Cart, sess: Session, dedup: bool)
      requires |done| < |parts| && lastNum <= |before.sessions| && SameFront(before, cart, lastNum)
      requires sess.num == lastNum + 1 && sess.part == |done| + 1 && sess.jobRunID == jobRunID
      requires dedup ==> HashBefore(setup.codec, before.sessions, lastNum) == Some(setup.JobHash())
      ensures Refused(sess, dedup) <==>
        !RoomBehind(before, lastNum,
                    PartSize(setup, IndexOf(setup, sess, continues, parts[|done|], dedup), NextPointer()))
    {
      hide RoomBehind, CarriedHash, PartSize, NextPointer;
      SameRoom(before, cart, lastNum,
               PartSize(setup, IndexOf(setup, sess, continues, parts[|done|], dedup), NextPointer()));
    }

    lemma NotWritable(sess: Session, dedup: bool)
      requires |done| < |parts| && ValidSessionType(sess.typ)
      ensures CanWrite(setup, IndexOf(setup, sess, continues, parts[|done|], dedup), NextPointer()) <==> !Unwritable()
    {
      hide EncodeContinuation, NextPointer, Unchanged;
    }

    /** A part that found no room is moved if there is a changer and a capacity. */
    predicate CanMoveAfterFull(w: PartResult) {
      w.PartFull? && hasChanger && capacity > 0
    }

    /** One attempt at part k: it is entered and the run moves on, or it is moved to another
        cartridge, or the run ends. */
    method Turn(k: nat)
      returns (r: RunEnd, moved: bool, ghost w: Option<PartResult>, ghost sess: Session, ghost dedup: bool,
               ghost fault: bool)
      requires Valid() && AtStart() && |done| == k < |parts| && WorldOK() && Unused()
      modifies this, tape, cat
      ensures cat.Valid() && WorldOK() && attempts <= old(attempts) + 1
      ensures r.Finished? ==>
        Valid() && base == old(base) && firstLabel == old(firstLabel) && (tape == old(tape) || fresh(tape))
      ensures moved <==> w == Some(PartFull) && hasChanger && capacity > 0
      ensures w.None? ==> r.RolledBack? && fault
      ensures w.Some? ==>
        && !w.value.NotPositioned? && sess.num == old(lastNum) + 1 && sess.part == k + 1 && sess.jobRunID == jobRunID
        && (dedup ==> HashBefore(setup.codec, old(cart).sessions, old(lastNum)) == Some(setup.JobHash()))
      ensures w.Some? && !w.value.PartFailed? ==>
        (w.value.PartWritten? <==>
          RoomBehind(old(cart), old(lastNum),
                     PartSize(setup, IndexOf(setup, sess, old(continues), parts[k], dedup), old(NextPointer()))))
      ensures w == Some(PartWritten) && r.RolledBack? ==> fault
      ensures r.VerifyFailed? ==> w == Some(PartWritten) && (fault || !DistinctPaths(parts[k]))
      ensures w == Some(PartFailed) ==> r.RolledBack? && (fault || Unwritable())
      ensures w == Some(PartFull) && !moved ==> r.RolledBack?
      ensures moved ==> r.Finished? || r.TooBigForCartridge? || fault || ClosingRefused()
      ensures (r.RolledBack? && !fault && w == Some(PartFull)) || r.TooBigForCartridge? ==> Refused(sess, dedup)
      ensures r.TooBigForCartridge? ==>
        moved && budget == capacity && old(prevMoveAtCapacity) && lastNum == old(lastNum)
      ensures r.Finished? ==> !fault
      ensures r.Finished? && moved ==> |done| == k && legs != [] && Phase() < old(Phase()) && AtStart() && Unused()
      ensures r.Finished? && !moved ==> |done| == k + 1 && !prevMoveAtCapacity
      ensures r.Finished? && !moved && k + 1 < |parts| ==> AtStart() && Unused() && budget == capacity
      ensures r.Finished? && !moved && k + 1 == |parts| ==> Settled() && budget == old(budget)
      ensures r.RolledBack? ==> cat.sessions == rows0 && cat.files == files0
      ensures r.VerifyFailed? ==> verify && RowsOK() && HoldParts(setup, jobRunID, parts, done) && |done| == k + 1
      ensures r.TooBigForCartridge? ==>
        RowsOK() && HoldParts(setup, jobRunID, parts, done) && |done| == k && capacity > 0
    {
      hide Catalog.Valid, WorldOK, Unused, RowsAre, Undoable, Entered, Tracks, AllPlaced, NotUsed, LegsLie, LegLies,
           InOrder, Lawful, Items, DecodeLabel, ReadIndex, NextTapeName, SessionsOf, ClosedLegs, HoldParts,
           FirstContinues, HoldsPart, PointsTo, RowIs, Recs, Records, IndexOf, ValidSessionType, DistinctPaths,
           Unwritable, Refused, ClosingRefused, PartSize, RoomBehind, NextPointer, CarriedHash, SameFront, PartBegun,
           PartOnTape;
      w, dedup := None, false;
      var ok, row, cont, id;
      ok, row, cont, id, fault := BeginPart(k);
      moved, sess := false, row;
      if !ok {
        return RolledBack, moved, w, sess, dedup, fault;
      }
      var result;
      ghost var d;
      result, d, fault := Attempt(row, cont, id);
      w, dedup := Some(result), d.dedup;
      if result.PartWritten? {
        r, fault := Commit(row, id, d);
      } else if !CanMoveAfterFull(result) {
        RowsCanBeUndone();
        RollbackRun();
        r := RolledBack;
      } else {
        r, fault := MoveAfterENOSPC(k, row, dedup);
        moved := true;
      }
    }

    /** The whole run. It ends after at most two attempts for each part and one more; it
        enters all parts into the catalogue, or none, except at the two exits that keep the
        parts written so far. */
    method Run(newTape: bool) returns (r: RunEnd, ghost fault: bool)
      requires Valid() && AtStart() && legs == [] && done == [] && attempts == 0 && !prevMoveAtCapacity
      requires WorldOK() && Unused()
      requires parts != []
      modifies this, tape, cat
      ensures cat.Valid() && WorldOK()
      ensures attempts <= 2 * |parts| + 1
      ensures r.Finished? ==> Valid() && Settled() && |done| == |parts|
      ensures r.Finished? ==> base == if newTape && hasChanger then [] else old(base)
      ensures r.Finished? && !(newTape && hasChanger) ==> firstLabel == old(firstLabel)
      ensures r.RolledBack? ==> cat.sessions == rows0 && cat.files == files0
      ensures r.VerifyFailed? ==> verify && RowsOK() && HoldParts(setup, jobRunID, parts, done) && 0 < |done| <= |parts|
      ensures r.TooBigForCartridge? ==>
        RowsOK() && HoldParts(setup, jobRunID, parts, done) && |done| < |parts| && capacity > 0
      ensures r.Finished? ==> !fault
      ensures r.RolledBack? ==> fault || Stuck()
      ensures r.VerifyFailed? ==> fault || !DistinctPaths(parts[|done| - 1])
      ensures r.TooBigForCartridge? ==> NoRoom() && lastNum == 0 && hasChanger && budget == capacity
    {
      hide Catalog.Valid, WorldOK, Unused, RowsAre, Undoable, Entered, Tracks, AllPlaced, NotUsed, LegsLie, LegLies,
           InOrder, Lawful, Items, DecodeLabel, ReadIndex, NextTapeName, SessionsOf, ClosedLegs, HoldParts,
           FirstContinues, HoldsPart, PointsTo, RowIs, Recs, Records, IndexOf, ValidSessionType, DistinctPaths,
           Unwritable, Refused, ClosingRefused, PartSize, RoomBehind, NextPointer, CarriedHash;
      fault := false;
      if newTape && hasChanger {
        var ok;
        ok, fault := RotateFirst();
        if !ok {
          return RolledBack, fault;
        }
      }
      var k := 0;
      r := Finished;
      while k < |parts|
        invariant r.Finished? && Valid() && |done| == k <= |parts| && WorldOK()
        invariant tape == old(tape) || fresh(tape)
        invariant if k < |parts| then AtStart() && Unused() else Settled()
        invariant base == if newTape && hasChanger then [] else old(base)
        invariant !(newTape && hasChanger) ==> firstLabel == old(firstLabel)
        invariant attempts <= 2 * k + 2 - Phase()
        invariant k == |parts| ==> attempts <= 2 * k + 1
        invariant !fault && (prevMoveAtCapacity ==> legs != [])
        decreases |parts| - k, Phase()
      {
        var moved;
        ghost var w, sess, dedup;
        r, moved, w, sess, dedup, fault := Turn(k);
        if !r.Finished? {
          return;
        }
        if !moved {
          k := k + 1;
        }
      }
    }
  }
}
