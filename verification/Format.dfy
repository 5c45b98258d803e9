/** Formatting a cartridge: label, two marks, registration
    (internal/usecase/format/usecase.go). */
module Formatting {
  import opened Domain
  import opened TapeMachine
  import opened FakeTapes
  import opened TapeFormat
  import opened Layout
  import opened Catalogs

  datatype FormatResult =
    | Formatted(tapeLabel: TapeLabel)
    | EmptyName
    | AlreadyFormatted(present: TapeLabel)
    | UnreadableLabel              // a newer format, or a broken label of ours
    | FormatFailed

  /** What a tape starts with, as a label. */
  function HeadOf(c: Codec, items: seq<Item>): LabelResult {
    if items == [] || items[0].Mark? then Blank else DecodeLabel(c, items[0].data)
  }

  // What the first block of a tape says, if it says something.
  ghost predicate HeadSays(c: Codec, items: seq<Item>, d: Document) {
    items != [] && items[0].Blk? && TrimZeros(items[0].data) != [] && c.parse(TrimZeros(items[0].data)) == d
  }

  /** A label this program wrote, or could have written. */
  ghost predicate HeadIsOurs(c: Codec, items: seq<Item>, l: TapeLabel) {
    && HeadSays(c, items, LabelDoc(l))
    && l.magic == "LENTOVODEC_TAPE_V2" && l.formatVersion <= 2 && c.validTime(l.formattedAt)
  }

  /** A label of the family, but of another magic or a newer version. */
  ghost predicate HeadIsNewer(c: Codec, items: seq<Item>, l: TapeLabel) {
    && HeadSays(c, items, LabelDoc(l))
    && "LENTOVODEC_TAPE_" <= l.magic && (l.magic != "LENTOVODEC_TAPE_V2" || l.formatVersion > 2)
  }

  // A label of ours whose time stamp is none.
  ghost predicate HeadIsBroken(c: Codec, items: seq<Item>, l: TapeLabel) {
    && HeadSays(c, items, LabelDoc(l))
    && l.magic == "LENTOVODEC_TAPE_V2" && l.formatVersion <= 2 && !c.validTime(l.formattedAt)
  }

  /** What a tape begins with is a label of ours, newer, broken, or nothing to respect. */
  lemma HeadIs(c: Codec, items: seq<Item>)
    ensures HeadOf(c, items).Label? <==> exists l :: HeadIsOurs(c, items, l)
    ensures HeadOf(c, items).Label? ==> HeadIsOurs(c, items, HeadOf(c, items).tapeLabel)
    ensures HeadOf(c, items).NewerLabel? <==> exists l :: HeadIsNewer(c, items, l)
    ensures HeadOf(c, items).BadTime? <==> exists l :: HeadIsBroken(c, items, l)
  {
    hide TrimZeros;
    if items != [] && items[0].Blk? && TrimZeros(items[0].data) != [] {
      match c.parse(TrimZeros(items[0].data))
      case LabelDoc(l) =>
        assert HeadSays(c, items, LabelDoc(l));
        assert HeadIsOurs(c, items, l) || HeadIsNewer(c, items, l) || HeadIsBroken(c, items, l)
          || HeadOf(c, items).Foreign?;
      case _ =>
    }
  }

  /** A formatted cartridge: its label, no session, one closing mark (two marks in all). */
  function FreshCart(heading: Block, capacity: nat): Cart {
    Cart(heading, [], Tail([], 1), capacity)
  }

  lemma FreshCartItems(heading: Block, capacity: nat)
    ensures Items(FreshCart(heading, capacity)) == [Blk(heading), Mark, Mark]
  {
    assert Blocks([]) + MarkRun(1) == [Mark];
  }

  /** Whether label block and two marks fit a tape. */
  ghost predicate LabelFits(c: Codec, l: TapeLabel, capacity: nat) {
    |c.marshal(LabelDoc(l))| <= BLOCK_SIZE && (capacity > 0 ==> BLOCK_SIZE + 2 <= capacity)
  }

  /** Formats the tape under a name. A label of ours stands in the way unless forced; a label
      of a newer format, or a broken one of ours, always does; nothing else is refused for
      what the tape begins with. Without a failure of the catalogue the rest succeeds exactly
      if the label fits. */
  method Format(tape: FakeTape, cat: Catalog, c: Codec, name: string, force: bool, uuid: string, now: string)
    returns (r: FormatResult, ghost fault: bool)
    requires tape.Valid() && cat.Valid() && Lawful(c) && c.validTime(now)
    modifies tape, cat`tapes
    ensures tape.Valid() && cat.Valid()
    ensures r.EmptyName? <==> name == ""
    ensures r.AlreadyFormatted? <==> name != "" && !force && exists l :: HeadIsOurs(c, old(tape.items), l)
    ensures r.AlreadyFormatted? ==> HeadIsOurs(c, old(tape.items), r.present)
    ensures r.UnreadableLabel? <==>
      name != "" && exists l :: HeadIsNewer(c, old(tape.items), l) || HeadIsBroken(c, old(tape.items), l)
    ensures r.EmptyName? || r.AlreadyFormatted? || r.UnreadableLabel? ==> tape.items == old(tape.items) && !fault
    ensures r.Formatted? || r.FormatFailed? ==>
      (r.Formatted? <==> LabelFits(c, TapeLabel(MAGIC, FORMAT_VERSION, name, uuid, now), tape.capacity) && !fault)
    ensures r.Formatted? ==> r.tapeLabel == TapeLabel("LENTOVODEC_TAPE_V2", 2, name, uuid, now)
    ensures r.Formatted? ==>
      var heading := EncodeLabel(c, r.tapeLabel);
      && heading.Some?
      && tape.items == Items(FreshCart(heading.value, tape.capacity))
      && WithinCapacity(FreshCart(heading.value, tape.capacity))
      && DecodeLabel(c, heading.value) == Label(r.tapeLabel)
    ensures cat.tapes == if r.Formatted? then old(cat.tapes)[uuid := name] else old(cat.tapes)
  {
    fault := false;
    HeadIs(c, tape.items);
    hide Lawful, DecodeLabel, EncodeLabel, Items, Usage, HeadIsOurs, HeadIsNewer, HeadIsBroken;
    if name == "" {
      return EmptyName, fault;
    }
    tape.Rewind();
    var block := tape.ReadBlock();
    if block.Data? {
      match DecodeLabel(c, block.block) {
        case Label(present) =>
          if !force {
            return AlreadyFormatted(present), fault;
          }
        case Blank =>
        case Foreign =>
        case NewerLabel => return UnreadableLabel, fault;
        case BadTime => return UnreadableLabel, fault;
      }
    }
    var l := TapeLabel(MAGIC, FORMAT_VERSION, name, uuid, now);
    LabelIsPrinted(c, l);
    var heading := EncodeLabel(c, l);
    if heading.None? {
      return FormatFailed, fault;
    }
    var written := WriteLabel(tape, heading.value);
    if !written {
      return FormatFailed, fault;
    }
    FreshCartItems(heading.value, tape.capacity);
    LabelRoundTrip(c, l);
    var registered;
    registered, fault := cat.RegisterTape(uuid, name);
    if !registered {
      return FormatFailed, fault;
    }
    r := Formatted(l);
  }

  lemma LabelIsPrinted(c: Codec, l: TapeLabel)
    ensures EncodeLabel(c, l).Some? <==> |c.marshal(LabelDoc(l))| <= BLOCK_SIZE
  {
  }

  // Rewinds, then writes the label block and two marks.
  method WriteLabel(tape: FakeTape, heading: Block) returns (ok: bool)
    requires tape.Valid()
    modifies tape
    ensures tape.Valid()
    ensures ok <==> tape.capacity == 0 || BLOCK_SIZE + 2 <= tape.capacity
    ensures ok ==> tape.items == [Blk(heading), Mark, Mark]
    ensures ok && tape.capacity > 0 ==> Usage(tape.items) <= tape.capacity
  {
    LabelUsage(heading);
    tape.Rewind();
    assert tape.items[..0] == [];
    ok := tape.Write(Blk(heading));
    if ok {
      assert tape.items == [Blk(heading)] && tape.items[..1] == [Blk(heading)];
      ok := tape.Write(Mark);
    }
    if ok {
      assert tape.items == [Blk(heading), Mark] && tape.items[..2] == [Blk(heading), Mark];
      ok := tape.Write(Mark);
      if ok {
        assert tape.items == [Blk(heading), Mark, Mark];
      }
    }
  }

  lemma LabelUsage(heading: Block)
    ensures Usage([]) == 0 && Usage([Blk(heading)]) == BLOCK_SIZE && Usage([Blk(heading), Mark]) == BLOCK_SIZE + 1
    ensures Usage([Blk(heading), Mark, Mark]) == BLOCK_SIZE + 2
  {
    UsageOne(Blk(heading));
    UsageOne(Mark);
    UsageConcat([Blk(heading)], [Mark]);
    UsageConcat([Blk(heading), Mark], [Mark]);
    assert [Blk(heading)] + [Mark] == [Blk(heading), Mark];
    assert [Blk(heading), Mark] + [Mark] == [Blk(heading), Mark, Mark];
  }
}
