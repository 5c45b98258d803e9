/** Formatting as a step of the whole system: a cartridge leaves the world under its old
    identifier and enters it under a new one, with catalogue and cartridges in step
    (internal/usecase/format/usecase.go:62-165). */
module Stations {
  import opened Domain
  import opened TapeMachine
  import opened FakeTapes
  import opened TapeFormat
  import opened Layout
  import opened Catalogs
  import opened Worlds
  import opened Formatting

  /** The world without the cartridge that carries this label. */
  ghost function Without(w: World, l: LabelResult): World {
    if l.Label? then w - {l.tapeLabel.uuid} else w
  }

  lemma FewerInStep(c: Codec, rows: SessionTable, files: FileTable, t: TapeTable, w: World, l: LabelResult)
    requires SystemOK(c, rows, files, t, w)
    ensures SystemOK(c, rows, files, t, Without(w, l))
  {
    hide InOrder, Mirrored;
  }

  /** A cartridge under a new identifier is in step: no row speaks of it yet. */
  lemma NewInStep(c: Codec, rows: SessionTable, files: FileTable, t: TapeTable, w: World,
                  uuid: string, name: string, heading: Block, capacity: nat)
    requires SystemOK(c, rows, files, t, w) && uuid !in t && uuid != ""
    requires InOrder(c, uuid, FreshCart(heading, capacity))
    ensures SystemOK(c, rows, files, t[uuid := name], w[uuid := FreshCart(heading, capacity)])
  {
    hide InOrder, RowMirrors;
    assert InStep(c, rows, files, uuid, [], []);
  }

  /** Formats the cartridge in the drive. */
  method FormatCartridge(tape: FakeTape, cat: Catalog, c: Codec, name: string, force: bool, uuid: string,
                         now: string, ghost w: World)
    returns (r: FormatResult, ghost w': World, ghost fault: bool)
    requires tape.Valid() && cat.Valid() && Lawful(c) && c.validTime(now)
    requires SystemOK(c, cat.sessions, cat.files, cat.tapes, w) && uuid !in cat.tapes && uuid != ""
    modifies tape, cat`tapes
    ensures tape.Valid() && cat.Valid()
    ensures SystemOK(c, cat.sessions, cat.files, cat.tapes, w')
    ensures forall u ::
      u in w && !(HeadOf(c, old(tape.items)).Label? && u == HeadOf(c, old(tape.items)).tapeLabel.uuid) ==>
      u in w' && w'[u] == w[u]
    ensures r.Formatted? ==>
      uuid in w' && tape.items == Items(w'[uuid]) && tape.capacity == w'[uuid].capacity && w'[uuid].sessions == []
    ensures r.Formatted? || r.FormatFailed? ==>
      (r.Formatted? <==> LabelFits(c, TapeLabel(MAGIC, FORMAT_VERSION, name, uuid, now), tape.capacity) && !fault)
    ensures r.AlreadyFormatted? || r.UnreadableLabel? || r.EmptyName? ==> w' == w && tape.items == old(tape.items)
  {
    hide SystemOK, Lawful, Items, DecodeLabel, EncodeLabel, HeadOf, InOrder, WithinCapacity, LabelFits;
    ghost var before := HeadOf(c, tape.items);
    r, fault := Format(tape, cat, c, name, force, uuid, now);
    w' := w;
    FewerInStep(c, cat.sessions, cat.files, old(cat.tapes), w, before);
    UuidIsNew(c, cat.sessions, cat.files, old(cat.tapes), w, uuid);
    if r.Formatted? {
      ghost var heading := EncodeLabel(c, r.tapeLabel).value;
      FreshCartInOrder(c, r.tapeLabel, heading, tape.capacity);
      NewInStep(c, cat.sessions, cat.files, old(cat.tapes), Without(w, before), uuid, name, heading, tape.capacity);
      w' := Without(w, before)[uuid := FreshCart(heading, tape.capacity)];
    } else if r.FormatFailed? {
      w' := Without(w, before);
    }
  }

  lemma UuidIsNew(c: Codec, rows: SessionTable, files: FileTable, t: TapeTable, w: World, uuid: string)
    requires SystemOK(c, rows, files, t, w) && uuid !in t
    ensures uuid !in w
  {
    hide InOrder, Mirrored;
  }

  /** An empty catalogue and no cartridges are in step. */
  lemma StartsInStep(c: Codec)
    ensures SystemOK(c, map[], map[], map[], map[])
  {
  }
}
