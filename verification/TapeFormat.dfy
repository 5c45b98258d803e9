/** What is written on a tape besides marks: the label block, the index and tar segments
    of a session, the continuation pointer (internal/adapter/tapeformat). JSON, tar and
    the digests are functions of the codec, known only by the laws in `Lawful`. */
module TapeFormat {
  import opened Domain
  import opened TapeMachine
  import opened Canonical

  const FORMAT_VERSION: int := 2
  const MAGIC := "LENTOVODEC_TAPE_V2"
  const MAGIC_FAMILY := "LENTOVODEC_TAPE_"

  // ----- Codec ------------------------------------------------------------------------

  // What a JSON text of the tape can be; anything else is OtherDoc.
  datatype Document =
    | LabelDoc(tapeLabel: TapeLabel)
    | IndexDoc(index: SessionIndex)
    | ContinuationDoc(pointer: Continuation)
    | OtherDoc

  datatype EntryKind = DirEntry | RegEntry | SymEntry | LinkEntry | OtherEntry

  datatype TarEntry = TarEntry(name: string, kind: EntryKind, size: int, linkname: string, content: seq<byte>)

  datatype Codec = Codec(
    marshal: Document -> seq<byte>,
    parse: seq<byte> -> Document,
    tar: seq<TarEntry> -> seq<byte>,
    untar: seq<byte> -> Option<seq<TarEntry>>,
    sha: string -> string,               // digest of canonical forms
    sha256: seq<byte> -> string,         // digests of file contents
    xxhash: seq<byte> -> string,
    validTime: string -> bool)

  // Printed JSON ends in a brace, parses back, and padding does not disturb a tar stream.
  ghost predicate Lawful(c: Codec) {
    && (forall d: Document :: !d.OtherDoc? ==> Prints(c, d))
    && (forall es, pad :: c.untar(c.tar(es) + pad) == Some(es))
    && (forall es :: c.tar(es) != [])
  }

  ghost predicate Prints(c: Codec, d: Document) {
    var text := c.marshal(d);
    text != [] && text[|text| - 1] != 0 && c.parse(text) == d
  }

  // ----- Padding ----------------------------------------------------------------------

  function Zeros(n: nat): (r: seq<byte>)
    ensures |r| == n
  {
    seq(n, _ => 0)
  }

  /** Data filled up with zeros to whole blocks. */
  function PadToBlocks(data: seq<byte>): (r: seq<byte>)
    ensures |r| % BLOCK_SIZE == 0 && data <= r
  {
    data + Zeros((BLOCK_SIZE - |data| % BLOCK_SIZE) % BLOCK_SIZE)
  }

  function TrimZeros(b: seq<byte>): seq<byte> {
    if b != [] && b[|b| - 1] == 0 then TrimZeros(b[..|b| - 1]) else b
  }

  /** Whole blocks, cut apart. */
  function Cut(b: seq<byte>): (r: seq<Block>)
    requires |b| % BLOCK_SIZE == 0
    ensures FullBlocks(r) && Concat(r) == b
    ensures |r| * BLOCK_SIZE == |b|
  {
    if b == [] then []
    else
      assert b[..BLOCK_SIZE] + b[BLOCK_SIZE..] == b;
      var rest := Cut(b[BLOCK_SIZE..]);
      assert ([b[..BLOCK_SIZE]] + rest)[1..] == rest;
      [b[..BLOCK_SIZE]] + rest
  }

  lemma {:induction false} TrimDropsZeros(data: seq<byte>, n: nat)
    ensures TrimZeros(data + Zeros(n)) == TrimZeros(data)
  {
    if n == 0 {
      assert data + Zeros(0) == data;
    } else {
      var b := data + Zeros(n);
      assert b[..|b| - 1] == data + Zeros(n - 1);
      TrimDropsZeros(data, n - 1);
    }
  }

  /** Trimming undoes padding exactly for data that does not end in a zero byte. */
  lemma TrimUndoesPad(data: seq<byte>)
    ensures TrimZeros(PadToBlocks(data)) == data <==> data == [] || data[|data| - 1] != 0
  {
    TrimDropsZeros(data, (BLOCK_SIZE - |data| % BLOCK_SIZE) % BLOCK_SIZE);
    if data != [] {
      TrimShortens(data[..|data| - 1]);
    }
  }

  lemma TrimShortens(b: seq<byte>)
    ensures |TrimZeros(b)| <= |b|
  {
  }

  // ----- Label and pointer --------------------------------------------------------------

  /** A document in one block; None if it is too long. */
  function OneBlock(c: Codec, d: Document): Option<Block> {
    if |c.marshal(d)| > BLOCK_SIZE then None else Some(PadToBlocks(c.marshal(d)))
  }

  function EncodeLabel(c: Codec, l: TapeLabel): Option<Block> {
    OneBlock(c, LabelDoc(l))
  }

  /** The pointer needs the name of the next cartridge. */
  function EncodeContinuation(c: Codec, pointer: Continuation): Option<Block> {
    if pointer.nextTapeName == "" then None else OneBlock(c, ContinuationDoc(pointer))
  }

  datatype LabelResult = Label(tapeLabel: TapeLabel) | Blank | Foreign | NewerLabel | BadTime

  function DecodeLabel(c: Codec, block: Block): LabelResult {
    var text := TrimZeros(block);
    if text == [] then Blank
    else match c.parse(text)
      case LabelDoc(l) =>
        if l.magic != MAGIC then if MAGIC_FAMILY <= l.magic then NewerLabel else Foreign
        else if l.formatVersion > FORMAT_VERSION then NewerLabel
        else if !c.validTime(l.formattedAt) then BadTime
        else Label(l)
      case _ => Foreign
  }

  ghost predicate GoodLabel(c: Codec, l: TapeLabel) {
    l.magic == MAGIC && l.formatVersion <= FORMAT_VERSION && c.validTime(l.formattedAt)
  }

  // ----- Index ---------------------------------------------------------------------------

  predicate ValidState(state: string) {
    state == STATE_ADDED || state == STATE_MODIFIED || state == STATE_DELETED
  }

  predicate ValidFile(fm: FileMeta) {
    && ValidState(fm.state)
    && (fm.typ == "" || fm.typ == TYPE_REGULAR || fm.typ == TYPE_SYMLINK || fm.typ == TYPE_HARDLINK)
    && ((fm.IsSymlink() || fm.IsHardlink()) <==> fm.linkname != "")
  }

  predicate ValidSessionType(typ: string) { typ == SESSION_FULL || typ == SESSION_INC }

  predicate ValidIndex(idx: SessionIndex) {
    ValidSessionType(idx.typ) && forall i :: 0 <= i < |idx.files| ==> ValidFile(idx.files[i])
  }

  /** The index segment of a session: sealed, printed, padded, cut into blocks. */
  function EncodeIndex(c: Codec, idx: SessionIndex): (r: seq<Block>)
    ensures FullBlocks(r)
  {
    Cut(PadToBlocks(c.marshal(IndexDoc(Seal(c.sha, idx)))))
  }

  datatype IndexResult =
    | Index(idx: SessionIndex)
    | NoIndex                               // end of the sessions
    | Continues(pointer: Continuation)      // the chain goes on elsewhere
    | NewerIndex
    | Damaged

  /** Reads the bytes of an index segment. */
  function ReadIndex(c: Codec, bytes: seq<byte>): IndexResult {
    var text := TrimZeros(bytes);
    if text == [] then NoIndex
    else match c.parse(text)
      case ContinuationDoc(pointer) => Continues(pointer)
      case IndexDoc(idx) =>
        if idx.formatVersion > FORMAT_VERSION then NewerIndex
        else if !VerifyIndexHash(c.sha, idx) || !ValidIndex(idx) then Damaged
        else Index(if idx.part < 1 then idx.(part := 1) else idx)
      case LabelDoc(l) => if l.formatVersion > FORMAT_VERSION then NewerIndex else Damaged
      case OtherDoc => Damaged
  }

  // Where nothing is read, no index is found.
  lemma EmptySegmentHasNoIndex(c: Codec, items: seq<Item>, pos: nat)
    requires pos <= |items|
    ensures pos <= SegmentEnd(items, pos) <= |items|
    ensures pos == SegmentEnd(items, pos) ==> ReadIndex(c, Concat(Segment(items, pos))).NoIndex?
  {
  }

  // ----- What reading an index checks -------------------------------------------------------

  // Two different canonical forms with one sum.
  ghost predicate Collide(c: Codec, x: string, y: string) { x != y && c.sha(x) == c.sha(y) }

  /** The bytes hold an index that carries the sum of a sealed one and names a known rule,
      but differs from it in what that rule covers. */
  ghost predicate Altered(c: Codec, bytes: seq<byte>, sealed: SessionIndex, found: SessionIndex) {
    && TrimZeros(bytes) != [] && c.parse(TrimZeros(bytes)) == IndexDoc(found)
    && found.indexSHA256 == c.sha(CanonicalIndex(sealed, "sha256-canon3")) != ""
    && (found.hashAlgo == "sha256-canon1" || found.hashAlgo == "sha256-canon2" || found.hashAlgo == "sha256-canon3")
    && SizedIndex(sealed, ALGO_CANON3) && SizedIndex(found, ALGO_CANON3)
    && (found.hashAlgo != "sha256-canon3" || Covered(found, ALGO_CANON3) != Covered(sealed, ALGO_CANON3))
  }

  /** Altered, and not by a collision of the digest. */
  ghost predicate Tampered(c: Codec, bytes: seq<byte>) {
    exists sealed, found :: Altered(c, bytes, sealed, found) && found.formatVersion <= 2
      && !Collide(c, CanonicalIndex(sealed, "sha256-canon3"), CanonicalIndex(found, found.hashAlgo))
  }

  /** An altered index is never read as a session: it is damaged, or of a newer format, or
      the two forms are a collision. */
  lemma AlteredIsNotRead(c: Codec, bytes: seq<byte>, sealed: SessionIndex, found: SessionIndex)
    requires Altered(c, bytes, sealed, found)
    ensures
      || ReadIndex(c, bytes) == (if found.formatVersion > 2 then NewerIndex else Damaged)
      || Collide(c, CanonicalIndex(sealed, "sha256-canon3"), CanonicalIndex(found, found.hashAlgo))
  {
    hide CanonicalIndex, Covered, SizedIndex, TrimZeros, ValidIndex;
    if found.formatVersion <= 2 && VerifyIndexHash(c.sha, found) {
      TamperingIsACollision(c.sha, sealed, found);
    }
  }

  lemma TamperedIsDamaged(c: Codec, bytes: seq<byte>)
    requires Tampered(c, bytes)
    ensures ReadIndex(c, bytes).Damaged?
  {
    hide Altered, ReadIndex, CanonicalIndex;
    var sealed, found :| Altered(c, bytes, sealed, found) && found.formatVersion <= 2
      && !Collide(c, CanonicalIndex(sealed, "sha256-canon3"), CanonicalIndex(found, found.hashAlgo));
    AlteredIsNotRead(c, bytes, sealed, found);
  }

  // An index a reader may take: of a format it knows, a type and states and kinds it knows.
  ghost predicate Plausible(idx: SessionIndex) {
    && idx.formatVersion <= 2 && (idx.typ == "FULL" || idx.typ == "INC")
    && forall i :: 0 <= i < |idx.files| ==> PlausibleFile(idx.files[i])
  }

  ghost predicate PlausibleFile(fm: FileMeta) {
    && (fm.state == "A" || fm.state == "M" || fm.state == "D")
    && (fm.typ == "" || fm.typ == "reg" || fm.typ == "sym" || fm.typ == "lnk")
    && (fm.linkname != "" <==> fm.typ == "sym" || fm.typ == "lnk")
  }

  // Its sum, if it has one by a known rule, is that of its canonical form.
  ghost predicate SumAgrees(c: Codec, idx: SessionIndex) {
    idx.indexSHA256 != "" && idx.hashAlgo in ["sha256-canon1", "sha256-canon2", "sha256-canon3"] ==>
      c.sha(CanonicalIndex(idx, idx.hashAlgo)) == idx.indexSHA256
  }

  /** What the bytes of an index segment are read as, for every text. */
  lemma IndexIsRead(c: Codec, bytes: seq<byte>)
    ensures var text := TrimZeros(bytes);
      && (ReadIndex(c, bytes).NoIndex? <==> forall i :: 0 <= i < |bytes| ==> bytes[i] == 0)
      && (text != [] ==>
          && (ReadIndex(c, bytes).Continues? <==> c.parse(text).ContinuationDoc?)
          && (ReadIndex(c, bytes).Index? <==>
              c.parse(text).IndexDoc? && Plausible(c.parse(text).index) && SumAgrees(c, c.parse(text).index))
          && (ReadIndex(c, bytes).NewerIndex? <==>
              || (c.parse(text).IndexDoc? && c.parse(text).index.formatVersion > 2)
              || (c.parse(text).LabelDoc? && c.parse(text).tapeLabel.formatVersion > 2)))
      && (ReadIndex(c, bytes).Continues? ==> c.parse(text) == ContinuationDoc(ReadIndex(c, bytes).pointer))
      && (ReadIndex(c, bytes).Index? ==>
          c.parse(text).IndexDoc? && ReadIndex(c, bytes).idx ==
          c.parse(text).index.(part := if c.parse(text).index.part < 1 then 1 else c.parse(text).index.part))
  {
    hide CanonicalIndex, TrimZeros;
    TrimsToNothing(bytes);
    if c.parse(TrimZeros(bytes)).IndexDoc? {
      var idx := c.parse(TrimZeros(bytes)).index;
      forall i | 0 <= i < |idx.files|
        ensures ValidFile(idx.files[i]) <==> PlausibleFile(idx.files[i])
      {
      }
    }
  }

  lemma {:induction false} TrimsToNothing(b: seq<byte>)
    ensures TrimZeros(b) == [] <==> forall i :: 0 <= i < |b| ==> b[i] == 0
  {
    if b != [] && b[|b| - 1] == 0 {
      TrimsToNothing(b[..|b| - 1]);
    }
  }

  /** A session index is read back as it was sealed. */
  lemma IndexRoundTrip(c: Codec, idx: SessionIndex)
    requires Lawful(c) && ValidIndex(idx)
    requires idx.formatVersion <= FORMAT_VERSION && idx.part >= 1
    ensures ReadIndex(c, Concat(EncodeIndex(c, idx))) == Index(Seal(c.sha, idx))
    ensures EncodeIndex(c, idx) != []
  {
    hide CanonicalIndex, TrimZeros, Cut, PadToBlocks;
    var d := IndexDoc(Seal(c.sha, idx));
    assert Prints(c, d);
    TrimUndoesPad(c.marshal(d));
    SealVerifies(c.sha, idx);
  }

  /** A pointer is written if and only if it names a cartridge and its text takes no more than
      a block; the block then holds the text, and zeros. */
  lemma PointerIsWritten(c: Codec, pointer: Continuation)
    ensures var text, block := c.marshal(ContinuationDoc(pointer)), EncodeContinuation(c, pointer);
      && (block.Some? <==> pointer.nextTapeName != "" && |text| <= 262144)
      && (block.Some? && text != [] ==>
          |block.value| == 262144 && text <= block.value
          && forall i :: |text| <= i < |block.value| ==> block.value[i] == 0)
  {
  }

  /** A pointer block is read as a pointer, never as an index or as the end. */
  lemma ContinuationRoundTrip(c: Codec, pointer: Continuation)
    requires Lawful(c) && EncodeContinuation(c, pointer).Some?
    ensures ReadIndex(c, EncodeContinuation(c, pointer).value) == Continues(pointer)
    ensures |EncodeContinuation(c, pointer).value| == BLOCK_SIZE
  {
    hide TrimZeros;
    assert Prints(c, ContinuationDoc(pointer));
    TrimUndoesPad(c.marshal(ContinuationDoc(pointer)));
  }

  lemma LabelRoundTrip(c: Codec, l: TapeLabel)
    requires Lawful(c) && EncodeLabel(c, l).Some? && GoodLabel(c, l)
    ensures DecodeLabel(c, EncodeLabel(c, l).value) == Label(l)
    ensures |EncodeLabel(c, l).value| == BLOCK_SIZE
  {
    hide TrimZeros;
    assert Prints(c, LabelDoc(l));
    TrimUndoesPad(c.marshal(LabelDoc(l)));
  }

  // ----- Tar stream ------------------------------------------------------------------------

  type Content = map<string, seq<byte>>

  function KindOf(fm: FileMeta): EntryKind {
    if fm.isDir then DirEntry
    else if fm.IsSymlink() then SymEntry
    else if fm.IsHardlink() then LinkEntry
    else RegEntry
  }

  // sha256 is checked where the index has it, xxhash otherwise.
  predicate DigestMatches(c: Codec, fm: FileMeta, bytes: seq<byte>) {
    if fm.sha256 != "" then c.sha256(bytes) == fm.sha256 else c.xxhash(bytes) == fm.hash
  }

  function EntryOf(fm: FileMeta, content: Content): TarEntry {
    if KindOf(fm) == RegEntry
    then TarEntry(fm.path, RegEntry, fm.size, "", if fm.path in content then content[fm.path] else [])
    else TarEntry(fm.path, KindOf(fm), 0, fm.linkname, [])
  }

  /** One entry for each file that is not a tombstone, in index order. */
  function EntriesOf(files: seq<FileMeta>, content: Content): seq<TarEntry> {
    if files == [] then []
    else (if files[0].IsDeleted() then [] else [EntryOf(files[0], content)]) + EntriesOf(files[1..], content)
  }

  // Every file still has the size and the digest the scanner saw.
  predicate Unchanged(c: Codec, files: seq<FileMeta>, content: Content) {
    forall i :: 0 <= i < |files| && !files[i].IsDeleted() && KindOf(files[i]) == RegEntry ==>
      && files[i].path in content
      && |content[files[i].path]| == files[i].size
      && DigestMatches(c, files[i], content[files[i].path])
  }

  function FileNamed(files: seq<FileMeta>, path: string): Option<FileMeta> {
    if files == [] then None
    else if files[|files| - 1].path == path then Some(files[|files| - 1])
    else FileNamed(files[..|files| - 1], path)
  }

  /** An entry passes if the index names it and agrees with it. */
  predicate EntryPasses(c: Codec, files: seq<FileMeta>, e: TarEntry) {
    var fm := FileNamed(files, e.name);
    fm.Some? && match e.kind
      case DirEntry => true
      case RegEntry => e.size == fm.value.size && DigestMatches(c, fm.value, e.content)
      case SymEntry => fm.value.IsSymlink() && e.linkname == fm.value.linkname && e.size == 0
      case LinkEntry => fm.value.IsHardlink() && e.linkname == fm.value.linkname && e.size == 0
      case OtherEntry => false
  }

  /** A regular entry passes if and only if it has the size the index records, and the sum:
      sha256 where one is recorded, xxhash otherwise. */
  lemma RegularPasses(c: Codec, files: seq<FileMeta>, e: TarEntry, fm: FileMeta)
    requires e.kind.RegEntry? && FileNamed(files, e.name) == Some(fm)
    ensures EntryPasses(c, files, e) <==>
      && e.size == fm.size
      && (fm.sha256 != "" ==> c.sha256(e.content) == fm.sha256)
      && (fm.sha256 == "" ==> c.xxhash(e.content) == fm.hash)
  {
  }

  /** An entry of any kind passes if and only if it is what the index lists under its name. */
  lemma EntryIsChecked(c: Codec, files: seq<FileMeta>, e: TarEntry, i: nat)
    requires DistinctPaths(files) && i < |files| && files[i].path == e.name
    ensures EntryPasses(c, files, e) <==>
      || e.kind.DirEntry?
      || (e.kind.RegEntry? && e.size == files[i].size
          && (if files[i].sha256 != "" then c.sha256(e.content) == files[i].sha256
              else c.xxhash(e.content) == files[i].hash))
      || (e.kind.SymEntry? && files[i].typ == "sym" && e.linkname == files[i].linkname && e.size == 0)
      || (e.kind.LinkEntry? && files[i].typ == "lnk" && e.linkname == files[i].linkname && e.size == 0)
  {
    FileNamedUnique(files, i);
  }

  /** An entry the index does not list never passes. */
  lemma {:induction false} StrangerFails(files: seq<FileMeta>, name: string)
    requires forall i :: 0 <= i < |files| ==> files[i].path != name
    ensures FileNamed(files, name).None?
    ensures forall c: Codec, e: TarEntry :: e.name == name ==> !EntryPasses(c, files, e)
  {
    if files != [] {
      StrangerFails(files[..|files| - 1], name);
    }
  }

  /** What the writer makes of a file. */
  lemma EntryTells(fm: FileMeta, content: Content)
    ensures var e := EntryOf(fm, content);
      && e.name == fm.path
      && (e.kind.DirEntry? <==> fm.isDir)
      && (e.kind.SymEntry? <==> !fm.isDir && fm.typ == "sym")
      && (e.kind.LinkEntry? <==> !fm.isDir && fm.typ == "lnk")
      && (e.kind.RegEntry? <==> !fm.isDir && fm.typ != "sym" && fm.typ != "lnk")
      && (e.kind.RegEntry? && fm.path in content ==> e.size == fm.size && e.content == content[fm.path])
      && (!e.kind.RegEntry? ==> e.size == 0 && e.linkname == fm.linkname && e.content == [])
  {
  }

  predicate MetIn(fm: FileMeta, entries: seq<TarEntry>) {
    fm.IsDeleted() || exists k :: 0 <= k < |entries| && entries[k].name == fm.path
  }

  /** The tar stream reads cleanly: every entry passes, and every file of the index that is
      not a tombstone was met. */
  predicate ReadsTar(c: Codec, files: seq<FileMeta>, bytes: seq<byte>) {
    match c.untar(bytes)
    case None => false
    case Some(entries) =>
      && (forall k :: 0 <= k < |entries| ==> EntryPasses(c, files, entries[k]))
      && (forall i :: 0 <= i < |files| ==> MetIn(files[i], entries))
  }

  /** A stream with a regular entry of another size or sum is never read as a success. */
  lemma WrongDataAreDamage(c: Codec, files: seq<FileMeta>, bytes: seq<byte>, entries: seq<TarEntry>, k: nat,
                           fm: FileMeta)
    requires c.untar(bytes) == Some(entries) && k < |entries| && entries[k].kind.RegEntry?
    requires FileNamed(files, entries[k].name) == Some(fm)
    requires
      || entries[k].size != fm.size
      || (fm.sha256 != "" && c.sha256(entries[k].content) != fm.sha256)
      || (fm.sha256 == "" && c.xxhash(entries[k].content) != fm.hash)
    ensures !ReadsTar(c, files, bytes)
  {
    hide EntryPasses, MetIn, DigestMatches;
    RegularPasses(c, files, entries[k], fm);
  }

  ghost predicate DistinctPaths(files: seq<FileMeta>) {
    forall i, j :: 0 <= i < j < |files| ==> files[i].path != files[j].path
  }

  lemma {:induction false} FileNamedUnique(files: seq<FileMeta>, i: nat)
    requires i < |files| && DistinctPaths(files)
    ensures FileNamed(files, files[i].path) == Some(files[i])
  {
    var n := |files| - 1;
    if i < n {
      assert files[..n][i] == files[i];
      FileNamedUnique(files[..n], i);
    }
  }

  lemma EntryOfPasses(c: Codec, files: seq<FileMeta>, content: Content, i: nat)
    requires i < |files| && !files[i].IsDeleted()
    requires DistinctPaths(files) && Unchanged(c, files, content)
    ensures EntryPasses(c, files, EntryOf(files[i], content))
  {
    FileNamedUnique(files, i);
  }

  lemma EntriesStep(files: seq<FileMeta>, content: Content, from: nat)
    requires from < |files|
    ensures EntriesOf(files[from..], content)
         == (if files[from].IsDeleted() then [] else [EntryOf(files[from], content)])
             + EntriesOf(files[from + 1..], content)
  {
    assert files[from..][0] == files[from] && files[from..][1..] == files[from + 1..];
  }

  lemma {:induction false} EntriesPass(c: Codec, files: seq<FileMeta>, content: Content, from: nat)
    requires from <= |files| && DistinctPaths(files) && Unchanged(c, files, content)
    ensures var entries := EntriesOf(files[from..], content);
      forall k :: 0 <= k < |entries| ==> EntryPasses(c, files, entries[k])
    decreases |files| - from
  {
    hide EntryPasses, EntryOf, Unchanged, DistinctPaths;
    if from < |files| {
      EntriesStep(files, content, from);
      EntriesPass(c, files, content, from + 1);
      if !files[from].IsDeleted() {
        EntryOfPasses(c, files, content, from);
      }
    }
  }

  lemma {:induction false} FilesAreMet(files: seq<FileMeta>, content: Content, from: nat)
    requires from <= |files|
    ensures forall i :: from <= i < |files| ==> MetIn(files[i], EntriesOf(files[from..], content))
    decreases |files| - from
  {
    if from == |files| {
      return;
    }
    EntriesStep(files, content, from);
    FilesAreMet(files, content, from + 1);
    var entries, rest := EntriesOf(files[from..], content), EntriesOf(files[from + 1..], content);
    forall i | from <= i < |files|
      ensures MetIn(files[i], entries)
    {
      if files[i].IsDeleted() {
      } else if i == from {
        assert entries[0].name == files[i].path;
      } else {
        assert MetIn(files[i], rest);
        var k :| 0 <= k < |rest| && rest[k].name == files[i].path;
        assert entries[|entries| - |rest| + k] == rest[k];
      }
    }
  }

  /** What the writer puts on the tape passes every check of the reader, padding included. */
  lemma TarRoundTrip(c: Codec, files: seq<FileMeta>, content: Content, pad: seq<byte>)
    requires Lawful(c) && DistinctPaths(files) && Unchanged(c, files, content)
    ensures ReadsTar(c, files, c.tar(EntriesOf(files, content)) + pad)
  {
    hide EntryPasses, EntriesOf, Unchanged, DistinctPaths, MetIn;
    EntriesPass(c, files, content, 0);
    FilesAreMet(files, content, 0);
    assert files[0..] == files;
  }

  /** A tar stream that lost an entry is never read as a success. */
  lemma LostEntryIsDamage(c: Codec, files: seq<FileMeta>, entries: seq<TarEntry>, lost: nat, bytes: seq<byte>)
    requires lost < |files| && !files[lost].IsDeleted()
    requires c.untar(bytes) == Some(entries)
    requires forall k :: 0 <= k < |entries| ==> entries[k].name != files[lost].path
    ensures !ReadsTar(c, files, bytes)
  {
    assert !MetIn(files[lost], entries);
  }
}
