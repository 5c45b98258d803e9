/** The directory a restore writes to: what its file operations do, and what one session does
    to it (internal/port/filesystem.go:70-89, internal/adapter/osfs/writer.go,
    internal/iface/destfs/destfs.go, internal/adapter/tapeformat/decoder.go:229-425,
    internal/usecase/restore/usecase.go:389-409). */
module Destinations {
  import opened Domain
  import opened TapeMachine
  import opened TapeFormat
  import Grouping

  // ----- Places and nodes -------------------------------------------------------------------

  // The segments below the destination directory.
  type Place = seq<string>

  datatype Node = DirNode | FileNode(inode: nat) | LinkNode(target: string)

  /** The names below the destination and what the files hold; a hard link is a second name
      for the same inode. The destination itself has no name and is always there. */
  datatype Disk = Disk(names: map<Place, Node>, data: seq<seq<byte>>)
  {
    function At(p: Place): Option<Node> {
      if p == [] then Some(DirNode) else if p in names then Some(names[p]) else None
    }

    // Something other than a directory lies above.
    predicate Blocked(p: Place) {
      exists k :: 0 < k < |p| && p[..k] in names && names[p[..k]] != DirNode
    }

    predicate Occupied(p: Place) {
      exists q :: q in names && p < q
    }

    /** Whatever has a name lies in a directory. */
    ghost predicate Valid() {
      && [] !in names
      && (forall p, k :: p in names && 0 < k < |p| ==> p[..k] in names && names[p[..k]] == DirNode)
      && (forall p :: p in names && names[p].FileNode? ==> names[p].inode < |data|)
    }
  }

  const EMPTY_DISK := Disk(map[], [])

  /** Where a path of an index goes: volume name and leading slash are cut off; a path that
      leaves the destination goes nowhere. */
  function PlaceOf(path: string): Option<Place> {
    var ss := Grouping.Segments(path);
    var rest := if !Grouping.Rooted(path) && |ss| > 1 && |ss[0]| == 2 && ss[0][1] == ':' then ss[1..] else ss;
    if rest != [] && rest[0] == ".." then None else Some(rest)
  }

  function Parent(p: Place): Place {
    if p == [] then [] else p[..|p| - 1]
  }

  // ----- File operations --------------------------------------------------------------------

  // What an operation says and leaves behind.
  datatype Effect = Effect(ok: bool, disk: Disk)

  function Above(p: Place): (r: set<Place>)
    ensures forall q :: q in r <==> q != [] && q <= p
  {
    var r := set k | 0 < k <= |p| :: p[..k];
    assert forall q :: q != [] && q <= p ==> q == p[..|q|];
    r
  }

  /** Makes a directory and all that are missing above it. */
  function MkdirAll(d: Disk, p: Place): Effect {
    if d.Blocked(p) || (p in d.names && d.names[p] != DirNode) then Effect(false, d)
    else Effect(true, d.(names := d.names + map q | q in Above(p) - d.names.Keys :: DirNode))
  }

  /** Writes a file: one that is there is truncated in place, whoever else has a name for it. */
  function Create(d: Disk, p: Place, bytes: seq<byte>): Effect {
    if p == [] || d.Blocked(p) then Effect(false, d)
    else match d.At(p)
      case None => Effect(true, Disk(d.names[p := FileNode(|d.data|)], d.data + [bytes]))
      case Some(FileNode(i)) => Effect(true, d.(data := if i < |d.data| then d.data[i := bytes] else d.data))
      case _ => Effect(false, d)
  }

  // A file, a symbolic link or an empty directory can be removed.
  predicate Removable(d: Disk, p: Place) {
    p in d.names && !(d.names[p] == DirNode && d.Occupied(p))
  }

  function Remove(d: Disk, p: Place): Effect {
    if d.Blocked(p) || !Removable(d, p) then Effect(false, d) else Effect(true, d.(names := d.names - {p}))
  }

  // What was there gives way to a link, unless it cannot be removed.
  predicate Yields(d: Disk, p: Place) {
    p != [] && !d.Blocked(p) && (p in d.names ==> Removable(d, p))
  }

  function Symlink(d: Disk, target: string, p: Place): Effect {
    if Yields(d, p) then Effect(true, d.(names := d.names[p := LinkNode(target)])) else Effect(false, d)
  }

  /** A second name. The new name is cleared first, and stays so if the old one is not
      there. */
  function Link(d: Disk, old': Option<Place>, p: Place): Effect {
    if old'.None? || d.Blocked(old'.value) || !Yields(d, p) then Effect(false, d)
    else
      var cleared := d.(names := d.names - {p});
      var o := old'.value;
      if o in cleared.names && cleared.names[o] != DirNode
      then Effect(true, cleared.(names := cleared.names[p := cleared.names[o]]))
      else Effect(false, cleared)
  }

  /** Puts an entry in its place, making the directories above it. */
  function PutEntry(d: Disk, kind: EntryKind, place: Option<Place>, linkname: string, bytes: seq<byte>): Effect {
    if place.None? then Effect(false, d)
    else if kind.DirEntry? then MkdirAll(d, place.value)
    else
      var p := place.value;
      var mk := MkdirAll(d, Parent(p));
      if !mk.ok then mk
      else match kind
        case SymEntry => Symlink(mk.disk, linkname, p)
        case LinkEntry => Link(mk.disk, PlaceOf(linkname), p)
        case _ => Create(mk.disk, p, bytes)
  }

  function RemoveAt(d: Disk, place: Option<Place>): Disk {
    if place.None? then d else Remove(d, place.value).disk
  }

  // ----- One session ------------------------------------------------------------------------

  /** What is extracted: everything, or what was asked for. */
  datatype Filter = Everything | Only(want: seq<string>)

  /** The path itself, or something below a wanted directory. */
  predicate Wanted(want: seq<string>, p: string) {
    p in want || exists i :: 0 <= i < |want| && want[i] + "/" <= p
  }

  // Targets of wanted hard links are written too.
  predicate Companion(files: seq<FileMeta>, want: seq<string>, p: string) {
    exists i :: 0 <= i < |files| && files[i].IsHardlink() && Wanted(want, files[i].path) && files[i].linkname == p
  }

  predicate Included(files: seq<FileMeta>, want: seq<string>, p: string) {
    Wanted(want, p) || Companion(files, want, p)
  }

  predicate Writable(filter: Filter, files: seq<FileMeta>, p: string) {
    filter.Only? ==> Included(files, filter.want, p)
  }

  // Whether a tombstone is applied: only the paths asked for themselves.
  predicate Clears(filter: Filter, p: string) { filter.Only? ==> p in filter.want }

  datatype Verdict = Fine | Damage | Refused

  datatype Applied = Applied(verdict: Verdict, disk: Disk)

  /** One tar entry: checked, and written if the filter lets it through. A file is checked
      only after it was written, and removed again if it does not pass. */
  function ApplyEntry(c: Codec, filter: Filter, files: seq<FileMeta>, e: TarEntry, d: Disk): Applied {
    var named := FileNamed(files, e.name);
    if named.None? then Applied(Damage, d)
    else
      var fm, passes := named.value, EntryPasses(c, files, e);
      if !passes && !(e.kind.RegEntry? && e.size == fm.size) then Applied(Damage, d)
      else if !Writable(filter, files, fm.path) then Applied(if passes then Fine else Damage, d)
      else
        var put := PutEntry(d, e.kind, PlaceOf(fm.path), fm.linkname, e.content);
        if !put.ok then Applied(Refused, put.disk)
        else if passes then Applied(Fine, put.disk)
        else Applied(Damage, RemoveAt(put.disk, PlaceOf(fm.path)))
  }

  /** The first n entries, up to the first that is damaged or refused. */
  function ApplyEntries(c: Codec, filter: Filter, files: seq<FileMeta>, entries: seq<TarEntry>, n: nat,
                        d: Disk): Applied
    requires n <= |entries|
  {
    if n == 0 then Applied(Fine, d)
    else
      var a := ApplyEntries(c, filter, files, entries, n - 1, d);
      if a.verdict.Fine? then ApplyEntry(c, filter, files, entries[n - 1], a.disk) else a
  }

  /** The tombstones among the first n files, in the order of the list; one that cannot be
      removed is left. */
  function Cleared(filter: Filter, files: seq<FileMeta>, n: nat, d: Disk): Disk
    requires n <= |files|
  {
    if n == 0 then d
    else
      var prev, fm := Cleared(filter, files, n - 1, d), files[n - 1];
      if fm.IsDeleted() && Clears(filter, fm.path) then RemoveAt(prev, PlaceOf(fm.path)) else prev
  }

  // ----- The destination as the restore uses it ---------------------------------------------

  class Destination {
    var disk: Disk

    constructor (disk: Disk)
      ensures this.disk == disk
    {
      this.disk := disk;
    }

    method Extract(c: Codec, filter: Filter, files: seq<FileMeta>, e: TarEntry) returns (v: Verdict)
      modifies this
      ensures Applied(v, disk) == ApplyEntry(c, filter, files, e, old(disk))
    {
      hide PutEntry, Writable, RemoveAt;
      var named := FileNamed(files, e.name);
      if named.None? {
        return Damage;
      }
      var fm := named.value;
      var passes := EntryPasses(c, files, e);
      if !passes && !(e.kind.RegEntry? && e.size == fm.size) {
        return Damage;
      }
      if Writable(filter, files, fm.path) {
        var put := PutEntry(disk, e.kind, PlaceOf(fm.path), fm.linkname, e.content);
        disk := put.disk;
        if !put.ok {
          return Refused;
        }
        if !passes {
          disk := RemoveAt(disk, PlaceOf(fm.path));
        }
      }
      v := if passes then Fine else Damage;
    }

    /** Extracts entries until one is damaged or refused. */
    method ExtractAll(c: Codec, filter: Filter, files: seq<FileMeta>, entries: seq<TarEntry>) returns (v: Verdict)
      modifies this
      ensures Applied(v, disk) == ApplyEntries(c, filter, files, entries, |entries|, old(disk))
    {
      hide ApplyEntry;
      v := Fine;
      for i := 0 to |entries|
        invariant v == Fine && Applied(v, disk) == ApplyEntries(c, filter, files, entries, i, old(disk))
      {
        v := Extract(c, filter, files, entries[i]);
        if v != Fine {
          StopsAt(c, filter, files, entries, i + 1, |entries|, old(disk));
          return;
        }
      }
    }

    method ApplyTombstones(filter: Filter, files: seq<FileMeta>)
      modifies this
      ensures disk == Cleared(filter, files, |files|, old(disk))
    {
      hide RemoveAt;
      for i := 0 to |files|
        invariant disk == Cleared(filter, files, i, old(disk))
      {
        if files[i].IsDeleted() && Clears(filter, files[i].path) {
          disk := RemoveAt(disk, PlaceOf(files[i].path));
        }
      }
    }
  }

  lemma {:induction false} StopsAt(c: Codec, filter: Filter, files: seq<FileMeta>, entries: seq<TarEntry>,
                                   n: nat, m: nat, d: Disk)
    requires n <= m <= |entries| && !ApplyEntries(c, filter, files, entries, n, d).verdict.Fine?
    ensures ApplyEntries(c, filter, files, entries, m, d) == ApplyEntries(c, filter, files, entries, n, d)
  {
    hide ApplyEntry;
    if n < m {
      StopsAt(c, filter, files, entries, n, m - 1, d);
    }
  }
}
