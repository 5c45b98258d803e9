/** Restoring chosen paths from the freshest copies on a cartridge that still read
    (internal/usecase/restore/usecase.go:206-314, 389-492). */
module SmartRestores {
  import opened Domain
  import opened TapeMachine
  import opened FakeTapes
  import opened TapeFormat
  import opened Layout
  import opened Catalogs
  import opened Worlds
  import opened Formatting
  import opened Restoring
  import opened Destinations
  import opened DiskLaws
  import opened Replaying
  import Grouping

  // ----- What is left alone -------------------------------------------------------------------

  predicate Mentions(files: seq<FileMeta>, p: string) {
    exists i :: 0 <= i < |files| && files[i].path == p
  }

  /** The destination holds what a session says of a path: an entry, or nothing. A directory
      with a tombstone stays as long as something lies in it. */
  ghost predicate HoldsSaid(c: Codec, d: Disk, files: seq<FileMeta>, p: string) {
    forall i :: 0 <= i < |files| && files[i].path == p ==>
      if files[i].IsDeleted() then SpotOf(p) in d.names <==> d.Occupied(SpotOf(p)) else HoldsVersion(c, d, files[i])
  }

  // The file at this place has no other name.
  ghost predicate UnsharedAt(d: Disk, at: Place) {
    forall q :: at in d.names && q in d.names && q != at && d.names[at].FileNode? ==> d.names[q] != d.names[at]
  }

  /** A place, its data and all below it are the same. */
  ghost predicate SameThere(a: Disk, b: Disk, at: Place) {
    && a.At(at) == b.At(at) && (forall q :: at < q ==> a.At(q) == b.At(q))
    && |a.data| <= |b.data|
    && (a.At(at).Some? && a.At(at).value.FileNode? && a.At(at).value.inode < |a.data| ==>
        b.data[a.At(at).value.inode] == a.data[a.At(at).value.inode])
  }

  // No hard link is listed here or names this place.
  ghost predicate NotLinked(files: seq<FileMeta>, at: Place) {
    forall i :: 0 <= i < |files| && files[i].IsHardlink() ==>
      Spot(files[i]) != at && PlaceOf(files[i].linkname) != Some(at)
  }

  // What is wanted is listed neither here nor below.
  ghost predicate LeavesAlone(files: seq<FileMeta>, want: seq<string>, at: Place) {
    forall i :: 0 <= i < |files| && Included(files, want, files[i].path) ==> !(at <= Spot(files[i]))
  }

  lemma PutThere(d: Disk, kind: EntryKind, p: Place, linkname: string, bytes: seq<byte>, at: Place)
    requires d.Valid() && UnsharedAt(d, at) && PutEntry(d, kind, Some(p), linkname, bytes).ok
    requires kind == LinkEntry ==> p != at && PlaceOf(linkname) != Some(at)
    ensures var r := PutEntry(d, kind, Some(p), linkname, bytes).disk;
      && r.Valid() && UnsharedAt(r, at)
      && (!(at <= p) ==> SameThere(d, r, at))
      && (at != [] && at != p && d.At(at).Some? ==> r.At(at) == d.At(at))
      && |d.data| <= |r.data|
      && (at != [] && at != p && d.At(at).Some? && d.At(at).value.FileNode? && d.At(at).value.inode < |d.data| ==>
          r.data[d.At(at).value.inode] == d.data[d.At(at).value.inode])
  {
    hide PutEntry, Disk.Blocked, Disk.Occupied, Removable, CanLink;
    PutAt(d, kind, p, linkname, bytes);
    var r := PutEntry(d, kind, Some(p), linkname, bytes).disk;
    NoRootName(d);
    NoRootName(r);
    if at < p && at != [] {
      AboveIsOpen(d, p, at);
    }
    forall q | at in r.names && q in r.names && q != at && r.names[at].FileNode?
      ensures r.names[q] != r.names[at]
    {
      assert r.At(at) == Some(r.names[at]) && r.At(q) == Some(r.names[q]);
      assert at != p ==> d.At(at) == r.At(at);
      assert q != p ==> r.At(q) == Some(DirNode) || r.At(q) == d.At(q);
      var node := NodeFor(d, kind, p, linkname);
      if at == p {
        assert r.names[at] == node;
        assert r.names[q] == DirNode || d.At(q) == Some(r.names[q]);
        NodeIsNew(d, kind, p, linkname, q);
      } else if q == p {
        NodeIsOwn(d, kind, p, linkname, at);
        assert r.names[q] == node && (r.names[at] == DirNode || d.At(at) == Some(r.names[at]));
      }
    }
  }

  // The node an entry gets is no other place's file, but for hard links.
  lemma NodeIsOwn(d: Disk, kind: EntryKind, p: Place, linkname: string, at: Place)
    requires d.Valid() && UnsharedAt(d, at) && Accepts(d, kind, p, linkname) && at != p
    requires kind == LinkEntry ==> PlaceOf(linkname) != Some(at)
    ensures at in d.names && d.names[at].FileNode? ==> NodeFor(d, kind, p, linkname) != d.names[at]
  {
  }

  lemma NodeIsNew(d: Disk, kind: EntryKind, p: Place, linkname: string, q: Place)
    requires d.Valid() && UnsharedAt(d, p) && Accepts(d, kind, p, linkname) && q != p && kind != LinkEntry
    ensures q in d.names && NodeFor(d, kind, p, linkname).FileNode? ==> d.names[q] != NodeFor(d, kind, p, linkname)
  {
  }

  // One entry that is not refused.
  lemma EntryThere(c: Codec, filter: Filter, files: seq<FileMeta>, e: TarEntry, d: Disk, at: Place)
    requires d.Valid() && UnsharedAt(d, at) && NotLinked(files, at) && at != []
    requires !ApplyEntry(c, filter, files, e, d).verdict.Refused?
    ensures var r := ApplyEntry(c, filter, files, e, d).disk;
      r.Valid() && UnsharedAt(r, at) && (filter.Only? && LeavesAlone(files, filter.want, at) ==> SameThere(d, r, at))
  {
    hide PutEntry, Included, Disk.Valid, UnsharedAt, SameThere, DigestMatches, Remove, PlaceOf, SpotOf;
    NamedIsAmong(files, e.name);
    ThereItself(d, at);
    var named := FileNamed(files, e.name);
    if named.Some? && Writable(filter, files, named.value.path) && PlaceOf(named.value.path).Some? {
      var fm, p := named.value, PlaceOf(named.value.path).value;
      var put := PutEntry(d, e.kind, Some(p), fm.linkname, e.content);
      PlaceIsSpot(fm);
      if put.ok {
        LinksElsewhere(c, files, e, at, p);
        if e.kind != LinkEntry || EntryPasses(c, files, e) {
          PutThere(d, e.kind, p, fm.linkname, e.content, at);
          RemovedThere(put.disk, p, at);
          ThereAgain(d, put.disk, Remove(put.disk, p).disk, at);
        }
      }
    } else if named.Some? {
      NowhereToPut(d, e.kind, named.value.linkname, e.content);
    }
  }

  lemma PlaceIsSpot(fm: FileMeta)
    requires PlaceOf(fm.path).Some?
    ensures PlaceOf(fm.path).value == Spot(fm)
  {
  }

  lemma LinksElsewhere(c: Codec, files: seq<FileMeta>, e: TarEntry, at: Place, p: Place)
    requires NotLinked(files, at) && FileNamed(files, e.name).Some?
    requires FileNamed(files, e.name).value in files && PlaceOf(FileNamed(files, e.name).value.path) == Some(p)
    ensures e.kind == LinkEntry && EntryPasses(c, files, e) ==>
      p != at && PlaceOf(FileNamed(files, e.name).value.linkname) != Some(at)
  {
    hide DigestMatches, PlaceOf;
    var fm := FileNamed(files, e.name).value;
    var i :| 0 <= i < |files| && files[i] == fm;
    PlaceIsSpot(fm);
  }

  lemma ThereItself(d: Disk, at: Place)
    ensures SameThere(d, d, at)
  {
  }

  lemma ThereAgain(a: Disk, b: Disk, d: Disk, at: Place)
    requires a.Valid()
    ensures SameThere(a, b, at) && SameThere(b, d, at) ==> SameThere(a, d, at)
  {
  }

  lemma RemovedThere(d: Disk, p: Place, at: Place)
    requires d.Valid() && UnsharedAt(d, at)
    ensures var r := Remove(d, p).disk;
      && r.Valid() && UnsharedAt(r, at) && r.data == d.data
      && (!(at <= p) ==> SameThere(d, r, at))
      && (at != p ==> r.At(at) == d.At(at))
  {
    hide Remove;
    RemoveAtPlace(d, p);
    var r := Remove(d, p).disk;
    NoRootName(d);
    NoRootName(r);
    forall q | q in r.names
      ensures q in d.names && d.names[q] == r.names[q]
    {
      assert r.At(q) == Some(r.names[q]);
    }
  }

  lemma {:induction false} EntriesThere(c: Codec, filter: Filter, files: seq<FileMeta>, entries: seq<TarEntry>,
                                        n: nat, d: Disk, at: Place)
    requires d.Valid() && UnsharedAt(d, at) && NotLinked(files, at) && at != [] && n <= |entries|
    requires !ApplyEntries(c, filter, files, entries, n, d).verdict.Refused?
    ensures var r := ApplyEntries(c, filter, files, entries, n, d).disk;
      r.Valid() && UnsharedAt(r, at) && (filter.Only? && LeavesAlone(files, filter.want, at) ==> SameThere(d, r, at))
  {
    hide ApplyEntry, Disk.Valid, UnsharedAt, SameThere, NotLinked, LeavesAlone;
    ThereItself(d, at);
    if n > 0 {
      EntriesThere(c, filter, files, entries, n - 1, d, at);
      var a := ApplyEntries(c, filter, files, entries, n - 1, d);
      if a.verdict.Fine? {
        EntryThere(c, filter, files, entries[n - 1], a.disk, at);
        ThereAgain(d, a.disk, ApplyEntry(c, filter, files, entries[n - 1], a.disk).disk, at);
      }
    }
  }

  lemma {:induction false} ClearedThere(files: seq<FileMeta>, want: seq<string>, n: nat, d: Disk, at: Place)
    requires d.Valid() && UnsharedAt(d, at) && n <= |files|
    ensures var r := Cleared(Only(want), files, n, d);
      r.Valid() && UnsharedAt(r, at) && (LeavesAlone(files, want, at) ==> SameThere(d, r, at))
  {
    hide Disk.Valid, UnsharedAt, SameThere, Remove, PlaceOf, SpotOf;
    ThereItself(d, at);
    if n > 0 {
      ClearedThere(files, want, n - 1, d, at);
      var prev, fm := Cleared(Only(want), files, n - 1, d), files[n - 1];
      if fm.IsDeleted() && fm.path in want && PlaceOf(fm.path).Some? {
        PlaceIsSpot(fm);
        RemovedThere(prev, Spot(fm), at);
        ThereAgain(d, prev, Remove(prev, Spot(fm)).disk, at);
      }
    }
  }

  /** Where a place was left alone, what a session said of it still holds. */
  lemma SaidIsKept(c: Codec, a: Disk, b: Disk, files: seq<FileMeta>, p: string)
    requires HoldsSaid(c, a, files, p) && SameThere(a, b, SpotOf(p)) && NotLinked(files, SpotOf(p)) && SpotOf(p) != []
    ensures HoldsSaid(c, b, files, p)
  {
    hide Disk.Occupied, DigestMatches, PlaceOf, SpotOf;
    SameBelow(a, b, SpotOf(p));
    assert a.At(SpotOf(p)) == b.At(SpotOf(p));
  }

  // ----- A session that mentions the path -----------------------------------------------------

  /** Nothing but a request for the path itself makes a session write it or anything below
      it, and no hard link is in play. */
  ghost predicate AloneIn(files: seq<FileMeta>, asked: seq<string>, p: string) {
    && NotLinked(files, SpotOf(p)) && LeavesAlone(files, Others(asked, p), SpotOf(p))
    && forall i :: 0 <= i < |files| && Spot(files[i]) == SpotOf(p) ==> files[i].path == p
  }

  function Others(asked: seq<string>, p: string): (r: seq<string>)
    ensures forall q :: q in r <==> q in asked && q != p
  {
    if asked == [] then [] else (if asked[0] == p then [] else [asked[0]]) + Others(asked[1..], p)
  }

  lemma WantedByMore(a: seq<string>, b: seq<string>, p: string)
    requires Wanted(a, p) && forall q :: q in a ==> q in b
    ensures Wanted(b, p)
  {
    if p !in a {
      var i :| 0 <= i < |a| && a[i] + "/" <= p;
      assert a[i] in b;
      var j :| 0 <= j < |b| && b[j] == a[i];
    }
  }

  lemma LessIsWanted(files: seq<FileMeta>, a: seq<string>, b: seq<string>, at: Place)
    requires LeavesAlone(files, b, at) && forall q :: q in a ==> q in b
    ensures LeavesAlone(files, a, at)
  {
    hide Wanted, SpotOf;
    forall i | 0 <= i < |files| && Included(files, a, files[i].path)
      ensures !(at <= Spot(files[i]))
    {
      if Wanted(a, files[i].path) {
        WantedByMore(a, b, files[i].path);
      } else {
        var j :| 0 <= j < |files| && files[j].IsHardlink() && Wanted(a, files[j].path)
                 && files[j].linkname == files[i].path;
        WantedByMore(a, b, files[j].path);
      }
      assert Included(files, b, files[i].path);
    }
  }

  // A live file: its entry puts it in place, and the others leave it there.
  lemma {:induction false} LiveIsPut(c: Codec, want: seq<string>, files: seq<FileMeta>, entries: seq<TarEntry>,
                                     n: nat, d: Disk, p: string, i: nat)
    requires d.Valid() && UnsharedAt(d, SpotOf(p)) && NotLinked(files, SpotOf(p)) && SpotOf(p) != []
    requires forall j :: 0 <= j < |files| && Spot(files[j]) == SpotOf(p) ==> files[j].path == p
    requires n <= |entries| && AsListed(files, entries) && DistinctPaths(files) && p in want
    requires i < |files| && files[i].path == p && !files[i].IsDeleted()
    requires ApplyEntries(c, Only(want), files, entries, n, d).verdict.Fine?
    ensures (exists k :: 0 <= k < n && entries[k].name == p) ==>
      HoldsVersion(c, ApplyEntries(c, Only(want), files, entries, n, d).disk, files[i])
  {
    hide ApplyEntry, Disk.Valid, UnsharedAt, NotLinked, AsListed, DistinctPaths, HoldsVersion, SpotOf;
    if n > 0 {
      LiveIsPut(c, want, files, entries, n - 1, d, p, i);
      EntriesThere(c, Only(want), files, entries, n - 1, d, SpotOf(p));
      var a := ApplyEntries(c, Only(want), files, entries, n - 1, d);
      OneMorePut(c, want, files, entries, n - 1, a.disk, p, i);
    }
  }

  lemma OneMorePut(c: Codec, want: seq<string>, files: seq<FileMeta>, entries: seq<TarEntry>, n: nat, d: Disk,
                   p: string, i: nat)
    requires d.Valid() && UnsharedAt(d, SpotOf(p)) && NotLinked(files, SpotOf(p)) && SpotOf(p) != []
    requires forall j :: 0 <= j < |files| && Spot(files[j]) == SpotOf(p) ==> files[j].path == p
    requires n < |entries| && AsListed(files, entries) && DistinctPaths(files) && p in want
    requires i < |files| && files[i].path == p && !files[i].IsDeleted()
    requires ApplyEntry(c, Only(want), files, entries[n], d).verdict.Fine?
    ensures entries[n].name == p || HoldsVersion(c, d, files[i]) ==>
      HoldsVersion(c, ApplyEntry(c, Only(want), files, entries[n], d).disk, files[i])
  {
    hide PutEntry, Included, Disk.Valid, UnsharedAt, NotLinked, DistinctPaths, HoldsVersion, DigestMatches, RemoveAt,
         PlaceOf, SpotOf, Accepts, EntryPasses;
    var e := entries[n];
    NamedIsAmong(files, e.name);
    var fm := FileNamed(files, e.name).value;
    FileNamedUnique(files, i);
    OnePasses(c, Only(want), files, e, d);
    if Writable(Only(want), files, fm.path) {
      NamedHasPlace(c, want, files, e, d);
      PlaceIsSpot(fm);
      PutAt(d, KindOf(fm), Spot(fm), fm.linkname, e.content);
      if Spot(fm) == SpotOf(p) {
        assert fm == files[i] by {
          var j :| 0 <= j < |files| && files[j] == fm;
        }
        EntryIsRight(c, files, e);
        KindHere(files, i, SpotOf(p));
        PutIsHeld(c, d, fm, e.content);
      } else {
        LinksElsewhere(c, files, e, SpotOf(p), Spot(fm));
        PutThere(d, KindOf(fm), Spot(fm), fm.linkname, e.content, SpotOf(p));
        KindHere(files, i, SpotOf(p));
        if HoldsVersion(c, d, files[i]) {
          HeldIsThere(c, d, files[i]);
        }
        HeldThere(c, d, PutEntry(d, KindOf(fm), Some(Spot(fm)), fm.linkname, e.content).disk, files[i]);
        assert fm.path == e.name;
      }
    } else {
      WantedItself(files, want, p);
      assert fm.path != p;
    }
  }

  lemma WantedItself(files: seq<FileMeta>, want: seq<string>, p: string)
    requires p in want
    ensures Included(files, want, p)
  {
  }

  lemma NamedHasPlace(c: Codec, want: seq<string>, files: seq<FileMeta>, e: TarEntry, d: Disk)
    requires FileNamed(files, e.name).Some? && Writable(Only(want), files, FileNamed(files, e.name).value.path)
    requires ApplyEntry(c, Only(want), files, e, d).verdict.Fine?
    ensures PlaceOf(FileNamed(files, e.name).value.path).Some?
    ensures ApplyEntry(c, Only(want), files, e, d).disk ==
      PutEntry(d, e.kind, PlaceOf(FileNamed(files, e.name).value.path), FileNamed(files, e.name).value.linkname,
               e.content).disk
    ensures PutEntry(d, e.kind, PlaceOf(FileNamed(files, e.name).value.path), FileNamed(files, e.name).value.linkname,
                     e.content).ok
  {
    hide Included, EntryPasses, RemoveAt;
    NowhereToPut(d, e.kind, FileNamed(files, e.name).value.linkname, e.content);
  }

  lemma EntryIsRight(c: Codec, files: seq<FileMeta>, e: TarEntry)
    requires EntryPasses(c, files, e) && e.size == |e.content|
    ensures FileNamed(files, e.name).Some?
    ensures e.kind == RegEntry ==> Passes(c, FileNamed(files, e.name).value, e.content)
  {
  }

  lemma KindHere(files: seq<FileMeta>, i: nat, at: Place)
    requires NotLinked(files, at) && i < |files| && Spot(files[i]) == at
    ensures KindOf(files[i]) != LinkEntry
  {
  }

  lemma HeldIsThere(c: Codec, d: Disk, v: FileMeta)
    requires HoldsVersion(c, d, v)
    ensures d.At(Spot(v)).Some?
  {
    hide Passes, SpotOf;
  }

  // What is held stays while its place and its data do.
  lemma HeldThere(c: Codec, d: Disk, r: Disk, v: FileMeta)
    requires HoldsVersion(c, d, v) ==>
      && r.At(Spot(v)) == d.At(Spot(v)) && |d.data| <= |r.data|
      && (d.At(Spot(v)).value.FileNode? && d.At(Spot(v)).value.inode < |d.data| ==>
          r.data[d.At(Spot(v)).value.inode] == d.data[d.At(Spot(v)).value.inode])
    requires KindOf(v) != LinkEntry
    ensures HoldsVersion(c, d, v) ==> HoldsVersion(c, r, v)
  {
    hide Passes, SpotOf;
  }

  // Tombstones of other paths leave it there.
  lemma {:induction false} LiveStays(c: Codec, want: seq<string>, files: seq<FileMeta>, n: nat, d: Disk, p: string,
                                     i: nat)
    requires d.Valid() && UnsharedAt(d, SpotOf(p)) && NotLinked(files, SpotOf(p)) && n <= |files|
    requires forall j :: 0 <= j < |files| && Spot(files[j]) == SpotOf(p) ==> files[j].path == p
    requires DistinctPaths(files) && i < |files| && files[i].path == p && !files[i].IsDeleted()
    requires HoldsVersion(c, d, files[i])
    ensures HoldsVersion(c, Cleared(Only(want), files, n, d), files[i])
  {
    hide Disk.Valid, UnsharedAt, NotLinked, HoldsVersion, Remove, PlaceOf, SpotOf;
    if n > 0 {
      LiveStays(c, want, files, n - 1, d, p, i);
      ClearedThere(files, want, n - 1, d, SpotOf(p));
      var prev, fm := Cleared(Only(want), files, n - 1, d), files[n - 1];
      if fm.IsDeleted() && fm.path in want && PlaceOf(fm.path).Some? {
        PlaceIsSpot(fm);
        assert Spot(fm) != SpotOf(p);
        RemovedThere(prev, Spot(fm), SpotOf(p));
        KindHere(files, i, SpotOf(p));
        HeldIsThere(c, prev, files[i]);
        HeldThere(c, prev, Remove(prev, Spot(fm)).disk, files[i]);
      }
    }
  }

  // The tombstone of the path itself: nothing is left there, or a directory that is not
  // empty.
  lemma {:induction false} GoneOrOccupied(want: seq<string>, files: seq<FileMeta>, n: nat, d: Disk, p: string, i: nat)
    requires d.Valid() && UnsharedAt(d, SpotOf(p)) && LeavesAlone(files, Others(want, p), SpotOf(p)) && n <= |files|
    requires forall j :: 0 <= j < |files| && Spot(files[j]) == SpotOf(p) ==> files[j].path == p
    requires DistinctPaths(files) && i < |files| && files[i].path == p && files[i].IsDeleted() && p in want
    requires PlaceOf(p).Some? && SpotOf(p) != []
    ensures i < n ==>
      var r := Cleared(Only(want), files, n, d);
      SpotOf(p) in r.names <==> r.Occupied(SpotOf(p))
  {
    hide Disk.Valid, UnsharedAt, Remove, PlaceOf, SpotOf, Disk.Occupied, LeavesAlone, SameThere, DistinctPaths;
    if i < n {
      ClearedThere(files, want, n - 1, d, SpotOf(p));
      var prev, fm := Cleared(Only(want), files, n - 1, d), files[n - 1];
      if n - 1 == i {
        PlaceIsSpot(fm);
        OwnTombstone(prev, SpotOf(p));
      } else {
        GoneOrOccupied(want, files, n - 1, d, p, i);
        if fm.IsDeleted() && fm.path in want && PlaceOf(fm.path).Some? {
          PlaceIsSpot(fm);
          TombstoneElsewhere(files, want, p, i, n - 1);
          RemovedThere(prev, Spot(fm), SpotOf(p));
          StaysGone(prev, Remove(prev, Spot(fm)).disk, SpotOf(p));
        }
      }
    }
  }

  lemma TombstoneElsewhere(files: seq<FileMeta>, want: seq<string>, p: string, i: nat, k: nat)
    requires LeavesAlone(files, Others(want, p), SpotOf(p)) && DistinctPaths(files)
    requires i < k < |files| && files[i].path == p && files[k].path in want
    ensures !(SpotOf(p) <= Spot(files[k]))
  {
    hide SpotOf;
    WantedItself(files, Others(want, p), files[k].path);
  }

  lemma OwnTombstone(d: Disk, at: Place)
    requires d.Valid() && at != []
    ensures var r := Remove(d, at).disk; at in r.names <==> r.Occupied(at)
  {
    hide Remove;
    RemoveAtPlace(d, at);
    var r := Remove(d, at).disk;
    SameBelow(d, r, at);
    assert at in r.names <==> r.At(at).Some?;
    if at !in d.names {
      BelowIsPresent(d, at);
    } else if d.names[at] != DirNode {
      NotOccupied(d, at);
    }
  }

  lemma StaysGone(a: Disk, b: Disk, at: Place)
    requires SameThere(a, b, at) && at != [] && (at in a.names <==> a.Occupied(at))
    ensures at in b.names <==> b.Occupied(at)
  {
    hide Disk.Occupied;
    SameBelow(a, b, at);
    assert a.At(at) == b.At(at);
  }

  /** A session that is read leaves a path it mentions, and that was asked for, as it says. */
  lemma RestoredAt(c: Codec, want: seq<string>, files: seq<FileMeta>, bytes: seq<byte>, d: Disk, p: string)
    requires d.Valid() && UnsharedAt(d, SpotOf(p)) && AloneIn(files, want, p) && SpotOf(p) != [] && PlaceOf(p).Some?
    requires ReadsTar(c, files, bytes) && AsListed(files, c.untar(bytes).value) && DistinctPaths(files) && p in want
    requires var entries := c.untar(bytes).value;
      ApplyEntries(c, Only(want), files, entries, |entries|, d).verdict.Fine?
    ensures var entries := c.untar(bytes).value;
      var r := Cleared(Only(want), files, |files|, ApplyEntries(c, Only(want), files, entries, |entries|, d).disk);
      r.Valid() && UnsharedAt(r, SpotOf(p)) && HoldsSaid(c, r, files, p)
  {
    hide Disk.Valid, UnsharedAt, NotLinked, AsListed, DistinctPaths, HoldsVersion, SpotOf, PlaceOf, EntryPasses,
         ApplyEntries, Cleared, LeavesAlone, Disk.Occupied;
    var entries := c.untar(bytes).value;
    var mid := ApplyEntries(c, Only(want), files, entries, |entries|, d).disk;
    EntriesThere(c, Only(want), files, entries, |entries|, d, SpotOf(p));
    ClearedThere(files, want, |files|, mid, SpotOf(p));
    forall i | 0 <= i < |files| && files[i].path == p
      ensures
        var r := Cleared(Only(want), files, |files|, mid);
        if files[i].IsDeleted() then SpotOf(p) in r.names <==> r.Occupied(SpotOf(p)) else HoldsVersion(c, r, files[i])
    {
      if files[i].IsDeleted() {
        GoneOrOccupied(want, files, |files|, mid, p, i);
      } else {
        assert MetIn(files[i], entries);
        LiveIsPut(c, want, files, entries, |entries|, d, p, i);
        LiveStays(c, want, files, |files|, mid, p, i);
      }
    }
  }

  // ----- Copies ---------------------------------------------------------------------------

  datatype Group = Group(id: int, num: int)

  // Highest numbers first, each row once.
  ghost predicate Ranked(groups: seq<Group>) {
    forall i, j :: 0 <= i < j < |groups| ==> groups[i].num >= groups[j].num && groups[i].id != groups[j].id
  }

  // Puts a group in its place, highest numbers first.
  function RankedIn(groups: seq<Group>, g: Group): (r: seq<Group>)
    ensures forall x :: x in r <==> x == g || x in groups
    ensures |r| == |groups| + 1
  {
    if groups == [] || groups[0].num < g.num then [g] + groups else [groups[0]] + RankedIn(groups[1..], g)
  }

  lemma {:induction false} PlacedIsRanked(groups: seq<Group>, g: Group)
    requires Ranked(groups) && forall x :: x in groups ==> x.id != g.id
    ensures Ranked(RankedIn(groups, g))
  {
    if groups != [] && !(groups[0].num < g.num) {
      PlacedIsRanked(groups[1..], g);
      var rest := RankedIn(groups[1..], g);
      forall j | 0 <= j < |rest| ensures groups[0].num >= rest[j].num && groups[0].id != rest[j].id {
        assert rest[j] in rest;
        if rest[j] != g {
          assert rest[j] in groups[1..];
        }
      }
    }
  }

  // The rows that mention a path.
  method GetAllFileCopies(cat: Catalog, p: string) returns (ids: seq<int>)
    requires cat.Valid()
    ensures forall id :: id in ids <==> id in cat.sessions && Mentions(cat.FilesOf(id), p)
    ensures forall k :: 0 <= k < |ids| ==> ids[k] in cat.sessions
  {
    ids := [];
    for id := 1 to cat.nextID + 1
      invariant forall k :: k in ids <==> k in cat.sessions && k < id && Mentions(cat.FilesOf(k), p)
      invariant forall k :: 0 <= k < |ids| ==> ids[k] in cat.sessions
    {
      if id in cat.sessions && Mentions(cat.FilesOf(id), p) {
        ids := ids + [id];
      }
    }
  }

  // Whether a row of this cartridge mentions one of the first n paths.
  ghost predicate IsCopy(cat: Catalog, uuid: string, paths: seq<string>, n: nat, id: int)
    requires n <= |paths|
    reads cat
  {
    && id in cat.sessions && cat.sessions[id].tapeUUID == uuid
    && exists k :: 0 <= k < n && Mentions(cat.FilesOf(id), paths[k])
  }

  ghost predicate AreCopies(cat: Catalog, uuid: string, groups: seq<Group>)
    reads cat
  {
    forall g :: g in groups ==>
      g.id in cat.sessions && cat.sessions[g.id].tapeUUID == uuid && g.num == cat.sessions[g.id].num
  }

  // The rows gathered so far.
  ghost predicate AreSeen(groups: seq<Group>, seen: set<int>) {
    forall id :: id in seen <==> exists g :: g in groups && g.id == id
  }

  lemma SeenGrows(groups: seq<Group>, seen: set<int>, g: Group)
    requires AreSeen(groups, seen)
    ensures AreSeen(RankedIn(groups, g), seen + {g.id})
  {
    hide RankedIn;
    var more := RankedIn(groups, g);
    forall id
      ensures id in seen + {g.id} <==> exists x :: x in more && x.id == id
    {
      if id == g.id {
        assert g in more;
      } else if id in seen {
        var x :| x in groups && x.id == id;
        assert x in more;
      }
    }
  }

  /** The sessions of this cartridge that mention one of the paths, newest first. */
  method CopiesBySession(cat: Catalog, paths: seq<string>, uuid: string) returns (groups: seq<Group>)
    requires cat.Valid()
    ensures Ranked(groups) && AreCopies(cat, uuid, groups)
    ensures forall id :: IsCopy(cat, uuid, paths, |paths|, id) ==> exists g :: g in groups && g.id == id
  {
    hide Mentions;
    groups := [];
    var seen: set<int> := {};
    for i := 0 to |paths|
      invariant Ranked(groups) && AreCopies(cat, uuid, groups)
      invariant AreSeen(groups, seen)
      invariant forall id :: IsCopy(cat, uuid, paths, i, id) ==> id in seen
    {
      var ids := GetAllFileCopies(cat, paths[i]);
      ghost var before := seen;
      for j := 0 to |ids|
        invariant Ranked(groups) && AreCopies(cat, uuid, groups)
        invariant before <= seen && AreSeen(groups, seen)
        invariant forall k :: 0 <= k < j && cat.sessions[ids[k]].tapeUUID == uuid ==> ids[k] in seen
      {
        assert ids[j] in ids;
        if cat.sessions[ids[j]].tapeUUID == uuid && ids[j] !in seen {
          var g := Group(ids[j], cat.sessions[ids[j]].num);
          PlacedIsRanked(groups, g);
          SeenGrows(groups, seen, g);
          groups := RankedIn(groups, g);
          seen := seen + {ids[j]};
        }
      }
    }
  }

  // ----- What the cartridge still gives -------------------------------------------------------

  /** The rows of the cartridge are numbered from 1 on; a session that still reads without
      damage lists the files it was entered with, and its tar stream is as listed. */
  ghost predicate Catalogued(c: Codec, rows: SessionTable, files: FileTable,
                             uuid: string, recs: seq<Recorded>, ids: seq<int>)
  {
    && |ids| <= |recs|
    && (forall k :: 0 <= k < |ids| ==> ids[k] in rows && rows[ids[k]].tapeUUID == uuid && rows[ids[k]].num == k + 1)
    && (forall id :: id in rows && rows[id].tapeUUID == uuid ==> id in ids)
    && (forall k :: 0 <= k < |ids| ==> Agrees(c, files, ids[k], recs[k]))
  }

  ghost predicate Agrees(c: Codec, files: FileTable, id: int, rec: Recorded) {
    Readable(c, rec) ==> FilesOfRec(c, rec) == (if id in files then files[id] else []) && Tidy(c, rec)
  }

  // As a backup writes it: no path twice, and entries as listed.
  ghost predicate Tidy(c: Codec, rec: Recorded) {
    && DistinctPaths(FilesOfRec(c, rec))
    && (c.untar(Concat(rec.tar)).Some? ==> AsListed(FilesOfRec(c, rec), c.untar(Concat(rec.tar)).value))
  }

  ghost function FilesOfRec(c: Codec, rec: Recorded): seq<FileMeta> {
    match ReadIndex(c, Concat(rec.index))
    case Index(idx) => idx.files
    case _ => []
  }

  /** A healthy copy: session k reads, and mentions the path. */
  ghost predicate Healthy(c: Codec, recs: seq<Recorded>, k: nat, p: string) {
    k < |recs| && Readable(c, recs[k]) && Mentions(FilesOfRec(c, recs[k]), p)
  }

  /** Session k is the newest healthy copy among the first n. */
  ghost predicate Freshest(c: Codec, recs: seq<Recorded>, n: nat, k: nat, p: string) {
    k < n && Healthy(c, recs, k, p) && forall j :: k < j < n ==> !Healthy(c, recs, j, p)
  }

  /** The path stands on its own: no session of the cartridge writes it, or below it, for the
      sake of anything else that was asked for; and its file had no other name. */
  ghost predicate Alone(c: Codec, recs: seq<Recorded>, asked: seq<string>, d0: Disk, p: string) {
    && SpotOf(p) != [] && PlaceOf(p).Some? && UnsharedAt(d0, SpotOf(p))
    && forall k :: 0 <= k < |recs| ==> AloneIn(FilesOfRec(c, recs[k]), asked, p)
  }

  datatype SmartResult = AllRestored | NoHealthyCopy | NothingAsked | NoCartridge | ReadFailed

  /** What holds of a path once the sessions from number `from` on were tried: it is still
      asked for exactly if none of them is a healthy copy; otherwise the destination holds
      what the newest healthy one says. */
  ghost predicate Settled(c: Codec, recs: seq<Recorded>, from: nat, n: nat, remaining: seq<string>, d: Disk,
                          p: string) {
    && (p in remaining <==> forall k :: from <= k < n ==> !Healthy(c, recs, k, p))
    && (p !in remaining ==> HoldsNewest(c, recs, from, n, d, p))
  }

  ghost predicate HoldsNewest(c: Codec, recs: seq<Recorded>, from: nat, n: nat, d: Disk, p: string) {
    exists k :: from <= k && Freshest(c, recs, n, k, p) && HoldsSaid(c, d, FilesOfRec(c, recs[k]), p)
  }

  function DropRestored(remaining: seq<string>, files: seq<FileMeta>): (r: seq<string>)
    ensures forall p :: p in r <==> p in remaining && !Mentions(files, p)
  {
    if remaining == [] then []
    else (if Mentions(files, remaining[0]) then [] else [remaining[0]]) + DropRestored(remaining[1..], files)
  }

  // ----- One session after the other --------------------------------------------------------

  // Sessions that are no healthy copy may be passed over.
  lemma PassedOver(c: Codec, recs: seq<Recorded>, low: nat, from: nat, n: nat, remaining: seq<string>, d: Disk,
                   p: string)
    requires Settled(c, recs, from, n, remaining, d, p) && low <= from
    requires p in remaining ==> forall k :: low <= k < from ==> !Healthy(c, recs, k, p)
    ensures Settled(c, recs, low, n, remaining, d, p)
  {
    hide Readable, Mentions, HoldsSaid;
    if p !in remaining {
      var k :| from <= k && Freshest(c, recs, n, k, p) && HoldsSaid(c, d, FilesOfRec(c, recs[k]), p);
    }
  }

  // What is still asked for, apart from the path, was asked for apart from it.
  lemma RemainingAlone(files: seq<FileMeta>, asked: seq<string>, remaining: seq<string>, p: string)
    requires AloneIn(files, asked, p) && forall q :: q in remaining ==> q in asked
    ensures AloneIn(files, remaining, p)
    ensures p !in remaining ==> LeavesAlone(files, remaining, SpotOf(p))
  {
    hide NotLinked, LeavesAlone, SpotOf;
    LessIsWanted(files, Others(remaining, p), Others(asked, p), SpotOf(p));
    if p !in remaining {
      LessIsWanted(files, remaining, Others(asked, p), SpotOf(p));
    }
  }

  // A settled path whose place was left alone.
  lemma NewestIsKept(c: Codec, recs: seq<Recorded>, asked: seq<string>, d0: Disk, low: nat, from: nat, n: nat, a: Disk,
                     b: Disk, p: string)
    requires Alone(c, recs, asked, d0, p) && SameThere(a, b, SpotOf(p)) && low <= from && n <= |recs|
    requires HoldsNewest(c, recs, from, n, a, p)
    ensures HoldsNewest(c, recs, low, n, b, p)
  {
    hide HoldsSaid, FilesOfRec, Healthy, SameThere, LeavesAlone, NotLinked, UnsharedAt, SpotOf, PlaceOf;
    var k :| from <= k && Freshest(c, recs, n, k, p) && HoldsSaid(c, a, FilesOfRec(c, recs[k]), p);
    assert AloneIn(FilesOfRec(c, recs[k]), asked, p);
    SaidIsKept(c, a, b, FilesOfRec(c, recs[k]), p);
  }

  lemma ReadCopy(c: Codec, recs: seq<Recorded>, k: nat, n: nat, asked: seq<string>, remaining: seq<string>, d0: Disk,
                 d: Disk, p: string)
    requires Settled(c, recs, k + 1, n, remaining, d, p) && k < n <= |recs|
    requires d.Valid() && UnsharedAt(d, SpotOf(p))
    requires Alone(c, recs, asked, d0, p) && forall q :: q in remaining ==> q in asked
    requires Readable(c, recs[k]) && Tidy(c, recs[k]) && c.untar(Concat(recs[k].tar)).Some?
    requires var files, entries := FilesOfRec(c, recs[k]), c.untar(Concat(recs[k].tar)).value;
      ApplyEntries(c, Only(remaining), files, entries, |entries|, d).verdict.Fine?
    ensures var files, entries := FilesOfRec(c, recs[k]), c.untar(Concat(recs[k].tar)).value;
      var after := Cleared(Only(remaining), files, |files|,
                           ApplyEntries(c, Only(remaining), files, entries, |entries|, d).disk);
      UnsharedAt(after, SpotOf(p)) && Settled(c, recs, k, n, DropRestored(remaining, files), after, p)
  {
    hide HoldsSaid, DropRestored, ApplyEntries, Cleared, Mentions, DistinctPaths, AsListed, Included, Disk.Valid,
         UnsharedAt, AloneIn, LeavesAlone, NotLinked, SameThere, ReadsTar, ReadIndex, Concat, SpotOf, PlaceOf,
         HoldsNewest;
    var files, entries := FilesOfRec(c, recs[k]), c.untar(Concat(recs[k].tar)).value;
    var mid := ApplyEntries(c, Only(remaining), files, entries, |entries|, d).disk;
    var after := Cleared(Only(remaining), files, |files|, mid);
    assert AloneIn(files, asked, p);
    RemainingAlone(files, asked, remaining, p);
    LinksOf(files, remaining, p);
    EntriesThere(c, Only(remaining), files, entries, |entries|, d, SpotOf(p));
    ClearedThere(files, remaining, |files|, mid, SpotOf(p));
    if p !in remaining {
      ThereAgain(d, mid, after, SpotOf(p));
      NewestIsKept(c, recs, asked, d0, k, k + 1, n, d, after, p);
    } else if Mentions(files, p) {
      RestoredAt(c, remaining, files, Concat(recs[k].tar), d, p);
      HoldsThis(c, recs, k, n, after, p);
    }
  }

  lemma LinksOf(files: seq<FileMeta>, asked: seq<string>, p: string)
    requires AloneIn(files, asked, p)
    ensures NotLinked(files, SpotOf(p))
  {
  }

  lemma HoldsThis(c: Codec, recs: seq<Recorded>, k: nat, n: nat, d: Disk, p: string)
    requires k < n <= |recs| && Healthy(c, recs, k, p) && HoldsSaid(c, d, FilesOfRec(c, recs[k]), p)
    requires forall j :: k < j < n ==> !Healthy(c, recs, j, p)
    ensures HoldsNewest(c, recs, k, n, d, p)
  {
    hide Healthy, HoldsSaid, FilesOfRec;
    assert Freshest(c, recs, n, k, p);
  }

  // A damaged session leaves settled paths alone, whatever entries it gave.
  lemma DamagedCopy(c: Codec, recs: seq<Recorded>, k: nat, n: nat, asked: seq<string>, remaining: seq<string>,
                    d0: Disk, d: Disk, entries: seq<TarEntry>, p: string)
    requires Settled(c, recs, k + 1, n, remaining, d, p) && k < n <= |recs|
    requires d.Valid() && UnsharedAt(d, SpotOf(p))
    requires Alone(c, recs, asked, d0, p) && forall q :: q in remaining ==> q in asked
    requires !Readable(c, recs[k])
    requires !ApplyEntries(c, Only(remaining), FilesOfRec(c, recs[k]), entries, |entries|, d).verdict.Refused?
    ensures var after := ApplyEntries(c, Only(remaining), FilesOfRec(c, recs[k]), entries, |entries|, d).disk;
      UnsharedAt(after, SpotOf(p)) && Settled(c, recs, k, n, remaining, after, p)
  {
    hide Readable, HoldsSaid, FilesOfRec, Mentions, Included, ApplyEntries, Disk.Valid, UnsharedAt, AloneIn,
         LeavesAlone, NotLinked, SameThere, SpotOf, PlaceOf, HoldsNewest;
    var files := FilesOfRec(c, recs[k]);
    var after := ApplyEntries(c, Only(remaining), files, entries, |entries|, d).disk;
    assert AloneIn(files, asked, p);
    RemainingAlone(files, asked, remaining, p);
    LinksOf(files, remaining, p);
    EntriesThere(c, Only(remaining), files, entries, |entries|, d, SpotOf(p));
    if p !in remaining {
      NewestIsKept(c, recs, asked, d0, k, k + 1, n, d, after, p);
    }
  }

  // Rows that are no copies of what is asked for hold no healthy copy.
  lemma NoCopyIsUnhealthy(c: Codec, rows: SessionTable, files: FileTable, uuid: string, recs: seq<Recorded>,
                          ids: seq<int>, k: nat, p: string)
    requires Catalogued(c, rows, files, uuid, recs, ids) && k < |ids|
    requires !Mentions(if ids[k] in files then files[ids[k]] else [], p)
    ensures !Healthy(c, recs, k, p)
  {
    hide Mentions, Readable;
    assert Agrees(c, files, ids[k], recs[k]);
  }

  // Where the next group is, and that nothing between it and the last one is a copy.
  ghost function Level(groups: seq<Group>, i: nat): int
    requires i <= |groups|
  {
    if i < |groups| then groups[i].num else 0
  }

  lemma BetweenGroups(cat: Catalog, c: Codec, uuid: string, recs: seq<Recorded>, ids: seq<int>, asked: seq<string>,
                      groups: seq<Group>, i: nat, top: int, k: nat, p: string)
    requires Catalogued(c, cat.sessions, cat.files, uuid, recs, ids)
    requires Ranked(groups) && AreCopies(cat, uuid, groups)
    requires forall id :: IsCopy(cat, uuid, asked, |asked|, id) ==> exists g :: g in groups && g.id == id
    requires i <= |groups| && (i == 0 ==> top == |ids| + 1) && (i > 0 ==> top == groups[i - 1].num)
    requires Level(groups, i) <= k < top - 1 && k < |ids| && p in asked
    ensures !Healthy(c, recs, k, p)
  {
    hide Mentions, Healthy, Agrees;
    var id := ids[k];
    if Mentions(cat.FilesOf(id), p) {
      var j :| 0 <= j < |asked| && asked[j] == p;
      assert IsCopy(cat, uuid, asked, |asked|, id);
      var g :| g in groups && g.id == id;
      var m :| 0 <= m < |groups| && groups[m] == g;
      assert false;
    }
    NoCopyIsUnhealthy(c, cat.sessions, cat.files, uuid, recs, ids, k, p);
  }

  // What is asked for, and what is known of each path once the sessions from `from` on were
  // tried.
  ghost predicate AllSettled(c: Codec, recs: seq<Recorded>, from: nat, n: nat, asked: seq<string>,
                             remaining: seq<string>, d0: Disk, d: Disk)
  {
    && n <= |recs| && d.Valid()
    && (forall q :: q in remaining ==> q in asked)
    && (forall p :: p in asked && Alone(c, recs, asked, d0, p) ==>
          UnsharedAt(d, SpotOf(p)) && Settled(c, recs, from, n, remaining, d, p))
  }

  lemma NothingTried(c: Codec, recs: seq<Recorded>, n: nat, asked: seq<string>, d0: Disk)
    requires n <= |recs| && d0.Valid()
    ensures AllSettled(c, recs, n, n, asked, asked, d0, d0)
  {
    hide Healthy, AloneIn;
  }

  // On to the next group, or past the last one.
  lemma NextGroup(cat: Catalog, c: Codec, uuid: string, recs: seq<Recorded>, ids: seq<int>, asked: seq<string>,
                  groups: seq<Group>, i: nat, from: nat, remaining: seq<string>, d0: Disk, d: Disk)
    requires Catalogued(c, cat.sessions, cat.files, uuid, recs, ids)
    requires Ranked(groups) && AreCopies(cat, uuid, groups)
    requires forall id :: IsCopy(cat, uuid, asked, |asked|, id) ==> exists g :: g in groups && g.id == id
    requires i <= |groups| && from == if i == 0 then |ids| else groups[i - 1].num - 1
    requires AllSettled(c, recs, from, |ids|, asked, remaining, d0, d)
    ensures 0 <= Level(groups, i) <= from
    ensures AllSettled(c, recs, Level(groups, i), |ids|, asked, remaining, d0, d)
    ensures i < |groups| ==> 0 < groups[i].num <= |ids| && groups[i].id == ids[groups[i].num - 1]
    ensures i < |groups| && Readable(c, recs[groups[i].num - 1]) ==> Tidy(c, recs[groups[i].num - 1])
  {
    hide Alone, Settled, Healthy, IsCopy, Readable, FilesOfRec, Tidy, Disk.Valid, UnsharedAt;
    if i < |groups| {
      GroupIsRow(cat, c, uuid, recs, ids, groups, i);
    }
    if i > 0 {
      GroupIsRow(cat, c, uuid, recs, ids, groups, i - 1);
    }
    var low := Level(groups, i);
    forall p | p in asked && Alone(c, recs, asked, d0, p)
      ensures Settled(c, recs, low, |ids|, remaining, d, p)
    {
      forall k | low <= k < from
        ensures !Healthy(c, recs, k, p)
      {
        BetweenGroups(cat, c, uuid, recs, ids, asked, groups, i, from + 1, k, p);
      }
      PassedOver(c, recs, low, from, |ids|, remaining, d, p);
    }
  }

  lemma GroupIsRow(cat: Catalog, c: Codec, uuid: string, recs: seq<Recorded>, ids: seq<int>, groups: seq<Group>,
                   i: nat)
    requires Catalogued(c, cat.sessions, cat.files, uuid, recs, ids) && AreCopies(cat, uuid, groups) && i < |groups|
    ensures 0 < groups[i].num <= |ids| && groups[i].id == ids[groups[i].num - 1]
    ensures Readable(c, recs[groups[i].num - 1]) ==> Tidy(c, recs[groups[i].num - 1])
  {
    hide Readable, Tidy;
    assert groups[i] in groups;
    var k :| 0 <= k < |ids| && ids[k] == groups[i].id;
    assert Agrees(c, cat.files, ids[k], recs[k]);
  }

  /** What reading a session for the paths asked for did. */
  ghost predicate Selected(c: Codec, want: seq<string>, rec: Recorded, d: Disk, r: ReadOutcome, d': Disk) {
    && (r.SessionRead? ==>
        && Readable(c, rec) && r.idx.files == FilesOfRec(c, rec)
        && d' == WhenRead(c, want, FilesOfRec(c, rec), Concat(rec.tar), d)
        && TakesAll(c, want, FilesOfRec(c, rec), Concat(rec.tar), d))
    && (r.SessionDamage? ==>
        !Readable(c, rec) && exists entries :: WhenDamaged(c, want, FilesOfRec(c, rec), entries, d, d'))
  }

  ghost predicate TakesAll(c: Codec, want: seq<string>, files: seq<FileMeta>, bytes: seq<byte>, d: Disk) {
    && c.untar(bytes).Some?
    && var entries := c.untar(bytes).value; ApplyEntries(c, Only(want), files, entries, |entries|, d).verdict.Fine?
  }

  ghost function WhenRead(c: Codec, want: seq<string>, files: seq<FileMeta>, bytes: seq<byte>, d: Disk): Disk {
    var entries := c.untar(bytes).GetOr([]);
    Cleared(Only(want), files, |files|, ApplyEntries(c, Only(want), files, entries, |entries|, d).disk)
  }

  ghost predicate WhenDamaged(c: Codec, want: seq<string>, files: seq<FileMeta>, entries: seq<TarEntry>, d: Disk,
                              d': Disk) {
    var a := ApplyEntries(c, Only(want), files, entries, |entries|, d);
    !a.verdict.Refused? && d' == a.disk
  }

  /** After a session was tried, read or not. */
  lemma Tried(c: Codec, recs: seq<Recorded>, k: nat, n: nat, asked: seq<string>, remaining: seq<string>, d0: Disk,
              d: Disk, r: ReadOutcome, after: Disk)
    requires AllSettled(c, recs, k + 1, n, asked, remaining, d0, d) && k < n
    requires Readable(c, recs[k]) ==> Tidy(c, recs[k])
    requires (r.SessionRead? || r.SessionDamage?) && Selected(c, remaining, recs[k], d, r, after)
    ensures AllSettled(c, recs, k, n, asked,
                       if r.SessionRead? then DropRestored(remaining, r.idx.files) else remaining, d0, after)
  {
    hide Alone, Settled, Readable, FilesOfRec, ApplyEntries, Cleared, Tidy, Disk.Valid, UnsharedAt, SpotOf, Concat;
    var left := if r.SessionRead? then DropRestored(remaining, r.idx.files) else remaining;
    var files := FilesOfRec(c, recs[k]);
    if r.SessionRead? {
      var entries := c.untar(Concat(recs[k].tar)).value;
      EntriesKeepValid(c, Only(remaining), files, entries, |entries|, d);
      ClearingKeepsValid(Only(remaining), files, |files|,
                         ApplyEntries(c, Only(remaining), files, entries, |entries|, d).disk);
      forall p | p in asked && Alone(c, recs, asked, d0, p)
        ensures UnsharedAt(after, SpotOf(p)) && Settled(c, recs, k, n, left, after, p)
      {
        ReadCopy(c, recs, k, n, asked, remaining, d0, d, p);
      }
    } else {
      var entries :| WhenDamaged(c, remaining, files, entries, d, after);
      EntriesKeepValid(c, Only(remaining), files, entries, |entries|, d);
      forall p | p in asked && Alone(c, recs, asked, d0, p)
        ensures UnsharedAt(after, SpotOf(p)) && Settled(c, recs, k, n, left, after, p)
      {
        DamagedCopy(c, recs, k, n, asked, remaining, d0, d, entries, p);
      }
    }
  }

  // With nothing left to ask for, older sessions do not matter.
  lemma NothingLeft(c: Codec, recs: seq<Recorded>, from: nat, n: nat, asked: seq<string>, d0: Disk, d: Disk)
    requires AllSettled(c, recs, from, n, asked, [], d0, d)
    ensures AllSettled(c, recs, 0, n, asked, [], d0, d)
  {
    hide Alone, Healthy, Settled, Disk.Valid, UnsharedAt;
    forall p | p in asked && Alone(c, recs, asked, d0, p)
      ensures Settled(c, recs, 0, n, [], d, p)
    {
      PassedOver(c, recs, 0, from, n, [], d, p);
    }
  }

  ghost predicate KnownCartridge(c: Codec, cat: Catalog, cart: Cart, l: TapeLabel, ids: seq<int>)
    reads cat
  {
    DecodeLabel(c, cart.heading) == Label(l) && Catalogued(c, cat.sessions, cat.files, l.uuid, cart.sessions, ids)
  }

  function Normalized(paths: seq<string>): (r: seq<string>)
    ensures |r| == |paths| && forall i :: 0 <= i < |r| ==> r[i] == Grouping.NormalizePath(paths[i])
  {
    seq(|paths|, i requires 0 <= i < |paths| => Grouping.NormalizePath(paths[i]))
  }

  /** Restores the paths asked for from the freshest copies. A path that stands on its own is
      left over exactly if no session of the cartridge that the catalogue knows holds a
      healthy copy; otherwise the destination holds what the newest such session says: the
      entry, or nothing, or a directory that is not empty where the session has a
      tombstone. */
  method Smart(tape: FakeTape, cat: Catalog, c: Codec, paths: seq<string>, dest: Destination,
               ghost cart: Cart, ghost l: TapeLabel, ghost ids: seq<int>)
    returns (r: SmartResult, remaining: seq<string>)
    requires tape.Valid() && cat.Valid() && dest.disk.Valid()
    modifies tape`pos, dest
    ensures r.NothingAsked? <==> paths == []
    ensures r.AllRestored? ==> remaining == []
    ensures r.NoHealthyCopy? ==> remaining != []
    ensures
      (r.AllRestored? || r.NoHealthyCopy?) && tape.items == Items(cart) && KnownCartridge(c, cat, cart, l, ids) ==>
      AllSettled(c, cart.sessions, 0, |ids|, Normalized(paths), remaining, old(dest.disk), dest.disk)
  {
    hide Segment, SegmentEnd, Items, Body, Concat, ReadIndex, ReadsTar, DecodeLabel, Catalogued, AllSettled, Forward,
         IsCopy, Included, Readable, FilesOfRec, DropRestored, Ranked, AreCopies, Alone, Settled, Healthy, Agrees,
         Tidy, Catalog.Valid, Disk.Valid, Grouping.NormalizePath;
    var asked := Normalized(paths);
    ghost var d0 := dest.disk;
    remaining := asked;
    if asked == [] {
      return NothingAsked, remaining;
    }
    ghost var good := tape.items == Items(cart) && KnownCartridge(c, cat, cart, l, ids);
    tape.Rewind();
    var block := tape.ReadBlock();
    if block.EndOfFile? {
      return NoCartridge, remaining;
    }
    var present := DecodeLabel(c, block.block);
    if !present.Label? {
      return NoCartridge, remaining;
    }
    if good {
      LabelAt(cart);
      CataloguedSize(c, cat.sessions, cat.files, l.uuid, cart.sessions, ids);
      NothingTried(c, cart.sessions, |ids|, asked, dest.disk);
    }
    var groups := CopiesBySession(cat, asked, present.tapeLabel.uuid);
    var i := 0;
    ghost var from: nat := |ids|;
    while i < |groups| && remaining != []
      invariant i <= |groups| && tape.Valid() && tape.items == old(tape.items)
      invariant good ==> from == if i == 0 then |ids| else groups[i - 1].num - 1
      invariant good ==> AllSettled(c, cart.sessions, from, |ids|, asked, remaining, d0, dest.disk)
    {
      if good {
        NextGroup(cat, c, l.uuid, cart.sessions, ids, asked, groups, i, from, remaining, d0, dest.disk);
      }
      var fault;
      fault, remaining := TryGroup(tape, c, groups[i], remaining, dest, good, cart, |ids|, asked, d0);
      if fault {
        return ReadFailed, remaining;
      }
      from := if groups[i].num > 0 then groups[i].num - 1 else 0;
      i := i + 1;
    }
    if good {
      if remaining == [] {
        NothingLeft(c, cart.sessions, from, |ids|, asked, d0, dest.disk);
      } else {
        NextGroup(cat, c, l.uuid, cart.sessions, ids, asked, groups, i, from, remaining, d0, dest.disk);
      }
    }
    r := if remaining == [] then AllRestored else NoHealthyCopy;
  }

  lemma CataloguedSize(c: Codec, rows: SessionTable, files: FileTable, uuid: string, recs: seq<Recorded>,
                       ids: seq<int>)
    requires Catalogued(c, rows, files, uuid, recs, ids)
    ensures |ids| <= |recs|
  {
    hide Agrees;
  }

  /** Reads a session and extracts what is wanted of it, then applies its tombstones. */
  method ReadSelected(tape: FakeTape, c: Codec, want: seq<string>, dest: Destination, ghost rec: Recorded)
    returns (r: ReadOutcome)
    requires tape.Valid()
    modifies tape`pos, dest
    ensures tape.Valid()
    ensures
      && Segment(tape.items, old(tape.pos)) == rec.index
      && SegmentEnd(tape.items, old(tape.pos)) <= |tape.items|
      && Segment(tape.items, SegmentEnd(tape.items, old(tape.pos))) == rec.tar ==>
      Selected(c, want, rec, old(dest.disk), r, dest.disk)
  {
    hide Concat, Segment, SegmentEnd, ReadIndex, Cleared, Selected, WritesSession;
    ghost var pos, d := tape.pos, dest.disk;
    r := ReadSessionInto(tape, c, dest, Only(want));
    ghost var mid := dest.disk;
    if r.SessionRead? {
      dest.ApplyTombstones(Only(want), r.idx.files);
    }
    if Segment(tape.items, pos) == rec.index && SegmentEnd(tape.items, pos) <= |tape.items|
       && Segment(tape.items, SegmentEnd(tape.items, pos)) == rec.tar {
      if ReadIndex(c, Concat(rec.index)).Index? {
        IsSelected(c, want, rec, d, r, mid, dest.disk);
      } else {
        NotSelected(c, want, rec, d, r);
      }
    }
  }

  lemma IsSelected(c: Codec, want: seq<string>, rec: Recorded, d: Disk, r: ReadOutcome, mid: Disk, d': Disk)
    requires ReadIndex(c, Concat(rec.index)).Index?
    requires var idx := ReadIndex(c, Concat(rec.index)).idx;
      && WritesSession(c, Only(want), idx.files, Concat(rec.tar), d, r, mid)
      && (r.SessionRead? ==> r.idx == idx && d' == Cleared(Only(want), idx.files, |idx.files|, mid))
      && (!r.SessionRead? ==> d' == mid)
    ensures Selected(c, want, rec, d, r, d')
  {
    hide Concat, ReadIndex, ApplyEntries, Cleared, EntryPasses, MetIn;
    var files := ReadIndex(c, Concat(rec.index)).idx.files;
    var entries :|
      && (c.untar(Concat(rec.tar)).Some? ==> entries == c.untar(Concat(rec.tar)).value)
      && var a := ApplyEntries(c, Only(want), files, entries, |entries|, d);
         && mid == a.disk
         && (r.WriteFailed? <==> a.verdict.Refused?)
         && (r.SessionRead? <==> a.verdict.Fine? && ReadsTar(c, files, Concat(rec.tar)))
         && (r.SessionRead? || r.WriteFailed? || r.SessionDamage? || r.Unreadable?)
         && (r.Unreadable? ==> c.untar(Concat(rec.tar)).None?);
    if r.SessionDamage? {
      FinePasses(c, Only(want), files, entries, |entries|, d);
      assert FilesOfRec(c, rec) == files;
      assert WhenDamaged(c, want, FilesOfRec(c, rec), entries, d, d');
      assert !ReadsTar(c, files, Concat(rec.tar));
    }
  }

  lemma NotSelected(c: Codec, want: seq<string>, rec: Recorded, d: Disk, r: ReadOutcome)
    requires !ReadIndex(c, Concat(rec.index)).Index? && !r.SessionRead?
    ensures Selected(c, want, rec, d, r, d)
  {
    hide Concat, ReadIndex;
    assert WhenDamaged(c, want, FilesOfRec(c, rec), [], d, d);
  }

  // Where session k+1 is read.
  lemma CopyAt(cart: Cart, k: nat)
    requires k < |cart.sessions|
    ensures var items, at := Items(cart), |Body(cart.heading, cart.sessions[..k])|;
      && Forward(items, 0, 2 * k + 1) == Some(at) && at <= |items|
      && Segment(items, at) == cart.sessions[k].index && SegmentEnd(items, at) <= |items|
      && Segment(items, SegmentEnd(items, at)) == cart.sessions[k].tar
  {
    hide Segment, SegmentEnd, Items, Body, Forward;
    PositionOf(cart, k);
    SessionAt(cart, k);
  }

  /** Tries one session for what is still asked for. */
  method TryGroup(tape: FakeTape, c: Codec, g: Group, want: seq<string>, dest: Destination, ghost good: bool,
                  ghost cart: Cart, ghost n: nat, ghost asked: seq<string>, ghost d0: Disk)
    returns (fault: bool, remaining: seq<string>)
    requires tape.Valid()
    requires good ==> tape.items == Items(cart) && 0 < g.num <= n <= |cart.sessions|
    requires good ==> Readable(c, cart.sessions[g.num - 1]) ==> Tidy(c, cart.sessions[g.num - 1])
    requires good ==> AllSettled(c, cart.sessions, g.num, n, asked, want, d0, dest.disk)
    modifies tape`pos, dest
    ensures tape.Valid()
    ensures good && !fault ==> AllSettled(c, cart.sessions, g.num - 1, n, asked, remaining, d0, dest.disk)
  {
    hide Segment, SegmentEnd, Items, Body, Concat, ReadIndex, AllSettled, Forward, DropRestored, Tidy, Readable,
         FilesOfRec, Selected;
    remaining := want;
    if g.num < 1 {
      return false, remaining;
    }
    tape.Rewind();
    var ok := tape.ForwardFilemarks(2 * g.num - 1);
    if good {
      CopyAt(cart, g.num - 1);
    }
    if !ok {
      return false, remaining;
    }
    ghost var before := dest.disk;
    var r := ReadSelected(tape, c, want, dest, if good then cart.sessions[g.num - 1] else Recorded([], []));
    if r.SessionRead? {
      remaining := DropRestored(want, r.idx.files);
    } else if !r.SessionDamage? {
      return true, remaining;
    }
    if good {
      Tried(c, cart.sessions, g.num - 1, n, asked, want, d0, before, r, dest.disk);
    }
    fault := false;
  }

  /** A cartridge in step whose sessions name no path twice is known in this sense. */
  lemma InStepIsCatalogued(c: Codec, rows: SessionTable, files: FileTable, uuid: string,
                           recs: seq<Recorded>, ids: seq<int>)
    requires InStep(c, rows, files, uuid, recs, ids)
    requires forall k :: 0 <= k < |ids| ==> Tidy(c, recs[k])
    ensures Catalogued(c, rows, files, uuid, recs, ids)
  {
    hide ReadIndex, ReadsTar, Tidy;
    forall k | 0 <= k < |ids|
      ensures ids[k] in rows && rows[ids[k]].tapeUUID == uuid && rows[ids[k]].num == k + 1
      ensures Agrees(c, files, ids[k], recs[k])
    {
      assert RowMirrors(c, rows, files, ids[k], uuid, recs[k], k + 1);
    }
  }
}
