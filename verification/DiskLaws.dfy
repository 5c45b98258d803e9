/** What the file operations of a restore do to every place of the destination. */
module DiskLaws {
  import opened Domain
  import opened TapeMachine
  import opened TapeFormat
  import opened Destinations
  import Grouping

  // ----- Where paths go ---------------------------------------------------------------------

  /** Whatever path an index names, its place lies inside the destination: no segment leads up
      or is empty. */
  lemma PlacesLieInside(path: string)
    ensures PlaceOf(path).Some? ==>
      forall k :: 0 <= k < |PlaceOf(path).value| ==>
        var segment := PlaceOf(path).value[k];
        segment != ".." && segment != "." && segment != "" && '/' !in segment
  {
    hide Grouping.Segments;
    var ss := Grouping.Segments(path);
    Grouping.SegmentsAreClean(path);
    if PlaceOf(path).Some? {
      var rest := PlaceOf(path).value;
      var cut := |ss| - |rest|;
      forall k | 0 <= k < |rest|
        ensures rest[k] != ".." && rest[k] != "." && rest[k] != "" && '/' !in rest[k]
      {
        assert rest[k] == ss[k + cut] && rest[0] == ss[cut];
        assert Grouping.CleanAt(Grouping.Rooted(path), ss, k + cut);
      }
    }
  }

  /** A path from the root goes where its segments say; one that leads up goes nowhere; the
      volume name of another system is cut off. */
  lemma PlacesOfPaths(ss: seq<string>)
    ensures Grouping.Clean(true, ss) ==> PlaceOf(Grouping.Render(true, ss)) == Some(ss)
    ensures Grouping.Clean(false, ss) ==>
      PlaceOf(Grouping.Render(false, ss)) ==
      if ss == [] then Some([])
      else if ss[0] == ".." then None
      else if |ss| > 1 && |ss[0]| == 2 && ss[0][1] == ':' then Some(ss[1..])
      else Some(ss)
  {
    hide Grouping.Segments, Grouping.Render, Grouping.Rooted;
    if Grouping.Clean(true, ss) {
      Grouping.SegmentsOfRendered(true, ss);
      assert ss != [] ==> Grouping.CleanAt(true, ss, 0);
    }
    if Grouping.Clean(false, ss) {
      Grouping.SegmentsOfRendered(false, ss);
      assert |ss| > 1 ==> Grouping.CleanAt(false, ss, 1);
    }
  }

  /** What is wanted, place by place: the path itself, or what lies below a wanted directory
      other than the root. */
  lemma WantedBySegments(want: seq<string>, wants: seq<seq<string>>, ps: seq<string>)
    requires |want| == |wants| && Grouping.Clean(true, ps)
    requires forall i :: 0 <= i < |want| ==>
      Grouping.Clean(true, wants[i]) && want[i] == Grouping.Render(true, wants[i])
    ensures Wanted(want, Grouping.Render(true, ps)) <==>
      exists i :: 0 <= i < |wants| && (wants[i] == ps || (wants[i] != [] && wants[i] <= ps))
  {
    hide Grouping.Render, Grouping.Clean, Grouping.Segments;
    var p := Grouping.Render(true, ps);
    forall i | 0 <= i < |want|
      ensures want[i] == p || want[i] + "/" <= p <==> wants[i] == ps || (wants[i] != [] && wants[i] <= ps)
    {
      WantedOne(wants[i], ps);
    }
    if i :| 0 <= i < |wants| && (wants[i] == ps || (wants[i] != [] && wants[i] <= ps)) {
      assert want[i] == p || want[i] + "/" <= p;
    }
  }

  lemma WantedOne(ws: seq<string>, ps: seq<string>)
    requires Grouping.Clean(true, ws) && Grouping.Clean(true, ps)
    ensures var w, p := Grouping.Render(true, ws), Grouping.Render(true, ps);
      (w == p || w + "/" <= p) <==> ws == ps || (ws != [] && ws <= ps)
  {
    hide Grouping.Clean, Grouping.Segments;
    var w, p := Grouping.Render(true, ws), Grouping.Render(true, ps);
    Grouping.SegmentsOfRendered(true, ws);
    Grouping.SegmentsOfRendered(true, ps);
    Grouping.WithinBySegments(true, ps, true, ws);
    if ws == [] {
      RootHasNothingBelow(ps);
    } else {
      Grouping.EndsInName(ws);
    }
  }

  lemma RootHasNothingBelow(ps: seq<string>)
    requires Grouping.Clean(true, ps)
    ensures Grouping.Render(true, []) == "/" && !("//" <= Grouping.Render(true, ps))
  {
    if ps != [] {
      assert Grouping.CleanAt(true, ps, 0);
      assert Grouping.Render(true, ps)[1] == ps[0][0];
    }
  }

  // ----- File operations --------------------------------------------------------------------

  /** When an entry can be put in its place: nothing but directories lie above it, and what
      is there is of its own kind, or gives way. */
  ghost predicate Accepts(d: Disk, kind: EntryKind, p: Place, linkname: string) {
    && !d.Blocked(p)
    && match kind
       case DirEntry => p in d.names ==> d.names[p] == DirNode
       case SymEntry => p != [] && (p in d.names ==> Removable(d, p))
       case LinkEntry => p != [] && (p in d.names ==> Removable(d, p)) && CanLink(d, p, PlaceOf(linkname))
       case _ => p != [] && (p in d.names ==> d.names[p].FileNode?)
  }

  // A file or symbolic link under another name, reached through directories.
  ghost predicate CanLink(d: Disk, p: Place, target: Option<Place>) {
    target.Some? && !d.Blocked(target.value) && target.value != p
    && target.value in d.names && d.names[target.value] != DirNode
  }

  /** What an accepted entry leaves in its place. */
  ghost function NodeFor(d: Disk, kind: EntryKind, p: Place, linkname: string): Node
    requires d.Valid() && Accepts(d, kind, p, linkname)
  {
    match kind
    case DirEntry => DirNode
    case SymEntry => LinkNode(linkname)
    case LinkEntry => d.names[PlaceOf(linkname).value]
    case _ => if p in d.names then d.names[p] else FileNode(|d.data|)
  }

  ghost function DataFor(d: Disk, kind: EntryKind, p: Place, bytes: seq<byte>): seq<seq<byte>>
    requires d.Valid()
  {
    match kind
    case DirEntry => d.data
    case SymEntry => d.data
    case LinkEntry => d.data
    case _ =>
      match d.At(p)
      case Some(FileNode(i)) => if i < |d.data| then d.data[i := bytes] else d.data
      case _ => d.data + [bytes]
  }

  lemma MkdirAllAt(d: Disk, p: Place)
    requires d.Valid()
    ensures var r := MkdirAll(d, p);
      && r.disk.Valid() && r.disk.data == d.data
      && (r.ok <==> !d.Blocked(p) && (p in d.names ==> d.names[p] == DirNode))
      && (!r.ok ==> r.disk == d)
      && (r.ok ==> forall q :: r.disk.At(q) == if q != [] && q <= p then Some(DirNode) else d.At(q))
  {
    var r := MkdirAll(d, p);
    if r.ok {
      forall q | q in d.names && q != [] && q <= p
        ensures d.names[q] == DirNode
      {
        assert q == p[..|q|];
        assert |q| == |p| ==> q == p;
      }
      forall q, k | q in r.disk.names && 0 < k < |q|
        ensures q[..k] in r.disk.names && r.disk.names[q[..k]] == DirNode
      {
        if q <= p {
          assert q[..k] == p[..k] && q[..k] in Above(p);
        } else {
          assert q in d.names;
          assert q[..k] in d.names && d.names[q[..k]] == DirNode;
        }
      }
    }
  }

  // Directories all the way down to a place.
  ghost predicate Reached(d: Disk, p: Place) {
    forall k :: 0 < k < |p| ==> p[..k] in d.names && d.names[p[..k]] == DirNode
  }

  lemma PresentIsReached(d: Disk, p: Place)
    requires d.Valid() && p in d.names
    ensures Reached(d, p) && !d.Blocked(p)
  {
  }

  lemma NameSet(d: Disk, p: Place, node: Node, data: seq<seq<byte>>)
    requires d.Valid() && p != [] && Reached(d, p) && !d.Occupied(p)
    requires |d.data| <= |data| && (node.FileNode? ==> node.inode < |data|)
    ensures var r := Disk(d.names[p := node], data);
      r.Valid() && forall q :: r.At(q) == if q == p then Some(node) else d.At(q)
  {
    var r := Disk(d.names[p := node], data);
    forall q, k | q in r.names && 0 < k < |q|
      ensures q[..k] in r.names && r.names[q[..k]] == DirNode
    {
      if q != p {
        assert q[..k] in d.names && d.names[q[..k]] == DirNode;
        assert q[..k] <= q && |q[..k]| < |q|;
        assert !(p < q);
      }
    }
  }

  lemma NameCleared(d: Disk, p: Place)
    requires d.Valid() && p != [] && !d.Occupied(p)
    ensures var r := d.(names := d.names - {p});
      r.Valid() && forall q :: r.At(q) == if q == p then None else d.At(q)
  {
    var r := d.(names := d.names - {p});
    forall q, k | q in r.names && 0 < k < |q|
      ensures q[..k] in r.names && r.names[q[..k]] == DirNode
    {
      assert q[..k] in d.names && d.names[q[..k]] == DirNode;
      assert q[..k] <= q && |q[..k]| < |q|;
      assert !(p < q);
    }
  }

  /** Removing takes one name away, or nothing. */
  lemma RemoveAtPlace(d: Disk, p: Place)
    requires d.Valid()
    ensures var r := Remove(d, p);
      && r.disk.Valid() && r.disk.data == d.data && (r.ok <==> Removable(d, p))
      && forall q :: r.disk.At(q) == if q == p && Removable(d, p) then None else d.At(q)
  {
    if Removable(d, p) {
      PresentIsReached(d, p);
      NotOccupied(d, p);
      NameCleared(d, p);
    }
  }

  // Only directories have something below them.
  lemma NotOccupied(d: Disk, p: Place)
    requires d.Valid() && p != [] && (p in d.names ==> d.names[p] != DirNode || !d.Occupied(p))
    ensures !d.Occupied(p)
  {
    forall q | q in d.names
      ensures !(p < q)
    {
      assert p <= q ==> p == q[..|p|];
    }
  }

  lemma BelowIsPresent(d: Disk, p: Place)
    requires d.Valid() && p !in d.names && p != []
    ensures !d.Occupied(p)
  {
    NotOccupied(d, p);
  }

  lemma UpIs(p: Place, q: Place)
    requires p != []
    ensures q <= Parent(p) <==> q < p
  {
  }

  // Making the directories above a place changes nothing that matters to the place itself.
  lemma ParentsMade(d: Disk, p: Place)
    requires d.Valid() && p != []
    ensures var mk := MkdirAll(d, Parent(p));
      && mk.disk.Valid() && mk.disk.data == d.data && (mk.ok <==> !d.Blocked(p))
      && (mk.ok ==>
          && Reached(mk.disk, p) && !mk.disk.Blocked(p) && (mk.disk.Occupied(p) <==> d.Occupied(p))
          && forall q :: mk.disk.At(q) == if q != [] && q < p then Some(DirNode) else d.At(q))
  {
    var up, mk := Parent(p), MkdirAll(d, Parent(p));
    MkdirAllAt(d, up);
    assert forall k :: 0 < k < |up| ==> up[..k] == p[..k];
    assert p[..|up|] == up;
    if d.Blocked(up) {
      var k :| 0 < k < |up| && up[..k] in d.names && d.names[up[..k]] != DirNode;
      assert p[..k] == up[..k];
    }
    if mk.ok {
      forall q
        ensures mk.disk.At(q) == if q != [] && q < p then Some(DirNode) else d.At(q)
      {
        UpIs(p, q);
      }
      forall k | 0 < k < |p|
        ensures mk.disk.At(p[..k]) == Some(DirNode)
      {
        assert p[..k] < p;
      }
      forall k | 0 < k < |p|
        ensures !(p[..k] in d.names && d.names[p[..k]] != DirNode)
      {
        if k < |up| {
          assert up[..k] == p[..k];
        } else {
          assert p[..k] == up;
        }
      }
      SameBelow(d, mk.disk, p);
    }
  }

  lemma SameBelow(a: Disk, b: Disk, p: Place)
    requires p != [] && forall q :: p < q ==> a.At(q) == b.At(q)
    ensures a.Occupied(p) <==> b.Occupied(p)
  {
    if a.Occupied(p) {
      var q :| q in a.names && p < q;
      assert a.At(q) == b.At(q);
      assert q in b.names;
    }
    if b.Occupied(p) {
      var q :| q in b.names && p < q;
      assert a.At(q) == b.At(q);
      assert q in a.names;
    }
  }

  lemma SameAbove(a: Disk, b: Disk, p: Place)
    requires forall q :: q != [] && q < p ==> a.At(q) == b.At(q) || (a.At(q).None? && b.At(q) == Some(DirNode))
    ensures a.Blocked(p) <==> b.Blocked(p)
  {
    if a.Blocked(p) {
      var k :| 0 < k < |p| && p[..k] in a.names && a.names[p[..k]] != DirNode;
      assert p[..k] < p && a.At(p[..k]) == b.At(p[..k]);
    }
    if b.Blocked(p) {
      var k :| 0 < k < |p| && p[..k] in b.names && b.names[p[..k]] != DirNode;
      assert p[..k] < p && a.At(p[..k]) == b.At(p[..k]);
    }
  }

  // The directories above a free place were made, nothing else.
  ghost predicate Grown(d: Disk, m: Disk, p: Place) {
    && d.Valid() && m.Valid() && m.data == d.data && p != [] && !d.Blocked(p) && Reached(m, p) && !m.Blocked(p)
    && (m.Occupied(p) <==> d.Occupied(p))
    && forall q :: m.At(q) == if q != [] && q < p then Some(DirNode) else d.At(q)
  }

  lemma SameHere(d: Disk, m: Disk, p: Place)
    requires Grown(d, m, p)
    ensures (p in m.names <==> p in d.names) && (p in d.names ==> m.names[p] == d.names[p])
    ensures Removable(m, p) <==> Removable(d, p)
    ensures (p in d.names ==> Removable(d, p)) ==> !m.Occupied(p)
  {
    assert m.At(p) == d.At(p);
    if p in d.names && Removable(d, p) {
      NotOccupied(d, p);
    } else if p !in d.names {
      BelowIsPresent(d, p);
    }
  }

  lemma SymlinkAt(d: Disk, m: Disk, p: Place, target: string)
    requires Grown(d, m, p)
    ensures var r := Symlink(m, target, p);
      && r.disk.Valid() && r.disk.data == d.data && (r.ok <==> (p in d.names ==> Removable(d, p)))
      && (!r.ok ==> r.disk == m)
      && (r.ok ==> forall q :: r.disk.At(q) == if q == p then Some(LinkNode(target)) else m.At(q))
  {
    hide Disk.Occupied, Disk.Blocked, Disk.Valid, Reached, Removable;
    SameHere(d, m, p);
    if Symlink(m, target, p).ok {
      NameSet(m, p, LinkNode(target), m.data);
    }
  }

  lemma TargetStays(d: Disk, m: Disk, p: Place, target: Option<Place>)
    requires Grown(d, m, p)
    ensures CanLink(d, p, target) <==> CanLink(m, p, target)
    ensures CanLink(d, p, target) ==> m.names[target.value] == d.names[target.value]
  {
    if target.Some? && target.value != [] {
      var t := target.value;
      forall q | q != [] && q < t
        ensures d.At(q) == m.At(q) || (d.At(q).None? && m.At(q) == Some(DirNode))
      {
        AboveIsOpen(d, p, q);
      }
      SameAbove(d, m, t);
      AboveIsOpen(d, p, t);
      assert m.At(t) == if t < p then Some(DirNode) else d.At(t);
    }
  }

  lemma AboveIsOpen(d: Disk, p: Place, q: Place)
    requires !d.Blocked(p) && q != []
    ensures q < p ==> d.At(q) == None || d.At(q) == Some(DirNode)
  {
    if q < p {
      assert p[..|q|] == q;
    }
  }

  lemma LinkAt(d: Disk, m: Disk, p: Place, target: Option<Place>)
    requires Grown(d, m, p)
    ensures var r := Link(m, target, p);
      && r.disk.Valid() && r.disk.data == d.data
      && (r.ok <==> (p in d.names ==> Removable(d, p)) && CanLink(d, p, target))
      && (!r.ok ==> forall q :: q != p ==> r.disk.At(q) == m.At(q))
      && (r.ok ==> forall q :: r.disk.At(q) == if q == p then Some(d.names[target.value]) else m.At(q))
  {
    hide Disk.Occupied, Disk.Blocked, Reached, Removable;
    SameHere(d, m, p);
    TargetStays(d, m, p, target);
    if target.Some? && !m.Blocked(target.value) && Yields(m, p) {
      NameCleared(m, p);
      if CanLink(m, p, target) {
        var node := m.names[target.value];
        NameSet(m, p, node, m.data);
        assert (m.names - {p})[p := node] == m.names[p := node];
      }
    }
  }

  lemma CreateAt(d: Disk, m: Disk, kind: EntryKind, p: Place, bytes: seq<byte>)
    requires Grown(d, m, p) && (kind.RegEntry? || kind.OtherEntry?)
    ensures var r := Create(m, p, bytes);
      && r.disk.Valid() && (r.ok <==> Accepts(d, kind, p, ""))
      && (!r.ok ==> r.disk == m)
      && (r.ok ==>
          && r.disk.data == DataFor(d, kind, p, bytes)
          && forall q :: r.disk.At(q) == if q == p then Some(NodeFor(d, kind, p, "")) else m.At(q))
  {
    hide Disk.Occupied, Disk.Blocked, Reached;
    SameHere(d, m, p);
    if p !in m.names {
      NameSet(m, p, FileNode(|m.data|), m.data + [bytes]);
    }
  }

  lemma RootIsOpen(d: Disk)
    ensures !d.Blocked([])
  {
  }

  /** What putting an entry in its place does: exactly when it works, and what every place
      shows afterwards. */
  lemma PutAt(d: Disk, kind: EntryKind, p: Place, linkname: string, bytes: seq<byte>)
    requires d.Valid()
    ensures var r := PutEntry(d, kind, Some(p), linkname, bytes);
      && r.disk.Valid() && (r.ok <==> Accepts(d, kind, p, linkname))
      && (r.ok ==>
          && r.disk.data == DataFor(d, kind, p, bytes)
          && forall q :: r.disk.At(q) ==
               if q == p then Some(NodeFor(d, kind, p, linkname))
               else if q != [] && q < p then Some(DirNode) else d.At(q))
  {
    hide Disk.Occupied, Disk.Blocked, MkdirAll, Disk.Valid, Reached, Removable, CanLink;
    if kind.DirEntry? {
      MkdirAllAt(d, p);
    } else if p == [] {
      MkdirAllAt(d, []);
      RootIsOpen(d);
    } else {
      ParentsMade(d, p);
      var mk := MkdirAll(d, Parent(p));
      if mk.ok {
        match kind
        case SymEntry => SymlinkAt(d, mk.disk, p, linkname);
        case LinkEntry => LinkAt(d, mk.disk, p, PlaceOf(linkname));
        case _ => CreateAt(d, mk.disk, kind, p, bytes);
      }
    }
  }

  /** Whatever becomes of the entry: no other place changes, but for directories made above
      it, and no data but those of the file it truncates. */
  lemma PutFrame(d: Disk, kind: EntryKind, p: Place, linkname: string, bytes: seq<byte>)
    requires d.Valid()
    ensures var r := PutEntry(d, kind, Some(p), linkname, bytes);
      && (forall q :: q != p && !(q != [] && q < p && d.At(q).None?) ==> r.disk.At(q) == d.At(q))
      && (forall q :: q != [] && q < p && d.At(q).None? ==> r.disk.At(q).None? || r.disk.At(q) == Some(DirNode))
      && |d.data| <= |r.disk.data|
      && (forall i :: 0 <= i < |d.data| && d.At(p) != Some(FileNode(i)) ==> r.disk.data[i] == d.data[i])
  {
    hide Disk.Occupied, Disk.Blocked, MkdirAll, Disk.Valid, Reached, Removable, CanLink;
    if kind.DirEntry? {
      MkdirAllAt(d, p);
      OpenAbove(d, p);
    } else if p == [] {
      MkdirAllAt(d, []);
    } else {
      ParentsMade(d, p);
      OpenAbove(d, p);
      var mk := MkdirAll(d, Parent(p));
      if mk.ok {
        match kind
        case SymEntry => SymlinkAt(d, mk.disk, p, linkname);
        case LinkEntry => LinkAt(d, mk.disk, p, PlaceOf(linkname));
        case _ => CreateAt(d, mk.disk, kind, p, bytes);
      } else {
        MkdirAllAt(d, Parent(p));
      }
    }
  }

  lemma OpenAbove(d: Disk, p: Place)
    ensures !d.Blocked(p) ==> forall q :: q != [] && q < p ==> d.At(q) == None || d.At(q) == Some(DirNode)
  {
    if !d.Blocked(p) {
      forall q | q != [] && q < p
        ensures d.At(q) == None || d.At(q) == Some(DirNode)
      {
        AboveIsOpen(d, p, q);
      }
    }
  }

  // ----- Sessions keep a destination in shape -------------------------------------------------

  lemma EntryKeepsValid(c: Codec, filter: Filter, files: seq<FileMeta>, e: TarEntry, d: Disk)
    requires d.Valid()
    ensures ApplyEntry(c, filter, files, e, d).disk.Valid()
  {
    hide PutEntry, Writable, EntryPasses, Remove;
    var named := FileNamed(files, e.name);
    if named.Some? && PlaceOf(named.value.path).Some? {
      var p := PlaceOf(named.value.path).value;
      PutAt(d, e.kind, p, named.value.linkname, e.content);
      RemoveAtPlace(PutEntry(d, e.kind, Some(p), named.value.linkname, e.content).disk, p);
    } else if named.Some? {
      NowhereToPut(d, e.kind, named.value.linkname, e.content);
    }
  }

  lemma NowhereToPut(d: Disk, kind: EntryKind, linkname: string, bytes: seq<byte>)
    ensures PutEntry(d, kind, None, linkname, bytes) == Effect(false, d)
  {
  }

  lemma {:induction false} EntriesKeepValid(c: Codec, filter: Filter, files: seq<FileMeta>, entries: seq<TarEntry>,
                                            n: nat, d: Disk)
    requires d.Valid() && n <= |entries|
    ensures ApplyEntries(c, filter, files, entries, n, d).disk.Valid()
  {
    hide ApplyEntry, Disk.Valid;
    if n > 0 {
      EntriesKeepValid(c, filter, files, entries, n - 1, d);
      EntryKeepsValid(c, filter, files, entries[n - 1], ApplyEntries(c, filter, files, entries, n - 1, d).disk);
    }
  }

  lemma {:induction false} ClearingKeepsValid(filter: Filter, files: seq<FileMeta>, n: nat, d: Disk)
    requires d.Valid() && n <= |files|
    ensures Cleared(filter, files, n, d).Valid()
  {
    hide Disk.Valid, Remove;
    if n > 0 {
      ClearingKeepsValid(filter, files, n - 1, d);
      if PlaceOf(files[n - 1].path).Some? {
        RemoveAtPlace(Cleared(filter, files, n - 1, d), PlaceOf(files[n - 1].path).value);
      }
    }
  }

  /** Of the tombstones only those of the paths asked for are applied: every other place stays
      as it was. */
  lemma {:induction false} OnlyAskedAreCleared(want: seq<string>, files: seq<FileMeta>, n: nat, d: Disk, q: Place)
    requires d.Valid() && n <= |files|
    requires forall i :: 0 <= i < n && files[i].state == "D" && files[i].path in want ==>
      PlaceOf(files[i].path) != Some(q)
    ensures Cleared(Only(want), files, n, d).At(q) == d.At(q)
  {
    hide Disk.Valid, RemoveAt, PlaceOf, Disk.At;
    if n > 0 {
      OnlyAskedAreCleared(want, files, n - 1, d, q);
      ClearingKeepsValid(Only(want), files, n - 1, d);
      if files[n - 1].IsDeleted() && files[n - 1].path in want {
        RemovedElsewhere(Cleared(Only(want), files, n - 1, d), PlaceOf(files[n - 1].path), q);
      }
    }
  }

  lemma RemovedElsewhere(d: Disk, place: Option<Place>, q: Place)
    requires d.Valid() && place != Some(q)
    ensures RemoveAt(d, place).At(q) == d.At(q)
  {
    if place.Some? {
      RemoveAtPlace(d, place.value);
    }
  }

  /** Besides what is wanted only the targets of wanted hard links are written. */
  lemma TargetsComeAlong(files: seq<FileMeta>, want: seq<string>, p: string)
    ensures Writable(Only(want), files, p) <==>
      || Wanted(want, p)
      || exists i :: 0 <= i < |files| && files[i].typ == "lnk" && files[i].linkname == p && Wanted(want, files[i].path)
  {
    hide Wanted;
    assert forall i :: 0 <= i < |files| ==> (files[i].IsHardlink() <==> files[i].typ == "lnk");
  }
}
