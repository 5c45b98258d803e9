/** What the files of a session leave in the destination: entries first, tombstones after
    them. When every entry is accepted, and what each place then holds. */
module Replaying {
  import opened Domain
  import opened TapeMachine
  import opened TapeFormat
  import opened Destinations
  import opened DiskLaws

  function BytesOf(fm: FileMeta, content: Content): seq<byte> { EntryOf(fm, content).content }

  /** One file of a session: put in its place, or removed for a tombstone. */
  function Step(d: Disk, fm: FileMeta, content: Content): Effect {
    if fm.IsDeleted() then Effect(true, RemoveAt(d, PlaceOf(fm.path)))
    else PutEntry(d, KindOf(fm), PlaceOf(fm.path), fm.linkname, BytesOf(fm, content))
  }

  /** The first n files, up to the first that is refused. */
  function Steps(d: Disk, files: seq<FileMeta>, content: Content, n: nat): Effect
    requires n <= |files|
  {
    if n == 0 then Effect(true, d)
    else
      var prev := Steps(d, files, content, n - 1);
      if prev.ok then Step(prev.disk, files[n - 1], content) else prev
  }

  // ----- Lists that show a tree ---------------------------------------------------------------

  function Spot(fm: FileMeta): Place { SpotOf(fm.path) }

  function SpotOf(path: string): Place {
    match PlaceOf(path)
    case Some(p) => p
    case None => []
  }

  /** The first m files are entries of one directory tree: each in its own place, below
      directories only, hard links behind the file they name. */
  ghost predicate TreeList(files: seq<FileMeta>, m: nat) {
    && m <= |files|
    && (forall i :: 0 <= i < m ==> !files[i].IsDeleted() && PlaceOf(files[i].path).Some?)
    && (forall i, j :: 0 <= i < j < m ==> Spot(files[i]) != Spot(files[j]))
    && (forall i, j :: 0 <= i < m && 0 <= j < m && Spot(files[i]) < Spot(files[j]) ==> KindOf(files[i]) == DirEntry)
    && (forall j :: 0 <= j < m && KindOf(files[j]) == LinkEntry ==> LinkInTree(files, m, j))
  }

  // A hard link names a file of the tree, listed before it or not at all.
  ghost predicate LinkInTree(files: seq<FileMeta>, m: nat, j: nat)
    requires j < m <= |files|
  {
    var target := PlaceOf(files[j].linkname);
    target.Some? && target.value != [] && forall i :: 0 <= i < m ==>
      && (Spot(files[i]) == target.value ==> i < j && KindOf(files[i]) == RegEntry)
      && !(target.value < Spot(files[i]))
      && (Spot(files[i]) < target.value ==> KindOf(files[i]) == DirEntry)
  }

  ghost predicate Listed(files: seq<FileMeta>, n: nat, p: Place)
    requires n <= |files|
  {
    exists k :: 0 <= k < n && Spot(files[k]) == p
  }

  ghost predicate ListedBelow(files: seq<FileMeta>, n: nat, p: Place)
    requires n <= |files|
  {
    exists k :: 0 <= k < n && p < Spot(files[k])
  }

  /** Entry k goes well with what was in the destination before: as it would alone, or as a
      hard link to a file listed before it. */
  ghost predicate FitsIn(d0: Disk, files: seq<FileMeta>, k: nat)
    requires k < |files|
  {
    var fm, p := files[k], Spot(files[k]);
    || Accepts(d0, KindOf(fm), p, fm.linkname)
    || (KindOf(fm) == LinkEntry && Accepts(d0, SymEntry, p, "")
        && exists i :: 0 <= i < k && PlaceOf(fm.linkname) == Some(Spot(files[i])))
  }

  // ----- What is there after the entries --------------------------------------------------------

  /** What file m of the destination holds after n entries: those of its names that were
      written truncate it in turn. */
  ghost function LastData(d0: Disk, files: seq<FileMeta>, content: Content, n: nat, m: nat): seq<byte>
    requires n <= |files| && m < |d0.data|
  {
    if n == 0 then d0.data[m]
    else if KindOf(files[n - 1]) == RegEntry && d0.At(Spot(files[n - 1])) == Some(FileNode(m))
    then BytesOf(files[n - 1], content)
    else LastData(d0, files, content, n - 1, m)
  }

  // A file that was not there before.
  ghost predicate NewFile(d0: Disk, d: Disk, node: Option<Node>, bytes: seq<byte>) {
    && node.Some? && node.value.FileNode? && |d0.data| <= node.value.inode < |d.data|
    && d.data[node.value.inode] == bytes
  }

  /** An entry in its place. A file that was there under this name is the same file still,
      whatever its other names; a new one has its own data. */
  ghost predicate InPlace(d0: Disk, d: Disk, fm: FileMeta, content: Content) {
    var kind, node, before := KindOf(fm), d.At(Spot(fm)), d0.At(Spot(fm));
    if kind == DirEntry then node == Some(DirNode)
    else if kind == SymEntry then node == Some(LinkNode(fm.linkname))
    else if kind == LinkEntry then
      PlaceOf(fm.linkname).Some? && node == d.At(PlaceOf(fm.linkname).value) && node.Some? && node.value != DirNode
    else if before.Some? && before.value.FileNode? then node == before
    else NewFile(d0, d, node, BytesOf(fm, content))
  }

  /** After n entries: those in place, directories above them, everything else as before. */
  ghost predicate ShapedAt(d0: Disk, files: seq<FileMeta>, content: Content, n: nat, d: Disk, p: Place)
    requires n <= |files|
  {
    && (forall k :: 0 <= k < n && Spot(files[k]) == p ==> InPlace(d0, d, files[k], content))
    && (!Listed(files, n, p) ==>
        d.At(p) == if p != [] && ListedBelow(files, n, p) then Some(DirNode) else d0.At(p))
  }

  ghost predicate Shaped(d0: Disk, files: seq<FileMeta>, content: Content, n: nat, d: Disk)
    requires n <= |files|
  {
    && d.Valid() && |d0.data| <= |d.data|
    && (forall p :: ShapedAt(d0, files, content, n, d, p))
    && (forall m :: 0 <= m < |d0.data| ==> d.data[m] == LastData(d0, files, content, n, m))
  }

  ghost predicate AllFit(d0: Disk, files: seq<FileMeta>, n: nat)
    requires n <= |files|
  {
    forall k :: 0 <= k < n ==> FitsIn(d0, files, k)
  }

  // Above what fits there are only directories, and free places.
  lemma AboveFits(d0: Disk, files: seq<FileMeta>, k: nat, q: Place)
    requires k < |files| && FitsIn(d0, files, k) && q != []
    ensures q < Spot(files[k]) ==> d0.At(q) == None || d0.At(q) == Some(DirNode)
    ensures q == Spot(files[k]) && KindOf(files[k]) == DirEntry ==> d0.At(q) == None || d0.At(q) == Some(DirNode)
  {
    hide Disk.Blocked, CanLink, Removable;
    AboveIsOpen(d0, Spot(files[k]), q);
  }

  // A place above the tree, or a directory of it, is no more in the way than it was before.
  lemma OpenStays(d0: Disk, files: seq<FileMeta>, content: Content, m: nat, n: nat, d: Disk, q: Place)
    requires d0.Valid() && TreeList(files, m) && n <= m <= |files| && Shaped(d0, files, content, n, d)
    requires AllFit(d0, files, n)
    requires q != [] && forall k :: 0 <= k < n && Spot(files[k]) == q ==> KindOf(files[k]) == DirEntry
    ensures d.At(q) == d0.At(q) || (d0.At(q).None? && d.At(q) == Some(DirNode))
  {
    hide FitsIn, TreeList;
    assert ShapedAt(d0, files, content, n, d, q);
    if Listed(files, n, q) {
      var k :| 0 <= k < n && Spot(files[k]) == q;
      AboveFits(d0, files, k, q);
    } else if ListedBelow(files, n, q) {
      var k :| 0 <= k < n && q < Spot(files[k]);
      AboveFits(d0, files, k, q);
    }
  }

  lemma BlockedStays(d0: Disk, files: seq<FileMeta>, content: Content, m: nat, n: nat, d: Disk, p: Place)
    requires d0.Valid() && TreeList(files, m) && n <= m <= |files| && Shaped(d0, files, content, n, d)
    requires AllFit(d0, files, n)
    requires forall k :: 0 <= k < n && Spot(files[k]) < p ==> KindOf(files[k]) == DirEntry
    ensures d.Blocked(p) <==> d0.Blocked(p)
  {
    hide Disk.Blocked, TreeList, Shaped, AllFit;
    forall q | q != [] && q < p
      ensures d0.At(q) == d.At(q) || (d0.At(q).None? && d.At(q) == Some(DirNode))
    {
      OpenStays(d0, files, content, m, n, d, q);
    }
    SameAbove(d0, d, p);
  }

  // A place that is not listed, with nothing listed below it, is as it was, and so is what
  // lies below it.
  lemma UntouchedBelow(d0: Disk, files: seq<FileMeta>, content: Content, n: nat, d: Disk, p: Place)
    requires n <= |files| && Shaped(d0, files, content, n, d) && p != []
    requires !Listed(files, n, p) && !ListedBelow(files, n, p)
    ensures d.At(p) == d0.At(p) && (d.Occupied(p) <==> d0.Occupied(p))
  {
    assert ShapedAt(d0, files, content, n, d, p);
    forall q | p < q
      ensures d0.At(q) == d.At(q)
    {
      assert ShapedAt(d0, files, content, n, d, q);
    }
    SameBelow(d0, d, p);
  }

  lemma TreeHere(files: seq<FileMeta>, m: nat, n: nat)
    requires TreeList(files, m) && n < m
    ensures !Listed(files, n, Spot(files[n]))
    ensures KindOf(files[n]) != DirEntry ==> !ListedBelow(files, n, Spot(files[n]))
    ensures forall k :: 0 <= k < n && Spot(files[k]) < Spot(files[n]) ==> KindOf(files[k]) == DirEntry
    ensures !files[n].IsDeleted() && PlaceOf(files[n].path) == Some(Spot(files[n]))
  {
  }

  /** The next entry is accepted exactly if it fits what was there at first. */
  lemma AcceptedNow(d0: Disk, files: seq<FileMeta>, content: Content, m: nat, n: nat, d: Disk)
    requires d0.Valid() && TreeList(files, m) && n < m <= |files| && Shaped(d0, files, content, n, d)
    requires AllFit(d0, files, n)
    ensures Accepts(d, KindOf(files[n]), Spot(files[n]), files[n].linkname) <==> FitsIn(d0, files, n)
  {
    hide Disk.Blocked, Disk.Occupied, TreeList, Shaped, AllFit, CanLink, LinkInTree;
    var fm, p := files[n], Spot(files[n]);
    TreeHere(files, m, n);
    BlockedStays(d0, files, content, m, n, d, p);
    if KindOf(fm) == DirEntry {
      if p != [] {
        OpenStays(d0, files, content, m, n, d, p);
      } else {
        RootHasNoName(d0, files, content, n, d);
      }
    } else if p != [] {
      UntouchedBelow(d0, files, content, n, d, p);
      if KindOf(fm) == LinkEntry {
        TargetNow(d0, files, content, m, n, d);
      }
    }
  }

  lemma RootHasNoName(d0: Disk, files: seq<FileMeta>, content: Content, n: nat, d: Disk)
    requires d0.Valid() && n <= |files| && Shaped(d0, files, content, n, d)
    ensures [] !in d0.names && [] !in d.names
  {
  }

  // The file a hard link names can be linked now exactly if it was listed, or there before.
  lemma TargetNow(d0: Disk, files: seq<FileMeta>, content: Content, m: nat, n: nat, d: Disk)
    requires d0.Valid() && TreeList(files, m) && n < m <= |files| && Shaped(d0, files, content, n, d)
    requires AllFit(d0, files, n)
    requires KindOf(files[n]) == LinkEntry
    ensures CanLink(d, Spot(files[n]), PlaceOf(files[n].linkname)) <==>
      || CanLink(d0, Spot(files[n]), PlaceOf(files[n].linkname))
      || exists i :: 0 <= i < n && PlaceOf(files[n].linkname) == Some(Spot(files[i]))
  {
    hide Disk.Blocked, Disk.Occupied, AllFit, Shaped, TreeList, Disk.Valid;
    TreeLink(files, m, n);
    var t := PlaceOf(files[n].linkname).value;
    BlockedStays(d0, files, content, m, n, d, t);
    if Listed(files, n, t) {
      var i :| 0 <= i < n && Spot(files[i]) == t;
      ListedFile(d0, files, content, n, d, i);
    } else {
      UntouchedBelow(d0, files, content, n, d, t);
    }
  }

  lemma TreeLink(files: seq<FileMeta>, m: nat, n: nat)
    requires TreeList(files, m) && n < m <= |files| && KindOf(files[n]) == LinkEntry
    ensures LinkInTree(files, m, n)
  {
  }

  lemma ListedFile(d0: Disk, files: seq<FileMeta>, content: Content, n: nat, d: Disk, i: nat)
    requires i < n <= |files| && Shaped(d0, files, content, n, d) && KindOf(files[i]) == RegEntry
    ensures var p := Spot(files[i]);
      p in d.names && d.names[p].FileNode? && !d.Blocked(p)
  {
    var p := Spot(files[i]);
    assert ShapedAt(d0, files, content, n, d, p);
    assert InPlace(d0, d, files[i], content);
    assert p != [];
    PresentIsReached(d, p);
  }

  // ----- One entry more -------------------------------------------------------------------------

  // What changes when entry n is put in its place.
  ghost predicate PutNext(files: seq<FileMeta>, content: Content, n: nat, d: Disk, d': Disk)
    requires n < |files|
  {
    var fm, p := files[n], Spot(files[n]);
    && d.Valid() && d'.Valid()
    && Accepts(d, KindOf(fm), p, fm.linkname)
    && d'.data == DataFor(d, KindOf(fm), p, BytesOf(fm, content))
    && forall q :: d'.At(q) ==
         if q == p then Some(NodeFor(d, KindOf(fm), p, fm.linkname))
         else if q != [] && q < p then Some(DirNode) else d.At(q)
  }

  // The file entry n truncates, if any, was there before all entries.
  lemma TruncatesOld(d0: Disk, files: seq<FileMeta>, content: Content, m: nat, n: nat, d: Disk)
    requires d0.Valid() && TreeList(files, m) && n < m <= |files| && Shaped(d0, files, content, n, d)
    requires KindOf(files[n]) == RegEntry && Spot(files[n]) != []
    ensures d.At(Spot(files[n])) == d0.At(Spot(files[n]))
    ensures d0.At(Spot(files[n])).Some? && d0.At(Spot(files[n])).value.FileNode? ==>
      d0.At(Spot(files[n])).value.inode < |d0.data|
  {
    hide TreeList, Shaped;
    TreeHere(files, m, n);
    UntouchedBelow(d0, files, content, n, d, Spot(files[n]));
  }

  lemma DataStays(d0: Disk, files: seq<FileMeta>, content: Content, m: nat, n: nat, d: Disk, d': Disk)
    requires d0.Valid() && TreeList(files, m) && n < m <= |files| && Shaped(d0, files, content, n, d)
    requires PutNext(files, content, n, d, d')
    ensures |d.data| <= |d'.data|
    ensures forall i :: 0 <= i < |d0.data| ==> d'.data[i] == LastData(d0, files, content, n + 1, i)
    ensures forall i :: |d0.data| <= i < |d.data| ==> d'.data[i] == d.data[i]
  {
    hide TreeList, Disk.Valid, BytesOf, Disk.Blocked, Removable, CanLink;
    if KindOf(files[n]) == RegEntry {
      TruncatesOld(d0, files, content, m, n, d);
    }
  }

  // Entry n itself.
  lemma NextInPlace(d0: Disk, files: seq<FileMeta>, content: Content, m: nat, n: nat, d: Disk, d': Disk)
    requires d0.Valid() && TreeList(files, m) && n < m <= |files| && Shaped(d0, files, content, n, d)
    requires PutNext(files, content, n, d, d')
    ensures InPlace(d0, d', files[n], content)
  {
    hide TreeList, Disk.Valid, BytesOf, Disk.Blocked, Removable, Shaped;
    DataStays(d0, files, content, m, n, d, d');
    var fm, p := files[n], Spot(files[n]);
    if KindOf(fm) == RegEntry {
      TruncatesOld(d0, files, content, m, n, d);
      assert |d0.data| <= |d.data| by { ShapedGrows(d0, files, content, n, d); }
    } else if KindOf(fm) == LinkEntry {
      TreeLink(files, m, n);
      var t := PlaceOf(fm.linkname).value;
      assert !(t < p) && t != p && !(p < t);
      assert d'.At(t) == d.At(t);
    }
  }

  lemma ShapedGrows(d0: Disk, files: seq<FileMeta>, content: Content, n: nat, d: Disk)
    requires n <= |files| && Shaped(d0, files, content, n, d)
    ensures |d0.data| <= |d.data|
  {
  }

  // An entry put in its place before stays there.
  lemma EarlierInPlace(d0: Disk, files: seq<FileMeta>, content: Content, m: nat, n: nat, d: Disk, d': Disk, k: nat)
    requires d0.Valid() && TreeList(files, m) && k < n < m <= |files| && Shaped(d0, files, content, n, d)
    requires PutNext(files, content, n, d, d') && InPlace(d0, d, files[k], content)
    ensures InPlace(d0, d', files[k], content)
  {
    hide Disk.Valid, BytesOf, Disk.Blocked, Removable, Shaped, CanLink, LinkInTree, Accepts;
    DataStays(d0, files, content, m, n, d, d');
    var fm, p := files[n], Spot(files[n]);
    var q := Spot(files[k]);
    assert q != p && (q < p ==> KindOf(files[k]) == DirEntry);
    if KindOf(files[k]) == LinkEntry {
      LinkStays(files, m, n, k);
    }
  }

  lemma LinkStays(files: seq<FileMeta>, m: nat, n: nat, k: nat)
    requires TreeList(files, m) && k < n < m <= |files| && KindOf(files[k]) == LinkEntry
    ensures PlaceOf(files[k].linkname).Some?
    ensures var t := PlaceOf(files[k].linkname).value;
      t != Spot(files[n]) && !(t < Spot(files[n]))
  {
    assert LinkInTree(files, m, k);
  }

  lemma ListedMore(files: seq<FileMeta>, n: nat, q: Place)
    requires n < |files|
    ensures Listed(files, n + 1, q) <==> Listed(files, n, q) || q == Spot(files[n])
    ensures ListedBelow(files, n + 1, q) <==> ListedBelow(files, n, q) || q < Spot(files[n])
  {
  }

  lemma StepShapes(d0: Disk, files: seq<FileMeta>, content: Content, m: nat, n: nat, d: Disk, d': Disk)
    requires d0.Valid() && TreeList(files, m) && n < m <= |files| && Shaped(d0, files, content, n, d)
    requires PutNext(files, content, n, d, d')
    ensures Shaped(d0, files, content, n + 1, d')
  {
    hide TreeList, Disk.Valid, BytesOf, Disk.Blocked, Removable, InPlace, Accepts, NodeFor, DataFor, LastData, Listed,
         ListedBelow;
    DataStays(d0, files, content, m, n, d, d');
    NextInPlace(d0, files, content, m, n, d, d');
    var more := n + 1;
    forall q
      ensures ShapedAt(d0, files, content, more, d', q)
    {
      assert ShapedAt(d0, files, content, n, d, q);
      ListedMore(files, n, q);
      forall k | 0 <= k < more && Spot(files[k]) == q
        ensures InPlace(d0, d', files[k], content)
      {
        if k < n {
          EarlierInPlace(d0, files, content, m, n, d, d', k);
        }
      }
    }
  }

  /** The entries of a tree are all accepted exactly if each fits what was there before; then
      every place is known. */
  lemma {:induction false} StepsShape(d0: Disk, files: seq<FileMeta>, content: Content, m: nat, n: nat)
    requires d0.Valid() && TreeList(files, m) && n <= m <= |files|
    ensures Steps(d0, files, content, n).ok <==> AllFit(d0, files, n)
    ensures Steps(d0, files, content, n).ok ==> Shaped(d0, files, content, n, Steps(d0, files, content, n).disk)
  {
    hide TreeList, Disk.Valid, BytesOf, Shaped, FitsIn, PutEntry;
    if n == 0 {
      NothingPut(d0, files, content);
    } else {
      StepsShape(d0, files, content, m, n - 1);
      var prev := Steps(d0, files, content, n - 1);
      TreeHere(files, m, n - 1);
      if prev.ok {
        AcceptedNow(d0, files, content, m, n - 1, prev.disk);
        NextStep(d0, files, content, m, n - 1, prev.disk);
      }
    }
  }

  lemma NothingPut(d0: Disk, files: seq<FileMeta>, content: Content)
    requires d0.Valid()
    ensures Shaped(d0, files, content, 0, d0)
  {
  }

  lemma NextStep(d0: Disk, files: seq<FileMeta>, content: Content, m: nat, n: nat, d: Disk)
    requires d0.Valid() && TreeList(files, m) && n < m <= |files| && Shaped(d0, files, content, n, d)
    ensures var r := Step(d, files[n], content);
      && (r.ok <==> Accepts(d, KindOf(files[n]), Spot(files[n]), files[n].linkname))
      && (r.ok ==> Shaped(d0, files, content, n + 1, r.disk))
  {
    hide TreeList, BytesOf, PutEntry, Accepts, NodeFor, DataFor, ShapedAt, LastData;
    TreeHere(files, m, n);
    var fm := files[n];
    PutAt(d, KindOf(fm), Spot(fm), fm.linkname, BytesOf(fm, content));
    var r := Step(d, fm, content);
    if r.ok {
      StepShapes(d0, files, content, m, n, d, r.disk);
    }
  }

  // ----- Tombstones -----------------------------------------------------------------------------

  /** From number m on there are tombstones, and none comes behind one of a place below it. */
  ghost predicate TombstonesFrom(files: seq<FileMeta>, m: nat) {
    && m <= |files|
    && (forall i :: m <= i < |files| ==> files[i].IsDeleted() && PlaceOf(files[i].path).Some?)
    && (forall i, j :: m <= i < j < |files| ==> !(Spot(files[j]) < Spot(files[i])))
  }

  ghost predicate Buried(files: seq<FileMeta>, m: nat, n: nat, p: Place)
    requires n <= |files|
  {
    exists k :: m <= k < n && Spot(files[k]) == p
  }

  // What is there once the tombstones up to number n were applied.
  ghost predicate ClearedAt(files: seq<FileMeta>, m: nat, n: nat, d: Disk, d': Disk, p: Place)
    requires n <= |files|
  {
    d'.At(p) == if Buried(files, m, n, p) && Removable(d, p) then None else d.At(p)
  }

  ghost predicate AllCleared(files: seq<FileMeta>, m: nat, n: nat, d: Disk, d': Disk)
    requires n <= |files|
  {
    d'.Valid() && d'.data == d.data && forall p :: ClearedAt(files, m, n, d, d', p)
  }

  lemma BuriedMore(files: seq<FileMeta>, m: nat, n: nat, p: Place)
    requires m <= n < |files|
    ensures Buried(files, m, n + 1, p) <==> Buried(files, m, n, p) || p == Spot(files[n])
  {
  }

  /** A tombstone takes its place away, unless it is a directory with something in it when
      its turn comes; and that is so exactly if there was something in it at first. */
  lemma {:induction false} StepsClear(d0: Disk, files: seq<FileMeta>, content: Content, m: nat, n: nat)
    requires TombstonesFrom(files, m) && m <= n <= |files| && Steps(d0, files, content, m).ok
    requires Steps(d0, files, content, m).disk.Valid()
    ensures var d, r := Steps(d0, files, content, m).disk, Steps(d0, files, content, n);
      r.ok && AllCleared(files, m, n, d, r.disk)
    decreases n
  {
    hide Disk.Valid, Removable, TombstonesFrom, AllCleared, Step;
    var d := Steps(d0, files, content, m).disk;
    if m < n {
      StepsClear(d0, files, content, m, n - 1);
      var prev := Steps(d0, files, content, n - 1).disk;
      var p := Spot(files[n - 1]);
      ClearingOne(files, content, m, n - 1, d, prev);
      assert Steps(d0, files, content, n) == Step(prev, files[n - 1], content);
    } else {
      NoneCleared(files, m, d);
    }
  }

  lemma NoneCleared(files: seq<FileMeta>, m: nat, d: Disk)
    requires m <= |files| && d.Valid()
    ensures AllCleared(files, m, m, d, d)
  {
  }

  lemma ClearingOne(files: seq<FileMeta>, content: Content, m: nat, n: nat, d: Disk, prev: Disk)
    requires TombstonesFrom(files, m) && m <= n < |files| && d.Valid() && AllCleared(files, m, n, d, prev)
    ensures var r := Step(prev, files[n], content);
      r.ok && AllCleared(files, m, n + 1, d, r.disk)
  {
    hide Disk.Valid, Removable, Remove;
    var p, more := Spot(files[n]), n + 1;
    RemoveAtPlace(prev, p);
    SameRemovable(files, m, n, d, prev);
    var r := Remove(prev, p).disk;
    forall q
      ensures ClearedAt(files, m, more, d, r, q)
    {
      assert ClearedAt(files, m, n, d, prev, q);
      BuriedMore(files, m, n, q);
    }
  }

  // The next tombstone finds its place as it was, or gone already.
  lemma SameRemovable(files: seq<FileMeta>, m: nat, n: nat, d: Disk, prev: Disk)
    requires TombstonesFrom(files, m) && m <= n < |files| && d.Valid() && prev.Valid()
    requires forall p :: ClearedAt(files, m, n, d, prev, p)
    ensures var p := Spot(files[n]);
      Removable(prev, p) <==> Removable(d, p) && !Buried(files, m, n, p)
  {
    hide Disk.Valid, Disk.Occupied;
    var p := Spot(files[n]);
    assert ClearedAt(files, m, n, d, prev, p);
    forall q | p < q
      ensures d.At(q) == prev.At(q)
    {
      assert ClearedAt(files, m, n, d, prev, q);
    }
    if p != [] {
      SameBelow(d, prev, p);
    } else {
      NoRootName(d);
      NoRootName(prev);
    }
  }

  lemma NoRootName(d: Disk)
    requires d.Valid()
    ensures [] !in d.names
  {
  }

  /** A list of entries and tombstones of one scan: accepted exactly if the entries fit, and
      what every place then shows. */
  lemma ScanSteps(d0: Disk, files: seq<FileMeta>, content: Content, m: nat)
    requires d0.Valid() && m <= |files| && TreeList(files, m) && TombstonesFrom(files, m)
    ensures var r := Steps(d0, files, content, |files|);
      && (r.ok <==> AllFit(d0, files, m))
      && (r.ok ==>
          var d := Steps(d0, files, content, m).disk;
          && Shaped(d0, files, content, m, d) && r.disk.Valid() && r.disk.data == d.data
          && forall p :: ClearedAt(files, m, |files|, d, r.disk, p))
  {
    hide TreeList, TombstonesFrom, Disk.Valid, FitsIn, ClearedAt;
    StepsShape(d0, files, content, m, m);
    if Steps(d0, files, content, m).ok {
      ShapedIsValid(d0, files, content, m, Steps(d0, files, content, m).disk);
      StepsClear(d0, files, content, m, |files|);
    } else {
      StaysRefused(d0, files, content, m, |files|);
    }
  }

  lemma ShapedIsValid(d0: Disk, files: seq<FileMeta>, content: Content, n: nat, d: Disk)
    requires n <= |files| && Shaped(d0, files, content, n, d)
    ensures d.Valid()
  {
  }

  lemma {:induction false} StaysRefused(d: Disk, files: seq<FileMeta>, content: Content, n: nat, k: nat)
    requires n <= k <= |files| && !Steps(d, files, content, n).ok
    ensures Steps(d, files, content, k) == Steps(d, files, content, n)
    decreases k
  {
    hide Step;
    if n < k {
      StaysRefused(d, files, content, n, k - 1);
    }
  }

  // ----- A session as it is read ----------------------------------------------------------------

  // Tombstones come last.
  ghost predicate LiveFirst(files: seq<FileMeta>, m: nat) {
    && m <= |files|
    && (forall i :: 0 <= i < m ==> !files[i].IsDeleted())
    && (forall i :: m <= i < |files| ==> files[i].IsDeleted())
  }

  lemma {:induction false} EntriesSnoc(files: seq<FileMeta>, fm: FileMeta, content: Content)
    ensures EntriesOf(files + [fm], content) ==
            EntriesOf(files, content) + if fm.IsDeleted() then [] else [EntryOf(fm, content)]
  {
    hide EntryOf;
    if files == [] {
      assert ([fm])[1..] == [];
    } else {
      assert (files + [fm])[1..] == files[1..] + [fm];
      EntriesSnoc(files[1..], fm, content);
    }
  }

  lemma EntriesUpTo(files: seq<FileMeta>, content: Content, n: nat)
    requires n < |files|
    ensures EntriesOf(files[..n + 1], content) ==
            EntriesOf(files[..n], content) + if files[n].IsDeleted() then [] else [EntryOf(files[n], content)]
  {
    assert files[..n + 1] == files[..n] + [files[n]];
    EntriesSnoc(files[..n], files[n], content);
  }

  lemma {:induction false} NoEntries(files: seq<FileMeta>, content: Content, m: nat, n: nat)
    requires LiveFirst(files, m) && m <= n <= |files|
    ensures EntriesOf(files[..n], content) == EntriesOf(files[..m], content)
    decreases n
  {
    if m < n {
      EntriesUpTo(files, content, n - 1);
      NoEntries(files, content, m, n - 1);
    }
  }

  // Applying the entries of the first n files is what the steps are.
  lemma {:induction false} EntriesAreSteps(c: Codec, files: seq<FileMeta>, content: Content, m: nat, n: nat, d: Disk)
    requires LiveFirst(files, m) && n <= m && DistinctPaths(files) && Unchanged(c, files, content)
    ensures var entries, r := EntriesOf(files[..n], content), Steps(d, files, content, n);
      |entries| == n &&
      ApplyEntries(c, Everything, files, entries, n, d) == Applied(if r.ok then Fine else Refused, r.disk)
  {
    hide DistinctPaths, Unchanged, EntriesOf, EntryOf, ApplyEntry, Step;
    if n == 0 {
      assert files[..0] == [];
      NoEntriesAtAll(content);
    } else {
      EntriesAreSteps(c, files, content, m, n - 1, d);
      EntriesUpTo(files, content, n - 1);
      var before, entries := EntriesOf(files[..n - 1], content), EntriesOf(files[..n], content);
      SameEntries(c, files, before, entries, n - 1, d);
      assert entries[n - 1] == EntryOf(files[n - 1], content);
      EntryIsStep(c, files, content, n - 1, Steps(d, files, content, n - 1).disk);
    }
  }

  lemma NoEntriesAtAll(content: Content)
    ensures EntriesOf([], content) == []
  {
  }

  lemma {:induction false} SameEntries(c: Codec, files: seq<FileMeta>, a: seq<TarEntry>, b: seq<TarEntry>, n: nat,
                                       d: Disk)
    requires n <= |a| && a <= b
    ensures ApplyEntries(c, Everything, files, a, n, d) == ApplyEntries(c, Everything, files, b, n, d)
  {
    hide ApplyEntry;
    if n > 0 {
      SameEntries(c, files, a, b, n - 1, d);
      assert a[n - 1] == b[n - 1];
    }
  }

  lemma EntryIsStep(c: Codec, files: seq<FileMeta>, content: Content, i: nat, d: Disk)
    requires i < |files| && !files[i].IsDeleted() && DistinctPaths(files) && Unchanged(c, files, content)
    ensures var r := Step(d, files[i], content);
      ApplyEntry(c, Everything, files, EntryOf(files[i], content), d) == Applied(if r.ok then Fine else Refused, r.disk)
  {
    hide DistinctPaths, Unchanged, PutEntry, EntryPasses, RemoveAt;
    EntryOfPasses(c, files, content, i);
    FileNamedUnique(files, i);
  }

  // Applying the tombstones is what the rest of the steps are.
  lemma {:induction false} ClearingIsSteps(files: seq<FileMeta>, content: Content, m: nat, n: nat, d: Disk)
    requires LiveFirst(files, m) && n <= |files| && Steps(d, files, content, m).ok
    ensures n <= m ==>
      Cleared(Everything, files, n, Steps(d, files, content, m).disk) == Steps(d, files, content, m).disk
    ensures n >= m ==>
      && Steps(d, files, content, n).ok
      && Cleared(Everything, files, n, Steps(d, files, content, m).disk) == Steps(d, files, content, n).disk
  {
    hide RemoveAt, PutEntry;
    if n > 0 {
      ClearingIsSteps(files, content, m, n - 1, d);
    }
  }

  /** Reading a session whose tombstones come last puts its files in place one after the
      other, up to the first that is refused. */
  lemma SessionIsSteps(c: Codec, files: seq<FileMeta>, content: Content, m: nat, d: Disk)
    requires LiveFirst(files, m) && DistinctPaths(files) && Unchanged(c, files, content)
    ensures var entries, r := EntriesOf(files, content), Steps(d, files, content, |files|);
      var a := ApplyEntries(c, Everything, files, entries, |entries|, d);
      && a.verdict == (if r.ok then Fine else Refused)
      && r.disk == if r.ok then Cleared(Everything, files, |files|, a.disk) else a.disk
  {
    hide DistinctPaths, Unchanged, EntriesOf, Step;
    assert files[..|files|] == files;
    NoEntries(files, content, m, |files|);
    EntriesAreSteps(c, files, content, m, m, d);
    if Steps(d, files, content, m).ok {
      ClearingIsSteps(files, content, m, |files|, d);
    } else {
      StaysRefused(d, files, content, m, |files|);
    }
  }

  // ----- Files with one name ----------------------------------------------------------------------

  /** No two names share a file. */
  ghost predicate Unshared(d: Disk) {
    forall p, q :: p in d.names && q in d.names && p != q && d.names[p].FileNode? ==> d.names[q] != d.names[p]
  }

  ghost predicate LinkFree(files: seq<FileMeta>) {
    forall i :: 0 <= i < |files| && !files[i].IsDeleted() ==> KindOf(files[i]) != LinkEntry
  }

  lemma PutUnshared(d: Disk, kind: EntryKind, p: Place, linkname: string, bytes: seq<byte>)
    requires d.Valid() && Unshared(d) && kind != LinkEntry
    ensures var r := PutEntry(d, kind, Some(p), linkname, bytes);
      r.ok ==> r.disk.Valid() && Unshared(r.disk)
  {
    hide PutEntry, Disk.Blocked, Disk.Occupied, Removable;
    PutAt(d, kind, p, linkname, bytes);
    var r := PutEntry(d, kind, Some(p), linkname, bytes).disk;
    if PutEntry(d, kind, Some(p), linkname, bytes).ok {
      forall a, b | a in r.names && b in r.names && a != b && r.names[a].FileNode?
        ensures r.names[b] != r.names[a]
      {
        assert r.At(a) == Some(r.names[a]) && r.At(b) == Some(r.names[b]) by { NoRootName(r); }
        assert b != p ==> r.At(b) == Some(DirNode) || r.At(b) == d.At(b);
        assert a != p ==> r.At(a) == Some(DirNode) || r.At(a) == d.At(a);
      }
    }
  }

  lemma RemoveUnshared(d: Disk, place: Option<Place>)
    requires d.Valid() && Unshared(d)
    ensures RemoveAt(d, place).Valid() && Unshared(RemoveAt(d, place))
  {
    if place.Some? {
      RemoveAtPlace(d, place.value);
    }
  }

  /** Without hard links no file ever gets a second name. */
  lemma {:induction false} StepsUnshared(d0: Disk, files: seq<FileMeta>, content: Content, n: nat)
    requires d0.Valid() && Unshared(d0) && LinkFree(files) && n <= |files|
    ensures var r := Steps(d0, files, content, n);
      r.ok ==> r.disk.Valid() && Unshared(r.disk)
  {
    hide PutEntry, Unshared, Disk.Valid, RemoveAt, BytesOf;
    if n > 0 {
      StepsUnshared(d0, files, content, n - 1);
      var prev, fm := Steps(d0, files, content, n - 1), files[n - 1];
      if prev.ok && fm.IsDeleted() {
        RemoveUnshared(prev.disk, PlaceOf(fm.path));
      } else if prev.ok && PlaceOf(fm.path).Some? {
        PutUnshared(prev.disk, KindOf(fm), PlaceOf(fm.path).value, fm.linkname, BytesOf(fm, content));
      } else if prev.ok {
        NoPlace(prev.disk, fm, content);
      }
    }
  }

  lemma NoPlace(d: Disk, fm: FileMeta, content: Content)
    requires PlaceOf(fm.path).None? && !fm.IsDeleted()
    ensures !Step(d, fm, content).ok
  {
  }

  /** Where no two names share a file, an entry alone decides what its file holds. */
  lemma {:induction false} LastDataIsOwn(d0: Disk, files: seq<FileMeta>, content: Content, m: nat, n: nat, k: nat,
                                         i: nat)
    requires Unshared(d0) && d0.Valid() && TreeList(files, m) && k < n <= m && i < |d0.data|
    requires KindOf(files[k]) == RegEntry && d0.At(Spot(files[k])) == Some(FileNode(i))
    ensures LastData(d0, files, content, n, i) == BytesOf(files[k], content)
  {
    hide BytesOf, LinkInTree;
    if k < n - 1 {
      assert Spot(files[n - 1]) != Spot(files[k]);
      LastDataIsOwn(d0, files, content, m, n - 1, k, i);
    }
  }

  // What is not listed keeps its data.
  lemma {:induction false} LastDataIsOld(d0: Disk, files: seq<FileMeta>, content: Content, n: nat, p: Place, i: nat)
    requires Unshared(d0) && d0.Valid() && n <= |files| && i < |d0.data|
    requires !Listed(files, n, p) && d0.At(p) == Some(FileNode(i))
    ensures LastData(d0, files, content, n, i) == d0.data[i]
  {
    hide BytesOf;
    if n > 0 {
      ListedMore(files, n - 1, p);
      LastDataIsOld(d0, files, content, n - 1, p, i);
    }
  }

  // ----- Lists one after the other ----------------------------------------------------------------

  lemma {:induction false} StepsConcat(d: Disk, a: seq<FileMeta>, b: seq<FileMeta>, content: Content, n: nat)
    requires n <= |b|
    ensures var first := Steps(d, a, content, |a|);
      Steps(d, a + b, content, |a| + n) == if first.ok then Steps(first.disk, b, content, n) else first
  {
    hide Step;
    if n > 0 {
      StepsConcat(d, a, b, content, n - 1);
      assert (a + b)[|a| + n - 1] == b[n - 1];
    } else {
      StepsOfFront(d, a, b, content, |a|);
    }
  }

  lemma {:induction false} StepsOfFront(d: Disk, a: seq<FileMeta>, b: seq<FileMeta>, content: Content, n: nat)
    requires n <= |a|
    ensures Steps(d, a + b, content, n) == Steps(d, a, content, n)
  {
    hide Step;
    if n > 0 {
      StepsOfFront(d, a, b, content, n - 1);
    }
  }

  // A stretch of a list whose tombstones come last is such a list.
  lemma StretchIsLiveFirst(files: seq<FileMeta>, m: nat, lo: nat, part: seq<FileMeta>) returns (k: nat)
    requires LiveFirst(files, m) && lo + |part| <= |files| && files[lo..lo + |part|] == part
    ensures LiveFirst(part, k)
  {
    k := if m <= lo then 0 else if m - lo <= |part| then m - lo else |part|;
    forall i | 0 <= i < |part|
      ensures part[i] == files[lo + i]
    {
    }
  }

  // ----- What is held of an entry -----------------------------------------------------------------

  ghost predicate Passes(c: Codec, fm: FileMeta, bytes: seq<byte>) {
    |bytes| == fm.size && DigestMatches(c, fm, bytes)
  }

  /** The destination holds what the entry says: a directory, a link, a second name for the
      file it names, or data of its size and digest. */
  ghost predicate HoldsVersion(c: Codec, d: Disk, fm: FileMeta) {
    var kind, node := KindOf(fm), d.At(Spot(fm));
    if kind == DirEntry then node == Some(DirNode)
    else if kind == SymEntry then node == Some(LinkNode(fm.linkname))
    else if kind == LinkEntry then
      PlaceOf(fm.linkname).Some? && node == d.At(PlaceOf(fm.linkname).value) && node.Some? && node.value != DirNode
    else HoldsData(c, d, node, fm)
  }

  ghost predicate HoldsData(c: Codec, d: Disk, node: Option<Node>, fm: FileMeta) {
    node.Some? && node.value.FileNode? && node.value.inode < |d.data| && Passes(c, fm, d.data[node.value.inode])
  }

  // The tar stream has an entry of its own kind for live files only.
  ghost predicate AsListed(files: seq<FileMeta>, entries: seq<TarEntry>) {
    forall k :: 0 <= k < |entries| ==>
      var fm := FileNamed(files, entries[k].name);
      && fm.Some? && !fm.value.IsDeleted()
      && entries[k].kind == KindOf(fm.value) && entries[k].size == |entries[k].content|
  }

  // What an entry that passes leaves is what the list says.
  lemma PutIsHeld(c: Codec, d: Disk, fm: FileMeta, bytes: seq<byte>)
    requires d.Valid() && KindOf(fm) != LinkEntry && Accepts(d, KindOf(fm), Spot(fm), fm.linkname)
    requires KindOf(fm) == RegEntry ==> Passes(c, fm, bytes)
    ensures HoldsVersion(c, PutEntry(d, KindOf(fm), Some(Spot(fm)), fm.linkname, bytes).disk, fm)
  {
    hide PutEntry, Passes, Disk.Blocked, Disk.Occupied;
    PutAt(d, KindOf(fm), Spot(fm), fm.linkname, bytes);
  }

  lemma {:induction false} NamedIsAmong(files: seq<FileMeta>, path: string)
    ensures FileNamed(files, path).Some? ==>
      FileNamed(files, path).value in files && FileNamed(files, path).value.path == path
  {
    if files != [] {
      NamedIsAmong(files[..|files| - 1], path);
    }
  }

  /** Data of another sum than the index records are found out after they were written: the
      session is damaged, and the file is removed again. */
  lemma WrongDataAreRemoved(c: Codec, filter: Filter, files: seq<FileMeta>, e: TarEntry, d: Disk, fm: FileMeta)
    requires d.Valid() && e.kind.RegEntry? && FileNamed(files, e.name) == Some(fm) && e.size == fm.size
    requires if fm.sha256 != "" then c.sha256(e.content) != fm.sha256 else c.xxhash(e.content) != fm.hash
    ensures var a := ApplyEntry(c, filter, files, e, d);
      && !a.verdict.Fine?
      && (Writable(filter, files, fm.path) && PlaceOf(fm.path).Some? && Accepts(d, RegEntry, Spot(fm), fm.linkname) ==>
          a.verdict.Damage? && a.disk.At(Spot(fm)) == None)
      && (!Writable(filter, files, fm.path) ==> a == Applied(Damage, d))
  {
    hide PutEntry, Writable, EntryPasses, DigestMatches, Disk.Blocked, Disk.Occupied, Remove;
    RegularPasses(c, files, e, fm);
    if PlaceOf(fm.path).Some? {
      var p := Spot(fm);
      PutAt(d, RegEntry, p, fm.linkname, e.content);
      RemoveAtPlace(PutEntry(d, RegEntry, Some(p), fm.linkname, e.content).disk, p);
      FilesAreRemovable(PutEntry(d, RegEntry, Some(p), fm.linkname, e.content).disk, p);
    } else {
      NowhereToPut(d, RegEntry, fm.linkname, e.content);
    }
  }

  lemma FilesAreRemovable(d: Disk, p: Place)
    ensures p != [] && d.At(p).Some? && d.At(p).value.FileNode? ==> Removable(d, p)
  {
  }
}
