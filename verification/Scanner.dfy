/** The scan: what changed since the last session, as files for the next one
    (internal/usecase/scan/scanner.go). The walk of the file system is given as the list of
    its visits, with normalised paths; pattern matching is an arbitrary predicate. */
module Scanning {
  import opened Domain
  import opened TapeFormat
  import Grouping

  const MODE_MIRROR := "mirror"

  datatype Kind = Directory | Regular | SymbolicLink(target: string) | Special

  // What the walk reports: linkID names the inode of a file with several names, or is empty.
  datatype Visit = Visit(path: string, size: int, mtime: int, kind: Kind, linkID: string)

  datatype Scope = Scope(job: Job, matches: string -> bool, codec: Codec, content: Content)

  // ----- Paths --------------------------------------------------------------------------

  /** Position of the last slash before i, or -1. */
  function LastSlash(p: string, i: nat): (r: int)
    requires i <= |p|
    ensures -1 <= r < i
    ensures r >= 0 ==> p[r] == '/'
    ensures forall j :: r < j < i ==> p[j] != '/'
  {
    if i == 0 then -1 else if p[i - 1] == '/' then i - 1 else LastSlash(p, i - 1)
  }

  /** Whether one of the directories above p[..i] matches a pattern. */
  predicate AncestorMatches(matches: string -> bool, p: string, i: nat)
    requires i <= |p|
    decreases i
  {
    var k := LastSlash(p, i);
    k > 0 && (matches(p[..k]) || AncestorMatches(matches, p, k))
  }

  predicate Excluded(matches: string -> bool, p: string) {
    matches(p) || AncestorMatches(matches, p, |p|)
  }

  lemma {:induction false} AncestorsMatchExactly(matches: string -> bool, p: string, i: nat)
    requires i <= |p|
    ensures AncestorMatches(matches, p, i) <==> exists k :: 0 < k < i && p[k] == '/' && matches(p[..k])
    decreases i
  {
    var k := LastSlash(p, i);
    if k > 0 {
      AncestorsMatchExactly(matches, p, k);
    }
  }

  /** A pattern that excludes a directory excludes everything below it. */
  lemma ExcludedBelow(matches: string -> bool, dir: string, p: string)
    requires Excluded(matches, dir) && dir != "" && dir + "/" <= p
    ensures Excluded(matches, p)
  {
    hide AncestorMatches;
    AncestorsMatchExactly(matches, dir, |dir|);
    AncestorsMatchExactly(matches, p, |p|);
    assert p[..|dir| + 1] == dir + "/";
    assert p[|dir|] == '/';
    if matches(dir) {
      assert p[..|dir|] == dir;
    } else {
      var k :| 0 < k < |dir| && dir[k] == '/' && matches(dir[..k]);
      assert p[k] == '/' && p[..k] == dir[..k];
    }
  }

  predicate UnderRoot(p: string, root: string) {
    var r := Grouping.NormalizePath(root);
    r == "/" || p == r || r + "/" <= p
  }

  predicate UnderRoots(p: string, roots: seq<string>) {
    exists i :: 0 <= i < |roots| && UnderRoot(p, roots[i])
  }

  // ----- One entry ------------------------------------------------------------------------

  /** An entry as the walk sees it, before hard links are told apart. */
  function Meta(v: Visit): FileMeta {
    match v.kind
    case SymbolicLink(target) => FileMeta(v.path, |target|, v.mtime, false, "", "", "", TYPE_SYMLINK, target)
    case Directory => FileMeta(v.path, 0, v.mtime, true, "", "", "", "", "")
    case _ => FileMeta(v.path, v.size, v.mtime, false, "", "", "", "", "")
  }

  type Links = map<string, string>

  // Whether the entry can share its inode with another one.
  predicate Linkable(v: Visit) { v.kind.Regular? && v.linkID != "" }

  function Linked(fm: FileMeta, v: Visit, links: Links): FileMeta {
    if Linkable(v) && v.linkID in links then fm.(typ := TYPE_HARDLINK, linkname := links[v.linkID]) else fm
  }

  // Size, modification time, class and target decide; the kind of the entry does not.
  predicate SameAttributes(cur: FileMeta, prev: FileMeta) {
    && prev.size == cur.size && prev.modTime == cur.modTime
    && NormalizedType(prev.typ) == NormalizedType(cur.typ)
    && prev.linkname == cur.linkname
  }

  predicate HasContent(fm: FileMeta) { !fm.isDir && !fm.IsSymlink() && !fm.IsHardlink() }

  function Digested(s: Scope, fm: FileMeta): FileMeta {
    if HasContent(fm) then
      var bytes := if fm.path in s.content then s.content[fm.path] else [];
      fm.(hash := s.codec.xxhash(bytes), sha256 := s.codec.sha256(bytes))
    else fm
  }

  // ----- The whole walk, as functions of the visits made so far -----------------------------

  /** Visit i is the first one to its path. */
  ghost predicate First(visits: seq<Visit>, i: nat)
    requires i < |visits|
  {
    forall j :: 0 <= j < i ==> visits[j].path != visits[i].path
  }

  /** Visit i is looked at: first to its path, not excluded, of a kind that goes on tape. */
  ghost predicate LookedAt(s: Scope, visits: seq<Visit>, i: nat)
    requires i < |visits|
  {
    First(visits, i) && !Excluded(s.matches, visits[i].path) && !visits[i].kind.Special?
  }

  /** Which path each inode was first met under, within the first n visits. */
  ghost function LinksAfter(s: Scope, visits: seq<Visit>, n: nat): Links
    requires n <= |visits|
  {
    if n == 0 then map[]
    else
      var links, v := LinksAfter(s, visits, n - 1), visits[n - 1];
      if LookedAt(s, visits, n - 1) && Linkable(v) && v.linkID !in links then links[v.linkID := v.path] else links
  }

  /** The entry of visit i as a file of the tree. */
  ghost function Current(s: Scope, visits: seq<Visit>, i: nat): FileMeta
    requires i < |visits|
  {
    Linked(Meta(visits[i]), visits[i], LinksAfter(s, visits, i))
  }

  type Snapshot = map<string, FileMeta>

  /** What visit i adds to the session. */
  ghost function Report(s: Scope, snapshot: Snapshot, visits: seq<Visit>, i: nat): seq<FileMeta>
    requires i < |visits|
  {
    var cur := Current(s, visits, i);
    if !LookedAt(s, visits, i) then []
    else if cur.path in snapshot && SameAttributes(cur, snapshot[cur.path]) then []
    else [Digested(s, cur.(state := if cur.path in snapshot then STATE_MODIFIED else STATE_ADDED))]
  }

  ghost function Reports(s: Scope, snapshot: Snapshot, visits: seq<Visit>, n: nat): seq<FileMeta>
    requires n <= |visits|
  {
    if n == 0 then [] else Reports(s, snapshot, visits, n - 1) + Report(s, snapshot, visits, n - 1)
  }

  ghost predicate SkippedSpecial(s: Scope, visits: seq<Visit>, i: nat)
    requires i < |visits|
  {
    First(visits, i) && !Excluded(s.matches, visits[i].path) && visits[i].kind.Special?
  }

  ghost function Specials(s: Scope, visits: seq<Visit>, n: nat): nat
    requires n <= |visits|
  {
    if n == 0 then 0
    else Specials(s, visits, n - 1) + (if SkippedSpecial(s, visits, n - 1) then 1 else 0)
  }

  function SnapshotOf(files: seq<FileMeta>): Snapshot {
    if files == [] then map[] else SnapshotOf(files[..|files| - 1])[files[|files| - 1].path := files[|files| - 1]]
  }

  function Tombstone(prev: FileMeta, path: string): FileMeta {
    FileMeta(path, 0, 0, prev.isDir, "", "", STATE_DELETED, "", "")
  }

  // ----- The scanner ------------------------------------------------------------------------

  // The maps a scan fills as it goes along.
  class ScanState {
    var seen: set<string>
    var links: Links

    constructor ()
      ensures seen == {} && links == map[]
    {
      seen, links := {}, map[];
    }
  }

  class Scanner {
    var skippedSpecials: nat

    constructor ()
      ensures skippedSpecials == 0
    {
      skippedSpecials := 0;
    }

    method ScanEntry(s: Scope, st: ScanState, snapshot: Snapshot, v: Visit, ghost visits: seq<Visit>, ghost i: nat)
      returns (ok: bool, r: Option<FileMeta>, special: bool, ghost fault: bool)
      requires i < |visits| && v == visits[i]
      requires st.seen == Paths(visits, i) && st.links == LinksAfter(s, visits, i)
      modifies st
      ensures st.seen == Paths(visits, i + 1) && st.links == LinksAfter(s, visits, i + 1)
      ensures ok ==> Report(s, snapshot, visits, i) == if r.Some? then [r.value] else []
      ensures ok ==> (special <==> SkippedSpecial(s, visits, i))
      ensures ok <==> !fault
    {
      hide Excluded, Digested;
      assert First(visits, i) <==> v.path !in st.seen;
      assert Paths(visits, i + 1) == Paths(visits, i) + {v.path};
      if v.path in st.seen {
        return true, None, false, false;
      }
      st.seen := st.seen + {v.path};
      if Excluded(s.matches, v.path) {
        return true, None, false, false;
      }
      if v.kind.Special? {
        return true, None, true, false;
      }
      var cur := Meta(v);
      if Linkable(v) {
        if v.linkID in st.links {
          cur := cur.(typ := TYPE_HARDLINK, linkname := st.links[v.linkID]);
        } else {
          st.links := st.links[v.linkID := v.path];
        }
      }
      var existed := v.path in snapshot;
      if existed && SameAttributes(cur, snapshot[v.path]) {
        return true, None, false, false;
      }
      cur := cur.(state := if existed then STATE_MODIFIED else STATE_ADDED);
      var readFault: bool := *;
      ok := !(HasContent(cur) && readFault);
      return ok, Some(Digested(s, cur)), false, !ok;
    }

    /** Compares the walk with the snapshot of the last session. Changed entries come in
        walk order; in mirror mode, tombstones of vanished paths follow in alphabetical
        order. Only the walk, or a file that cannot be read, can make it fail. */
    method Scan(s: Scope, visits: seq<Visit>, last: seq<FileMeta>)
      returns (r: Option<seq<FileMeta>>, ghost fault: bool)
      modifies this
      ensures r.Some? ==> IsScan(s, visits, last, r.value)
      ensures r.None? <==> fault
      ensures r.Some? ==> skippedSpecials == Specials(s, visits, |visits|)
    {
      hide Report, LinksAfter, SkippedSpecial, UnderRoots, Paths;
      var snapshot := TakeSnapshot(last);
      var st := new ScanState();
      var result := [];
      var specials := 0;
      NothingSeen(s, visits);
      skippedSpecials := 0;
      for i := 0 to |visits|
        invariant fresh(st) && st.seen == Paths(visits, i) && st.links == LinksAfter(s, visits, i)
        invariant result == Reports(s, snapshot, visits, i) && specials == Specials(s, visits, i)
      {
        var ok, entry, special;
        ok, entry, special, fault := ScanEntry(s, st, snapshot, visits[i], visits, i);
        var walkFault: bool := *;
        if !ok || walkFault {
          return None, true;
        }
        if special {
          specials := specials + 1;
        }
        if entry.Some? {
          result := result + [entry.value];
        }
      }
      var walkEnded: bool := *;
      if !walkEnded {
        return None, true;
      }
      fault := false;
      skippedSpecials := specials;
      if s.job.mode == MODE_MIRROR {
        var gone := Tombstones(snapshot, last, st.seen, s.job.paths);
        assert ScanIs(s, visits, last, result + gone, gone);
        r := Some(result + gone);
      } else {
        assert result + [] == result;
        assert ScanIs(s, visits, last, result, []);
        r := Some(result);
      }
    }
  }

  ghost function Paths(visits: seq<Visit>, n: nat): set<string>
    requires n <= |visits|
  {
    set i | 0 <= i < n :: visits[i].path
  }

  lemma NothingSeen(s: Scope, visits: seq<Visit>)
    ensures Paths(visits, 0) == {} && LinksAfter(s, visits, 0) == map[]
  {
  }

  method TakeSnapshot(files: seq<FileMeta>) returns (snapshot: Snapshot)
    ensures snapshot == SnapshotOf(files)
  {
    snapshot := map[];
    for i := 0 to |files|
      invariant snapshot == SnapshotOf(files[..i])
    {
      assert files[..i + 1][..i] == files[..i];
      snapshot := snapshot[files[i].path := files[i]];
    }
    assert files[..|files|] == files;
  }

  // ----- Tombstones -------------------------------------------------------------------------

  ghost predicate Alphabetical(files: seq<FileMeta>) {
    forall i, j :: 0 <= i < j < |files| ==> Before(files[i].path, files[j].path)
  }

  // Puts a file in its alphabetical place.
  function PutInOrder(files: seq<FileMeta>, fm: FileMeta): (r: seq<FileMeta>)
    ensures forall x :: x in r <==> x == fm || x in files
  {
    if files == [] || Before(fm.path, files[0].path) then [fm] + files else [files[0]] + PutInOrder(files[1..], fm)
  }

  lemma {:induction false} InOrderIsAlphabetical(files: seq<FileMeta>, fm: FileMeta)
    requires Alphabetical(files) && forall x :: x in files ==> x.path != fm.path
    ensures Alphabetical(PutInOrder(files, fm))
  {
    hide Before;
    if files == [] {
    } else if Before(fm.path, files[0].path) {
      forall j | 0 < j < |files| ensures Before(fm.path, files[j].path) {
        BeforeIsTransitive(fm.path, files[0].path, files[j].path);
      }
    } else {
      var rest := PutInOrder(files[1..], fm);
      InOrderIsAlphabetical(files[1..], fm);
      BeforeIsTotal(fm.path, files[0].path);
      forall j | 0 <= j < |rest| ensures Before(files[0].path, rest[j].path) {
        assert rest[j] in rest;
        if rest[j] != fm {
          var k :| 0 <= k < |files[1..]| && files[1..][k] == rest[j];
          assert files[k + 1] == rest[j];
        }
      }
    }
  }

  /** Whether a path of the snapshot has vanished from the walk. */
  ghost predicate Vanished(snapshot: Snapshot, seen: set<string>, roots: seq<string>, p: string) {
    p in snapshot && p !in seen && UnderRoots(p, roots)
  }

  ghost predicate AreTombstones(gone: seq<FileMeta>, snapshot: Snapshot, seen: set<string>, roots: seq<string>) {
    && Alphabetical(gone)
    && (forall x :: x in gone ==> Vanished(snapshot, seen, roots, x.path) && x == Tombstone(snapshot[x.path], x.path))
    && (forall p :: Vanished(snapshot, seen, roots, p) ==> Tombstone(snapshot[p], p) in gone)
  }

  method Tombstones(snapshot: Snapshot, last: seq<FileMeta>, seen: set<string>, roots: seq<string>)
    returns (gone: seq<FileMeta>)
    requires snapshot == SnapshotOf(last)
    ensures AreTombstones(gone, snapshot, seen, roots)
  {
    hide UnderRoots, SnapshotOf, Before;
    gone := [];
    var done: set<string> := {};
    for i := 0 to |last|
      invariant done == FilePaths(last, i)
      invariant Alphabetical(gone)
      invariant forall x :: x in gone ==>
        x.path in done && Vanished(snapshot, seen, roots, x.path) && x == Tombstone(snapshot[x.path], x.path)
      invariant forall p :: p in done && Vanished(snapshot, seen, roots, p) ==> Tombstone(snapshot[p], p) in gone
    {
      var p := last[i].path;
      SnapshotHasPaths(last);
      assert FilePaths(last, i + 1) == FilePaths(last, i) + {p};
      if p !in done && p !in seen && UnderRoots(p, roots) {
        InOrderIsAlphabetical(gone, Tombstone(snapshot[p], p));
        gone := PutInOrder(gone, Tombstone(snapshot[p], p));
      }
      done := done + {p};
    }
    SnapshotHasPaths(last);
  }

  ghost function FilePaths(files: seq<FileMeta>, n: nat): set<string>
    requires n <= |files|
  {
    set i | 0 <= i < n :: files[i].path
  }

  lemma {:induction false} SnapshotHasPaths(files: seq<FileMeta>)
    ensures SnapshotOf(files).Keys == FilePaths(files, |files|)
    ensures forall p :: p in SnapshotOf(files) ==> SnapshotOf(files)[p].path == p
  {
    if files != [] {
      var n := |files| - 1;
      SnapshotHasPaths(files[..n]);
      assert FilePaths(files, n + 1) == FilePaths(files[..n], n) + {files[n].path};
    }
  }

  /** What a scan returns. */
  ghost predicate IsScan(s: Scope, visits: seq<Visit>, last: seq<FileMeta>, files: seq<FileMeta>) {
    exists gone :: ScanIs(s, visits, last, files, gone)
  }

  ghost predicate ScanIs(s: Scope, visits: seq<Visit>, last: seq<FileMeta>, files: seq<FileMeta>,
                         gone: seq<FileMeta>) {
    var snapshot := SnapshotOf(last);
    && files == Reports(s, snapshot, visits, |visits|) + gone
    && if s.job.mode == MODE_MIRROR
       then AreTombstones(gone, snapshot, Paths(visits, |visits|), s.job.paths)
       else gone == []
  }
}
