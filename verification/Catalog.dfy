/** The catalogue: registered cartridges, session rows, and the files of each session
    (internal/testutil/memcatalog.go, which mirrors the SQL catalogue). An operation that
    may fail for reasons of its own is allowed to refuse at any time; it then changes
    nothing. */
module Catalogs {
  import opened Domain

  type TapeTable = map<string, string>            // uuid to name
  type SessionTable = map<int, Session>
  type FileTable = map<int, seq<FileMeta>>

  // ----- The order of rows --------------------------------------------------------------

  predicate NotAfter(a: Session, b: Session) {
    if a.tapeUUID == b.tapeUUID then a.num <= b.num else Before(a.tapeUUID, b.tapeUUID)
  }

  lemma NotAfterIsOrder(a: Session, b: Session, c: Session)
    ensures NotAfter(a, b) || NotAfter(b, a)
    ensures NotAfter(a, b) && NotAfter(b, c) ==> NotAfter(a, c)
  {
    hide Before;
    if a.tapeUUID != b.tapeUUID {
      BeforeIsTotal(a.tapeUUID, b.tapeUUID);
    }
    if NotAfter(a, b) && NotAfter(b, c) && a.tapeUUID != b.tapeUUID && b.tapeUUID != c.tapeUUID {
      BeforeIsTransitive(a.tapeUUID, b.tapeUUID, c.tapeUUID);
      BeforeIsStrict(a.tapeUUID);
    }
  }

  /** Keys of rows, each once, in the order of their rows. */
  ghost predicate Listed(rows: SessionTable, ids: seq<int>) {
    && (forall i :: 0 <= i < |ids| ==> ids[i] in rows)
    && (forall i, j :: 0 <= i < j < |ids| ==> ids[i] != ids[j] && NotAfter(rows[ids[i]], rows[ids[j]]))
  }

  // Puts a key in the place of its row.
  function PutInList(rows: SessionTable, ids: seq<int>, id: int): (r: seq<int>)
    requires id in rows && forall i :: 0 <= i < |ids| ==> ids[i] in rows
    ensures forall x :: x in r <==> x == id || x in ids
  {
    if ids == [] || NotAfter(rows[id], rows[ids[0]]) then [id] + ids else [ids[0]] + PutInList(rows, ids[1..], id)
  }

  lemma {:induction false} PutIsListed(rows: SessionTable, ids: seq<int>, id: int)
    requires id in rows && id !in ids && Listed(rows, ids)
    ensures Listed(rows, PutInList(rows, ids, id))
  {
    hide NotAfter;
    if ids == [] {
    } else if NotAfter(rows[id], rows[ids[0]]) {
      forall j | 0 <= j < |ids| ensures NotAfter(rows[id], rows[ids[j]]) {
        NotAfterIsOrder(rows[id], rows[ids[0]], rows[ids[j]]);
      }
    } else {
      var rest := PutInList(rows, ids[1..], id);
      PutIsListed(rows, ids[1..], id);
      NotAfterIsOrder(rows[id], rows[ids[0]], rows[id]);
      forall j | 0 <= j < |rest| ensures ids[0] != rest[j] && rest[j] in rows && NotAfter(rows[ids[0]], rows[rest[j]]) {
        assert rest[j] in rest;
        if rest[j] != id {
          assert rest[j] in ids[1..];
        }
      }
    }
  }

  lemma ListedNone(rows: SessionTable)
    ensures Listed(rows, [])
  {
  }

  lemma ListedOnce(rows: SessionTable, ids: seq<int>)
    requires Listed(rows, ids)
    ensures forall i :: 0 <= i < |ids| ==> ids[i] in rows && ids[i] in ids
    ensures forall i, j :: 0 <= i < j < |ids| ==> ids[i] != ids[j]
  {
    hide NotAfter;
  }

  class Catalog {
    var nextID: int
    var tapes: TapeTable
    var sessions: SessionTable
    var files: FileTable

    ghost predicate Valid()
      reads this
    {
      && 0 <= nextID
      && (forall id :: id in sessions ==> 0 < id <= nextID)
      && files.Keys <= sessions.Keys
      && (forall id :: id in sessions ==> sessions[id].tapeUUID in tapes)
    }

    constructor ()
      ensures Valid() && sessions == map[] && files == map[] && tapes == map[]
    {
      nextID, tapes, sessions, files := 0, map[], map[], map[];
    }

    /** Enters a cartridge or renames it; only the catalogue itself may fail. */
    method RegisterTape(uuid: string, name: string) returns (ok: bool, ghost fault: bool)
      requires Valid()
      modifies this`tapes
      ensures Valid() && (ok <==> !fault)
      ensures tapes == if ok then old(tapes)[uuid := name] else old(tapes)
    {
      var fails: bool := *;
      fault, ok := fails, !fails;
      if ok {
        tapes := tapes[uuid := name];
      }
    }

    /** Inserts a session row under a new key; the cartridge must be registered. */
    method CreateSession(sess: Session) returns (id: Option<int>, ghost fault: bool)
      requires Valid()
      modifies this`nextID, this`sessions
      ensures Valid() && (id.Some? <==> sess.tapeUUID in tapes && !fault)
      ensures id.Some? ==> sess.tapeUUID in tapes && id.value !in old(sessions) && id.value !in files
      ensures id.Some? ==> sessions == old(sessions)[id.value := sess.(part := if sess.part < 1 then 1 else sess.part)]
      ensures id.None? ==> sessions == old(sessions)
    {
      var fails: bool := *;
      fault := fails;
      if sess.tapeUUID !in tapes || fails {
        return None, fault;
      }
      nextID := nextID + 1;
      sessions := sessions[nextID := sess.(part := if sess.part < 1 then 1 else sess.part)];
      id := Some(nextID);
    }

    /** Adds files to a session: all of them or none. */
    method SaveFiles(id: int, fs: seq<FileMeta>) returns (ok: bool, ghost fault: bool)
      requires Valid()
      modifies this`files
      ensures Valid() && (ok <==> id in sessions && !fault)
      ensures ok ==> id in sessions && FilesOf(id) == old(FilesOf(id)) + fs
      ensures !ok ==> files == old(files)
      ensures files - {id} == old(files) - {id}
    {
      var fails: bool := *;
      fault := fails;
      if id !in sessions || fails {
        return false, fault;
      }
      if |fs| == 0 {
        return true, fault;
      }
      files := files[id := FilesOf(id) + fs];
      ok := true;
    }

    /** Deletes a session row and its files; false if there is no such row. */
    method DeleteSession(id: int) returns (ok: bool)
      requires Valid()
      modifies this`sessions, this`files
      ensures Valid() && ok == (id in old(sessions))
      ensures sessions == old(sessions) - {id} && files == old(files) - {id}
    {
      ok := id in sessions;
      sessions := sessions - {id};
      files := files - {id};
    }

    function FilesOf(id: int): seq<FileMeta>
      reads this
    {
      if id in files then files[id] else []
    }

    /** The keys of the rows of one cartridge, or of all for the empty identifier, by
        cartridge and number. */
    method ListSessions(uuid: string) returns (ids: seq<int>)
      requires Valid()
      ensures forall i :: 0 <= i < |ids| ==> ids[i] in sessions && (uuid == "" || sessions[ids[i]].tapeUUID == uuid)
      ensures forall id :: id in sessions && (uuid == "" || sessions[id].tapeUUID == uuid) ==> id in ids
      ensures forall i, j :: 0 <= i < j < |ids| ==> ids[i] != ids[j]
      ensures Listed(sessions, ids)
    {
      hide NotAfter, Listed, PutInList;
      ids := [];
      ListedNone(sessions);
      for id := 1 to nextID + 1
        invariant forall k :: k in ids <==> k in sessions && k < id && (uuid == "" || sessions[k].tapeUUID == uuid)
        invariant Listed(sessions, ids)
      {
        if id in sessions && (uuid == "" || sessions[id].tapeUUID == uuid) {
          ListedOnce(sessions, ids);
          PutIsListed(sessions, ids, id);
          ids := PutInList(sessions, ids, id);
        }
      }
      ListedOnce(sessions, ids);
      forall i | 0 <= i < |ids|
        ensures ids[i] in sessions && (uuid == "" || sessions[ids[i]].tapeUUID == uuid)
      {
        assert ids[i] in ids;
      }
    }

    /** Largest session number among the rows and its key; 0 and 0 if there is none. */
    method LastSession(ids: seq<int>) returns (num: int, last: int)
      requires forall i :: 0 <= i < |ids| ==> ids[i] in sessions
      ensures num >= 0 && forall i :: 0 <= i < |ids| ==> sessions[ids[i]].num <= num
      ensures num > 0 ==> last in ids && sessions[last].num == num
      ensures num == 0 ==> last == 0
    {
      num, last := 0, 0;
      for i := 0 to |ids|
        invariant num >= 0 && forall j :: 0 <= j < i ==> sessions[ids[j]].num <= num
        invariant num > 0 ==> last in ids && last in sessions && sessions[last].num == num
        invariant num == 0 ==> last == 0
      {
        if sessions[ids[i]].num > num {
          num, last := sessions[ids[i]].num, ids[i];
        }
      }
    }
  }

  // ----- Rows entered one after the other ---------------------------------------------------

  ghost function AsSet(ids: seq<int>): set<int> { set id | id in ids }

  ghost predicate RowIs(sessions: SessionTable, files: FileTable, id: int, sess: Session, fs: seq<FileMeta>) {
    id in sessions && sessions[id] == sess && (if id in files then files[id] else []) == fs
  }

  /** The catalogue holds what it held before, and under new keys these rows with these
      files, nothing else. */
  ghost predicate Entered(sessions: SessionTable, files: FileTable,
                          rows0: SessionTable, files0: FileTable,
                          ids: seq<int>, rows: seq<Session>, lists: seq<seq<FileMeta>>)
  {
    && |ids| == |rows| <= |lists|
    && AsSet(ids) !! rows0.Keys && files0.Keys <= rows0.Keys
    && sessions - AsSet(ids) == rows0 && files - AsSet(ids) == files0
    && (forall i, j :: 0 <= i < j < |ids| ==> ids[i] != ids[j])
    && (forall i :: 0 <= i < |ids| ==> RowIs(sessions, files, ids[i], rows[i], lists[i]))
  }

  // One more row with its files.
  lemma EnteredOne(s: SessionTable, f: FileTable, s': SessionTable, f': FileTable,
                   rows0: SessionTable, files0: FileTable,
                   ids: seq<int>, rows: seq<Session>, lists: seq<seq<FileMeta>>, id: int, sess: Session)
    requires Entered(s, f, rows0, files0, ids, rows, lists) && |rows| < |lists|
    requires id !in s && id !in f
    requires s' == s[id := sess] && f' - {id} == f
    requires RowIs(s', f', id, sess, lists[|rows|])
    ensures Entered(s', f', rows0, files0, ids + [id], rows + [sess], lists)
  {
    var mine, mine' := AsSet(ids), AsSet(ids + [id]);
    assert mine' == mine + {id};
    assert id !in rows0 by {
      assert id !in s - mine;
    }
    assert s' - mine' == rows0;
    assert f' - mine' == files0;
    forall i | 0 <= i < |ids + [id]|
      ensures RowIs(s', f', (ids + [id])[i], (rows + [sess])[i], lists[i])
    {
      if i < |ids| {
        assert RowIs(s, f, ids[i], rows[i], lists[i]);
        assert ids[i] in f <==> ids[i] in f';
      }
    }
  }

  lemma EnteredNone(s: SessionTable, f: FileTable, lists: seq<seq<FileMeta>>)
    requires f.Keys <= s.Keys
    ensures Entered(s, f, s, f, [], [], lists)
  {
    assert AsSet([]) == {};
    assert s - {} == s && f - {} == f;
  }
}
