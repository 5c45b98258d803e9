/** All cartridges at once, and what the catalogue says about them. A world maps the
    identifier of a label to the cartridge that carries it. */
module Worlds {
  import opened Domain
  import opened TapeMachine
  import opened Canonical
  import opened TapeFormat
  import opened Layout
  import opened Catalogs
  import opened Snapshots
  import opened Formatting

  type World = map<string, Cart>

  /** The catalogue row of a session that lies on a cartridge. */
  function RowFor(uuid: string, idx: SessionIndex): Session {
    Session(uuid, idx.sessionNum, idx.typ, idx.timestamp, idx.jobRunID, idx.part)
  }

  /** Row id says what this session of the cartridge says, under this number. */
  ghost predicate RowMirrors(c: Codec, rows: SessionTable, files: FileTable, id: int,
                             uuid: string, rec: Recorded, num: int)
  {
    var r := ReadIndex(c, Concat(rec.index));
    r.Index? && r.idx.sessionNum == num && RowIs(rows, files, id, RowFor(uuid, r.idx), r.idx.files)
  }

  /** The rows of a cartridge are ids, numbered from 1 on, and mirror its first sessions. */
  ghost predicate InStep(c: Codec, rows: SessionTable, files: FileTable,
                         uuid: string, recs: seq<Recorded>, ids: seq<int>)
  {
    && |ids| <= |recs|
    && (forall i :: 0 <= i < |ids| ==> RowMirrors(c, rows, files, ids[i], uuid, recs[i], i + 1))
    && (forall id :: id in rows && rows[id].tapeUUID == uuid ==> id in ids)
  }

  ghost predicate Mirrored(c: Codec, rows: SessionTable, files: FileTable, uuid: string, recs: seq<Recorded>) {
    exists ids :: InStep(c, rows, files, uuid, recs, ids)
  }

  ghost predicate Labelled(c: Codec, uuid: string, cart: Cart) {
    var l := DecodeLabel(c, cart.heading);
    l.Label? && l.tapeLabel.uuid == uuid
  }

  /** Sessions whose indexes read and are numbered as they lie. */
  ghost predicate Numbered(c: Codec, recs: seq<Recorded>) {
    forall i :: 0 <= i < |recs| ==> NumberedAt(c, recs, i)
  }

  ghost predicate NumberedAt(c: Codec, recs: seq<Recorded>, i: nat)
    requires i < |recs|
  {
    var r := ReadIndex(c, Concat(recs[i].index));
    r.Index? && r.idx.sessionNum == i + 1
  }

  /** A cartridge as formatting and backups leave it: under its own label, its sessions
      numbered as they lie and carrying their jobs, and within its capacity. */
  ghost predicate InOrder(c: Codec, uuid: string, cart: Cart) {
    && Labelled(c, uuid, cart)
    && Numbered(c, cart.sessions) && Configured(c, cart.sessions)
    && WithinCapacity(cart)
  }

  /** On a cartridge in order the job of every session is found by going back to the nearest
      index that has one. */
  lemma JobIsAtHand(c: Codec, uuid: string, cart: Cart, k: nat)
    requires InOrder(c, uuid, cart) && k < |cart.sessions|
    ensures exists j: nat :: NearestJob(c, cart.sessions, j, k)
    ensures forall j: nat :: NearestJob(c, cart.sessions, j, k) ==>
      IndexRead(c, cart.sessions[k]).idx.jobConfigHash ==
      c.sha(CanonicalJobConfig(IndexRead(c, cart.sessions[j]).idx.jobConfig.value))
  {
    hide ReadIndex, Labelled, WithinCapacity, NearestJob;
    assert NumberedAt(c, cart.sessions, k);
    NearestJobIsTheOne(c, cart.sessions, k);
  }

  /** The state between runs: every row belongs to a registered cartridge, every cartridge
      is in order, and its rows mirror its first sessions. It may hold more sessions. */
  ghost predicate SystemOK(c: Codec, rows: SessionTable, files: FileTable, tapes: TapeTable, w: World) {
    && w.Keys <= tapes.Keys && "" !in tapes
    && (forall id :: id in rows ==> rows[id].tapeUUID in tapes)
    && (forall u :: u in w ==> InOrder(c, u, w[u]) && Mirrored(c, rows, files, u, w[u].sessions))
  }

  lemma FreshCartInOrder(c: Codec, l: TapeLabel, heading: Block, capacity: nat)
    requires DecodeLabel(c, heading) == Label(l) && WithinCapacity(FreshCart(heading, capacity))
    ensures InOrder(c, l.uuid, FreshCart(heading, capacity))
  {
    hide DecodeLabel, Items, WithinCapacity;
  }

  lemma NumberedFront(c: Codec, recs: seq<Recorded>, k: nat)
    requires Numbered(c, recs) && k <= |recs|
    ensures Numbered(c, recs[..k])
  {
    hide ReadIndex;
    forall i | 0 <= i < k
      ensures NumberedAt(c, recs[..k], i)
    {
      assert NumberedAt(c, recs, i);
    }
  }

  lemma NumberedSnoc(c: Codec, recs: seq<Recorded>, rec: Recorded, idx: SessionIndex)
    requires Numbered(c, recs)
    requires ReadIndex(c, Concat(rec.index)) == Index(idx) && idx.sessionNum == |recs| + 1
    ensures Numbered(c, recs + [rec])
  {
    hide ReadIndex;
    forall i | 0 <= i < |recs + [rec]|
      ensures NumberedAt(c, recs + [rec], i)
    {
      if i < |recs| {
        assert NumberedAt(c, recs, i);
      }
    }
  }

  // ----- What a run may do to the world -----------------------------------------------------

  /** Since the run began in world w0, with n0 sessions to keep on cartridge u0: no
      cartridge but u0 and the new ones changed, and u0 kept its first n0 sessions. */
  ghost predicate Tracks(c: Codec, w0: World, t0: TapeTable, u0: string, n0: nat, w: World, t: TapeTable) {
    && w.Keys <= t.Keys && t0.Keys <= t.Keys && w0.Keys <= w.Keys && w0.Keys <= t0.Keys
    && u0 in w0 && n0 <= |w0[u0].sessions|
    && n0 <= |w[u0].sessions| && w[u0].sessions[..n0] == w0[u0].sessions[..n0]
    && (forall u :: u in w0 && u != u0 ==> w[u] == w0[u])
    && (forall u :: u in w && u !in w0 ==> u !in t0)
    && (forall u :: u in w ==> InOrder(c, u, w[u])) && "" !in t
  }

  lemma TracksCart(c: Codec, w0: World, t0: TapeTable, u0: string, n0: nat, w: World, t: TapeTable,
                   u: string, cart: Cart)
    requires Tracks(c, w0, t0, u0, n0, w, t)
    requires u in w && (u == u0 || u !in t0) && InOrder(c, u, cart)
    requires u == u0 ==> n0 <= |cart.sessions| && cart.sessions[..n0] == w[u].sessions[..n0]
    ensures Tracks(c, w0, t0, u0, n0, w[u := cart], t)
  {
    hide InOrder;
  }

  lemma TracksNew(c: Codec, w0: World, t0: TapeTable, u0: string, n0: nat, w: World, t: TapeTable,
                  u: string, name: string, cart: Cart)
    requires Tracks(c, w0, t0, u0, n0, w, t)
    requires u !in t && u != "" && InOrder(c, u, cart)
    ensures Tracks(c, w0, t0, u0, n0, w[u := cart], t[u := name])
  {
    hide InOrder;
  }

  // Where a session written by the run lies: the first of the run on its cartridge.
  ghost predicate Placed(t0: TapeTable, u0: string, n0: nat, w: World, sess: Session, rec: Recorded) {
    var u := sess.tapeUUID;
    && u in w && (u == u0 || u !in t0)
    && sess.num == (if u == u0 then n0 else 0) + 1
    && sess.num <= |w[u].sessions| && w[u].sessions[sess.num - 1] == rec
  }

  // ----- Rows and sessions in step ----------------------------------------------------------

  lemma StepKeepsFront(c: Codec, rows: SessionTable, files: FileTable, u: string,
                       recs: seq<Recorded>, recs': seq<Recorded>, ids: seq<int>)
    requires InStep(c, rows, files, u, recs, ids)
    requires |ids| <= |recs'| && recs'[..|ids|] == recs[..|ids|]
    ensures InStep(c, rows, files, u, recs', ids)
  {
    hide RowMirrors;
    forall i | 0 <= i < |ids|
      ensures RowMirrors(c, rows, files, ids[i], u, recs'[i], i + 1)
    {
      assert recs'[i] == recs'[..|ids|][i] == recs[i];
    }
  }

  // Rows entered for other cartridges leave this one in step.
  lemma StepUntouched(c: Codec, rows: SessionTable, files: FileTable,
                      rows0: SessionTable, files0: FileTable,
                      created: seq<int>, sess: seq<Session>, lists: seq<seq<FileMeta>>,
                      u: string, recs: seq<Recorded>, ids: seq<int>)
    requires Entered(rows, files, rows0, files0, created, sess, lists)
    requires InStep(c, rows0, files0, u, recs, ids)
    requires forall k :: 0 <= k < |sess| ==> sess[k].tapeUUID != u
    ensures InStep(c, rows, files, u, recs, ids)
  {
    hide ReadIndex;
    forall i | 0 <= i < |ids|
      ensures RowMirrors(c, rows, files, ids[i], u, recs[i], i + 1)
    {
      assert RowMirrors(c, rows0, files0, ids[i], u, recs[i], i + 1);
      OldRowIsKept(rows, files, rows0, files0, created, sess, lists, ids[i]);
    }
    forall id | id in rows && rows[id].tapeUUID == u
      ensures id in ids
    {
      RowIsOldOrNew(rows, files, rows0, files0, created, sess, lists, id);
    }
  }

  lemma OldRowIsKept(rows: SessionTable, files: FileTable,
                     rows0: SessionTable, files0: FileTable,
                     created: seq<int>, sess: seq<Session>, lists: seq<seq<FileMeta>>, id: int)
    requires Entered(rows, files, rows0, files0, created, sess, lists) && id in rows0
    ensures id in rows && rows[id] == rows0[id] && (id in files <==> id in files0)
    ensures id in files ==> files[id] == files0[id]
  {
    assert id !in AsSet(created);
    assert id in rows - AsSet(created);
    assert id in files <==> id in files - AsSet(created);
  }

  lemma RowIsOldOrNew(rows: SessionTable, files: FileTable,
                      rows0: SessionTable, files0: FileTable,
                      created: seq<int>, sess: seq<Session>, lists: seq<seq<FileMeta>>, id: int)
    requires Entered(rows, files, rows0, files0, created, sess, lists) && id in rows
    ensures
      || (id in rows0 && rows[id] == rows0[id])
      || exists k :: 0 <= k < |created| && id == created[k] && rows[id] == sess[k]
  {
    if id in created {
      var k :| 0 <= k < |created| && id == created[k];
      assert RowIs(rows, files, created[k], sess[k], lists[k]);
    } else {
      assert id in rows - AsSet(created);
    }
  }

  // One row entered for the next session of this cartridge keeps it in step.
  lemma StepGrown(c: Codec, rows: SessionTable, files: FileTable,
                  rows0: SessionTable, files0: FileTable,
                  created: seq<int>, sess: seq<Session>, lists: seq<seq<FileMeta>>,
                  u: string, recs: seq<Recorded>, ids: seq<int>, k: nat, idx: SessionIndex)
    requires Entered(rows, files, rows0, files0, created, sess, lists)
    requires InStep(c, rows0, files0, u, recs, ids) && |ids| < |recs|
    requires k < |sess| && forall j :: 0 <= j < |sess| && sess[j].tapeUUID == u ==> j == k
    requires ReadIndex(c, Concat(recs[|ids|].index)) == Index(idx) && idx.sessionNum == |ids| + 1
    requires sess[k] == RowFor(u, idx) && lists[k] == idx.files
    ensures InStep(c, rows, files, u, recs, ids + [created[k]])
  {
    hide ReadIndex;
    var ids' := ids + [created[k]];
    forall i | 0 <= i < |ids'|
      ensures RowMirrors(c, rows, files, ids'[i], u, recs[i], i + 1)
    {
      if i < |ids| {
        assert RowMirrors(c, rows0, files0, ids[i], u, recs[i], i + 1);
        OldRowIsKept(rows, files, rows0, files0, created, sess, lists, ids[i]);
      } else {
        assert RowIs(rows, files, created[k], sess[k], lists[k]);
      }
    }
    forall id | id in rows && rows[id].tapeUUID == u
      ensures id in ids'
    {
      RowIsOldOrNew(rows, files, rows0, files0, created, sess, lists, id);
    }
  }

  // The largest number among the rows of a cartridge in step is their count.
  lemma TopNumber(c: Codec, rows: SessionTable, files: FileTable, u: string, recs: seq<Recorded>,
                  ids: seq<int>, listed: seq<int>, num: int, last: int)
    requires InStep(c, rows, files, u, recs, ids)
    requires forall i :: 0 <= i < |listed| ==> listed[i] in rows && rows[listed[i]].tapeUUID == u
    requires forall id :: id in rows && rows[id].tapeUUID == u ==> id in listed
    requires num >= 0 && forall i :: 0 <= i < |listed| ==> rows[listed[i]].num <= num
    requires num > 0 ==> last in listed && rows[last].num == num
    ensures num == |ids|
    ensures num > 0 ==> last == ids[num - 1]
  {
    hide ReadIndex;
    forall i | 0 <= i < |ids|
      ensures ids[i] in listed && rows[ids[i]].num == i + 1
    {
      assert RowMirrors(c, rows, files, ids[i], u, recs[i], i + 1);
    }
    if |ids| > 0 {
      var j :| 0 <= j < |listed| && listed[j] == ids[|ids| - 1];
      assert rows[listed[j]].num == |ids| <= num;
    }
    if num > 0 {
      assert last in ids;
      var i :| 0 <= i < |ids| && ids[i] == last;
      assert i + 1 == num;
    }
  }
}
