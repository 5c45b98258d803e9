/** Re-reading a part right after it was written (internal/usecase/backup/verify.go). */
module Verifying {
  import opened Domain
  import opened TapeMachine
  import opened FakeTapes
  import opened TapeFormat
  import opened Layout
  import opened WriteParts
  import opened Restoring

  /** A session on the cartridge passes: it reads without damage and lists as many files as
      were written. */
  ghost predicate Passes(c: Codec, rec: Recorded, count: nat) {
    Readable(c, rec) && |ReadIndex(c, Concat(rec.index)).idx.files| == count
  }

  // Where session k+1 is read, and what makes it pass.
  lemma PartAt(c: Codec, cart: Cart, k: nat)
    requires k < |cart.sessions|
    ensures var items, at := Items(cart), |Body(cart.heading, cart.sessions[..k])|;
      && Forward(items, 0, 2 * k + 1) == Some(at) && at <= |items|
      && var head := ReadIndex(c, Concat(Segment(items, at)));
         forall count :: Passes(c, cart.sessions[k], count) <==>
           && head.Index? && ReadsTar(c, head.idx.files, Concat(Segment(items, SegmentEnd(items, at))))
           && |head.idx.files| == count
  {
    hide Segment, SegmentEnd, Items, Body, Concat, ReadIndex, ReadsTar, Forward;
    PositionOf(cart, k);
    SessionAt(cart, k);
  }

  /** Reads session num back. On a sound medium the verdict is whether it passes; the medium
      may fail at any time. */
  method VerifyPart(tape: FakeTape, c: Codec, num: int, files: seq<FileMeta>, ghost cart: Cart)
    returns (ok: bool, ghost mediumFault: bool)
    requires tape.Valid()
    modifies tape`pos
    ensures tape.Valid()
    ensures tape.items == Items(cart) && 0 < num <= |cart.sessions| && !mediumFault ==>
      (ok <==> Passes(c, cart.sessions[num - 1], |files|))
    ensures mediumFault ==> !ok
  {
    hide Segment, SegmentEnd, Items, Body, Concat, ReadIndex, ReadsTar, Forward, Passes;
    if tape.items == Items(cart) && 0 < num <= |cart.sessions| {
      PartAt(c, cart, num - 1);
    }
    mediumFault := false;
    tape.Rewind();
    ok := tape.ForwardFilemarks(2 * num - 1);
    if !ok {
      return;
    }
    var r := ReadSession(tape, c);
    ok := r.SessionRead? && |r.idx.files| == |files|;
    var fault: bool := *;
    if fault {
      ok, mediumFault := false, true;
    }
  }

  /** A part that was written with distinct paths passes: only the medium can make its
      verification fail. */
  lemma WrittenPartPasses(setup: Setup, idx: SessionIndex, rec: Recorded)
    requires Lawful(setup.codec) && Records(setup, idx, rec) && DistinctPaths(idx.files)
    requires idx.formatVersion <= FORMAT_VERSION && idx.part >= 1
    ensures Passes(setup.codec, rec, |idx.files|)
  {
    hide Lawful, Records, ReadIndex, ReadsTar, Concat, DistinctPaths;
    RecordedReadsBack(setup, idx, rec);
  }
}
