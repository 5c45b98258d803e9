/** The configuration snapshots on a cartridge: every session carries the hash of the job it
    ran, and the job itself unless the session before carries the same hash
    (internal/usecase/backup/usecase.go:418-458, docs/FORMAT.md, section 5). */
module Snapshots {
  import opened Domain
  import opened TapeMachine
  import opened Canonical
  import opened TapeFormat
  import opened Layout

  /** What the index of a recorded session reads as. */
  function IndexRead(c: Codec, rec: Recorded): IndexResult {
    ReadIndex(c, Concat(rec.index))
  }

  function CarriedHash(c: Codec, rec: Recorded): Option<string> {
    match IndexRead(c, rec)
    case Index(idx) => Some(idx.jobConfigHash)
    case _ => None
  }

  /** The hash of the session before session k, if there is one. */
  function HashBefore(c: Codec, recs: seq<Recorded>, k: nat): Option<string>
    requires k <= |recs|
  {
    if k == 0 then None else CarriedHash(c, recs[k - 1])
  }

  /** An index with a job carries the hash of this job; one without carries the hash of the
      session before. */
  ghost predicate CarriesJob(c: Codec, before: Option<string>, r: IndexResult) {
    r.Index? ==>
      match r.idx.jobConfig
      case Some(job) => r.idx.jobConfigHash == c.sha(CanonicalJobConfig(job))
      case None => before == Some(r.idx.jobConfigHash)
  }

  ghost predicate Configured(c: Codec, recs: seq<Recorded>) {
    forall k :: 0 <= k < |recs| ==> ConfiguredAt(c, recs, k)
  }

  ghost predicate ConfiguredAt(c: Codec, recs: seq<Recorded>, k: nat)
    requires k < |recs|
  {
    CarriesJob(c, HashBefore(c, recs, k), IndexRead(c, recs[k]))
  }

  lemma ConfiguredFront(c: Codec, recs: seq<Recorded>, k: nat)
    requires Configured(c, recs) && k <= |recs|
    ensures Configured(c, recs[..k])
  {
    hide CarriesJob, CarriedHash;
    forall i | 0 <= i < k
      ensures ConfiguredAt(c, recs[..k], i)
    {
      assert ConfiguredAt(c, recs, i);
    }
  }

  lemma ConfiguredSnoc(c: Codec, recs: seq<Recorded>, rec: Recorded)
    requires Configured(c, recs) && CarriesJob(c, HashBefore(c, recs, |recs|), IndexRead(c, rec))
    ensures Configured(c, recs + [rec])
  {
    hide CarriesJob, CarriedHash;
    forall i | 0 <= i < |recs + [rec]|
      ensures ConfiguredAt(c, recs + [rec], i)
    {
      if i < |recs| {
        assert ConfiguredAt(c, recs, i);
      }
    }
  }

  ghost predicate HasJob(c: Codec, rec: Recorded) {
    IndexRead(c, rec).Index? && IndexRead(c, rec).idx.jobConfig.Some?
  }

  /** Going back from session k, session j is the nearest one with a job. */
  ghost predicate NearestJob(c: Codec, recs: seq<Recorded>, j: nat, k: nat)
    requires k < |recs|
  {
    j <= k && HasJob(c, recs[j]) && forall i :: j < i <= k ==> IndexRead(c, recs[i]).Index? && !HasJob(c, recs[i])
  }

  /** Going back from any session whose index reads, a job is found, and the nearest one has
      the hash this session carries: a reader needs no more than the cartridge at hand. */
  lemma {:induction false} NearestJobIsTheOne(c: Codec, recs: seq<Recorded>, k: nat)
    requires Configured(c, recs) && k < |recs| && IndexRead(c, recs[k]).Index?
    ensures exists j: nat :: NearestJob(c, recs, j, k)
    ensures forall j: nat :: NearestJob(c, recs, j, k) ==>
      CarriedHash(c, recs[k]) == Some(c.sha(CanonicalJobConfig(IndexRead(c, recs[j]).idx.jobConfig.value)))
  {
    hide IndexRead;
    assert ConfiguredAt(c, recs, k);
    if HasJob(c, recs[k]) {
      assert NearestJob(c, recs, k, k);
    } else {
      NearestJobIsTheOne(c, recs, k - 1);
      var j: nat :| NearestJob(c, recs, j, k - 1);
      assert NearestJob(c, recs, j, k);
      forall j: nat | NearestJob(c, recs, j, k)
        ensures NearestJob(c, recs, j, k - 1)
      {
      }
    }
  }
}
