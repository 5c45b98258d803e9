/** The canonical form of a session index and of a job configuration: length-prefixed
    fields in a fixed order (internal/adapter/tapeformat/index_hash.go,
    internal/domain/jobhash.go). One character stands for one byte. */
module Canonical {
  import opened Domain

  const ALGO_CANON1 := "sha256-canon1"
  const ALGO_CANON2 := "sha256-canon2"
  const ALGO_CANON3 := "sha256-canon3"

  const PREFIX_CANON1 := "lentovodec.index.canon1\n"
  const PREFIX_CANON2 := "lentovodec.index.canon2\n"
  const PREFIX_CANON3 := "lentovodec.index.canon3\n"
  const PREFIX_JOB := "lentovodec.jobconfig.canon1\n"

  // Go's len never reaches this.
  const LENGTH_LIMIT: nat := 0x8000_0000_0000_0000

  // ----- Numbers --------------------------------------------------------------------

  function DecNat(n: nat): (s: string)
    ensures |s| > 0 && '0' <= s[0] <= '9'
  {
    if n < 10 then ['0' + n as char] else DecNat(n / 10) + ['0' + (n % 10) as char]
  }

  /** Decimal notation, as strconv.Itoa writes it. */
  function Dec(n: int): string {
    if n < 0 then "-" + DecNat(-n) else DecNat(n)
  }

  /** The low k bytes of n, most significant first. */
  function BigEndian(n: nat, k: nat): (s: string)
    ensures |s| == k
  {
    if k == 0 then "" else BigEndian(n / 256, k - 1) + [(n % 256) as char]
  }

  function BoolField(v: bool): string {
    if v then "1" else "0"
  }

  // ----- Fields ---------------------------------------------------------------------

  function Field(s: string): string {
    BigEndian(|s|, 8) + s
  }

  function Fields(ss: seq<string>): string {
    if ss == [] then "" else Field(ss[0]) + Fields(ss[1..])
  }

  function JobFields(job: Job): seq<string> {
    [job.name, job.description, job.mode, Dec(|job.paths|)] + job.paths
    + [Dec(|job.exclude|)] + job.exclude
    + [Dec(job.spanDepth)]
  }

  function CanonicalJobConfig(job: Job): string {
    PREFIX_JOB + Fields(JobFields(job))
  }

  // An absent snapshot is an empty field.
  function JobConfigField(snapshot: Option<Job>): string {
    match snapshot
    case None => ""
    case Some(job) => CanonicalJobConfig(job)
  }

  function HeaderFields(idx: SessionIndex, algo: string): seq<string> {
    [Dec(idx.formatVersion), Dec(idx.sessionNum), idx.typ, idx.jobRunID, Dec(idx.timestamp),
     idx.jobName, Dec(idx.part), idx.continues]
    + (if algo == ALGO_CANON1 then []
       else [idx.toolVersion, idx.configSource, Dec(idx.configMTime), idx.jobConfigHash,
             JobConfigField(idx.jobConfig)])
  }

  function FileFields(fm: FileMeta, algo: string): (r: seq<string>)
    ensures |r| == if algo == ALGO_CANON3 then 9 else 8
  {
    [fm.path, Dec(fm.size), Dec(fm.modTime), BoolField(fm.isDir), fm.hash]
    + (if algo == ALGO_CANON3 then [fm.sha256] else [])
    + [fm.state, fm.typ, fm.linkname]
  }

  function FilesFields(files: seq<FileMeta>, algo: string): seq<string> {
    if files == [] then [] else FileFields(files[0], algo) + FilesFields(files[1..], algo)
  }

  function IndexFields(idx: SessionIndex, algo: string): seq<string> {
    HeaderFields(idx, algo) + [Dec(|idx.files|)] + FilesFields(idx.files, algo)
  }

  function Prefix(algo: string): (r: string)
    ensures |r| == 24
  {
    if algo == ALGO_CANON1 then PREFIX_CANON1 else if algo == ALGO_CANON2 then PREFIX_CANON2 else PREFIX_CANON3
  }

  function CanonicalIndex(idx: SessionIndex, algo: string): string {
    Prefix(algo) + Fields(IndexFields(idx, algo))
  }

  // ----- Seal and check -------------------------------------------------------------

  type Digest = string -> string

  function Seal(sha: Digest, idx: SessionIndex): SessionIndex {
    idx.(hashAlgo := ALGO_CANON3, indexSHA256 := sha(CanonicalIndex(idx, ALGO_CANON3)))
  }

  predicate KnownAlgo(algo: string) {
    algo == ALGO_CANON1 || algo == ALGO_CANON2 || algo == ALGO_CANON3
  }

  /** No checksum and unknown rules are let through; otherwise the sums must agree. */
  predicate VerifyIndexHash(sha: Digest, idx: SessionIndex) {
    || idx.indexSHA256 == ""
    || !KnownAlgo(idx.hashAlgo)
    || sha(CanonicalIndex(idx, idx.hashAlgo)) == idx.indexSHA256
  }

  // ----- Unique parsing of numbers ----------------------------------------------------

  function ValueOf(s: string): nat {
    if s == "" then 0
    else
      var c := s[|s| - 1] as int;
      10 * ValueOf(s[..|s| - 1]) + if c >= 48 then c - 48 else 0
  }

  lemma {:induction false} DecNatValue(n: nat)
    ensures ValueOf(DecNat(n)) == n
  {
    var s := DecNat(n);
    if n < 10 {
      assert s[..0] == "";
    } else {
      DecNatValue(n / 10);
      assert s[..|s| - 1] == DecNat(n / 10);
    }
  }

  lemma DecInjective(m: int, n: int)
    requires Dec(m) == Dec(n)
    ensures m == n
  {
    hide DecNat, ValueOf;
    var a, b := if m < 0 then -m else m, if n < 0 then -n else n;
    DecNatValue(a);
    DecNatValue(b);
    if m < 0 && n < 0 {
      assert Dec(m)[1..] == DecNat(a) && Dec(n)[1..] == DecNat(b);
    }
  }

  function Pow256(k: nat): nat {
    if k == 0 then 1 else 256 * Pow256(k - 1)
  }

  lemma {:induction false} BigEndianInjective(m: nat, n: nat, k: nat)
    requires BigEndian(m, k) == BigEndian(n, k) && m < Pow256(k) && n < Pow256(k)
    ensures m == n
  {
    if k > 0 {
      var a, b := BigEndian(m, k), BigEndian(n, k);
      assert a[..k - 1] == BigEndian(m / 256, k - 1) && b[..k - 1] == BigEndian(n / 256, k - 1);
      assert a[k - 1] == (m % 256) as char && b[k - 1] == (n % 256) as char;
      BigEndianInjective(m / 256, n / 256, k - 1);
    }
  }

  lemma LengthInjective(m: nat, n: nat)
    requires m < LENGTH_LIMIT && n < LENGTH_LIMIT && BigEndian(m, 8) == BigEndian(n, 8)
    ensures m == n
  {
    assert Pow256(4) == 0x1_0000_0000;
    assert Pow256(8) == 0x1_0000_0000 * Pow256(4);
    BigEndianInjective(m, n, 8);
  }

  // ----- Unique parsing of fields -----------------------------------------------------

  ghost predicate Sized(ss: seq<string>) {
    forall i :: 0 <= i < |ss| ==> |ss[i]| < LENGTH_LIMIT
  }

  /** A field says where it ends. */
  lemma FieldUnique(s: string, t: string, x: string, y: string)
    requires |s| < LENGTH_LIMIT && |t| < LENGTH_LIMIT
    requires Field(s) + x == Field(t) + y
    ensures s == t && x == y
  {
    var a, b := Field(s) + x, Field(t) + y;
    assert a[..8] == BigEndian(|s|, 8) && b[..8] == BigEndian(|t|, 8);
    LengthInjective(|s|, |t|);
    assert a[8..8 + |s|] == s && b[8..8 + |t|] == t;
    assert a[8 + |s|..] == x && b[8 + |t|..] == y;
  }

  /** A sequence of fields can be read in one way only. */
  lemma {:induction false} FieldsInjective(ss: seq<string>, tt: seq<string>)
    requires Sized(ss) && Sized(tt)
    requires Fields(ss) == Fields(tt)
    ensures ss == tt
    decreases |ss|
  {
    if ss == [] || tt == [] {
      assert |ss| > 0 ==> |Fields(ss)| >= 8;
      assert |tt| > 0 ==> |Fields(tt)| >= 8;
    } else {
      FieldUnique(ss[0], tt[0], Fields(ss[1..]), Fields(tt[1..]));
      FieldsInjective(ss[1..], tt[1..]);
      assert ss == [ss[0]] + ss[1..] && tt == [tt[0]] + tt[1..];
    }
  }

  // ----- Main results -----------------------------------------------------------------

  /** Different configurations have different canonical forms; the order of paths and of
      excludes matters. */
  lemma JobConfigInjective(a: Job, b: Job)
    requires Sized(JobFields(a)) && Sized(JobFields(b))
    requires CanonicalJobConfig(a) == CanonicalJobConfig(b)
    ensures a == b
  {
    hide Fields, Dec;
    var n := |PREFIX_JOB|;
    assert CanonicalJobConfig(a)[n..] == Fields(JobFields(a));
    assert CanonicalJobConfig(b)[n..] == Fields(JobFields(b));
    FieldsInjective(JobFields(a), JobFields(b));
    JobFieldsInjective(a, b);
  }

  lemma JobFieldsInjective(a: Job, b: Job)
    requires JobFields(a) == JobFields(b)
    ensures a == b
  {
    hide Dec;
    var fa, fb := JobFields(a), JobFields(b);
    assert a.name == fa[0] && a.description == fa[1] && a.mode == fa[2] && Dec(|a.paths|) == fa[3];
    assert b.name == fb[0] && b.description == fb[1] && b.mode == fb[2] && Dec(|b.paths|) == fb[3];
    DecInjective(|a.paths|, |b.paths|);
    var p := 4 + |a.paths|;
    assert a.paths == fa[4..p] && b.paths == fb[4..p];
    assert Dec(|a.exclude|) == fa[p] && Dec(|b.exclude|) == fb[p];
    DecInjective(|a.exclude|, |b.exclude|);
    var e := p + 1 + |a.exclude|;
    assert a.exclude == fa[p + 1..e] && b.exclude == fb[p + 1..e];
    assert Dec(a.spanDepth) == fa[e] && Dec(b.spanDepth) == fb[e];
    DecInjective(a.spanDepth, b.spanDepth);
  }

  /** An absent snapshot is told apart from every snapshot. */
  lemma SnapshotInjective(a: Option<Job>, b: Option<Job>)
    requires a.Some? ==> Sized(JobFields(a.value))
    requires b.Some? ==> Sized(JobFields(b.value))
    requires JobConfigField(a) == JobConfigField(b)
    ensures a == b
  {
    if a.Some? && b.Some? {
      JobConfigInjective(a.value, b.value);
    }
  }

  // What a rule covers: files without their sha256 before canon3, headers without the
  // configuration snapshot before canon2. The checksum fields are never covered.
  ghost function CoveredFile(fm: FileMeta, algo: string): FileMeta {
    if algo == ALGO_CANON3 then fm else fm.(sha256 := "")
  }

  ghost function Covered(idx: SessionIndex, algo: string): SessionIndex {
    var i := idx.(
      hashAlgo := "", indexSHA256 := "",
      files := seq(|idx.files|, k requires 0 <= k < |idx.files| => CoveredFile(idx.files[k], algo)));
    if algo == ALGO_CANON1
    then i.(toolVersion := "", configSource := "", configMTime := 0, jobConfigHash := "", jobConfig := None)
    else i
  }

  ghost predicate SizedIndex(idx: SessionIndex, algo: string) {
    Sized(IndexFields(idx, algo)) && (idx.jobConfig.Some? ==> Sized(JobFields(idx.jobConfig.value)))
  }

  lemma FileFieldsInjective(a: FileMeta, b: FileMeta, algo: string)
    requires FileFields(a, algo) == FileFields(b, algo)
    ensures CoveredFile(a, algo) == CoveredFile(b, algo)
  {
    hide Dec;
    var fa, fb := FileFields(a, algo), FileFields(b, algo);
    assert fa[..5] == [a.path, Dec(a.size), Dec(a.modTime), BoolField(a.isDir), a.hash];
    assert fb[..5] == [b.path, Dec(b.size), Dec(b.modTime), BoolField(b.isDir), b.hash];
    var n := |fa|;
    assert fa[n - 3..] == [a.state, a.typ, a.linkname] && fb[n - 3..] == [b.state, b.typ, b.linkname];
    if algo == ALGO_CANON3 {
      assert fa[5] == a.sha256 && fb[5] == b.sha256;
    }
    assert fa[..5][0] == fb[..5][0] && fa[..5][1] == fb[..5][1] && fa[..5][2] == fb[..5][2]
        && fa[..5][3] == fb[..5][3] && fa[..5][4] == fb[..5][4];
    DecInjective(a.size, b.size);
    DecInjective(a.modTime, b.modTime);
    assert fa[n - 3..][0] == fb[n - 3..][0] && fa[n - 3..][1] == fb[n - 3..][1] && fa[n - 3..][2] == fb[n - 3..][2];
  }

  lemma {:induction false} FilesFieldsInjective(a: seq<FileMeta>, b: seq<FileMeta>, algo: string)
    requires |a| == |b|
    requires FilesFields(a, algo) == FilesFields(b, algo)
    ensures forall i :: 0 <= i < |a| ==> CoveredFile(a[i], algo) == CoveredFile(b[i], algo)
  {
    hide FileFields, CoveredFile;
    if a != [] {
      var fa, fb := FilesFields(a, algo), FilesFields(b, algo);
      var w := |FileFields(a[0], algo)|;
      assert fa[..w] == FileFields(a[0], algo) && fb[..w] == FileFields(b[0], algo);
      assert fa[w..] == FilesFields(a[1..], algo) && fb[w..] == FilesFields(b[1..], algo);
      FileFieldsInjective(a[0], b[0], algo);
      FilesFieldsInjective(a[1..], b[1..], algo);
      forall i | 0 <= i < |a|
        ensures CoveredFile(a[i], algo) == CoveredFile(b[i], algo)
      {
        if i > 0 {
          assert a[i] == a[1..][i - 1] && b[i] == b[1..][i - 1];
        }
      }
    }
  }

  lemma HeaderFieldsInjective(a: SessionIndex, b: SessionIndex, algo: string)
    requires HeaderFields(a, algo) == HeaderFields(b, algo)
    requires a.jobConfig.Some? ==> Sized(JobFields(a.jobConfig.value))
    requires b.jobConfig.Some? ==> Sized(JobFields(b.jobConfig.value))
    requires a.files == b.files
    ensures Covered(a, algo) == Covered(b, algo)
  {
    hide Dec, JobConfigField, CoveredFile;
    var fa, fb := HeaderFields(a, algo), HeaderFields(b, algo);
    assert fa[0] == Dec(a.formatVersion) && fa[1] == Dec(a.sessionNum) && fa[4] == Dec(a.timestamp)
        && fa[6] == Dec(a.part);
    assert fb[0] == Dec(b.formatVersion) && fb[1] == Dec(b.sessionNum) && fb[4] == Dec(b.timestamp)
        && fb[6] == Dec(b.part);
    DecInjective(a.formatVersion, b.formatVersion);
    DecInjective(a.sessionNum, b.sessionNum);
    DecInjective(a.timestamp, b.timestamp);
    DecInjective(a.part, b.part);
    assert a.typ == fa[2] && a.jobRunID == fa[3] && a.jobName == fa[5] && a.continues == fa[7];
    assert b.typ == fb[2] && b.jobRunID == fb[3] && b.jobName == fb[5] && b.continues == fb[7];
    if algo != ALGO_CANON1 {
      assert a.toolVersion == fa[8] && a.configSource == fa[9] && a.jobConfigHash == fa[11];
      assert b.toolVersion == fb[8] && b.configSource == fb[9] && b.jobConfigHash == fb[11];
      assert Dec(a.configMTime) == fa[10] && Dec(b.configMTime) == fb[10];
      assert JobConfigField(a.jobConfig) == fa[12] && JobConfigField(b.jobConfig) == fb[12];
      DecInjective(a.configMTime, b.configMTime);
      SnapshotInjective(a.jobConfig, b.jobConfig);
    }
  }

  /** Two indexes with the same canonical form agree on everything the rule covers. */
  lemma CanonicalInjective(a: SessionIndex, b: SessionIndex, algo: string)
    requires SizedIndex(a, algo) && SizedIndex(b, algo)
    requires CanonicalIndex(a, algo) == CanonicalIndex(b, algo)
    ensures Covered(a, algo) == Covered(b, algo)
  {
    hide Fields, Dec, HeaderFields, FilesFields, CoveredFile, FileFields;
    assert CanonicalIndex(a, algo)[24..] == Fields(IndexFields(a, algo));
    assert CanonicalIndex(b, algo)[24..] == Fields(IndexFields(b, algo));
    FieldsInjective(IndexFields(a, algo), IndexFields(b, algo));
    IndexFieldsInjective(a, b, algo);
  }

  /** And nothing else enters the form. */
  lemma CanonicalCoversNoMore(a: SessionIndex, b: SessionIndex, algo: string)
    requires Covered(a, algo) == Covered(b, algo)
    ensures CanonicalIndex(a, algo) == CanonicalIndex(b, algo)
  {
    var ca, cb := Covered(a, algo), Covered(b, algo);
    forall i | 0 <= i < |a.files|
      ensures CoveredFile(a.files[i], algo) == CoveredFile(b.files[i], algo)
    {
      assert ca.files[i] == cb.files[i];
    }
    FilesFieldsSame(a.files, b.files, algo);
    assert HeaderFields(a, algo) == HeaderFields(ca, algo);
    assert HeaderFields(b, algo) == HeaderFields(cb, algo);
  }

  lemma {:induction false} FilesFieldsSame(a: seq<FileMeta>, b: seq<FileMeta>, algo: string)
    requires |a| == |b|
    requires forall i :: 0 <= i < |a| ==> CoveredFile(a[i], algo) == CoveredFile(b[i], algo)
    ensures FilesFields(a, algo) == FilesFields(b, algo)
  {
    if a != [] {
      assert FileFields(a[0], algo) == FileFields(CoveredFile(a[0], algo), algo);
      assert FileFields(b[0], algo) == FileFields(CoveredFile(b[0], algo), algo);
      FilesFieldsSame(a[1..], b[1..], algo);
    }
  }

  lemma HeaderWidth(idx: SessionIndex, algo: string)
    ensures |HeaderFields(idx, algo)| == if algo == ALGO_CANON1 then 8 else 13
  {
  }

  lemma IndexFieldsInjective(a: SessionIndex, b: SessionIndex, algo: string)
    requires IndexFields(a, algo) == IndexFields(b, algo)
    requires a.jobConfig.Some? ==> Sized(JobFields(a.jobConfig.value))
    requires b.jobConfig.Some? ==> Sized(JobFields(b.jobConfig.value))
    ensures Covered(a, algo) == Covered(b, algo)
  {
    hide Dec, HeaderFields, FilesFields, CoveredFile, Sized, JobFields;
    HeaderWidth(a, algo);
    HeaderWidth(b, algo);
    var w := |HeaderFields(a, algo)|;
    var fa, fb := IndexFields(a, algo), IndexFields(b, algo);
    assert fa[..w] == HeaderFields(a, algo) && fb[..w] == HeaderFields(b, algo);
    assert fa[w] == Dec(|a.files|) && fb[w] == Dec(|b.files|);
    assert fa[w + 1..] == FilesFields(a.files, algo) && fb[w + 1..] == FilesFields(b.files, algo);
    DecInjective(|a.files|, |b.files|);
    FilesFieldsInjective(a.files, b.files, algo);
    HeaderIgnoresFiles(b, a.files, algo);
    HeaderFieldsInjective(a, b.(files := a.files), algo);
    assert Covered(b, algo).files == Covered(a, algo).files;
  }

  lemma HeaderIgnoresFiles(idx: SessionIndex, files: seq<FileMeta>, algo: string)
    ensures HeaderFields(idx.(files := files), algo) == HeaderFields(idx, algo)
  {
  }

  /** Forms of different rules never coincide. */
  lemma RulesNeverCoincide(a: SessionIndex, b: SessionIndex, algoA: string, algoB: string)
    requires KnownAlgo(algoA) && KnownAlgo(algoB) && algoA != algoB
    ensures CanonicalIndex(a, algoA) != CanonicalIndex(b, algoB)
  {
    hide Fields, IndexFields;
    assert CanonicalIndex(a, algoA)[22] == Prefix(algoA)[22];
    assert CanonicalIndex(b, algoB)[22] == Prefix(algoB)[22];
  }

  /** A sealed index always passes its own check. */
  lemma SealVerifies(sha: Digest, idx: SessionIndex)
    ensures VerifyIndexHash(sha, Seal(sha, idx))
  {
    hide CanonicalIndex;
    CanonicalIgnoresChecksum(idx, sha(CanonicalIndex(idx, ALGO_CANON3)), ALGO_CANON3);
  }

  lemma CanonicalIgnoresChecksum(idx: SessionIndex, sum: string, algo: string)
    ensures CanonicalIndex(idx.(hashAlgo := algo, indexSHA256 := sum), ALGO_CANON3) == CanonicalIndex(idx, ALGO_CANON3)
  {
  }

  /** If an index carrying the checksum of a sealed one passes the check under a known
      rule, it agrees with the sealed index on every covered field and was checked by the
      same rule; anything else gives the digest two different forms with one sum. */
  lemma TamperingIsACollision(sha: Digest, idx: SessionIndex, other: SessionIndex)
    requires SizedIndex(idx, ALGO_CANON3) && SizedIndex(other, ALGO_CANON3)
    requires other.indexSHA256 == Seal(sha, idx).indexSHA256 != ""
    requires KnownAlgo(other.hashAlgo) && VerifyIndexHash(sha, other)
    ensures var x, y := CanonicalIndex(idx, ALGO_CANON3), CanonicalIndex(other, other.hashAlgo);
      || (other.hashAlgo == ALGO_CANON3 && Covered(other, ALGO_CANON3) == Covered(idx, ALGO_CANON3))
      || (x != y && sha(x) == sha(y))
  {
    hide CanonicalIndex, Covered, SizedIndex;
    var x, y := CanonicalIndex(idx, ALGO_CANON3), CanonicalIndex(other, other.hashAlgo);
    assert sha(x) == sha(y);
    if x == y {
      if other.hashAlgo != ALGO_CANON3 {
        RulesNeverCoincide(idx, other, ALGO_CANON3, other.hashAlgo);
      }
      CanonicalInjective(idx, other, ALGO_CANON3);
    }
  }
}
