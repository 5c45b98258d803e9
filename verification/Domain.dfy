/** Values shared by every component: file metadata, sessions, labels, jobs, headers. */
module Domain {
  // internal/domain/tape.go: size of one tape block in bytes.
  const BLOCK_SIZE: nat := 262144

  const STATE_ADDED := "A"
  const STATE_MODIFIED := "M"
  const STATE_DELETED := "D"

  const TYPE_REGULAR := "reg"
  const TYPE_SYMLINK := "sym"
  const TYPE_HARDLINK := "lnk"

  const SESSION_FULL := "FULL"
  const SESSION_INC := "INC"

  datatype Option<+T> = None | Some(value: T)
  {
    function GetOr(default: T): T { if Some? then value else default }
  }

  // The empty type (old indexes) means a regular file.
  function NormalizedType(typ: string): string {
    if typ == "" then TYPE_REGULAR else typ
  }

  // One entry of a session index. State and type are the raw strings of the index.
  datatype FileMeta = FileMeta(
    path: string,
    size: int,
    modTime: int,
    isDir: bool,
    hash: string,
    sha256: string,
    state: string,
    typ: string,
    linkname: string)
  {
    predicate IsDeleted() { state == STATE_DELETED }

    predicate IsSymlink() { NormalizedType(typ) == TYPE_SYMLINK }

    predicate IsHardlink() { NormalizedType(typ) == TYPE_HARDLINK }
  }

  datatype Job = Job(
    name: string,
    description: string,
    mode: string,
    paths: seq<string>,
    exclude: seq<string>,
    spanDepth: int)

  // A catalogue row for one session; the row's key is kept by the catalogue.
  datatype Session = Session(
    tapeUUID: string,
    num: int,
    typ: string,
    timestamp: int,
    jobRunID: string,
    part: int)

  datatype TapeLabel = TapeLabel(
    magic: string,
    formatVersion: int,
    name: string,
    uuid: string,
    formattedAt: string)

  // The pointer block at the end of a cartridge whose chain goes on elsewhere.
  datatype Continuation = Continuation(
    jobRunID: string,
    sessionNum: int,
    part: int,
    nextTapeName: string)

  // The session index: header fields, configuration snapshot, checksum, files.
  datatype SessionIndex = SessionIndex(
    formatVersion: int,
    sessionNum: int,
    typ: string,
    jobRunID: string,
    timestamp: int,
    jobName: string,
    part: int,
    continues: string,
    indexSHA256: string,
    hashAlgo: string,
    toolVersion: string,
    configSource: string,
    configMTime: int,
    jobConfigHash: string,
    jobConfig: Option<Job>,
    files: seq<FileMeta>)

  /** The order of Go strings. */
  predicate Before(a: string, b: string) {
    b != "" && (a == "" || a[0] < b[0] || (a[0] == b[0] && Before(a[1..], b[1..])))
  }

  /** At the first place where two strings differ, the smaller letter decides; a string comes
      before what it begins. */
  lemma {:induction false} BeforeAt(front: string, a: string, b: string)
    requires a != "" && b != "" ==> a[0] != b[0]
    ensures Before(front + a, front + b) <==> b != "" && (a == "" || a[0] < b[0])
  {
    if front == "" {
      assert front + a == a && front + b == b;
    } else {
      assert (front + a)[1..] == front[1..] + a && (front + b)[1..] == front[1..] + b;
      BeforeAt(front[1..], a, b);
    }
  }

  lemma {:induction false} BeforeIsTotal(a: string, b: string)
    requires a != b
    ensures Before(a, b) || Before(b, a)
  {
    if a != "" && b != "" && a[0] == b[0] {
      assert a == [a[0]] + a[1..] && b == [b[0]] + b[1..];
      BeforeIsTotal(a[1..], b[1..]);
    }
  }

  lemma {:induction false} BeforeIsTransitive(a: string, b: string, c: string)
    requires Before(a, b) && Before(b, c)
    ensures Before(a, c)
  {
    if a != "" && a[0] == b[0] == c[0] {
      BeforeIsTransitive(a[1..], b[1..], c[1..]);
    }
  }

  lemma {:induction false} BeforeIsStrict(a: string)
    ensures !Before(a, a)
  {
    if a != "" {
      BeforeIsStrict(a[1..]);
    }
  }
}
