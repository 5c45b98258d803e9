/** A codec that meets the laws exists, whatever the digests are. Texts are lists of fields
    that say where they end; reading is choosing what was written. */
module CodecWitnesses {
  import opened Domain
  import opened TapeMachine
  import opened Canonical
  import opened TapeFormat

  // ----- Lists of fields as bytes -------------------------------------------------------

  function CharBytes(c: char): (r: seq<byte>)
    ensures |r| == 3
  {
    [(c as int / 65536) as byte, (c as int / 256 % 256) as byte, (c as int % 256) as byte]
  }

  function StringBytes(s: string): seq<byte> {
    if s == "" then [2] else [1] + CharBytes(s[0]) + StringBytes(s[1..])
  }

  function ListBytes(ss: seq<string>): seq<byte> {
    if ss == [] then [3] else [1] + StringBytes(ss[0]) + ListBytes(ss[1..])
  }

  lemma CharUnique(c: char, d: char)
    requires CharBytes(c) == CharBytes(d)
    ensures c == d
  {
    var a, b := CharBytes(c), CharBytes(d);
    assert a[0] == b[0] && a[1] == b[1] && a[2] == b[2];
  }

  // Bytes in front of more bytes.
  lemma FrontUnique<T>(a: seq<T>, b: seq<T>, x: seq<T>, y: seq<T>)
    requires |a| == |b| && a + x == b + y
    ensures a == b && x == y
  {
    assert a == (a + x)[..|a|] && b == (b + y)[..|a|];
    assert x == (a + x)[|a|..] && y == (b + y)[|a|..];
  }

  lemma {:induction false} StringUnique(s: string, t: string, x: seq<byte>, y: seq<byte>)
    requires StringBytes(s) + x == StringBytes(t) + y
    ensures s == t && x == y
  {
    hide CharBytes;
    var a, b := StringBytes(s) + x, StringBytes(t) + y;
    assert s != "" ==> a[0] == 1;
    assert t != "" ==> b[0] == 1;
    if s == "" {
      assert a[0] == 2;
      FrontUnique([2], [2], x, y);
    } else {
      var front, front' := [1] + CharBytes(s[0]), [1] + CharBytes(t[0]);
      assert a == front + (StringBytes(s[1..]) + x);
      assert b == front' + (StringBytes(t[1..]) + y);
      FrontUnique(front, front', StringBytes(s[1..]) + x, StringBytes(t[1..]) + y);
      FrontUnique([1], [1], CharBytes(s[0]), CharBytes(t[0]));
      CharUnique(s[0], t[0]);
      StringUnique(s[1..], t[1..], x, y);
      assert s == [s[0]] + s[1..] && t == [t[0]] + t[1..];
    }
  }

  /** A list of fields is read in one way only, whatever follows it. */
  lemma {:induction false} ListUnique(ss: seq<string>, tt: seq<string>, x: seq<byte>, y: seq<byte>)
    requires ListBytes(ss) + x == ListBytes(tt) + y
    ensures ss == tt && x == y
  {
    hide StringBytes;
    var a, b := ListBytes(ss) + x, ListBytes(tt) + y;
    assert ss != [] ==> a[0] == 1;
    assert tt != [] ==> b[0] == 1;
    if ss == [] {
      assert a[0] == 3;
      FrontUnique([3], [3], x, y);
    } else {
      var rest, rest' := ListBytes(ss[1..]) + x, ListBytes(tt[1..]) + y;
      assert a == [1] + (StringBytes(ss[0]) + rest);
      assert b == [1] + (StringBytes(tt[0]) + rest');
      FrontUnique([1], [1], StringBytes(ss[0]) + rest, StringBytes(tt[0]) + rest');
      StringUnique(ss[0], tt[0], rest, rest');
      ListUnique(ss[1..], tt[1..], x, y);
      assert ss == [ss[0]] + ss[1..] && tt == [tt[0]] + tt[1..];
    }
  }

  lemma {:induction false} ListEnds(ss: seq<string>)
    ensures ListBytes(ss) != [] && ListBytes(ss)[|ListBytes(ss)| - 1] == 3
  {
    if ss != [] {
      ListEnds(ss[1..]);
    }
  }

  // ----- Documents as lists of fields ---------------------------------------------------

  function JobPart(job: Option<Job>): seq<string> {
    match job
    case None => ["none"]
    case Some(j) => ["job"] + JobFields(j)
  }

  function HeadOf(idx: SessionIndex): (r: seq<string>)
    ensures |r| == 16
  {
    ["index", Dec(idx.formatVersion), Dec(idx.sessionNum), idx.typ, idx.jobRunID, Dec(idx.timestamp), idx.jobName,
     Dec(idx.part), idx.continues, idx.indexSHA256, idx.hashAlgo, idx.toolVersion, idx.configSource,
     Dec(idx.configMTime), idx.jobConfigHash, Dec(|JobPart(idx.jobConfig)|)]
  }

  function DocumentFields(d: Document): seq<string> {
    match d
    case LabelDoc(l) => ["label", l.magic, Dec(l.formatVersion), l.name, l.uuid, l.formattedAt]
    case IndexDoc(idx) =>
      HeadOf(idx) + (JobPart(idx.jobConfig) + ([Dec(|idx.files|)] + FilesFields(idx.files, ALGO_CANON3)))
    case ContinuationDoc(p) => ["pointer", p.jobRunID, Dec(p.sessionNum), Dec(p.part), p.nextTapeName]
    case OtherDoc => []
  }

  lemma JobPartUnique(a: Option<Job>, b: Option<Job>)
    requires JobPart(a) == JobPart(b)
    ensures a == b
  {
    hide JobFields;
    assert JobPart(a)[0] == JobPart(b)[0];
    if a.Some? && b.Some? {
      assert JobPart(a)[1..] == JobFields(a.value) && JobPart(b)[1..] == JobFields(b.value);
      JobFieldsInjective(a.value, b.value);
    }
  }

  lemma HeadUnique(a: SessionIndex, b: SessionIndex)
    requires HeadOf(a) == HeadOf(b)
    ensures |JobPart(a.jobConfig)| == |JobPart(b.jobConfig)|
    ensures a == b.(jobConfig := a.jobConfig, files := a.files)
  {
    hide Dec, JobPart;
    var x, y := HeadOf(a), HeadOf(b);
    assert x[1] == y[1] && x[2] == y[2] && x[3] == y[3] && x[4] == y[4] && x[5] == y[5];
    assert x[6] == y[6] && x[7] == y[7] && x[8] == y[8] && x[9] == y[9] && x[10] == y[10];
    assert x[11] == y[11] && x[12] == y[12] && x[13] == y[13] && x[14] == y[14] && x[15] == y[15];
    DecInjective(a.formatVersion, b.formatVersion);
    DecInjective(a.sessionNum, b.sessionNum);
    DecInjective(a.timestamp, b.timestamp);
    DecInjective(a.part, b.part);
    DecInjective(a.configMTime, b.configMTime);
    DecInjective(|JobPart(a.jobConfig)|, |JobPart(b.jobConfig)|);
  }

  lemma FilesUnique(a: seq<FileMeta>, b: seq<FileMeta>)
    requires [Dec(|a|)] + FilesFields(a, ALGO_CANON3) == [Dec(|b|)] + FilesFields(b, ALGO_CANON3)
    ensures a == b
  {
    hide FilesFields, Dec;
    FrontUnique([Dec(|a|)], [Dec(|b|)], FilesFields(a, ALGO_CANON3), FilesFields(b, ALGO_CANON3));
    assert [Dec(|a|)][0] == [Dec(|b|)][0];
    DecInjective(|a|, |b|);
    FilesFieldsInjective(a, b, ALGO_CANON3);
    forall i | 0 <= i < |a|
      ensures a[i] == b[i]
    {
      assert CoveredFile(a[i], ALGO_CANON3) == a[i] && CoveredFile(b[i], ALGO_CANON3) == b[i];
    }
  }

  lemma IndexUnique(a: SessionIndex, b: SessionIndex)
    requires DocumentFields(IndexDoc(a)) == DocumentFields(IndexDoc(b))
    ensures a == b
  {
    hide HeadOf, JobPart, FilesFields, Dec;
    var x := [Dec(|a.files|)] + FilesFields(a.files, ALGO_CANON3);
    var y := [Dec(|b.files|)] + FilesFields(b.files, ALGO_CANON3);
    FrontUnique(HeadOf(a), HeadOf(b), JobPart(a.jobConfig) + x, JobPart(b.jobConfig) + y);
    HeadUnique(a, b);
    FrontUnique(JobPart(a.jobConfig), JobPart(b.jobConfig), x, y);
    JobPartUnique(a.jobConfig, b.jobConfig);
    FilesUnique(a.files, b.files);
  }

  lemma DocumentUnique(d: Document, e: Document)
    requires !d.OtherDoc? && !e.OtherDoc? && DocumentFields(d) == DocumentFields(e)
    ensures d == e
  {
    hide FilesFields, JobPart, Dec;
    var a, b := DocumentFields(d), DocumentFields(e);
    assert a[0] == if d.LabelDoc? then "label" else if d.IndexDoc? then "index" else "pointer";
    assert b[0] == if e.LabelDoc? then "label" else if e.IndexDoc? then "index" else "pointer";
    match (d, e)
    case (LabelDoc(l), LabelDoc(m)) =>
      assert a[1] == b[1] && a[2] == b[2] && a[3] == b[3] && a[4] == b[4] && a[5] == b[5];
      DecInjective(l.formatVersion, m.formatVersion);
    case (IndexDoc(i), IndexDoc(j)) =>
      IndexUnique(i, j);
    case (ContinuationDoc(p), ContinuationDoc(q)) =>
      assert a[1] == b[1] && a[2] == b[2] && a[3] == b[3] && a[4] == b[4];
      DecInjective(p.sessionNum, q.sessionNum);
      DecInjective(p.part, q.part);
    case _ =>
  }

  // ----- Tar entries as lists of fields -------------------------------------------------

  function Chars(b: seq<byte>): (r: string)
    ensures |r| == |b| && forall i :: 0 <= i < |r| ==> r[i] == b[i] as char
  {
    seq(|b|, i requires 0 <= i < |b| => b[i] as char)
  }

  function EntryFields(e: TarEntry): (r: seq<string>)
    ensures |r| == 5
  {
    var kind := match e.kind
      case DirEntry => 0
      case RegEntry => 1
      case SymEntry => 2
      case LinkEntry => 3
      case OtherEntry => 4;
    [e.name, Dec(kind), Dec(e.size), e.linkname, Chars(e.content)]
  }

  function TarFields(es: seq<TarEntry>): seq<string> {
    if es == [] then [] else EntryFields(es[0]) + TarFields(es[1..])
  }

  lemma EntryUnique(d: TarEntry, e: TarEntry)
    requires EntryFields(d) == EntryFields(e)
    ensures d == e
  {
    hide Dec;
    var a, b := EntryFields(d), EntryFields(e);
    assert a[0] == b[0] && a[1] == b[1] && a[2] == b[2] && a[3] == b[3] && a[4] == b[4];
    DecInjective(d.size, e.size);
    KindUnique(d, e);
    forall i | 0 <= i < |d.content|
      ensures d.content[i] == e.content[i]
    {
      assert Chars(d.content)[i] == Chars(e.content)[i];
    }
  }

  lemma KindUnique(d: TarEntry, e: TarEntry)
    requires EntryFields(d)[1] == EntryFields(e)[1]
    ensures d.kind == e.kind
  {
    hide Dec;
    forall i, j | 0 <= i < 5 && 0 <= j < 5 && Dec(i) == Dec(j)
      ensures i == j
    {
      DecInjective(i, j);
    }
  }

  lemma {:induction false} TarUnique(a: seq<TarEntry>, b: seq<TarEntry>)
    requires TarFields(a) == TarFields(b)
    ensures a == b
  {
    hide EntryFields;
    if a == [] {
      assert b != [] ==> |TarFields(b)| >= 5;
    } else {
      assert |TarFields(a)| >= 5;
      FrontUnique(EntryFields(a[0]), EntryFields(b[0]), TarFields(a[1..]), TarFields(b[1..]));
      EntryUnique(a[0], b[0]);
      TarUnique(a[1..], b[1..]);
      assert a == [a[0]] + a[1..] && b == [b[0]] + b[1..];
    }
  }

  // ----- The codec ------------------------------------------------------------------------

  function Marshal(d: Document): seq<byte> { ListBytes(DocumentFields(d)) }

  ghost function Unmarshal(text: seq<byte>): Document {
    if d: Document :| !d.OtherDoc? && Marshal(d) == text then d else OtherDoc
  }

  function Pack(es: seq<TarEntry>): seq<byte> { ListBytes(TarFields(es)) }

  ghost predicate Packed(es: seq<TarEntry>, bytes: seq<byte>) {
    Pack(es) <= bytes
  }

  ghost function Unpack(bytes: seq<byte>): Option<seq<TarEntry>> {
    if es: seq<TarEntry> :| Packed(es, bytes) then Some(es) else None
  }

  lemma MarshalPrints(d: Document)
    requires !d.OtherDoc?
    ensures Marshal(d) != [] && Marshal(d)[|Marshal(d)| - 1] != 0 && Unmarshal(Marshal(d)) == d
  {
    hide ListBytes, DocumentFields;
    ListEnds(DocumentFields(d));
    var e := Unmarshal(Marshal(d));
    assert !e.OtherDoc? && Marshal(e) == Marshal(d);
    assert ListBytes(DocumentFields(d)) + [] == ListBytes(DocumentFields(e)) + [];
    ListUnique(DocumentFields(d), DocumentFields(e), [], []);
    DocumentUnique(d, e);
  }

  lemma PackReads(es: seq<TarEntry>, pad: seq<byte>)
    ensures Unpack(Pack(es) + pad) == Some(es)
  {
    hide ListBytes, TarFields;
    var bytes := Pack(es) + pad;
    assert Packed(es, bytes);
    var fs := Unpack(bytes).value;
    assert Packed(fs, bytes);
    var rest := bytes[|Pack(fs)|..];
    assert bytes == Pack(fs) + rest;
    ListUnique(TarFields(es), TarFields(fs), pad, rest);
    TarUnique(es, fs);
  }

  /** The laws can be met with any digests and any rule for times. */
  lemma LawfulExists(sha: string -> string, sha256: seq<byte> -> string, xxhash: seq<byte> -> string,
                     validTime: string -> bool)
    ensures exists c: Codec ::
      Lawful(c) && c.sha == sha && c.sha256 == sha256 && c.xxhash == xxhash && c.validTime == validTime
  {
    hide Marshal, Unmarshal, Pack, Unpack;
    var c := Codec(d => Marshal(d), text => Unmarshal(text), es => Pack(es), bytes => Unpack(bytes),
                   sha, sha256, xxhash, validTime);
    forall d: Document | !d.OtherDoc?
      ensures Prints(c, d)
    {
      MarshalPrints(d);
    }
    forall es, pad
      ensures c.untar(c.tar(es) + pad) == Some(es)
    {
      PackReads(es, pad);
    }
    forall es
      ensures c.tar(es) != []
    {
      PackIsSome(es);
    }
    assert Lawful(c);
  }

  lemma PackIsSome(es: seq<TarEntry>)
    ensures Pack(es) != []
  {
    ListEnds(TarFields(es));
  }
}
