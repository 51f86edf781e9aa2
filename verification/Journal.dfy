/** Journal records: their framing, and the scan that recovers them from a document cut anywhere. */
module Journal {
  import opened Bytes
  import opened FrameStream
  import opened Frames

  const DURABLE_MAGIC: nat := 0x3147524C
  const RECORD_VERSION: nat := 1
  const RECORD_HEADER: nat := 88
  const RECORD_PAYLOAD: nat := 0x40_0000
  const RECORD_TYPES: nat := 9
  const CHECKED: nat := 80

  datatype Record = Record(kind: nat, generation: nat, sequence: nat, payload: seq<byte>)

  /** What the header can carry and a reader accepts. */
  predicate IsRecord(r: Record) {
    && r.kind < RECORD_TYPES && Fits(r.generation, 4)
    && 1 <= r.sequence && Fits(r.sequence, 8) && |r.payload| <= RECORD_PAYLOAD
  }

  /** What the header can carry. */
  predicate HasHeader(r: Record) {
    r.kind < RECORD_TYPES && Fits(r.generation, 4) && 1 <= r.sequence && Fits(r.sequence, 8) && Fits(|r.payload|, 4)
  }

  const RESERVED: seq<byte> := LittleEndian(0, 24)

  /** The part of the header that its own digest covers. */
  function HeaderBody(digest: DigestFunction, r: Record): (h: seq<byte>)
    ensures |h| == CHECKED
  {
    LittleEndian(DURABLE_MAGIC, 4) + LittleEndian(RECORD_VERSION, 2) + LittleEndian(r.kind, 2)
      + LittleEndian(r.generation, 4)
    + LittleEndian(r.sequence, 8) + LittleEndian(|r.payload|, 4) + digest(r.payload) + RESERVED
  }

  function RecordHeader(digest: DigestFunction, r: Record): (h: seq<byte>)
    ensures |h| == RECORD_HEADER
  {
    HeaderBody(digest, r) + digest(HeaderBody(digest, r))[..8]
  }

  function FrameRecord(digest: DigestFunction, r: Record): (bytes: seq<byte>)
    ensures |bytes| == RECORD_HEADER + |r.payload|
  {
    RecordHeader(digest, r) + r.payload
  }

  // ----- Decoding one record -----

  datatype Damage =
    | TrailingGarbage | WrongMagic | WrongVersion | WrongType | NoSequence | TooLarge | NotReserved | HeaderDigest
    | PayloadDigest

  datatype HeaderCheck = Sound | Damaged(why: Damage)

  function CheckHeader(digest: DigestFunction, bytes: seq<byte>): HeaderCheck
    requires |bytes| >= RECORD_HEADER
  {
    if Field(bytes, 0, 4) != DURABLE_MAGIC then Damaged(WrongMagic)
    else if Field(bytes, 4, 2) != RECORD_VERSION then Damaged(WrongVersion)
    else if Field(bytes, 6, 2) >= RECORD_TYPES then Damaged(WrongType)
    else if Field(bytes, 12, 8) == 0 then Damaged(NoSequence)
    else if Field(bytes, 20, 4) > RECORD_PAYLOAD then Damaged(TooLarge)
    else if bytes[56..CHECKED] != RESERVED then Damaged(NotReserved)
    else if digest(bytes[..CHECKED])[..8] != bytes[CHECKED..RECORD_HEADER] then Damaged(HeaderDigest)
    else Sound
  }

  /** A short tail may be the beginning of a header. */
  predicate BeginsHeader(tail: seq<byte>)
    requires tail != []
  {
    if |tail| >= 4 then Field(tail, 0, 4) == DURABLE_MAGIC else tail[0] as nat == DURABLE_MAGIC % BYTE
  }

  /** What the scan makes of the bytes from its offset on; at the end of the document it needs no more. */
  function DecodeRecord(digest: DigestFunction, bytes: seq<byte>): Look<Record, Damage> {
    if bytes == [] then NeedMore
    else if |bytes| < RECORD_HEADER then
      if BeginsHeader(bytes) then NeedMore else Refuse(TrailingGarbage)
    else if CheckHeader(digest, bytes).Damaged? then Refuse(CheckHeader(digest, bytes).why)
    else
      var size := RECORD_HEADER + Field(bytes, 20, 4);
      if |bytes| < size then NeedMore
      else if digest(bytes[RECORD_HEADER..size]) != bytes[24..56] then Refuse(PayloadDigest)
      else Got(Record(Field(bytes, 6, 2), Field(bytes, 8, 4), Field(bytes, 12, 8), bytes[RECORD_HEADER..size]), size)
  }

  /** The records of a document, the torn tail behind them, and the damage that ended the scan. */
  ghost function Scanned(digest: DigestFunction, bytes: seq<byte>): Stream<Record, Damage> {
    Parsed(RecordLook(digest), bytes)
  }

  ghost function RecordLook(digest: DigestFunction): seq<byte> -> Look<Record, Damage> {
    bytes => DecodeRecord(digest, bytes)
  }

  ghost predicate IsRecordLook(look: seq<byte> -> Look<Record, Damage>, digest: DigestFunction) {
    forall bytes {:trigger DecodeRecord(digest, bytes)} :: look(bytes) == DecodeRecord(digest, bytes)
  }

  // ----- Records, whole and cut -----

  /** The header of a record, with anything behind it, is read as written. */
  lemma HeaderIsSound(digest: DigestFunction, r: Record, rest: seq<byte>)
    requires IsRecord(r)
    ensures var bytes := RecordHeader(digest, r) + rest;
            && CheckHeader(digest, bytes) == Sound
            && Field(bytes, 6, 2) == r.kind && Field(bytes, 8, 4) == r.generation && Field(bytes, 12, 8) == r.sequence
            && Field(bytes, 20, 4) == |r.payload| && bytes[24..56] == digest(r.payload)
  {
    var bytes := RecordHeader(digest, r) + rest;
    FieldsAreRead(digest, r, rest);
    assert bytes[24..56] == digest(r.payload) && bytes[56..CHECKED] == RESERVED;
    assert bytes[..CHECKED] == HeaderBody(digest, r);
    assert bytes[CHECKED..RECORD_HEADER] == digest(HeaderBody(digest, r))[..8];
  }

  lemma FieldsAreRead(digest: DigestFunction, r: Record, rest: seq<byte>)
    requires HasHeader(r)
    ensures var bytes := RecordHeader(digest, r) + rest;
            && Field(bytes, 0, 4) == DURABLE_MAGIC && Field(bytes, 4, 2) == RECORD_VERSION
            && Field(bytes, 6, 2) == r.kind && Field(bytes, 8, 4) == r.generation && Field(bytes, 12, 8) == r.sequence
            && Field(bytes, 20, 4) == |r.payload|
  {
    var bytes := RecordHeader(digest, r) + rest;
    assert bytes[0..4] == LittleEndian(DURABLE_MAGIC, 4);
    assert bytes[4..6] == LittleEndian(RECORD_VERSION, 2);
    assert bytes[6..8] == LittleEndian(r.kind, 2);
    assert bytes[8..12] == LittleEndian(r.generation, 4);
    assert bytes[12..20] == LittleEndian(r.sequence, 8);
    assert bytes[20..24] == LittleEndian(|r.payload|, 4);
    ReadsBack(DURABLE_MAGIC, 4);
    ReadsBack(RECORD_VERSION, 2);
    ReadsBack(r.kind, 2);
    ReadsBack(r.generation, 4);
    ReadsBack(r.sequence, 8);
    ReadsBack(|r.payload|, 4);
  }

  /** A whole record in front is decoded as written. */
  lemma WholeRecord(digest: DigestFunction, r: Record, rest: seq<byte>)
    requires IsRecord(r)
    ensures DecodeRecord(digest, FrameRecord(digest, r) + rest) == Got(r, RECORD_HEADER + |r.payload|)
  {
    var bytes := FrameRecord(digest, r) + rest;
    HeaderIsSound(digest, r, r.payload + rest);
    assert bytes == RecordHeader(digest, r) + (r.payload + rest);
    assert bytes[RECORD_HEADER..RECORD_HEADER + |r.payload|] == r.payload;
  }

  /** A record whose payload is over the ceiling is damage, though it was written. */
  lemma OversizedRecord(digest: DigestFunction, r: Record)
    requires HasHeader(r) && |r.payload| > RECORD_PAYLOAD
    ensures DecodeRecord(digest, FrameRecord(digest, r)) == Refuse(TooLarge)
  {
    FieldsAreRead(digest, r, r.payload);
  }

  lemma OversizedScanned(digest: DigestFunction, r: Record)
    requires HasHeader(r) && |r.payload| > RECORD_PAYLOAD
    ensures Scanned(digest, FrameRecord(digest, r)).end != Open
  {
    OversizedRecord(digest, r);
    assert RecordLook(digest)(FrameRecord(digest, r)) == DecodeRecord(digest, FrameRecord(digest, r));
  }

  /** A record cut short is a torn tail, wherever it is cut, and never damage. */
  lemma CutRecord(digest: DigestFunction, r: Record, cut: nat)
    requires IsRecord(r) && cut < RECORD_HEADER + |r.payload|
    ensures DecodeRecord(digest, FrameRecord(digest, r)[..cut]) == NeedMore
  {
    var bytes := FrameRecord(digest, r)[..cut];
    if 0 < cut < RECORD_HEADER {
      FieldsAreRead(digest, r, []);
      assert RecordHeader(digest, r) + [] == RecordHeader(digest, r);
      assert cut >= 4 ==> bytes[0..4] == RecordHeader(digest, r)[0..4];
      assert bytes[0] == LittleEndian(DURABLE_MAGIC, 4)[0];
    } else if cut >= RECORD_HEADER {
      HeaderIsSound(digest, r, r.payload[..cut - RECORD_HEADER]);
      assert bytes == RecordHeader(digest, r) + r.payload[..cut - RECORD_HEADER];
    }
  }

  function FrameAll(digest: DigestFunction, rs: seq<Record>): seq<byte> {
    if rs == [] then [] else FrameRecord(digest, rs[0]) + FrameAll(digest, rs[1..])
  }

  ghost predicate AreRecords(rs: seq<Record>) {
    forall i {:trigger rs[i]} :: 0 <= i < |rs| ==> IsRecord(rs[i])
  }

  /** One leading snapshot, then records of its generation, numbered on from it. */
  ghost predicate IsOrderly(rs: seq<Record>) {
    forall i {:trigger rs[i]} :: 0 <= i < |rs| ==>
      if i == 0 then rs[0].kind == 0 && rs[0].sequence == 1 && rs[0].generation != 0
      else rs[i].kind != 0 && rs[i].generation == rs[0].generation && rs[i].sequence == i + 1
  }

  /** Exactly the records that end at or before the cut. */
  ghost predicate EndBefore(digest: DigestFunction, rs: seq<Record>, cut: nat, n: nat) {
    n <= |rs| && |FrameAll(digest, rs[..n])| <= cut && (n < |rs| ==> cut < |FrameAll(digest, rs[..n + 1])|)
  }

  lemma FirstScanned(digest: DigestFunction, r: Record, rest: seq<byte>)
    requires IsRecord(r)
    ensures Scanned(digest, FrameRecord(digest, r) + rest)
         == Scanned(digest, rest).(frames := [r] + Scanned(digest, rest).frames)
  {
    WholeRecord(digest, r, rest);
    var bytes := FrameRecord(digest, r) + rest;
    assert RecordLook(digest)(bytes) == Got(r, RECORD_HEADER + |r.payload|);
    assert bytes[RECORD_HEADER + |r.payload|..] == rest;
  }

  /** The scan of a document cut at `cut` has found the first `n` records. */
  ghost predicate FindsPrefix(digest: DigestFunction, rs: seq<Record>, cut: nat, n: nat) {
    && EndBefore(digest, rs, cut, n) && cut <= |FrameAll(digest, rs)|
    && Scanned(digest, FrameAll(digest, rs)[..cut])
       == Stream(rs[..n], FrameAll(digest, rs)[|FrameAll(digest, rs[..n])|..cut], Open)
  }

  lemma CutInFirst(digest: DigestFunction, rs: seq<Record>, cut: nat)
    requires AreRecords(rs) && rs != [] && cut < |FrameRecord(digest, rs[0])|
    ensures FindsPrefix(digest, rs, cut, 0)
  {
    var first, later := FrameRecord(digest, rs[0]), FrameAll(digest, rs[1..]);
    CutRecord(digest, rs[0], cut);
    TornScanned(digest, first[..cut]);
    assert (first + later)[..cut] == first[..cut];
    assert rs[..0] == [] && rs[..1] == [rs[0]];
    assert FrameAll(digest, [rs[0]]) == first + FrameAll(digest, []);
  }

  lemma EndsBehindFirst(digest: DigestFunction, rs: seq<Record>, cut: nat, m: nat)
    requires rs != [] && cut >= |FrameRecord(digest, rs[0])|
    requires EndBefore(digest, rs[1..], cut - |FrameRecord(digest, rs[0])|, m)
    ensures EndBefore(digest, rs, cut, m + 1)
    ensures |FrameAll(digest, rs[..m + 1])| == |FrameRecord(digest, rs[0])| + |FrameAll(digest, rs[1..][..m])|
  {
    PrefixFramed(digest, rs, m + 1);
    if m + 1 < |rs| {
      PrefixFramed(digest, rs, m + 2);
    }
  }

  lemma CutBehindFirst(digest: DigestFunction, rs: seq<Record>, cut: nat, m: nat)
    requires AreRecords(rs) && rs != [] && cut >= |FrameRecord(digest, rs[0])|
    requires FindsPrefix(digest, rs[1..], cut - |FrameRecord(digest, rs[0])|, m)
    ensures FindsPrefix(digest, rs, cut, m + 1)
  {
    var first, later := FrameRecord(digest, rs[0]), FrameAll(digest, rs[1..]);
    EndsBehindFirst(digest, rs, cut, m);
    FirstScanned(digest, rs[0], later[..cut - |first|]);
    var done := |FrameAll(digest, rs[1..][..m])|;
    CutConcat(first, later, cut, done);
    assert rs[..m + 1] == [rs[0]] + rs[1..][..m];
  }

  lemma CutConcat(first: seq<byte>, later: seq<byte>, cut: nat, done: nat)
    requires |first| + done <= cut <= |first| + |later|
    ensures (first + later)[..cut] == first + later[..cut - |first|]
    ensures (first + later)[|first| + done..cut] == later[done..cut - |first|]
  {
  }

  /** A document of records cut anywhere yields the records wholly before the cut, keeps the rest as a torn tail, and
      is never found damaged. */
  lemma {:induction false} ScanOfCut(digest: DigestFunction, rs: seq<Record>, cut: nat) returns (n: nat)
    requires AreRecords(rs) && cut <= |FrameAll(digest, rs)|
    ensures FindsPrefix(digest, rs, cut, n)
    decreases |rs|
  {
    if rs == [] {
      n := 0;
      NothingScanned(digest);
      assert FrameAll(digest, rs)[..cut] == [] && rs[..0] == [];
    } else if cut < |FrameRecord(digest, rs[0])| {
      n := 0;
      CutInFirst(digest, rs, cut);
    } else {
      var m := ScanOfCut(digest, rs[1..], cut - |FrameRecord(digest, rs[0])|);
      n := m + 1;
      CutBehindFirst(digest, rs, cut, m);
    }
  }

  lemma PrefixFramed(digest: DigestFunction, rs: seq<Record>, n: nat)
    requires 0 < n <= |rs|
    ensures FrameAll(digest, rs[..n]) == FrameRecord(digest, rs[0]) + FrameAll(digest, rs[1..][..n - 1])
  {
    assert rs[..n][1..] == rs[1..][..n - 1];
  }

  lemma NothingScanned(digest: DigestFunction)
    ensures Scanned(digest, []) == Stream([], [], Open)
  {
    assert RecordLook(digest)([]) == DecodeRecord(digest, []);
  }

  lemma TornScanned(digest: DigestFunction, bytes: seq<byte>)
    requires DecodeRecord(digest, bytes) == NeedMore
    ensures Scanned(digest, bytes) == Stream([], bytes, Open)
  {
    assert RecordLook(digest)(bytes) == DecodeRecord(digest, bytes);
  }

  lemma ScanBehindFirst(digest: DigestFunction, rs: seq<Record>, later: seq<byte>, torn: seq<byte>)
    requires rs != [] && IsRecord(rs[0]) && Scanned(digest, later) == Stream(rs[1..], torn, Open)
    ensures Scanned(digest, FrameRecord(digest, rs[0]) + later) == Stream(rs, torn, Open)
  {
    FirstScanned(digest, rs[0], later);
    assert rs == [rs[0]] + rs[1..];
  }

  lemma FramedBehindFirst(digest: DigestFunction, rs: seq<Record>, torn: seq<byte>)
    requires rs != []
    ensures FrameAll(digest, rs) + torn == FrameRecord(digest, rs[0]) + (FrameAll(digest, rs[1..]) + torn)
  {
  }

  /** Records with one more torn behind them are scanned as the records. */
  lemma {:induction false} ScanOfTorn(digest: DigestFunction, rs: seq<Record>, torn: seq<byte>)
    requires AreRecords(rs) && DecodeRecord(digest, torn) == NeedMore
    ensures Scanned(digest, FrameAll(digest, rs) + torn) == Stream(rs, torn, Open)
    decreases |rs|
  {
    if rs == [] {
      TornScanned(digest, torn);
      assert FrameAll(digest, rs) + torn == torn;
    } else {
      ScanOfTorn(digest, rs[1..], torn);
      FramedBehindFirst(digest, rs, torn);
      ScanBehindFirst(digest, rs, FrameAll(digest, rs[1..]) + torn, torn);
    }
  }

  lemma {:induction false} FramedAppends(digest: DigestFunction, rs: seq<Record>, r: Record)
    ensures FrameAll(digest, rs + [r]) == FrameAll(digest, rs) + FrameRecord(digest, r)
    decreases |rs|
  {
    if rs == [] {
      assert rs + [r] == [r];
      assert FrameAll(digest, [r]) == FrameRecord(digest, r) + FrameAll(digest, []);
    } else {
      FramedAppends(digest, rs[1..], r);
      assert (rs + [r])[1..] == rs[1..] + [r];
    }
  }
}
