/** Which tails of a document are taken for a torn record: every one that is a record cut short, and some that are
    not. */
module TornTails {
  import opened Bytes
  import opened FrameStream
  import opened Frames
  import opened Journal

  /** The fields in front of the digests of a header. */
  const FRONT: nat := 24

  /** The beginning of some well-formed record, cut before its end. */
  ghost predicate IsCut(digest: DigestFunction, tail: seq<byte>) {
    exists r :: IsRecord(r) && |tail| < |FrameRecord(digest, r)| && FrameRecord(digest, r)[..|tail|] == tail
  }

  function Zeros(n: nat): (r: seq<byte>)
    ensures |r| == n
  {
    seq(n, _ => 0)
  }

  /** The front of the smallest header. */
  function Blank(): (r: seq<byte>)
    ensures |r| == FRONT
  {
    LittleEndian(DURABLE_MAGIC, 4) + LittleEndian(RECORD_VERSION, 2) + Zeros(2) + Zeros(4) + Zeros(7) + [1] + Zeros(4)
  }

  /** The least there can be behind a short tail. */
  function Filled(tail: seq<byte>): (r: seq<byte>)
    requires |tail| <= FRONT
    ensures |r| == FRONT
  {
    tail + Blank()[|tail|..]
  }

  /** The fields of a front are those of a record. */
  predicate FrontFits(front: seq<byte>)
    requires |front| == FRONT
  {
    && Field(front, 0, 4) == DURABLE_MAGIC && Field(front, 4, 2) == RECORD_VERSION && Field(front, 6, 2) < RECORD_TYPES
    && Field(front, 12, 8) != 0 && Field(front, 20, 4) <= RECORD_PAYLOAD
  }

  function FrontOf(r: Record): (front: seq<byte>)
    ensures |front| == FRONT
  {
    LittleEndian(DURABLE_MAGIC, 4) + LittleEndian(RECORD_VERSION, 2) + LittleEndian(r.kind, 2)
      + LittleEndian(r.generation, 4)
    + LittleEndian(r.sequence, 8) + LittleEndian(|r.payload|, 4)
  }

  lemma FrontIsFirst(digest: DigestFunction, r: Record)
    ensures |FrameRecord(digest, r)| > FRONT && FrameRecord(digest, r)[..FRONT] == FrontOf(r)
  {
    assert FrameRecord(digest, r)[..FRONT] == HeaderBody(digest, r)[..FRONT];
  }

  // ----- A front that fits begins a record -----

  function RecordFor(front: seq<byte>): Record
    requires |front| == FRONT
  {
    Record(Field(front, 6, 2), Field(front, 8, 4), Field(front, 12, 8), Zeros(Field(front, 20, 4)))
  }

  lemma FrontIsWritten(front: seq<byte>)
    requires |front| == FRONT && FrontFits(front)
    ensures IsRecord(RecordFor(front)) && FrontOf(RecordFor(front)) == front
  {
    WritesBack(front[0..4]);
    WritesBack(front[4..6]);
    WritesBack(front[6..8]);
    WritesBack(front[8..12]);
    WritesBack(front[12..20]);
    WritesBack(front[20..24]);
    assert front == front[0..4] + front[4..6] + front[6..8] + front[8..12] + front[12..20] + front[20..24];
  }

  lemma FittingIsCut(digest: DigestFunction, tail: seq<byte>)
    requires |tail| <= FRONT && FrontFits(Filled(tail))
    ensures IsCut(digest, tail)
  {
    var r := RecordFor(Filled(tail));
    FrontIsWritten(Filled(tail));
    FrontIsFirst(digest, r);
    assert FrameRecord(digest, r)[..|tail|] == FrameRecord(digest, r)[..FRONT][..|tail|];
    assert Filled(tail)[..|tail|] == tail;
  }

  // ----- The beginning of a record fits -----

  lemma {:induction false} ZerosAreLeast(s: seq<byte>, k: nat)
    requires k <= |s|
    ensures ValueOf(s[..k] + Zeros(|s| - k)) <= ValueOf(s)
    decreases |s|
  {
    if s != [] {
      var filled := s[..k] + Zeros(|s| - k);
      if k == 0 {
        assert filled[1..] == s[1..][..0] + Zeros(|s| - 1);
        ZerosAreLeast(s[1..], 0);
      } else {
        assert filled[1..] == s[1..][..k - 1] + Zeros(|s| - k);
        ZerosAreLeast(s[1..], k - 1);
      }
    }
  }

  lemma {:induction false} SomeByte(s: seq<byte>, i: nat)
    requires i < |s| && s[i] != 0
    ensures ValueOf(s) != 0
  {
    if i > 0 {
      SomeByte(s[1..], i - 1);
    }
  }

  /** A field that is cut is filled up with zeros. */
  lemma FieldFilled(front: seq<byte>, n: nat, at: nat, size: nat)
    requires |front| == FRONT && n <= FRONT && at + size <= FRONT && Blank()[at..at + size] == Zeros(size)
    ensures Field(Filled(front[..n]), at, size) <= Field(front, at, size)
  {
    var s, filled := front[at..at + size], Filled(front[..n])[at..at + size];
    var k := if n < at then 0 else if n < at + size then n - at else size;
    forall i | 0 <= i < size
      ensures filled[i] == (s[..k] + Zeros(size - k))[i]
    {
      assert Blank()[at + i] == Blank()[at..at + size][i];
    }
    assert filled == s[..k] + Zeros(size - k);
    ZerosAreLeast(s, k);
  }

  lemma FrontIsRead(r: Record)
    requires IsRecord(r)
    ensures FrontFits(FrontOf(r))
    ensures FrontOf(r)[0..6] == Blank()[0..6]
  {
    var front := FrontOf(r);
    assert front[0..4] == LittleEndian(DURABLE_MAGIC, 4) && front[4..6] == LittleEndian(RECORD_VERSION, 2);
    assert front[6..8] == LittleEndian(r.kind, 2) && front[12..20] == LittleEndian(r.sequence, 8);
    assert front[20..24] == LittleEndian(|r.payload|, 4);
    ReadsBack(DURABLE_MAGIC, 4);
    ReadsBack(RECORD_VERSION, 2);
    ReadsBack(r.kind, 2);
    ReadsBack(r.sequence, 8);
    ReadsBack(|r.payload|, 4);
  }

  lemma SequenceFilled(front: seq<byte>, n: nat)
    requires |front| == FRONT && n <= FRONT && Field(front, 12, 8) != 0
    ensures Field(Filled(front[..n]), 12, 8) != 0
  {
    var filled := Filled(front[..n]);
    if n < 20 {
      assert filled[19] == Blank()[19] == 1;
      SomeByte(filled[12..20], 7);
    } else {
      assert filled[12..20] == front[12..20];
    }
  }

  lemma CutIsFitting(digest: DigestFunction, tail: seq<byte>, r: Record)
    requires |tail| <= FRONT && IsRecord(r) && FrameRecord(digest, r)[..|tail|] == tail
    ensures FrontFits(Filled(tail))
  {
    var front, n := FrontOf(r), |tail|;
    FrontIsFirst(digest, r);
    FrontIsRead(r);
    assert tail == front[..n];
    var filled := Filled(tail);
    assert filled[0..6] == front[0..6];
    assert filled[0..4] == filled[0..6][0..4] && front[0..4] == front[0..6][0..4];
    assert filled[4..6] == filled[0..6][4..6] && front[4..6] == front[0..6][4..6];
    assert Blank()[6..8] == Zeros(2) && Blank()[20..24] == Zeros(4);
    FieldFilled(front, n, 6, 2);
    SequenceFilled(front, n);
    FieldFilled(front, n, 20, 4);
  }

  // ----- Which tails are taken for torn records -----

  /** A tail that ends before the digests of its header is the beginning of a record exactly when its fields, with the
      least that can be behind them, are those of one. It is taken for torn when no more than its magic is right, or its
      first byte where it is shorter than that. */
  lemma ShortTail(digest: DigestFunction, tail: seq<byte>)
    requires 0 < |tail| <= FRONT
    ensures DecodeRecord(digest, tail) == NeedMore <==> BeginsHeader(tail)
    ensures IsCut(digest, tail) <==> FrontFits(Filled(tail))
    ensures IsCut(digest, tail) ==> BeginsHeader(tail)
  {
    if r :| IsRecord(r) && |tail| < |FrameRecord(digest, r)| && FrameRecord(digest, r)[..|tail|] == tail {
      CutIsFitting(digest, tail, r);
      CutRecord(digest, r, |tail|);
    }
    if FrontFits(Filled(tail)) {
      FittingIsCut(digest, tail);
    }
  }

  /** A tail that ends among the digests of its header is taken for torn when its magic is right. It is the beginning of
      a record exactly when its fields are those of one, and some payload of the length they say has that header. */
  lemma HeaderTail(digest: DigestFunction, tail: seq<byte>)
    requires FRONT < |tail| < RECORD_HEADER
    ensures DecodeRecord(digest, tail) == NeedMore <==> Field(tail, 0, 4) == DURABLE_MAGIC
    ensures IsCut(digest, tail) <==>
            && FrontFits(tail[..FRONT])
            && exists p :: |p| == Field(tail, 20, 4) && IsHeaderFor(digest, tail, p)
  {
    if r :| IsRecord(r) && |tail| < |FrameRecord(digest, r)| && FrameRecord(digest, r)[..|tail|] == tail {
      FrontIsFirst(digest, r);
      FrontIsRead(r);
      assert tail[..FRONT] == FrontOf(r);
      SameFront(r);
      assert tail[20..24] == tail[..FRONT][20..24];
      assert RecordFor(tail[..FRONT]).(payload := r.payload) == r;
      assert RecordHeader(digest, r)[..|tail|] == tail;
      assert IsHeaderFor(digest, tail, r.payload);
    }
    if FrontFits(tail[..FRONT]) {
      if p :| |p| == Field(tail, 20, 4) && IsHeaderFor(digest, tail, p) {
        var r := RecordFor(tail[..FRONT]).(payload := p);
        FrontIsWritten(tail[..FRONT]);
        assert tail[20..24] == tail[..FRONT][20..24];
        assert FrameRecord(digest, r)[..|tail|] == RecordHeader(digest, r)[..|tail|];
      }
    }
  }

  /** The tail begins the header that its own fields give a record with this payload. */
  ghost predicate IsHeaderFor(digest: DigestFunction, tail: seq<byte>, p: seq<byte>)
    requires FRONT < |tail| < RECORD_HEADER
  {
    RecordHeader(digest, RecordFor(tail[..FRONT]).(payload := p))[..|tail|] == tail
  }

  lemma SameFront(r: Record)
    requires IsRecord(r)
    ensures var o := RecordFor(FrontOf(r));
            o.kind == r.kind && o.generation == r.generation && o.sequence == r.sequence && |o.payload| == |r.payload|
  {
    var front := FrontOf(r);
    assert front[6..8] == LittleEndian(r.kind, 2) && front[8..12] == LittleEndian(r.generation, 4);
    assert front[12..20] == LittleEndian(r.sequence, 8) && front[20..24] == LittleEndian(|r.payload|, 4);
    ReadsBack(r.kind, 2);
    ReadsBack(r.generation, 4);
    ReadsBack(r.sequence, 8);
    ReadsBack(|r.payload|, 4);
  }

  /** Behind a sound header fewer bytes than it declares are taken for torn, whatever they are. They are the beginning
      of a record exactly when some payload of the length and digest in the header begins with them. */
  lemma PayloadTail(digest: DigestFunction, tail: seq<byte>)
    requires |tail| >= RECORD_HEADER && CheckHeader(digest, tail) == Sound
    ensures DecodeRecord(digest, tail) == NeedMore <==> |tail| < RECORD_HEADER + Field(tail, 20, 4)
    ensures |tail| < RECORD_HEADER + Field(tail, 20, 4) ==>
              (IsCut(digest, tail) <==> exists p :: BehindHeader(digest, tail, p))
  {
    if |tail| < RECORD_HEADER + Field(tail, 20, 4) {
      if r :| IsRecord(r) && |tail| < |FrameRecord(digest, r)| && FrameRecord(digest, r)[..|tail|] == tail {
        PayloadOfRecord(digest, tail, r);
      }
      if p :| BehindHeader(digest, tail, p) {
        RecordOfPayload(digest, tail, p);
      }
    }
  }

  /** A payload the header of the tail fits, and the tail begins. */
  ghost predicate BehindHeader(digest: DigestFunction, tail: seq<byte>, p: seq<byte>)
    requires |tail| >= RECORD_HEADER
  {
    && |p| == Field(tail, 20, 4) && digest(p) == tail[24..56] && |tail| - RECORD_HEADER <= |p|
    && p[..|tail| - RECORD_HEADER] == tail[RECORD_HEADER..]
  }

  lemma PayloadOfRecord(digest: DigestFunction, tail: seq<byte>, r: Record)
    requires |tail| >= RECORD_HEADER && IsRecord(r)
    requires |tail| < |FrameRecord(digest, r)| && FrameRecord(digest, r)[..|tail|] == tail
    ensures BehindHeader(digest, tail, r.payload)
  {
    var x := r.payload[..|tail| - RECORD_HEADER];
    HeaderIsSound(digest, r, x);
    assert tail == RecordHeader(digest, r) + x;
    assert tail[RECORD_HEADER..] == x;
  }

  lemma RecordOfPayload(digest: DigestFunction, tail: seq<byte>, p: seq<byte>)
    requires |tail| >= RECORD_HEADER && CheckHeader(digest, tail) == Sound
    requires |tail| < RECORD_HEADER + Field(tail, 20, 4) && BehindHeader(digest, tail, p)
    ensures IsCut(digest, tail)
  {
    var front := tail[..FRONT];
    var r := RecordFor(front).(payload := p);
    SameFields(tail);
    FrontIsWritten(front);
    assert FrontOf(r) == front;
    assert HeaderBody(digest, r) == front + tail[24..56] + tail[56..CHECKED] == tail[..CHECKED];
    assert RecordHeader(digest, r) == tail[..CHECKED] + tail[CHECKED..RECORD_HEADER] == tail[..RECORD_HEADER];
    assert tail == RecordHeader(digest, r) + p[..|tail| - RECORD_HEADER];
    assert FrameRecord(digest, r)[..|tail|] == tail;
  }

  lemma SameField(tail: seq<byte>, at: nat, n: nat)
    requires |tail| >= FRONT && at + n <= FRONT
    ensures Field(tail, at, n) == Field(tail[..FRONT], at, n)
  {
    var a, b := tail[at..at + n], tail[..FRONT][at..at + n];
    assert |a| == |b| && forall i :: 0 <= i < n ==> a[i] == b[i];
    assert a == b;
  }

  lemma SameFields(tail: seq<byte>)
    requires |tail| >= FRONT
    ensures forall at: nat, n: nat {:trigger Field(tail, at, n)} :: at + n <= FRONT ==>
            Field(tail, at, n) == Field(tail[..FRONT], at, n)
  {
    forall at: nat, n: nat | at + n <= FRONT
      ensures Field(tail, at, n) == Field(tail[..FRONT], at, n)
    {
      SameField(tail, at, n);
    }
  }

  /** Two bytes that begin no record, and are taken for a torn one. */
  lemma GarbageIsTorn(digest: DigestFunction)
    ensures DecodeRecord(digest, [0x4C, 0xFF]) == NeedMore && !IsCut(digest, [0x4C, 0xFF])
  {
    var tail: seq<byte> := [0x4C, 0xFF];
    ShortTail(digest, tail);
    assert Blank()[2..4] == LittleEndian(DURABLE_MAGIC, 4)[2..4];
    assert Filled(tail)[0..4][1] == 0xFF;
    WritesBack(Filled(tail)[0..4]);
    assert LittleEndian(DURABLE_MAGIC, 4)[1] == 0x52;
  }
}
