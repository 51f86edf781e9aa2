/** What is recovered from a document is what was written: every record decoded is the framing of itself, and a document
    accepted is its records in their framing, with nothing behind them but a torn tail. */
module Recovered {
  import opened Bytes
  import opened FrameStream
  import opened Frames
  import opened Journal
  import opened StoreState
  import opened StoreModel

  /** The fields of a sound header are those the record is framed with. */
  lemma HeaderIsWritten(digest: DigestFunction, bytes: seq<byte>, r: Record)
    requires |bytes| >= RECORD_HEADER && CheckHeader(digest, bytes) == Sound
    requires r.kind == Field(bytes, 6, 2) && r.generation == Field(bytes, 8, 4) && r.sequence == Field(bytes, 12, 8)
    requires |r.payload| == Field(bytes, 20, 4) && digest(r.payload) == bytes[24..56]
    ensures IsRecord(r) && RecordHeader(digest, r) == bytes[..RECORD_HEADER]
  {
    FieldsAreWritten(bytes);
    BodyIsJoined(digest, r, bytes);
    assert bytes[..RECORD_HEADER] == bytes[..CHECKED] + bytes[CHECKED..RECORD_HEADER];
  }

  lemma BodyIsJoined(digest: DigestFunction, r: Record, bytes: seq<byte>)
    requires |bytes| >= RECORD_HEADER
    requires LittleEndian(DURABLE_MAGIC, 4) == bytes[0..4] && LittleEndian(RECORD_VERSION, 2) == bytes[4..6]
    requires LittleEndian(r.kind, 2) == bytes[6..8] && LittleEndian(r.generation, 4) == bytes[8..12]
    requires LittleEndian(r.sequence, 8) == bytes[12..20] && LittleEndian(|r.payload|, 4) == bytes[20..24]
    requires digest(r.payload) == bytes[24..56] && RESERVED == bytes[56..CHECKED]
    ensures HeaderBody(digest, r) == bytes[..CHECKED]
  {
    PiecesJoin(bytes);
  }

  lemma PiecesJoin(bytes: seq<byte>)
    requires |bytes| >= CHECKED
    ensures bytes[..CHECKED] == bytes[0..4] + bytes[4..6] + bytes[6..8] + bytes[8..12] + bytes[12..20] + bytes[20..24]
                                + bytes[24..56] + bytes[56..CHECKED]
  {
    assert bytes[0..4] + bytes[4..6] == bytes[0..6];
    assert bytes[0..6] + bytes[6..8] == bytes[0..8];
    assert bytes[0..8] + bytes[8..12] == bytes[0..12];
    assert bytes[0..12] + bytes[12..20] == bytes[0..20];
    assert bytes[0..20] + bytes[20..24] == bytes[0..24];
    assert bytes[0..24] + bytes[24..56] == bytes[0..56];
    assert bytes[0..56] + bytes[56..CHECKED] == bytes[..CHECKED];
  }

  lemma FieldsAreWritten(bytes: seq<byte>)
    requires |bytes| >= 24
    ensures LittleEndian(Field(bytes, 0, 4), 4) == bytes[0..4] && LittleEndian(Field(bytes, 4, 2), 2) == bytes[4..6]
    ensures LittleEndian(Field(bytes, 6, 2), 2) == bytes[6..8]
    ensures LittleEndian(Field(bytes, 8, 4), 4) == bytes[8..12] && Fits(Field(bytes, 8, 4), 4)
    ensures LittleEndian(Field(bytes, 12, 8), 8) == bytes[12..20] && Fits(Field(bytes, 12, 8), 8)
    ensures LittleEndian(Field(bytes, 20, 4), 4) == bytes[20..24]
  {
    WritesBack(bytes[0..4]);
    WritesBack(bytes[4..6]);
    WritesBack(bytes[6..8]);
    WritesBack(bytes[8..12]);
    WritesBack(bytes[12..20]);
    WritesBack(bytes[20..24]);
  }

  /** A record is decoded from exactly the bytes it is framed as, whatever stands behind them. */
  lemma DecodedIsFramed(digest: DigestFunction, bytes: seq<byte>, r: Record, size: nat)
    ensures DecodeRecord(digest, bytes) == Got(r, size) <==>
            IsRecord(r) && size == |FrameRecord(digest, r)| <= |bytes| && bytes[..size] == FrameRecord(digest, r)
  {
    if DecodeRecord(digest, bytes) == Got(r, size) {
      assert r.payload == bytes[RECORD_HEADER..size];
      HeaderIsWritten(digest, bytes, r);
      assert bytes[..size] == bytes[..RECORD_HEADER] + bytes[RECORD_HEADER..size];
    }
    if IsRecord(r) && size == |FrameRecord(digest, r)| <= |bytes| && bytes[..size] == FrameRecord(digest, r) {
      WholeRecord(digest, r, bytes[size..]);
      assert bytes == FrameRecord(digest, r) + bytes[size..];
    }
  }

  /** Whatever is scanned, the records found are framed in front of what is left over. */
  lemma {:induction false} ScannedIsFramed(digest: DigestFunction, bytes: seq<byte>)
    ensures var s := Scanned(digest, bytes);
            && AreRecords(s.frames) && bytes == FrameAll(digest, s.frames) + s.rest
            && (s.end == Open <==> DecodeRecord(digest, s.rest) == NeedMore)
            && !DecodeRecord(digest, s.rest).Got?
    decreases |bytes|
  {
    var seen := DecodeRecord(digest, bytes);
    assert RecordLook(digest)(bytes) == seen;
    if seen.Got? {
      DecodedIsFramed(digest, bytes, seen.frame, seen.size);
      ScannedIsFramed(digest, bytes[seen.size..]);
      FramedInFront(digest, bytes, seen.frame, seen.size, Scanned(digest, bytes[seen.size..]));
    } else {
      assert FrameAll(digest, []) + bytes == bytes;
    }
  }

  lemma FramedInFront(digest: DigestFunction, bytes: seq<byte>, r: Record, size: nat, later: Stream<Record, Damage>)
    requires IsRecord(r) && size <= |bytes| && bytes[..size] == FrameRecord(digest, r)
    requires AreRecords(later.frames) && bytes[size..] == FrameAll(digest, later.frames) + later.rest
    ensures AreRecords([r] + later.frames) && bytes == FrameAll(digest, [r] + later.frames) + later.rest
  {
    assert ([r] + later.frames)[1..] == later.frames;
    assert bytes == bytes[..size] + bytes[size..];
  }

  /** A document is its records in their framing with a torn tail behind them. */
  ghost predicate IsFramed(digest: DigestFunction, bytes: seq<byte>, rs: seq<Record>, torn: seq<byte>) {
    AreRecords(rs) && bytes == FrameAll(digest, rs) + torn && DecodeRecord(digest, torn) == NeedMore
  }

  /** A scan ends without damage exactly on a document that is records with a torn tail, and it finds just those. */
  lemma ScanDecides(digest: DigestFunction, bytes: seq<byte>, rs: seq<Record>, torn: seq<byte>)
    ensures Scanned(digest, bytes) == Stream(rs, torn, Open) <==> IsFramed(digest, bytes, rs, torn)
  {
    ScannedIsFramed(digest, bytes);
    if IsFramed(digest, bytes, rs, torn) {
      ScanOfTorn(digest, rs, torn);
    }
  }

  /** The document a scan accepts: records in order, no more than `most`, and a torn tail. */
  ghost predicate IsAccepted(digest: DigestFunction, most: nat, bytes: seq<byte>, rs: seq<Record>, good: nat) {
    && good <= |bytes| && IsFramed(digest, bytes, rs, bytes[good..]) && bytes[..good] == FrameAll(digest, rs)
    && IsOrderly(rs) && |rs| <= most
  }

  lemma AcceptedIsScanned(digest: DigestFunction, most: nat, bytes: seq<byte>, rs: seq<Record>, good: nat)
    ensures IsAccepted(digest, most, bytes, rs, good) <==>
            && good <= |bytes| && Scanned(digest, bytes) == Stream(rs, bytes[good..], Open)
            && IsOrderly(rs) && |rs| <= most
  {
    if good <= |bytes| {
      ScanDecides(digest, bytes, rs, bytes[good..]);
      if IsFramed(digest, bytes, rs, bytes[good..]) {
        assert |bytes| == |FrameAll(digest, rs)| + |bytes[good..]|;
        assert bytes[..good] == FrameAll(digest, rs);
      }
    }
  }

  /** A document is accepted exactly when there are such records, and what the scan finds are those. */
  lemma AcceptedDecides(digest: DigestFunction, most: nat, bytes: seq<byte>)
    ensures var s := Scanned(digest, bytes);
            && (s.end == Open && IsOrderly(s.frames) && |s.frames| <= most <==>
                exists rs, good :: IsAccepted(digest, most, bytes, rs, good))
            && (s.end == Open && IsOrderly(s.frames) && |s.frames| <= most ==>
                |s.rest| <= |bytes| && IsAccepted(digest, most, bytes, s.frames, |bytes| - |s.rest|))
  {
    var s := Scanned(digest, bytes);
    ScannedIsFramed(digest, bytes);
    if s.end == Open && IsOrderly(s.frames) && |s.frames| <= most {
      var good := |bytes| - |s.rest|;
      assert bytes[good..] == s.rest;
      AcceptedIsScanned(digest, most, bytes, s.frames, good);
    }
    if rs, good :| IsAccepted(digest, most, bytes, rs, good) {
      AcceptedIsScanned(digest, most, bytes, rs, good);
    }
  }

  // ----- Reading and opening -----

  /** The document is these records in order with a torn tail, and they can be replayed. */
  ghost predicate IsReadAs(env: Env, bytes: seq<byte>, rs: seq<Record>, good: nat) {
    IsAccepted(env.digest, env.limits.maxJournalRecords, bytes, rs, good) && ReplayAll(env, rs).Some?
  }

  ghost predicate IsReadable(env: Env, bytes: seq<byte>) {
    exists rs, good :: IsReadAs(env, bytes, rs, good)
  }

  lemma ReadAsIsRead(env: Env, bytes: seq<byte>, rs: seq<Record>, good: nat)
    requires IsReadAs(env, bytes, rs, good)
    ensures ReadDocument(env, bytes) == Read(ReplayAll(env, rs).value, rs, good)
  {
    AcceptedIsScanned(env.digest, env.limits.maxJournalRecords, bytes, rs, good);
  }

  lemma ReadIsReadAs(env: Env, bytes: seq<byte>)
    requires ReadDocument(env, bytes).Read?
    ensures var r := ReadDocument(env, bytes);
            IsReadAs(env, bytes, r.records, r.good) && r.state == ReplayAll(env, r.records).value
  {
    AcceptedDecides(env.digest, env.limits.maxJournalRecords, bytes);
  }

  /** A document is read exactly when it is records in order that can be replayed, with a torn tail, and what is read of
      it is those records and what replaying them gives. */
  lemma ReadDecides(env: Env, bytes: seq<byte>)
    ensures var r := ReadDocument(env, bytes);
            && (r.Read? <==> IsReadable(env, bytes))
            && (r.Read? ==> IsReadAs(env, bytes, r.records, r.good) && r.state == ReplayAll(env, r.records).value)
  {
    if ReadDocument(env, bytes).Read? {
      ReadIsReadAs(env, bytes);
    }
    if rs, good :| IsReadAs(env, bytes, rs, good) {
      ReadAsIsRead(env, bytes, rs, good);
    }
  }

  /** Only a readable document is opened. */
  lemma OpenedIsRead(env: Env, bytes: seq<byte>, producer: nat, now: nat)
    ensures OpenDocument(env, bytes, producer, now).Opened? ==> IsReadable(env, bytes)
  {
    ReadDecides(env, bytes);
  }

  /** What a store opened from a document holds: nothing but a new boot where there was no record; otherwise what
      replaying its records gives, with the new boot recorded. */
  lemma OpenedHolds(env: Env, bytes: seq<byte>, producer: nat, now: nat, rs: seq<Record>, good: nat)
    requires IsReadAs(env, bytes, rs, good) && OpenDocument(env, bytes, producer, now).Opened?
    ensures var o := OpenDocument(env, bytes, producer, now);
            if rs == [] then o.store.state.findings == [] && o.store.state.bootLedger == [o.boot]
            else SameButGeneration(o.store.state, Mutated(env.limits, ReplayAll(env, rs).value, AdvanceBoot(o.boot)))
  {
    ReadAsIsRead(env, bytes, rs, good);
    if rs != [] {
      var state := ReplayAll(env, rs).value;
      MutationMutates(env, Store(state, bytes[..good], |rs| + 1, good, |rs|),
                      AdvanceBoot(Minted(state, producer, now).value));
    }
  }

  lemma MutationMutates(env: Env, v: Store, d: Delta)
    requires Mutation(env, v, d).ok
    ensures SameButGeneration(Mutation(env, v, d).store.state, Mutated(env.limits, v.state, d))
  {
    var w := if NeedsCompaction(env, v) then Compacted(env, v).store else v;
    SameAfterCompaction(env.limits, w.state, v.state, d);
  }
}
