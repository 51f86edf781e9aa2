/** The scan of a document, record by record. */
module DocumentScan {
  import opened Bytes
  import opened FrameStream
  import opened Frames
  import opened Journal
  import opened Recovered

  lemma RecordLookAdvances(look: seq<byte> -> Look<Record, Damage>, digest: DigestFunction)
    requires IsRecordLook(look, digest)
    ensures Advances(look) && forall bytes :: Parsed(look, bytes) == Scanned(digest, bytes)
  {
    forall bytes
      ensures AdvancesAt(look, bytes) && look(bytes) == RecordLook(digest)(bytes)
    {
      assert look(bytes) == DecodeRecord(digest, bytes);
    }
    forall bytes
      ensures Parsed(look, bytes) == Scanned(digest, bytes)
    {
      SameLook(look, RecordLook(digest), bytes);
    }
  }

  method DecodeRecordAs(digest: DigestFunction, bytes: seq<byte>, ghost look: seq<byte> -> Look<Record, Damage>)
    returns (seen: Look<Record, Damage>)
    requires IsRecordLook(look, digest)
    ensures seen == look(bytes)
  {
    seen := DecodeRecord(digest, bytes);
  }

  /** The next record continues the document. */
  predicate Continues(records: seq<Record>, r: Record) {
    if records == [] then r.kind == 0 && r.sequence == 1 && r.generation != 0
    else r.kind != 0 && r.generation == records[0].generation && r.sequence == |records| + 1
  }

  lemma OrderGoesOn(records: seq<Record>, r: Record, later: seq<Record>)
    requires IsOrderly(records)
    ensures Continues(records, r) ==> IsOrderly(records + [r])
    ensures !Continues(records, r) ==> !IsOrderly(records + [r] + later)
  {
    var all := records + [r] + later;
    assert all[|records|] == r && (records != [] ==> all[0] == records[0]);
  }

  ghost predicate IsDocument(most: nat, s: Stream<Record, Damage>) {
    s.end == Open && IsOrderly(s.frames) && |s.frames| <= most
  }

  /** The next record is behind those there are, and decides whether the document can still be accepted. */
  lemma OneMoreRecord(look: seq<byte> -> Look<Record, Damage>, most: nat, records: seq<Record>, rest: seq<byte>,
                      all: Stream<Record, Damage>)
    requires Advances(look) && look(rest).Got? && IsOrderly(records) && all == Behind(records, Parsed(look, rest))
    ensures var seen := look(rest);
            && 0 < seen.size <= |rest|
            && all == Behind(records + [seen.frame], Parsed(look, rest[seen.size..]))
            && (Continues(records, seen.frame) ==> IsOrderly(records + [seen.frame]))
            && (!Continues(records, seen.frame) || |records| + 1 > most ==> !IsDocument(most, all))
  {
    NextFrame(look, rest, records);
    OrderGoesOn(records, look(rest).frame, Parsed(look, rest[look(rest).size..]).frames);
  }

  /** The loop of the scan, in the terms of a stream parsed by looking at its front. */
  method ScanRecords(digest: DigestFunction, most: nat, bytes: seq<byte>,
                      ghost look: seq<byte> -> Look<Record, Damage>)
    returns (ok: bool, records: seq<Record>, good: nat)
    requires IsRecordLook(look, digest) && Advances(look)
    ensures ok <==> IsDocument(most, Parsed(look, bytes))
    ensures ok ==> records == Parsed(look, bytes).frames && good == |bytes| - |Parsed(look, bytes).rest| <= |bytes|
  {
    records, good := [], 0;
    ghost var all := Parsed(look, bytes);
    assert bytes[0..] == bytes;
    while good < |bytes|
      invariant good <= |bytes| && IsOrderly(records) && |records| <= most
      invariant all == Behind(records, Parsed(look, bytes[good..]))
    {
      var seen := DecodeRecordAs(digest, bytes[good..], look);
      if seen.NeedMore? {
        return true, records, good;
      }
      if seen.Refuse? {
        return false, records, good;
      }
      OneMoreRecord(look, most, records, bytes[good..], all);
      if !Continues(records, seen.frame) {
        return false, records, good;
      }
      assert bytes[good..][seen.size..] == bytes[good + seen.size..];
      records, good := records + [seen.frame], good + seen.size;
      if |records| > most {
        return false, records, good;
      }
    }
    EndOfDocument(digest, look, bytes[good..]);
    return true, records, good;
  }

  lemma EndOfDocument(digest: DigestFunction, look: seq<byte> -> Look<Record, Damage>, bytes: seq<byte>)
    requires IsRecordLook(look, digest) && bytes == []
    ensures Parsed(look, bytes) == Stream([], [], Open)
  {
    assert look(bytes) == DecodeRecord(digest, bytes);
  }

  /** Scans a document record by record; only a torn tail is forgiven. What is accepted are records in their framing,
      and a document that is refused is not such records with any torn tail. */
  method ScanDocument(digest: DigestFunction, most: nat, bytes: seq<byte>,
                      ghost look: seq<byte> -> Look<Record, Damage>)
    returns (ok: bool, records: seq<Record>, good: nat)
    requires IsRecordLook(look, digest) && Advances(look)
    ensures ok <==> IsDocument(most, Parsed(look, bytes))
    ensures ok ==> records == Parsed(look, bytes).frames && good == |bytes| - |Parsed(look, bytes).rest| <= |bytes|
    ensures ok ==> IsAccepted(digest, most, bytes, records, good)
    ensures ok <==> exists rs, n :: IsAccepted(digest, most, bytes, rs, n)
  {
    ok, records, good := ScanRecords(digest, most, bytes, look);
    RecordLookAdvances(look, digest);
    AcceptedDecides(digest, most, bytes);
  }
}
