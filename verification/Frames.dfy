/** Wire frames: one frame encoded and decoded, and the incremental decoder of a stream of them. */
module Frames {
  import opened Bytes
  import opened FrameStream
  import Sha256

  ghost predicate GivesDigests(f: seq<byte> -> seq<byte>) {
    forall m {:trigger f(m)} :: |f(m)| == 32
  }

  const ZERO_DIGEST: seq<byte> := LittleEndian(0, 32)

  /** The integrity digest is whatever 32 bytes a function makes of the body. */
  type DigestFunction = f: seq<byte> -> seq<byte> | GivesDigests(f) witness m => ZERO_DIGEST

  /** SHA-256 is one. */
  lemma Sha256GivesDigests()
    ensures GivesDigests((m: seq<byte>) => Sha256.Hash(m))
  {
  }

  const WIRE_MAGIC: nat := 0x3147574C
  const WIRE_VERSION: nat := 1
  const HEADER: nat := 32
  const DIGEST: nat := 32
  const FRAME_PAYLOAD: nat := 0x10_0000
  const MESSAGE_TYPES: nat := 26

  /** A frame without flags: none are understood. */
  datatype Frame = Frame(kind: nat, session: nat, sequence: nat, payload: seq<byte>)

  predicate Fits(x: nat, n: nat) {
    x < Pow256(n)
  }

  /** What fits the fields of the header. */
  predicate IsFrame(f: Frame) {
    f.kind < MESSAGE_TYPES && Fits(f.session, 8) && Fits(f.sequence, 8) && |f.payload| <= FRAME_PAYLOAD
  }

  function Header(kind: nat, flags: nat, session: nat, sequence: nat, length: nat): (r: seq<byte>)
    ensures |r| == HEADER
  {
    LittleEndian(WIRE_MAGIC, 4) + LittleEndian(WIRE_VERSION, 2) + LittleEndian(kind, 2) + LittleEndian(flags, 4)
    + LittleEndian(session, 8) + LittleEndian(sequence, 8) + LittleEndian(length, 4)
  }

  /** The field of `n` bytes at offset `at`. */
  function Field(bytes: seq<byte>, at: nat, n: nat): nat
    requires at + n <= |bytes|
  {
    ValueOf(bytes[at..at + n])
  }

  datatype Encoded = Encoded(bytes: seq<byte>) | BadType | PayloadTooLong

  function EncodeFrame(digest: DigestFunction, kind: nat, session: nat, sequence: nat, payload: seq<byte>,
                       flags: nat): Encoded {
    if kind >= MESSAGE_TYPES then BadType
    else if |payload| > FRAME_PAYLOAD then PayloadTooLong
    else
      var body := Header(kind, flags, session, sequence, |payload|) + payload;
      Encoded(body + digest(body))
  }

  /** The bytes of a frame. */
  function BytesOf(digest: DigestFunction, f: Frame): (r: seq<byte>)
    ensures |r| == HEADER + |f.payload| + DIGEST
  {
    var body := Header(f.kind, 0, f.session, f.sequence, |f.payload|) + f.payload;
    body + digest(body)
  }

  // ----- Reading one frame -----

  datatype Fault =
    | NotMagic | NotVersion | NotType | NotFlags | TooLong | NotIntact   // the frame itself
    | Truncated | Trailing                                              // its length
    | FedAfterEnd

  datatype Verdict = Fine | Wrong(why: Fault)

  /** What is wrong with a header, before the payload is looked at. */
  function HeaderVerdict(bytes: seq<byte>): Verdict
    requires |bytes| >= HEADER
  {
    if Field(bytes, 0, 4) != WIRE_MAGIC then Wrong(NotMagic)
    else if Field(bytes, 4, 2) != WIRE_VERSION then Wrong(NotVersion)
    else if Field(bytes, 6, 2) >= MESSAGE_TYPES then Wrong(NotType)
    else if Field(bytes, 8, 4) != 0 then Wrong(NotFlags)
    else if Field(bytes, 28, 4) > FRAME_PAYLOAD then Wrong(TooLong)
    else Fine
  }

  datatype Decoded = Ok(frame: Frame) | Err(why: Fault)

  function FrameSize(bytes: seq<byte>): nat
    requires |bytes| >= HEADER
  {
    HEADER + Field(bytes, 28, 4) + DIGEST
  }

  /** Decodes exactly one frame, and nothing after it. */
  function DecodeFrame(digest: DigestFunction, bytes: seq<byte>): Decoded {
    if |bytes| < HEADER then Err(Truncated)
    else if HeaderVerdict(bytes).Wrong? then Err(HeaderVerdict(bytes).why)
    else if |bytes| < FrameSize(bytes) then Err(Truncated)
    else if |bytes| > FrameSize(bytes) then Err(Trailing)
    else
      var body := bytes[..|bytes| - DIGEST];
      if digest(body) != bytes[|bytes| - DIGEST..] then Err(NotIntact)
      else Ok(Frame(Field(bytes, 6, 2), Field(bytes, 12, 8), Field(bytes, 20, 8), body[HEADER..]))
  }

  // ----- One frame, there and back -----

  /** Every field of a header is read as written. */
  lemma HeaderReads(kind: nat, flags: nat, session: nat, sequence: nat, length: nat, rest: seq<byte>)
    requires Fits(kind, 2) && Fits(flags, 4) && Fits(session, 8) && Fits(sequence, 8) && Fits(length, 4)
    ensures var bytes := Header(kind, flags, session, sequence, length) + rest;
            && Field(bytes, 0, 4) == WIRE_MAGIC && Field(bytes, 4, 2) == WIRE_VERSION && Field(bytes, 6, 2) == kind
            && Field(bytes, 8, 4) == flags && Field(bytes, 12, 8) == session && Field(bytes, 20, 8) == sequence
            && Field(bytes, 28, 4) == length
  {
    var bytes := Header(kind, flags, session, sequence, length) + rest;
    assert bytes[0..4] == LittleEndian(WIRE_MAGIC, 4);
    assert bytes[4..6] == LittleEndian(WIRE_VERSION, 2);
    assert bytes[6..8] == LittleEndian(kind, 2);
    assert bytes[8..12] == LittleEndian(flags, 4);
    assert bytes[12..20] == LittleEndian(session, 8);
    assert bytes[20..28] == LittleEndian(sequence, 8);
    assert bytes[28..32] == LittleEndian(length, 4);
    ReadsBack(WIRE_MAGIC, 4);
    ReadsBack(WIRE_VERSION, 2);
    ReadsBack(kind, 2);
    ReadsBack(flags, 4);
    ReadsBack(session, 8);
    ReadsBack(sequence, 8);
    ReadsBack(length, 4);
  }

  /** A header is the one of the fields it is read as. */
  lemma HeaderWrites(bytes: seq<byte>)
    requires |bytes| >= HEADER && Field(bytes, 0, 4) == WIRE_MAGIC && Field(bytes, 4, 2) == WIRE_VERSION
    ensures bytes[..HEADER]
         == Header(Field(bytes, 6, 2), Field(bytes, 8, 4), Field(bytes, 12, 8), Field(bytes, 20, 8),
                   Field(bytes, 28, 4))
    ensures Fits(Field(bytes, 12, 8), 8) && Fits(Field(bytes, 20, 8), 8)
  {
    WritesBack(bytes[0..4]);
    WritesBack(bytes[4..6]);
    WritesBack(bytes[6..8]);
    WritesBack(bytes[8..12]);
    WritesBack(bytes[12..20]);
    WritesBack(bytes[20..28]);
    WritesBack(bytes[28..32]);
    assert bytes[..HEADER]
        == bytes[0..4] + bytes[4..6] + bytes[6..8] + bytes[8..12] + bytes[12..20] + bytes[20..28] + bytes[28..32];
  }

  lemma SmallFieldsFit(f: Frame)
    requires IsFrame(f)
    ensures Fits(f.kind, 2) && Fits(0, 4) && Fits(|f.payload|, 4)
  {
  }

  /** An encoded frame decodes to itself. */
  lemma DecodesBack(digest: DigestFunction, f: Frame)
    requires IsFrame(f)
    ensures DecodeFrame(digest, BytesOf(digest, f)) == Ok(f)
  {
    var header := Header(f.kind, 0, f.session, f.sequence, |f.payload|);
    var body := header + f.payload;
    var bytes := BytesOf(digest, f);
    SmallFieldsFit(f);
    HeaderReads(f.kind, 0, f.session, f.sequence, |f.payload|, f.payload + digest(body));
    assert bytes == header + (f.payload + digest(body));
    assert bytes[..|bytes| - DIGEST] == body && bytes[|bytes| - DIGEST..] == digest(body)
           && body[HEADER..] == f.payload;
  }

  /** Whatever decodes is the encoding of the frame it decodes to. */
  lemma EncodesBack(digest: DigestFunction, bytes: seq<byte>)
    requires DecodeFrame(digest, bytes).Ok?
    ensures IsFrame(DecodeFrame(digest, bytes).frame) && BytesOf(digest, DecodeFrame(digest, bytes).frame) == bytes
  {
    HeaderWrites(bytes);
    var body := bytes[..|bytes| - DIGEST];
    assert body == bytes[..HEADER] + body[HEADER..];
    assert bytes == body + bytes[|bytes| - DIGEST..];
  }

  /** Encoding takes any flags, but decoding takes the result back exactly when there are none. */
  lemma FlagsAreRefused(digest: DigestFunction, kind: nat, session: nat, sequence: nat, payload: seq<byte>, flags: nat)
    requires Fits(flags, 4) && Fits(session, 8) && Fits(sequence, 8)
    requires EncodeFrame(digest, kind, session, sequence, payload, flags).Encoded?
    ensures var bytes := EncodeFrame(digest, kind, session, sequence, payload, flags).bytes;
            DecodeFrame(digest, bytes) == if flags == 0 then Ok(Frame(kind, session, sequence, payload))
              else Err(NotFlags)
  {
    var f := Frame(kind, session, sequence, payload);
    SmallFieldsFit(f);
    if flags == 0 {
      DecodesBack(digest, f);
    } else {
      var body := Header(kind, flags, session, sequence, |payload|) + payload;
      HeaderReads(kind, flags, session, sequence, |payload|, payload + digest(body));
      assert body + digest(body) == Header(kind, flags, session, sequence, |payload|) + (payload + digest(body));
    }
  }

  // ----- A stream of frames -----

  /** What the decoder makes of the bytes it has. */
  function LookAt(digest: DigestFunction, bytes: seq<byte>): (r: Look<Frame, Fault>)
    ensures r.Got? ==> HEADER < r.size <= |bytes|
  {
    if |bytes| < HEADER then NeedMore
    else if HeaderVerdict(bytes).Wrong? then Refuse(HeaderVerdict(bytes).why)
    else if |bytes| < FrameSize(bytes) then NeedMore
    else
      var decoded := DecodeFrame(digest, bytes[..FrameSize(bytes)]);
      if decoded.Err? then Refuse(NotIntact) else Got(decoded.frame, FrameSize(bytes))
  }

  /** The bytes begin with the encoding of the frame. */
  ghost predicate BeginsWith(digest: DigestFunction, bytes: seq<byte>, f: Frame) {
    IsFrame(f) && |BytesOf(digest, f)| <= |bytes| && bytes[..|BytesOf(digest, f)|] == BytesOf(digest, f)
  }

  /** The header is one a frame can have. */
  predicate HeaderIsFine(bytes: seq<byte>)
    requires |bytes| >= HEADER
  {
    && Field(bytes, 0, 4) == WIRE_MAGIC && Field(bytes, 4, 2) == WIRE_VERSION && Field(bytes, 6, 2) < MESSAGE_TYPES
    && Field(bytes, 8, 4) == 0 && Field(bytes, 28, 4) <= FRAME_PAYLOAD
  }

  /** The first fault of a header no frame can have: its magic, its version, its type, its flags, or its length. */
  function FirstFault(bytes: seq<byte>): Fault
    requires |bytes| >= HEADER
  {
    if bytes[0..4] != LittleEndian(WIRE_MAGIC, 4) then NotMagic
    else if bytes[4..6] != LittleEndian(WIRE_VERSION, 2) then NotVersion
    else if Field(bytes, 6, 2) >= MESSAGE_TYPES then NotType
    else if bytes[8..12] != LittleEndian(0, 4) then NotFlags
    else TooLong
  }

  lemma FaultIsFirst(bytes: seq<byte>)
    requires |bytes| >= HEADER
    ensures HeaderVerdict(bytes) == if HeaderIsFine(bytes) then Fine else Wrong(FirstFault(bytes))
  {
    WritesBack(bytes[0..4]);
    WritesBack(bytes[4..6]);
    WritesBack(bytes[8..12]);
    ReadsBack(WIRE_MAGIC, 4);
    ReadsBack(WIRE_VERSION, 2);
    ReadsBack(0, 4);
  }

  /** What the decoder makes of bytes: it hands out exactly the frame they begin with; it waits as long as the header,
      or what it announces, is not there; it refuses a header no frame can have, for its first fault; and it refuses
      what is there in full and is no frame, which more bytes would not mend. */
  lemma LookDecides(digest: DigestFunction, bytes: seq<byte>)
    ensures var r := LookAt(digest, bytes);
            && (forall f :: r == Got(f, |BytesOf(digest, f)|) <==> BeginsWith(digest, bytes, f))
            && (r.Got? ==> r.size == |BytesOf(digest, r.frame)|)
            && (r.NeedMore? <==>
                || |bytes| < HEADER
                || (HeaderIsFine(bytes) && |bytes| < HEADER + Field(bytes, 28, 4) + DIGEST))
            && (|bytes| >= HEADER ==>
                  && (!HeaderIsFine(bytes) ==> r == Refuse(FirstFault(bytes)))
                  && (r == Refuse(NotIntact) <==>
                      && HeaderIsFine(bytes) && |bytes| >= HEADER + Field(bytes, 28, 4) + DIGEST
                      && forall f :: !BeginsWith(digest, bytes, f)))
  {
    forall f
      ensures LookAt(digest, bytes) == Got(f, |BytesOf(digest, f)|) <==> BeginsWith(digest, bytes, f)
    {
      FrontDecides(digest, bytes, f);
    }
    if LookAt(digest, bytes).Got? {
      EncodesBack(digest, bytes[..FrameSize(bytes)]);
    }
    if |bytes| >= HEADER {
      FaultIsFirst(bytes);
    }
  }

  lemma FrontDecides(digest: DigestFunction, bytes: seq<byte>, f: Frame)
    ensures LookAt(digest, bytes) == Got(f, |BytesOf(digest, f)|) <==> BeginsWith(digest, bytes, f)
  {
    if LookAt(digest, bytes) == Got(f, |BytesOf(digest, f)|) {
      EncodesBack(digest, bytes[..FrameSize(bytes)]);
    }
    if BeginsWith(digest, bytes, f) {
      FrontIsTaken(digest, bytes, f);
    }
  }

  lemma FrontIsTaken(digest: DigestFunction, bytes: seq<byte>, f: Frame)
    requires BeginsWith(digest, bytes, f)
    ensures LookAt(digest, bytes) == Got(f, |BytesOf(digest, f)|)
  {
    var rest := bytes[HEADER..];
    SmallFieldsFit(f);
    assert bytes[..HEADER] == BytesOf(digest, f)[..HEADER] == Header(f.kind, 0, f.session, f.sequence, |f.payload|);
    HeaderReads(f.kind, 0, f.session, f.sequence, |f.payload|, rest);
    assert bytes == Header(f.kind, 0, f.session, f.sequence, |f.payload|) + rest;
    DecodesBack(digest, f);
  }

  ghost function LookOf(digest: DigestFunction): seq<byte> -> Look<Frame, Fault> {
    bytes => LookAt(digest, bytes)
  }

  /** `look` is how the decoder looks at bytes. */
  ghost predicate IsLook(look: seq<byte> -> Look<Frame, Fault>, digest: DigestFunction) {
    forall bytes {:trigger LookAt(digest, bytes)} :: look(bytes) == LookAt(digest, bytes)
  }

  /** What a stream of bytes holds. */
  ghost function ParsedBy(digest: DigestFunction, bytes: seq<byte>): Stream<Frame, Fault> {
    Parsed(LookOf(digest), bytes)
  }

  /** More bytes do not change what was made of those before. */
  lemma MoreBytes(digest: DigestFunction, bytes: seq<byte>, more: seq<byte>)
    ensures !LookAt(digest, bytes).NeedMore? ==> LookAt(digest, bytes + more) == LookAt(digest, bytes)
  {
    if |bytes| >= HEADER {
      var all := bytes + more;
      assert all[0..4] == bytes[0..4] && all[4..6] == bytes[4..6] && all[6..8] == bytes[6..8]
             && all[8..12] == bytes[8..12];
      assert all[28..32] == bytes[28..32];
      assert FrameSize(bytes) <= |bytes| ==> all[..FrameSize(bytes)] == bytes[..FrameSize(bytes)];
    }
  }

  lemma LooksAreOne(look: seq<byte> -> Look<Frame, Fault>, digest: DigestFunction)
    requires IsLook(look, digest)
    ensures Advances(look) && IsStable(look)
    ensures forall bytes :: Parsed(look, bytes) == ParsedBy(digest, bytes)
  {
    forall bytes
      ensures AdvancesAt(look, bytes)
      ensures look(bytes) == LookOf(digest)(bytes)
    {
      assert look(bytes) == LookAt(digest, bytes);
    }
    forall a, b
      ensures StableAt(look, a, b)
    {
      MoreBytes(digest, a, b);
      assert look(a) == LookAt(digest, a) && look(a + b) == LookAt(digest, a + b);
    }
    forall bytes
      ensures Parsed(look, bytes) == ParsedBy(digest, bytes)
    {
      SameLook(look, LookOf(digest), bytes);
    }
  }

  function Concat(parts: seq<seq<byte>>): seq<byte> {
    if parts == [] then [] else Concat(parts[..|parts| - 1]) + parts[|parts| - 1]
  }

  function BytesOfAll(digest: DigestFunction, frames: seq<Frame>): seq<byte> {
    if frames == [] then [] else BytesOf(digest, frames[0]) + BytesOfAll(digest, frames[1..])
  }

  /** A stream of encoded frames is parsed as exactly those frames, and nothing is left. */
  lemma {:induction false} ParsesBack(digest: DigestFunction, frames: seq<Frame>)
    requires forall f :: f in frames ==> IsFrame(f)
    ensures ParsedBy(digest, BytesOfAll(digest, frames)) == Stream(frames, [], Open)
    decreases |frames|
  {
    if frames != [] {
      var bytes, later := BytesOf(digest, frames[0]), BytesOfAll(digest, frames[1..]);
      ParsesBack(digest, frames[1..]);
      FirstIsSeen(digest, frames[0], later);
      assert (bytes + later)[|bytes|..] == later;
      assert frames == [frames[0]] + frames[1..];
    }
  }

  lemma FirstIsSeen(digest: DigestFunction, f: Frame, later: seq<byte>)
    requires IsFrame(f)
    ensures LookAt(digest, BytesOf(digest, f) + later) == Got(f, |BytesOf(digest, f)|)
  {
    var bytes := BytesOf(digest, f);
    var body := Header(f.kind, 0, f.session, f.sequence, |f.payload|) + f.payload;
    SmallFieldsFit(f);
    HeaderReads(f.kind, 0, f.session, f.sequence, |f.payload|, f.payload + digest(body));
    assert bytes == Header(f.kind, 0, f.session, f.sequence, |f.payload|) + (f.payload + digest(body));
    DecodesBack(digest, f);
    assert bytes[..|bytes|] == bytes;
    MoreBytes(digest, bytes, later);
  }

  // ----- The incremental decoder -----

  class FrameDecoder {
    const digest: DigestFunction
    var buffer: seq<byte>
    var consumed: nat
    var failed: bool
    var failure: Fault
    var finished: bool
    /** How bytes are looked at, kept as a value: the stream does not depend on what a frame is. */
    ghost const look: seq<byte> -> Look<Frame, Fault>

    ghost predicate Valid()
      reads this`buffer, this`consumed
    {
      consumed <= |buffer| && IsLook(look, digest) && Advances(look)
    }

    /** The bytes not yet part of a frame handed out. */
    ghost function Pending(): seq<byte>
      reads this`buffer, this`consumed
    {
      if consumed <= |buffer| then buffer[consumed..] else []
    }

    ghost function Ending(): End<Fault>
      reads this`failed, this`failure
    {
      if failed then Broken(failure) else Open
    }

    constructor (digest: DigestFunction)
      ensures Valid() && this.digest == digest && Pending() == [] && !failed && !finished
    {
      this.digest := digest;
      buffer, consumed, failed, failure, finished := [], 0, false, Truncated, false;
      look := LookOf(digest);
      new;
      LooksAreOne(look, digest);
    }

    /** The first failure stays. */
    method Fail(why: Fault)
      modifies this`failed, this`failure
      ensures failed && failure == if old(failed) then old(failure) else why
    {
      if !failed {
        failed, failure := true, why;
      }
    }

    /** Hands out every whole frame of what is pending. */
    method Feed(bytes: seq<byte>) returns (ok: bool, out: seq<Frame>)
      requires Valid()
      modifies this
      ensures Valid() && finished == old(finished) && ok == !failed
      ensures old(failed) ==> out == [] && failed && failure == old(failure) && Pending() == old(Pending())
      ensures !old(failed) && finished ==> out == [] && failed && failure == FedAfterEnd && Pending() == old(Pending())
      ensures !old(failed) && !finished ==> Parsed(look, old(Pending()) + bytes) == Stream(out, Pending(), Ending())
    {
      if failed {
        return false, [];
      }
      if finished {
        Fail(FedAfterEnd);
        return false, [];
      }
      if consumed != 0 {
        buffer := buffer[consumed..];
        consumed := 0;
      }
      assert buffer == old(Pending());
      buffer := buffer + bytes;
      assert buffer[0..] == buffer;
      out := Drain();
      ok := !failed;
    }

    method LookAhead() returns (seen: Look<Frame, Fault>)
      requires Valid()
      ensures seen == look(Pending())
    {
      seen := LookAt(digest, buffer[consumed..]);
    }

    method Drain() returns (out: seq<Frame>)
      requires Valid() && !failed
      modifies this`consumed, this`failed, this`failure
      ensures Valid() && Parsed(look, old(Pending())) == Stream(out, Pending(), Ending())
    {
      out := [];
      ghost var all := Parsed(look, Pending());
      while true
        invariant Valid() && !failed
        invariant all == Behind(out, Parsed(look, Pending()))
        decreases |buffer| - consumed
      {
        var seen := LookAhead();
        if seen.NeedMore? {
          return;
        }
        if seen.Refuse? {
          Fail(seen.why);
          return;
        }
        NextFrame(look, Pending(), out);
        assert Pending()[seen.size..] == buffer[consumed + seen.size..];
        out := out + [seen.frame];
        consumed := consumed + seen.size;
      }
    }

    /** The stream may end exactly between frames. */
    method Finish() returns (ok: bool)
      requires Valid()
      modifies this`finished, this`failed, this`failure
      ensures Valid() && Pending() == old(Pending())
      ensures ok <==> !old(failed) && Pending() == []
      ensures ok == !failed && (old(failed) ==> failure == old(failure))
      ensures !old(failed) ==> finished && (failed ==> failure == Truncated)
    {
      if failed {
        return false;
      }
      finished := true;
      if |buffer| != consumed {
        Fail(Truncated);
        return false;
      }
      return true;
    }
  }

  /** Feeding a stream in any pieces hands out the frames of the whole stream, and fails as it does. */
  method FeedAll(digest: DigestFunction, parts: seq<seq<byte>>)
    returns (out: seq<Frame>, end: End<Fault>, finished: bool)
    ensures var s := ParsedBy(digest, Concat(parts));
            out == s.frames && end == s.end && (finished <==> s.end == Open && s.rest == [])
  {
    var decoder := new FrameDecoder(digest);
    out := [];
    ghost var look := decoder.look;
    LooksAreOne(look, digest);
    ghost var s := Parsed(look, []);
    for k := 0 to |parts|
      invariant fresh(decoder) && decoder.Valid() && decoder.look == look && !decoder.finished
      invariant s == Parsed(look, Concat(parts[..k]))
      invariant out == s.frames && s.end == decoder.Ending() && (s.end == Open ==> s.rest == decoder.Pending())
    {
      assert parts[..k + 1][..k] == parts[..k];
      CutsDoNotMatter(look, Concat(parts[..k]), parts[k]);
      var ok, more := decoder.Feed(parts[k]);
      out := out + more;
      s := Parsed(look, Concat(parts[..k + 1]));
    }
    assert parts[..|parts|] == parts;
    end := if decoder.failed then Broken(decoder.failure) else Open;
    finished := decoder.Finish();
  }
}
