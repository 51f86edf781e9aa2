/** Streaming SHA-256 against sections 5.1.1, 5.2.1 and 6.2 of FIPS 180-4. */
module Sha256 {
  import opened Bytes
  import opened BlockStream
  import opened WordFunctions

  datatype Words = Words(a: bv32, b: bv32, c: bv32, d: bv32, e: bv32, f: bv32, g: bv32, h: bv32)

  const INITIAL: Words :=
    Words(0x6A09E667, 0xBB67AE85, 0x3C6EF372, 0xA54FF53A, 0x510E527F, 0x9B05688C, 0x1F83D9AB, 0x5BE0CD19)

  const FIRST_CONSTANTS: seq<bv32> := [
    0x428A2F98, 0x71374491, 0xB5C0FBCF, 0xE9B5DBA5, 0x3956C25B, 0x59F111F1, 0x923F82A4, 0xAB1C5ED5,
    0xD807AA98, 0x12835B01, 0x243185BE, 0x550C7DC3, 0x72BE5D74, 0x80DEB1FE, 0x9BDC06A7, 0xC19BF174]

  const SECOND_CONSTANTS: seq<bv32> := [
    0xE49B69C1, 0xEFBE4786, 0x0FC19DC6, 0x240CA1CC, 0x2DE92C6F, 0x4A7484AA, 0x5CB0A9DC, 0x76F988DA,
    0x983E5152, 0xA831C66D, 0xB00327C8, 0xBF597FC7, 0xC6E00BF3, 0xD5A79147, 0x06CA6351, 0x14292967]

  const THIRD_CONSTANTS: seq<bv32> := [
    0x27B70A85, 0x2E1B2138, 0x4D2C6DFC, 0x53380D13, 0x650A7354, 0x766A0ABB, 0x81C2C92E, 0x92722C85,
    0xA2BFE8A1, 0xA81A664B, 0xC24B8B70, 0xC76C51A3, 0xD192E819, 0xD6990624, 0xF40E3585, 0x106AA070]

  const FOURTH_CONSTANTS: seq<bv32> := [
    0x19A4C116, 0x1E376C08, 0x2748774C, 0x34B0BCB5, 0x391C0CB3, 0x4ED8AA4A, 0x5B9CCA4F, 0x682E6FF3,
    0x748F82EE, 0x78A5636F, 0x84C87814, 0x8CC70208, 0x90BEFFFA, 0xA4506CEB, 0xBEF9A3F7, 0xC67178F2]

  const ROUND_CONSTANTS: seq<bv32> := FIRST_CONSTANTS + SECOND_CONSTANTS + THIRD_CONSTANTS + FOURTH_CONSTANTS

  // ----- The standard's schedule and rounds -----

  function WordAt(block: seq<byte>, i: nat): bv32
    requires 4 * i + 3 < |block|
  {
    Joined(block[4 * i] as bv32, block[4 * i + 1] as bv32, block[4 * i + 2] as bv32, block[4 * i + 3] as bv32)
  }

  function FirstWords(block: seq<byte>): (w: seq<bv32>)
    requires |block| == BLOCK
    ensures |w| == 16
  {
    seq(16, i requires 0 <= i < 16 => WordAt(block, i))
  }

  /** The schedule's next bv32. */
  function NextWord(w: seq<bv32>): bv32
    requires |w| >= 16
  {
    var t := |w|;
    Plus(Plus(Plus(w[t - 16], SmallSigma0(w[t - 15])), w[t - 7]), SmallSigma1(w[t - 2]))
  }

  /** The schedule, continued to one bv32 for every round. */
  function Extended(w: seq<bv32>): (r: seq<bv32>)
    requires 16 <= |w| <= |ROUND_CONSTANTS|
    ensures |r| == |ROUND_CONSTANTS|
    decreases |ROUND_CONSTANTS| - |w|
  {
    if |w| == |ROUND_CONSTANTS| then w else Extended(w + [NextWord(w)])
  }

  function Round(v: Words, k: bv32, w: bv32): Words {
    var t1 := Plus(Plus(Plus(Plus(v.h, BigSigma1(v.e)), Ch(v.e, v.f, v.g)), k), w);
    var t2 := Plus(BigSigma0(v.a), Maj(v.a, v.b, v.c));
    Words(Plus(t1, t2), v.a, v.b, v.c, Plus(v.d, t1), v.e, v.f, v.g)
  }

  /** One round for every bv32. */
  function Rounds(v: Words, w: seq<bv32>): Words
    requires |w| <= |ROUND_CONSTANTS|
  {
    if w == [] then v else
      var last := |w| - 1;
      Round(Rounds(v, w[..last]), ROUND_CONSTANTS[last], w[last])
  }

  function Added(x: Words, y: Words): Words {
    Words(Plus(x.a, y.a), Plus(x.b, y.b), Plus(x.c, y.c), Plus(x.d, y.d),
          Plus(x.e, y.e), Plus(x.f, y.f), Plus(x.g, y.g), Plus(x.h, y.h))
  }

  function Compressed(v: Words, block: seq<byte>): Words
    requires |block| == BLOCK
  {
    Added(v, Rounds(v, Extended(FirstWords(block))))
  }

  /** The compression of one block, as a value. */
  const COMPRESSION: (Words, seq<byte>) -> Words := (v, block) => if |block| == BLOCK then Compressed(v, block) else v

  /** On whole blocks, `f` is the compression. */
  ghost predicate IsCompression(f: (Words, seq<byte>) -> Words) {
    forall v, block {:trigger Compressed(v, block)} :: |block| == BLOCK ==> f(v, block) == Compressed(v, block)
  }

  /** The number of zero bytes between the marker and the length. */
  function ZeroCount(length: nat): nat {
    (119 - length % 64) % 64
  }

  /** Padding brings the message to whole blocks, with the least number of zeros that does. */
  lemma PaddingIsLeast(length: nat, k: nat)
    ensures (length + 1 + ZeroCount(length) + 8) % BLOCK == 0
    ensures (length + 1 + k + 8) % BLOCK == 0 ==> ZeroCount(length) <= k
  {
  }

  const TWO_64: nat := 0x1_0000_0000_0000_0000

  /** The message, a marker, zeros, and the length in bits as a 64-bit number. */
  function Padding(length: nat): seq<byte> {
    [0x80] + seq(ZeroCount(length), _ => 0) + BigEndian(8 * length % TWO_64, 8)
  }

  function WordBytes(w: bv32): (r: seq<byte>)
    ensures |r| == 4
  {
    [((w >> 24) & 0xFF) as byte, ((w >> 16) & 0xFF) as byte, ((w >> 8) & 0xFF) as byte, (w & 0xFF) as byte]
  }

  function Output(v: Words): (r: seq<byte>)
    ensures |r| == 32
  {
    WordBytes(v.a) + WordBytes(v.b) + WordBytes(v.c) + WordBytes(v.d) + WordBytes(v.e) + WordBytes(v.f) + WordBytes(v.g)
      + WordBytes(v.h)
  }

  /** The digest of a message. */
  ghost function Hash(m: seq<byte>): (r: seq<byte>)
    ensures |r| == 32
  {
    Output(Absorb(COMPRESSION, INITIAL, m + Padding(|m|)))
  }

  // ----- Compressing one block as the program does -----

  method FillSchedule(block: seq<byte>) returns (schedule: seq<bv32>)
    requires |block| == BLOCK
    ensures schedule == Extended(FirstWords(block))
  {
    schedule := [];
    for index := 0 to 16
      invariant schedule == FirstWords(block)[..index]
    {
      schedule := schedule + [WordAt(block, index)];
    }
    assert FirstWords(block)[..16] == FirstWords(block);
    for index := 16 to |ROUND_CONSTANTS|
      invariant |schedule| == index && Extended(schedule) == Extended(FirstWords(block))
    {
      schedule := schedule + [NextWord(schedule)];
    }
  }

  method Compress(state: Words, block: seq<byte>) returns (r: Words)
    requires |block| == BLOCK
    ensures r == Compressed(state, block)
  {
    var schedule := FillSchedule(block);
    var v := state;
    for index := 0 to |ROUND_CONSTANTS|
      invariant v == Rounds(state, schedule[..index])
    {
      assert schedule[..index + 1][..index] == schedule[..index];
      v := Round(v, ROUND_CONSTANTS[index], schedule[index]);
    }
    assert schedule[..|schedule|] == schedule;
    r := Added(state, v);
  }

  method CompressAs(state: Words, block: seq<byte>, ghost f: (Words, seq<byte>) -> Words) returns (r: Words)
    requires |block| == BLOCK && IsCompression(f)
    ensures r == f(state, block)
  {
    r := Compress(state, block);
  }

  lemma CompressionIsOne(f: (Words, seq<byte>) -> Words, m: seq<byte>)
    requires IsCompression(f)
    ensures Absorb(f, INITIAL, m) == Absorb(COMPRESSION, INITIAL, m)
  {
    forall v, block | |block| == BLOCK
      ensures f(v, block) == COMPRESSION(v, block)
    {
      assert f(v, block) == Compressed(v, block);
    }
    SameOnBlocks(f, COMPRESSION, INITIAL, m);
  }

  // ----- Padding in closed form -----

  /** The padding is built in a fixed buffer of 128 bytes, which it never leaves. */
  method PaddingBytes(padSize: nat, bitLength: nat) returns (bytes: seq<byte>)
    requires 0 < padSize <= 64
    ensures bytes == [0x80] + seq(padSize - 1, _ => 0) + BigEndian(bitLength, 8)
  {
    var padding := new byte[128](_ => 0);
    padding[0] := 0x80;
    for index := 0 to 8
      invariant padding[0] == 0x80 && forall i {:trigger padding[i]} :: 0 < i < padSize ==> padding[i] == 0
      invariant forall i {:trigger padding[i]} :: padSize <= i < padSize + index ==>
                padding[i] == BigEndian(bitLength, 8)[i - padSize]
    {
      BigEndianAt(bitLength, 8, index);
      padding[padSize + index] := (ShiftedDown(bitLength, 7 - index) % BYTE) as byte;
    }
    bytes := padding[..padSize + 8];
  }

  /** How much padding there is follows from the remainder. */
  method ClosedFormPadding(totalBytes: nat) returns (padding: seq<byte>)
    ensures padding == Padding(totalBytes)
  {
    var bitLength := totalBytes * 8 % TWO_64;
    var remainder := totalBytes % 64;
    var padSize := if remainder < 56 then 56 - remainder else 120 - remainder;
    padding := PaddingBytes(padSize, bitLength);
  }

  /** A count of bytes that had wrapped at 64 bits would give the same padding. */
  lemma LengthWraps(n: nat)
    ensures n % TWO_64 * 8 % TWO_64 == 8 * n % TWO_64 && n % TWO_64 % 64 == n % 64
  {
    var q, r := n / TWO_64, n % TWO_64;
    assert n == q * TWO_64 + r;
    assert 8 * n == 8 * q * TWO_64 + 8 * r;
  }

  /** Padded, a message is whole blocks. */
  lemma PaddedIsWhole(m: seq<byte>)
    ensures |m + Padding(|m|)| % BLOCK == 0
  {
    PaddingIsLeast(|m|, 0);
  }

  /** A state that has taken the padded message holds its digest. */
  lemma Finished(f: (Words, seq<byte>) -> Words, state: Words, tail: seq<byte>, m: seq<byte>)
    requires IsCompression(f) && Holds(f, INITIAL, state, tail, m + Padding(|m|)) && |tail| < BLOCK
    ensures Output(state) == Hash(m)
  {
    PaddedIsWhole(m);
    NothingLeft(f, INITIAL, state, tail, m + Padding(|m|));
    CompressionIsOne(f, m + Padding(|m|));
  }

  // ----- The hasher -----

  class Hasher {
    var state: Words
    const buffer: array<byte>
    var totalBytes: nat
    var buffered: nat
    var finished: bool
    /** Everything hashed so far, the padding included once it is there. */
    ghost var absorbed: seq<byte>
    ghost var message: seq<byte>
    /** The compression, kept as a value: the stream does not depend on what it is. */
    ghost const f: (Words, seq<byte>) -> Words

    ghost predicate Valid()
      reads this, buffer
    {
      && buffer.Length == BLOCK && buffered < BLOCK && IsCompression(f)
      && Holds(f, INITIAL, state, buffer[..buffered], absorbed)
      && totalBytes == |absorbed|
      && absorbed == if finished then message + Padding(|message|) else message
    }

    constructor ()
      ensures Valid() && fresh(buffer) && message == [] && !finished
    {
      state, f := INITIAL, COMPRESSION;
      buffer := new byte[64](_ => 0);
      totalBytes, buffered, finished := 0, 0, false;
      absorbed, message := [], [];
    }

    /** Hashes the bytes behind those hashed before, unless the hash has ended. */
    method Update(data: seq<byte>)
      requires Valid()
      modifies this, buffer
      ensures Valid() && finished == old(finished)
      ensures message == if old(finished) then old(message) else old(message) + data
    {
      if finished {
        return;
      }
      Take(data);
      message := message + data;
    }

    /** The state, the buffered bytes and the count are those of `m`. */
    ghost predicate HasTaken(m: seq<byte>)
      reads this`state, this`buffered, buffer
    {
      && buffer.Length == BLOCK && buffered <= BLOCK && IsCompression(f)
      && Holds(f, INITIAL, state, buffer[..buffered], m)
    }

    method Take(data: seq<byte>)
      requires HasTaken(absorbed) && buffered < BLOCK && totalBytes == |absorbed|
      modifies this`state, this`totalBytes, this`buffered, this`absorbed, buffer
      ensures HasTaken(absorbed) && buffered < BLOCK && totalBytes == |absorbed|
      ensures absorbed == old(absorbed) + data
    {
      totalBytes := totalBytes + |data|;
      var offset := 0;
      if buffered != 0 {
        offset := FillBuffer(data, absorbed);
      }
      assert absorbed + data[..0] == absorbed;
      offset := TakeBlocks(data, offset, absorbed);
      KeepRest(data, offset, absorbed);
      absorbed := absorbed + data;
    }

    /** Fills the buffer up, and absorbs it when it is full. */
    method FillBuffer(data: seq<byte>, ghost m: seq<byte>) returns (offset: nat)
      requires HasTaken(m) && buffered < BLOCK
      modifies this`state, this`buffered, buffer
      ensures offset <= |data| && HasTaken(m + data[..offset]) && buffered < BLOCK
      ensures buffered == 0 || offset == |data|
    {
      offset := 0;
      assert m + data[..0] == m;
      while offset < |data| && buffered < BLOCK
        invariant offset <= |data| && HasTaken(m + data[..offset])
      {
        KeepByte(data[offset], m + data[..offset]);
        assert m + data[..offset + 1] == m + data[..offset] + [data[offset]];
        offset := offset + 1;
      }
      if buffered == BLOCK {
        EmptyBuffer(m + data[..offset]);
      }
    }

    /** Absorbs a full buffer. */
    method EmptyBuffer(ghost m: seq<byte>)
      requires HasTaken(m) && buffered == BLOCK
      modifies this`state, this`buffered
      ensures HasTaken(m) && buffered == 0
    {
      FullBuffer(f, INITIAL, state, buffer[..buffered], m);
      assert buffer[..] == buffer[..buffered];
      state := CompressAs(state, buffer[..], f);
      buffered := 0;
    }

    method KeepByte(b: byte, ghost m: seq<byte>)
      requires HasTaken(m) && buffered < BLOCK
      modifies this`buffered, buffer
      ensures HasTaken(m + [b]) && buffered == old(buffered) + 1
    {
      TakeBytes(f, INITIAL, state, buffer[..buffered], m, [b]);
      buffer[buffered] := b;
      buffered := buffered + 1;
      assert buffer[..buffered] == old(buffer[..buffered]) + [b];
    }

    method TakeBlocks(data: seq<byte>, start: nat, ghost m: seq<byte>) returns (offset: nat)
      requires start <= |data| && HasTaken(m + data[..start]) && buffered < BLOCK && (buffered == 0 || start == |data|)
      modifies this`state
      ensures offset <= |data| && HasTaken(m + data[..offset])
      ensures buffered + (|data| - offset) < BLOCK
    {
      offset := start;
      while |data| - offset >= BLOCK
        invariant offset <= |data| && HasTaken(m + data[..offset]) && (buffered == 0 || offset == |data|)
      {
        var block := data[offset..offset + BLOCK];
        TakeBlock(f, INITIAL, state, m + data[..offset], block);
        assert m + data[..offset + BLOCK] == m + data[..offset] + block;
        state := CompressAs(state, block, f);
        offset := offset + BLOCK;
      }
    }

    /** What is left is less than what the buffer has room for. */
    method KeepRest(data: seq<byte>, start: nat, ghost m: seq<byte>)
      requires start <= |data| && HasTaken(m + data[..start]) && buffered + (|data| - start) < BLOCK
      modifies this`buffered, buffer
      ensures HasTaken(m + data) && buffered < BLOCK
    {
      var offset := start;
      while offset < |data|
        invariant offset <= |data| && HasTaken(m + data[..offset]) && buffered + (|data| - offset) < BLOCK
      {
        KeepByte(data[offset], m + data[..offset]);
        assert m + data[..offset + 1] == m + data[..offset] + [data[offset]];
        offset := offset + 1;
      }
      assert data[..offset] == data;
    }

    /** Ends the hash, once, with the closed-form padding, and reads the digest. */
    method Finish() returns (digest: seq<byte>)
      requires Valid()
      modifies this, buffer
      ensures Valid() && finished && message == old(message)
      ensures digest == Hash(message)
    {
      if !finished {
        var padding := ClosedFormPadding(totalBytes);
        Take(padding);
        finished := true;
      }
      Finished(f, state, buffer[..buffered], message);
      digest := Output(state);
    }
  }

  function Concat(segments: seq<seq<byte>>): seq<byte> {
    if segments == [] then [] else Concat(segments[..|segments| - 1]) + segments[|segments| - 1]
  }

  /** However a message is split, its digest is the one of the whole message. */
  method HashSegments(segments: seq<seq<byte>>) returns (digest: seq<byte>)
    ensures digest == Hash(Concat(segments))
  {
    var hasher := new Hasher();
    for k := 0 to |segments|
      invariant fresh(hasher) && fresh(hasher.buffer) && hasher.Valid() && !hasher.finished
      invariant hasher.message == Concat(segments[..k])
    {
      assert segments[..k + 1][..k] == segments[..k];
      hasher.Update(segments[k]);
    }
    assert segments[..|segments|] == segments;
    digest := hasher.Finish();
  }
}
