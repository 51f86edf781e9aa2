/** The functions on words of section 4.1.2 of FIPS 180-4, and what they make of every bit. */
module WordFunctions {

  /** Addition of words wraps at 32 bits. */
  function Plus(x: bv32, y: bv32): bv32 { x + y }

  function SmallSigma0(x: bv32): bv32 { ((x >> 7) | (x << 25)) ^ ((x >> 18) | (x << 14)) ^ (x >> 3) }
  function SmallSigma1(x: bv32): bv32 { ((x >> 17) | (x << 15)) ^ ((x >> 19) | (x << 13)) ^ (x >> 10) }
  function BigSigma0(x: bv32): bv32 { ((x >> 2) | (x << 30)) ^ ((x >> 13) | (x << 19)) ^ ((x >> 22) | (x << 10)) }
  function BigSigma1(x: bv32): bv32 { ((x >> 6) | (x << 26)) ^ ((x >> 11) | (x << 21)) ^ ((x >> 25) | (x << 7)) }
  function Ch(x: bv32, y: bv32, z: bv32): bv32 { (x & y) ^ (!x & z) }
  function Maj(x: bv32, y: bv32, z: bv32): bv32 { (x & y) ^ (x & z) ^ (y & z) }

  // ----- The functions on every bit -----

  predicate Bit(x: bv32, i: bv5) {
    (x >> i) & 1 == 1
  }

  lemma ExclusiveBits(x: bv32, y: bv32, i: bv5)
    ensures Bit(x ^ y, i) <==> Bit(x, i) != Bit(y, i)
  {
  }

  lemma CommonBits(x: bv32, y: bv32, i: bv5)
    ensures Bit(x & y, i) <==> Bit(x, i) && Bit(y, i)
  {
  }

  lemma OtherBits(x: bv32, y: bv32, i: bv5)
    ensures Bit(!x & y, i) <==> !Bit(x, i) && Bit(y, i)
  {
  }

  lemma ParityBits(a: bv32, b: bv32, c: bv32, i: bv5)
    ensures Bit(a ^ b ^ c, i) <==> (Bit(a, i) != Bit(b, i)) != Bit(c, i)
  {
    ExclusiveBits(a, b, i);
    ExclusiveBits(a ^ b, c, i);
  }

  /** The word of one bit. Positions go round at 32. */
  function One(i: bv5): bv32 {
    (1 as bv32) << i
  }

  /** The functions of the schedule take a bit to three places, or two where it is shifted out. */
  lemma SmallSigmasOfOne(i: bv5)
    ensures SmallSigma0(One(i)) == One(i - 7) ^ One(i - 18) ^ (if i < 3 then 0 else One(i - 3))
    ensures SmallSigma1(One(i)) == One(i - 17) ^ One(i - 19) ^ (if i < 10 then 0 else One(i - 10))
  {
  }

  /** The functions of a round take a bit to three places. */
  lemma BigSigmasOfOne(i: bv5)
    ensures BigSigma0(One(i)) == One(i - 2) ^ One(i - 13) ^ One(i - 22)
    ensures BigSigma1(One(i)) == One(i - 6) ^ One(i - 11) ^ One(i - 25)
  {
  }

  /** A choice takes each bit from one of two words. */
  lemma ChoiceBits(x: bv32, y: bv32, z: bv32, i: bv5)
    ensures Bit(Ch(x, y, z), i) <==> if Bit(x, i) then Bit(y, i) else Bit(z, i)
  {
    CommonBits(x, y, i);
    OtherBits(x, z, i);
    ExclusiveBits(x & y, !x & z, i);
  }

  /** A majority takes the value that two of three agree on. */
  lemma MajorityBits(x: bv32, y: bv32, z: bv32, i: bv5)
    ensures Bit(Maj(x, y, z), i) <==> (Bit(x, i) && Bit(y, i)) || (Bit(x, i) && Bit(z, i)) || (Bit(y, i) && Bit(z, i))
  {
    CommonBits(x, y, i);
    CommonBits(x, z, i);
    CommonBits(y, z, i);
    ParityBits(x & y, x & z, y & z, i);
  }

  /** Four bytes as a word, the most significant first. */
  function Joined(a: bv32, b: bv32, c: bv32, d: bv32): bv32 {
    (a << 24) | (b << 16) | (c << 8) | d
  }

  lemma JoinedBits(a: bv32, b: bv32, c: bv32, d: bv32, j: bv5)
    requires a < 256 && b < 256 && c < 256 && d < 256 && j < 8
    ensures Bit(Joined(a, b, c, d), 24 + j) <==> Bit(a, j)
    ensures Bit(Joined(a, b, c, d), 16 + j) <==> Bit(b, j)
    ensures Bit(Joined(a, b, c, d), 8 + j) <==> Bit(c, j)
    ensures Bit(Joined(a, b, c, d), j) <==> Bit(d, j)
  {
  }
}
