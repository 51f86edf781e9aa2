/** Bytes, and fixed-width numbers as byte sequences. */
module Bytes {
  newtype byte = x: int | 0 <= x < 256

  const BYTE: nat := 256

  function Pow256(n: nat): (r: nat)
    ensures r > 0
  {
    if n == 0 then 1 else BYTE * Pow256(n - 1)
  }

  /** The low `n` bytes of a number, least significant first. */
  function LittleEndian(x: nat, n: nat): (r: seq<byte>)
    ensures |r| == n
  {
    if n == 0 then [] else [(x % BYTE) as byte] + LittleEndian(x / BYTE, n - 1)
  }

  function ValueOf(s: seq<byte>): nat {
    if s == [] then 0 else s[0] as nat + BYTE * ValueOf(s[1..])
  }

  /** The low `n` bytes of a number, most significant first. */
  function BigEndian(x: nat, n: nat): (r: seq<byte>)
    ensures |r| == n
  {
    if n == 0 then [] else BigEndian(x / BYTE, n - 1) + [(x % BYTE) as byte]
  }

  /** The number shifted right by `n` bytes. */
  function ShiftedDown(x: nat, n: nat): nat {
    if n == 0 then x else ShiftedDown(x / BYTE, n - 1)
  }

  /** Each byte of the big-endian form is one shift away. */
  lemma {:induction false} BigEndianAt(x: nat, n: nat, i: nat)
    requires i < n
    ensures BigEndian(x, n)[i] as nat == ShiftedDown(x, n - 1 - i) % BYTE
  {
    if i < n - 1 {
      BigEndianAt(x / BYTE, n - 1, i);
    }
  }

  /** A number that fits its width is read back as written. */
  lemma {:induction false} ReadsBack(x: nat, n: nat)
    requires x < Pow256(n)
    ensures ValueOf(LittleEndian(x, n)) == x
  {
    if n > 0 {
      ReadsBack(x / BYTE, n - 1);
      var r := LittleEndian(x, n);
      assert r[1..] == LittleEndian(x / BYTE, n - 1);
    }
  }

  /** Bytes are written back as read. */
  lemma {:induction false} WritesBack(s: seq<byte>)
    ensures LittleEndian(ValueOf(s), |s|) == s
    ensures ValueOf(s) < Pow256(|s|)
    decreases |s|
  {
    if s != [] {
      WritesBack(s[1..]);
      assert ValueOf(s) % BYTE == s[0] as nat && ValueOf(s) / BYTE == ValueOf(s[1..]);
      assert s == [s[0]] + s[1..];
    }
  }
}
