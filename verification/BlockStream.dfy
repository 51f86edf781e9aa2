/** Messages taken in blocks: a state that has absorbed the whole blocks, and the bytes that are left. */
module BlockStream {
  import opened Bytes

  const BLOCK: nat := 64

  /** All whole blocks of a message, in order; a remainder is left out. */
  ghost function Absorb<S>(f: (S, seq<byte>) -> S, v: S, m: seq<byte>): S
    decreases |m|
  {
    if |m| < BLOCK then v else Absorb(f, f(v, m[..BLOCK]), m[BLOCK..])
  }

  /** The state has absorbed all of `m` but its last bytes, which are `tail`. */
  ghost predicate Holds<S(!new)>(f: (S, seq<byte>) -> S, start: S, state: S, tail: seq<byte>, m: seq<byte>) {
    && |tail| <= |m| && (|m| - |tail|) % BLOCK == 0
    && tail == m[|m| - |tail|..]
    && state == Absorb(f, start, m[..|m| - |tail|])
  }

  lemma {:induction false} AbsorbAppends<S>(f: (S, seq<byte>) -> S, v: S, whole: seq<byte>, more: seq<byte>)
    requires |whole| % BLOCK == 0
    ensures Absorb(f, v, whole + more) == Absorb(f, Absorb(f, v, whole), more)
    decreases |whole|
  {
    if whole == [] {
      assert whole + more == more;
    } else {
      AbsorbAppends(f, f(v, whole[..BLOCK]), whole[BLOCK..], more);
      assert (whole + more)[..BLOCK] == whole[..BLOCK];
      assert (whole + more)[BLOCK..] == whole[BLOCK..] + more;
    }
  }

  lemma OneBlock<S>(f: (S, seq<byte>) -> S, v: S, block: seq<byte>)
    requires |block| == BLOCK
    ensures Absorb(f, v, block) == f(v, block)
  {
    assert block[..BLOCK] == block && block[BLOCK..] == [];
  }

  lemma TakeBytes<S(!new)>(f: (S, seq<byte>) -> S, start: S, state: S, tail: seq<byte>, m: seq<byte>, more: seq<byte>)
    requires Holds(f, start, state, tail, m)
    ensures Holds(f, start, state, tail + more, m + more)
  {
    assert (m + more)[..|m| - |tail|] == m[..|m| - |tail|];
  }

  /** A full buffer is absorbed. */
  lemma FullBuffer<S(!new)>(f: (S, seq<byte>) -> S, start: S, state: S, tail: seq<byte>, m: seq<byte>)
    requires Holds(f, start, state, tail, m) && |tail| == BLOCK
    ensures Holds(f, start, f(state, tail), [], m)
  {
    var whole := m[..|m| - BLOCK];
    AbsorbAppends(f, start, whole, tail);
    OneBlock(f, state, tail);
    assert whole + tail == m && m[..|m|] == m;
  }

  lemma TakeBlock<S(!new)>(f: (S, seq<byte>) -> S, start: S, state: S, m: seq<byte>, block: seq<byte>)
    requires Holds(f, start, state, [], m) && |block| == BLOCK
    ensures Holds(f, start, f(state, block), [], m + block)
  {
    TakeBytes(f, start, state, [], m, block);
    assert [] + block == block;
    FullBuffer(f, start, state, block, m + block);
  }

  /** With all of it in whole blocks, the state has absorbed everything. */
  lemma NothingLeft<S(!new)>(f: (S, seq<byte>) -> S, start: S, state: S, tail: seq<byte>, m: seq<byte>)
    requires Holds(f, start, state, tail, m) && |m| % BLOCK == 0 && |tail| < BLOCK
    ensures tail == [] && state == Absorb(f, start, m)
  {
    assert m[..|m|] == m;
  }

  lemma {:induction false} SameOnBlocks<S(!new)>(f: (S, seq<byte>) -> S, g: (S, seq<byte>) -> S, v: S, m: seq<byte>)
    requires forall s, b {:trigger f(s, b)} :: |b| == BLOCK ==> f(s, b) == g(s, b)
    ensures Absorb(f, v, m) == Absorb(g, v, m)
    decreases |m|
  {
    if |m| >= BLOCK {
      SameOnBlocks(f, g, f(v, m[..BLOCK]), m[BLOCK..]);
    }
  }
}
