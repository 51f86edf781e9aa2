/** Selector bitsets: lists of 64-bit words indexed by selector number. */
module Masks {
  import opened Sets

  /** A 64-bit word, given by the positions of its one bits. */
  type Word = w: set<nat> | forall b :: b in w ==> b < 64

  const ALL_ONES: Word := set b: nat | b < 64

  type Mask = seq<Word>

  predicate HasBit(mask: Mask, i: nat) {
    i / 64 < |mask| && i % 64 in mask[i / 64]
  }

  /** The numbers whose bit is set. */
  ghost function Bits(mask: Mask): (s: set<nat>)
    ensures forall i :: i in s <==> HasBit(mask, i)
  {
    set i: nat | i < 64 * |mask| && HasBit(mask, i)
  }

  function WordsFor(count: nat): nat {
    (count + 63) / 64
  }

  method IsEmpty(mask: Mask) returns (empty: bool)
    ensures empty <==> Bits(mask) == {}
  {
    for index := 0 to |mask|
      invariant forall k :: 0 <= k < index ==> mask[k] == {}
    {
      if mask[index] != {} {
        ghost var b :| b in mask[index];
        assert HasBit(mask, 64 * index + b);
        return false;
      }
    }
    assert forall i :: !HasBit(mask, i);
    return true;
  }

  method And(lhs: Mask, rhs: Mask) returns (out: Mask)
    requires |lhs| == |rhs|
    ensures |out| == |lhs|
    ensures Bits(out) == Bits(lhs) * Bits(rhs)
  {
    out := seq(|lhs|, _ => {});
    for index := 0 to |out|
      invariant |out| == |lhs|
      invariant forall k :: 0 <= k < index ==> out[k] == lhs[k] * rhs[k]
    {
      out := out[index := lhs[index] * rhs[index]];
    }
  }

  method SetBit(mask: Mask, i: nat) returns (out: Mask)
    requires i < 64 * |mask|
    ensures |out| == |mask|
    ensures Bits(out) == Bits(mask) + {i}
  {
    var word := mask[i / 64] + {i % 64};
    out := mask[i / 64 := word];
    forall k: nat
      ensures HasBit(out, k) <==> HasBit(mask, k) || k == i
    {
      if k / 64 == i / 64 && k % 64 == i % 64 {
        assert k == i;
      }
    }
  }

  /** Every candidate: words of ones, the last one cut down to the candidates it serves. */
  method AllCandidates(count: nat) returns (mask: Mask)
    ensures |mask| == WordsFor(count)
    ensures Bits(mask) == Below(count)
  {
    var words := WordsFor(count);
    mask := seq(words, _ => ALL_ONES);
    if words != 0 && count % 64 != 0 {
      var tail: Word := set b | b in ALL_ONES && b < count % 64;
      mask := mask[words - 1 := tail];
    }
    forall i: nat
      ensures HasBit(mask, i) <==> i < count
    {
      assert i == 64 * (i / 64) + i % 64;
    }
  }
}
