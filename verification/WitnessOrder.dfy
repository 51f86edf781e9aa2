/** The witness list of an assessment: its canonical order, and its repetitions dropped. */
module WitnessOrder {
  import opened Lists
  import opened Evidence
  import opened Witness

  function FenceNumbers(f: FenceVector): seq<nat> {
    [f.boot, f.epoch, f.fabricEpoch, f.topology, f.forwarding, f.policy]
  }

  /** Shorter cycles first, then resources, hops, selectors and fence. */
  predicate WitnessBefore(a: LoopWitness, b: LoopWitness) {
    if |a.cycle| != |b.cycle| then |a.cycle| < |b.cycle|
    else if a.cycle != b.cycle then LexLess(a.cycle, b.cycle)
    else if a.hops != b.hops then LexLess(a.hops, b.hops)
    else if a.selectors != b.selectors then LexLess(a.selectors, b.selectors)
    else LexLess(FenceNumbers(a.fence), FenceNumbers(b.fence))
  }

  predicate WitnessesOrdered(ws: seq<LoopWitness>) {
    forall i :: 0 < i < |ws| ==> !WitnessBefore(ws[i], ws[i - 1])
  }

  /** The first differs where it differs first by holding less. */
  ghost predicate LessFirst(a: seq<nat>, b: seq<nat>) {
    forall k: nat {:trigger FirstDifferAt(a, b, k)} :: FirstDifferAt(a, b, k) ==> a[k] < b[k]
  }

  lemma NotLessIsFirst(a: seq<nat>, b: seq<nat>)
    requires !LexLess(b, a)
    ensures LessFirst(a, b)
  {
    forall k: nat | FirstDifferAt(a, b, k)
      ensures a[k] < b[k]
    {
      LexDecides(b, a, k);
    }
  }

  /** What the order of a list of witnesses means: shorter cycles come first, of one length the cycle that has the
      smaller resource where they differ first, and of one cycle the hops that have the smaller edge. */
  lemma OrderedMeans(ws: seq<LoopWitness>, i: nat)
    requires WitnessesOrdered(ws) && 0 < i < |ws|
    ensures var a, b := ws[i - 1], ws[i];
            && |a.cycle| <= |b.cycle|
            && (|a.cycle| == |b.cycle| ==> LessFirst(a.cycle, b.cycle))
            && (a.cycle == b.cycle ==> LessFirst(a.hops, b.hops))
            && (a.cycle == b.cycle && a.hops == b.hops ==>
                  LessFirst(a.selectors, b.selectors) && !(b.selectors < a.selectors))
  {
    var a, b := ws[i - 1], ws[i];
    assert !WitnessBefore(b, a);
    if |a.cycle| == |b.cycle| {
      if a.cycle != b.cycle {
        NotLessIsFirst(a.cycle, b.cycle);
      } else if a.hops != b.hops {
        NotLessIsFirst(a.hops, b.hops);
      } else if a.selectors != b.selectors {
        NotLessIsFirst(a.selectors, b.selectors);
        if b.selectors < a.selectors {
          LexOfPrefix(b.selectors, a.selectors);
        }
      }
    }
  }

  lemma WitnessOrderIsAsymmetric(a: LoopWitness, b: LoopWitness)
    requires WitnessBefore(a, b)
    ensures !WitnessBefore(b, a)
  {
    if |a.cycle| == |b.cycle| {
      if a.cycle != b.cycle {
        LexIsAsymmetric(a.cycle, b.cycle);
      } else if a.hops != b.hops {
        LexIsAsymmetric(a.hops, b.hops);
      } else if a.selectors != b.selectors {
        LexIsAsymmetric(a.selectors, b.selectors);
      } else {
        LexIsAsymmetric(FenceNumbers(a.fence), FenceNumbers(b.fence));
      }
    }
  }

  lemma WitnessOrderIsTransitive(a: LoopWitness, b: LoopWitness, c: LoopWitness)
    requires WitnessBefore(a, b) && WitnessBefore(b, c)
    ensures WitnessBefore(a, c)
  {
    if |a.cycle| == |b.cycle| == |c.cycle| {
      if a.cycle != b.cycle && b.cycle != c.cycle {
        LexIsTransitive(a.cycle, b.cycle, c.cycle);
        LexIsIrreflexive(a.cycle);
      } else if a.cycle == b.cycle == c.cycle {
        if a.hops != b.hops && b.hops != c.hops {
          LexIsTransitive(a.hops, b.hops, c.hops);
          LexIsIrreflexive(a.hops);
        } else if a.hops == b.hops == c.hops {
          if a.selectors != b.selectors && b.selectors != c.selectors {
            LexIsTransitive(a.selectors, b.selectors, c.selectors);
            LexIsIrreflexive(a.selectors);
          } else if a.selectors == b.selectors == c.selectors {
            LexIsTransitive(FenceNumbers(a.fence), FenceNumbers(b.fence), FenceNumbers(c.fence));
          }
        }
      }
    }
  }

  /** What the order looks at. */
  predicate SameKey(a: LoopWitness, b: LoopWitness) {
    a.cycle == b.cycle && a.hops == b.hops && a.selectors == b.selectors && a.fence == b.fence
  }

  lemma WitnessOrderIsTotal(a: LoopWitness, b: LoopWitness)
    requires !WitnessBefore(a, b) && !WitnessBefore(b, a)
    ensures SameKey(a, b)
  {
    if a.cycle != b.cycle {
      LexIsTotal(a.cycle, b.cycle);
    } else if a.hops != b.hops {
      LexIsTotal(a.hops, b.hops);
    } else if a.selectors != b.selectors {
      LexIsTotal(a.selectors, b.selectors);
    } else {
      LexIsTotal(FenceNumbers(a.fence), FenceNumbers(b.fence));
      var x, y := FenceNumbers(a.fence), FenceNumbers(b.fence);
      assert x[0] == y[0] && x[1] == y[1] && x[2] == y[2] && x[3] == y[3] && x[4] == y[4] && x[5] == y[5];
    }
  }

  // ----- Sorting -----

  function InsertWitness(ws: seq<LoopWitness>, w: LoopWitness): (r: seq<LoopWitness>)
    ensures multiset(r) == multiset(ws) + multiset{w}
    ensures r != [] && (r[|r| - 1] == w || (ws != [] && r[|r| - 1] == ws[|ws| - 1]))
  {
    if ws == [] then [w] else
      var last := |ws| - 1;
      assert ws == ws[..last] + [ws[last]];
      if WitnessBefore(w, ws[last]) then InsertWitness(ws[..last], w) + [ws[last]] else ws + [w]
  }

  lemma {:induction false} InsertWitnessKeepsOrder(ws: seq<LoopWitness>, w: LoopWitness)
    requires WitnessesOrdered(ws)
    ensures WitnessesOrdered(InsertWitness(ws, w))
    decreases |ws|
  {
    if ws != [] && WitnessBefore(w, ws[|ws| - 1]) {
      InsertWitnessKeepsOrder(ws[..|ws| - 1], w);
      WitnessOrderIsAsymmetric(w, ws[|ws| - 1]);
    }
  }

  /** What validating a witness costs, where every hop costs `each`. */
  function PriceOf(w: LoopWitness, each: nat): nat {
    |w.cycle| * each
  }

  function CostOf(ws: seq<LoopWitness>, each: nat): nat {
    if ws == [] then 0 else CostOf(ws[..|ws| - 1], each) + PriceOf(ws[|ws| - 1], each)
  }

  lemma CostGrows(ws: seq<LoopWitness>, w: LoopWitness, each: nat)
    ensures CostOf(ws + [w], each) == CostOf(ws, each) + PriceOf(w, each)
  {
    assert (ws + [w])[..|ws|] == ws;
  }

  lemma {:induction false} InsertedCosts(ws: seq<LoopWitness>, w: LoopWitness, each: nat)
    ensures CostOf(InsertWitness(ws, w), each) == CostOf(ws, each) + PriceOf(w, each)
    decreases |ws|
  {
    if ws != [] && WitnessBefore(w, ws[|ws| - 1]) {
      InsertedCosts(ws[..|ws| - 1], w, each);
      CostGrows(InsertWitness(ws[..|ws| - 1], w), ws[|ws| - 1], each);
    } else {
      CostGrows(ws, w, each);
      assert ws == [] ==> ws + [w] == [w];
    }
  }

  lemma OneMoreSorted(ws: seq<LoopWitness>, r: seq<LoopWitness>, w: LoopWitness, each: nat)
    requires WitnessesOrdered(r) && multiset(r) == multiset(ws) && CostOf(r, each) == CostOf(ws, each)
    ensures var more := InsertWitness(r, w);
            WitnessesOrdered(more) && multiset(more) == multiset(ws + [w])
              && CostOf(more, each) == CostOf(ws + [w], each)
  {
    InsertWitnessKeepsOrder(r, w);
    InsertedCosts(r, w, each);
    CostGrows(ws, w, each);
  }

  method SortWitnesses(ws: seq<LoopWitness>, ghost each: nat) returns (r: seq<LoopWitness>)
    ensures WitnessesOrdered(r) && multiset(r) == multiset(ws) && CostOf(r, each) == CostOf(ws, each)
  {
    r := [];
    for k := 0 to |ws|
      invariant WitnessesOrdered(r) && multiset(r) == multiset(ws[..k]) && CostOf(r, each) == CostOf(ws[..k], each)
    {
      assert ws[..k + 1] == ws[..k] + [ws[k]];
      OneMoreSorted(ws[..k], r, ws[k], each);
      r := InsertWitness(r, ws[k]);
    }
    assert ws[..|ws|] == ws;
  }

  // ----- Repetitions -----

  ghost predicate NoRepeats(ws: seq<LoopWitness>) {
    forall i, j :: 0 <= i < j < |ws| ==> ws[i] != ws[j]
  }

  /** Witnesses that look the same to the order are the same. */
  ghost predicate KeysDecide(ws: seq<LoopWitness>) {
    forall a, b :: a in ws && b in ws && SameKey(a, b) ==> a == b
  }

  ghost predicate AllBefore(ws: seq<LoopWitness>) {
    forall i, j {:trigger WitnessBefore(ws[i], ws[j])} :: 0 <= i < j < |ws| ==> WitnessBefore(ws[i], ws[j])
  }

  lemma OrderedIsBefore(ws: seq<LoopWitness>, k: nat)
    requires WitnessesOrdered(ws) && KeysDecide(ws) && 0 < k < |ws| && ws[k - 1] != ws[k]
    ensures WitnessBefore(ws[k - 1], ws[k])
  {
    var a, b := ws[k - 1], ws[k];
    assert a in ws && b in ws && !WitnessBefore(b, a);
    if !WitnessBefore(a, b) {
      WitnessOrderIsTotal(a, b);
    }
  }

  lemma BeforeMeansNoRepeats(ws: seq<LoopWitness>)
    requires AllBefore(ws)
    ensures NoRepeats(ws)
  {
    forall i, j | 0 <= i < j < |ws|
      ensures ws[i] != ws[j]
    {
      assert WitnessBefore(ws[i], ws[j]);
      WitnessOrderIsAsymmetric(ws[i], ws[j]);
    }
  }

  lemma OneMoreBehind(r: seq<LoopWitness>, w: LoopWitness)
    requires AllBefore(r) && (r != [] ==> WitnessBefore(r[|r| - 1], w))
    ensures AllBefore(r + [w])
  {
    var all := r + [w];
    forall i, j | 0 <= i < j < |all|
      ensures WitnessBefore(all[i], all[j])
    {
      if j == |r| && i < |r| - 1 {
        assert WitnessBefore(r[i], r[|r| - 1]);
        WitnessOrderIsTransitive(r[i], r[|r| - 1], w);
      }
      assert j < |r| ==> WitnessBefore(r[i], r[j]);
    }
  }

  /** Drops every witness equal to the one before it: of an ordered list, every repetition. */
  method Unique(ws: seq<LoopWitness>) returns (r: seq<LoopWitness>)
    requires WitnessesOrdered(ws)
    ensures forall w :: w in r <==> w in ws
    ensures |r| <= |ws|
    ensures KeysDecide(ws) ==> NoRepeats(r)
    ensures NoRepeats(ws) ==> r == ws
  {
    r := [];
    for k := 0 to |ws|
      invariant |r| <= k && (k > 0 ==> r != [] && r[|r| - 1] == ws[k - 1]) && (k == 0 ==> r == [])
      invariant forall w :: w in r <==> w in ws[..k]
      invariant KeysDecide(ws) ==> AllBefore(r)
      invariant NoRepeats(ws) ==> r == ws[..k]
    {
      assert ws[..k + 1] == ws[..k] + [ws[k]];
      if r == [] || r[|r| - 1] != ws[k] {
        if KeysDecide(ws) {
          if k > 0 {
            OrderedIsBefore(ws, k);
          }
          OneMoreBehind(r, ws[k]);
        }
        r := r + [ws[k]];
      }
    }
    assert ws[..|ws|] == ws;
    if KeysDecide(ws) {
      BeforeMeansNoRepeats(r);
    }
  }

  lemma RepeatCounts(b: seq<LoopWitness>, i: nat, j: nat)
    requires i < j < |b| && b[i] == b[j]
    ensures multiset(b)[b[i]] >= 2
  {
    assert b == b[..i] + [b[i]] + b[i + 1..j] + [b[j]] + b[j + 1..];
  }

  lemma {:induction false} SortedHasNoRepeats(a: seq<LoopWitness>, b: seq<LoopWitness>)
    requires NoRepeats(a) && multiset(a) == multiset(b)
    ensures NoRepeats(b)
  {
    NoRepeatsByCount(a);
    forall i, j | 0 <= i < j < |b|
      ensures b[i] != b[j]
    {
      assert multiset(b)[b[i]] == 1 by {
        assert b[i] in multiset(b);
      }
      if b[i] == b[j] {
        RepeatCounts(b, i, j);
      }
    }
  }

  lemma {:induction false} NoRepeatsByCount(a: seq<LoopWitness>)
    requires NoRepeats(a)
    ensures forall w :: w in multiset(a) ==> multiset(a)[w] == 1
    decreases |a|
  {
    if a != [] {
      var front, last := a[..|a| - 1], a[|a| - 1];
      NoRepeatsByCount(front);
      assert a == front + [last];
      assert last !in front;
    }
  }

  /** Canonical order, without repetitions, cut to the retained number. */
  method Tidy(emitted: seq<LoopWitness>, maxWitnesses: nat, ghost each: nat)
    returns (ws: seq<LoopWitness>, resized: bool)
    ensures |ws| <= |emitted| && (maxWitnesses > 0 && emitted != [] ==> ws != [])
    ensures forall w :: w in ws ==> w in emitted
    ensures |emitted| <= maxWitnesses ==> !resized
    ensures !resized ==> forall w :: w in emitted ==> w in ws
    ensures KeysDecide(emitted) ==> NoRepeats(ws)
    ensures !resized && NoRepeats(emitted) ==>
            multiset(ws) == multiset(emitted) && CostOf(ws, each) == CostOf(emitted, each)
  {
    ws := SortWitnesses(emitted, each);
    assert forall w :: w in emitted <==> w in multiset(emitted);
    assert forall w :: w in ws <==> w in multiset(ws);
    ghost var sorted := ws;
    if NoRepeats(emitted) {
      SortedHasNoRepeats(emitted, sorted);
    }
    ws := Unique(ws);
    assert |sorted| == |multiset(sorted)| && |emitted| == |multiset(emitted)|;
    if emitted != [] {
      assert emitted[0] in ws;
    }
    resized := |ws| > maxWitnesses;
    if resized {
      ws := ws[..maxWitnesses];
    }
  }
}
