/** Sorted sequences, and what a halving search finds in a sequence, sorted or not. */
module Order {
  import opened Lists

  /** The position the halving search settles on: it only ever compares `x` with middle elements. */
  function LowerBound(s: seq<nat>, x: nat): (r: nat)
    ensures r <= |s|
    ensures r < |s| ==> x <= s[r]
  {
    if s == [] then 0 else
      var half := |s| / 2;
      if s[half] < x then half + 1 + LowerBound(s[half + 1..], x) else LowerBound(s[..half], x)
  }

  predicate BinarySearch(s: seq<nat>, x: nat) {
    var i := LowerBound(s, x);
    i < |s| && s[i] <= x
  }

  /** What is found is there, whatever the order. */
  lemma FoundIsThere(s: seq<nat>, x: nat)
    requires BinarySearch(s, x)
    ensures x in s && s[LowerBound(s, x)] == x
  {
  }

  lemma SlicesAreSorted(s: seq<nat>, k: nat)
    requires Nondecreasing(s) && k <= |s|
    ensures Nondecreasing(s[..k]) && Nondecreasing(s[k..])
  {
  }

  /** In a sorted sequence the position splits what is smaller from what is not. */
  lemma {:induction false} LowerBoundSplits(s: seq<nat>, x: nat, i: nat)
    requires Nondecreasing(s) && i < LowerBound(s, x)
    ensures s[i] < x
    decreases |s|
  {
    if s != [] {
      var half := |s| / 2;
      if s[half] < x {
        SlicesAreSorted(s, half + 1);
        if i > half {
          LowerBoundSplits(s[half + 1..], x, i - half - 1);
        } else {
          assert s[i] <= s[half];
        }
      } else {
        SlicesAreSorted(s, half);
        LowerBoundSplits(s[..half], x, i);
      }
    }
  }

  lemma SortedIsFound(s: seq<nat>, x: nat)
    requires Nondecreasing(s)
    ensures BinarySearch(s, x) <==> x in s
  {
    if x in s {
      var i :| 0 <= i < |s| && s[i] == x;
      if i < LowerBound(s, x) {
        LowerBoundSplits(s, x, i);
        assert false;
      }
      assert s[LowerBound(s, x)] <= s[i];
    }
  }

  predicate EachIsFound(s: seq<nat>) {
    forall i {:trigger s[i]} :: 0 <= i < |s| ==> BinarySearch(s, s[i])
  }

  lemma StrictIsNondecreasing(s: seq<nat>)
    requires StrictlyIncreasing(s)
    ensures Nondecreasing(s)
  {
    forall i, j | 0 <= i <= j < |s|
      ensures s[i] <= s[j]
    {
      assert i < j ==> s[i] < s[j];
    }
  }

  /** Elements that differ are all found exactly when they ascend. */
  lemma FindsAllIffAscending(s: seq<nat>)
    requires NoDuplicates(s)
    ensures EachIsFound(s) <==> StrictlyIncreasing(s)
  {
    if StrictlyIncreasing(s) {
      StrictIsNondecreasing(s);
      forall i | 0 <= i < |s|
        ensures BinarySearch(s, s[i])
      {
        SortedIsFound(s, s[i]);
      }
    }
    if EachIsFound(s) {
      forall i | 0 <= i < |s|
        ensures IsOwnPosition(s, i)
      {
        assert BinarySearch(s, s[i]);
        FoundIsThere(s, s[i]);
      }
      SelfPositionsAscend(s);
    }
  }

  predicate IsOwnPosition(s: seq<nat>, i: nat) {
    i < |s| && LowerBound(s, s[i]) == i
  }

  predicate OwnPositions(s: seq<nat>) {
    forall i {:trigger IsOwnPosition(s, i)} :: 0 <= i < |s| ==> IsOwnPosition(s, i)
  }

  /** A middle element separates what is left and right of it, and each side is searched in the same way. */
  lemma Separated(s: seq<nat>, i: nat)
    requires OwnPositions(s) && i < |s|
    ensures var half := |s| / 2;
            && (i < half ==> s[i] < s[half] && IsOwnPosition(s[..half], i))
            && (i > half ==> s[half] < s[i] && IsOwnPosition(s[half + 1..], i - half - 1))
  {
    assert IsOwnPosition(s, i) && IsOwnPosition(s, |s| / 2);
  }

  lemma LeftIsOwn(s: seq<nat>)
    requires OwnPositions(s) && s != []
    ensures OwnPositions(s[..|s| / 2])
  {
    forall i | 0 <= i < |s| / 2
      ensures IsOwnPosition(s[..|s| / 2], i)
    {
      Separated(s, i);
    }
  }

  lemma RightIsOwn(s: seq<nat>)
    requires OwnPositions(s) && s != []
    ensures OwnPositions(s[|s| / 2 + 1..])
  {
    var right := s[|s| / 2 + 1..];
    forall i | 0 <= i < |right|
      ensures IsOwnPosition(right, i)
    {
      Separated(s, |s| / 2 + 1 + i);
    }
  }

  lemma MiddleSeparates(s: seq<nat>)
    requires OwnPositions(s) && s != []
    ensures forall i {:trigger s[i]} :: 0 <= i < |s| / 2 ==> s[i] < s[|s| / 2]
    ensures forall i {:trigger s[i]} :: |s| / 2 < i < |s| ==> s[|s| / 2] < s[i]
  {
    forall i | 0 <= i < |s|
      ensures i < |s| / 2 ==> s[i] < s[|s| / 2]
      ensures i > |s| / 2 ==> s[|s| / 2] < s[i]
    {
      Separated(s, i);
    }
  }

  lemma AscendsAround(s: seq<nat>, half: nat)
    requires half < |s| && StrictlyIncreasing(s[..half]) && StrictlyIncreasing(s[half + 1..])
    requires forall i {:trigger s[i]} :: 0 <= i < half ==> s[i] < s[half]
    requires forall i {:trigger s[i]} :: half < i < |s| ==> s[half] < s[i]
    ensures StrictlyIncreasing(s)
  {
    forall i, j | 0 <= i < j < |s|
      ensures s[i] < s[j]
    {
      assert j < half ==> s[..half][i] < s[..half][j];
      assert i > half ==> s[half + 1..][i - half - 1] < s[half + 1..][j - half - 1];
    }
  }

  /** If each element is its own position, the elements ascend. */
  lemma {:induction false} SelfPositionsAscend(s: seq<nat>)
    requires OwnPositions(s)
    ensures StrictlyIncreasing(s)
    decreases |s|
  {
    if s != [] {
      LeftIsOwn(s);
      RightIsOwn(s);
      MiddleSeparates(s);
      SelfPositionsAscend(s[..|s| / 2]);
      SelfPositionsAscend(s[|s| / 2 + 1..]);
      AscendsAround(s, |s| / 2);
    }
  }

  // ----- Sorted sequences without repetition -----

  /** A sorted set: `x` put where it belongs, once. */
  function InsertUnique(s: seq<nat>, x: nat): (r: seq<nat>)
    ensures forall y :: y in r <==> y in s || y == x
  {
    if s == [] then [x] else
      var last := |s| - 1;
      assert s == s[..last] + [s[last]];
      if x > s[last] then s + [x] else if x == s[last] then s else InsertUnique(s[..last], x) + [s[last]]
  }

  lemma {:induction false} InsertUniqueAscends(s: seq<nat>, x: nat)
    requires StrictlyIncreasing(s)
    ensures StrictlyIncreasing(InsertUnique(s, x))
    decreases |s|
  {
    if s != [] && x < s[|s| - 1] {
      var last := |s| - 1;
      InsertUniqueAscends(s[..last], x);
      var front := InsertUnique(s[..last], x);
      forall i | 0 <= i < |front|
        ensures front[i] < s[last]
      {
        assert front[i] in front;
      }
    }
  }

  function InsertAll(s: seq<nat>, xs: seq<nat>): (r: seq<nat>)
    ensures forall y :: y in r <==> y in s || y in xs
  {
    if xs == [] then s else
      var last := |xs| - 1;
      assert xs == xs[..last] + [xs[last]];
      InsertUnique(InsertAll(s, xs[..last]), xs[last])
  }

  lemma {:induction false} InsertAllAscends(s: seq<nat>, xs: seq<nat>)
    requires StrictlyIncreasing(s)
    ensures StrictlyIncreasing(InsertAll(s, xs))
    decreases |xs|
  {
    if xs != [] {
      InsertAllAscends(s, xs[..|xs| - 1]);
      InsertUniqueAscends(InsertAll(s, xs[..|xs| - 1]), xs[|xs| - 1]);
    }
  }
}
