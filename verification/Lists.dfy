/** Sequences of numbers: their order, and the order among them. */
module Lists {
  predicate StrictlyIncreasing(s: seq<nat>) {
    forall i, j :: 0 <= i < j < |s| ==> s[i] < s[j]
  }

  predicate Nondecreasing(s: seq<nat>) {
    forall i, j :: 0 <= i <= j < |s| ==> s[i] <= s[j]
  }

  predicate NoDuplicates(s: seq<nat>) {
    forall i, j :: 0 <= i < j < |s| ==> s[i] != s[j]
  }

  predicate LexLess(a: seq<nat>, b: seq<nat>) {
    if b == [] then false
    else if a == [] then true
    else if a[0] != b[0] then a[0] < b[0]
    else LexLess(a[1..], b[1..])
  }

  lemma {:induction false} LexIsIrreflexive(a: seq<nat>)
    ensures !LexLess(a, a)
    decreases |a|
  {
    if a != [] {
      LexIsIrreflexive(a[1..]);
    }
  }

  lemma {:induction false} LexIsAsymmetric(a: seq<nat>, b: seq<nat>)
    requires LexLess(a, b)
    ensures !LexLess(b, a)
    decreases |a|
  {
    if a != [] && a[0] == b[0] {
      LexIsAsymmetric(a[1..], b[1..]);
    }
  }

  lemma {:induction false} LexIsTransitive(a: seq<nat>, b: seq<nat>, c: seq<nat>)
    requires LexLess(a, b) && LexLess(b, c)
    ensures LexLess(a, c)
    decreases |a|
  {
    if a != [] && a[0] == b[0] == c[0] {
      LexIsTransitive(a[1..], b[1..], c[1..]);
    }
  }

  lemma {:induction false} LexIsTotal(a: seq<nat>, b: seq<nat>)
    requires !LexLess(a, b) && !LexLess(b, a)
    ensures a == b
    decreases |a|
  {
    if a != [] && b != [] {
      LexIsTotal(a[1..], b[1..]);
      assert a == [a[0]] + a[1..] && b == [b[0]] + b[1..];
    }
  }

  // ----- The order on positions -----

  /** The first position where the two differ. */
  ghost predicate FirstDifferAt(a: seq<nat>, b: seq<nat>, k: nat) {
    k < |a| && k < |b| && a[k] != b[k] && forall i :: 0 <= i < k ==> a[i] == b[i]
  }

  /** Where two sequences differ first, the order is that of what they hold there; one that goes on where the other ends
      comes later. */
  lemma {:induction false} LexDecides(a: seq<nat>, b: seq<nat>, k: nat)
    requires FirstDifferAt(a, b, k)
    ensures LexLess(a, b) <==> a[k] < b[k]
    decreases k
  {
    if k > 0 {
      assert a[0] == b[0];
      LexDecides(a[1..], b[1..], k - 1);
    }
  }

  lemma {:induction false} FirstDifference(a: seq<nat>, b: seq<nat>) returns (k: nat)
    requires !(a <= b) && !(b <= a)
    ensures FirstDifferAt(a, b, k)
    decreases |a|
  {
    if a[0] != b[0] {
      k := 0;
    } else {
      assert a == [a[0]] + a[1..] && b == [b[0]] + b[1..];
      assert (a[1..] <= b[1..] ==> a <= b) && (b[1..] <= a[1..] ==> b <= a);
      var rest := FirstDifference(a[1..], b[1..]);
      k := rest + 1;
      forall i | 0 <= i < k
        ensures a[i] == b[i]
      {
        assert i > 0 ==> a[1..][i - 1] == b[1..][i - 1];
      }
    }
  }

  lemma {:induction false} LexOfPrefix(a: seq<nat>, b: seq<nat>)
    requires a <= b
    ensures LexLess(a, b) <==> |a| < |b|
    ensures !LexLess(b, a)
    decreases |a|
  {
    if a != [] {
      assert a[0] == b[0] && a[1..] <= b[1..];
      LexOfPrefix(a[1..], b[1..]);
    }
  }

  /** One ends where the other goes on, or holds less where they first differ. */
  ghost predicate GoesBefore(a: seq<nat>, b: seq<nat>) {
    a < b || exists k: nat :: FirstDifferAt(a, b, k) && a[k] < b[k]
  }

  lemma {:induction false} LexMeans(a: seq<nat>, b: seq<nat>)
    ensures LexLess(a, b) <==> GoesBefore(a, b)
  {
    if a <= b {
      LexOfPrefix(a, b);
    } else if b <= a {
      LexOfPrefix(b, a);
    } else {
      var k := FirstDifference(a, b);
      LexDecides(a, b, k);
      forall j: nat | FirstDifferAt(a, b, j)
        ensures j == k
      {
      }
    }
  }
}
