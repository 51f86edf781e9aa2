/** Sorting by a key of three numbers. */
module Sorting {
  datatype Key = Key(a: nat, b: nat, c: nat)

  predicate KeyLess(x: Key, y: Key) {
    if x.a != y.a then x.a < y.a else if x.b != y.b then x.b < y.b else x.c < y.c
  }

  /** A number that is its own key. */
  function IdKey(n: nat): Key {
    Key(n, 0, 0)
  }

  predicate InOrder<T(!new)>(s: seq<T>, key: T -> Key, i: nat, j: nat)
    requires i < |s| && j < |s|
  {
    !KeyLess(key(s[j]), key(s[i]))
  }

  predicate IsSortedBy<T(!new)>(s: seq<T>, key: T -> Key) {
    forall i, j {:trigger InOrder(s, key, i, j)} :: 0 <= i < j < |s| ==> InOrder(s, key, i, j)
  }

  predicate IsBefore<T(!new)>(s: seq<T>, key: T -> Key, i: nat, j: nat)
    requires i < |s| && j < |s|
  {
    KeyLess(key(s[i]), key(s[j]))
  }

  predicate IsStrictBy<T(!new)>(s: seq<T>, key: T -> Key) {
    forall i, j {:trigger IsBefore(s, key, i, j)} :: 0 <= i < j < |s| ==> IsBefore(s, key, i, j)
  }

  function InsertBy<T(!new)>(s: seq<T>, x: T, key: T -> Key): (r: seq<T>)
    ensures |r| == |s| + 1
  {
    if s == [] then [x]
    else if KeyLess(key(x), key(s[|s| - 1])) then InsertBy(s[..|s| - 1], x, key) + [s[|s| - 1]]
    else s + [x]
  }

  function SortBy<T(!new)>(s: seq<T>, key: T -> Key): (r: seq<T>)
    ensures |r| == |s|
  {
    if s == [] then [] else InsertBy(SortBy(s[..|s| - 1], key), s[|s| - 1], key)
  }

  lemma {:induction false} InsertByKeeps<T(!new)>(s: seq<T>, x: T, key: T -> Key)
    ensures multiset(InsertBy(s, x, key)) == multiset(s) + multiset{x}
    decreases |s|
  {
    if s != [] {
      assert s == s[..|s| - 1] + [s[|s| - 1]];
      InsertByKeeps(s[..|s| - 1], x, key);
    }
  }

  /** Sorting loses nothing and adds nothing. */
  lemma {:induction false} SortByKeeps<T(!new)>(s: seq<T>, key: T -> Key)
    ensures multiset(SortBy(s, key)) == multiset(s)
    decreases |s|
  {
    if s != [] {
      assert s == s[..|s| - 1] + [s[|s| - 1]];
      SortByKeeps(s[..|s| - 1], key);
      InsertByKeeps(SortBy(s[..|s| - 1], key), s[|s| - 1], key);
    }
  }

  function Mapped<T, U>(s: seq<T>, f: T -> U): (r: seq<U>)
    ensures |r| == |s| && forall i {:trigger r[i]} :: 0 <= i < |s| ==> r[i] == f(s[i])
  {
    seq(|s|, i requires 0 <= i < |s| => f(s[i]))
  }

  lemma MappedFront<T, U>(s: seq<T>, f: T -> U)
    requires s != []
    ensures Mapped(s, f)[..|s| - 1] == Mapped(s[..|s| - 1], f) && Mapped(s, f)[|s| - 1] == f(s[|s| - 1])
    ensures Mapped(s, f) == Mapped(s[..|s| - 1], f) + [f(s[|s| - 1])]
  {
  }

  /** The same key, whether a record is looked at whole or in part. */
  ghost predicate KeepsKey<T(!new), U(!new)>(f: T -> U, key: T -> Key, partKey: U -> Key) {
    forall x {:trigger f(x)} :: partKey(f(x)) == key(x)
  }

  lemma {:induction false} InsertByMapped<T(!new), U(!new)>(s: seq<T>, x: T, f: T -> U, key: T -> Key,
                                                            partKey: U -> Key)
    requires KeepsKey(f, key, partKey)
    ensures Mapped(InsertBy(s, x, key), f) == InsertBy(Mapped(s, f), f(x), partKey)
    decreases |s|
  {
    if s != [] {
      MappedFront(s, f);
      InsertByMapped(s[..|s| - 1], x, f, key, partKey);
    }
  }

  /** Sorting records and looking at a part of each is sorting the parts. */
  lemma {:induction false} SortByMapped<T(!new), U(!new)>(s: seq<T>, f: T -> U, key: T -> Key, partKey: U -> Key)
    requires KeepsKey(f, key, partKey)
    ensures Mapped(SortBy(s, key), f) == SortBy(Mapped(s, f), partKey)
    decreases |s|
  {
    if s != [] {
      MappedFront(s, f);
      SortByMapped(s[..|s| - 1], f, key, partKey);
      InsertByMapped(SortBy(s[..|s| - 1], key), s[|s| - 1], f, key, partKey);
    }
  }

  predicate NoneAbove<T(!new)>(s: seq<T>, key: T -> Key, top: Key) {
    forall i {:trigger s[i]} :: 0 <= i < |s| ==> !KeyLess(top, key(s[i]))
  }

  lemma {:induction false} InsertedStaysBelow<T(!new)>(s: seq<T>, x: T, key: T -> Key, top: Key)
    requires NoneAbove(s, key, top) && !KeyLess(top, key(x))
    ensures NoneAbove(InsertBy(s, x, key), key, top)
    decreases |s|
  {
    if s != [] {
      InsertedStaysBelow(s[..|s| - 1], x, key, top);
    }
  }

  lemma AppendLargest<T(!new)>(s: seq<T>, x: T, key: T -> Key)
    requires IsSortedBy(s, key) && NoneAbove(s, key, key(x))
    ensures IsSortedBy(s + [x], key)
  {
    var r := s + [x];
    forall i, j | 0 <= i < j < |r|
      ensures InOrder(r, key, i, j)
    {
      if j < |s| {
        assert InOrder(s, key, i, j);
      } else {
        assert r[i] == s[i];
      }
    }
  }

  lemma FrontIsSorted<T(!new)>(s: seq<T>, key: T -> Key)
    requires IsSortedBy(s, key) && s != []
    ensures IsSortedBy(s[..|s| - 1], key) && NoneAbove(s[..|s| - 1], key, key(s[|s| - 1]))
  {
    var front := s[..|s| - 1];
    forall i, j | 0 <= i < j < |front|
      ensures InOrder(front, key, i, j)
    {
      assert InOrder(s, key, i, j);
    }
    forall i | 0 <= i < |front|
      ensures !KeyLess(key(s[|s| - 1]), key(front[i]))
    {
      assert InOrder(s, key, i, |s| - 1);
    }
  }

  lemma {:induction false} InsertBySorts<T(!new)>(s: seq<T>, x: T, key: T -> Key)
    requires IsSortedBy(s, key)
    ensures IsSortedBy(InsertBy(s, x, key), key)
    decreases |s|
  {
    if s != [] {
      var front, last := s[..|s| - 1], s[|s| - 1];
      FrontIsSorted(s, key);
      if KeyLess(key(x), key(last)) {
        InsertBySorts(front, x, key);
        InsertedStaysBelow(front, x, key, key(last));
        AppendLargest(InsertBy(front, x, key), last, key);
      } else {
        AppendLargest(s, x, key);
      }
    }
  }

  lemma {:induction false} SortBySorts<T(!new)>(s: seq<T>, key: T -> Key)
    ensures IsSortedBy(SortBy(s, key), key)
    decreases |s|
  {
    if s != [] {
      SortBySorts(s[..|s| - 1], key);
      InsertBySorts(SortBy(s[..|s| - 1], key), s[|s| - 1], key);
    }
  }

  /** Sorting what is sorted changes nothing. */
  lemma {:induction false} SortedStays<T(!new)>(s: seq<T>, key: T -> Key)
    requires IsSortedBy(s, key)
    ensures SortBy(s, key) == s
    decreases |s|
  {
    if s != [] {
      var front := s[..|s| - 1];
      FrontIsSorted(s, key);
      SortedStays(front, key);
      assert front != [] ==> !KeyLess(key(s[|s| - 1]), key(front[|front| - 1]));
      assert s == front + [s[|s| - 1]];
    }
  }

  predicate DiffersFromLast<T(!new)>(s: seq<T>, key: T -> Key, i: nat) {
    0 < i < |s| ==> key(s[i - 1]) != key(s[i])
  }

  /** In sorted order, neighbours with different keys make all keys different. */
  lemma {:induction false} NeighboursDecide<T(!new)>(s: seq<T>, key: T -> Key)
    requires IsSortedBy(s, key)
    requires forall i {:trigger DiffersFromLast(s, key, i)} :: 0 < i < |s| ==> DiffersFromLast(s, key, i)
    ensures IsStrictBy(s, key)
    decreases |s|
  {
    if |s| > 1 {
      var n := |s| - 1;
      var front := s[..n];
      FrontIsSorted(s, key);
      forall i | 0 < i < |front|
        ensures DiffersFromLast(front, key, i)
      {
        assert DiffersFromLast(s, key, i);
      }
      NeighboursDecide(front, key);
      assert InOrder(s, key, n - 1, n) && DiffersFromLast(s, key, n);
      forall i, j | 0 <= i < j < |s|
        ensures IsBefore(s, key, i, j)
      {
        assert j < n ==> IsBefore(front, key, i, j);
        assert i < n - 1 ==> IsBefore(front, key, i, n - 1);
      }
    }
  }

  lemma LastIsHighest<T(!new)>(s: seq<T>, x: T, key: T -> Key)
    requires IsStrictBy(s, key) && x in multiset(s)
    ensures x == s[|s| - 1] || KeyLess(key(x), key(s[|s| - 1]))
  {
    assert x in s;
    var i :| 0 <= i < |s| && s[i] == x;
    assert i < |s| - 1 ==> IsBefore(s, key, i, |s| - 1);
  }

  lemma Front<T(!new)>(s: seq<T>, key: T -> Key)
    requires s != [] && IsStrictBy(s, key)
    ensures multiset(s[..|s| - 1]) == multiset(s) - multiset{s[|s| - 1]}
    ensures s[|s| - 1] in multiset(s) && IsStrictBy(s[..|s| - 1], key)
  {
    var front := s[..|s| - 1];
    assert s == front + [s[|s| - 1]];
    forall i, j | 0 <= i < j < |front|
      ensures IsBefore(front, key, i, j)
    {
      assert IsBefore(s, key, i, j);
    }
  }

  lemma SameLength<T(!new)>(a: seq<T>, b: seq<T>)
    requires multiset(a) == multiset(b)
    ensures |a| == |b|
  {
    assert |a| == |multiset(a)| && |b| == |multiset(b)|;
  }

  lemma SortedFront<T(!new)>(s: seq<T>, x: T, key: T -> Key)
    requires s != [] && IsSortedBy(s, key) && x in multiset(s)
    ensures multiset(s[..|s| - 1]) == multiset(s) - multiset{s[|s| - 1]} && s[|s| - 1] in multiset(s)
    ensures !KeyLess(key(s[|s| - 1]), key(x))
  {
    assert s == s[..|s| - 1] + [s[|s| - 1]];
    assert x in s;
    var i :| 0 <= i < |s| && s[i] == x;
    assert i < |s| - 1 ==> InOrder(s, key, i, |s| - 1);
  }

  lemma SameEnds<T>(a: seq<T>, b: seq<T>)
    requires |a| == |b| > 0 && a[..|a| - 1] == b[..|b| - 1] && a[|a| - 1] == b[|b| - 1]
    ensures a == b
  {
    assert a == a[..|a| - 1] + [a[|a| - 1]];
    assert b == b[..|b| - 1] + [b[|b| - 1]];
  }

  /** Contents with different keys have one sorted order. */
  lemma {:induction false} StrictIsUnique<T(!new)>(a: seq<T>, b: seq<T>, key: T -> Key)
    requires IsStrictBy(a, key) && IsSortedBy(b, key) && multiset(a) == multiset(b)
    ensures a == b
    decreases |a|
  {
    SameLength(a, b);
    if a != [] {
      var n := |a| - 1;
      Front(a, key);
      SortedFront(b, a[n], key);
      LastIsHighest(a, b[n], key);
      FrontIsSorted(b, key);
      StrictIsUnique(a[..n], b[..n], key);
      SameEnds(a, b);
    }
  }
}
