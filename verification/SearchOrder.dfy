/** In which order cycles are found: by their smallest node, and of one smallest node by the hop, in the order of the
    hop table, where they part. A search that stops early has found the first ones of this order. */
module SearchOrder {
  import opened Lists
  import opened SimpleCycles

  /** Where the two part, the first takes the earlier hop. */
  ghost predicate TakesEarlier(a: Cycle, b: Cycle) {
    exists k: nat :: FirstDifferAt(a, b, k) && a[k] < b[k]
  }

  ghost predicate ComesBefore(hops: seq<HopView>, a: Cycle, b: Cycle) {
    && a != [] && a[0] < |hops| && b != [] && b[0] < |hops|
    && (|| hops[a[0]].fromNode < hops[b[0]].fromNode
        || (hops[a[0]].fromNode == hops[b[0]].fromNode && TakesEarlier(a, b)))
  }

  ghost predicate AreEarlier(cycles: seq<Cycle>) {
    forall i, j {:trigger TakesEarlier(cycles[i], cycles[j])} :: 0 <= i < j < |cycles| ==>
      TakesEarlier(cycles[i], cycles[j])
  }

  ghost predicate AreInOrder(hops: seq<HopView>, cycles: seq<Cycle>) {
    forall i, j {:trigger ComesBefore(hops, cycles[i], cycles[j])} :: 0 <= i < j < |cycles| ==>
      ComesBefore(hops, cycles[i], cycles[j])
  }

  // ----- From one start -----

  /** Cycles that go on from a path part where they leave it. */
  lemma PartAtPath(path: Cycle, a: Cycle, b: Cycle)
    requires path < a && path < b && a[|path|] < b[|path|]
    ensures TakesEarlier(a, b)
  {
    assert forall i :: 0 <= i < |path| ==> a[i] == path[i] == b[i];
    assert FirstDifferAt(a, b, |path|);
  }

  ghost predicate AllEarlier(a: seq<Cycle>, b: seq<Cycle>) {
    forall x, y {:trigger x in a, y in b} :: x in a && y in b ==> TakesEarlier(x, y)
  }

  ghost predicate AllBefore(hops: seq<HopView>, a: seq<Cycle>, b: seq<Cycle>) {
    forall x, y {:trigger x in a, y in b} :: x in a && y in b ==> ComesBefore(hops, x, y)
  }

  lemma EarlierConcat(a: seq<Cycle>, b: seq<Cycle>)
    requires AreEarlier(a) && AreEarlier(b)
    requires AllEarlier(a, b)
    ensures AreEarlier(a + b)
  {
    var ab := a + b;
    forall i, j | 0 <= i < j < |ab|
      ensures TakesEarlier(ab[i], ab[j])
    {
      if j < |a| {
        assert TakesEarlier(a[i], a[j]);
      } else if i >= |a| {
        assert TakesEarlier(b[i - |a|], b[j - |a|]);
      } else {
        assert a[i] in a && b[j - |a|] in b;
      }
    }
  }

  lemma {:induction false} VisitGoesInOrder(hops: seq<HopView>, full: set<nat>, maxDepth: nat, start: nat, path: Cycle,
                                            cursor: nat)
    requires IsSimplePath(hops, start, path) && |path| < maxDepth
    requires cursor < |OutHops(hops, EndNode(hops, start, path))|
    ensures AreEarlier(Visit(hops, full, maxDepth, start, path, cursor).cycles)
    decreases maxDepth - |path|, |OutHops(hops, EndNode(hops, start, path))| - cursor, 0
  {
    var e := OutHops(hops, EndNode(hops, start, path))[cursor];
    OutHopsAreOpen(hops, EndNode(hops, start, path));
    if hops[e].toNode > start && !OnPath(hops, start, path, hops[e].toNode) && |path| + 1 < maxDepth {
      PathExtends(hops, start, path, e);
      ExploreGoesInOrder(hops, full, maxDepth, start, path + [e], 0);
    }
  }

  /** Below one path the cycles come in the order of the hops by which they leave it, and so on below each. */
  lemma {:induction false} ExploreGoesInOrder(hops: seq<HopView>, full: set<nat>, maxDepth: nat, start: nat,
                                              path: Cycle, cursor: nat)
    requires IsSimplePath(hops, start, path) && |path| < maxDepth
    ensures AreEarlier(Explore(hops, full, maxDepth, start, path, cursor).cycles)
    decreases maxDepth - |path|, |OutHops(hops, EndNode(hops, start, path))| - cursor, 1
  {
    var out := OutHops(hops, EndNode(hops, start, path));
    if cursor < |out| {
      VisitGoesInOrder(hops, full, maxDepth, start, path, cursor);
      ExploreGoesInOrder(hops, full, maxDepth, start, path, cursor + 1);
      HereBeforeLater(hops, full, maxDepth, start, path, cursor);
      EarlierConcat(Visit(hops, full, maxDepth, start, path, cursor).cycles,
                    Explore(hops, full, maxDepth, start, path, cursor + 1).cycles);
    }
  }

  lemma HereBeforeLater(hops: seq<HopView>, full: set<nat>, maxDepth: nat, start: nat, path: Cycle, cursor: nat)
    requires IsSimplePath(hops, start, path) && |path| < maxDepth
    requires cursor < |OutHops(hops, EndNode(hops, start, path))|
    ensures AllEarlier(Visit(hops, full, maxDepth, start, path, cursor).cycles,
                       Explore(hops, full, maxDepth, start, path, cursor + 1).cycles)
  {
    var here, later := Visit(hops, full, maxDepth, start, path, cursor).cycles,
                       Explore(hops, full, maxDepth, start, path, cursor + 1).cycles;
    VisitIsSound(hops, full, maxDepth, start, path, cursor);
    ExploreIsSound(hops, full, maxDepth, start, path, cursor + 1);
    OutHopsAreOpen(hops, EndNode(hops, start, path));
    forall x, y | x in here && y in later
      ensures TakesEarlier(x, y)
    {
      assert Continues(hops, start, path, cursor, x) && Continues(hops, start, path, cursor + 1, y);
      PartAtPath(path, x, y);
    }
  }

  // ----- From all starts -----

  lemma OrderConcat(hops: seq<HopView>, a: seq<Cycle>, b: seq<Cycle>)
    requires AreInOrder(hops, a) && AreInOrder(hops, b)
    requires AllBefore(hops, a, b)
    ensures AreInOrder(hops, a + b)
  {
    var ab := a + b;
    forall i, j | 0 <= i < j < |ab|
      ensures ComesBefore(hops, ab[i], ab[j])
    {
      if j < |a| {
        assert ComesBefore(hops, a[i], a[j]);
      } else if i >= |a| {
        assert ComesBefore(hops, b[i - |a|], b[j - |a|]);
      } else {
        assert a[i] in a && b[j - |a|] in b;
      }
    }
  }

  lemma StartGoesInOrder(hops: seq<HopView>, full: set<nat>, maxDepth: nat, start: nat)
    requires maxDepth > 0
    ensures AreInOrder(hops, Explore(hops, full, maxDepth, start, [], 0).cycles)
  {
    var cycles := Explore(hops, full, maxDepth, start, [], 0).cycles;
    EmptyPathIsSimple(hops, start);
    ExploreGoesInOrder(hops, full, maxDepth, start, [], 0);
    ExploreFromRoot(hops, full, maxDepth, start);
    forall i, j | 0 <= i < j < |cycles|
      ensures ComesBefore(hops, cycles[i], cycles[j])
    {
      assert cycles[i] in cycles && cycles[j] in cycles;
      assert TakesEarlier(cycles[i], cycles[j]);
    }
  }

  /** The whole search finds its cycles in order. */
  lemma {:induction false} SearchGoesInOrder(hops: seq<HopView>, full: set<nat>, maxDepth: nat, starts: nat)
    requires maxDepth > 0
    ensures AreInOrder(hops, ExploreAll(hops, full, maxDepth, starts).cycles)
  {
    if starts > 0 {
      var before, last := ExploreAll(hops, full, maxDepth, starts - 1).cycles,
                          Explore(hops, full, maxDepth, starts - 1, [], 0).cycles;
      SearchGoesInOrder(hops, full, maxDepth, starts - 1);
      StartGoesInOrder(hops, full, maxDepth, starts - 1);
      StartsDiffer(hops, full, maxDepth, starts - 1);
      OrderConcat(hops, before, last);
    }
  }

  lemma StartsDiffer(hops: seq<HopView>, full: set<nat>, maxDepth: nat, start: nat)
    requires maxDepth > 0
    ensures AllBefore(hops, ExploreAll(hops, full, maxDepth, start).cycles,
                      Explore(hops, full, maxDepth, start, [], 0).cycles)
  {
    ExploreAllIsExact(hops, full, maxDepth, start);
    ExploreFromRoot(hops, full, maxDepth, start);
    forall x, y | x in ExploreAll(hops, full, maxDepth, start).cycles
                  && y in Explore(hops, full, maxDepth, start, [], 0).cycles
      ensures ComesBefore(hops, x, y)
    {
      assert FoundFrom(hops, full, maxDepth, start, x) && FoundFrom(hops, full, maxDepth, start + 1, y);
    }
  }
}
