/** What the witness search looks for, and the depth-first order in which it looks.

    A cycle is the list of hop numbers it traverses, starting at its smallest node. */
module SimpleCycles {
  import opened Lists
  import opened Masks
  import opened Probe

  /** A hop as the search sees it; `mask` ranges over the candidate selectors. */
  datatype HopView = HopView(fromNode: nat, toNode: nat, klass: HopClass, traversable: bool, mask: Mask) {
    predicate Open() {
      traversable && klass.Proven?
    }
  }

  type Cycle = seq<nat>

  /** The node reached after the first `i` hops of `path`. */
  ghost function NodeAt(hops: seq<HopView>, start: nat, path: Cycle, i: nat): nat {
    if 0 < i <= |path| && path[i - 1] < |hops| then hops[path[i - 1]].toNode else start
  }

  ghost function EndNode(hops: seq<HopView>, start: nat, path: Cycle): nat {
    NodeAt(hops, start, path, |path|)
  }

  ghost predicate IsOpenHopFrom(hops: seq<HopView>, e: nat, node: nat) {
    e < |hops| && hops[e].Open() && hops[e].fromNode == node
  }

  ghost predicate NodesDiffer(hops: seq<HopView>, start: nat, path: Cycle, i: nat, j: nat) {
    NodeAt(hops, start, path, i) != NodeAt(hops, start, path, j)
  }

  ghost predicate IsAbove(hops: seq<HopView>, start: nat, path: Cycle, i: nat) {
    start < NodeAt(hops, start, path, i)
  }

  ghost predicate TakesOpenHop(hops: seq<HopView>, start: nat, path: Cycle, i: nat) {
    i < |path| && IsOpenHopFrom(hops, path[i], NodeAt(hops, start, path, i))
  }

  /** An open path from `start` through distinct larger nodes. */
  ghost predicate IsSimplePath(hops: seq<HopView>, start: nat, path: Cycle) {
    && (forall i :: 0 <= i < |path| ==> TakesOpenHop(hops, start, path, i))
    && (forall i :: 0 < i <= |path| ==> IsAbove(hops, start, path, i))
    && (forall i, j :: 0 <= i < j <= |path| ==> NodesDiffer(hops, start, path, i, j))
  }

  /** A simple cycle of open hops, written from its smallest node. */
  ghost predicate IsRootedCycle(hops: seq<HopView>, c: Cycle) {
    && |c| > 0 && c[0] < |hops|
    && var start := hops[c[0]].fromNode;
       && (forall i :: 0 <= i < |c| ==> TakesOpenHop(hops, start, c, i))
       && NodeAt(hops, start, c, |c|) == start
       && (forall i :: 0 < i < |c| ==> IsAbove(hops, start, c, i))
       && (forall i, j :: 0 <= i < j < |c| ==> NodesDiffer(hops, start, c, i, j))
  }

  /** The selectors of `full` that every hop of `path` carries. */
  ghost function Common(hops: seq<HopView>, full: set<nat>, path: Cycle): set<nat> {
    if path == [] then full else
      var e := path[|path| - 1];
      Common(hops, full, path[..|path| - 1]) * if e < |hops| then Bits(hops[e].mask) else {}
  }

  lemma {:induction false} CommonMeansAll(hops: seq<HopView>, full: set<nat>, path: Cycle, s: nat)
    ensures s in Common(hops, full, path)
       <==> s in full && forall i :: 0 <= i < |path| ==> path[i] < |hops| && s in Bits(hops[path[i]].mask)
    decreases |path|
  {
    if path != [] {
      var front := path[..|path| - 1];
      CommonMeansAll(hops, full, front, s);
      assert forall i :: 0 <= i < |front| ==> front[i] == path[i];
    }
  }

  lemma {:induction false} CommonShrinks(hops: seq<HopView>, full: set<nat>, path: Cycle, k: nat)
    requires k <= |path|
    ensures Common(hops, full, path) <= Common(hops, full, path[..k])
    decreases |path| - k
  {
    if k < |path| {
      CommonShrinks(hops, full, path, k + 1);
      assert path[..k + 1][..k] == path[..k];
    } else {
      assert path[..k] == path;
    }
  }

  /** The open hops that leave `v`, in the order of the hop table. */
  ghost function OutHops(hops: seq<HopView>, v: nat): (out: seq<nat>)
    ensures forall j {:trigger out[j]} :: 0 <= j < |out| ==> out[j] < |hops|
  {
    if hops == [] then [] else
      var last := |hops| - 1;
      var rest := OutHops(hops[..last], v);
      if hops[last].Open() && hops[last].fromNode == v then rest + [last] else rest
  }

  lemma {:induction false} OutHopsAreOpen(hops: seq<HopView>, v: nat)
    ensures forall j :: 0 <= j < |OutHops(hops, v)| ==> IsOpenHopFrom(hops, OutHops(hops, v)[j], v)
    ensures forall i, j :: 0 <= i < j < |OutHops(hops, v)| ==> OutHops(hops, v)[i] < OutHops(hops, v)[j]
    decreases |hops|
  {
    if hops != [] {
      var front := hops[..|hops| - 1];
      OutHopsAreOpen(front, v);
      assert forall e :: IsOpenHopFrom(front, e, v) ==> IsOpenHopFrom(hops, e, v);
    }
  }

  lemma {:induction false} OutHopsAreAll(hops: seq<HopView>, v: nat, e: nat) returns (j: nat)
    requires IsOpenHopFrom(hops, e, v)
    ensures j < |OutHops(hops, v)| && OutHops(hops, v)[j] == e
    decreases |hops|
  {
    var last := |hops| - 1;
    if e == last {
      j := |OutHops(hops, v)| - 1;
    } else {
      assert IsOpenHopFrom(hops[..last], e, v);
      j := OutHopsAreAll(hops[..last], v, e);
    }
  }

  /** What a piece of the search finds, and at which of its steps; at which steps the length bound cut it; and its
      cost. */
  datatype Report = Report(cycles: seq<Cycle>, at: seq<nat>, cuts: seq<nat>, steps: nat) {
    function Then(next: Report): Report {
      Report(cycles + next.cycles, at + Later(next.at, steps), cuts + Later(next.cuts, steps), steps + next.steps)
    }

    predicate Pruned() { |cuts| > 0 }
  }

  /** Times, counted from `n` steps earlier. */
  function Later(times: seq<nat>, n: nat): (r: seq<nat>)
    ensures |r| == |times|
  {
    seq(|times|, i requires 0 <= i < |times| => times[i] + n)
  }

  lemma EitherPruned(a: Report, b: Report)
    ensures a.Then(b).Pruned() <==> a.Pruned() || b.Pruned()
  {
    assert |a.Then(b).cuts| == |a.cuts| + |b.cuts|;
  }

  const NOTHING: Report := Report([], [], [], 0)
  const PASSED: Report := Report([], [], [], 1)
  const CUT: Report := Report([], [], [1], 1)

  function Closed(c: Cycle): Report {
    Report([c], [1], [], 1)
  }

  ghost predicate OnPath(hops: seq<HopView>, start: nat, path: Cycle, node: nat) {
    exists i :: 0 <= i <= |path| && NodeAt(hops, start, path, i) == node
  }

  /** The search below `path`, from the out-hop number `cursor` on. */
  ghost function Explore(hops: seq<HopView>, full: set<nat>, maxDepth: nat, start: nat, path: Cycle,
                         cursor: nat): Report
    decreases maxDepth - |path|, |OutHops(hops, EndNode(hops, start, path))| - cursor, 1
  {
    var out := OutHops(hops, EndNode(hops, start, path));
    if cursor >= |out| then NOTHING else
      Visit(hops, full, maxDepth, start, path, cursor)
        .Then(Explore(hops, full, maxDepth, start, path, cursor + 1))
  }

  /** What out-hop number `cursor` at the end of `path` leads to. */
  ghost function Visit(hops: seq<HopView>, full: set<nat>, maxDepth: nat, start: nat, path: Cycle, cursor: nat): Report
    requires cursor < |OutHops(hops, EndNode(hops, start, path))|
    decreases maxDepth - |path|, |OutHops(hops, EndNode(hops, start, path))| - cursor, 0
  {
    var e := OutHops(hops, EndNode(hops, start, path))[cursor];
    var next := hops[e].toNode;
    if Common(hops, full, path + [e]) == {} then PASSED
    else if next == start then Closed(path + [e])
    else if next < start || OnPath(hops, start, path, next) then PASSED
    else if |path| + 1 >= maxDepth then CUT
    else PASSED.Then(Explore(hops, full, maxDepth, start, path + [e], 0))
  }

  /** The whole search, over the start nodes below `starts`. */
  ghost function ExploreAll(hops: seq<HopView>, full: set<nat>, maxDepth: nat, starts: nat): Report {
    if starts == 0 then NOTHING else
      ExploreAll(hops, full, maxDepth, starts - 1).Then(Explore(hops, full, maxDepth, starts - 1, [], 0))
  }

  // ----- Times -----

  /** Times rise, and lie within the steps taken. */
  predicate AreTimes(times: seq<nat>, steps: nat) {
    StrictlyIncreasing(times) && forall i {:trigger times[i]} :: 0 <= i < |times| ==> 1 <= times[i] <= steps
  }

  predicate IsTimed(r: Report) {
    |r.at| == |r.cycles| && AreTimes(r.at, r.steps) && AreTimes(r.cuts, r.steps)
  }

  lemma TimesGoOn(a: seq<nat>, n: nat, b: seq<nat>, m: nat)
    requires AreTimes(a, n) && AreTimes(b, m)
    ensures AreTimes(a + Later(b, n), n + m)
  {
    var all := a + Later(b, n);
    forall i, j | 0 <= i < j < |all|
      ensures all[i] < all[j]
    {
      assert i < |a| ==> a[i] <= n;
      assert j >= |a| ==> all[j] == b[j - |a|] + n;
      assert i >= |a| ==> all[i] == b[i - |a|] + n;
    }
  }

  lemma ThenIsTimed(a: Report, b: Report)
    requires IsTimed(a) && IsTimed(b)
    ensures IsTimed(a.Then(b))
  {
    TimesGoOn(a.at, a.steps, b.at, b.steps);
    TimesGoOn(a.cuts, a.steps, b.cuts, b.steps);
  }

  lemma {:induction false} ExploreIsTimed(hops: seq<HopView>, full: set<nat>, maxDepth: nat, start: nat, path: Cycle,
                                          cursor: nat)
    ensures IsTimed(Explore(hops, full, maxDepth, start, path, cursor))
    decreases maxDepth - |path|, |OutHops(hops, EndNode(hops, start, path))| - cursor, 1
  {
    if cursor < |OutHops(hops, EndNode(hops, start, path))| {
      VisitIsTimed(hops, full, maxDepth, start, path, cursor);
      ExploreIsTimed(hops, full, maxDepth, start, path, cursor + 1);
      ThenIsTimed(Visit(hops, full, maxDepth, start, path, cursor),
                  Explore(hops, full, maxDepth, start, path, cursor + 1));
    }
  }

  lemma {:induction false} VisitIsTimed(hops: seq<HopView>, full: set<nat>, maxDepth: nat, start: nat, path: Cycle,
                                        cursor: nat)
    requires cursor < |OutHops(hops, EndNode(hops, start, path))|
    ensures IsTimed(Visit(hops, full, maxDepth, start, path, cursor))
    decreases maxDepth - |path|, |OutHops(hops, EndNode(hops, start, path))| - cursor, 0
  {
    if |path| + 1 < maxDepth {
      var e := OutHops(hops, EndNode(hops, start, path))[cursor];
      ExploreIsTimed(hops, full, maxDepth, start, path + [e], 0);
      ThenIsTimed(PASSED, Explore(hops, full, maxDepth, start, path + [e], 0));
    }
  }

  lemma {:induction false} ExploreAllIsTimed(hops: seq<HopView>, full: set<nat>, maxDepth: nat, starts: nat)
    ensures IsTimed(ExploreAll(hops, full, maxDepth, starts))
  {
    if starts > 0 {
      ExploreAllIsTimed(hops, full, maxDepth, starts - 1);
      ExploreIsTimed(hops, full, maxDepth, starts - 1, [], 0);
      ThenIsTimed(ExploreAll(hops, full, maxDepth, starts - 1), Explore(hops, full, maxDepth, starts - 1, [], 0));
    }
  }

  // ----- Paths -----

  lemma NodeAtPrefix(hops: seq<HopView>, start: nat, path: Cycle, more: Cycle, i: nat)
    requires path <= more && i <= |path|
    ensures NodeAt(hops, start, path, i) == NodeAt(hops, start, more, i)
  {
  }

  lemma PathExtends(hops: seq<HopView>, start: nat, path: Cycle, e: nat)
    requires IsSimplePath(hops, start, path)
    requires IsOpenHopFrom(hops, e, EndNode(hops, start, path))
    requires start < hops[e].toNode && !OnPath(hops, start, path, hops[e].toNode)
    ensures IsSimplePath(hops, start, path + [e])
  {
    var longer := path + [e];
    StepsCarryOver(hops, start, path, longer);
    assert NodeAt(hops, start, longer, |longer|) == hops[e].toNode;
    forall i | 0 < i <= |longer|
      ensures IsAbove(hops, start, longer, i)
    {
      assert i <= |path| ==> IsAbove(hops, start, path, i);
    }
    forall i, j | 0 <= i < j <= |longer|
      ensures NodesDiffer(hops, start, longer, i, j)
    {
      assert j <= |path| ==> NodesDiffer(hops, start, path, i, j);
      assert j == |longer| ==> NodeAt(hops, start, path, i) != hops[e].toNode;
    }
  }

  /** A path keeps its nodes, and its open hops, when one hop is added. */
  lemma StepsCarryOver(hops: seq<HopView>, start: nat, path: Cycle, longer: Cycle)
    requires IsSimplePath(hops, start, path)
    requires |longer| == |path| + 1 && longer[..|path|] == path
    requires IsOpenHopFrom(hops, longer[|path|], EndNode(hops, start, path))
    ensures forall i :: 0 <= i <= |path| ==> NodeAt(hops, start, longer, i) == NodeAt(hops, start, path, i)
    ensures forall i :: 0 <= i < |longer| ==> TakesOpenHop(hops, start, longer, i)
  {
    forall i | 0 <= i <= |path|
      ensures NodeAt(hops, start, longer, i) == NodeAt(hops, start, path, i)
    {
      assert i > 0 ==> longer[i - 1] == path[i - 1];
    }
    forall i | 0 <= i < |longer|
      ensures TakesOpenHop(hops, start, longer, i)
    {
      assert i < |path| ==> TakesOpenHop(hops, start, path, i) && longer[i] == path[i];
    }
  }

  // ----- Soundness -----

  /** `c` goes on from `path` through an out-hop whose number is at least `cursor`. */
  ghost predicate Continues(hops: seq<HopView>, start: nat, path: Cycle, cursor: nat, c: Cycle) {
    && path < c
    && exists j :: cursor <= j < |OutHops(hops, EndNode(hops, start, path))|
                   && OutHops(hops, EndNode(hops, start, path))[j] == c[|path|]
  }

  ghost predicate IsSound(hops: seq<HopView>, full: set<nat>, maxDepth: nat, start: nat, path: Cycle, cursor: nat,
                          c: Cycle) {
    && IsRootedCycle(hops, c) && hops[c[0]].fromNode == start
    && Common(hops, full, c) != {}
    && |c| <= maxDepth
    && Continues(hops, start, path, cursor, c)
  }

  lemma {:induction false} ExploreIsSound(hops: seq<HopView>, full: set<nat>, maxDepth: nat, start: nat, path: Cycle,
                                          cursor: nat)
    requires IsSimplePath(hops, start, path) && |path| < maxDepth
    ensures forall c :: c in Explore(hops, full, maxDepth, start, path, cursor).cycles ==>
              IsSound(hops, full, maxDepth, start, path, cursor, c)
    decreases maxDepth - |path|, |OutHops(hops, EndNode(hops, start, path))| - cursor, 1
  {
    var out := OutHops(hops, EndNode(hops, start, path));
    if cursor < |out| {
      VisitIsSound(hops, full, maxDepth, start, path, cursor);
      ExploreIsSound(hops, full, maxDepth, start, path, cursor + 1);
      forall c | c in Explore(hops, full, maxDepth, start, path, cursor).cycles
        ensures IsSound(hops, full, maxDepth, start, path, cursor, c)
      {
        if c in Visit(hops, full, maxDepth, start, path, cursor).cycles {
          assert out[cursor] == c[|path|];
        } else {
          assert c in Explore(hops, full, maxDepth, start, path, cursor + 1).cycles;
          assert Continues(hops, start, path, cursor + 1, c);
        }
      }
    }
  }

  lemma {:induction false} VisitIsSound(hops: seq<HopView>, full: set<nat>, maxDepth: nat, start: nat, path: Cycle,
                                        cursor: nat)
    requires IsSimplePath(hops, start, path) && |path| < maxDepth
    requires cursor < |OutHops(hops, EndNode(hops, start, path))|
    ensures forall c :: c in Visit(hops, full, maxDepth, start, path, cursor).cycles ==>
              && IsSound(hops, full, maxDepth, start, path, cursor, c)
              && c[|path|] == OutHops(hops, EndNode(hops, start, path))[cursor]
    decreases maxDepth - |path|, |OutHops(hops, EndNode(hops, start, path))| - cursor, 0
  {
    var out := OutHops(hops, EndNode(hops, start, path));
    var e := out[cursor];
    var next := hops[e].toNode;
    OutHopsAreOpen(hops, EndNode(hops, start, path));
    if Common(hops, full, path + [e]) == {} {
    } else if next == start {
      ClosingIsSound(hops, full, maxDepth, start, path, cursor);
    } else if next < start || OnPath(hops, start, path, next) || |path| + 1 >= maxDepth {
    } else {
      PathExtends(hops, start, path, e);
      ExploreIsSound(hops, full, maxDepth, start, path + [e], 0);
      forall c | c in Explore(hops, full, maxDepth, start, path + [e], 0).cycles
        ensures IsSound(hops, full, maxDepth, start, path, cursor, c) && c[|path|] == e
      {
        assert Continues(hops, start, path + [e], 0, c);
        assert c[|path|] == (path + [e])[|path|];
        assert path < c;
        assert out[cursor] == c[|path|];
      }
    }
  }

  lemma ClosingIsSound(hops: seq<HopView>, full: set<nat>, maxDepth: nat, start: nat, path: Cycle, cursor: nat)
    requires IsSimplePath(hops, start, path) && |path| < maxDepth
    requires cursor < |OutHops(hops, EndNode(hops, start, path))|
    requires var e := OutHops(hops, EndNode(hops, start, path))[cursor];
             hops[e].toNode == start && Common(hops, full, path + [e]) != {}
    ensures IsSound(hops, full, maxDepth, start, path, cursor,
                    path + [OutHops(hops, EndNode(hops, start, path))[cursor]])
  {
    var out := OutHops(hops, EndNode(hops, start, path));
    var e := out[cursor];
    OutHopsAreOpen(hops, EndNode(hops, start, path));
    PathCloses(hops, start, path, e);
    assert out[cursor] == (path + [e])[|path|];
  }

  lemma PathCloses(hops: seq<HopView>, start: nat, path: Cycle, e: nat)
    requires IsSimplePath(hops, start, path)
    requires IsOpenHopFrom(hops, e, EndNode(hops, start, path)) && hops[e].toNode == start
    ensures IsRootedCycle(hops, path + [e]) && hops[(path + [e])[0]].fromNode == start
  {
    var c := path + [e];
    StepsCarryOver(hops, start, path, c);
    assert TakesOpenHop(hops, start, c, 0);
    forall i | 0 < i < |c|
      ensures IsAbove(hops, start, c, i)
    {
      assert IsAbove(hops, start, path, i);
    }
    forall i, j | 0 <= i < j < |c|
      ensures NodesDiffer(hops, start, c, i, j)
    {
      assert NodesDiffer(hops, start, path, i, j);
    }
  }

  // ----- Completeness -----

  /** Hop number `k` of `c` is out-hop number `j` of the node where it is taken. */
  ghost predicate IsOutHop(hops: seq<HopView>, start: nat, c: Cycle, k: nat, j: nat) {
    && k < |c|
    && var out := OutHops(hops, EndNode(hops, start, c[..k]));
       j < |out| && out[j] == c[k]
  }

  lemma {:induction false} ExploreIsComplete(hops: seq<HopView>, full: set<nat>, maxDepth: nat, start: nat, k: nat,
                                             cursor: nat, j: nat, c: Cycle)
    requires IsRootedCycle(hops, c) && hops[c[0]].fromNode == start
    requires Common(hops, full, c) != {}
    requires k < maxDepth && cursor <= j && IsOutHop(hops, start, c, k, j)
    ensures var r := Explore(hops, full, maxDepth, start, c[..k], cursor);
            c in r.cycles || (r.Pruned() && |c| > maxDepth)
    decreases maxDepth - k, j - cursor
  {
    EitherPruned(Visit(hops, full, maxDepth, start, c[..k], cursor),
                 Explore(hops, full, maxDepth, start, c[..k], cursor + 1));
    if cursor < j {
      ExploreIsComplete(hops, full, maxDepth, start, k, cursor + 1, j, c);
    } else {
      VisitFollows(hops, full, maxDepth, start, k, cursor, c);
      if k + 1 < |c| && k + 1 < maxDepth {
        var next := CycleGoesOn(hops, start, c, k + 1);
        ExploreIsComplete(hops, full, maxDepth, start, k + 1, 0, next, c);
      }
    }
  }

  /** The hop a cycle takes from each of its nodes is among that node's out-hops. */
  lemma CycleGoesOn(hops: seq<HopView>, start: nat, c: Cycle, k: nat) returns (j: nat)
    requires IsRootedCycle(hops, c) && hops[c[0]].fromNode == start && k < |c|
    ensures IsOutHop(hops, start, c, k, j)
  {
    NodeAtPrefix(hops, start, c[..k], c, k);
    assert TakesOpenHop(hops, start, c, k);
    j := OutHopsAreAll(hops, EndNode(hops, start, c[..k]), c[k]);
  }

  /** Following a cycle, the search closes it, goes one deeper, or is cut by the length bound. */
  lemma VisitFollows(hops: seq<HopView>, full: set<nat>, maxDepth: nat, start: nat, k: nat, cursor: nat, c: Cycle)
    requires IsRootedCycle(hops, c) && hops[c[0]].fromNode == start
    requires Common(hops, full, c) != {}
    requires k < maxDepth && IsOutHop(hops, start, c, k, cursor)
    ensures var r := Visit(hops, full, maxDepth, start, c[..k], cursor);
            if k + 1 == |c| then c in r.cycles
            else if k + 1 >= maxDepth then r.Pruned()
            else r == PASSED.Then(Explore(hops, full, maxDepth, start, c[..k + 1], 0))
  {
    var path, e := c[..k], c[k];
    assert c[..k + 1] == path + [e];
    assert NodeAt(hops, start, c, k + 1) == hops[e].toNode;
    CommonShrinks(hops, full, c, k + 1);
    if k + 1 == |c| {
      assert c == path + [e];
    } else {
      NotOnPrefix(hops, start, c, k);
    }
  }

  lemma NotOnPrefix(hops: seq<HopView>, start: nat, c: Cycle, k: nat)
    requires IsRootedCycle(hops, c) && hops[c[0]].fromNode == start && k + 1 < |c|
    ensures start < NodeAt(hops, start, c, k + 1)
    ensures !OnPath(hops, start, c[..k], NodeAt(hops, start, c, k + 1))
  {
    var node := NodeAt(hops, start, c, k + 1);
    assert IsAbove(hops, start, c, k + 1);
    forall i | 0 <= i <= k
      ensures NodeAt(hops, start, c[..k], i) != node
    {
      NodeAtPrefix(hops, start, c[..k], c, i);
      assert NodesDiffer(hops, start, c, i, k + 1);
    }
  }

  // ----- No cycle twice -----

  ghost predicate Distinct(cycles: seq<Cycle>) {
    forall i, j :: 0 <= i < j < |cycles| ==> cycles[i] != cycles[j]
  }

  lemma DistinctConcat(a: seq<Cycle>, b: seq<Cycle>)
    requires Distinct(a) && Distinct(b)
    requires forall c :: c in a ==> c !in b
    ensures Distinct(a + b)
  {
    var ab := a + b;
    forall i, j | 0 <= i < j < |ab|
      ensures ab[i] != ab[j]
    {
      if i < |a| <= j {
        assert ab[i] in a && ab[j] in b;
      }
    }
  }

  lemma {:induction false} ExploreIsDistinct(hops: seq<HopView>, full: set<nat>, maxDepth: nat, start: nat, path: Cycle,
                                             cursor: nat)
    requires IsSimplePath(hops, start, path) && |path| < maxDepth
    ensures Distinct(Explore(hops, full, maxDepth, start, path, cursor).cycles)
    decreases maxDepth - |path|, |OutHops(hops, EndNode(hops, start, path))| - cursor
  {
    var out := OutHops(hops, EndNode(hops, start, path));
    OutHopsAreOpen(hops, EndNode(hops, start, path));
    if cursor < |out| {
      var e := out[cursor];
      var next := hops[e].toNode;
      if next > start && !OnPath(hops, start, path, next) && |path| + 1 < maxDepth {
        PathExtends(hops, start, path, e);
        ExploreIsDistinct(hops, full, maxDepth, start, path + [e], 0);
      }
      ExploreIsDistinct(hops, full, maxDepth, start, path, cursor + 1);
      VisitIsSound(hops, full, maxDepth, start, path, cursor);
      ExploreIsSound(hops, full, maxDepth, start, path, cursor + 1);
      var here := Visit(hops, full, maxDepth, start, path, cursor).cycles;
      var later := Explore(hops, full, maxDepth, start, path, cursor + 1).cycles;
      forall c | c in here
        ensures c !in later
      {
        assert c[|path|] == out[cursor];
      }
      DistinctConcat(here, later);
    }
  }

  // ----- The whole search -----

  lemma EmptyPathIsSimple(hops: seq<HopView>, start: nat)
    ensures IsSimplePath(hops, start, [])
  {
  }

  ghost predicate FoundFrom(hops: seq<HopView>, full: set<nat>, maxDepth: nat, starts: nat, c: Cycle) {
    && IsRootedCycle(hops, c) && hops[c[0]].fromNode < starts
    && Common(hops, full, c) != {}
    && |c| <= maxDepth
  }

  ghost predicate IsAdmissible(hops: seq<HopView>, full: set<nat>, start: nat, c: Cycle) {
    IsRootedCycle(hops, c) && hops[c[0]].fromNode == start && Common(hops, full, c) != {}
  }

  /** The cycles are those found from one start node, each once. */
  ghost predicate FindsAt(hops: seq<HopView>, full: set<nat>, maxDepth: nat, start: nat, cycles: seq<Cycle>) {
    && Distinct(cycles)
    && forall c :: c in cycles <==> FoundFrom(hops, full, maxDepth, start + 1, c) && hops[c[0]].fromNode == start
  }

  /** The cycles are those found from the start nodes below `starts`, each once. */
  ghost predicate FindsBelow(hops: seq<HopView>, full: set<nat>, maxDepth: nat, starts: nat, cycles: seq<Cycle>) {
    Distinct(cycles) && forall c :: c in cycles <==> FoundFrom(hops, full, maxDepth, starts, c)
  }

  /** The search from one start node finds exactly the cycles rooted there. */
  lemma ExploreFromRoot(hops: seq<HopView>, full: set<nat>, maxDepth: nat, start: nat)
    requires maxDepth > 0
    ensures var r := Explore(hops, full, maxDepth, start, [], 0);
            && FindsAt(hops, full, maxDepth, start, r.cycles)
            && (!r.Pruned() ==> forall c :: IsAdmissible(hops, full, start, c) ==> |c| <= maxDepth)
  {
    var r := Explore(hops, full, maxDepth, start, [], 0);
    EmptyPathIsSimple(hops, start);
    ExploreIsSound(hops, full, maxDepth, start, [], 0);
    ExploreIsDistinct(hops, full, maxDepth, start, [], 0);
    forall c | IsAdmissible(hops, full, start, c)
      ensures c in r.cycles || (r.Pruned() && |c| > maxDepth)
    {
      var j := CycleGoesOn(hops, start, c, 0);
      assert c[..0] == [];
      ExploreIsComplete(hops, full, maxDepth, start, 0, 0, j, c);
    }
    forall c | c in r.cycles
      ensures FoundFrom(hops, full, maxDepth, start + 1, c) && hops[c[0]].fromNode == start
    {
      assert IsSound(hops, full, maxDepth, start, [], 0, c);
    }
  }

  /** What is found from the start nodes so far, and from one more. */
  lemma BothFound(hops: seq<HopView>, full: set<nat>, maxDepth: nat, start: nat, before: Report, last: Report)
    requires FindsBelow(hops, full, maxDepth, start, before.cycles) && FindsAt(hops, full, maxDepth, start, last.cycles)
    ensures FindsBelow(hops, full, maxDepth, start + 1, before.Then(last).cycles)
  {
    DistinctConcat(before.cycles, last.cycles);
    forall c
      ensures c in before.cycles + last.cycles <==> FoundFrom(hops, full, maxDepth, start + 1, c)
    {
      assert c in before.cycles + last.cycles <==> c in before.cycles || c in last.cycles;
    }
  }

  /** The search emits every rooted cycle within the length bound that has a common selector, each once. */
  lemma {:induction false} ExploreAllIsExact(hops: seq<HopView>, full: set<nat>, maxDepth: nat, starts: nat)
    requires maxDepth > 0
    ensures FindsBelow(hops, full, maxDepth, starts, ExploreAll(hops, full, maxDepth, starts).cycles)
  {
    if starts > 0 {
      ExploreAllIsExact(hops, full, maxDepth, starts - 1);
      ExploreFromRoot(hops, full, maxDepth, starts - 1);
      BothFound(hops, full, maxDepth, starts - 1, ExploreAll(hops, full, maxDepth, starts - 1),
                Explore(hops, full, maxDepth, starts - 1, [], 0));
    }
  }

  lemma UnprunedFromRoot(hops: seq<HopView>, full: set<nat>, maxDepth: nat, start: nat, c: Cycle)
    requires maxDepth > 0 && !Explore(hops, full, maxDepth, start, [], 0).Pruned() && IsAdmissible(hops, full, start, c)
    ensures |c| <= maxDepth
  {
    ExploreFromRoot(hops, full, maxDepth, start);
  }

  lemma {:induction false} UnprunedAt(hops: seq<HopView>, full: set<nat>, maxDepth: nat, starts: nat, root: nat)
    requires root < starts && !ExploreAll(hops, full, maxDepth, starts).Pruned()
    ensures !Explore(hops, full, maxDepth, root, [], 0).Pruned()
    decreases starts
  {
    var before, last := ExploreAll(hops, full, maxDepth, starts - 1), Explore(hops, full, maxDepth, starts - 1, [], 0);
    assert ExploreAll(hops, full, maxDepth, starts) == before.Then(last);
    EitherPruned(before, last);
    if root < starts - 1 {
      UnprunedAt(hops, full, maxDepth, starts - 1, root);
    }
  }

  /** A search the length bound never cut has missed no cycle, however long. */
  lemma UnprunedMeansAll(hops: seq<HopView>, full: set<nat>, maxDepth: nat, starts: nat, root: nat, c: Cycle)
    requires maxDepth > 0 && !ExploreAll(hops, full, maxDepth, starts).Pruned()
    requires IsAdmissible(hops, full, root, c) && root < starts
    ensures |c| <= maxDepth
  {
    UnprunedAt(hops, full, maxDepth, starts, root);
    UnprunedFromRoot(hops, full, maxDepth, root, c);
  }
}
