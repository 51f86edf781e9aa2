/** Witnesses dropped for what validating them would cost are counted, but set no flag of the assessment: a definition
    of one node and many hops to itself, every one of them stated open, on which a confirmed assessment has no flag set
    and leaves a loop uncovered. */
module SilentDrops {
  import opened Masks
  import opened SimpleCycles
  import opened Topology
  import opened Order
  import opened Evidence
  import opened Ledger
  import opened Witness
  import opened HopViews
  import opened WitnessSearch
  import opened Completeness
  import opened Existence
  import opened Detector
  import opened Coverage
  import opened Statements

  /** As many edges as the program's own limits allow at most. */
  const MAX_EDGES: nat := 262144

  // ----- The definition -----

  function HopToItself(i: nat): ForwardingEdge {
    ForwardingEdge(i + 1, 1, 1, 1, Up, [9])
  }

  /** One node with `n` hops to itself. */
  function Rosette(n: nat): TopologyDefinition {
    TopologyDefinition(1, [ResourceRecord(1, 1, 0, Enabled, false, 0)], seq(n, i requires 0 <= i => HopToItself(i)),
                       [9])
  }

  /** Room for every cycle, witness and step. */
  function RoomFor(n: nat): Limits {
    Limits(8, n + 1, n + 1, n + 1, 4)
  }

  lemma RosetteIsPlain(n: nat)
    ensures IsCanonical(Rosette(n)) && Clean(Rosette(n))
    ensures ResourceIndex(Rosette(n).resources, 1) == Some(0)
    ensures forall i {:trigger Rosette(n).edges[i]} :: 0 <= i < n ==> IsPlain(Rosette(n), Rosette(n).edges[i])
  {
    ResourceIndexIsUnique(Rosette(n).resources, 0);
  }

  // ----- The search -----

  /** The hops as the search sees them. */
  ghost predicate AreLoops(hops: seq<HopView>) {
    forall i {:trigger hops[i]} :: 0 <= i < |hops| ==>
      hops[i].Open() && Bits(hops[i].mask) == {0} && hops[i].fromNode == hops[i].toNode == 0
  }

  lemma {:induction false} OutOfNode(hops: seq<HopView>)
    requires AreLoops(hops)
    ensures |OutHops(hops, 0)| == |hops| && forall i :: 0 <= i < |hops| ==> OutHops(hops, 0)[i] == i
    decreases |hops|
  {
    if hops != [] {
      OutOfNode(hops[..|hops| - 1]);
    }
  }

  lemma HopInCommon(hops: seq<HopView>, i: nat)
    requires AreLoops(hops) && i < |hops|
    ensures Common(hops, {0}, [i]) == {0}
  {
    CommonMeansAll(hops, {0}, [i], 0);
    forall s | s in Common(hops, {0}, [i])
      ensures s == 0
    {
      CommonMeansAll(hops, {0}, [i], s);
    }
  }

  /** One cycle for each hop from number `k` on, one a step. */
  function Petals(n: nat, k: nat): Report
    requires k <= n
  {
    Report(seq(n - k, i requires 0 <= i => [k + i]), seq(n - k, i requires 0 <= i => i + 1), [], n - k)
  }

  lemma OneMorePetal(n: nat, k: nat)
    requires k < n
    ensures Closed([k]).Then(Petals(n, k + 1)) == Petals(n, k)
  {
    var whole := Closed([k]).Then(Petals(n, k + 1));
    assert whole.cycles == Petals(n, k).cycles;
    assert whole.at == Petals(n, k).at;
    assert whole.cuts == [];
  }

  lemma {:induction false} FromHop(hops: seq<HopView>, k: nat)
    requires AreLoops(hops) && k <= |hops|
    ensures Explore(hops, {0}, 1, 0, [], k) == Petals(|hops|, k)
    decreases |hops| - k
  {
    OutOfNode(hops);
    assert EndNode(hops, 0, []) == 0;
    if k < |hops| {
      HopInCommon(hops, k);
      assert [] + [k] == [k];
      assert Visit(hops, {0}, 1, 0, [], k) == Closed([k]);
      FromHop(hops, k + 1);
      OneMorePetal(|hops|, k);
    } else {
      assert Petals(|hops|, k) == NOTHING;
    }
  }

  lemma WholeRosette(hops: seq<HopView>)
    requires AreLoops(hops)
    ensures ExploreAll(hops, {0}, 1, 1) == Petals(|hops|, 0)
  {
    FromHop(hops, 0);
    NothingThen(Petals(|hops|, 0));
    assert ExploreAll(hops, {0}, 1, 0) == NOTHING;
  }

  lemma NothingStops(n: nat)
    requires n > 0
    ensures var total, limits := Petals(n, 0), RoomFor(n);
            !StopsAtCycle(limits, total) && !CutSeen(limits, total) && Emitted(limits, total) == n
  {
    assert Petals(n, 0).at[n - 1] == n;
  }

  lemma {:induction false} CostOfPetals(cycles: seq<Cycle>, each: nat)
    requires forall i {:trigger cycles[i]} :: 0 <= i < |cycles| ==> |cycles[i]| == 1
    ensures CycleCost(cycles, each) == |cycles| * each
  {
    if cycles != [] {
      CostOfPetals(cycles[..|cycles| - 1], each);
    }
  }

  // ----- The question -----

  ghost function Posed(n: nat, store: Store): (q: Question)
    ensures q.t == Rosette(n)
  {
    RosetteIsPlain(n);
    Stated(Rosette(n), store)
  }

  lemma EveryHopIsProven(n: nat, store: Store)
    ensures IsPosed(Posed(n, store)) && |Posed(n, store).table| == n
    ensures forall e {:trigger Posed(n, store).table[e]} :: 0 <= e < n ==>
              Posed(n, store).table[e].resolution == ProvenOpen && Posed(n, store).table[e].effectiveSelectors == [9]
  {
    RosetteIsPlain(n);
    AskedIsPosed(Rosette(n), store, StatementsAbout(Rosette(n)), STATED_AT, 5);
    forall e | 0 <= e < n
      ensures Posed(n, store).table[e].resolution == ProvenOpen && Posed(n, store).table[e].effectiveSelectors == [9]
    {
      assert Rosette(n).edges[e].admittedSelectors == [9];
      StatedIsOpen(Rosette(n), e);
    }
  }

  lemma {:induction false} OneCollected(t: TopologyDefinition, table: seq<HopRecord>, n: nat)
    requires 0 < n <= |table|
    requires forall e {:trigger table[e]} :: 0 <= e < n ==>
             table[e].resolution == ProvenOpen && table[e].effectiveSelectors == [9]
    ensures Collected(t, table, n) == [9]
  {
    assert InsertUnique([], 9) == [9] && InsertUnique([9], 9) == [9];
    assert [9][..0] == [];
    assert InsertAll([], [9]) == [9] && InsertAll([9], [9]) == [9];
    assert Offer(t, table[n - 1]) == [9];
    if n == 1 {
      assert Collected(t, table, 0) == [];
    } else {
      OneCollected(t, table, n - 1);
    }
  }

  /** What the search of the question above works on. */
  ghost predicate IsRosette(q: Question, n: nat) {
    && IsPosed(q) && |q.t.resources| == 1 && |q.t.edges| == n && CandidatesIn(q, []) == [9]
    && |SettingOf(q, [], RoomFor(n)).hops| == n && AreLoops(SettingOf(q, [], RoomFor(n)).hops)
  }

  lemma HopIsLoop(q: Question, i: nat)
    requires IsPosed(q) && i < |q.t.edges| && IsPlain(q.t, q.t.edges[i])
    requires q.t.edges[i].from == q.t.edges[i].to == 1 && ResourceIndex(q.t.resources, 1) == Some(0)
    requires q.table[i].resolution == ProvenOpen && q.table[i].effectiveSelectors == [9]
    ensures var view := ViewOf(q.t, q.table, [9], i);
            view.Open() && Bits(view.mask) == {0} && view.fromNode == view.toNode == 0
  {
    assert NumbersOf([9], [9]) == {0};
  }

  lemma PosedIsRosette(n: nat, store: Store)
    requires n > 0
    ensures IsRosette(Posed(n, store), n)
  {
    EveryHopIsProven(n, store);
    RosetteIsPlain(n);
    var q := Posed(n, store);
    OneCollected(q.t, q.table, n);
    var hops := SettingOf(q, [], RoomFor(n)).hops;
    forall i | 0 <= i < n
      ensures hops[i].Open() && Bits(hops[i].mask) == {0} && hops[i].fromNode == hops[i].toNode == 0
    {
      assert q.t.edges[i] == HopToItself(i);
      HopIsLoop(q, i);
      assert hops[i] == ViewOf(q.t, q.table, [9], i);
    }
  }

  lemma WholeSearchHere(q: Question, n: nat)
    requires n > 0 && IsRosette(q, n)
    ensures WholeSearch(q, [], RoomFor(n)) == Petals(n, 0)
  {
    var g := SettingOf(q, [], RoomFor(n));
    assert g.Full() == {0};
    WholeRosette(g.hops);
  }

  lemma SearchedHere(q: Question, n: nat)
    requires 0 < n <= MAX_EDGES && IsRosette(q, n)
    ensures IsSearched(q, [], RoomFor(n))
  {
    var g := SettingOf(q, [], RoomFor(n));
    HopInCommon(g.hops, 0);
    assert g.Full() == {0};
    assert TakesOpenHop(g.hops, 0, [0], 0);
    FoundIsProven(q, [], RoomFor(n), [0]);
  }

  lemma SquareGrows(n: nat)
    requires n >= 2000
    ensures n * (n + 1) > VALIDATION_BUDGET
  {
    assert n * (n + 1) >= 2000 * (n + 1);
  }

  lemma ManyCost(t: TopologyDefinition, cycles: seq<Cycle>, n: nat)
    requires n >= 2000 && |t.edges| == |cycles| == n
    requires forall i {:trigger cycles[i]} :: 0 <= i < |cycles| ==> |cycles[i]| == 1
    ensures !WithinBudget(t, cycles)
  {
    CostOfPetals(cycles, n + 1);
    SquareGrows(n);
  }

  lemma EmittedHere(q: Question, n: nat)
    requires n > 0 && IsRosette(q, n)
    ensures EmittedCycles(q, [], RoomFor(n)) == Petals(n, 0).cycles
    ensures var total, limits := WholeSearch(q, [], RoomFor(n)), RoomFor(n);
            !StopsAtCycle(limits, total) && !CutSeen(limits, total) && Emitted(limits, total) == n
  {
    WholeSearchHere(q, n);
    NothingStops(n);
  }

  lemma OverTheBudget(q: Question, n: nat)
    requires n >= 2000 && IsRosette(q, n)
    ensures !FitsValidation(q, [], RoomFor(n))
  {
    EmittedHere(q, n);
    ManyCost(q.t, EmittedCycles(q, [], RoomFor(n)), n);
  }

  lemma SilentHere(q: Question, n: nat, a: LoopAssessment)
    requires 2000 <= n <= MAX_EDGES && IsRosette(q, n) && Clean(q.t) && AssessmentHolds(q, [], RoomFor(n), a)
    ensures a.outcome == LoopConfirmed && !a.searchLimitReached && !a.additionalCyclesPossible
    ensures !Covers(q, [], a.witnesses, RoomFor(n).maxWitnessHops)
  {
    SearchedHere(q, n);
    EmittedHere(q, n);
    OverTheBudget(q, n);
    SilentExactly(q, [], RoomFor(n), a);
  }

  /** Whatever assessment the detector gives of two thousand hops or more, it confirms a loop with no flag set, with
      room for every cycle, witness and step, and leaves another loop uncovered. */
  lemma SilentDropsMissALoop(n: nat, store: Store, a: LoopAssessment)
    requires 2000 <= n <= MAX_EDGES
    requires IsPosed(Posed(n, store)) && AssessmentHolds(Posed(n, store), [], RoomFor(n), a)
    ensures a.outcome == LoopConfirmed && !a.searchLimitReached && !a.additionalCyclesPossible
    ensures !Covers(Posed(n, store), [], a.witnesses, RoomFor(n).maxWitnessHops)
  {
    var q := Posed(n, store);
    RosetteIsPlain(n);
    PosedIsRosette(n, store);
    SilentHere(q, n, a);
  }

  /** It is a proper request over a definition whose states are all known. */
  lemma RequestIsProper(n: nat)
    ensures IsProper(Rosette(n), STATED_AT, [], RoomFor(n)) && IsCanonical(Rosette(n)) && Clean(Rosette(n))
  {
    RosetteIsPlain(n);
  }

  /** Its evidence is what a run of the ledger leaves. */
  lemma EvidenceIsReached(n: nat, limits: LedgerLimits)
    requires HasRoom(Rosette(n), limits)
    ensures var s := StatedLedger(Rosette(n), limits);
            Asked(Rosette(n), s.store, s.byEdge, STATED_AT, 5) == Posed(n, s.store)
  {
    RosetteIsPlain(n);
    StatedIsReached(Rosette(n), limits);
  }
}
