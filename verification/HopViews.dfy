/** From the table of hop resolutions to what the two search engines see: the candidate
    selectors, and one view per hop with its class and selector mask. */
module HopViews {
  import opened Lists
  import opened Graph
  import opened Masks
  import opened Probe
  import opened SimpleCycles
  import opened Agreement
  import opened Topology
  import opened Order
  import opened Evidence

  predicate MayTraverse(resolution: HopResolution) {
    resolution in {ProvenOpen, UnprovenOpen, HopResolution.Unproven, HopResolution.Conflicted}
  }

  function ClassOf(resolution: HopResolution): HopClass
    requires MayTraverse(resolution)
  {
    match resolution
    case ProvenOpen => Proven
    case Conflicted => HopClass.Conflicted
    case _ => HopClass.Unproven
  }

  /** The selectors a traversable hop is taken to carry. */
  function SourceOf(record: HopRecord, edge: ForwardingEdge): seq<nat> {
    if record.resolution in {ProvenOpen, UnprovenOpen} then record.effectiveSelectors else edge.admittedSelectors
  }

  /** Hop `i` may be traversed for `s`, using evidence of class at most `highest`. */
  ghost predicate Carries(t: TopologyDefinition, table: seq<HopRecord>, s: nat, highest: HopClass, i: nat) {
    && i < |t.edges| && i < |table|
    && MayTraverse(table[i].resolution)
    && ClassOf(table[i].resolution).Rank() <= highest.Rank()
    && s in SourceOf(table[i], t.edges[i])
  }

  function Position(t: TopologyDefinition, id: nat): nat {
    var index := ResourceIndex(t.resources, id);
    if index.Some? then index.value else 0
  }

  /** The arcs, between resource positions, of the hops that may be traversed for `s`. */
  ghost function CarryingArcs(t: TopologyDefinition, table: seq<HopRecord>, s: nat, highest: HopClass): set<Arc> {
    set i | 0 <= i < |t.edges| && Carries(t, table, s, highest, i) ::
      Arc(Position(t, t.edges[i].from), Position(t, t.edges[i].to))
  }

  /** The table has one record for each edge, carrying that edge's identity. */
  ghost predicate IsTableOf(t: TopologyDefinition, table: seq<HopRecord>) {
    |table| == |t.edges| && forall i {:trigger table[i]} :: 0 <= i < |table| ==> table[i].edge == t.edges[i].id
  }

  // ----- Candidate selectors -----

  method AddAll(s: seq<nat>, more: seq<nat>) returns (r: seq<nat>)
    ensures r == InsertAll(s, more)
  {
    r := s;
    for k := 0 to |more|
      invariant r == InsertAll(s, more[..k])
    {
      assert more[..k + 1][..k] == more[..k];
      r := InsertUnique(r, more[k]);
    }
    assert more[..|more|] == more;
  }

  ghost predicate OfferedBy(t: TopologyDefinition, table: seq<HopRecord>, n: nat, s: nat) {
    exists i :: 0 <= i < n && Carries(t, table, s, HopClass.Conflicted, i)
  }

  /** What a record offers: its own selectors, or those of the edge found under its identity. */
  function Offer(t: TopologyDefinition, record: HopRecord): seq<nat> {
    if record.resolution in {ProvenOpen, UnprovenOpen} then record.effectiveSelectors
    else if MayTraverse(record.resolution) && EdgeIndex(t.edges, record.edge).Some? then
      t.edges[EdgeIndex(t.edges, record.edge).value].admittedSelectors
    else []
  }

  /** The selectors the first `n` records offer, in order. */
  ghost function Collected(t: TopologyDefinition, table: seq<HopRecord>, n: nat): seq<nat>
    requires n <= |table|
  {
    if n == 0 then [] else InsertAll(Collected(t, table, n - 1), Offer(t, table[n - 1]))
  }

  lemma {:induction false} CollectedAscends(t: TopologyDefinition, table: seq<HopRecord>, n: nat)
    requires n <= |table|
    ensures StrictlyIncreasing(Collected(t, table, n))
  {
    if n > 0 {
      CollectedAscends(t, table, n - 1);
      InsertAllAscends(Collected(t, table, n - 1), Offer(t, table[n - 1]));
    }
  }

  /** With edge identities of their own, what is collected is what traversable hops carry. */
  lemma {:induction false} CollectedIsOffered(t: TopologyDefinition, table: seq<HopRecord>, n: nat)
    requires IsTableOf(t, table) && EdgeIdsDistinct(t.edges) && n <= |table|
    ensures forall s :: s in Collected(t, table, n) <==> OfferedBy(t, table, n, s)
  {
    if n > 0 {
      CollectedIsOffered(t, table, n - 1);
      OfferStep(t, table, n - 1);
      forall s
        ensures s in Collected(t, table, n) <==> OfferedBy(t, table, n, s)
      {
        OfferMeans(t, table, n - 1, s);
      }
    }
  }

  lemma OfferMeans(t: TopologyDefinition, table: seq<HopRecord>, i: nat, s: nat)
    requires IsTableOf(t, table) && EdgeIdsDistinct(t.edges) && i < |table|
    ensures s in Offer(t, table[i]) <==> Carries(t, table, s, HopClass.Conflicted, i)
  {
    EdgeIndexIsUnique(t.edges, i);
  }

  /** The selectors some traversable hop carries, in order. */
  method CollectCandidates(t: TopologyDefinition, table: seq<HopRecord>) returns (candidates: seq<nat>)
    requires IsTableOf(t, table)
    ensures candidates == Collected(t, table, |table|)
    ensures StrictlyIncreasing(candidates)
    ensures EdgeIdsDistinct(t.edges) ==> forall s :: s in candidates <==> OfferedBy(t, table, |table|, s)
  {
    candidates := [];
    for i := 0 to |table|
      invariant candidates == Collected(t, table, i)
    {
      match table[i].resolution {
        case ProvenOpen =>
          candidates := AddAll(candidates, table[i].effectiveSelectors);
        case UnprovenOpen =>
          candidates := AddAll(candidates, table[i].effectiveSelectors);
        case ProvenClosed =>
        case Unsupported =>
        case _ =>
          var position := EdgeIndex(t.edges, table[i].edge);
          if position.Some? {
            candidates := AddAll(candidates, t.edges[position.value].admittedSelectors);
          }
      }
    }
    CollectedAscends(t, table, |table|);
    if EdgeIdsDistinct(t.edges) {
      CollectedIsOffered(t, table, |table|);
    }
  }

  lemma OfferStep(t: TopologyDefinition, table: seq<HopRecord>, i: nat)
    ensures forall s :: OfferedBy(t, table, i + 1, s) <==>
                          OfferedBy(t, table, i, s) || Carries(t, table, s, HopClass.Conflicted, i)
  {
  }

  ghost predicate InScope(scope: seq<nat>, s: nat) {
    scope == [] || s in scope
  }

  /** The candidates in scope; an empty scope asks about every one. */
  function Restricted(candidates: seq<nat>, scope: seq<nat>): seq<nat> {
    if scope == [] || candidates == [] then candidates
    else
      Restricted(candidates[..|candidates| - 1], scope)
      + if candidates[|candidates| - 1] in scope then [candidates[|candidates| - 1]] else []
  }

  lemma {:induction false} RestrictedMeans(candidates: seq<nat>, scope: seq<nat>)
    requires StrictlyIncreasing(candidates)
    ensures StrictlyIncreasing(Restricted(candidates, scope))
    ensures forall s :: s in Restricted(candidates, scope) <==> s in candidates && InScope(scope, s)
    decreases |candidates|
  {
    if scope != [] && candidates != [] {
      var front := candidates[..|candidates| - 1];
      RestrictedMeans(front, scope);
      assert candidates == front + [candidates[|candidates| - 1]];
      var kept := Restricted(front, scope);
      forall i | 0 <= i < |kept|
        ensures kept[i] < candidates[|candidates| - 1]
      {
        assert kept[i] in front;
      }
    }
  }

  method Restrict(candidates: seq<nat>, scope: seq<nat>) returns (r: seq<nat>)
    requires StrictlyIncreasing(candidates)
    ensures r == Restricted(candidates, scope)
    ensures StrictlyIncreasing(r)
    ensures forall s :: s in r <==> s in candidates && InScope(scope, s)
  {
    RestrictedMeans(candidates, scope);
    if scope == [] {
      return candidates;
    }
    r := [];
    for k := 0 to |candidates|
      invariant r == Restricted(candidates[..k], scope)
    {
      assert candidates[..k + 1][..k] == candidates[..k];
      if candidates[k] in scope {
        r := r + [candidates[k]];
      }
    }
    assert candidates[..|candidates|] == candidates;
  }

  // ----- Views -----

  function CandidateNumber(candidates: seq<nat>, s: nat): (r: Option<nat>)
    ensures r.Some? ==> r.value < |candidates| && candidates[r.value] == s
    ensures r.None? ==> s !in candidates
  {
    if candidates == [] then None
    else if candidates[|candidates| - 1] == s then Some(|candidates| - 1)
    else
      assert candidates == candidates[..|candidates| - 1] + [candidates[|candidates| - 1]];
      CandidateNumber(candidates[..|candidates| - 1], s)
  }

  /** The numbers of the candidates that occur in `source`. */
  ghost function NumbersOf(candidates: seq<nat>, source: seq<nat>): set<nat> {
    set k | 0 <= k < |candidates| && candidates[k] in source
  }

  ghost predicate IsBitOf(numbers: set<nat>, w: nat, b: nat) {
    64 * w + b in numbers
  }

  ghost function WordFor(numbers: set<nat>, w: nat): Word {
    set b: nat | b < 64 && IsBitOf(numbers, w, b)
  }

  /** The mask of the candidates that occur in `source`. */
  ghost function MaskFor(candidates: seq<nat>, source: seq<nat>): (mask: Mask)
    ensures |mask| == WordsFor(|candidates|) && Bits(mask) == NumbersOf(candidates, source)
  {
    var numbers := NumbersOf(candidates, source);
    var mask: Mask := seq(WordsFor(|candidates|), w requires 0 <= w => WordFor(numbers, w));
    BitsOfWords(mask, numbers, WordsFor(|candidates|));
    mask
  }

  lemma BitsOfWords(mask: Mask, numbers: set<nat>, words: nat)
    requires |mask| == words && forall w {:trigger mask[w]} :: 0 <= w < words ==> mask[w] == WordFor(numbers, w)
    requires forall k :: k in numbers ==> k < 64 * words
    ensures Bits(mask) == numbers
  {
    forall k: nat
      ensures HasBit(mask, k) <==> k in numbers
    {
      assert k == 64 * (k / 64) + k % 64;
      assert k / 64 < words ==> (k % 64 in mask[k / 64] <==> k in numbers);
    }
  }

  method MaskOf(candidates: seq<nat>, source: seq<nat>) returns (mask: Mask)
    requires StrictlyIncreasing(candidates)
    ensures |mask| == WordsFor(|candidates|) && Bits(mask) == NumbersOf(candidates, source)
    ensures mask == MaskFor(candidates, source)
  {
    mask := seq(WordsFor(|candidates|), _ => {});
    for k := 0 to |source|
      invariant |mask| == WordsFor(|candidates|) && Bits(mask) == NumbersOf(candidates, source[..k])
    {
      assert source[..k + 1] == source[..k] + [source[k]];
      var number := CandidateNumber(candidates, source[k]);
      if number.Some? {
        mask := SetBit(mask, number.value);
        assert NumbersOf(candidates, source[..k + 1]) == NumbersOf(candidates, source[..k]) + {number.value};
      } else {
        assert NumbersOf(candidates, source[..k + 1]) == NumbersOf(candidates, source[..k]);
      }
    }
    assert source[..|source|] == source;
    SameBits(mask, MaskFor(candidates, source));
  }

  /** Masks of the same bits are the same words. */
  lemma SameBits(a: Mask, b: Mask)
    requires |a| == |b| && Bits(a) == Bits(b)
    ensures a == b
  {
    forall w | 0 <= w < |a|
      ensures a[w] == b[w]
    {
      forall i: nat | i < 64
        ensures i in a[w] <==> i in b[w]
      {
        var k := 64 * w + i;
        assert k / 64 == w && k % 64 == i;
        assert HasBit(a, k) <==> HasBit(b, k) by {
          assert k in Bits(a) <==> k in Bits(b);
        }
      }
    }
  }

  ghost predicate IsViewOf(t: TopologyDefinition, table: seq<HopRecord>, candidates: seq<nat>, i: nat, view: HopView) {
    && i < |t.edges| && i < |table|
    && |view.mask| == WordsFor(|candidates|)
    && (view.traversable ==>
          && MayTraverse(table[i].resolution)
          && view.fromNode == Position(t, t.edges[i].from) < |t.resources|
          && view.toNode == Position(t, t.edges[i].to) < |t.resources|
          && view.klass == ClassOf(table[i].resolution)
          && Bits(view.mask) == NumbersOf(candidates, SourceOf(table[i], t.edges[i])))
    && (!view.traversable ==>
          MayTraverse(table[i].resolution) ==> NumbersOf(candidates, SourceOf(table[i], t.edges[i])) == {})
  }

  ghost predicate AreViewsOf(t: TopologyDefinition, table: seq<HopRecord>, candidates: seq<nat>, views: seq<HopView>) {
    |views| == |t.edges| && forall i {:trigger views[i]} :: 0 <= i < |views| ==>
      IsViewOf(t, table, candidates, i, views[i])
  }

  /** The view of hop `i`. */
  ghost function ViewOf(t: TopologyDefinition, table: seq<HopRecord>, candidates: seq<nat>, i: nat): HopView
    requires i < |t.edges| && i < |table|
  {
    var from, to := ResourceIndex(t.resources, t.edges[i].from), ResourceIndex(t.resources, t.edges[i].to);
    if from.None? || to.None? || !MayTraverse(table[i].resolution) then
      HopView(0, 0, HopClass.Unproven, false, seq(WordsFor(|candidates|), _ => {}))
    else
      var mask := MaskFor(candidates, SourceOf(table[i], t.edges[i]));
      HopView(from.value, to.value, ClassOf(table[i].resolution), Bits(mask) != {}, mask)
  }

  ghost function ViewsOf(t: TopologyDefinition, table: seq<HopRecord>, candidates: seq<nat>): (views: seq<HopView>)
    requires |table| == |t.edges|
    ensures |views| == |t.edges|
  {
    seq(|t.edges|, i requires 0 <= i < |t.edges| => ViewOf(t, table, candidates, i))
  }

  lemma ViewOfIsView(t: TopologyDefinition, table: seq<HopRecord>, candidates: seq<nat>, i: nat)
    requires IsCanonical(t) && i < |t.edges| && i < |table|
    ensures IsViewOf(t, table, candidates, i, ViewOf(t, table, candidates, i))
  {
    assert EdgeFits(t.resources, t.selectors, t.edges[i]);
  }

  lemma ViewsOfAreViews(t: TopologyDefinition, table: seq<HopRecord>, candidates: seq<nat>)
    requires IsCanonical(t) && |table| == |t.edges|
    ensures AreViewsOf(t, table, candidates, ViewsOf(t, table, candidates))
  {
    forall i | 0 <= i < |t.edges|
      ensures IsViewOf(t, table, candidates, i, ViewsOf(t, table, candidates)[i])
    {
      ViewOfIsView(t, table, candidates, i);
    }
  }

  method BuildView(t: TopologyDefinition, table: seq<HopRecord>, candidates: seq<nat>, i: nat) returns (view: HopView)
    requires |table| == |t.edges| && StrictlyIncreasing(candidates) && i < |t.edges|
    ensures view == ViewOf(t, table, candidates, i)
  {
    var record, edge := table[i], t.edges[i];
    view := HopView(0, 0, HopClass.Unproven, false, seq(WordsFor(|candidates|), _ => {}));
    var fromNode, toNode := ResourceIndex(t.resources, edge.from), ResourceIndex(t.resources, edge.to);
    if fromNode.None? || toNode.None? || !MayTraverse(record.resolution) {
      return;
    }
    var mask := MaskOf(candidates, SourceOf(record, edge));
    var empty := IsEmpty(mask);
    view := HopView(fromNode.value, toNode.value, ClassOf(record.resolution), !empty, mask);
  }

  method BuildViews(t: TopologyDefinition, table: seq<HopRecord>, candidates: seq<nat>) returns (views: seq<HopView>)
    requires IsCanonical(t) && |table| == |t.edges| && StrictlyIncreasing(candidates)
    ensures views == ViewsOf(t, table, candidates)
    ensures AreViewsOf(t, table, candidates, views)
  {
    views := [];
    for i := 0 to |t.edges|
      invariant |views| == i
      invariant forall k {:trigger views[k]} :: 0 <= k < i ==> views[k] == ViewOf(t, table, candidates, k)
    {
      var view := BuildView(t, table, candidates, i);
      views := views + [view];
    }
    ViewsOfAreViews(t, table, candidates);
  }

  /** For candidate number `k`, the views carry exactly the hops that may be traversed for that selector. */
  lemma ViewsCarry(t: TopologyDefinition, table: seq<HopRecord>, candidates: seq<nat>, views: seq<HopView>, k: nat,
                   highest: HopClass)
    requires AreViewsOf(t, table, candidates, views) && k < |candidates|
    ensures SelectorArcs(views, k, highest) == CarryingArcs(t, table, candidates[k], highest)
  {
    forall i | 0 <= i < |views|
      ensures CarriesWithin(views, k, highest, i) <==> Carries(t, table, candidates[k], highest, i)
      ensures CarriesWithin(views, k, highest, i) ==>
                Arc(views[i].fromNode, views[i].toNode) == Arc(Position(t, t.edges[i].from), Position(t, t.edges[i].to))
    {
      assert IsViewOf(t, table, candidates, i, views[i]);
      assert MayTraverse(table[i].resolution) ==>
          (k in NumbersOf(candidates, SourceOf(table[i], t.edges[i]))
           <==> candidates[k] in SourceOf(table[i], t.edges[i]));
    }
    forall a | a in SelectorArcs(views, k, highest)
      ensures a in CarryingArcs(t, table, candidates[k], highest)
    {
      var i :| 0 <= i < |views| && CarriesWithin(views, k, highest, i) && a == Arc(views[i].fromNode, views[i].toNode);
      assert Carries(t, table, candidates[k], highest, i);
    }
    forall a | a in CarryingArcs(t, table, candidates[k], highest)
      ensures a in SelectorArcs(views, k, highest)
    {
      var i :| 0 <= i < |t.edges| && Carries(t, table, candidates[k], highest, i)
               && a == Arc(Position(t, t.edges[i].from), Position(t, t.edges[i].to));
      assert CarriesWithin(views, k, highest, i);
    }
  }

  /** A selector that no traversable hop offers has no cycle at all. */
  lemma OnlyOfferedSelectorsCycle(t: TopologyDefinition, table: seq<HopRecord>, s: nat, highest: HopClass)
    requires IsTableOf(t, table) && !OfferedBy(t, table, |table|, s)
    ensures !HasCycle(CarryingArcs(t, table, s, highest))
  {
    forall i | 0 <= i < |t.edges|
      ensures !Carries(t, table, s, highest, i)
    {
      assert Carries(t, table, s, highest, i) ==> Carries(t, table, s, HopClass.Conflicted, i);
    }
    RankedGraphIsAcyclic(CarryingArcs(t, table, s, highest), map[]);
  }
}
