# Loop Guard: a verified model

Loop Guard decides whether a forwarding topology loops, proves its answer, plans the containment of what loops, and
keeps durable record of what it found. This project models that logic in Dafny and proves what each part promises, up
to theorems that span the parts.

The parts, and what is proved of them:

- **Detector** (`Graph`, `Probe`, `Masks`, `SimpleCycles`, `SearchOrder`, `Agreement`, `HopViews`, `WitnessSearch`,
  `Completeness`, `Existence`, `LoopKinds`, `WitnessOrder`, `Detector`, `Coverage`). Two engines work on one hop
  table: a Kahn existence test and an iterative depth-first enumeration with mask intersection. The first is exact for
  any multigraph; the second reports exactly the simple cycles with a common selector, each once and in a fixed order;
  the two agree. The outcome is stated on the resolutions of the hops alone, and those on the observations alone.
  Every bound an assessment reports is tied to the place where the search without bounds runs into it, and from that
  follow, as conditions on the request alone, when the four-way answer is given, that it is the truth, and when its
  witnesses cover every loop, the validation budget included.
- **Witnesses** (`Witness`). The validator accepts exactly the loops that are real under the question asked.
- **Evidence** (`Evidence`, `Ledger`, `LedgerChanges`). Resolving a hop is a function of the set of observations,
  which is stated for every resolution. Over every run of the bounded ledger the three indices agree, the bounds hold,
  and eviction never revives a superseded statement.
- **Topology** (`Topology`, `Sorting`, `Canonical`, `TopologyIndex`). What the canonical path lets through is decided by
  contents alone, and its indices are exact.
- **Containment** (`Order`, `HittingSet`, `BranchAndBound`, `HittingSetSolver`, `HittingSetReference`, `Planner`,
  `Containment`, `Shadow`, `ShadowEffect`, `Bystanders`). Branch and bound with undo and a strict cost prune returns
  the one best hitting set under a three-level objective, agrees with the exhaustive reference, and speaks the truth
  under any budget. The planner publishes it exactly when its own validator accepts it. The loops of a plan's shadow
  are exactly those no hop of which is listed with one of their selectors, and where cycles ascend no loop that was
  covered is left; what a plan takes away beside loops is stated exactly.
- **Digest and wire** (`Bytes`, `BlockStream`, `WordFunctions`, `Sha256`, `DigestStandard`, `FrameStream`, `Frames`,
  `Grammar`, `Fields`, `Codecs`, `TopologyCodec`, `Layouts`). Streaming SHA-256 equals the hash of the whole message
  (FIPS 180-4, sections 5.1.1, 5.2.1 and 6.2); frame decoding does not depend on how a stream is cut; every payload is
  one of a few formats, and what was written is read back exactly when it fits the format of the reader.
- **Journal** (`Journal`, `TornTails`, `Recovered`, `DocumentScan`, `Explanations`, `StoreState`, `StoreChanges`,
  `StoreCodec`, `Readability`, `StoreModel`, `PushedOut`, `DurableStore`). The disk is a sequence of bytes, and
  records and snapshots are the bytes the program's own codecs write. What is recovered from a document is exactly the
  framed records it is. After every run of mutations, compactions, crashes inside an append, and opens within stated
  bounds, replaying the document gives memory; outside each bound it is stated what happens instead.
- **Finding lifecycle** (`Findings`, `Authority`, `Lifecycle`, `Transitions`, `Issuance`, `RuntimeRuns`, `Lives`,
  `FenceLives`, `PolicyFence`, `Durability`, `Runtime`). Every public operation is one step, and what it changes is
  stated on the state before and after. Over every run live findings bind the current fence, fences never fall,
  nothing terminal is revived, and verified containment has an effect for every target; and all of this lasts through
  crashes in the middle of an operation and restarts from what they left on disk.

Five modules hold examples: `Statements` (evidence that states every edge open, and the run of the ledger that takes
it), `SilentSteps`, `SilentDrops`, `EscapingLoop` and `CrossedLoops`.

Objects whose methods update fields are classes (`CycleProbe`, `EvidenceLedger`, `HittingSetSearch`, `Hasher`,
`FrameDecoder`, `ByteWriter`, `ByteReader`, `DurableStore`, `Runtime`), proved against functions of their old state;
what the design promises is then proved of those functions. Some proofs take a function as a value (the compression in
`Sha256`, the look at a frame in `Frames`, the digest everywhere but in `Sha256`): the theorem then holds for any such
function.

## Where the code and the obvious claim part

Each of these is proved, with the exact condition under which the claim holds.

- Edge identities are compared between neighbours only: a definition is let through exactly when neighbours differ
  (`Canonical.OnlyNeighboursAreCompared`), so two edges may share one (`Canonical.RepeatedEdgeIdSlipsThrough`). Truth
  and coverage of an assessment are therefore stated for distinct identities.
- A hop in an unknown state can be proven open, and the validator then refuses it: usable exactly when nothing about it
  is unknown (`Evidence.ProvenOpenIsUsable`, `Evidence.UnknownLinkIsProvenOpen`).
- Two things that leave a loop uncovered set no flag of the assessment: running out of enumeration steps behind a first
  cycle, and dropping witnesses whose validation would cost too much. `Coverage.SilentExactly` says exactly when either
  happens, as a condition on the request.
- The first of the two: `SilentSteps.SilentStepsMissALoop` is such a request.
- The second: a witness dropped always leaves a loop uncovered where all that is emitted is usable
  (`Coverage.DroppingLeavesALoop`), and `SilentDrops.SilentDropsMissALoop` is such a request, with room for every cycle,
  witness and step.
- A statement its producer has replaced is meant to count for nothing, but is asked about last: once its lease ends or
  its fence moves on it makes a hop possibly open again, exactly when `Evidence.RetractedOpensExactly` says
  (`Evidence.RetractedPresentOpens`).
- The planner searches rotated cycles by halving. It finds all members exactly when a cycle ascends
  (`Order.FindsAllIffAscending`); otherwise a plan can be withheld (`Containment.WithheldExactly`) or leave a loop in
  its shadow (`ShadowEffect.NoLoopSurvivesExactly`, `EscapingLoop.PublishedPlanLeavesALoop`).
- A plan is meant to take nothing from unrelated forwarding. It cuts only what lies on a witness exactly when no hop
  is a bystander (`Bystanders.PlanCutsOnlyWitnessed`); `CrossedLoops.PublishedPlanCutsABystander` is a plan that cuts
  more.
- Of the indices of a definition the order by identity is determined exactly when identities are distinct
  (`TopologyIndex.IndicesAreUnique`, `TopologyIndex.SharedIdLeavesAChoice`).
- The detector never assigns witness identities, and a certificate is looked up by identity. Infeasibility is then
  published exactly when the first witness has nothing containable (`Containment.SharedIdentityWithholds`,
  `Containment.UnnamedIsWithheld`).
- An encoded frame with flags is refused on decoding exactly when there are any (`Frames.FlagsAreRefused`).
- A policy is installed and written without a look at its lists, and read back only when they are sorted: the document
  is readable afterwards exactly when they are (`StoreModel.PolicyDecidesDocument`,
  `StoreModel.UnsortedPolicyStrands`).
- A torn tail is meant to be the beginning of a record. Taken for torn is every short tail with the right magic, or
  first byte, and everything behind a sound header; which of those begin a record is stated exactly
  (`TornTails.ShortTail`, `TornTails.HeaderTail`, `TornTails.PayloadTail`, `TornTails.GarbageIsTorn`).
- Memory and replay keep step exactly unless an upsert pushes a finding out of memory, a finding's reasons are not
  settled, or a withdrawal names an absent one (`StoreState.ReplayMatches`); the last strands the document
  (`StoreModel.AbsentWithdrawalStrands`).
- A finding pushed out comes back with the next open, and until the next upsert a compaction strands the document
  (`PushedOut.PushedOutStrands`, `PushedOut.OverfullLasts`); after a compaction its withdrawal does
  (`PushedOut.PushedOutWithdrawalStrands`). Until when a finding is durable is `PushedOut.DurableExactly`.
- An acknowledgement is meant to say nothing about effects. One that comes after the last effect takes the verification
  of the finding back, and none brings it again (`Transitions.LateAcknowledgementUnverifies`).
- A text cut before a character that lies across its bound grows when it is read back, exactly when
  `Explanations.CutAgain` says (`Explanations.CutGrows`).
- A policy and the fence that names it are two records: a crash between them leaves a runtime whose planner answers
  nothing until a newer policy comes, exactly when `PolicyFence.CrashDecides` says (`PolicyFence.DisagreeingStalls`,
  `PolicyFence.FirstPolicySplits`).
- A journal at its record bound takes one more record and is then refused for good (`StoreModel.FullJournalStrands`); a
  compaction writes snapshots no open accepts exactly when they are larger than a record or hold too many boots or
  findings (`StoreModel.CompactionDecides`, `StoreModel.OversizedSnapshotStrands`, `StoreModel.FullLedgerStrands`,
  `StoreModel.OverfullStrands`); and one that fails leaves memory in a generation the document does not have
  (`StoreModel.FailedCompactionStrands`).

## Model

| member | source | states |
|---|---|---|
| `Graph.RankedGraphIsAcyclic` | src/detect.cpp:26-30 | a graph whose arcs all climb in some rank has no directed cycle: the half of the exactness argument behind a negative answer |
| `Graph.EnteredSetHasCycle` | src/detect.cpp:26-30 | a non-empty set of nodes entered only from within holds a directed cycle: the half behind a positive answer |
| `Probe.CountOut` | src/detect.cpp:49-62 | the offsets are the prefix sums of the usable out-degrees |
| `Probe.FillOutLists` | src/detect.cpp:63-73 | every node's out-list lies at its offset, and the in-degrees count exactly the usable arcs |
| `Probe.Seed` | src/detect.cpp:75-82 | exactly the nodes nothing usable enters are queued first |
| `Probe.RemoveNode` | src/detect.cpp:86-92 | removing a node nothing pends on extends a ranking of the removed nodes in which every arc climbs |
| `Probe.Release` | src/detect.cpp:93-104 | giving up a removed node's out-edges leaves in-degrees that count only arcs from nodes still present, and every free node waits in the queue |
| `Probe.Drain` | src/detect.cpp:83-105 | the queue loop ends, processes each node at most once, and leaves a ranked part without cycles and a rest every node of which is entered from the rest |
| `Probe.CycleProbe.AddEdge` | src/detect.cpp:42-45 | the edge is added and the in-degrees stay those of all edges |
| `Probe.CycleProbe.HasCycle` | src/detect.cpp:47-107 | the answer is true exactly when the hops of class at most `highest` contain a directed cycle, for any multigraph with self-loops and parallel edges |
| `Masks.IsEmpty` | src/detect.cpp:125-132 | true exactly when no bit of any word is set |
| `Masks.And` | src/detect.cpp:134-139 | the result's bits are exactly those set in both masks |
| `Masks.AllCandidates` | src/detect.cpp:545-550 | exactly the bits of the candidates are set, the last word being cut down to those it serves |
| `HopViews.CollectCandidates` | src/detect.cpp:296-325 | the candidates collected are, in strict order and with distinct edge identities, exactly the selectors some traversable hop offers |
| `HopViews.Restrict` | src/detect.cpp:343-349 | keeps exactly the candidates in scope, in order |
| `HopViews.MaskOf` | src/detect.cpp:397-448 | bit `k` is set exactly when candidate `k` occurs in the selectors given |
| `HopViews.BuildViews` | src/detect.cpp:402-452 | every view names its edge's end positions, its class, and traversability exactly when some candidate is carried |
| `HopViews.ViewsCarry` | src/detect.cpp:402-452 | for every candidate and class the views carry exactly the arcs that may be traversed for that selector |
| `HopViews.OnlyOfferedSelectorsCycle` | src/detect.cpp:296-325 | a selector that is no candidate has no cycle of traversable hops of any class |
| `Existence.LoadProbe` | src/detect.cpp:467-476 | the probe holds exactly the hops that carry the selector |
| `Existence.ProbeSelector` | src/detect.cpp:481-495 | a selector sets the proven flag exactly when it has a proven cycle, else the unproven flag exactly when it has one with unproven hops, else the conflict flag exactly when it has one with conflicted hops |
| `Existence.Exists` | src/detect.cpp:463-496 | unless the step budget runs out, the three flags say exactly which kinds of cycle some candidate has |
| `Existence.FlagsGiveTruth` | src/detect.cpp:696-726 | the flags pick the four-way answer that the hop table calls for among the candidates |
| `Existence.CandidatesSuffice` | src/detect.cpp:296-350 | with distinct edge identities asking about the candidates is asking about every selector in scope |
| `Existence.NoLoopMeansNoCycle` | src/detect.cpp:720-726 | the answer NoLoop is called for exactly when no selector in scope has any cycle of traversable hops |
| `LoopKinds.LoopsAreCycles` | src/detect.cpp:402-452 | over a canonical definition hops of the kinds a class of evidence takes in, each ending where the next begins, go round for a selector exactly when the arcs of that class have a cycle |
| `LoopKinds.ClassesAreKinds` | src/detect.cpp:419-441 | proven evidence is the hops proven open, unproven evidence those and the hops possibly open or unproven, and conflicted evidence those and the conflicted ones |
| `LoopKinds.TruthByKinds` | src/detect.cpp:696-726 | the answer called for, said of resolutions alone: confirmed exactly when some selector in scope has a loop of hops proven open; otherwise a conflict exactly when some has a loop and none without a conflicted hop; otherwise unknown exactly when some has a loop that may be open; and no loop exactly when none has any |
| `SimpleCycles.ExploreIsSound` | src/detect.cpp:558-635 | everything the depth-first search reports is a simple cycle of open hops rooted at its smallest node, within the length bound, with a common selector |
| `SimpleCycles.ExploreIsComplete` | src/detect.cpp:558-635 | every such cycle going on from the path is reported |
| `SimpleCycles.ExploreIsDistinct` | src/detect.cpp:558-635 | no cycle is reported twice |
| `SimpleCycles.ExploreFromRoot` | src/detect.cpp:538-637 | the search from one start reports exactly the cycles rooted there |
| `SimpleCycles.ExploreAllIsExact` | src/detect.cpp:514-638 | the whole search reports exactly the rooted simple cycles of open hops, as hop sequences, whose hops share a candidate and that fit the bound, each exactly once |
| `SimpleCycles.UnprunedMeansAll` | src/detect.cpp:624-627 | a search the length bound never cut has missed no cycle of any length |
| `SearchOrder.SearchGoesInOrder` | src/detect.cpp:538-637 | cycles are found by their smallest node, and of one smallest node by the hop, in the order of the hop table, where they part |
| `Agreement.WalkGivesCycle` | src/detect.cpp:514-638 | a proven cycle found by the existence test for a selector yields a rooted simple cycle the enumeration can find |
| `Agreement.CycleGivesWalk` | src/detect.cpp:454-496 | a rooted simple cycle whose hops share a selector is a cycle for the existence test of that selector |
| `Agreement.EnginesAgree` | src/detect.cpp:454-638 | the existence test succeeds for a candidate exactly when some rooted simple cycle carries it |
| `WitnessSearch.PushHolds` | src/detect.cpp:628-634 | going deeper keeps path, flags and masks consistent, and what is left to do is what was left plus the search below the new path |
| `WitnessSearch.PopHolds` | src/detect.cpp:560-568 | retiring a frame undoes its marks and leaves exactly what was left |
| `WitnessSearch.AdvanceHolds` | src/detect.cpp:569-570 | moving the cursor splits what is left into this out-hop and the rest |
| `WitnessSearch.Look` | src/detect.cpp:569-634 | one out-hop is handled as the recursive search handles it, and the steps run out exactly where its steps exceed the budget |
| `WitnessSearch.Emit` | src/detect.cpp:585-619 | the cycle closed is emitted once, with the witness it stands for, and the cycle and witness bounds stop the search exactly where the search without bounds closes its last cycle in room |
| `WitnessSearch.BuildWitness` | src/detect.cpp:591-613 | the witness names the cycle's resources and hops in canonical rotation, with selectors equal to the intersection of the hop masks and the true domain flag |
| `WitnessSearch.SearchFrom` | src/detect.cpp:545-636 | the iterative loop with an explicit stack does the whole recursive search below one start, or stops exactly where a bound falls in it |
| `WitnessSearch.Enumerate` | src/detect.cpp:514-638 | what a bounded search comes to is decided by the search without bounds: the cycles emitted are its first ones, and the bounds on cycles, steps and length are reported exactly where it runs into them |
| `WitnessSearch.ResultStays` | src/detect.cpp:538-541 | what would come behind the place where a bounded search stopped makes no difference |
| `Completeness.EmittedIsLoop` | src/detect.cpp:585-613 | with distinct edge identities a witness the search builds is a loop to the validator exactly when every link of its cycle is up and every resource on it enabled |
| `Completeness.KnownIsUsable` | src/evidence.cpp:136-149 | where no state is unknown every cycle of proven hops is usable in that sense |
| `Completeness.LoopIsRootedCycle` | src/detect.cpp:514-638 | every loop over candidates within the bound is one of the cycles the search reports, carrying at least its selectors |
| `Completeness.WitnessOfLoopMatches` | src/detect.cpp:591-613 | the witness emitted for a loop's cycle has the loop's resources and hops |
| `WitnessOrder.SortWitnesses` | src/detect.cpp:649 | a permutation, in canonical order, at the same cost of validation |
| `WitnessOrder.OrderedMeans` | src/witness.cpp:52-72 | in canonical order shorter cycles come first, of one length the cycle that has the smaller resource where they differ first, of one cycle the hops that have the smaller edge, and of one cycle and hops the smaller selectors |
| `WitnessOrder.Unique` | src/detect.cpp:650 | the same witnesses; nothing is repeated where the order tells witnesses apart, and a list without repetition is left as it is |
| `WitnessOrder.Tidy` | src/detect.cpp:648-655 | witnesses no more than the bound come out as they went in, ordered and each once, and nothing is cut |
| `Detector.ValidateAll` | src/detect.cpp:657-694 | accepted, dropped and rejected add up to the witnesses given; what is accepted are loops, in order and with the evidence they rest on, and nothing only when there is no loop; something is dropped exactly when the whole list is over the budget and a loop stands before its last |
| `Detector.SearchedHolds` | src/detect.cpp:696-732 | after a search the outcome, the flags and the witnesses are those the bounds of the question call for |
| `Detector.UnsearchedHolds` | src/detect.cpp:696-726 | without a search the existence proof has the last word, or none where it was given up |
| `Detector.WitnessesHold` | src/detect.cpp:648-694 | what is kept of the cycles emitted: all witnesses are loops, none twice, each showing a cycle emitted; none is kept exactly when no cycle emitted is a loop, and every one that is where nothing is dropped; with distinct identities the counts add up to the cycles emitted, exactly the usable cycles are shown where nothing is dropped, and nothing is dropped where the cost is within budget, exactly so where all are usable |
| `Detector.Assess` | src/detect.cpp:249-733 | refusals exactly as ordered; otherwise every bound is reported exactly where the question runs into it (candidates, mask memory, existence steps, cycles, enumeration steps, length), the flags follow from those, the answer is the one the hop table calls for among the candidates, and a confirmed one shows what the search emits and the validator accepts; and with distinct identities the outcome is the one the resolutions of the hops call for, kind by kind |
| `Detector.OutcomeByKind` | src/detect.cpp:419-441 | an answer is given exactly when the proof is not given up: a confirmed loop or an open question where hops proven open go round, otherwise the conflict, unknown or no loop that the resolutions call for |
| `Detector.GivesUpExactly` | src/detect.cpp:373-400 | the proof is given up exactly when the selectors in scope that some hop takes are more than the bound, need more mask memory than the ceiling, or take more steps than the budget |
| `Coverage.AnswerDecides` | src/detect.cpp:696-726 | with distinct edge identities an answer given is the one the hop table calls for over every selector in scope, and the question stays open exactly when the existence proof is given up, or a proven cycle exists and no usable one is emitted |
| `Coverage.EmittedComeFirst` | src/detect.cpp:538-637 | a search that its bounds stop has come to the first cycles of the search without bounds, in the order of smallest resource and then of edges |
| `Coverage.CleanAnswerDecides` | src/detect.cpp:696-726 | over known states the question is answered exactly when the existence proof is carried through and, where a proven cycle exists, a first cycle within the length bound is closed before the steps run out |
| `Coverage.ProvenIsFound` | src/detect.cpp:624-627 | where a proven cycle exists and the search finds none, the length bound has cut it |
| `Coverage.LoopIsCycle` | src/detect.cpp:514-638 | with distinct edge identities every loop in scope is a usable cycle of the search without bounds, of a candidate with a proven cycle |
| `Coverage.CoversDecides` | src/detect.cpp:657-694 | witnesses of cycles cover every loop in scope exactly when they show every usable cycle of the search without bounds |
| `Coverage.DroppingLeavesALoop` | src/detect.cpp:657-668 | where every cycle emitted is usable, a witness dropped over the validation budget leaves a loop in scope uncovered: what is kept shows fewer cycles than were emitted |
| `Coverage.CoverageDecides` | src/detect.cpp:249-733 | as long as what is emitted can be validated within the budget, or all of it is usable, an assessment covers every loop in scope exactly when no search was called for, or no usable cycle lies behind those emitted and validating them stays within the budget |
| `Coverage.EnoughBudget` | src/detect.cpp:249-733 | with budget for the whole search and for validating what it finds the witnesses cover every loop in scope, and the answer is the truth unless the length bound cut the search |
| `Coverage.SilentExactly` | src/detect.cpp:644-668 | over known states, exactly when an assessment leaves a loop uncovered with no flag set, as a condition on the request: the search is called for, meets neither the bound on cycles nor the one on length, emits something, and either the steps run out before the last cycle or validation goes over its budget |
| `SilentSteps.SilentStepsMissALoop` | src/detect.cpp:571-575 | a concrete definition with evidence and limits on which the assessment confirms a loop, drops nothing, sets no flag, and leaves another loop uncovered |
| `SilentSteps.RequestIsProper` | src/detect.cpp:268-281 | that request is one the detector does not turn away, over a definition whose states are known |
| `SilentSteps.EvidenceIsReached` | src/evidence.cpp:282-379 | its evidence is what a run of the ledger leaves |
| `SilentDrops.SilentDropsMissALoop` | src/detect.cpp:657-668 | for every number of hops from two thousand up to the default limit on edges, a definition of one node with evidence and limits with room for everything on which the assessment confirms a loop, sets no flag, and leaves another loop uncovered |
| `SilentDrops.RequestIsProper` | src/detect.cpp:268-281 | that request is one the detector does not turn away, over a definition whose states are known |
| `SilentDrops.EvidenceIsReached` | src/evidence.cpp:282-379 | its evidence is what a run of the ledger leaves |
| `Witness.CanonicalizeCycle` | src/witness.cpp:17-34 | some rotation, in canonical form, and the same cycle exactly when it already was |
| `Witness.CanonicalizeCycleWithHops` | src/witness.cpp:36-55 | resources and hops are turned together, so each hop still leaves its resource |
| `Witness.CheckHop` | src/witness.cpp:201-273 | a hop passes exactly when it is an up edge between enabled resources, re-derived as proven open for every selector named |
| `Witness.Validate` | src/witness.cpp:134-301 | accepted exactly when the witness is a simple cycle in canonical rotation under the current fence, every hop of which is usable and proven open at the current tick for every named selector, with honest evidence and domain flag |
| `Witness.LoopIsReal` | src/witness.cpp:134-301 | an accepted witness is a closed walk of proven-open hops for each selector it names |
| `Witness.LoopStaysInDomain` | src/witness.cpp:289-293 | over a canonical definition an accepted witness never crosses domains |
| `Evidence.FindNewest` | src/evidence.cpp:151-162 | the table holds the newest sequence of each producer, boot and epoch |
| `Evidence.Classify` | src/evidence.cpp:175-187 | an observation is classified by fence, generations, lease and supersession, in that order |
| `Evidence.ResolveHop` | src/evidence.cpp:97-275 | the resolution, binding and selectors are a function of the set of observations, so their order and repetition do not matter; which function is said by the four rows below |
| `Evidence.ResolutionDecides` | src/evidence.cpp:120-270 | when a hop has which resolution, for all six, said of the definition and of the observations: unsupported, closed, conflicted, proven open, possibly open, and unproven |
| `Evidence.SelectorsDecide` | src/evidence.cpp:214-262 | a hop is open exactly for the admitted selectors that an exact Present names where it is proven open, that an old Present names where it is possibly open, and otherwise for none |
| `Evidence.BindingDecides` | src/evidence.cpp:175-212 | what a record says of its evidence: exact when a Present or an Absent is, otherwise the first that applies to some observation of another epoch, another generation, an ended lease and being superseded |
| `Evidence.ClosingDecides` | src/evidence.cpp:120-149 | over resources in order endpoints fit exactly when both are resources of the edge's own domain, and the definition closes a hop exactly when its link is down or an endpoint disabled |
| `Evidence.ProvenOpenMeans` | src/evidence.cpp:223-244 | proven open exactly when the definition leaves the hop open, a live, exactly bound, unsuperseded Present names an admitted selector, and no such Absent exists |
| `Evidence.ConflictNeedsTwoProducers` | src/evidence.cpp:223-229 | where no producer speaks twice under one sequence, a conflict has a Present and an Absent of different producers |
| `Evidence.ProvenOpenIsUsable` | src/evidence.cpp:136-149 | a proven-open hop is usable to the witness validator exactly when neither its link nor its endpoints are in an unknown state |
| `Evidence.UnknownLinkIsProvenOpen` | src/evidence.cpp:147-149 | a concrete hop with an unknown link that one exact statement makes proven open |
| `Evidence.ProvenForNamed` | src/evidence.cpp:230-244 | one exact statement proves a hop open for each selector it names that the hop admits |
| `Evidence.UnprovenOpenMeans` | src/evidence.cpp:250-262 | possibly open exactly when nothing exact is said and some Present whose binding is old, retracted or not, names an admitted selector |
| `Evidence.RetractedOpensExactly` | src/evidence.cpp:175-212 | exactly when statements their producers replaced make a difference to a hop: nothing exact is said, and the old Presents that name an admitted selector are all retracted; then the hop is possibly open again |
| `Evidence.RetractedPresentOpens` | src/evidence.cpp:204-212 | a producer says a hop is open and then that it is not, and once the lease of the first statement has ended the hop is possibly open |
| `Ledger.OldestIn` | src/evidence.cpp:343-348 | the victim is the first position no other precedes in (producer, sequence, identity) |
| `Ledger.EvidenceLedger.Submit` | src/evidence.cpp:282-368 | the answer and the new indices, bounds and counters are those of the specification, error by error |
| `Ledger.EvidenceLedger.ClearDynamicState` | src/evidence.cpp:414-419 | everything dynamic is forgotten, the counters are kept |
| `Ledger.EvidenceLedger.Resolve` | src/evidence.cpp:386-398 | the record is the resolution of the retained observations about the edge |
| `Ledger.EvidenceLedger.ResolveAll` | src/evidence.cpp:400-412 | one record for each edge, in canonical edge order |
| `Ledger.EvictionKeepsIndices` | src/evidence.cpp:349-353 | an eviction leaves the ordered store, the identity index and the edge index in agreement |
| `Ledger.EvictionKeepsNewest` | src/evidence.cpp:339-354 | what is retained of each producer's statements about an edge stays the newest part of what was accepted |
| `Ledger.InsertionKeepsIndices` | src/evidence.cpp:356-364 | an insertion leaves the three indices in agreement and the bucket in order |
| `Ledger.SubmissionKeepsState` | src/evidence.cpp:282-368 | every submission keeps the ledger consistent, within both bounds and newest-first, and an accepted one is retained |
| `LedgerChanges.AnswerDecides` | src/evidence.cpp:282-337 | a statement is accepted exactly when it is well formed, its identity is not retained, it is later than everything its producer has said under its boot and epoch, and there is room; otherwise the first reason in this order is given |
| `LedgerChanges.AcceptedChanges` | src/evidence.cpp:339-366 | what is retained after that is the statement and all that was, but for the statement of the least producer, then sequence, then identity about its edge where there was no room |
| `LedgerChanges.CountersAreAnswers` | src/evidence.cpp:282-368 | over every run, cleared or not, the four counters are the numbers of answers given |
| `Ledger.EveryRunHolds` | src/evidence.cpp:282-419 | over every run the indices agree, both bounds hold, each producer's retained statements about an edge are a suffix of those accepted since the last clear, and the size is accepted minus evicted |
| `Ledger.EvictionNeverRevives` | src/evidence.cpp:339-354 | for a retained observation, being superseded is the same judged by what is retained as by everything accepted |
| `Ledger.RetainedSequencesUnique` | src/evidence.cpp:327-332 | nothing retained about an edge has one producer speak twice under one sequence |
| `Ledger.ProvenOpenIsCurrent` | src/evidence.cpp:223-244 | a hop proven open by a reachable ledger rests on a Present that nothing accepted since has superseded |
| `Ledger.LedgerConflictNeedsTwoProducers` | src/evidence.cpp:223-229 | in a reachable ledger a conflict is a disagreement between two producers |
| `Statements.RunStatesAll` | src/evidence.cpp:282-379 | for every definition with distinct identities and sound records that the ledger has room for, the run that states each edge once has every statement accepted and leaves exactly those |
| `Topology.ResourceIndexIsUnique` | src/topology.cpp:140-148 | in a canonical definition a resource is found by its identity and is the only one |
| `Topology.EdgeIndexIsUnique` | src/topology.cpp:162-171 | with distinct identities an edge is found by its identity and is the only one |
| `Sorting.StrictIsUnique` | src/topology.cpp:333-335 | contents with different keys have one sorted order, so an unstable sort is as good as a stable one |
| `Canonical.Canonicalize` | src/topology.cpp:316-399 | a definition is let through exactly when it is within its limits and its sorted records have no fault, and comes out sorted |
| `Canonical.BuiltDecides` | src/topology.cpp:316-399 | what is let through, rule by rule: a generation, resources and selectors in strict order, edges by source, target and identity of which no two neighbours share one, and every record as it should be |
| `Canonical.BuiltIsCanonical` | src/topology.cpp:337-399 | what is let through has strictly ordered resources and selectors and edges that fit them |
| `Canonical.ContentsDecide` | include/loop_guard/topology.hpp:59-61 | the same contents in any insertion order are let through alike, as the same definition |
| `Canonical.BuiltStays` | src/topology.cpp:316-437 | a definition let through once goes through again unchanged |
| `Canonical.RepeatedEdgeIdSlipsThrough` | src/topology.cpp:369-376 | a concrete definition that is let through although two of its edges share an identity |
| `Canonical.OnlyNeighboursAreCompared` | src/topology.cpp:369-376 | a definition without other faults is let through exactly when no two neighbours of the canonical order share an identity |
| `Canonical.RepeatedIdsAreApart` | src/topology.cpp:369-376 | two edges of a built definition that share an identity have another edge between them, and their endpoints ascend strictly |
| `TopologyIndex.OrderById` | src/topology.cpp:401-409 | a permutation of the edge positions, every position once, in order of identity |
| `TopologyIndex.EdgePositionFinds` | src/topology.cpp:162-171 | the lookup finds an edge exactly when there is one, and with distinct identities the one |
| `TopologyIndex.PositionIsIndex` | src/topology.cpp:140-148 | the halving search among built resources finds exactly what is there |
| `TopologyIndex.CountOutEdges` | src/topology.cpp:411-419 | each slot counts the edges of the source before it |
| `TopologyIndex.SumOutEdges` | src/topology.cpp:420-422 | the prefix sums count the edges of all earlier sources |
| `TopologyIndex.FillOutEdges` | src/topology.cpp:423-434 | the list grouped by source is the canonical order itself, each slot being written once |
| `TopologyIndex.BuildIndices` | src/topology.cpp:401-434 | the three indices of a built definition are the ordered positions, the prefix sums of the out-degrees, and the list grouped by source |
| `TopologyIndex.IndicesAreUnique` | src/topology.cpp:401-434 | with distinct edge identities a definition has one set of indices, so a definition decoded from its payload has those it had |
| `TopologyIndex.SharedIdLeavesAChoice` | src/topology.cpp:401-409 | two edges that share an identity leave another order just as good, so the lookup depends on how the sort broke the tie |
| `TopologyIndex.OutEdgesAreExact` | src/topology.cpp:181-201 | the out-edges of a resource are exactly the edges that leave it, in canonical order |
| `Order.SortedIsFound` | src/containment.cpp:252-261 | in a sorted list the halving search finds exactly what is there |
| `Order.FoundIsThere` | src/containment.cpp:667 | whatever the order, what is found is there |
| `Order.FindsAllIffAscending` | src/containment.cpp:667 | elements that differ are all found exactly when they ascend; a rotated cycle need not |
| `HittingSet.BetterIsTotal` | src/containment.cpp:17-31 | the three-level objective is total: two plans neither of which is better are the same |
| `HittingSet.PartIsNoWorse` | src/containment.cpp:17-31 | no selection is better than a part of it |
| `HittingSet.BestIsUnique` | src/containment.cpp:40-44 | there is at most one best hitting set under cost, then size, then lexicographic order |
| `HittingSet.NotBetterLeads` | src/containment.cpp:18-31 | not to be bettered is to be no dearer, at equal cost no longer, and at equal cost and length to hold the smaller resource where the two differ first |
| `HittingSet.BestLeads` | src/containment.cpp:311-343 | targets are best exactly when they are reached and lead every hitting set in this sense |
| `HittingSet.BestIgnoresSetOrder` | src/containment.cpp:40-44 | being best does not depend on the order or repetition of the sets |
| `HittingSetSolver.BuildIndex` | src/containment.cpp:55-71 | the index lists in both directions exactly which options hit which sets |
| `HittingSetSolver.HittingSetSearch.ChooseBranchSet` | src/containment.cpp:112-133 | the branch set is the first uncovered set with the fewest options, read off the cover counts |
| `HittingSetSolver.HittingSetSearch.Choose` | src/containment.cpp:159-161 | an option goes on the path, and counts and cost follow |
| `HittingSetSolver.HittingSetSearch.Unchoose` | src/containment.cpp:163-165 | taking it off again undoes the counts and the cost exactly |
| `HittingSetSolver.HittingSetSearch.OfferCurrent` | src/containment.cpp:144-154 | a path that hits everything becomes the incumbent exactly when it betters it |
| `HittingSetSolver.HittingSetSearch.Search` | src/containment.cpp:135-171 | the in-place search leaves path, counts and cost as they were and ends in the status the recursive search ends in |
| `BranchAndBound.FewerUncovered` | src/containment.cpp:155-170 | each option taken leaves fewer uncovered sets, so the recursion ends |
| `BranchAndBound.PruneIsSafe` | src/containment.cpp:156-158 | a branch cut on running cost holds nothing better than the incumbent |
| `BranchAndBound.SearchHolds` | src/containment.cpp:135-171 | whatever the budget the incumbent is a hitting set at its own cost, at most budget plus one nodes are counted, and a search within budget leaves nothing better above the path |
| `HittingSetSolver.SolveHittingSet` | src/containment.cpp:311-343 | ProvenInfeasible exactly when some set has no option; PlanFeasible and PlanOptimal targets hit every set at the reported cost; PlanOptimal with distinct options is the best hitting set; the budget is exceeded exactly when the verdict says so; an optimum of distinct options leads every hitting set: none is cheaper, none as cheap is smaller, and against one as cheap and as large the first resource where they differ is the optimum's |
| `HittingSetReference.EverySelectionHasAMask` | src/containment.cpp:358-367 | every selection of options is one of the masks enumerated |
| `HittingSetReference.SolveReference` | src/containment.cpp:345-410 | up to 24 options: the best hitting set, or proof that none exists; beyond that it declines; an optimum leads every hitting set in cost, number and first difference |
| `HittingSetReference.SolversAgree` | src/containment.cpp:311-410 | within budget the branch and bound and the reference return the same outcome, targets and cost |
| `HittingSetReference.SetOrderIsIrrelevant` | src/containment.cpp:311-343 | within budget the result depends on neither the order nor the repetition of the sets |
| `Planner.BuildInstance` | src/containment.cpp:596-646 | each set holds exactly what may break its witness, and the options are exactly those resources, in order, at their cost |
| `Planner.ReachedIsHonest` | src/containment.cpp:613-649 | what the solver reaches is an ordered list of eligible resources that breaks every witness at the sum of its costs |
| `Planner.BuildTarget` | src/containment.cpp:651-689 | a target lists exactly the selectors of the witnesses the resource is found on and exactly their hops that touch it |
| `Planner.TargetDecides` | src/containment.cpp:651-689 | a target made for loops lists exactly the hops that enter or leave its resource on the loops it is found on |
| `Planner.BuildTargets` | src/containment.cpp:651-689 | one target for each resource, in order |
| `Containment.ValidatePlan` | src/containment.cpp:822-984 | a plan is valid exactly when its fence and policy match and its targets are ordered, eligible, implicated, truly priced and hit every witness, or its certificate's witness has no containable resource |
| `Containment.PlanContainment` | src/containment.cpp:535-817 | refusals exactly as ordered; otherwise the plan published is the solver's answer where its own validator accepts it |
| `Containment.WithheldExactly` | src/containment.cpp:786-793 | exactly when the planner withholds what the solver found: a target the halving search finds on no witness, or a certificate whose identity names a witness with a containable resource first |
| `Containment.AscendingIsPublished` | src/containment.cpp:786-816 | where all cycles ascend no target set is withheld |
| `Containment.SharedIdentityWithholds` | src/containment.cpp:865-905 | with one identity shared by all witnesses, as the detector leaves them, infeasibility is published exactly when the first witness has nothing containable |
| `Containment.UnnamedIsWithheld` | src/containment.cpp:865-905 | two concrete loops without identities of their own, the first containable and the second not: infeasibility is proved and the plan withheld |
| `Containment.InfeasibleIsPublished` | src/containment.cpp:729-757 | with identities of their own and no domain barred, infeasibility is published whenever it is found |
| `Containment.NothingBettersOptimal` | src/containment.cpp:40-44 | no choice of resources that may break every witness betters an optimal plan in cost, size and order |
| `Containment.OptimalLeads` | src/containment.cpp:18-44 | an optimal plan leads every choice of resources that may break every witness: none is cheaper, none as cheap is smaller, and against one as cheap and as large the first resource where they differ is the plan's |
| `Containment.ContainableDecides` | src/containment.cpp:252-261 | over resources and lists in order a resource may be contained at a cost exactly when a containable record of it has that cost, is of a listed kind, and is in a listed domain where any is listed |
| `Containment.BreakingDecides` | src/containment.cpp:596-640 | what may break a witness is exactly what lies on its cycle and can be contained at some cost, unless the witness crosses domains and the policy allows none that does |
| `Containment.PublishedIsContainable` | src/containment.cpp:596-702 | every target of a published plan can be contained at the cost it is charged at |
| `Containment.InfeasibleIsTrue` | src/containment.cpp:729-757 | published infeasibility is true: no choice of resources breaks every witness |
| `Shadow.CutSelectors` | src/containment.cpp:1011-1019 | exactly the listed selectors are gone, in order |
| `Shadow.ApplyShadow` | src/containment.cpp:990-1046 | a selector stays on an edge exactly when it was there and no target lists both, nothing else changes, the result is built, and it is refused exactly for a target without selectors, an unknown hop or a limit |
| `ShadowEffect.OpenInShadow` | src/containment.cpp:990-1046 | on the same evidence a hop is proven open for a selector in the shadow exactly when it was before and no target lists the two together |
| `ShadowEffect.SurvivesExactly` | src/containment.cpp:1023-1045 | the loops of the shadow are exactly the loops of the definition no hop of which a target lists with one of their selectors |
| `ShadowEffect.WitnessIsListed` | src/containment.cpp:651-689 | where cycles ascend some hop of every witness is listed with all of its selectors |
| `ShadowEffect.AscendingAreListed` | src/containment.cpp:651-689 | where cycles ascend an affirmative plan lists every witness it was made for, for each of its selectors |
| `ShadowEffect.NoLoopSurvivesExactly` | src/containment.cpp:786-1046 | where witnesses cover every loop in scope the shadow has no loop in scope left exactly when each witness has, for each of its selectors, a hop that a target lists with it |
| `ShadowEffect.AssessedLoopsAreGone` | src/detect.cpp:249-733 | detection, planning and shadow together: a request over known states with budget for the whole search, an affirmative plan for its witnesses and cycles that ascend leave no loop in scope in the shadow |
| `Bystanders.LosesExactly` | src/containment.cpp:651-689 | a hop loses a selector in the shadow exactly when it admits it and some target is for a resource on which witnesses take the hop and have the selector, together or not |
| `Bystanders.CutsOnlyWitnessed` | src/containment.cpp:664-680 | targets cut only pairs that lie on a witness exactly when there is no hop that one witness found on a target takes, and selector that another found on it has, which the hop admits and no witness has with it |
| `Bystanders.PlanCutsOnlyWitnessed` | src/containment.cpp:651-700 | the same for every affirmative plan published |
| `Bystanders.AgreeingSpare` | src/containment.cpp:664-680 | where the witnesses found on a resource all have the same selectors there is no such hop |
| `CrossedLoops.PublishedPlanCutsABystander` | src/containment.cpp:651-700 | two concrete loops, open for different selectors, an optimal plan published for them that authorizes action, and a hop that lost the selector of the other loop |
| `CrossedLoops.EvidenceIsReached` | src/evidence.cpp:282-379 | the evidence is what a run of the ledger leaves |
| `EscapingLoop.UnorderedIsLoop` | src/containment.cpp:666-680 | on a concrete definition with evidence the cycle 1, 3, 2 is a loop |
| `EscapingLoop.AscendingIsLoop` | src/containment.cpp:666-680 | and so is the cycle 2, 5 |
| `EscapingLoop.PublishedPlanLeavesALoop` | src/containment.cpp:651-689 | the optimal plan published for that loop and another authorizes action, and on the same evidence the loop is there in its shadow |
| `EscapingLoop.EvidenceIsReached` | src/evidence.cpp:282-379 | the evidence is what a run of the ledger leaves |
| `Sha256.PaddingIsLeast` | src/digest.cpp:185-190 | padding completes a 64-byte block with the least number of zeros |
| `Sha256.ClosedFormPadding` | src/digest.cpp:181-196 | the padding computed from the remainder is the standard's, within the 128-byte buffer |
| `Sha256.LengthWraps` | src/digest.cpp:185-190 | a byte count wrapped at 64 bits gives the same length field and remainder |
| `Sha256.Compress` | src/digest.cpp:83-134 | one block is compressed as section 6.2.2 of FIPS 180-4 defines it, schedule and rounds unrolled in a loop |
| `Sha256.Hasher.Update` | src/digest.cpp:136-167 | the bytes hashed so far grow by exactly the data, through buffer, whole blocks and rest; after the end nothing changes |
| `Sha256.Hasher.Finish` | src/digest.cpp:180-207 | the digest is the hash of the whole message, again on a second call |
| `Sha256.HashSegments` | src/digest.cpp:218-224 | however a message is split, its digest is the one of the whole message |
| `WordFunctions.SmallSigmasOfOne` | src/digest.cpp:91-96 | the functions of the schedule take each bit to the places that section 4.1.2 of FIPS 180-4 says, or lose it by the shift |
| `WordFunctions.BigSigmasOfOne` | src/digest.cpp:109-112 | the functions of a round take each bit to three places |
| `WordFunctions.ChoiceBits` | src/digest.cpp:110 | each bit of a choice is the second word's where the first has a one, and otherwise the third's |
| `WordFunctions.MajorityBits` | src/digest.cpp:113 | each bit of a majority is the value at least two of the three words have |
| `DigestStandard.WordBits` | src/digest.cpp:84-90 | a word of a block is four bytes, the most significant first |
| `DigestStandard.InitialWordsAreRoots` | src/digest.cpp:8-10 | the initial words are the first 32 bits of the fractions of the square roots of the first eight primes |
| `DigestStandard.FirstConstantsAreRoots` | src/digest.cpp:11-20 | the round constants 0 to 7 are the first 32 bits of the fractions of the cube roots of the primes 2 to 19 |
| `DigestStandard.SecondConstantsAreRoots` | src/digest.cpp:11-20 | the same of the constants 8 to 15 and the primes 23 to 53 |
| `DigestStandard.ThirdConstantsAreRoots` | src/digest.cpp:11-20 | the same of the constants 16 to 23 and the primes 59 to 89 |
| `DigestStandard.FourthConstantsAreRoots` | src/digest.cpp:11-20 | the same of the constants 24 to 31 and the primes 97 to 131 |
| `DigestStandard.FifthConstantsAreRoots` | src/digest.cpp:11-20 | the same of the constants 32 to 39 and the primes 137 to 173 |
| `DigestStandard.SixthConstantsAreRoots` | src/digest.cpp:11-20 | the same of the constants 40 to 47 and the primes 179 to 223 |
| `DigestStandard.SeventhConstantsAreRoots` | src/digest.cpp:11-20 | the same of the constants 48 to 55 and the primes 227 to 263 |
| `DigestStandard.EighthConstantsAreRoots` | src/digest.cpp:11-20 | the same of the constants 56 to 63 and the primes 269 to 311 |
| `BlockStream.FullBuffer` | src/digest.cpp:142-152 | absorbing a full buffer continues the fold over whole blocks |
| `Bytes.ReadsBack` | src/wire.cpp:13-49 | a number that fits its width is read back as written |
| `Bytes.WritesBack` | src/wire.cpp:13-49 | bytes are written back as read |
| `Frames.DecodesBack` | src/wire.cpp:646-730 | an encoded frame decodes to itself |
| `Frames.EncodesBack` | src/wire.cpp:678-730 | whatever decodes is the encoding of the frame it decodes to |
| `Frames.LookDecides` | src/wire.cpp:678-730 | the decoder hands out exactly the frame the bytes begin with, waits exactly while the header or what it announces is not there, refuses a header no frame can have for its first fault, and refuses what is there in full and is no frame |
| `Frames.FlagsAreRefused` | src/wire.cpp:646-698 | encoding takes any flags, and decoding takes the result back exactly when there are none |
| `FrameStream.CutsDoNotMatter` | src/wire.cpp:743-794 | a stream cut anywhere yields the same frames, fault and rest |
| `Frames.ParsesBack` | src/wire.cpp:758-794 | a stream of encoded frames yields exactly those frames and leaves nothing |
| `Frames.FrameDecoder.Feed` | src/wire.cpp:743-756 | the frames handed out, the bytes kept and the fault are those of everything pending; after a fault or the end nothing more is taken |
| `Frames.FrameDecoder.Drain` | src/wire.cpp:758-794 | every whole frame is handed out in order and the loop ends |
| `Frames.FrameDecoder.Finish` | src/wire.cpp:796-806 | finishing succeeds exactly when nothing failed and no partial frame is pending |
| `Frames.FeedAll` | src/wire.cpp:743-806 | a stream fed in any pieces gives the frames, fault and final status of the whole stream |
| `Frames.Sha256GivesDigests` | src/wire.cpp:646-676 | SHA-256 is a digest of the kind the theorems on frames ask for |
| `Fields.ByteWriter.PutRow` | src/wire.cpp:75-99 | the data grows by the fields in order |
| `Fields.ByteReader.Read` | src/wire.cpp:131-187 | a field is read exactly when its bytes are there and its value is in bounds, and failure is for good |
| `Fields.PutTree` | src/wire.cpp:75-129 | a payload of any of the formats is written field by field as its bytes, sized parts behind their sizes |
| `Fields.TakeTree` | src/wire.cpp:131-187 | a payload is read field by field exactly as the format says, and fails exactly where it does not fit |
| `Codecs.EncodePolicy` | src/wire.cpp:414-435 | writes a policy field by field as the bytes its reader decides on |
| `Grammar.TreeReads` | src/wire.cpp:75-187 | whatever fits its format is read back as written, and what is behind it is left |
| `Grammar.TreeIsWritten` | src/wire.cpp:75-187 | whatever is read fits its format, and the bytes read are the ones it is written as, where nothing was passed over |
| `Grammar.WholeDecides` | src/wire.cpp:473-476 | what was written is read back as written exactly when it fits the format of the reader, and is refused otherwise |
| `Codecs.DecodePolicy` | src/wire.cpp:437-483 | accepts exactly the bytes of some policy that fits the limits and is sorted, and gives back that policy |
| `Codecs.EncodeObservation` | src/wire.cpp:485-516 | writes an observation field by field as the bytes its reader decides on |
| `Codecs.PolicyDecides` | src/wire.cpp:414-483 | a policy that was written comes back as itself exactly when its lists are sorted and within their limits, and its bytes are refused otherwise |
| `Codecs.DecodeObservation` | src/wire.cpp:518-557 | accepts exactly the bytes of some observation that fits, and gives back that observation |
| `Codecs.ObservationDecides` | src/wire.cpp:485-557 | accepted bytes are the ones the observation read is written as, and an observation that fits comes back as itself |
| `Layouts.PolicyLayout` | src/wire.cpp:414-435 | the bytes of a policy, field by field: which, how wide, and in which order |
| `Layouts.ObservationLayout` | src/wire.cpp:485-516 | the bytes of an observation, field by field |
| `Layouts.FenceLayout` | src/wire.cpp:268-277 | the bytes of a fence, field by field |
| `Layouts.BootLayout` | src/persistence.cpp:584-598 | the bytes of a boot record, field by field |
| `Layouts.ShutdownLayout` | src/persistence.cpp:613-622 | the bytes of a shutdown, field by field |
| `Layouts.LineageLayout` | src/persistence.cpp:520-538 | the bytes of a lineage record, field by field |
| `TopologyCodec.DecodeTopology` | src/wire.cpp:334-411 | what is read is taken through the canonical path |
| `TopologyCodec.RecodeTopology` | src/wire.cpp:295-411 | a built definition that fits its payload comes back as the same definition |
| `TopologyCodec.TopologyDecides` | src/wire.cpp:295-411 | a built document, labels and kinds included, comes back as itself exactly when it fits the limits of the reader, and is refused otherwise |
| `Journal.WholeRecord` | src/persistence.cpp:229-360 | a framed record, with anything behind it, is decoded as written |
| `Journal.CutRecord` | src/persistence.cpp:251-338 | a record cut anywhere is a torn tail and never damage |
| `Journal.ScanOfCut` | src/persistence.cpp:1157-1216 | records cut at any byte scan to exactly those wholly before the cut, the rest is kept as a torn tail, and nothing is found damaged |
| `Journal.ScanOfTorn` | src/persistence.cpp:1157-1216 | records with one more torn behind them scan to exactly the records |
| `TornTails.ShortTail` | src/persistence.cpp:256-274 | a tail of up to 24 bytes is taken for torn when its magic is right, or its first byte where it is shorter; it is the beginning of a record exactly when its fields, with the least that can follow them, are those of one |
| `TornTails.HeaderTail` | src/persistence.cpp:256-274 | a longer tail that ends in the header is taken for torn when its magic is right; it is the beginning of a record exactly when its fields are those of one and some payload of the length they say has that header |
| `TornTails.PayloadTail` | src/persistence.cpp:276-338 | behind a sound header any bytes fewer than declared are taken for torn; they are the beginning of a record exactly when some payload of that length and digest begins with them |
| `TornTails.GarbageIsTorn` | src/persistence.cpp:259-267 | two concrete bytes that begin no record and are taken for torn |
| `StoreState.ReplayMatches` | src/persistence.cpp:1224-1329 | replaying what is read of an allowed mutation gives what memory has, but for boot and epoch of the fence, exactly when no finding is pushed out, none has unsettled reasons, and no absent finding is withdrawn |
| `StoreState.Minted` | src/persistence.cpp:1365-1392 | the boot minted is above every boot, incarnation and epoch of the ledger and above the committed epoch |
| `StoreState.EpochStays` | src/persistence.cpp:1310-1392 | whatever is replayed, the epoch minted next from what is on disk stays above the one in memory |
| `StoreChanges.MutationChanges` | src/persistence.cpp:1543-1690 | what each of the eight mutations leaves in memory, said of the state before and after: a withdrawn finding is the first of its identity, withdrawn for the cause and at the time given, with the reason where there is room, and lists keep their newest |
| `StoreChanges.ReplayDecides` | src/persistence.cpp:1224-1329 | when a record is refused on replay, and what replaying it leaves: nothing is dropped, and a boot that is there is closed instead of added |
| `StoreChanges.MintedIsNext` | src/persistence.cpp:1365-1392 | each number minted is one more than one there was, or than none, under the producer and time given, and not ended |
| `Explanations.AddedIsSettled` | src/core.cpp:225-241 | adding a reason whose texts are not cut leaves reasons in order, and with no text that would be cut again |
| `Explanations.ReasonsDecide` | src/core.cpp:201-209 | reasons go by code, then by subject, then by text, of which the one that ends first or holds the smaller byte at the first difference comes first |
| `Explanations.RereadDecides` | src/persistence.cpp:495-512 | reasons that were written are read back as they were exactly when they are in order and no text would be cut again |
| `Explanations.CutAgain` | src/core.cpp:435-446 | a text that was cut stays as it is when it is bounded again exactly when the cut fell on the bound or at least three bytes before it |
| `Explanations.CutGrows` | src/core.cpp:435-446 | a concrete text that grows each time it is bounded |
| `StoreCodec.DeltaDecides` | src/persistence.cpp:886-1009 | a record that was written comes back exactly when it fits the limits of the reader, as the mutation it says with the reasons of a finding added one by one, and is refused otherwise |
| `StoreCodec.StateDecides` | src/persistence.cpp:688-884 | a snapshot comes back exactly when it fits the limits of the reader, as the state it was made of with the reasons of findings added one by one, and is refused otherwise |
| `Readability.LedgerDecides` | src/persistence.cpp:796-799 | the snapshot of a readable state is accepted exactly when its boot ledger is within its bound |
| `Readability.MutatedStays` | src/persistence.cpp:886-1009 | a mutation whose record a reader accepts keeps the state one whose snapshot can be read |
| `StoreModel.CompactionHolds` | src/persistence.cpp:1480-1539 | whatever the document was, a compaction within the ceiling of a record and the bounds on boots and findings leaves one snapshot that is exactly the state |
| `StoreModel.CompactionKeeps` | src/persistence.cpp:1480-1539 | so it does for a document that refines memory |
| `StoreModel.MutationKeeps` | src/persistence.cpp:1444-1478 | a mutation in bounds succeeds, compacting first when needed, and the document goes on refining memory |
| `StoreModel.ReadsBack` | src/persistence.cpp:1157-1332 | reading a document back, torn or not, gives its records and what memory held, and is refused exactly when the journal is over its bound |
| `StoreModel.ReopenKeeps` | src/persistence.cpp:1334-1420 | opening again after a crash inside an append restores memory, mints numbers above all earlier ones, and the document refines the new memory |
| `StoreModel.FreshDocumentHolds` | src/persistence.cpp:1357-1411 | a new document is one snapshot holding boot, incarnation and epoch one |
| `StoreModel.EveryRunRefines` | src/persistence.cpp:1157-1659 | with the codecs of the program, after every run of mutations, compactions, crashes and opens inside the bounds the document is one leading snapshot and records numbered on in one generation, replaying it gives memory but for boot and epoch of the fence, and boots rise |
| `StoreModel.AppendDecides` | src/persistence.cpp:1444-1478 | a mutation that was appended leaves a document that can be read exactly when the journal had room, a reader accepts its payload, and a finding it withdraws is there |
| `StoreModel.PolicyDecidesDocument` | src/persistence.cpp:1568-1588 | after a policy is installed the document can be read exactly when its lists are sorted and within their limits, and otherwise no open accepts it |
| `StoreModel.UnsortedPolicyStrands` | src/wire.cpp:473-481 | a concrete policy with unsorted kinds that every store without a policy takes, and that strands the document |
| `StoreModel.CompactionDecides` | src/persistence.cpp:1480-1539 | a compaction that can be written leaves a document that can be read exactly when its snapshot is no larger than a record and holds no more boots and findings than a reader takes |
| `StoreModel.OversizedSnapshotStrands` | src/persistence.cpp:1480-1539 | a snapshot between the two ceilings is written, and no open accepts the document |
| `StoreModel.FullLedgerStrands` | src/persistence.cpp:796-799 | so is the snapshot of a ledger with more boots than a reader takes |
| `StoreModel.OverfullStrands` | src/persistence.cpp:833-835 | and the snapshot of a state with more findings than a reader takes |
| `PushedOut.DurableExactly` | src/persistence.cpp:1641-1656 | exactly until when a finding is durable: until more new findings have come than there was room for and older ones to make room |
| `PushedOut.NewestIsDurable` | src/persistence.cpp:1641-1656 | a finding just written is durable until as many newer ones have come as are retained |
| `PushedOut.PushedOutComesBack` | src/persistence.cpp:1255-1277 | opened again, a store holds what was pushed out of memory before |
| `PushedOut.OverfullLasts` | src/persistence.cpp:1641-1656 | a state holds too many findings for a snapshot exactly until the next upsert |
| `PushedOut.PushedOutStrands` | src/persistence.cpp:1255-1277 | a finding pushed out, a restart and a compaction leave a document no open accepts |
| `PushedOut.PushedOutWithdrawalStrands` | src/persistence.cpp:1661-1687 | after a compaction the withdrawal of a finding that was pushed out leaves a document no open accepts |
| `StoreModel.AbsentWithdrawalStrands` | src/persistence.cpp:1661-1687 | withdrawing a finding that is not durable leaves a document no open accepts |
| `StoreModel.FullJournalStrands` | src/persistence.cpp:1451-1459 | a mutation appended at the record bound leaves a document one record over it, which no open accepts |
| `StoreModel.FailedCompactionStrands` | src/persistence.cpp:1480-1488 | a compaction that cannot write has already moved the generation, and a record appended after it leaves a document no open accepts |
| `DocumentScan.ScanDocument` | src/persistence.cpp:1157-1216 | the loop accepts exactly the orderly, sound documents within the bound and returns their records and the length of those; what is accepted is exactly such records in their framing with nothing behind them but a torn tail |
| `Recovered.DecodedIsFramed` | src/persistence.cpp:250-360 | a record is decoded from exactly the bytes it is framed as, its digests included, whatever stands behind them |
| `Recovered.ScanDecides` | src/persistence.cpp:1157-1216 | a scan ends without damage exactly on records in their framing with a torn tail behind them, and finds just those |
| `Recovered.ReadDecides` | src/persistence.cpp:1157-1329 | a document is read exactly when it is orderly records in their framing, within the bound, that can be replayed, with a torn tail; and what is read is those and what replaying them gives |
| `Recovered.OpenedHolds` | src/persistence.cpp:1330-1442 | a store opened holds what replaying its records gives and the new boot, or the new boot alone |
| `DurableStore.ReplayRecords` | src/persistence.cpp:1222-1332 | the state is the fold of the records, refused where one is |
| `DurableStore.DurableStore.AppendPayload` | src/persistence.cpp:1444-1478 | document, counts and generation are those of the specification |
| `DurableStore.DurableStore.RewriteSnapshot` | src/persistence.cpp:1480-1520 | the document becomes one snapshot, or only the generation moves |
| `DurableStore.DurableStore.Compact` | src/persistence.cpp:1522-1539 | as specified, numbering starting anew at two |
| `DurableStore.DurableStore.SetTopology` | src/persistence.cpp:1541-1566 | a definition is taken through the canonical path, and one that does not advance is refused; otherwise record, then memory |
| `DurableStore.DurableStore.SetPolicy` | src/persistence.cpp:1568-1588 | a regressed policy is refused; otherwise record, then memory |
| `DurableStore.DurableStore.AdvanceFence` | src/persistence.cpp:1590-1604 | record, then memory |
| `DurableStore.DurableStore.AppendLineage` | src/persistence.cpp:1606-1628 | a regressed sequence is refused; the newest records are retained |
| `DurableStore.DurableStore.UpsertFinding` | src/persistence.cpp:1630-1659 | replaced or appended, the newest findings being retained |
| `DurableStore.AddReason` | src/core.cpp:225-241 | the reason is put in its place, its texts bounded, if there is room for one |
| `DurableStore.DurableStore.WithdrawFinding` | src/persistence.cpp:1661-1687 | the record is written before it is known whether there is a finding to withdraw |
| `DurableStore.DurableStore.Close` | src/persistence.cpp:1696-1721 | a clean end is recorded for the boot |
| `DurableStore.OpenOrCreate` | src/persistence.cpp:1118-1442 | the store opened, its document and its boot are those of the specification, and it is refused exactly where that refuses; only a document that is framed records with a torn tail, and can be replayed, is opened |
| `Findings.FenceCauseOf` | src/core.cpp:171-191 | a cause is named exactly when the fences differ |
| `Findings.Register` | src/finding.cpp:86-126 | refusals as ordered; at capacity exactly the oldest terminal finding makes room, and a registry full of live findings refuses |
| `Findings.FenceStale` | src/finding.cpp:201-220 | exactly the live findings of another fence become stale |
| `Authority.AuthorizeTargets` | src/authority.cpp:64-94 | granted exactly when active, current, unexpired and within scope, count and cost |
| `Authority.AuthorizesWhatIsPermitted` | src/authority.cpp:64-94 | a grant authorizes nothing it does not permit, and all it permits when its scope is sorted |
| `Authority.VerifiedTargets` | src/authority.cpp:96-107 | exactly the targets of the intent that carry an effect, in order |
| `Authority.UnverifiedTargets` | src/authority.cpp:109-118 | exactly the targets without an effect |
| `Authority.FullyVerified` | src/authority.cpp:120-125 | true exactly when there are targets and each carries an effect |
| `RuntimeRuns.RestartFencesAll` | src/runtime.cpp:71-150 | a restart revives nothing: every restored finding is fenced; and the restored state is reachable exactly when the durable fence is not ahead of the durable policy |
| `RuntimeRuns.FenceMoves` | src/runtime.cpp:246-413 | moving the fence forward keeps live findings current, verified ones contained, and no terminal one revived |
| `RuntimeRuns.RegistrationKeeps` | src/finding.cpp:86-126 | registering evicts only what is over and revives nothing |
| `RuntimeRuns.PublishKeeps` | src/runtime.cpp:489-580 | publishing keeps the state reachable |
| `RuntimeRuns.AuthorizationKeeps` | src/runtime.cpp:627-747 | authorizing keeps the state reachable, fresh applications included |
| `RuntimeRuns.AuthorizedWithinBounds` | src/runtime.cpp:627-747 | an intent is issued only for a live finding at the current fence, under an optimal plan within its budget at that fence, for targets of the plan the grant permits at their cost |
| `RuntimeRuns.AcknowledgementKeeps` | src/runtime.cpp:749-778 | acknowledging keeps the state reachable |
| `RuntimeRuns.AcknowledgementIsNoEffect` | src/runtime.cpp:764-769 | acknowledgements neither make nor unmake an application in which every target has an effect; what they make of the finding is another matter |
| `RuntimeRuns.EffectKeeps` | src/runtime.cpp:780-836 | recording an effect keeps verified findings backed by an application all of whose targets have effects |
| `RuntimeRuns.ActionKeeps` | src/runtime.cpp:246-861 | every operation keeps the state reachable, lets no fence component fall, drops no live finding and revives no terminal one |
| `RuntimeRuns.EveryRunKeeps` | src/runtime.cpp:246-861 | every run reaches only such states, with a fence that never falls |
| `RuntimeRuns.VerifiedMeansEffects` | src/runtime.cpp:780-836 | a finding in ContainmentVerified binds the current fence, and one of its applications at that fence has an effect at that fence for every one of its targets, of which there is one |
| `Transitions.EffectDecides` | src/runtime.cpp:780-836 | an effect is recorded exactly when its intent is registered at the current fence, it is at that fence for a target that has none, and the finding is live; it is then among the application's, and the finding is verified exactly when every target has one; and why it is refused otherwise |
| `Transitions.AcknowledgementDecides` | src/runtime.cpp:749-778 | an acknowledgement is taken exactly at the current fence, up to four, for a live finding, which is then applied but not verified, whatever it was before |
| `Transitions.LateAcknowledgementUnverifies` | src/runtime.cpp:764-769 | an acknowledgement that comes after the last effect takes the verification back, and no effect brings it again |
| `Transitions.WithdrawalDecides` | src/runtime.cpp:838-861 | a finding that is there is withdrawn from any state, for that cause and at that time, and nothing else changes |
| `Transitions.MoveDecides` | src/finding.cpp:201-221 | when the fence moves exactly the live findings another fence binds become stale, for the first component that differs |
| `Transitions.RestartDecides` | src/runtime.cpp:71-150 | what a restart begins with: durable definitions, the committed fence under the new boot, no plan or application, and of the findings only durable ones, fenced, all of them where they fit the registry |
| `Issuance.PublishDecides` | src/runtime.cpp:489-580 | when a finding is published, which finding it is, and that at capacity exactly the oldest that is over makes room; and why it is refused otherwise |
| `Issuance.PlanDecides` | src/runtime.cpp:582-625 | a plan replaces the one of its identity and, where there is no room, the one of the least; and the first live finding of the assessment has it |
| `Issuance.IntentDecides` | src/runtime.cpp:627-747 | for a grant with an ordered scope an intent is issued exactly when the finding is live and current, its plan is one to act on at this fence, and what is asked is the plan's, none twice, and within the grant at the plan's prices; it then carries exactly the selectors of the targets asked, and lasts its lease; and why it is refused otherwise |
| `Issuance.PlansStayInOrder` | src/runtime.cpp:596-602 | retained plans stay in the order of their identities, whatever is done |
| `Durability.DoneIsDurable` | src/runtime.cpp:246-861 | once its records are written, the durable state has what an operation that succeeded installed, the fence it moved to, the finding it published, and the withdrawal it made |
| `Lives.WritingIsBacked` | src/runtime.cpp:246-861 | however many records of an operation were written, the durable fence is not ahead of the durable definitions, and when all of them were, memory is backed by them |
| `Lives.CrashLives` | src/runtime.cpp:71-150 | after a crash in the middle of any operation, whatever was torn, the runtime restored is in a reachable state with every finding over, under a boot and an epoch above those of every earlier boot |
| `Lives.LifeBegins` | src/runtime.cpp:71-150 | a runtime over a new document is in such a state |
| `Lives.EveryLifeKeeps` | src/runtime.cpp:71-861 | through every sequence of operations, crashes in the middle of one, restarts and shutdowns inside the bounds the document refines the store and the runtime stays in reachable states that what is durable backs |
| `FenceLives.WritingMirrors` | src/runtime.cpp:246-413 | however many records of an operation were written, a restart restores no less than the fence before it, and when all of them were, exactly the fence behind it |
| `FenceLives.CrashRaisesFence` | src/runtime.cpp:71-150 | after a crash in the middle of any operation and a restart no part of the fence is below what it was before the operation, and boot and epoch are above |
| `FenceLives.FenceNeverFalls` | src/runtime.cpp:71-861 | through every sequence of operations, crashes, restarts and shutdowns inside the bounds no part of the fence ever falls |
| `FenceLives.NewLifeIsMirrored` | src/runtime.cpp:71-150 | a runtime over a new document begins in a state that has this |
| `PolicyFence.ActionDecides` | src/runtime.cpp:246-861 | an operation leaves the fence naming the installed policy exactly when it did before or installs one, and never parts it from the topology |
| `PolicyFence.RestartDecides` | src/runtime.cpp:106-122 | a restart restores a fence that names the policy exactly when the committed fence names the durable one, or none |
| `PolicyFence.CrashDecides` | src/runtime.cpp:382-413 | after a crash in the middle of any operation the fence restored names the policy exactly when it did before, unless a policy was written: then exactly when its move of the fence was too, or the committed fence names it or none |
| `PolicyFence.LifeAgrees` | src/runtime.cpp:71-861 | through every life in which no crash falls between the two records of a policy under a fence that names another, fence and policy agree |
| `PolicyFence.FirstPolicySplits` | src/runtime.cpp:382-413 | the first policy of a new document, of any generation above one, is parted from the fence by a crash between its two records |
| `PolicyFence.DisagreeingStalls` | src/containment.cpp:546-550 | where they disagree the planner answers no assessment at the fence with the policy installed, that policy is not installed again, and a newer one repairs it |
| `Runtime.DecideIntent` | src/runtime.cpp:638-697 | the decision about an intent, refusal by refusal, as specified |
| `Runtime.Runtime.constructor` | src/runtime.cpp:128-141 | the state without durable storage and an empty ledger, which is reachable |
| `Runtime.Runtime.Reopen` | src/runtime.cpp:83-150 | the state restored from durable storage with every finding over and an empty ledger; it is valid exactly when the fence, policy and definition on disk are in order |
| `Runtime.Runtime.MoveFence` | src/runtime.cpp:257-264 | the fence and the findings after an advance |
| `Runtime.Runtime.AdvanceForwarding` | src/runtime.cpp:246-275 | refused unless the generation rises; otherwise the fence moves |
| `Runtime.Runtime.AdvanceFabricEpoch` | src/runtime.cpp:276-303 | refused unless the epoch rises; otherwise the fence moves |
| `Runtime.Runtime.AdvanceEpoch` | src/runtime.cpp:305-333 | the epoch rises by one until it is exhausted |
| `Runtime.Runtime.SetTopology` | src/runtime.cpp:335-380 | refused unless the canonical path lets the definition through and its generation rises; otherwise definition and fence move |
| `Runtime.Runtime.SetPolicy` | src/runtime.cpp:382-413 | refused unless the generation rises; otherwise policy and fence move |
| `Runtime.Runtime.SubmitObservation` | src/runtime.cpp:438-450 | the ledger answers and moves as specified |
| `Runtime.Runtime.ClearEvidence` | src/runtime.cpp:452-459 | everything dynamic in the ledger is forgotten |
| `Runtime.Runtime.Detect` | src/runtime.cpp:468-487 | nothing without a definition; otherwise the assessment of the installed definition at the current fence |
| `Runtime.Revalidate` | src/runtime.cpp:518-527 | true exactly when every witness is a loop under the current question |
| `Runtime.Runtime.PublishFinding` | src/runtime.cpp:489-580 | refusals as ordered, every witness being validated again against what is installed and retained; otherwise a confirmed finding at the current fence is registered |
| `Runtime.Runtime.PlanContainment` | src/runtime.cpp:582-625 | the plan published for the installed definition and policy is retained within its bound and attached to the first live finding of the assessment |
| `Runtime.Runtime.AuthorizeContainment` | src/runtime.cpp:627-747 | refusals as ordered; otherwise the finding is requested and a fresh application recorded; for a grant with an ordered scope exactly when finding, plan, request and grant allow it, with the selectors of the targets asked and the lease given |
| `Runtime.Runtime.RecordAcknowledgement` | src/runtime.cpp:749-778 | at most four, at the current fence; the finding follows if it still can |
| `Runtime.Runtime.RecordVerifiedEffect` | src/runtime.cpp:780-836 | one effect for each target at the current fence, exactly when the intent, the target and the finding allow it; the finding is verified exactly when with it every target has one, and otherwise applied but not verified |
| `Runtime.Runtime.WithdrawFinding` | src/runtime.cpp:838-861 | the finding is withdrawn, from any state |

## Left out

- Detector.Assess: the flags for stale, conflicting or missing evidence, the counters, the explanation and the origin are not modelled; they report and decide nothing.
- Coverage.CoverageDecides: where validation goes over its budget and some cycle emitted is not usable, which witnesses are dropped depends on their order, and only their number is stated.
- Evidence.ResolveHop: the list of contributing identities and the note are not modelled; they do not enter the resolution.
- Witness.Validate: the evidence digest is modelled as the set of observations it is made of, which assumes that different sets have different digests.
- Masks.AllCandidates: a 64-bit word is modelled as the set of its bit positions, so shifts and machine words themselves are not.
- Order.SortedIsFound: library lower bounds on sorted data are modelled by this halving search where it matters, and by their meaning elsewhere; library sorts and ordered maps are modelled by their meaning.
- Probe.CycleProbe.HasCycle: in-degrees and counters are unbounded numbers, which 32 bits hold for any number of edges the limits allow.
- HittingSetSolver.SolveHittingSet: costs are unbounded numbers; sums of 32-bit costs within the limits fit 64 bits.
- Containment.PlanContainment: plan and assessment identities, per-witness coverage counts, target reasons, flags and the advisory greedy recommendation are not modelled.
- Shadow.ApplyShadow: it starts from a definition that went through the canonical path, as every definition does, so the builder's own checks can fail only on its limits.
- Canonical.Canonicalize: labels and selector kinds are not part of the definition the rest works on; documents carry them through codecs and journal.
- TopologyCodec.RecodeTopology: labels are bytes; what makes text of them is not modelled. A label that does not fit is refused by the reader, where the writer of the program already gives up.
- Sha256.Compress: the eight working variables are one value that each round replaces, and the rotations are written as the two shifts that both the program and the standard use.
- Frames.FrameDecoder.Feed: the text of a failure is modelled by which fault it was.
- Fields.ByteReader.Read: the reason and text of a failure are not modelled.
- StoreModel.EveryRunRefines: the document is appended to and replaced as a whole, a crash leaving any prefix of the record being appended; other failures of the file system are not modelled. The run stays inside stated bounds, each of which has a lemma for what happens outside it.
- DurableStore.OpenOrCreate: paths, the ceiling on the size of a file, and the recovery report are not modelled.
- Runtime.Runtime.PublishFinding: the identity of a finding is given; the class is the runtime without a store, and a runtime that writes is `Lives`, where every record is in bounds.
- Runtime.Runtime.AuthorizeContainment: an intent's identity is its content, and the digest of its plan is left out of it.
- Runtime.Runtime.WithdrawFinding: the class has no store to refuse the step; what the record of a withdrawal does to one is `StoreModel.AppendDecides`.
- Sockets, listeners, process helpers, command-line tools, the coordinator loop, observers and the mutex: plumbing around the steps modelled here.
- Text topologies, other explanation texts and enumeration names: diagnostic, and used by no property.
- The remaining message codecs (hello, acknowledgements, replies): they repeat the pattern of the payloads modelled here.
- Lineage records, counters, versions and random numbers of the runtime: they record or report, and decide nothing.
