# DCR, verified

DCR keeps an agent's memory as a graph of facts grounded in an append-only text store, chooses
under a token budget which of them a model sees, and stores everything in a tamper-evident
container. This project models the deterministic part of that system in Dafny and proves what its
design relies on.

The model follows the program's own form. Objects that update their fields are classes
(`MemoryGraph`, `ContextStore`, `RawStore`, `LexicalIndex`, `Hasher`), loops are loops, pure code is
functions. Each imperative operation is proved equal to a function of its inputs and of the old
state, and the theorems are about those functions, over single calls and over whole runs. What a function decides is stated
once more without it, in the terms of the data (`BudgetOverflow`, `RevisionTheory`, `AdmitTheory`,
`Seeding`, `StoreOutcomes`).

| part | files | source |
|---|---|---|
| attention budget | `Knapsack`, `Budget`, `BudgetTies`, `BudgetOverflow` | `src/budget.rs` |
| memory graph | `Nodes`, `Graph`, `MemoryGraph`, `CascadeTheory`, `CascadeTermination`, `DrainBounds`, `GraphIndex`, `GraphHistory`, `GraphLives`, `RevisionTheory`, `Explain` | `src/graph.rs`, `src/runtime.rs` |
| claim resolution | `Claims`, `ClaimTheory`, `AdmitTheory`, `Indexer` | `src/indexer.rs` |
| planner and turn loop | `Planner`, `Seeding`, `Escalation`, `TurnLoop` | `src/planner.rs`, `src/runtime.rs`, `src/llm.rs` |
| hashing and encodings | `Bytes`, `Utf8`, `Sha256`, `Sha256Constants`, `Tagged`, `Keyed`, `Json`, `JsonParse`, `JsonRoundTrip`, `JsonGrammar` | `src/hash.rs`, `src/json.rs` |
| container | `Merkle`, `Checkpoints`, `Objects`, `Tables`, `Store`, `StoreRuns`, `StoreOutcomes`, `ContextStore`, `Scrub`, `Scrubber` | `src/merkle.rs`, `src/context_store.rs`, `src/scrub.rs` |
| raw text | `Chars`, `Text`, `Chunk`, `Spans`, `LexicalIndex` | `src/text.rs`, `src/spans.rs`, `src/index.rs` |
| shared | `Wrappers`, `Sorting`, `Arithmetic` | |

`dafny verify dfyconfig.toml` checks the whole project.

## Hypotheses

- SHA-256 is modelled in full, and `Hasher` is proved to compute it. What is built on hashing uses
  the function as a value, `SHA256`, which `Sha256Is` equates with the standard's definition. No
  collision-freedom is assumed
  globally, since that is false of any 32-byte digest: theorems that need it take as a hypothesis
  that the finite set of messages hashed in the statement (`TreeHashed`, `ProofHashed`,
  `ChainHashed`) holds no collision.
- Lengths written as eight bytes are below 2^64 (`Sized`, `AllFit`, `BodiesFit`).
- Where a root must move, the trees compared hold no collision among the messages hashed for the two
  of them (`TreesDistinct`, `WalkDistinct`).
- Ids the program derives by hashing and shortening: a document may be added when the ids of its
  chunks clash neither with each other nor with those in the store (`NoClash`). A node's id is hashed
  from the spans it was built with and outlives them: a restatement gives the node more, and building
  it again under the same id takes those away. The grounding theorems hold for any reading `built` of
  the ids under which a node offered to `upsert` has spans, or is a skill, exactly when its id says it
  was built so; a copy of a node on record may have gained spans since (`IdTells`). The shortened
  fingerprint that tells an unchanged node is taken to agree exactly when kind, value and inputs do
  (`Node.SameFingerprint`).
- A node's id is hashed from its kind, value and inputs, so it is not the id of its own evidence
  (`NewOffer`). Of the logarithm in a ranking nothing is used but that it does not fall from one on
  and is not negative there (`LogLike`).
- `Admissible` is what a caller of any graph operation brings, and `Possible` what a reload finds: what
  the last save wrote, in any order. Indices, log and snapshots need no more. `FlagsHonestly` adds that
  nothing but evidence comes in flagged, and `Honest` that ids tell how nodes were built and that no
  node amended in place loses its grounding or claims one it has not got. A container may suffer any
  rot of its object files; `StoreRuns.Admissible` is asked only where the objects' addresses are the
  point. Files hold whole checkpoints, which is what they read back as while counters are below 2^53
  (`CheckpointReloads`).

## Where the code and its comments differ

The model follows the code, and a lemma pins down the difference.

- The budget is a hard limit exactly when it is zero, when it does not hold the pinned minimum, or
  when one whole quantum is free beyond that (`BudgetIsHardIff`); otherwise the forced single bucket
  lets the answer exceed it by up to a quantum (`TightPairOverruns`).
- A pinned candidate cannot be given a more useful option of the same cost as its cheapest
  (`TieIsLost`). So the answer is the best over all levels, for all utilities, exactly when no pinned
  candidate has a second option at its cheapest's cost (`ExactOverAllLevelsIff`), and with one it can
  be worth nothing where a choice that fits is worth something (`TiedPairLoses`).
- A pinned candidate without options is dropped without a flag (`PinnedAdmitted`).
- A repeated id in a Merkle tree keeps its first entry, not its last (`FirstEntryWins`).
- A crash after a commit's checkpoint and before its manifest leaves a directory `open` refuses
  (`CrashReopens`), and so does a signer with the wrong role (`WrongRoleStrands`). A later commit
  in a process that still holds the store recovers it (`StrandedStaysClosed`, `CommitKeepsInv`).
- A scrub that starts from the committed root repairs a corrupt object exactly when a replica holds
  its bytes and, with quarantine on, every corrupt object before it had such a copy (`RepairedIff`):
  once something is quarantined the tree has left the committed root for good (`LossMovesTree`) and
  later repairs of that scrub are refused (`NoRepairAfterQuarantine`).
- Checkpoint counters are hashed as doubles, so two of them at 2^53 give one digest
  (`LargeCountersMerge`).
- Skills count as grounding although the audit path reaches no evidence (`SkillAloneIsNotEvidence`).
- Draining deferred invalidations ends under every bound exactly when no dependency cycle runs
  through live nodes (`DrainsIffAcyclic`), and under the bounds a graph has exactly when no waiting
  node belongs to a set whose members each defer a member of it (`DrainsIffNoLoop`). An edge in each
  direction between two live nodes makes such a cycle (`BothWaysNeverDrains`).
- Pinned nodes are appended last and the candidate cap can cut them (`PinnedConsideredIff`,
  `PinnedInWindowIff`): with room for one candidate, a question that finds a node gets no goal and no
  constraint (`PinnedCut`).
- The first answer whose plan was invalidated while the model was thinking is discarded, and only
  that one (`DiscardsIff`). The answer returned is such an answer exactly when the last call and an
  earlier one were falsified (`StaleReturnIff`), which does happen (`FalsifiedReturned`). After the
  spent retry an escalation extends a prompt that was falsified (`FalsifiedPromptExtended`,
  `FalsifiedExtended`), although
  the comment at src/runtime.rs:517-518 takes the violation check to have passed.
- An upsert that inserts a keyed node already superseded would leave the live index wrong
  (`UpsertKeepsLiveIff`); no caller does so.
- The JSON parser accepts more than RFC 8259. Its numbers are those of section 6 and texts with a plus
  sign in front, a leading zero, or no digit before or after the point, and no others
  (`RfcNumberIff`, `StrayNumbers`). Its strings are those of section 7 and texts with a raw control
  character or a plus sign as the first of the four characters after `\u`, and no others
  (`RfcStringIff`, `StrayStrings`). A surrogate escape is read as U+FFFD, so a string keeps its meaning
  exactly when it escapes none (`RfcStringRead`, `PairIsLost`). Any Unicode white space separates
  tokens (`StraySpace`).

## Model

| member | source | states |
|---|---|---|
| Budget.Solve | src/budget.rs:101-265 | with nothing to spend, everything is dropped and a pinned candidate means overflow; when the pinned minimum does not fit, what fits of it is admitted, most useful first (spelt out by `OverflowAdmitsIff`); otherwise the answer reports a best plan over all quantised selections, with its totals, sorted drops and demotions |
| Budget.Cheapest | src/budget.rs:70-79 | the lowest-cost option, by ladder order among equals; none exactly when there is no option |
| Budget.CheapestIsFirst | src/budget.rs:70-79 | no option costs less, and of those that cost as little it is the first of the lowest rank, L2 before L1, L3 and L0 |
| Budget.CeilDivIsLeast | src/budget.rs:96-98 | the quantised cost is the least number of quanta that covers the cost |
| Budget.Reserve | src/budget.rs:119-127 | the loop reserves exactly the cheapest option of each pinned candidate that has one, and their total cost |
| Budget.AdmitWhatFits | src/budget.rs:129-147 | on overflow the report is a greedy fill of the pinned minimum in the order the next rows spell out, whatever order the hash map lists it in, flagged as overflow |
| BudgetOverflow.OverflowAdmitsIff | src/budget.rs:132-147 | of every overflow answer, without reference to an order: a candidate is admitted, at its cheapest option, exactly when it is pinned, has one, and that option fits beside the admitted nodes whose options are worth more, or as much under a lower index |
| BudgetOverflow.OverflowIsOne | src/budget.rs:129-147 | so the answer is one, its totals are those of what it holds, and its tokens are within the budget |
| BudgetOverflow.OverflowDrops | src/budget.rs:142-147 | exactly the candidates left out are reported as dropped, and none as demoted |
| Budget.OverflowIsMaximal | src/budget.rs:133-139 | nothing the overflow path left out could still be added |
| Budget.BuildItems | src/budget.rs:159-195 | one knapsack item per candidate with options, in order, whose first choice is free |
| Budget.ItemSound | src/budget.rs:166-190 | every knapsack choice is an option its candidate may take, priced at its extra cost rounded up and valued at its gain |
| Budget.ItemComplete | src/budget.rs:166-190 | every option a candidate may take is one of its knapsack choices |
| Knapsack.FillCell | src/budget.rs:204-219 | the innermost loop finds the recurrence's maximum and the earliest choice that reaches it, so the "no pick" value never survives |
| Knapsack.FillRow | src/budget.rs:201-224 | a row of the table is the optimum over the items so far at every capacity |
| Knapsack.FillTable | src/budget.rs:197-225 | the last row and every recorded pick are those of the recurrence |
| Knapsack.BestCapacity | src/budget.rs:227-229 | the smallest capacity that reaches the maximum |
| Knapsack.OptIsUpperBound | src/budget.rs:200-225 | no selection that fits is worth more than the recurrence says |
| Knapsack.TraceAttainsOpt | src/budget.rs:231-240 | the backtracked selection fits and is worth exactly what the recurrence says |
| Knapsack.SmallestCapacityIsOptimal | src/budget.rs:227-240 | backtracking from the smallest maximal capacity gives a selection no other beats, and none as good is cheaper |
| Budget.Backtrack | src/budget.rs:230-240 | the backward walk over the picks yields the traced selection, one entry per item |
| Budget.OptimalStandsForBest | src/budget.rs:159-240 | an optimal selection of items stands for a plan no fitting plan beats in utility, nor in quantised cost at equal utility |
| Budget.PlanStands | src/budget.rs:242-247 | the lookups that turn selections and reservations into a plan assign each candidate the option of its selected item |
| Budget.Assemble | src/budget.rs:242-264 | the report holds each choice once, exact totals, the dropped nodes sorted, and exactly the demotions from preferred levels, sorted |
| Budget.ReportAscends | src/budget.rs:262-264 | the dropped nodes and the demotions are reported in ascending order of node |
| Budget.PinnedAdmitted | src/budget.rs:111-127 | of every answer: when the pinned minimum fits, a pinned candidate is admitted at some level exactly when it has an option and the budget is not zero |
| Budget.TokensWithin | src/budget.rs:149-151 | the tokens are within the budget when a quantum is free, and otherwise within the reserved minimum plus one quantum |
| Budget.TightPairOverruns | src/budget.rs:149-151 | below one free quantum, for every reserve, budget and quantum, there is an input whose every answer costs the reserve plus a whole quantum |
| Budget.BudgetIsHardIff | src/budget.rs:101-151 | over all inputs with a given pinned minimum and all their answers, the budget is never exceeded exactly when it is zero, when it is below that minimum, or when a whole quantum is free beyond it |
| Budget.DefaultBudgetIsHard | src/budget.rs:150-151 | with the default quantum the budget is exceeded at most by one token, and only if the pinned minimum takes all of it |
| Budget.NearOptimal | src/budget.rs:150-195 | the answer is worth at least any plan whose real extra cost leaves room for rounding, one quantum less one per paid choice |
| Budget.ExactAtTokenResolution | src/budget.rs:101-265 | with quantum one the answer is the true optimum at real costs, and the cheapest among equals |
| Budget.BestAtTokenResolution | src/budget.rs:101-265 | with quantum one no plan that fits the budget is worth more than the answer, also when the pinned minimum takes all of it |
| BudgetTies.ExactOverAllLevels | src/budget.rs:177-189 | where no pinned option ties with the cheapest at higher utility, the answer is the best over every choice of levels |
| BudgetTies.ExactOverAllLevelsIff | src/budget.rs:177-189 | at given costs the answer is the best over every choice of levels, for all utilities, exactly when no pinned candidate has a second option at its cheapest's cost |
| BudgetTies.TiedPairLoses | src/budget.rs:177-189 | one pinned candidate with two levels of one cost: every answer, at every quantum, is worth 0, and the other level fits and is worth 1 |
| BudgetTies.TieIsLost | src/budget.rs:179-182 | an option that costs the same as a pinned candidate's cheapest is never chosen |
| MemoryGraphClass.MemoryGraph.InsertRestored | src/graph.rs:129-145 | a persisted node is appended and indexed as it is |
| MemoryGraphClass.MemoryGraph.RequireGrounding | src/graph.rs:227-293 | the checks for skill, evidence, spans and reach, in the program's order, with the same refusals |
| MemoryGraphClass.MemoryGraph.ReindexKey | src/graph.rs:463-475 | the key index moves the node between buckets exactly when its key changed |
| MemoryGraphClass.MemoryGraph.Upsert | src/graph.rs:147-225 | a refusal changes nothing; an accepted node is stamped, placed, indexed and linked to its inputs, and a changed one invalidates its dependents (spelt out by the `RevisionTheory.Upsert` rows) |
| MemoryGraphClass.MemoryGraph.AddEdge | src/graph.rs:295-304 | an edge is added once, at both ends |
| MemoryGraphClass.MemoryGraph.RestoreEdge | src/graph.rs:707-711 | an edge read back is added between the nodes its ids name now, and dropped if either is missing |
| MemoryGraphClass.MemoryGraph.SetStatus | src/graph.rs:479-496 | only crossing the superseded boundary moves the live index |
| MemoryGraphClass.MemoryGraph.Supersede | src/graph.rs:307-326 | the loser stays, marked and pointing at its successor; warnings are cleared, dependents invalidated and orphaned evidence flagged, in that order (spelt out by the `RevisionTheory.Supersede` rows) |
| MemoryGraphClass.MemoryGraph.MarkOrphanedEvidence | src/graph.rs:333-355 | evidence is flagged exactly when no live node depends on it, and names its correction |
| MemoryGraphClass.MemoryGraph.Contradict | src/graph.rs:358-377 | both sides are linked and marked, and only fresh ones become contradicted |
| MemoryGraphClass.MemoryGraph.Settle | src/graph.rs:380-393 | a contradicted node turns fresh once nothing live contradicts it |
| MemoryGraphClass.MemoryGraph.Invalidate | src/graph.rs:396-443 | the queue loop marks, defers and logs exactly what the bounded cascade says |
| MemoryGraphClass.MemoryGraph.DrainPending | src/graph.rs:446-454 | the oldest deferred nodes are resumed, as many as waited at the start, up to the limit |
| MemoryGraphClass.MemoryGraph.Revalidate | src/graph.rs:457-461 | the node is fresh under a new stamp, in the live index again if it had left it |
| MemoryGraphClass.MemoryGraph.ByKey | src/graph.rs:558-570 | the nodes of a key in time order, superseded ones left out on request |
| MemoryGraphClass.MemoryGraph.LiveByKeySorted | src/graph.rs:581-596 | the small live index answers exactly what the full key index does |
| MemoryGraphClass.MemoryGraph.ExplainNode | src/graph.rs:622-664 | the audit loop computes the reference audit path at the given or the graph's own depth cap |
| MemoryGraphClass.MemoryGraph.InvalidatedSince | src/graph.rs:667-673 | every node in a log entry of that version or later |
| MemoryGraphClass.Load | src/runtime.rs:1445-1459 | every saved node, then every saved edge, into an empty graph |
| RevisionTheory.UpsertAcceptsIff | src/graph.rs:227-293 | a node is accepted exactly when it is a skill that names its artifact, or all its spans are on record and it has one or, being no evidence, an input that was accepted, carries a span or is evidence; a refusal changes nothing |
| RevisionTheory.UpsertStores | src/graph.rs:158-199 | the node stands in the slot of its id, or a new one, as it was offered, newly stamped and marked as grounded |
| RevisionTheory.UpsertAdds | src/graph.rs:191-199 | a node under a new id marks nothing and changes no other node but for clearing the flags of its inputs |
| RevisionTheory.UpsertLinks | src/graph.rs:202-217 | each input on record, itself included, is linked by the edge of the node's kind, and a node that is live clears its flag |
| RevisionTheory.UpsertReaches | src/graph.rs:167-189 | when kind, value, inputs or spans of a recorded node change, every other node not superseded with a dependency edge to it is marked by the call or waits to be |
| RevisionTheory.UpsertMarks | src/graph.rs:167-189 | when none changes, the log and the queue stay; otherwise only nodes that rest on it within the depth limit are marked, those go stale without result unless they are evidence, and no other node but the replaced one changes its status |
| RevisionTheory.SupersedeReaches | src/graph.rs:307-326 | every node but the loser that is not superseded and has a dependency edge to the loser is marked by the call or waits to be |
| RevisionTheory.SupersedeMarks | src/graph.rs:307-326 | the loser is superseded and names the winner; the marked are live nodes that go stale without result unless they are evidence; no other status moves, except that a contradicted winner may be fresh |
| RevisionTheory.SupersedeOnly | src/graph.rs:323-323 | nothing is marked but what rests on the loser through at most `max_depth` dependency edges |
| RevisionTheory.SupersedeSettles | src/graph.rs:314-322 | the winner records the loser and stops naming it as a contradiction, and, unless the cascade reached it, it is fresh exactly when it was or it was contradicted and nothing live it names is left |
| RevisionTheory.SupersedeFlags | src/graph.rs:333-355 | evidence behind the loser is flagged exactly when nobody but the loser and the superseded depends on it, and points at the winner; no other flag moves |
| RevisionTheory.ContradictMarks | src/graph.rs:358-377 | both nodes carry the edge and the other's id, fresh ones become contradicted, and nothing else changes |
| RevisionTheory.SettlesIff | src/graph.rs:380-393 | a node turns fresh exactly when it was contradicted and every recorded node it names is stale or superseded |
| RevisionTheory.RevalidateFreshens | src/graph.rs:457-461 | the node is fresh under the newest stamp, no other node changes, and the graph stays indexed |
| CascadeTheory.WalkSound | src/graph.rs:410-436 | whatever a cascade marks or defers is reached along dependency edges through live nodes, marks within the depth bound |
| CascadeTheory.WalkComplete | src/graph.rs:410-436 | no dependent is lost: it ends up marked, superseded or deferred |
| CascadeTheory.InvalidateBounded | src/graph.rs:396-443 | one call marks at most `max_cascade` nodes, each once, within `max_depth`, and every dependent of a marked node is marked, superseded or waiting |
| CascadeTheory.DrainedCascadeIsClosure | src/graph.rs:396-454 | after an invalidation and any drains, an empty queue means the marked set is exactly the reverse-dependency closure through live nodes |
| CascadeTheory.DrainedStatuses | src/graph.rs:420-454 | then a node is stale without cached result if it is in that closure, and untouched if it is not or is evidence |
| CascadeTermination.DrainDecreases | src/graph.rs:414-454 | on an acyclic graph, resuming one deferred node makes the total weight of the queue drop |
| CascadeTermination.DrainCallsTerminate | src/graph.rs:446-454 | on an acyclic graph, enough drain calls of at least one node each empty the queue |
| CascadeTermination.AcyclicCascadeCompletes | src/graph.rs:396-454 | so the bounded cascade refines the unbounded one there, however small its bounds |
| CascadeTermination.CycleNeverDrains | src/graph.rs:414-454 | with a cascade of one, a queue holding a node of a live dependency cycle never empties |
| CascadeTermination.DrainsIffAcyclic | src/graph.rs:414-454 | draining empties every queue under every bound exactly when no dependency cycle of two or more nodes runs through live nodes |
| DrainBounds.DrainsIffNoLoop | src/graph.rs:396-454 | under the bounds a graph has, draining its queue ends exactly when no waiting node belongs to a set whose members each defer a member of it |
| DrainBounds.BothWaysNeverDrains | src/graph.rs:295-304 | an edge in each direction between two live nodes makes a cycle under which some queue never empties |
| GraphIndex.ApplyKeeps | src/graph.rs:129-496 | every mutation keeps all indices: id and key index, live index without duplicates, mirrored edge lists, distinct stamps |
| GraphIndex.RunKeepsIndexed | src/graph.rs:129-496 | hence every graph of every run is indexed |
| GraphIndex.UpsertKeepsLiveIff | src/graph.rs:170-199 | an accepted upsert keeps the live index right exactly when the node is not already superseded or has no key |
| GraphIndex.LiveEqualsByKey | src/graph.rs:572-596 | in an indexed graph the sorted live index equals `by_key(key, true)` as a sequence |
| GraphIndex.LiveEqualsByKeyInEveryRun | src/graph.rs:578-596 | the promise of the debug assertion holds at every point of every run |
| GraphIndex.ByKeyIsTimeline | src/graph.rs:558-570 | in an indexed graph the nodes of a key, or those not superseded, are listed each once and with strictly ascending stamps |
| GraphHistory.UpsertGrounds | src/graph.rs:227-293 | an accepted node reaches, along dependency edges, a node with a span or a skill, and whatever was grounded from the start still is, also when the node replaces one that had gained a span |
| GraphHistory.ApplyKeepsRoots | src/graph.rs:147-461 | where ids tell how nodes were built, every mutation keeps what the program believes grounded so, and takes no node its grounding |
| GraphHistory.ApplyKeepsFlags | src/graph.rs:147-461 | every mutation keeps the superseded-source flag to evidence, if nothing else comes in flagged |
| GraphHistory.ApplyKeepsLog | src/graph.rs:147-461 | every mutation, whatever its arguments, only ever extends the invalidation log |
| GraphHistory.RestoreKeepsRootsIff | src/graph.rs:129-145 | a node restored alone keeps the grounding invariant exactly when it claims no grounding it does not bring |
| GraphLives.ReloadKeeps | src/runtime.rs:1445-1459 | putting the saved nodes and then the saved edges of a graph into an empty one, in any order, gives an indexed graph with the same nodes under the same ids, the same edges between them, and flags and grounding kept |
| GraphLives.LifeIsIndexed | src/graph.rs:129-496 | hence every graph of every life, mutations and reloads in any order, is indexed, its log older than its version |
| GraphLives.FlagsInEveryLife | src/graph.rs:333-355 | in every life that brings nothing else in flagged, only evidence is ever flagged |
| GraphLives.LifeIsRooted | src/graph.rs:280-293 | in every life in which ids tell how nodes were built, whatever the program believes grounded is |
| GraphLives.AcceptedStaysGrounded | src/graph.rs:280-293 | in such a life a node an upsert accepted is on record and grounded at every later point, through re-upserts, restatements, cycles and reloads |
| GraphLives.RestatementIsHonest | src/indexer.rs:785-816 | a restatement is two moves of such a life, and so is inserting the restated node again as it was built, without spans if it had none |
| GraphHistory.InvalidateIsSeen | src/graph.rs:437-441 | an invalidation's marks are seen by every check against an earlier version |
| GraphHistory.SnapshotSeesLaterMarks | src/graph.rs:666-673 | `invalidated_since` of a snapshot's version is exactly what was logged after the snapshot |
| GraphLives.SnapshotsInEverySession | src/graph.rs:666-673 | that holds between any two points of every life with no reload between them |
| Explain.ExplainSound | src/graph.rs:622-664 | an audit path lists only nodes the root rests on, each once, with exactly their spans, and is complete exactly when it is untruncated and holds evidence |
| Explain.ExplainExact | src/graph.rs:622-664 | with a depth cap of at least the node count it is exactly the support closure, its dependency edges and its spans |
| Explain.GroundedExplainsCompletely | src/graph.rs:621-664 | a grounded node that rests on no skill has a complete audit path |
| Explain.AcceptedExplainsCompletely | src/graph.rs:621-664 | so does, at every later point of such a life, reloads included, every node an upsert accepted that rests on no skill |
| Explain.SkillAloneIsNotEvidence | src/graph.rs:227-242 | a claim that rests on a skill alone is grounded, yet its audit path is incomplete |
| Sha256.Hasher.Update | src/hash.rs:116-145 | topping up the buffer, running whole blocks and keeping the rest absorbs exactly the bytes given |
| Sha256.Hasher.UpdateRaw | src/hash.rs:165-175 | padding is absorbed byte by byte without extending the length it encodes |
| Sha256.Hasher.Compress | src/hash.rs:177-225 | the in-place rounds are the compression function of section 6.2.2 of FIPS 180-4 |
| Sha256.ExpandSchedule | src/hash.rs:178-194 | the schedule loop computes the message schedule |
| Sha256.RunRounds | src/hash.rs:196-217 | the rotating variables compute sixty-four rounds |
| Sha256.Hasher.Finalize | src/hash.rs:147-161 | the wrap-around padding loop ends and the digest is SHA-256 of the message padded per section 5.1.1 |
| Sha256.ZeroPadIsLeast | src/hash.rs:151-153 | the padding is the least number of zero bytes that leaves room for the length |
| Sha256.HashParts | src/hash.rs:90-161 | for every way of splitting a message into updates, the digest is SHA-256 of the whole |
| Sha256Constants.InitIsSquareRoots | src/hash.rs:86-88 | each initial word is the first 32 fractional bits of the square root of one of the first eight primes |
| Sha256Constants.RoundsAreCubeRoots | src/hash.rs:75-84 | each round constant is the first 32 fractional bits of the cube root of one of the first 64 primes |
| Bytes.ParseHexToHex | src/hash.rs:35-66 | printing a digest and parsing it is the identity |
| Bytes.ToHexInjective | src/hash.rs:35-43 | distinct byte strings print differently |
| Bytes.ToHexAt | src/hash.rs:35-43 | each byte is two lower-case digits, the high half first |
| Bytes.BigEndianWeighs | src/hash.rs:243-246 | a number that fits its bytes is their value with the first weighing most |
| Bytes.UnHexSound | src/hash.rs:53-66 | an accepted text is the hexadecimal form of the result, up to letter case |
| Utf8.EncodeInjective | src/hash.rs:244-244 | no string's bytes are another's |
| Tagged.Hash | src/hash.rs:241-250 | feeding tag and parts piece by piece hashes their length-prefixed encoding |
| Tagged.EncodingInjective | src/hash.rs:235-250 | tag and parts can be read back from what is hashed |
| Tagged.DigestDetermines | src/hash.rs:235-250 | among messages without a collision a digest determines its tag and its parts |
| Json.PrintString | src/json.rs:181-197 | the escaping loop writes the quoted form |
| Json.Print | src/json.rs:142-178 | the recursive printer appends the text of the value |
| Json.PrintCanonical | src/json.rs:110-140 | sorting and dropping as it prints gives the text of the recursively normalised value |
| Json.NormalizedKeepsGet | src/json.rs:94-99 | normalising changes no lookup: the entry kept is the one `get` returns |
| Json.NormalizedIdempotent | src/json.rs:92-108 | the normal form is its own normal form |
| Keyed.CanonicalIsStrict | src/json.rs:124-126 | a stable sort by key followed by dropping repeats leaves strictly ascending keys |
| Keyed.StringLeIff | src/json.rs:125-125 | keys are compared by the first character that differs, a prefix before what continues it |
| Keyed.CanonicalKeepsFirst | src/json.rs:124-126 | every lookup finds what it found first before |
| Keyed.CanonicalOfLookups | src/json.rs:124-126 | the sorted, deduplicated list depends on nothing but the lookups |
| JsonParse.ParseText | src/json.rs:199-208 | a value and nothing but white space around it |
| JsonParse.ValueAt | src/json.rs:216-228 | the position-threading parser reads what the grammar function reads and stops where it stops |
| JsonParse.ArrayAt | src/json.rs:270-290 | likewise for arrays, errors included |
| JsonParse.ObjectAt | src/json.rs:240-268 | likewise for objects, errors included |
| JsonParse.StringAt | src/json.rs:292-331 | likewise for strings and their escapes |
| JsonParse.NumberAt | src/json.rs:333-349 | likewise for the run of number characters and its value |
| JsonGrammar.NumberAcceptedIff | src/json.rs:333-349 | exactly the texts of an optional sign, digits on at least one side of an optional point and an optional exponent are read as numbers |
| JsonGrammar.RfcNumberIff | src/json.rs:333-349 | a text is a number of section 6 of RFC 8259 exactly when it is read as one and has no plus sign in front, no leading zero and digits on both sides of its point |
| JsonGrammar.NumberValue | src/json.rs:345-348 | a number that denotes an integer below 2^53 in magnitude is read as that integer, and one that denotes any other double is read as no such integer |
| JsonGrammar.NumberRead | src/json.rs:333-349 | every number is read with its value wherever it stands, and what follows is left |
| JsonGrammar.StrayNumbers | src/json.rs:333-349 | `+1`, `01`, `.5` and `1.` are read and are no numbers of the standard |
| JsonGrammar.StringAcceptedIff | src/json.rs:292-331 | exactly the texts of readable pieces between quotes are read as strings, with the characters of their pieces |
| JsonGrammar.PiecesUnique | src/json.rs:292-331 | a text is made of pieces in one way |
| JsonGrammar.RfcStringIff | src/json.rs:292-331 | a text that is read is a string of section 7 of RFC 8259 exactly when no piece is a raw control character or an escape with a plus sign for its first digit |
| JsonGrammar.RfcStringRead | src/json.rs:317-326 | every string of the standard is read, and with its meaning exactly when it escapes no surrogate |
| JsonGrammar.StrayStrings | src/json.rs:317-328 | a raw line feed and `\u+12F` are read and are not of the standard |
| JsonGrammar.PairIsLost | src/json.rs:325-326 | an escaped surrogate pair is read as two replacement characters |
| JsonGrammar.StraySpace | src/json.rs:210-214 | the white space of the standard is skipped, and a no-break space too |
| JsonRoundTrip.StringBack | src/json.rs:181-197 | every string comes back, whatever its characters and whatever follows |
| JsonRoundTrip.ParseWrite | src/json.rs:86-90 | parsing what was printed gives the value back, for every value whose numbers are integers |
| JsonRoundTrip.ParseCanonical | src/json.rs:92-108 | parsing the canonical text gives the normal form |
| JsonRoundTrip.CanonicalStable | src/json.rs:101-103 | printing canonically what was read prints the same text, so a stored object keeps its digest |
| JsonRoundTrip.CanonicalInjective | src/json.rs:92-108 | two values have one canonical text exactly when they have one normal form |
| JsonRoundTrip.CanonicalIgnoresOrder | src/json.rs:94-99 | the order of insertion and shadowed entries leave no trace in the canonical text |
| Merkle.PairUp | src/merkle.rs:86-97 | one level is paired into the next, an odd last node promoted |
| Merkle.Build | src/merkle.rs:69-101 | the loop builds the leaves and all levels of the reference tree |
| Merkle.BuiltTapered | src/merkle.rs:75-98 | each level of a built tree has half the nodes of the one below, rounded up, which is what a proof relies on |
| Merkle.Proof | src/merkle.rs:129-151 | the walk up the levels collects the siblings of the id's leaf, and finds none exactly for an unknown id |
| Merkle.VerifyProof | src/merkle.rs:158-167 | replaying the steps decides whether they lead to the root |
| Merkle.EveryLeafProves | src/merkle.rs:128-167 | every leaf of every tree has a proof that verifies against its root |
| Merkle.TopFrontier | src/merkle.rs:89-96 | pairing with promotion neither drops, repeats nor reorders a leaf |
| Merkle.TermDigestInjective | src/merkle.rs:42-54 | without collisions a digest stands for one subtree, leaf and node domains never meeting |
| Merkle.RootDeterminesLeaves | src/merkle.rs:56-108 | equal roots mean equal leaf lists, whatever their sizes |
| Merkle.VerifiedIsLeaf | src/merkle.rs:154-167 | any steps that verify against a root verify a leaf of its tree |
| Merkle.ProvenIffLeaf | src/merkle.rs:128-167 | the tree's own proof for an id verifies with a content exactly when that pair is a leaf |
| Merkle.RootIgnoresOrder | src/merkle.rs:69-72 | the root depends on the set of entries, not on their order |
| Merkle.FirstEntryWins | src/merkle.rs:66-72 | an entry is a leaf exactly when it is the first of its id |
| Checkpoints.VerifyChain | src/context_store.rs:1342-1370 | a list is accepted exactly when every checkpoint continues the one before it, and an error names the first that does not |
| Checkpoints.BodyTextDetermines | src/context_store.rs:354-375 | the hashed body determines every field of a checkpoint, counters up to the double they are written as |
| Checkpoints.Generations | src/context_store.rs:1345-1354 | generations of an accepted list count up from one |
| Checkpoints.ChainExtends | src/context_store.rs:1341-1370 | appending a checkpoint that continues the last keeps the list accepted |
| Checkpoints.SameHistory | src/context_store.rs:385-394 | without collisions two accepted lists with one final chain digest have one length and agree on every field of every checkpoint |
| Checkpoints.UniqueHistory | src/context_store.rs:385-394 | with counters below 2^53 they are one list exactly when the final digests agree |
| Checkpoints.LargeCountersMerge | src/context_store.rs:365-372 | at 2^53 two different timestamps give one chain digest |
| Checkpoints.CheckpointReloads | src/context_store.rs:377-422 | a checkpoint written to disk is read back as it was |
| Objects.RecordReloads | src/context_store.rs:212-267 | a stored record is read back with its body in normal form |
| Objects.ReloadKeepsId | src/context_store.rs:212-223 | re-encoding a reloaded record reproduces its bytes and its id |
| Objects.IdNamesContent | src/context_store.rs:216-223 | without a collision two records have one id exactly when their normalised contents agree |
| ContextStoreClass.ContextStore.Create | src/context_store.rs:607-634 | in a directory that holds none, a new container is empty, at generation zero, with the root of the empty tree |
| ContextStoreClass.ContextStore.Put | src/context_store.rs:782-834 | the refusal, the idempotent re-put, and the writes of object, replicas and sidecar in order, with the new state |
| ContextStoreClass.ContextStore.RestoreObject | src/context_store.rs:943-973 | bytes are written back only if they hash to the address |
| ContextStoreClass.ContextStore.Quarantine | src/context_store.rs:1138-1162 | the object leaves the store, its file moves aside, and a reason stays |
| ContextStoreClass.ContextStore.Commit | src/context_store.rs:979-1062 | an idle commit returns the last checkpoint; otherwise checkpoint, signature, manifest and mark are written in that order, and a wrong key role fails after the first |
| ContextStoreClass.CheckDirectory | src/context_store.rs:639-709 | the checks of `open` in the program's order, with the same refusals |
| ContextStoreClass.Open | src/context_store.rs:639-726 | the store in memory is the one the directory describes, missing sidecars rebuilt |
| StoreOutcomes.OpensIff | src/context_store.rs:639-709 | a directory opens exactly when it has a manifest of this format and schema, its mark is genuine and not ahead of the manifest, and its checkpoint files, in whatever order, form a chain up to the manifest's generation |
| StoreOutcomes.ChainValidIff | src/context_store.rs:1342-1370 | a list is a chain exactly when each checkpoint carries the next number from one on, the digest and the root of the one before, and its own digest |
| StoreOutcomes.PutRefusedIff | src/context_store.rs:782-800 | in a sound container a record is refused exactly when it is derived and names no source, and then nothing changes |
| StoreOutcomes.PutFiles | src/context_store.rs:800-834 | a record taken is on file under the digest of its canonical text, byte for byte, waiting for the next checkpoint, no other file changes, and a second put of it does nothing |
| StoreOutcomes.CommitIff | src/context_store.rs:979-1062 | a commit writes nothing exactly when nothing was put since, the tree has the sealed root and there is a checkpoint; otherwise it fails exactly for a key of the wrong role, or seals the next generation with the tree's root, the number of objects and the ids put |
| StoreRuns.Opens | src/context_store.rs:639-726 | a directory whose manifest names the last checkpoint opens, and the opened store is sound |
| StoreRuns.RefusesStranded | src/context_store.rs:699-709 | a checkpoint beyond the manifest is refused |
| StoreRuns.StepKeepsInv | src/context_store.rs:782-1162 | put, restore, quarantine, commit and a rotting file whose sidecar is in place each keep the store sound: the sealed history, and every object filed under its digest |
| StoreRuns.CommitKeepsInv | src/context_store.rs:979-1062 | a commit keeps it too, whoever signs and even after a stranded one |
| StoreRuns.CrashReopens | src/context_store.rs:1020-1057 | after a crash between any two writes, counters below 2^53, the directory opens exactly outside the window between checkpoint and manifest, and then holds the old or the new generation |
| StoreRuns.CrashReopensIff | src/context_store.rs:1020-1057 | on every disk, stranded ones too: once a checkpoint is stranded the directory opens after a crash exactly if the commit seals and has reached its manifest |
| StoreRuns.CrashKeeps | src/context_store.rs:1020-1057 | whatever reopens after a crash keeps every sealed checkpoint |
| StoreRuns.StrandedStaysClosed | src/context_store.rs:697-709 | a directory opens exactly when its checkpoint files are those the store has sealed |
| StoreRuns.WrongRoleStrands | src/context_store.rs:1020-1032 | a signer of the wrong role is refused after its checkpoint is on disk, which no longer opens |
| StoreRuns.StepKeepsHistory | src/context_store.rs:782-1162 | every operation, and any rot of the object files, keeps the sealed history: valid chain, generation equal to the number of checkpoints, manifest root equal to the last sealed root |
| StoreRuns.CrashKeepsHistory | src/context_store.rs:1020-1057 | whatever reopens after a crash holds such a history, with every sealed checkpoint in it |
| StoreRuns.RunKeepsHistory | src/context_store.rs:979-1062 | over every run of operations, rot and survived crashes from a new container, counters below 2^53: chain valid, generation the checkpoint count, manifest root the last sealed root, history only extended |
| StoreRuns.RunKeepsInv | src/context_store.rs:782-1162 | where no file loses both its bytes and its sidecar, objects and files stay filed under their digests as well |
| StoreRuns.SealedStays | src/context_store.rs:979-1062 | nothing sealed is lost over any stretch of such a run |
| ScrubSpec.ProvesIffRootsAgree | src/context_store.rs:1168-1175 | an object in memory proves with its recorded digest exactly while the tree has the manifest's root |
| ScrubSpec.GoodIffRootsAgree | src/scrub.rs:251-253 | a replica with the right bytes may repair exactly then |
| Scrubber.Trusted | src/scrub.rs:249-253 | a copy is trusted exactly when it hashes to its address and proves against the committed root |
| Scrubber.RepairFromReplica | src/scrub.rs:242-270 | the first copy that proves itself is restored; without one nothing changes |
| Scrubber.ScrubObject | src/scrub.rs:188-224 | one object is counted healthy, repaired, or unrepairable and perhaps quarantined |
| Scrubber.Scrub | src/scrub.rs:177-238 | the loop over the ids and the closing commit have exactly the modelled effect and report |
| ScrubSpec.WalkIsSound | src/scrub.rs:187-224 | conservation: everything is checked once, corrupt is repaired plus unrepairable, the ids removed are exactly those quarantined, and with quarantine on every survivor is intact |
| ScrubSpec.RepairedIff | src/scrub.rs:187-224 | over the whole walk from the committed root, an object is repaired exactly when it is corrupt, has a right copy and, with quarantine on, every corrupt object before it has one |
| ScrubSpec.FullRepairIff | src/scrub.rs:187-224 | nothing is left unrepairable exactly when every corrupt object has a right copy |
| ScrubSpec.CopiedIsRepaired | src/scrub.rs:187-270 | an object put once with replicas registered, committed, and then rotted in any way is intact after a repairing scrub if any one of those replicas still holds what it was given and every other object is intact or has a right copy |
| ScrubSpec.LossMovesTree | src/scrub.rs:215-228 | a store that lacks any object of the committed tree is off the committed root, however it has changed otherwise |
| ScrubSpec.NoRepairAfterQuarantine | src/scrub.rs:249-259 | off the committed root no corrupt object is repaired, whatever copies there are |
| ScrubSpec.SealedScrub | src/scrub.rs:226-237 | after a sealing scrub the store is sound, every survivor is intact and, where something was quarantined, the manifest has the tree's root |
| Indexer.EvidenceNode | src/indexer.rs:930-955 | the span's evidence node is found by id or made |
| Indexer.FindDuplicate | src/indexer.rs:767-783 | the first fresh node of the same kind, key and normalised value in the live pool; the admission's rows say what that decides |
| Indexer.FindConflicts | src/indexer.rs:819-840 | the live claims on the key that say something else, oldest first |
| Indexer.Reinforce | src/indexer.rs:785-816 | a restatement adds its span, its evidence and one corroboration, and invalidates nothing |
| Indexer.BackfillReferences | src/indexer.rs:885-888 | earlier claims that mention the new one come to depend on it |
| Indexer.SettleConflicts | src/indexer.rs:747-762 | every conflict is linked, and superseded if the policy is on and it yields |
| Indexer.Admit | src/indexer.rs:690-764 | the whole admission: evidence, known node, twin, conflicts, insertion and settlement; the graph stays indexed (spelt out by the `AdmitTheory` rows) |
| AdmitTheory.AdmitMergesIff | src/indexer.rs:727-783 | an offer whose id is not on record is merged exactly when a fresh node of its kind said the same under the same key before, and refused exactly when its span is unknown and its evidence is missing or nobody said it, or it is a skill nobody said |
| AdmitTheory.AdmitIsHeard | src/indexer.rs:690-764 | what is not refused is said by a live node of its kind and key afterwards; a node that enters says it in its own words, under its own id, key and mark |
| AdmitTheory.AdmitCorroborates | src/indexer.rs:785-816 | a merged offer leaves its span and one corroboration with a fresh node that said the same, and changes no other node but for flags |
| AdmitTheory.AdmitRetiresIff | src/indexer.rs:747-762 | an admission supersedes exactly the claims on its key that say something else, if it enters with superseding on, and never a correction for a plain claim; each names the new node as successor |
| AdmitTheory.AdmitLinks | src/indexer.rs:700-762 | the node that enters rests on its evidence and on the recorded facts it mentions, every earlier claim that mentions it rests on it, and it and every live claim that disagrees contradict each other |
| AdmitTheory.IngestHears | src/indexer.rs:690-764 | over every sequence of admissions, an offer not refused is said by a live node right after, its value stays on record at every later point, retired only in favour of a later claim on its key, and the key keeps a live claim |
| ClaimTheory.ConflictsAre | src/indexer.rs:818-840 | conflicts are exactly the live claims of the key with another normalised value |
| ClaimTheory.SettlementFacts | src/indexer.rs:747-762 | the settlement retires exactly the conflicts that yield and changes no other fact |
| ClaimTheory.OneVoiceIff | src/indexer.rs:747-762 | entering a claim keeps one value per key and standing exactly when superseding is on or no live claim of that standing says something else |
| ClaimTheory.AdmitKeeps | src/indexer.rs:690-764 | any admission keeps a live claim on every claimed key and every successor a later claim on the same key; with superseding on it keeps one value per key and standing |
| ClaimTheory.AdmitIndexed | src/indexer.rs:690-764 | any admission keeps the graph indexed |
| ClaimTheory.IngestKeepsPromises | src/indexer.rs:690-764 | all of that holds after every sequence of admissions |
| ClaimTheory.SuccessorsReachLive | src/graph.rs:307-313 | following successors from a superseded claim strictly climbs in insertion order to a live claim on the same key |
| Planner.Seed | src/planner.rs:848-965 | the seeds are exactly the recent, vetted hits above the floor and, when those are fewer than two, the evidence behind the span hits (spelt out by `Seeding.SeedsByScore`) |
| Seeding.SeedsByScore | src/planner.rs:848-965 | a hit is good when it scores at least the top hit's score times the ratio and its node is recent, not superseded and, with stale nodes shut out, neither flagged nor stale: the seeds begin with the good hits in their order, with two or more of them there are no others, and with fewer exactly the evidence behind the span hits joins |
| Seeding.GoodHitsSeed | src/planner.rs:859-935 | every good hit is a seed |
| Seeding.BestHitSeeds | src/planner.rs:859-863 | the best hit is the first seed whenever its node may be shown, its score is not negative and the ratio is between 0 and 1 |
| Planner.Root | src/planner.rs:1013-1022 | seeds and pins become roots at distance zero, in order of first mention, except excluded ones |
| Planner.VisitInputs | src/planner.rs:1032-1038 | every input on record up to the fan-out is listed afterwards unless excluded, and what joins is listed and queued one step farther, never twice |
| Planner.VisitDependents | src/planner.rs:1039-1052 | so is whatever points at a root, up to the fan-out, queued where the walk goes no farther |
| Planner.VisitContradictions | src/planner.rs:1053-1057 | so is every other side of a contradiction that is not superseded, and the walk does not go on from there |
| Planner.Walk | src/planner.rs:1023-1058 | the list is without repeats, in range, without excluded nodes and within the depth cap, everything past the roots is one link and one step from something before it, and unless the candidate cap was reached every listed node was opened, stands at the depth limit, or joined sideways |
| Planner.RootsOpened | src/planner.rs:1013-1058 | unless the list filled, the inputs and dependents up to the fan-out and all live contradictions of every seed and caller-pinned node are listed or excluded |
| Planner.AddAudits | src/planner.rs:1060-1075 | for a justification the audit paths of two seeds join, excluded nodes again left out |
| Planner.Pin | src/planner.rs:1079-1104 | every fresh node of the pinned kinds is pinned and listed, after everything reached |
| Planner.Candidates | src/planner.rs:727-790 | candidates are, in list order, exactly the listed nodes within the cap that pass the status filter and have an option at an allowed level |
| Planner.Plan | src/planner.rs:681-845 | the whole plan, step after step, with the solver's answer on exactly the eligible listed nodes under the cap; nothing superseded is ever admitted, and with stale nodes shut out no evidence flagged as superseded is, and nothing stale but what the caller pinned |
| Planner.PlanQuestion | src/planner.rs:681-845 | the whole of it from the index hits: the seeds are those of the hits, the plan is that of the seeds, and the same admission rules hold (spelt out by the `Seeding` rows) |
| Seeding.GoodHitsListed | src/planner.rs:681-1022 | every good hit is on the plan's list at distance zero, and the best one heads it |
| Seeding.ListedIsWeighed | src/planner.rs:727-790 | a listed node under the cap that is not superseded, and not stale unless pinned or let in, is weighed with all its priced levels |
| Seeding.HeldInFields | src/planner.rs:727-845 | no plan holds a superseded node, nor, with stale nodes shut out, evidence flagged as superseded or a stale node the caller did not pin |
| Seeding.EntriesAscend | src/planner.rs:801-803 | the entries of a plan are its choices in ascending order of node |
| Planner.PinnedInWindowIff | src/planner.rs:681-845 | when the pinned minimum fits a budget above zero, a pinned node is in the window exactly when it is listed under the candidate cap, passes the filter and has a priced level |
| Planner.ListIsSane | src/planner.rs:968-1104 | after pinning the list is without repeats and in range, and every door to it kept flagged evidence out |
| Planner.PinnedIsNoEvidence | src/policy.rs:381-390 | a node pinned by kind is never flagged evidence |
| Seeding.PinnedEveryTurn | src/policy.rs:381-390 | a fresh node is pinned by its kind exactly when it is a goal or a constraint, or a decision, calculation or open question in the kind of question that calls for it |
| Planner.PinnedConsideredIff | src/planner.rs:727-727 | when pinning added something, everything pinned by kind is considered exactly when the list fits the candidate cap |
| Planner.PinnedCut | src/planner.rs:727-727 | with room for one candidate, no plan of a question that finds an admissible node holds any other node pinned by kind |
| Escalation.NoHashNoToken | src/llm.rs:51-60 | a text without a hash sign asks for nothing, so the refusal text is itself no request |
| Escalation.EscalationIff | src/llm.rs:51-60 | an id is asked for exactly when, after the first `#ESCALATE` and any white space, it is the longest run of letters, digits and underscores, and not empty |
| TurnLoop.Check | src/runtime.rs:829-832 | the check is whether the plan holds a node invalidated since its snapshot |
| TurnLoop.Round | src/runtime.rs:439-479 | one round drains up to thirty-two deferred nodes, plans on that graph, asks, and lets the hook work |
| TurnLoop.Request | src/runtime.rs:502-508 | the node asked for, by name or, if that is switched on, by inference |
| TurnLoop.Ask | src/runtime.rs:402-531 | for every reasoner and hook the turn ends within `max_escalations + 2` model calls, its record is the one the environment determines, each call is discarded exactly when it is the first falsified one, and the answer is the last call's, never an escalation token |
| TurnLoop.CheckIsExact | src/runtime.rs:828-832 | the check finds exactly the plan's nodes marked while the model was thinking |
| TurnLoop.TurnIsOne | src/runtime.rs:402-531 | the record of a turn is determined by its environment and the graph it starts from |
| TurnLoop.DiscardsIff | src/runtime.rs:481-498 | one answer is discarded if any call was falsified, and none otherwise |
| TurnLoop.StaleReturnIff | src/runtime.rs:489-498 | the answer returned is falsified exactly when the last call and an earlier one were |
| TurnLoop.StaleReturnMeansRetried | src/runtime.rs:481-498 | if the returned plan holds a node invalidated during the last call, an earlier falsified answer was discarded |
| TurnLoop.FalsifiedReturned | src/runtime.rs:489-531 | with a planner that shows two nodes while they are fresh and a hook that invalidates them one after the other, the falsified answer is returned, from every graph with two fresh nodes nothing depends on |
| TurnLoop.EscalationsStay | src/runtime.rs:509-522 | an escalated node stays pinned and forced for the rest of the turn |
| TurnLoop.FalsifiedPromptExtended | src/runtime.rs:444-522 | the prompt is made afresh after the first falsified call and extends the last one after every other, falsified or not |
| TurnLoop.FalsifiedExtended | src/runtime.rs:509-522 | the same turn with one escalation left sends a third prompt that extends the falsified second one |
| LexicalIndexing.LexicalIndex.CountTokens | src/index.rs:59-62 | how often each token occurs |
| LexicalIndexing.LexicalIndex.Add | src/index.rs:50-68 | after an add or re-add, postings, lengths and total are those of the current documents |
| LexicalIndexing.LexicalIndex.Remove | src/index.rs:70-77 | after a removal too; no posting is left empty and the saturating subtraction never saturates |
| LexicalIndexing.LexicalIndex.Search | src/index.rs:79-104 | the answer is a ranking of the scores of the current documents |
| LexicalIndexing.DistinctTokens | src/index.rs:87-89 | sorting and dropping repeats asks for each token of the query once |
| LexicalIndexing.SearchIsFunction | src/index.rs:79-104 | what a search returns is a function of the documents alone, so it equals search on a rebuilt index |
| LexicalIndexing.RankingIsOne | src/index.rs:19-25 | the ranking does not depend on the order a hash map is iterated in |
| LexicalIndexing.RankedProperties | src/index.rs:21-25 | the best k are returned, in order, with ties broken by id, and everything left out ranks below |
| LexicalIndexing.SearchIsBest | src/index.rs:79-104 | a search returns, under their scores, the documents that hold a word of the query, at most `k`, higher scores first and lower ids first among equals, and whatever it leaves out scores lower than all it returns, or as much under a higher id |
| LexicalIndexing.WeightFavours | src/index.rs:90-101 | a word never counts against a document, and counts for no less where it occurs more often, in a shorter document, and when fewer documents hold it |
| Text.ParagraphRanges | src/text.rs:97-131 | blocks between separators of two or more newlines, in order, on character boundaries |
| Text.ParagraphsCover | src/text.rs:97-131 | the blocks leave out nothing but white space |
| Text.SentenceRanges | src/text.rs:134-163 | maximal sentences, in order, with nothing but white space between them, on character boundaries |
| Chunking.BlankIsBlank | src/spans.rs:151-151 | trimming empties a block of bytes exactly when every character is white space |
| Chunking.Chunk | src/spans.rs:146-172 | the chunker's result is block by block: whole if short and not blank, else wrapped at sentence starts |
| Chunking.PiecesTile | src/spans.rs:156-169 | the pieces of a wrapped block lie end to end and cover all of it |
| Chunking.PieceBound | src/spans.rs:156-169 | a piece of several sentences exceeds the limit by no more than what the gaps between them have beyond one character each |
| Chunking.ChunksPartition | src/spans.rs:145-172 | for every text and limit the ranges are in order, disjoint, in bounds, not empty and on character boundaries, and leave out nothing but white space |
| Spans.RawStore.AddDocument | src/spans.rs:95-143 | identical re-ingest changes nothing, a different body under a used id is refused, and no existing span changes its text |
| Spans.RawStore.Restore | src/spans.rs:249-275 | the indices are rebuilt from documents and spans, each list in sequence order |
| Spans.Distribute | src/spans.rs:272-274 | the loop hands each span to the list of its document, keeping the order |
| Spans.RestoreRebuilds | src/spans.rs:249-275 | restoring what a store held gives back every index it had, the per-document lists included |

## Left out

- Files, network and processes: the directory is a map of whole files changed by atomic writes; failed writes, unreadable files and the models' transports are not modelled.
- Machine integers: lengths, generations and counters are unbounded, except where their width matters to a digest (bit lengths, big-endian words, doubles).
- Floating point: utilities and scores are reals, the logarithm in the ranking a parameter. `f32` rounding, NaN and infinities in utilities are not modelled.
- JSON numbers that are no integers, and those of 2^53 or more in magnitude: known only by their text; how a double is read and printed is not modelled, nor is overflow to infinity. Error messages are not modelled.
- English heuristics: the extractor, value normalisation, tokenisation and the links found in text come in as parameters of an admission or an index.
- `evidence_by_span`, the indexer's cache: an evidence node is found by its id, which the span determines.
- Signatures and keys: signature bytes, verification, sidecar locations and the `verify` report; a signer is known by its key name, role and kind. `get` and the admission gate are left out.
- Vector and hybrid search, the fit gate and its bypass, telemetry, profiles, speculation, the wording of prompts, rendered levels and read counters: measurement, display or scoring without a crisp specification.
- Budget.Enumerate: the order in which a hash map is read is left open; the theorems hold for every order.
- TurnLoop.Ask: the planner, the prompt and the reasoner are parameters of the turn, so what a plan may admit is stated by Planner.Plan and not repeated here.
- JsonParse.NumberAt: a number of 2^53 or more in magnitude, or no integer, stands for its text; the program rounds it to a double, and that rounding is not modelled.
- JsonGrammar.NumberValue: a text that denotes no double is rounded by the program, to an integer in cases such as `1.00000000000000000001` and `1e-400`; what it is rounded to is not stated.
- Planner.Seed: the evidence behind a span hit is not vetted by the program at this point; the expansion and the scoring loop are what keep it out, as Planner.Plan states.
- StoreRuns.RunKeepsHistory: any rot of object files is covered; decay of sidecars, manifest, mark and checkpoints is not modelled.
- ClaimTheory.AdmitKeeps: the ids and links of a proposal are arbitrary, so properties that follow from hashing its content are not stated.
