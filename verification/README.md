# SpiderNet, modelled in Dafny

SpiderNet lets neighbouring households share their uplinks. This project models its algorithms and state
machines, and proves what they promise for every input and every run.

**Fair shares** (`sn-fair`). `FairLevel` defines weighted max-min fairness by one real number, the water level:
who has weight `w` is offered level times `w`, takes at most its demand, and the level is right when the offers
taken use up the capacity. Rates are whole numbers, so offers are rounded down and the units lost go one each to
the first unsatisfied participants. `FairRounds` and `FairAllocator` prove that the loop of integer rounds, with its
in-place remainder hand-out, computes exactly that. `FairTheorems` proves what the definition implies:
conservation, uniqueness, optimality against every rival, and `FairCapacity` what a growing capacity does, and exactly
to whom it does harm. `FairShares` is the public entry point with its input checks and two priority phases, and
`FairPolicy` lifts the theorems to it.

**Segment plans** (`sn-fetch`, planning). `PlanRanges` says what it means for byte ranges to tile a file.
`PlanExits`, `PlanSplit`, `PlanPieces` and `PlanMerge` are the steps of the planner, `FetchPlans` has the pieces it
makes its plan of and the final check, `PlanRuns` says exactly which lists of pieces merge into a gapless plan,
`FetchPlanTheorems` exactly when building succeeds, and `FetchPlanner` puts it all together. `FetchPlanShares` reads
success and failure off the bytes that each exit gets, and `PlanWidths` says when the products fit in 128 bits.

**Segment downloads** (`sn-fetch`, execution). `Fetching` is a state machine: any number of segments, interleaved
at will, sharing one record of failures and one directory, against a network that may lose, refuse, cut short
or overrun any response. Marking a failure and picking the next exit are separate steps, because the program takes
the lock separately for each. `FetchRuns` and `FetchTallies` prove what every run keeps. `FetchViews` says what one
segment sees of a run, and `Downloading` proves that the retry loop as it is written, with other segments moving in
between, is such a view. `Assembly` goes from the first request to the finished file, `CleanRuns` shows that success is
possible, and `LongPlans` that beyond a million segments it can be wrong. `ExitSelection`, `PartNames` and `Decimal`
support them.

**Quota ledger** (`sn-exit`). `Quota` has the ledger with its mutable windows, `QuotaRuns` its behaviour over
whole histories.

**Admin endpoint** (`sn-node`). `Endpoint` is the parser and printer of the endpoint text.

## Reading the model

- Integer widths are explicit (`Common`). A `u64` or `u128` that the allocator computes is a subset type, so the proofs
  show that nothing wraps. The planner's products are computed without bound, and `PlanWidths` shows when they fit.
- Clocks, the network's replies, the order in which a directory is listed, the size of each read and the digest
  function are parameters or arbitrary choices. Time is a number of nanoseconds.
- A server is assumed honest in one respect only: a complete 206 body of the requested length is the requested slice.
- `usize` has 64 bits. File names and endpoints are sequences of characters; byte order of names in UTF-8 is the order
  of their characters.

## Where the code differs from its own comments

- `server/crates/sn-fair/src/fair.rs:111-113` says that participants without a demand are absent from the result.
  The code (197-211, 264-267) gives each of them an entry of zero, and so does the model (`RatesWithinDemands`).
- `server/crates/sn-fair/src/fair.rs:158-161` tells two errors apart by participation *class*. The code (172-175) compares the
  whole participation: two contributors with the same id and different weights are reported as conflicting
  (`DifferentWeightsConflict`).
- More capacity can cost a contributor one unit: with ids 1 to 4, weights 1, 1, 3, 3 and large demands, id 2 gets 1 out
  of 2 units and 0 out of 3 (`StrictMonotonicityFails`). `LosesIff` says exactly when that happens, `UnboundLosesIff` the
  same in whole numbers while no demand binds, and `LosesUnitIff` for the public entry point. It is never more than one
  unit (`CapacityMonotone`), and never anything where weights are equal, as they are among leeches.
- `server/crates/sn-fetch/src/plan.rs:201-202` says that every part of a sub-split is non-empty. A share with fewer bytes
  than parts makes the whole sub-split empty, and planning then fails for some inputs (`SkewedWeightsFail`). Building
  succeeds if and only if the pieces leave no gap in front of a run and there are at most 2^32 segments in the end
  (`Build`). In terms of shares: with several parts per exit, whole shares are enough (`WholeSharesPlan`), and without a
  minimum also necessary (`WholeSharesIff`); for one part per exit see the next point.
- With `min_segment` 1 and one part per exit, an empty first share leaves a stray range `[0,0]` that nothing absorbs, and
  planning fails (`StrayByteFails`), and only then (`OnePartPlansIff`).
- With more than 2^32 pieces of at least the minimum size planning fails although they tile the file
  (`TooManySegmentsFail`).
- Part names sort in index order only up to a million segments (`NameOrderIff`), and for every longer plan there is a
  content that a successful download scrambles (`LongPlansScramble`).
- The retry hint of the ledger is rounded down to whole seconds, so it can send a source back too early once
  (`HintTooEarly`, and exactly when, `HintSufficesIff`), but not twice (`SecondHintSuffices`).

## Model

| member | source | states |
|---|---|---|
| FairAllocator.WeightedMaxMin | server/crates/sn-fair/src/fair.rs:259-341 | the multi-round loop over floored integer shares returns the real-valued water-filling: some level uses up the capacity exactly, the satisfied hold their demand, the others their offer rounded down plus one unit for the first of them in id order; or everybody is served |
| FairAllocator.Round | server/crates/sn-fair/src/fair.rs:274-333 | one pass of the loop either ends with the water-filling or keeps the round invariant (who is active is who is hungry at the level reached, and what is left is what they have not been given) at a level that has not fallen, with fewer active |
| FairAllocator.NextRound | server/crates/sn-fair/src/fair.rs:321-332 | a round that satisfies somebody never lowers the level, never takes more than is left, and shortens the active list |
| FairAllocator.FinalRound | server/crates/sn-fair/src/fair.rs:288-319 | the round that satisfies nobody is played at the true water level, and what its floors lose is non-negative and smaller than the number of active participants |
| FairRounds.RoundLevelRises | server/crates/sn-fair/src/fair.rs:275-279 | capacity over total weight never falls from round to round |
| FairRounds.RoundBudget | server/crates/sn-fair/src/fair.rs:281-286 | the satisfied take no more than what their level offers, so the level stays affordable for the rest, and capacity reaches zero only when nobody is left |
| FairAllocator.SettleZeroDemands | server/crates/sn-fair/src/fair.rs:260-271 | zero demands get their zero at once; the others become the active list in id order, which is who is hungry at level zero |
| FairAllocator.FindSatisfied | server/crates/sn-fair/src/fair.rs:281-286 | the indices found are those of the entries whose demand is within their share, and the demands at these indices add up to the demand of those entries |
| FairAllocator.SettleSatisfied | server/crates/sn-fair/src/fair.rs:322-331 | the satisfied are settled with exactly their demand, the others remain in order, and nothing settled before changes |
| FairAllocator.SpreadRemainder | server/crates/sn-fair/src/fair.rs:297-316 | the remainder goes, one unit each and in one pass, to the first active participants, whoever else is in the map stays untouched, and all of it is handed out |
| FairAllocator.NothingToDistribute | server/crates/sn-fair/src/fair.rs:335-340 | the zero-fill after the loop is right: it is reached with somebody waiting only when there was no capacity to begin with |
| FairAllocator.Finish | server/crates/sn-fair/src/fair.rs:335-341 | what the loop leaves, completed with zeros for whoever is waiting, is the water-filling |
| FairLevel.ShareIsQuotient | server/crates/sn-fair/src/fair.rs:276-279 | the floored quotient computed in 128 bits is the real offer at level capacity/total_weight rounded down |
| FairLevel.LevelMonotone | server/crates/sn-fair/src/fair.rs:274-333 | the water level is unique below full demand, and does not fall when capacity grows |
| FairTheorems.Conservation | server/crates/sn-fair/src/fair.rs:256-258 | exactly min(capacity, sum of demands) is handed out, and nobody exceeds its demand |
| FairTheorems.RateAtLevel | server/crates/sn-fair/src/fair.rs:247-254 | each rate is its demand if the offer covers it, and else the offer rounded down or one more, never above the demand |
| FairTheorems.Deterministic | server/crates/sn-fair/src/fair.rs:243-245 | entries and capacity determine every rate |
| FairTheorems.MaxMinOptimal | server/crates/sn-fair/src/fair.rs:259-341 | for every feasible rival that gives somebody more, somebody else gets less who was not ahead of it per unit of weight by more than one unit of rounding on each side |
| FairCapacity.CapacityMonotone | server/crates/sn-fair/src/fair.rs:274-316 | a larger capacity takes at most one unit from anybody |
| FairCapacity.EqualWeightsMonotone | server/crates/sn-fair/src/fair.rs:205-209 | with equal weights a larger capacity takes nothing from anybody |
| FairCapacity.LosesIff | server/crates/sn-fair/src/fair.rs:274-333 | for all inputs, a larger capacity takes a unit from a participant if and only if it is unsatisfied at both levels, its offers round down to the same number, and its place among the unsatisfied is within the remainder of the smaller capacity but not of the larger |
| FairCapacity.UnboundRate | server/crates/sn-fair/src/fair.rs:275-316 | while no demand binds, the k-th participant gets capacity * weight / total_weight rounded down, and one unit more if k is below capacity minus the sum of these quotients |
| FairCapacity.UnboundLosesIff | server/crates/sn-fair/src/fair.rs:275-316 | while no demand binds, the k-th participant loses if and only if its two quotients are equal and k lies between the two remainders |
| FairShares.Allocate | server/crates/sn-fair/src/fair.rs:162-234 | inputs with distinct, known ids get the two-phase share; all others get the error of the first offender of the first check that fails |
| FairShares.ClassifyParticipants | server/crates/sn-fair/src/fair.rs:167-177 | repeated ids are refused, as a duplicate when the whole participation repeats and as conflicting when it differs; otherwise the map holds exactly the participants |
| FairShares.DifferentWeightsConflict | server/crates/sn-fair/src/fair.rs:169-175 | two contributors with one id and different weights are refused, and the error is the conflict and no other |
| FairShares.CheckRequests | server/crates/sn-fair/src/fair.rs:179-183 | a demand of an unknown participant is found, the first one is reported |
| FairShares.CollectDemands | server/crates/sn-fair/src/fair.rs:185-193 | repeated demands are refused, the first repetition is reported; otherwise the map holds exactly the demands |
| FairShares.ServePhases | server/crates/sn-fair/src/fair.rs:213-233 | contributors share the full capacity, leeches what is left, no conversion or subtraction is cut off, and total plus unused is the capacity |
| FairShares.ValuesByClass | server/crates/sn-fair/src/fair.rs:222-224 | the total over the merged map is the total of the two phases |
| FairPolicy.TotalConserved | server/crates/sn-fair/src/fair.rs:213-233 | the total handed out is min(capacity, sum of all demands), and total plus unused is the capacity |
| FairPolicy.RatesWithinDemands | server/crates/sn-fair/src/fair.rs:197-220 | every participant has an entry, nobody else has, and no entry exceeds what its participant asked for |
| FairPolicy.LeechesDoNotMatter | server/crates/sn-fair/src/fair.rs:144-146 | a contributor gets the same whichever leeches exist and whatever they ask for |
| FairPolicy.LeechOnlyWhenContributorsServed | server/crates/sn-fair/src/fair.rs:9-15 | a leech gets something only when every contributor has its whole demand |
| FairPolicy.AcceptanceIgnoresOrder | server/crates/sn-fair/src/fair.rs:167-193 | permuting participants and demands does not change whether they are accepted |
| FairPolicy.SharesIgnoreOrder | server/crates/sn-fair/src/fair.rs:99-102 | permuting participants and demands changes nothing in the result |
| FairPolicy.MoreCapacity | server/crates/sn-fair/src/fair.rs:213-217 | a larger capacity takes nothing from any leech and at most one unit from any contributor |
| FairPolicy.LosesUnitIff | server/crates/sn-fair/src/fair.rs:162-234 | for all accepted inputs, a larger capacity takes a unit from a participant if and only if it is a contributor that drops out of the remainder |
| FairPolicy.StrictMonotonicityFails | server/crates/sn-fair/src/fair.rs:162-234 | four contributors with weights 1, 1, 3, 3 and large demands are accepted, and growing the capacity from 2 to 3 takes the second from 1 to 0 |
| FairPolicy.NoBetterRival | server/crates/sn-fair/src/fair.rs:162-234 | no feasible allocation betters a contributor except at the fair expense of another contributor, or a leech except at the fair expense of another leech or by taking from a contributor |
| PlanRanges.TilesIffExactCover | server/crates/sn-fetch/src/plan.rs:156-157 | following each other without gap is the same as covering every byte of the file exactly once, in order |
| PlanExits.DropWeakest | server/crates/sn-fetch/src/plan.rs:50-63 | the removal loop leaves the vector that removing the weakest, one at a time, leaves; none that is left out is heavier than one that is kept, nor as heavy with a lower id; and as many are kept as can have a minimum segment each, at least one |
| PlanExits.RemainingAreStrongest | server/crates/sn-fetch/src/plan.rs:50-63 | the same of the vector itself, in weights, ids and counts alone |
| PlanExits.RemainingIsTop | server/crates/sn-fetch/src/plan.rs:50-63 | it keeps exactly max(1, min(n, size / min_segment)) exits, and they are the first of the ranking by higher weight, then lower id |
| FetchPlans.UsedAreStrongest | server/crates/sn-fetch/src/plan.rs:50-65 | the exits used are these, in id order |
| FetchPlans.PlanThroughStrongest | server/crates/sn-fetch/src/plan.rs:105-154 | every piece of the plan goes through one of them, and later pieces not through exits with lower ids |
| PlanSplit.EvenSubsplit | server/crates/sn-fetch/src/plan.rs:198-222 | a share of at least as many bytes as parts is split into that many pieces that fill it from end to end, each as long as any later one or a byte longer; a smaller one yields nothing |
| PlanSplit.EvenTiles | server/crates/sn-fetch/src/plan.rs:207-221 | the pieces of an even split tile exactly the share |
| PlanSplit.LastShare | server/crates/sn-fetch/src/plan.rs:97-115 | the last exit always has at least one byte |
| PlanSplit.LastShareExcess | server/crates/sn-fetch/src/plan.rs:98-103 | the last exit gets its own floored share and fewer than n bytes more |
| PlanPieces.UnitsCancel | server/crates/sn-fetch/src/plan.rs:87-103 | the number of parts per exit cancels: a share depends on weights and size only |
| PlanPieces.AssignExit | server/crates/sn-fetch/src/plan.rs:105-115 | one exit contributes its even split, or nothing when its share has fewer bytes than parts, or the stray first byte when an empty share stands at the very start |
| PlanPieces.AssignNext | server/crates/sn-fetch/src/plan.rs:97-118 | one pass of the loop hands exit i the bytes between two floored boundaries and leaves cursor and start at the second, also when the share is empty |
| PlanPieces.SplitAcrossExits | server/crates/sn-fetch/src/plan.rs:86-129 | the loop over the exits cuts the file at the floored boundaries, the cursor and the start agree throughout, and the fix-up after the loop is never taken |
| PlanMerge.MergeTinySegments | server/crates/sn-fetch/src/plan.rs:224-270 | the quadratic loop stops only when nothing is left to merge or the first tiny piece cannot join its neighbour; on pieces that never step backwards the latter never happens, and the result is the single left-to-right pass plus tail repair |
| PlanMerge.MergedShape | server/crates/sn-fetch/src/plan.rs:224-226 | merging a tiling keeps start, end and contiguity, leaves no piece below the minimum unless it is alone, bounds the number of pieces, and adds at most 2 * (min_segment - 1) bytes to the longest |
| PlanMerge.MergedPair | server/crates/sn-fetch/src/plan.rs:239-259 | of two pieces a tiny first one joins the second and takes its exit, or else a tiny second one joins the first and takes its exit, or else both stay |
| PlanMerge.GreedyExits | server/crates/sn-fetch/src/plan.rs:239-250 | in the left-to-right pass each piece goes through the exit of the input piece it ends with |
| PlanMerge.SpuriousAbsorbed | server/crates/sn-fetch/src/plan.rs:108-113 | with a minimum of at least two bytes a stray first byte leaves no trace |
| PlanRuns.MergedTilesIff | server/crates/sn-fetch/src/plan.rs:132-134 | exactly which lists of pieces merge into a tiling of the file: begins at 0, ends at the end, and every run begins right behind the piece before it |
| FetchPlans.Validate | server/crates/sn-fetch/src/plan.rs:156-195 | accepts exactly the plans with sequential indices whose ranges tile the file |
| FetchPlanner.AssignPieces | server/crates/sn-fetch/src/plan.rs:48-130 | dropping, sorting and splitting, with the short cut for a single piece, give the pieces cut at the floored boundaries of the remaining exits |
| FetchPlanner.Number | server/crates/sn-fetch/src/plan.rs:136-153 | pieces that tile the file and are at most 2^32 become a valid plan of the same pieces; all others are an error |
| FetchPlanner.Build | server/crates/sn-fetch/src/plan.rs:31-154 | for all inputs, returns a plan if and only if the pieces before merging are plannable and at most 2^32 are left after it; the plan is valid, its pieces are the merged ones, and its segments go, in id order, through the heaviest exits only, as many as can have a minimum segment each; with size / min_segment at most 2^32, it succeeds if and only if the pieces are plannable |
| FetchPlans.PiecesOrdered | server/crates/sn-fetch/src/plan.rs:97-118 | whatever the weights, the pieces never step backwards |
| FetchPlanTheorems.PlannableIff | server/crates/sn-fetch/src/plan.rs:31-154 | for all inputs: the planned pieces tile the file if and only if the pieces before merging begin at 0, reach the end, and leave no gap in front of a run |
| FetchPlanTheorems.FewSegments | server/crates/sn-fetch/src/plan.rs:136-145 | with size / min_segment at most 2^32 there are numbers for all segments of a plan |
| FetchPlanTheorems.FewParts | server/crates/sn-fetch/src/plan.rs:136-145 | so there are when the exits used times their parts are at most 2^32 |
| FetchPlanShares.BoundedSkewPlans | server/crates/sn-fetch/src/plan.rs:53-129 | if the remaining weights satisfy W <= k * min_segment * w for each, every exit has at least one byte per part, no sub-split is empty, the pieces tile the file, and building succeeds when size / min_segment or k times the parts is at most 2^32 |
| FetchPlanShares.ProportionalPieces | server/crates/sn-fetch/src/plan.rs:97-118 | under that condition the pieces assigned to an exit are as many as its parts, differ by at most one byte, and hold together b bytes with b <= size * w / W < b + 1, however many parts there are; only the last exit has more, by fewer bytes than there are exits |
| FetchPlanShares.PartsMean | server/crates/sn-fetch/src/plan.rs:67-78 | an exit has the number of parts asked for if that number times exits times min_segment is at most the size, and otherwise one |
| FetchPlanShares.PiecesPerExit | server/crates/sn-fetch/src/plan.rs:67-113 | so many pieces the split hands to every exit that has a byte for each of them |
| FetchPlanShares.PlanIsSplit | server/crates/sn-fetch/src/plan.rs:132-134 | when every exit has min_segment bytes for each of its parts, merging changes nothing: the plan is the split |
| FetchPlanShares.OnePartPlansIff | server/crates/sn-fetch/src/plan.rs:97-118 | with one part per exit building succeeds for all weights when min_segment is at least 2, and with min_segment 1 exactly when the first exit has a byte (with at most 2^32 exits; otherwise the pieces are plannable exactly then) |
| FetchPlanShares.WholeSharesPlan | server/crates/sn-fetch/src/plan.rs:203-222 | with several parts per exit, building succeeds for every min_segment if every exit has either no bytes or at least one per part |
| FetchPlanShares.WholeSharesIff | server/crates/sn-fetch/src/plan.rs:203-222 | with several parts per exit and min_segment 1 the pieces are plannable if and only if every exit has either no bytes or at least one per part |
| FetchPlanShares.ShortFirstFails | server/crates/sn-fetch/src/plan.rs:110-115 | a first exit with some bytes but fewer than parts always makes planning fail |
| FetchPlanShares.ShortLastFails | server/crates/sn-fetch/src/plan.rs:110-115 | so does a last exit with fewer bytes than parts |
| FetchPlanShares.SkewedWeightsFail | server/crates/sn-fetch/src/plan.rs:110-115 | size 100, min_segment 1, two parts, weights 1 and 99: planning fails |
| FetchPlanShares.StrayByteFails | server/crates/sn-fetch/src/plan.rs:108-114 | size 10, min_segment 1, one part, weights 1 and 99: the stray first byte makes planning fail |
| FetchPlanShares.TooManySegmentsFail | server/crates/sn-fetch/src/plan.rs:136-145 | one exit, min_segment 1 and as many parts as bytes, more than 2^32: the pieces tile the file, but building fails for want of numbers |
| FetchPlanTheorems.PlanGranularity | server/crates/sn-fetch/src/plan.rs:33-36 | a plan has at most max(1, size / min_segment) segments, none below the minimum unless alone |
| PlanWidths.SumsFit | server/crates/sn-fetch/src/plan.rs:53-91 | the bound for the exits, the units of one exit and the sum of all units fit in 128 bits for all inputs |
| PlanWidths.NoOverflow | server/crates/sn-fetch/src/plan.rs:97-103 | up to 2^32 + 1 parts per exit no product of size and units exceeds 128 bits |
| PlanWidths.OverflowIff | server/crates/sn-fetch/src/plan.rs:97-103 | some input makes such a product exceed 128 bits if and only if the parts per exit are between 2^32 + 2 and 2^63 - 1 |
| ExitSelection.ExitSelector.PickRetry | server/crates/sn-fetch/src/exec.rs:384-409 | returns the same exit when there is no other; otherwise another one, and if it has failed before, so has every other, none longer ago, nor at the same time with a lower id; if it has not, it has the lowest id of those that have not |
| ExitSelection.PickIsUnique | server/crates/sn-fetch/src/exec.rs:384-409 | that leaves no choice: exits and failures determine the pick |
| ExitSelection.ExitSelector.MarkFailed | server/crates/sn-fetch/src/exec.rs:379-382 | records the time of the exit's last failure and nothing else |
| FetchRuns.RunInv | server/crates/sn-fetch/src/exec.rs:121-168 | in every state of every interleaving each segment's bookkeeping is consistent, a finished segment's part file holds exactly its slice of the content, and files of no segment are as before |
| FetchRuns.RetriesAreOrderly | server/crates/sn-fetch/src/exec.rs:204-283 | the first attempt uses the planned exit, each further one follows a retryable failure and uses another exit while there is one, attempts are numbered 1, 2, ... up to the limit, and nothing follows success |
| FetchRuns.AbortsForAReason | server/crates/sn-fetch/src/exec.rs:241-280 | a segment gives up only on a failure that is not retryable, reporting that failure, or after exactly max_attempts attempts, reporting exhaustion with the last failure |
| FetchRuns.GivesUpLast | server/crates/sn-fetch/src/exec.rs:241-306 | a segment that gave up on a transport error, an I/O error, a length mismatch, a 5xx status or a rejection of at least 500 has made exactly max_attempts attempts and reports exhaustion with that error; on any other failure it reports just that |
| FetchRuns.RefusalsAreFinal | server/crates/sn-fetch/src/exec.rs:241-306 | after a status error outside 500..599, or a rejection below 500, no attempt follows, and that error is the one reported |
| FetchRuns.EveryPick | server/crates/sn-fetch/src/exec.rs:280 | whenever a segment picks an exit in a run, it is another one while there is one, and by the shared record as it then stands, the one that failed longest ago or never |
| FetchRuns.OrderlyAttempts | server/crates/sn-fetch/src/exec.rs:204-249 | attempts are counted without gaps: the n-th start is attempt n |
| FetchTallies.AllExitsBeforeAnyTwice | server/crates/sn-fetch/src/exec.rs:384-409 | a segment running alone tries every registered exit once before any of them twice |
| FetchTallies.FinishedBytesAddUp | server/crates/sn-fetch/src/progress.rs:140-171 | when every segment has succeeded the reported bytes add up to the file size, whatever was retried |
| FetchViews.RunSeen | server/crates/sn-fetch/src/exec.rs:143-157 | what one segment sees of any run, however the segments interleave, is its own steps, and in between further failures, a later clock and changes to files that are not its own |
| FetchViews.StepLifts | server/crates/sn-fetch/src/exec.rs:143-157 | conversely, every step that a segment takes in its view is a step of the run, whatever the others are doing |
| Downloading.DownloadAttempt | server/crates/sn-fetch/src/exec.rs:313-358 | succeeds if and only if the reply is a 206 whose file opens and whose body ends with the length of the range, and then the part file holds the body; otherwise the error is that of the reply: transport, the status from 400 to 599, a rejection with any other status but 206, I/O, or the length mismatch; and it follows the protocol step by step while others write to their files |
| Downloading.AfterFailure | server/crates/sn-fetch/src/exec.rs:241-281 | the part is removed; the next exit is picked if and only if the error is one to retry, by constructor and status number, and attempts are left; an error not to retry is returned as it is, with nothing marked; otherwise the exit is marked, and exhaustion is reported at the limit; other segments mark before, between and after |
| Downloading.DownloadWithRetry | server/crates/sn-fetch/src/exec.rs:187-284 | the loop ends with the first reply that delivers the range or refuses it, or when all attempts have failed otherwise: it returns the statistics of that attempt with the body in the part file, or the refusal, or exhaustion with the last error, and without a part file; the events tell every attempt, the first on the planned exit; and from start to end it is a view of the protocol, with any moves of other segments in between |
| PartNames.PartNameParses | server/crates/sn-fetch/src/exec.rs:485-494 | every part name written is recognised when collecting, and gives back its index |
| PartNames.ParsePartNameIff | server/crates/sn-fetch/src/exec.rs:483-494 | a name is read as a part name if and only if an optional plus sign and digits of value below 2^32 stand between prefix and suffix |
| PartNames.PartNameText | server/crates/sn-fetch/src/exec.rs:504-506 | a part name is written with at least six digits, and with zeros in front only to make six |
| PartNames.NameOrderIff | server/crates/sn-fetch/src/exec.rs:504-506 | names sort in index order if and only if there are at most a million segments |
| Assembly.CollectPartFiles | server/crates/sn-fetch/src/exec.rs:477-497 | returns exactly the files of the directory, each once, if all of them are part names by their text; otherwise an error naming one that is not |
| Assembly.AppendPart | server/crates/sn-fetch/src/exec.rs:443-455 | whatever the sizes of the reads, the part is appended whole and counted exactly |
| Assembly.Assemble | server/crates/sn-fetch/src/exec.rs:421-475 | writes the parts in name order, and succeeds exactly when every name is a part name, the total length is right and the digest, if given, matches |
| Assembly.CompletedAssembly | server/crates/sn-fetch/src/exec.rs:430-463 | over a completed plan the total length is right if and only if every other file is empty, and then, up to a million segments, the output is the content |
| Assembly.DownloadIsExact | server/crates/sn-fetch/src/exec.rs:121-168 | end to end, for every interleaving, failure, truncation, retry and exit change: if every segment succeeds and assembling reports success, the output is the content byte for byte, whatever the directory held before |
| Assembly.StalePartsDecide | server/crates/sn-fetch/src/exec.rs:458-497 | after a run in which every segment succeeds, assembling succeeds if and only if whatever else was in the directory before consists of empty part files and the digest, if given, is that of the output, which up to a million segments is the content |
| CleanRuns.SuccessIsPossible | server/crates/sn-fetch/src/exec.rs:121-168 | for every plan and every content there is a run from an empty directory in which every segment succeeds and no file but theirs is left |
| LongPlans.LongPlansScramble | server/crates/sn-fetch/src/exec.rs:430-463 | the converse: every valid plan of more than a million segments has a content and such a run after which the parts, in name order, have the right length and the wrong content |
| Quota.QuotaLedger.RollWindow | server/crates/sn-exit/src/proxy.rs:112-128 | returns and stores a fresh window when there is none or the old one has run out, and otherwise the old one |
| Quota.QuotaLedger.Admit | server/crates/sn-exit/src/proxy.rs:62-81 | without a quota everything is allowed and nothing changes; with one, the window is rolled, and the connection is allowed if and only if its counter is below the quota; the hint is at least a second, and beyond that what a second look at the clock leaves of the window, rounded down |
| Quota.HintMeans | server/crates/sn-exit/src/proxy.rs:69-77 | hint == 1 or the hint ends within the window, and one second more ends after it |
| Quota.QuotaLedger.Record | server/crates/sn-exit/src/proxy.rs:83-91 | the bytes are added, capped, to the source's rolled window; no other source changes |
| Quota.QuotaLedger.UsedBytes | server/crates/sn-exit/src/proxy.rs:93-98 | reports the source's counter, zero when it was never seen |
| QuotaRuns.LedgerRefinesHistory | server/crates/sn-exit/src/proxy.rs:63-91 | after any history the counter of a source is the capped sum of the bytes charged since its current window was opened, and the window starts at the operation that opened it |
| QuotaRuns.SourcesAreIndependent | server/crates/sn-exit/src/proxy.rs:67-68 | a source's window is the one it would have if no other source had ever connected |
| QuotaRuns.AdmittedIff | server/crates/sn-exit/src/proxy.rs:69-80 | a connection is allowed if and only if less than the quota has been charged in its source's current window |
| QuotaRuns.HintSufficesIff | server/crates/sn-exit/src/proxy.rs:70-77 | coming back exactly after the hint is enough if and only if less than a second or a whole number of seconds remained |
| QuotaRuns.HintTooEarly | server/crates/sn-exit/src/proxy.rs:63-91 | a history in which it is not: with one byte in two and a half seconds, a source that is told two seconds is refused again after them, and let in after the second hint |
| QuotaRuns.SecondHintSuffices | server/crates/sn-exit/src/proxy.rs:70-77 | a refused source that waits as told and, if refused again, waits as told once more, is allowed, whatever other sources do, if nothing is charged to it meanwhile |
| QuotaRuns.WindowPotential | server/crates/sn-exit/src/proxy.rs:182-226 | with at most c connections open at a time, each carrying at most B bytes, what a window was charged and what its open connections may still bring never exceed max_bytes - 1 + c * B together |
| QuotaRuns.WindowNeverAbove | server/crates/sn-exit/src/proxy.rs:33-35 | so no window ever ends above max_bytes - 1 + c * B |
| QuotaRuns.WindowsApart | server/crates/sn-exit/src/proxy.rs:123-126 | two windows of a source in a row start at least one window length apart |
| QuotaRuns.OpensLater | server/crates/sn-exit/src/proxy.rs:114-128 | after a source was active its next window opens strictly later |
| QuotaRuns.AnyIntervalAtMostTwice | server/crates/sn-exit/src/proxy.rs:114-128 | any stretch of time of at most one window length sees at most twice that bound |
| Endpoint.ParseTcpIff | server/crates/sn-node/src/yggdrasil.rs:33-48 | for every input, host and port: the parser returns that TCP endpoint if and only if the trimmed text is the prefix, a host that is not empty, a colon, and a port as an optional plus sign and digits of that value |
| Endpoint.ParseUnixIff | server/crates/sn-node/src/yggdrasil.rs:49-55 | it returns a Unix endpoint if and only if the trimmed text is the prefix and that path, not empty |
| Endpoint.ParseRefuses | server/crates/sn-node/src/yggdrasil.rs:33-59 | every other text is refused, and the error names the trimmed text |
| Endpoint.NoPortRefused | server/crates/sn-node/src/yggdrasil.rs:36-38 | a host without a port is refused |
| Endpoint.TrimSplits | server/crates/sn-node/src/yggdrasil.rs:34 | trimming takes white space off both ends and leaves none there |
| Endpoint.TrimIgnoresSpace | server/crates/sn-node/src/yggdrasil.rs:34 | white space around a text does not change what trimming it gives, and a text without is left alone |
| Endpoint.ParseIgnoresSpace | server/crates/sn-node/src/yggdrasil.rs:34 | nor what parsing it gives |
| Endpoint.PrintedText | server/crates/sn-node/src/yggdrasil.rs:61-67 | a TCP endpoint is printed with its port in digits without sign and without zeros in front |
| Endpoint.RoundTripIff | server/crates/sn-node/src/yggdrasil.rs:33-67 | printing an endpoint and parsing it back gives the same endpoint if and only if its host is not empty, or its path is not empty and does not end in white space |
| Endpoint.ParseIsStable | server/crates/sn-node/src/yggdrasil.rs:33-67 | whatever is accepted is printable, and parsing its printed form gives the same endpoint again |

## Left out

- Requests, sockets, DNS, timeouts, byte relaying and task scheduling: library behaviour; only the outcomes an attempt or a connection can have are modelled.
- SHA-256 and its hexadecimal form: the digest is an arbitrary function of the output.
- I/O errors while assembling, while collecting part files and while removing a part file: reads, writes and removals there succeed.
- Names of part files that are not valid UTF-8, and Unix paths that do not display as their own text.
- A zero capacity, a zero file size, a zero weight and the like: the types of the program exclude them, and so do those of the model.
- Mutex poisoning: a lock is always obtained, as in the program's recovery.
- `run_segments_with_policy` as a body of code: its check that every planned exit is registered is the condition `Runnable`, its spawned segments are the interleaved steps, and its waiting for all of them is `AllDone`.
- URLs, the way traffic leaves an exit, durations and progress texts: carried along by the program without influence on what is proved.
- The parsing of request heads, the allow list, the check for public origins, the daemon, command lines, configuration files, the admin client and the probe: flat case distinctions or process handling, which would add only easy members.
- PlanMerge.MergeTinySegments: does not say which pieces it returns for an input that steps backwards, which `PiecesOrdered` shows the planner never produces.
- FetchPlanner.Build: multiplies without bound; `OverflowIff` says for which numbers of parts a 128-bit product of the program can exceed its type, and what the program then does depends on how it was compiled.
- FetchPlanner.Number: does not say which of its errors is returned for a plan that fails; in the program they are one error with different texts.
- Fetching.Step: does not model a process that stops in the middle of a run.
