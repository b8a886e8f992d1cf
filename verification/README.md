# A verified model of the sparse symmetric LDL^T solver

This project models the core algorithms of a sparse symmetric multifrontal LDL^T solver in
Dafny and proves what they are for:

- the dense front kernel: threshold 1x1 / 2x2 pivoting, right-looking and panel elimination
  with late updates, the partner-pulling first pass, the growth bound on L, inertia;
- the serial multifrontal engine: assembly, delayed pivots, the contribution stack and the
  small-front buffers, and over a whole run the matrix, the pivots, the blocks on the stack and
  the inertia, up to P A P^T = L D L^T and what the inertia says about A;
- the concurrent early stop of a work-limited factorization;
- the epsilon-scaling auction: safety of every step, termination, pausing, near-optimality;
- elimination trees by path compression (three builders), the in-place postorder and height;
- exact supervariable compression, the compressed graph, bisection along components or a
  separator, and parallel nested dissection as tasks over shared tables under every schedule;
- the split of a matching's paths and cycles into 2x2 pivot candidates and the expanded order;
- the addressable 4-ary heap.

Conventions. `double` is `real` and arithmetic is exact; `kInf` is a constructor of its own
and tests for non-finite values are dropped. An algorithm that works in place on an array is
a method on an array or on the fields of a class, proved against a function or a predicate on
values; the lemmas then reason about the values. Index arrays of CSR form are kept where the
algorithm builds them (tree builders, postorder); graphs that are only read are sequences of
rows. In a few contracts `P(...) == true` is `P(...)` kept as one proof obligation.

The matrix statements read as follows. `FrontAlgebra.Lagging` says that every entry of a
front is the permuted original entry minus the pivots its column has received so far;
`Factored` is the case where all have been received, that is P A P^T = L D L^T + Schur block.
`FrontTerms.Conserved` says that the original matrix is the sum of the stored fronts'
L D L^T, the blocks still waiting, and the columns not read yet. `GlobalFactor` reads the
stored fronts as one L and D in the order of all pivots.

## Model

| member | source | states |
|---|---|---|
| FrontFactor.LdltFactorFront | solver/src/ldlt_kernel.cpp:560-708 | on the unblocked and on the blocked path the front, its eligible rows permuted, is L D L^T plus the Schur block behind the accepted pivots; under threshold pivoting L is bounded by 1/u; a kernel that stops early leaves no acceptable 1x1 pivot and no acceptable 2x2 pivot with its partner, acceptable being said of the entries alone; the inertia is that of the pivot blocks taken, two eigenvalues or one for each |
| FrontFactor.Unblocked | solver/src/ldlt_kernel.cpp:566-582 | the right-looking loop keeps the whole front current and stops only when the search over all eligible columns fails |
| FrontFactor.Blocked | solver/src/ldlt_kernel.cpp:584-704 | the panel form keeps every eligible column current at the end while the trailing block still lags by all pivots, and ends with the same exhausted search |
| FrontFactor.Finish | solver/src/ldlt_kernel.cpp:705-707 | one late Schur update makes the stale trailing block current and does not change what the search would have found |
| FrontSteps.SwapKeepsLagging | solver/src/ldlt_kernel.cpp:247-262 | exchanging two rows and columns that have received the same pivots keeps the factorization relation |
| FrontSteps.Eliminate1KeepsLagging | solver/src/ldlt_kernel.cpp:264-282 | a 1x1 elimination that updates only some columns moves the pivot from the front into L D L^T and leaves the other columns lagging |
| FrontSteps.Eliminate2KeepsLagging | solver/src/ldlt_kernel.cpp:284-328 | the same for a 2x2 pivot through the scaled inverse |
| FrontSteps.InverseIdentity | solver/src/ldlt_kernel.cpp:284-296 | the inverse scaled by the largest entry is the inverse of the block |
| FrontSteps.CatchUpKeepsLagging | solver/src/ldlt_kernel.cpp:483-523 | applying the missing pivots late gives what applying them at once would have |
| FrontSteps.SavedAfter2 | solver/src/ldlt_kernel.cpp:305-312 | the two unscaled columns saved before elimination are L D of those columns afterwards |
| FrontUpdates.SymSwap | solver/src/ldlt_kernel.cpp:250-262 | the in-place swap of a lower-stored square exchanges rows and columns p and q of the symmetric matrix, of the row ids and of the saved columns |
| FrontUpdates.Eliminate1x1 | solver/src/ldlt_kernel.cpp:267-282 | in place, with the skipped zero multipliers, the columns before the bound are updated, the pivot column is scaled, the rest is untouched, the unscaled column is saved |
| FrontUpdates.Eliminate2x2 | solver/src/ldlt_kernel.cpp:299-328 | the same contract for two columns |
| RankUpdates.DeferredUpdate | solver/src/ldlt_kernel.cpp:488-497 | the lower product on the eligible square and the plain product below it subtract exactly the panel's pivots from the eligible columns and nothing else |
| RankUpdates.SchurUpdate | solver/src/ldlt_kernel.cpp:502-523 | with L D formed in the unused upper triangle the trailing block loses all the pivots at once; the lower triangle elsewhere is untouched |
| PivotSearch.SelectPivot | solver/src/ldlt_kernel.cpp:82-192 | the single-pass search, with its early exits and running maxima, returns the specified choice, which SelectIsRule pins |
| PivotChoice.SelectSound | solver/src/ldlt_kernel.cpp:79-192 | a chosen pivot is nonzero, lies among the candidates and passes its growth test over all rows of the front |
| PivotChoice.SelectComplete | solver/src/ldlt_kernel.cpp:79-192 | no pivot is found only if no candidate meets the 1x1 condition and none the 2x2 condition with the first of its largest off-diagonal entries |
| PivotChoice.TwoOkMeaning | solver/src/ldlt_kernel.cpp:43-77 | the 2x2 test passes exactly when an entry of the block reaches the effective tolerance, the size of its determinant is above the tolerance times the square of every entry, and no entries of its two columns outside it would grow beyond 1/u under its inverse: singular blocks only are refused, indefinite ones are not |
| PivotRule.SelectIsRule | solver/src/ldlt_kernel.cpp:79-192 | the choice told on the entries: the first candidate that yields a pivot decides; it yields its own 1x1 unless that is weak and the 2x2 with its partner is acceptable and grows less, else that 2x2, else its partner's 1x1; nothing is chosen iff no candidate yields any |
| PivotChoice.SelectReadsOnlyCurrent | solver/src/ldlt_kernel.cpp:79-81 | selection over [k, limit) gives the same choice whatever stale values the other columns hold |
| PivotChoice.PartnerMeaning | solver/src/ldlt_kernel.cpp:100-124 | the one-pass partner attains the largest off-diagonal entry and the second maximum is the largest without it |
| GrowthBound.Bounded1 | solver/src/ldlt_kernel.cpp:127-149 | an accepted 1x1 pivot (direct, weak or partner) puts no entry above 1/u into L |
| GrowthBound.Bounded2 | solver/src/ldlt_kernel.cpp:43-77 | the scaled-determinant test with the off-diagonal maxima of both columns bounds every entry a 2x2 pivot puts into L by 1/u |
| GrowthBound.BoundedMeans | solver/src/ldlt_kernel.cpp:43-77 | the kept bound u times abs(l) at most 1 is abs(l) at most 1/u for every entry of L |
| FrontKernel.ApplyPivot | solver/src/ldlt_kernel.cpp:444-481 | bringing a chosen pivot into place, recording tag and inertia and eliminating it keeps the relation, the bound and the saved columns, and permutes rows only among the candidates |
| FrontPanels.RunPanel | solver/src/ldlt_kernel.cpp:679-686 | a run of pivots inside a panel touches only panel columns; every selection in it sees current columns |
| FrontPanels.CatchUp | solver/src/ldlt_kernel.cpp:687-702 | the deferred update makes all eligible columns current again without changing what the panel's selection saw |
| PartnerPass.FirstPass | solver/src/ldlt_kernel.cpp:607-674 | the pass ends (lexicographic measure num_elig - k, k not the last paired k, live - k), keeps the relation and permutes eligible rows only |
| PartnerPass.BringPairs | solver/src/ldlt_kernel.cpp:651-662 | every row-id search stays below num_elig and the listed pairs end, in order, at the front of the next panel |
| PartnerPass.ParkFailed | solver/src/ldlt_kernel.cpp:664-672 | the failed columns end just behind the new live bound and the untried ones before it |
| PartnerPass.FindPairs | solver/src/ldlt_kernel.cpp:625-650 | the pair list is the specified one: at most min(nb/2, 64) pairs, distinct partners, each partner outside the panel and larger than everything inside |
| PartnerPass.PulledMeaning | solver/src/ldlt_kernel.cpp:625-643 | a column waits for a row iff that is the first of its largest entries behind the panel, larger than every entry inside |
| PartnerPass.PairListMeaning | solver/src/ldlt_kernel.cpp:625-650 | the listed pairs are such columns, ascending, with the rows they wait for, and unless the list is full every row waited for is in it |
| Inertia.OppositeSigns | solver/src/dense_indef.cpp:52-83 | a block counted as one positive and one negative eigenvalue takes both signs as a quadratic form |
| Inertia.DefiniteSigns | solver/src/dense_indef.cpp:52-83 | a block counted with two eigenvalues of one sign is definite, of that sign |
| Inertia.SingularSigns | solver/src/dense_indef.cpp:52-83 | an exactly singular block is counted with one zero and the sign its form takes; its null vector is given |
| Inertia.SingleSign | solver/src/dense_indef.cpp:38-47 | a 1x1 pivot is counted positive, negative or zero exactly by sign and tolerance, with the one exception of 0 under the tolerance 0 |
| Inertia.Count2x2 | solver/src/dense_indef.cpp:52-83 | the branches of the sign classification give the specified counts, always two |
| FrontTerms.StoreKeepsSum | solver/src/multifrontal_serial.cpp:742-798 | the solve layout of a front's columns has the same L D L^T, and forced zero pivots add nothing |
| FrontTerms.OriginalAdds | solver/src/multifrontal_serial.cpp:595-601 | the matrix meant by the lower columns: without entries it is 0, and an entry put anywhere in a column adds its value at its two places and nowhere else |
| FrontTerms.FrontConserves | solver/src/multifrontal_serial.cpp:580-640 | replacing a front's children and own columns by its stored step and its block keeps the original matrix as the sum of all parts |
| FrontTerms.FrontConservesPivots | solver/src/multifrontal_serial.cpp:422-444 | whatever a front delays, every column read so far is a stored pivot once or waits in one block once |
| FrontAssembly.AddOriginal | solver/src/multifrontal_serial.cpp:595-601 | the original entries of the pivot columns land at their positions of the zeroed front, duplicates added |
| FrontAssembly.AddBlock | solver/src/multifrontal_serial.cpp:606-635 | extend-add with the monotone and the general child map adds the whole symmetric block, packed or strided, exactly once |
| FrontRows.ChildRowsInFront | solver/src/multifrontal_serial.cpp:445-457 | every row of a child's block is a row of the front, so the defensive extension never takes effect |
| ChildBlocks.GatherRows | solver/src/multifrontal_serial.cpp:422-444 | front rows are the children's delayed columns, then the front's own rows; positions are their inverse |
| ChildBlocks.AssembleFront | solver/src/multifrontal_serial.cpp:580-640 | the assembled front is the front's original columns plus all its children's blocks, wherever they lie |
| FrontStore.StoreColumns | solver/src/multifrontal_serial.cpp:742-798 | in place, the accepted columns take the solve layout and unaccepted root columns become zero pivots |
| FrontStore.FrontSplits | solver/src/multifrontal_serial.cpp:800-861 | a factored front is its stored columns' L D L^T plus the Schur block that is pushed |
| ContributionStack.WaitingDisjoint | solver/src/multifrontal_serial.cpp:800-865 | waiting blocks are disjoint, in order and end at the top |
| ContributionStack.PopChildren | solver/src/multifrontal_serial.cpp:636-639 | the minimum over the children's offsets is exactly the end of the blocks that wait for later fronts |
| ContributionStack.PushBlock | solver/src/multifrontal_serial.cpp:824-857 | the packed Schur block lands at the top and everything below the old top is unchanged |
| FrontLedger.TopsNext | solver/src/multifrontal_serial.cpp:800-865 | after a front pops and leaves its block on the stack or in a buffer, offsets, sizes and tops again describe exactly the waiting blocks |
| FrontLedger.AllOnStackNext | solver/src/multifrontal_serial.cpp:800-865 | no waiting block is overwritten before its parent reads it |
| FrontLedger.BalancedNext | solver/src/multifrontal_serial.cpp:711-740 | one front keeps the matrix, pivot and inertia books |
| StoredSigns.StepCounts | solver/src/multifrontal_serial.cpp:711-740 | the counts a front reports are the inertia of the pivot blocks it stores, forced zero pivots included |
| SpentBlocks.SchurSpent | solver/src/multifrontal_serial.cpp:800-861 | what a front passes on has no acceptable 1x1 or 2x2 pivot left among its delayed columns, acceptable being said of the entries alone |
| Multifrontal.FactorAndStore | solver/src/multifrontal_serial.cpp:642-798 | kernel and store together leave a step and a block that represent the assembled matrix, with counts and growth bound |
| Multifrontal.LeaveBlock | solver/src/multifrontal_serial.cpp:800-865 | the handover to a buffer happens exactly for a small front whose parent is next, else the block goes on the stack; either way the records stay true |
| Multifrontal.Engine.ProcessFront | solver/src/multifrontal_serial.cpp:396-869 | one front keeps the run invariant: matrix, pivots, inertia, growth, stack, buffers, positions |
| Multifrontal.Engine.Factor | solver/src/multifrontal_serial.cpp:1300-1323 | the postorder loop processes every front once and keeps the invariant |
| FactorResult.FactorSerial | solver/src/multifrontal_serial.cpp:1300-1323 | a whole run on any matrix that fits the analysis: the pivot order is a permutation P, L is unit lower triangular and D block diagonal in it, P A P^T is L D L^T unless a root gave up on a column, and under threshold pivoting what roots gave up on has no acceptable pivot of either kind; L is bounded, the inertia is that of D and sums to n, and without a zero eigenvalue it is n positive exactly when A is positive definite |
| FactorResult.FactorsUpToResidual | solver/src/multifrontal_serial.cpp:730-865 | after every run P A P^T is L D L^T plus what roots gave up on, entry by entry in the pivot order, with P a permutation, L unit lower triangular and D block diagonal |
| FactorResult.FactorsExactly | solver/src/multifrontal_serial.cpp:730-740 | without an unaccepted root column P A P^T is L D L^T |
| FactorResult.InertiaIsDefinite | solver/src/multifrontal_serial.cpp:711-740 | a run that counts no zero eigenvalue counts n positive ones exactly when the matrix it was given is positive definite |
| Definiteness.PositiveBlocks | solver/src/ldlt_kernel.cpp:444-481 | a matrix that is L D L^T in the pivot order is positive definite exactly when every pivot block is |
| FactorResult.OnlySpentDelayed | solver/src/multifrontal_serial.cpp:642-740 | under threshold pivoting a front delays a column, and a root gives one up, only when the column meets neither the 1x1 condition nor, with its partner, the 2x2 condition on the entries |
| GlobalFactor.OrderPermutes | solver/src/multifrontal_serial.cpp:742-798 | the pivots of all fronts, front by front, are a permutation of the columns |
| GlobalFactor.FactorIsUnitLower | solver/src/multifrontal_serial.cpp:742-798 | L is unit lower triangular in that order: no front has a row that was a pivot of an earlier one |
| GlobalFactor.FactorIsBlockDiagonal | solver/src/multifrontal_serial.cpp:742-798 | D is symmetric with blocks of order 1 and 2 |
| GlobalFactor.StepsAreProduct | solver/src/multifrontal_serial.cpp:742-798 | the stored fronts add up to the product L D L^T of these global factors |
| FactorResult.AllPivotsStored | solver/src/multifrontal_serial.cpp:716-738 | each of the n columns is stored exactly once whatever was delayed, and positive + negative + zero is n |
| FactorResult.ExactlyOneFront | solver/src/multifrontal_serial.cpp:422-444 | for every column there is one front that stores it and no other does |
| FactorResult.PlanStack | solver/src/multifrontal_serial.cpp:1037-1087 | the symbolic plan computes the tops and peaks of both stacks without delays |
| FactorResult.NoDelayPeak | solver/src/multifrontal_serial.cpp:1037-1087 | in a run without delays neither stack top exceeds the planned peak |
| EarlyStop.SerialIs | solver/src/multifrontal_serial.cpp:237-247 | the serial verdict is open up to the one crossing front and that front's decision from there on |
| EarlyStop.SerialMeaning | solver/src/multifrontal_serial.cpp:237-247 | the serial verdict on the lists of works: open while their total has not passed the limit, and after that to stop iff by the front that passes it the total work exceeds proj times the total delay-free work, that front included |
| EarlyStop.ActsKeeps | solver/src/multifrontal_serial.cpp:212-231 | every atomic action of every thread (store, fetch-add, lock, walk step) keeps the protocol invariant |
| EarlyStop.VerdictIsSerial | solver/src/multifrontal_serial.cpp:177-197 | under every schedule a verdict once set says stop iff at the one front with which the works in postorder pass the limit their total exceeds proj times the total of the delay-free works |
| EarlyStop.LargerFactorGoesOn | solver/src/multifrontal_serial.cpp:237-247 | with delay-free works that are not negative, no schedule under a larger factor stops a factorization that some schedule under the smaller one lets go on |
| EarlyStop.SchedulesAgree | solver/src/multifrontal_serial.cpp:177-197 | two schedules never reach different verdicts |
| EarlyStop.ReachedIsDecided | solver/src/multifrontal_serial.cpp:192-197 | once every front of the crossing prefix has completed its call the verdict is set, and says stop iff the totals up to the crossing say so |
| EarlyStop.EarlyGate.Reach | solver/src/multifrontal_serial.cpp:212-218 | the serial engine stops at a front exactly when the works up to it have passed the limit at a front by which they exceed proj times the delay-free ones |
| EarlyStop.EarlyGate.Walk | solver/src/multifrontal_serial.cpp:221-230 | the locked walk accounts every reported front from the cursor on until decided or a report is missing, and leaves the verdict the totals up to the cursor ask for |
| AuctionSafety.StepKeeps | solver/src/auction_matching.cpp:103-187 | every bid, drop and phase change keeps feasible duals, eps-complementary slackness, agreeing match arrays and a queue of distinct free sparse columns |
| AuctionSafety.StartKeeps | solver/src/auction_matching.cpp:77-101 | from feasible duals with tight matched edges the auction starts in the invariant |
| AuctionSafety.BidKeeps | solver/src/auction_matching.cpp:139-185 | a bid keeps the invariant: u only falls, the won edge is within eps, the displaced column is queued |
| AuctionSafety.NextPhaseKeeps | solver/src/auction_matching.cpp:104-132 | a phase change frees exactly the columns that the smaller eps makes too loose |
| AuctionRuns.Run | solver/src/auction_matching.cpp:103-187 | a run with any budget ends, in the invariant |
| AuctionRuns.Absorbing | solver/src/auction_matching.cpp:104-137 | Done and Capped are final under every later budget |
| AuctionRuns.PauseResume | solver/src/auction_matching.cpp:133-137 | pausing under a budget and resuming under a larger one or none is the straight run |
| AuctionRuns.AnyPauses | solver/src/auction_matching.hpp:59-64 | any sequence of growing budgets reaches the straight run's end |
| AuctionRuns.ValidatedIsValid | solver/src/auction_matching.cpp:38-53 | clamped options are usable exactly when one side brings a positive bid cap |
| AuctionRuns.ValidatedTwice | solver/src/auction_matching.cpp:38-53 | validating again with the same defaults changes nothing; with other defaults exactly when every field that is still not positive is what they bring |
| AuctionRuns.PhaseBound | solver/src/auction_matching.cpp:21-34 | with validated options and a positive eps_start every state of a run is within 86 phase changes and within bid_limit bids of the start of its phase |
| AuctionRuns.BidBound | solver/src/auction_matching.cpp:21-34 | and in all it makes at most bid_limit bids for each of at most 87 phases |
| AuctionOptimality.NearOptimal | solver/src/auction_matching.hpp:59-64 | a run that ends Done has a perfect sparse matching whose cost is at most (sparse columns) x eps_final above that of any other |
| AuctionOptimality.DoneMatchesAll | solver/src/auction_matching.hpp:40-47 | a run that ends Done has matched all sparse columns to distinct sparse rows along their own edges |
| AuctionMeaning.WholeAuction | solver/src/auction_matching.cpp:64-187 | from any warm start and for any budget: the invariant; if the free sparse columns were queued, the status its last state tells and the near-optimal perfect matching when Done; the phase and bid bounds under validated options |
| AuctionMeaning.RunEnds | solver/src/auction_matching.cpp:103-137 | a run ends Done iff its last state has reached the last eps and matched every sparse column, Capped iff a queued column is left after all bids of the phase or at the last eps some sparse column has no sparse row, Paused iff a queued column may still bid and the budget is spent |
| AuctionMeaning.StopsAtOnce | solver/src/auction_matching.cpp:103-137 | no earlier state of the run meets any of these conditions |
| AuctionMeaning.UnbudgetedEnds | solver/src/auction_matching.cpp:103-137 | without a budget a run is Capped iff a queued column has used up the phase's bids or some sparse column has no sparse row, and else Done |
| AuctionMeaning.TraceMeaning | solver/src/auction_matching.cpp:103-187 | each round of a run is a bid of the first queued column or, when none is queued, a phase change |
| AuctionMeaning.BidMeaning | solver/src/auction_matching.cpp:139-185 | a bid takes the first cheapest sparse row at the price that leaves the edge eps above the second best, displaces that row's column to the end of the queue, and gives a column up iff it has no sparse row |
| AuctionMeaning.PhaseMeaning | solver/src/auction_matching.cpp:104-132 | a phase change divides eps, not below the last, and frees in order exactly the matched columns whose edge is more than the new eps above their cheapest |
| AuctionMeaning.StartMeaning | solver/src/auction_matching.cpp:77-101 | the start: the range of the sparse costs, the least bid limit not below bid_cap for each sparse column, and the first eps |
| AuctionOptimality.PricesCancel | solver/src/auction_matching.cpp:55-63 | all perfect matchings pay the same total price, the duality step |
| AuctionEngine.Auction.Advance | solver/src/auction_matching.cpp:64-187 | the in-place loop over duals, match arrays, queue and counters, with queue compaction, ends in exactly the model run's state and status; with the free sparse columns queued, Done, Capped and Paused are what the final arrays and counters tell |
| AuctionEngine.Auction.Compact | solver/src/auction_matching.cpp:182-185 | dropping the popped front keeps the live queue |
| Etree.FactsMakeEtree | solver/src/etree.cpp:89-113 | what path compression establishes makes parent[j] the least later vertex reachable through earlier ones |
| Etree.EtreeUnique | solver/src/etree.cpp:92-94 | the tree depends on the adjacency alone, not on the order or repetition of entries |
| EtreeBuild.WalkUp | solver/src/etree.cpp:104-108 | the compressing walk ends at the vertex's root and redirects the ancestors it passed |
| EtreeBuild.EtreeFromAdjacency | solver/src/etree.cpp:89-113 | for any adjacency lists under a permutation the parent array is the elimination tree |
| EtreeBuild.EtreeFromRows | solver/src/etree.cpp:188-214 | the row-based builder computes the elimination tree of its rows |
| EtreeBuild.BuildEliminationTree | solver/src/etree.cpp:116-186 | transposing by counting sort and then linking computes the elimination tree |
| EtreeBuild.TransposedPattern | solver/src/etree.cpp:131-157 | the transposed rows have the pattern of the lower columns |
| EtreeBuild.TransposedEarlier | solver/src/etree.cpp:167-170 | every transposed entry is earlier than its row, so the walk needs no diagonal test |
| EtreeBuild.BuildersAgree | solver/src/etree.cpp:116-214 | the builders give the same parent array on the same pattern |
| Forest.ForestCounts | solver/src/etree.cpp:47-72 | the postorder lists every vertex exactly once |
| Forest.SubtreeBlock | solver/src/etree.cpp:47-72 | every subtree is a contiguous block that ends at its vertex and holds exactly the vertices under it |
| Forest.PostorderMeaning | solver/src/etree.cpp:47-72 | a vertex stands before another iff it is below it or below an earlier sibling of one the other is at or below |
| Postorder.DepthIsHeight | solver/src/etree.cpp:74-86 | when a vertex is read in postorder its recorded depth is its height |
| Postorder.ForestHeightMeaning | solver/src/etree.cpp:74-86 | the height is the number of links of the longest chain of children: no chain has more, and one has as many |
| Postorder.Descend | solver/src/etree.cpp:65-69 | descending into a child leaves the same vertices still to list |
| Postorder.StartPending | solver/src/etree.cpp:50-58 | the roots pushed in reverse have the whole forest pending in order |
| PostorderBuffer.BuildKids | solver/src/etree.cpp:36-45 | counting sort in the shared buffer leaves every vertex's children list |
| PostorderBuffer.Search | solver/src/etree.cpp:47-72 | the stack search in the shared buffer writes the recursive postorder |
| PostorderBuffer.EtreePostorder | solver/src/etree.cpp:23-87 | with segments reused for cursors, stacks and depths the result is the recursive postorder and the exact height of the forest |
| EliminationTrees.FinishEliminationTree | solver/src/etree.cpp:9-19 | every elimination tree is such a forest and gets its postorder and height |
| Supervariables.CompressionIsExact | solver/src/ordering_parallel_nd.cpp:361-398 | where the tests are right two vertices share a supervariable iff their closed neighbourhoods are equal, and numbers follow smallest members |
| Supervariables.ExactIff | solver/src/ordering_parallel_nd.cpp:361-398 | on any lists the numbering is exact iff the tests are right: adjacent equals agree in degree and key, and a neighbour that passes the tests of a first vertex is like it |
| Supervariables.SimpleTestsRight | solver/src/ordering_parallel_nd.cpp:361-398 | on symmetric lists without repetition the tests are right |
| Supervariables.SameKey | solver/src/ordering_parallel_nd.cpp:366-372 | equal closed neighbourhoods have equal degrees and equal 64-bit keys |
| Supervariables.RepsExact | solver/src/ordering_parallel_nd.cpp:374-394 | testing only later neighbours of equal key and degree finds every vertex like the leader |
| Supervariables.EveryNumberUsed | solver/src/ordering_parallel_nd.cpp:395-398 | the numbers are 0 .. ns - 1, all used |
| Supervariables.RepetitionHidesEquals | solver/src/ordering_parallel_nd.cpp:366-380 | a repeated entry can keep equal neighbourhoods apart |
| Supervariables.RepetitionMergesUnequals | solver/src/ordering_parallel_nd.cpp:366-394 | and it can merge unequal ones |
| Supervariables.CompressClosedAdjacency | solver/src/ordering_parallel_nd.cpp:361-398 | the in-place algorithm with keys, marks and representatives computes the specified numbering |
| CompressedGraph.QuotientEdges | solver/src/ordering_parallel_nd.cpp:138-154 | where only equal neighbourhoods merge, reading only the first member loses nothing: vertices of different supervariables are adjacent iff the supervariables are |
| CompressedGraph.QuotientSimple | solver/src/ordering_parallel_nd.cpp:138-154 | then the compressed graph is symmetric without self loops or repetition |
| CompressedGraph.RightTestsMergeAlike | solver/src/ordering_parallel_nd.cpp:361-398 | where the tests are right only equal neighbourhoods merge |
| CompressedGraph.CleanIsQuotient | solver/src/ordering_parallel_nd.cpp:131-137 | when nothing merges and the input is clean the input is the compressed graph |
| CompressedGraph.Compress | solver/src/ordering_parallel_nd.cpp:112-158 | both paths give the supervariables, their weights as the sums over their members, and the compressed graph |
| CompressedGraph.ClassWeightMeaning | solver/src/ordering_parallel_nd.cpp:112-129 | a supervariable weighs what its members weigh together |
| CompressedGraph.AdjacencyIsClean | solver/src/ordering_parallel_nd.cpp:102-110 | the scan accepts exactly the strictly increasing lists without self loops |
| Components.LabelComponents | solver/src/ordering_parallel_nd.cpp:206-232 | labels are equal iff the vertices are connected, numbered by smallest vertex, and every component is weighed |
| Components.ComponentsSplit | solver/src/ordering_parallel_nd.cpp:227-245 | sending whole components to either side cuts no edge and leaves no separator |
| Bisection.Bisect | solver/src/ordering_parallel_nd.cpp:195-283 | a part with several components is split along them, each on the lighter side, any other by its separator if both halves have vertices |
| Bisection.BisectIsSound | solver/src/ordering_parallel_nd.cpp:195-283 | either way no edge joins the halves |
| Bisection.BisectMeaning | solver/src/ordering_parallel_nd.cpp:195-283 | several components: each is on the side where those ahead of it, heavier or as heavy with the smaller label, weigh less, side 0 on a tie; one component: the separator's runs and cut, the cut counting iff it has a vertex on both sides |
| Bisection.BisectMeetsKit | solver/src/ordering_parallel_nd.cpp:195-283 | tools that bisect this way meet the contract the dissection asks for when their separators do |
| Bisection.BisectUnique | solver/src/ordering_parallel_nd.cpp:206-245 | the result depends on the graph, the weights and the separator alone |
| Bisection.ByWeightSorts | solver/src/ordering_parallel_nd.cpp:234-237 | the components are taken heaviest first, equal ones by label, each once |
| Bisection.ComponentsBalance | solver/src/ordering_parallel_nd.cpp:234-245 | the two sides differ by at most the heaviest component |
| Bisection.BothHalves | solver/src/ordering_parallel_nd.cpp:181-190 | with positive weights both halves of every split have vertices |
| Dissection.LocalSimple | solver/src/ordering_parallel_nd.cpp:162-179 | the induced graph of a part is symmetric without self loops or repetition |
| Dissection.HalvesApart | solver/src/ordering_parallel_nd.cpp:424-426 | the two halves of a cut part are disjoint and no edge joins them |
| Dissection.DissectCounts | solver/src/ordering_parallel_nd.cpp:543-556 | a part's order holds each of its original vertices once and no other |
| Dissection.DissectPermutes | solver/src/ordering_parallel_nd.cpp:543-558 | the order of the whole graph is a permutation |
| Dissection.GatheredCount | solver/src/ordering_parallel_nd.cpp:331-343 | gathering members at the first appearance keeps every supervariable once |
| Dissection.DissectExpands | solver/src/ordering_parallel_nd.cpp:331-356 | the order is one of the supervariables with the members of each together; DissectStands says which |
| DissectionMeaning.DissectStands | solver/src/ordering_parallel_nd.cpp:319-356 | every part the recursion reaches stands as its cut or its leaf's tool says: side 0, side 1, then the separator in the part's order; on a fine leaf one supervariable before another iff its first member comes first in AMD's order; on a coarse leaf in METIS' order; members ascend |
| DissectionMeaning.StandsUnique | solver/src/ordering_parallel_nd.cpp:319-356 | one permutation at most stands like this |
| DissectionMeaning.NoneMeaning | solver/src/ordering_parallel_nd.cpp:404-536 | there is no order iff a tool fails on some part that is reached |
| DissectionMeaning.CutMeaning | solver/src/ordering_parallel_nd.cpp:497-512 | a part is cut iff it is above the last level and large enough, as the bisection's runs and choice say |
| DissectionMeaning.HalfMeaning | solver/src/ordering_parallel_nd.cpp:449-457 | a half is the vertices of its side in the part's order |
| DissectionMeaning.LocalMeaning | solver/src/ordering_parallel_nd.cpp:162-179 | a part's local graph is the graph its cells induce, every row in the order of the input's and with its repetitions |
| DissectionSafety.WholeLocal | solver/src/ordering_parallel_nd.cpp:208-216 | the root's induced graph is the compressed graph itself |
| DissectionSafety.AllSucceeded | solver/src/ordering_parallel_nd.cpp:285-305 | the run that counts the separator's runs down to zero is the last one, and all have succeeded |
| DissectionSafety.ReadRight | solver/src/ordering_parallel_nd.cpp:172-178 | while other tasks write, an owner entry says whether the neighbour is in the part, and then the index table gives its place |
| DissectionRuns.StepKeeps | solver/src/ordering_parallel_nd.cpp:412-558 | every step of every task keeps the invariant: ownership, separation of live parts, right local graphs, run counts, pending count |
| DissectionRuns.TasksDisjoint | solver/src/ordering_parallel_nd.cpp:421-426 | an entry of one live part is neither written nor read by a task working on another |
| DissectionRuns.NeverStuck | solver/src/ordering_parallel_nd.cpp:514-536 | while tasks are pending and none failed some step is enabled |
| DissectionRuns.OutcomeIsScheduleFree | solver/src/ordering_parallel_nd.cpp:404-558 | under every schedule a finished run emits the recursion's order, a permutation, and a failed one is a failure of the recursion |
| DissectionBound.StepSpends | solver/src/ordering_parallel_nd.cpp:404-536 | every step of every task spends some of a measure on parts, scans, runs and owners |
| DissectionBound.SchedulesAreFinite | solver/src/ordering_parallel_nd.cpp:404-536 | no schedule takes more steps than a bound that depends on the graph and the tools alone |
| DissectionBound.EveryRunFinishes | solver/src/ordering_parallel_nd.cpp:514-536 | behind every unfinished schedule there is a finished one |
| DissectionRuns.EmitOrder | solver/src/ordering_parallel_nd.cpp:542-558 | emission writes both halves before their separator and fills the permutation completely |
| NestedDissection.ParallelNdOrder | solver/src/ordering_parallel_nd.cpp:400-558 | compression, the tasks under any finished schedule and emission together: the identity up to order 2, else a permutation in which halves stand before their separators and every leaf as AMD or METIS orders it, and failure exactly when a tool fails on a part that is reached |
| NestedDissection.OrderFollows | solver/src/ordering_parallel_nd.cpp:400-558 | the order of the recursion on the compressed graph is what the tools ask for, part by part |
| NestedDissection.FollowsOnce | solver/src/ordering_parallel_nd.cpp:400-558 | and no other permutation is: input and tools leave one result |
| NestedDissection.SomeScheduleCompletes | solver/src/ordering_parallel_nd.cpp:514-541 | whatever the tools, some schedule brings the threads to their end |
| NestedDissection.OrderIsUnique | solver/include/smf/ordering_parallel_nd.hpp:34-39 | the schedule and the number of threads change neither success nor the permutation |
| NestedDissection.OrderExpands | solver/include/smf/ordering_parallel_nd.hpp:22-33 | every supervariable has its members contiguous in the permutation |
| NestedDissection.SimpleMergesAlike | solver/src/ordering_parallel_nd.cpp:361-398 | lists without repetition meet what the ordering asks of its input |
| MatchingPairs.PairsInvolute | solver/src/ordering_matching.cpp:67-124 | partners are an involution without fixed points, every pair is a matched coupling with a diagonal below the tolerance |
| MatchingPairs.UnpairedWhy | solver/src/ordering_matching.cpp:114-123 | neighbours stay unpaired only if both diagonals reach the tolerance, or an odd trail leaves its last column over |
| MatchingPairs.HeavierAlternation | solver/src/ordering_matching.cpp:104-107 | an even cycle, read from its smallest column, takes the second alternation iff its coupling sum is the greater |
| MatchingPairs.OddLeavesBest | solver/src/ordering_matching.cpp:108-113 | an odd cycle leaves out the first member of greatest diagonal |
| MatchingPairs.OnlyCyclesLeft | solver/src/ordering_matching.cpp:86-96 | once all path heads are walked the unseen columns lie on cycles |
| MatchingOrder.PairColumns | solver/src/ordering_matching.cpp:67-124 | both passes tile the columns by whole paths and cycles and split each from its own start |
| MatchingOrder.Walk | solver/src/ordering_matching.cpp:92-96 | a walk from an unseen column marks a chain that ends at a free column or closes a cycle |
| MatchingOrder.BuildNodes | solver/src/ordering_matching.cpp:126-139 | nodes are numbered by first members, a pair sharing one |
| MatchingOrder.NodesMeaning | solver/src/ordering_matching.cpp:126-139 | two variables have the same node iff they are the same or partners, first members are numbered in ascending order, and every number is used |
| MatchingOrder.Expand | solver/src/ordering_matching.cpp:163-172 | the expansion loop writes every node's members in node order |
| MatchingOrder.NodesInOrder | solver/src/ordering_matching.cpp:163-172 | members of the x-th node of the order come before those of the y-th, x < y |
| MatchingOrder.ExpandedPermutes | solver/src/ordering_matching.cpp:163-172 | any order of the nodes expands to a permutation of the variables |
| MatchingOrder.PairsAdjacent | solver/src/ordering_matching.cpp:163-172 | the members of every pair stand next to each other, the smaller first |
| MatchingOrder.OrderFrom | solver/src/ordering_matching.cpp:67-172 | from a matching to the variable order: two variables share a node iff they are partners of the split, nodes are numbered by first members, every member of an earlier node of the given node order stands before every member of a later one, and pairs together |
| IndexedHeap.IndexedMinHeap.PushOrDecrease | solver/src/indexed_min_heap.hpp:35-46 | the map gains or lowers one key; heap order and position index are kept |
| IndexedHeap.IndexedMinHeap.Pop | solver/src/indexed_min_heap.hpp:48-54 | the map loses exactly the top id |
| IndexedHeap.IndexedMinHeap.Clear | solver/src/indexed_min_heap.hpp:56-60 | the map becomes empty and every position is reset |
| IndexedHeap.IndexedMinHeap.SiftUp | solver/src/indexed_min_heap.hpp:78-87 | moving the hole up restores the order without changing the map |
| IndexedHeap.IndexedMinHeap.SiftDown | solver/src/indexed_min_heap.hpp:89-106 | moving the hole down past the least of four children does so too |
| IndexedHeap.IndexedMinHeap.Top | solver/src/indexed_min_heap.hpp:30-31 | the top is the lexicographically least (key, id) of the map |
| IndexedHeap.IndexedMinHeap.Drain | solver/src/indexed_min_heap.hpp:3-10 | popping until empty lists the map in ascending (key, id) order |
| IndexedHeap.DrainsUnique | solver/src/indexed_min_heap.hpp:3-10 | there is one such sequence: it depends on the map alone |

Notes.

- The header of the compression promises exactness for symmetric lists without self loops and
  does not exclude repeated entries. With repetition it fails in both directions:
  `RepetitionHidesEquals` and `RepetitionMergesUnequals` give the inputs, and `ExactIff` the
  exact condition, on any lists; `CompressionIsExact` is the case the other results use. The
  ordering as a whole needs only that nothing unequal is merged.
- A 2x2 pivot whose scaled determinant is within the tolerance is counted with a zero although
  it need not be singular; `InertiaIsDefinite` is about runs that count no zero, and
  `SingularSigns` about blocks that are singular.
- The etree lemma that the walk needs no diagonal test holds for a lower triangle, which is
  what that builder is given.

## Left out

- Rounding, overflow, non-finite values, vector kernels and bitwise statements: arithmetic is over the reals.
- Raised static pivots, in-order pivoting with a minimum pivot, fallback pivots and delay-budget retries: they factor a perturbed matrix.
- The positive definite path, the APTP tile kernel and the fixed-layout small-front kernel: the small-front buffer is modelled, its kernel is the generic one.
- The tree-parallel engine, node blocks outside the stack, root arenas, inertia and work limits: the serial postorder run is modelled.
- Multifrontal.Engine.ProcessFront: does not model that fronts and factor columns share one growing buffer; each front is an array of its own and stored steps are values.
- FrontStore.StoreColumns: does not model the factor offset, because stored columns are values of a step.
- EarlyStop.ReachedIsDecided: does not model weak memory; every atomic access is one step of a sequentially consistent schedule.
- DissectionRuns.OutcomeIsScheduleFree: a task's write of the loop-local member marks of a small leaf is part of ordering it, not a step of its own.
- Dissection.DissectPermutes: takes the separator, AMD and METIS orderings as arbitrary functions of the local graph that meet their contracts (no edge between the halves, a permutation).
- CompressedGraph.Compress: does not model the counting sort of members or the call that sorts a row; members and sorted rows are the ascending enumerations.
- MatchingOrder.OrderFrom: does not model a failing node ordering, and orders the empty matrix, which the caller refuses.
- FactorResult.InertiaIsDefinite: says nothing about how many eigenvalues of an indefinite matrix are negative; that would take the law of inertia for subspaces.
- MatchingOrder.PairColumns: takes the scaled diagonals and the logarithms of the matched entries as given per column.
- The assembly of the compressed matching graph, the choice between AMD and METIS by predicted work, and expected refactorizations.
- The shortest augmenting path searches that use the heap, supernode amalgamation, the solve phase, scaling and refinement.
- I/O, timing, statistics, thread pools and environment variables.
