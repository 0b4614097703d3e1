# Verified model of the oblivious-join MPC stack

This project models the core of a multi-party private-join system and proves
properties of the model in Dafny 4.11:

* **The private join, three ways.** Every party brings rows keyed by a 64-bit
  id. The rows are padded so that each id of the universe has M rows per party,
  sorted by id with a bitonic network, expanded into all M^N combinations per
  id, and filtered by a second sort. The *plaintext driver* is the oracle; the
  *in-memory MPC driver* does it on XOR shares with Beaver triples; the *wire
  driver* lets each of two parties hold only its own shares and exchange
  messages over FIFO channels. All three are proved to compute the relational
  join, with the exact number of triples spent.
* **Arithmetic on shared bits.** Comparison, equality, addition, subtraction,
  restoring division, 128-bit multiplication and the Newton reciprocal, each
  with its integer meaning and its triple count.
* **Authenticated shares** (SPDZ over Z_2^64 and SPDZ2k over Z_2^128): the MAC
  identity over every circuit, opening, batch opening, the sacrifice check, and
  exactly which tampering each check accepts.
* **Alignment of three sources** (F_PSA), the inclusion bits computed from the
  aligned rows, and the key store.
* **Shuffles.** The N-sender cascade as a protocol over all interleavings, the
  secret-shared shuffle over dealt correlations, the MAC-renewing cascade, and the
  product-polynomial shuffle argument.
* **The field under the MACs.** The product modulo x^128 + x^7 + x^2 + x + 1 is
  proved to make the 128-bit blocks a field, so that a changed block is accepted
  under at most one key.

`dafny verify dfyconfig.toml` checks everything.

## How the model is built

* A shared bit is the sequence of the parties' shares, opened by XOR; a shared
  word is a sequence of shared bits with a value in the naturals. Arithmetic
  shares are sequences of ring elements, opened by their sum.
* The vector of triples with its cursor is the class `TripleBag`; every gate
  advances the cursor. `bag.Honest(n)` says that the dealer's triples are
  correct, which `Dealer.GenerateBeaverTripleBits` establishes for all draws.
* Vectors that the program sorts or filters in place are fields of classes
  (`SortVector`, `SharedVector`, `RowVector`); their methods are proved against
  functions on sequences (`Network`, `PaddedSort`, `InPlace`), and the lemmas
  are about those functions.
* A wire coroutine is a strategy tree (`Wire.Proc`): return, throw, or send one
  message (a pair of bits), receive one and continue. `Wire.Net` is two such
  parties with one queue in each direction; party 0 sends before it receives,
  party 1 receives before it sends. `WireLogic.Meets` is a Hoare-style triple for two parties in
  step, with the number of triples taken.
* Specification functions that a method mirrors are tied to something stated
  without them: byte formats by the value of each byte (`KeyFormat.IsBody`,
  `KeyStore.IsFile`), routings by the place each element comes from
  (`Permutations.Origin`, `Cascade.Shuffled`), aligned rows by the input rows
  (`AlignmentRun.Aligned`), metrics by source and place (`Inclusion.RowMeans`,
  `InclusionWire.WireMeans`), the field product by its laws (`GfRing`, `GfField`).
* That GF(2^128) is a field is proved by counting. Squaring is additive, and
  THETAk of `GfSquares` squared 2^k times is THETAk + 1, so adjoining
  THETA0, ..., THETA6 to {0, 1} squares the number of elements seven times: all
  2^128 blocks are reached, and squaring 128 times fixes each of them
  (`GfField.FullCircle`). Starting from {0, 1, e} with e its own square would
  give more than 2^128 blocks, so no such e exists, and the product of a with
  its other 127 conjugates is 1.
* Exceptions are `Failure` values. Random generators are arbitrary streams, and
  every theorem holds for all of them. Hashes and commitments are functions.
* Ghost parameters of methods (the number of parties, a payload width, the
  universe) only name what the requires clauses talk about.

## Main results

* `JoinTheorem.JoinIsRelational` with `MpcJoinDriver.MpcExecutePrivateJoinInMemory`,
  `PlainJoin.ExecutePrivateJoinInMemory` and `WireJoinDriver.EveryWireRunJoins`:
  the three drivers compute the relational join.
* `Wire.EveryRunFinishes`: two parties over FIFO queues neither block nor diverge.
* `Network.SortSorts` and `PaddedSort.PermutesEveryInputIff`: the network sorts,
  and exactly when padding keeps every row.
* `Arithmetic.SecureDivide` and `Newton.ReciprocalBound`: restoring division is
  integer division; the reciprocal of every x up to 2^63 is within one unit.
* `AuthShares.CircuitIsCorrect`, `AuthChecks.SacrificeCheckTripleShared`,
  `AuthChecks.AcceptingKeysAgree` and `AuthChecks.AcceptingChallengesAgree`: the
  MAC identity over circuits, and how much a changed share can get accepted.
* `ShuffleProof.Soundness`: the product check lets a wrong shuffle through for
  fewer than n challenges.
* `Cascade.EveryCascadeRun`, `Cgp.RevealedPlaces` and `MacCascade.HonestPlaces`:
  every run of the three shuffles reveals at each place the element that the
  composed routing brings there.
* `GfField.NoZeroDivisors`, `MacCascade.AcceptingKeysAgree` and
  `MacCascade.AcceptingChallengesAgree`: the blocks form a field, and a tampered
  share passes under at most one key, or one challenge, with the rest fixed.
* `AlignmentRun.RunFPsa`: the pipeline against the ideal functionality, and each
  live row against the parties' input rows.
* `KeyFormat.ParsesTheFormat`: the parser accepts exactly the byte layout.
* `Inclusion.ComputeEntityMetrics`, `InclusionWire.ComputeEntityMetricsWireBatch`
  and `Inclusion.SpecsAgreeIff`: when each metric is included, in plaintext and on
  shares, and when the two agree.

## What the join theorem needs

Three preconditions come from the code. The padding sentinel has key 2^64-1, so
when padding happens no real key may be 2^64-1 (`PaddedSort.PermutesEveryInputIff`
shows that the sort loses a row otherwise, exactly when the length is not a
power of two; `JoinTheorem.SpareIndexIsSentinelFree` shows that a spare party
index suffices). The composite key drops the top `partyIdxBits` bits of the id,
so the join is on the kept bits. And each party brings exactly M rows per id of
the universe. On ties in a descending stage the plaintext comparator swaps and
the shared one does not, so the two sorts agree as sorted multisets, not
position by position; `Network.SortSorts` covers both rules.

## Where the code and its documentation differ

The model follows the code in each case.

* Division by zero: the header promises quotient = numerator and remainder = 0;
  the code returns quotient 2^64-1 and remainder = numerator
  (`Arithmetic.SecureDivide`).
* Subtraction takes 128 triples, not 127 (`Arithmetic.SecureSub`).
* The SPDZ2k ring has 128 bits, not the 144 of the comments, and the opened
  differences of a multiplication are cut to 64 bits; the product is correct
  modulo 2^64 while the MAC identity holds modulo 2^128
  (`AuthShares.ProductIsCorrect`).
* A rejected MAC-cascade round is documented to clear its outputs; the columns
  before the bad one are already in them (`MacCascade.CascadeRound`).
* A comparison costs 256 triples where the inclusion circuit's comments count
  192; the declared budget uses the right number (`InclusionWire.BudgetCoversRow`).
* The inclusion circuit is documented to match the plaintext on all rows. Its
  range test adds and subtracts one with wrap-around, so it does so exactly when
  every range has min >= 1 and max < 2^64-1 (`Inclusion.SpecsAgreeIff`). The Gap
  pair carries the two growth figures instead of their difference.
* A key-store write that fails on an over-long record leaves that record in
  memory while the file keeps the previous image (`KeyStore.FileKeyStore.PutKey`).

## Model

| member | source | states |
|---|---|---|
| Shares.XorShared | volePSI/MpSecretShare.cpp:72-81 | opens to the XOR of the two bits |
| Shares.XorConst | volePSI/MpSecretShare.cpp:83-88 | party 0 absorbs a public bit: the opened bit is flipped by it |
| Shares.SecureAnd | volePSI/MpBeaverTriple.cpp:78-102 | with an honest triple the result opens to the AND, for any number of parties |
| Shares.TripleBag.Take | volePSI/MpSecureCompare.cpp:11-18 | fails exactly when the bag is exhausted; otherwise the cursor moves by one |
| Shares.TripleBag.And | volePSI/MpBeaverTriple.cpp:78-102 | one triple, opens to the AND |
| Shares.TripleBag.Or | volePSI/MpSecureCompare.cpp:26-36 | one triple, opens to the OR |
| Dealer.ShareBit | volePSI/MpSecretShare.cpp:59-70 | whatever is drawn, the shares open to the bit |
| Dealer.GenerateBeaverTripleBit | volePSI/MpBeaverTriple.cpp:54-65 | fails exactly below two parties; otherwise w opens to u AND v |
| Dealer.GenerateBeaverTripleBits | volePSI/MpBeaverTriple.cpp:67-76 | every dealt bag is honest |
| Dealer.ShareU64 | volePSI/MpSecretShare.cpp:8-19 | the wrapping accumulator makes the shares sum to the value modulo 2^64 |
| Dealer.GenerateBeaverTriple | volePSI/MpBeaverTriple.cpp:8-19 | w is u v modulo 2^64 |
| Dealer.SecureMultiply | volePSI/MpBeaverTriple.cpp:32-52 | with an honest triple the result sums to x y modulo 2^64; fails exactly on mismatched party counts |
| Compare.LessRound | volePSI/MpSecureCompare.cpp:60-86 | how one bit from the top extends "less" and "different" to longer prefixes |
| Compare.SecureLessThan | volePSI/MpSecureCompare.cpp:60-86 | opens to x < y as integers; exactly 256 triples; fails exactly on a party mismatch or a short bag |
| Compare.PairwiseKeeps | volePSI/MpSecureCompare.cpp:97-133 | a level of the AND tree is all ones exactly when the level below is |
| Compare.AndLevel | volePSI/MpSecureCompare.cpp:97-133 | one level of the tree: neighbours multiplied, an odd last bit carried over; half as many triples as bits |
| Compare.SecureEqual | volePSI/MpSecureCompare.cpp:97-133 | opens to x = y; exactly 63 triples |
| Arithmetic.AdderStep | volePSI/MpMpcArithmetic.cpp:40-66 | one full adder keeps (sum so far) + carry = (x so far) + (y so far) + carry-in |
| Arithmetic.FullAdder | volePSI/MpMpcArithmetic.cpp:55-63 | sum and carry of three bits; two triples |
| Arithmetic.Ripple | volePSI/MpMpcArithmetic.cpp:48-66 | the carry chain keeps the sum identity up to the top bit; two triples a bit |
| Arithmetic.SecureAdd | volePSI/MpMpcArithmetic.cpp:40-66 | sum modulo 2^64, carry-out exactly on overflow; 127 triples |
| Arithmetic.SecureSub | volePSI/MpMpcArithmetic.cpp:83-121 | difference modulo 2^64, borrow exactly when x < y; 128 triples |
| Arithmetic.SecureSelectBit | volePSI/MpMpcArithmetic.cpp:128-140 | opens to the selected bit; one triple |
| Arithmetic.SelectWord | volePSI/MpMpcArithmetic.cpp:208-215 | opens to the selected word; 64 triples |
| Arithmetic.DivideRound | volePSI/MpMpcArithmetic.cpp:190-217 | shift, trial subtraction and selection: the quotient bit and the new remainder as integers |
| Arithmetic.RemainderFits | volePSI/MpMpcArithmetic.cpp:190-217 | the partial remainder never exceeds the prefix consumed, so the 64-bit shift loses no bit |
| Arithmetic.DivideStep | volePSI/MpMpcArithmetic.cpp:190-217 | one round of restoring division extends quotient and remainder by one numerator bit |
| Arithmetic.SecureDivide | volePSI/MpMpcArithmetic.cpp:153-222 | quotient and remainder of integer division for a nonzero denominator; 2^64-1 and the numerator for zero, with the flag; exactly 12351 triples |
| Network.MergePermutes | volePSI/MpObliviousSort.cpp:55-69 | a bitonic merge permutes |
| Network.SortPermutes | volePSI/MpObliviousSort.cpp:71-82 | the network permutes |
| Network.ReachMerge | volePSI/MpObliviousSort.cpp:55-69 | thresholding commutes with merging (the 0-1 principle for this network) |
| Network.HalfClean | volePSI/MpObliviousSort.cpp:55-69 | a row of comparators on a bitonic 0-1 sequence leaves two bitonic halves, one of them constant |
| Network.MergeSorts01 | volePSI/MpObliviousSort.cpp:55-69 | merging a bitonic 0-1 sequence sorts it |
| Network.SortSorts | volePSI/MpObliviousSort.cpp:71-82 | the network sorts every input of power-of-two length, in both directions and under both tie rules |
| PaddedSort.NextPow2 | volePSI/MpObliviousSort.cpp:16-22 | the 64-bit doubling loop ends and returns the least power of two, for n up to 2^63 |
| PaddedSort.SortPaddedSorts | volePSI/MpObliviousSort.cpp:96-129 | pad, sort, strip: the result is ascending for every length |
| PaddedSort.SortPaddedPermutes | volePSI/MpObliviousSort.cpp:111-128 | it is a permutation of the input when no padding happens or no key is 2^64-1 |
| PaddedSort.PermutesEveryInputIff | volePSI/MpObliviousSort.cpp:111-128 | for a given length, all inputs are permuted exactly when the length is at most one or a power of two |
| PaddedSort.LosingInputLoses | volePSI/MpObliviousSort.cpp:111-128 | for every other length, an input with one key 2^64-1 from which the strip removes a real row |
| PaddedSort.ScheduleCount | volePSI/MpObliviousSort.cpp:131-139 | the comparators of the network are exactly as many as the declared closed form |
| InPlace.CompareAtExchanges | volePSI/MpObliviousSort.cpp:39-48 | ascending, strict inversions are exchanged; descending, ties too in the plaintext sort and only there |
| InPlace.RowValue | volePSI/MpObliviousSort.cpp:55-69 | the first n comparators of a row leave the row's minima and maxima in place and touch nothing else |
| InPlace.MergeAtMerges | volePSI/MpObliviousSort.cpp:55-69 | the in-place merge computes the functional one on its window and leaves the rest alone |
| InPlace.SortAtSorts | volePSI/MpObliviousSort.cpp:71-82 | the in-place recursion computes the functional network on its window and leaves the rest alone |
| ObliviousSort.SortVector.CompareAndSwap | volePSI/MpObliviousSort.cpp:39-48 | exchanges exactly when the order disagrees with the direction; ties exchange when descending |
| ObliviousSort.SortVector.CompareRow | volePSI/MpObliviousSort.cpp:55-69 | one row of comparators at distance k, on the vector and in the record |
| ObliviousSort.SortVector.BitonicMerge | volePSI/MpObliviousSort.cpp:55-69 | the new vector, and the comparators touched, which depend on position and direction alone |
| ObliviousSort.SortVector.BitonicSortHelper | volePSI/MpObliviousSort.cpp:71-82 | the same for the sort |
| ObliviousSort.SortVector.ObliviousBitonicSort | volePSI/MpObliviousSort.cpp:96-129 | the vector is the padded sort of the old one; the comparators touched depend on the length alone and are counted by the closed form |
| MpcSort.ConditionalSwap | volePSI/MpMpcSort.cpp:71-104 | exchanges the two opened elements exactly when the selector opens to one; 64 + payload width triples |
| MpcSort.SwapBits | volePSI/MpMpcSort.cpp:87-97 | both words exchanged bit by bit exactly when the selector opens to one; a triple a bit |
| MpcSort.SharedVector.CompareAndSwap | volePSI/MpMpcSort.cpp:15-27 | one comparator on the opened vector, exchanging strict inversions only |
| MpcSort.SharedVector.CompareRow | volePSI/MpMpcSort.cpp:29-42 | one row of comparators on the opened vector; exact triples |
| MpcSort.SharedVector.BitonicMerge | volePSI/MpMpcSort.cpp:29-42 | the opened vector goes through the in-place merge; exact triples, and failure exactly when they run out |
| MpcSort.SharedVector.BitonicSortHelper | volePSI/MpMpcSort.cpp:44-55 | the same for the sort |
| MpcSort.SharedVector.PadWithSentinels | volePSI/MpMpcSort.cpp:127-140 | appends sentinels that open to key 2^64-1 and a zero payload |
| MpcSort.SharedVector.MpcBitonicSort | volePSI/MpMpcSort.cpp:116-146 | opens to the padded sort of the opened input; spends exactly the declared triples |
| MpcSort.DeclaredCost | volePSI/MpMpcSort.cpp:106-114 | the declared cost is what the network spends |
| Counting.ChoiceAt | volePSI/MpMpcJoin.cpp:163-194 | after c bumps the mixed-radix counter picks choice number c |
| Counting.DigitAt | volePSI/MpMpcJoin.cpp:188-192 | digit p after c bumps is c / M^p mod M: the counter visits every digit vector once, the first digit fastest |
| Counting.ChoicesSize | volePSI/MpMpcJoin.cpp:163-194 | there are M^N choices |
| Counting.CountChoices | volePSI/MpMpcJoin.cpp:163-194 | choices meeting one condition per party are as many as the product of the parties' counts |
| Counting.Increment | volePSI/MpMpcJoin.cpp:188-192 | the carry loop computes the successor |
| JoinLayout.KeyInjective | volePSI/MpMpcJoin.cpp:14-39 | a composite key determines the kept id bits and the party |
| JoinLayout.CompositeIsKey | volePSI/MpMpcJoin.cpp:29-36 | with the party index in range, a composite key is the kept id, id mod 2^(64-b), shifted up by b bits plus the index |
| JoinLayout.SortedBagLayout | volePSI/MpMpcJoin.cpp:122-197 | any ascending arrangement of a padded bag has, per id and party, exactly M tuples in a row |
| JoinProof.RowMatches | volePSI/MpMpcJoin.cpp:168-186 | a combination yields a given intersection row exactly when each tuple is real and carries its part |
| JoinProof.RowPlaces | volePSI/MpMpcJoin.cpp:168-186 | any combination's row, matching or not: the id part of the first key, bit i of party p at place p B + i, the AND of the real flags |
| JoinProof.WindowCountsRow | volePSI/MpMpcJoin.cpp:163-194 | a window yields an intersection row as often as the product of its parts' multiplicities |
| JoinProof.ExpandCounts | volePSI/MpMpcJoin.cpp:122-197 | so does the whole expansion |
| JoinTheorem.SpareIndexIsSentinelFree | volePSI/MpMpcJoin.cpp:29-36 | with a spare party index no composite key is all ones |
| JoinTheorem.FilterMovesInterFirst | volePSI/MpMpcJoin.cpp:215-263 | the filter permutes the rows and brings the intersection rows to the front |
| JoinTheorem.ExpandIsRelational | volePSI/MpMpcJoin.cpp:122-197 | before the filter: universe times M^N rows, and each intersection row as often as in the relational join |
| JoinTheorem.JoinIsRelational | volePSI/MpMpcJoin.cpp:291-350 | the join returns universe times M^N rows, intersection rows first, each as often as the parties' real rows supply it |
| MpcJoin.MakeCompositeKey | volePSI/MpMpcJoin.cpp:14-39 | opens to the composite key; fails exactly beyond 32 index bits |
| MpcJoin.ExtractId | volePSI/MpMpcJoin.cpp:41-52 | opens to the id part, zero-filled |
| MpcJoin.SecureAndChain | volePSI/MpMpcJoin.cpp:54-73 | opens to the AND of all bits; one triple fewer than bits; fails on the empty list |
| MpcJoin.MpcWindowEnds | volePSI/MpMpcJoin.cpp:81-110 | bit i opens to whether position i is the last of its id; exact triples |
| MpcJoin.GatherRow | volePSI/MpMpcJoin.cpp:173-184 | the joined data and the real flags of the tuples the counter picks |
| MpcJoin.BuildRow | volePSI/MpMpcJoin.cpp:168-186 | opens to the row of the current combination; one triple fewer than parties |
| MpcJoin.MpcExpandWindow | volePSI/MpMpcJoin.cpp:163-194 | opens to the rows of all combinations of the window, in order; exact triples |
| MpcJoinDriver.ExpandAllWindows | volePSI/MpMpcJoin.cpp:163-194 | the rows of all windows, in order; exact triples |
| MpcJoinDriver.MpcCrossProductExpand | volePSI/MpMpcJoin.cpp:122-197 | opens to the expansion; succeeds exactly when the shape checks hold, M^N is at most 2^40 and the triples suffice |
| MpcJoinDriver.EncodeRow | volePSI/MpMpcJoin.cpp:224-248 | opens to the encoded row; fails exactly on a wrong payload width |
| MpcJoinDriver.DecodeRow | volePSI/MpMpcJoin.cpp:252-262 | opens to the decoded row |
| MpcJoinDriver.MpcFilterIntersection | volePSI/MpMpcJoin.cpp:215-263 | opens to the filtered rows; exact triples |
| MpcJoinDriver.PartyTuples | volePSI/MpMpcJoin.cpp:323-335 | one party's tuples under composite keys; fails on a wrong row width |
| MpcJoinDriver.RunPhases | volePSI/MpMpcJoin.cpp:337-349 | sort, expand, filter; succeeds exactly when M^N is at most 2^40 and the triples suffice |
| MpcJoinDriver.Aggregate | volePSI/MpMpcJoin.cpp:304-335 | the bag opens to the parties' tuples; fails exactly on a bad shape |
| MpcJoinDriver.MpcExecutePrivateJoinInMemory | volePSI/MpMpcJoin.cpp:291-350 | opens to the join of the opened tables; spends exactly the declared triples; under the padding contract the rows are those of the relational join, intersection rows first |
| Wire.StepKeepsTrack | volePSI/MpMpcWire.cpp:41-76 | every network step keeps the run on the lockstep track and uses up one of the steps left |
| Wire.Progress | volePSI/MpMpcWire.cpp:41-76 | while steps are left exactly one step is possible: no deadlock and no choice |
| Wire.EveryRunFinishes | volePSI/MpMpcWire.cpp:41-76 | every run takes four steps per exchange, never stops short of them, and ends as the lockstep run says with both queues empty |
| WireGates.HonestBagIsPaired | volePSI/MpMpcWire.cpp:41-76 | each party's own half of an honest two-party bag |
| WireGates.OpenBitOpens | volePSI/MpMpcWire.cpp:19-39 | both parties return the same opened bit |
| WireGates.AndMeets | volePSI/MpMpcWire.cpp:41-76 | both cursors advance by one and the results are shares of the AND; with no triple left both throw |
| WireGates.OrMeets | volePSI/MpMpcWire.cpp:95-107 | the same for OR |
| WireGates.RoundMeets | volePSI/MpMpcWire.cpp:119-147 | one bit of the comparison: four triples, the verdict extended |
| WireEqual.SecureEqualMeets | volePSI/MpMpcWire.cpp:149-184 | 63 triples, shares of whether the shared words are equal |
| WireSort.LessMeets | volePSI/MpMpcWire.cpp:119-147 | 256 triples, shares of x < y |
| WireSort.ConditionalSwapMeets | volePSI/MpMpcWireOps.cpp:22-53 | shares of the exchanged elements |
| WireSort.CompareMeets | volePSI/MpMpcWireOps.cpp:65-82 | one comparator of the in-memory network, on shares |
| WireSort.MergeMeets | volePSI/MpMpcWireOps.cpp:84-99 | the in-memory merge, on shares |
| WireSort.SortMeets | volePSI/MpMpcWireOps.cpp:101-116 | the in-memory recursion, on shares |
| WireSort.BitonicSortMeets | volePSI/MpMpcWireOps.cpp:118-149 | the two parties stay in step through the whole sort, spend the declared triples and end with shares of the in-memory result |
| WireJoin.CompositeJoins | volePSI/MpMpcWireDriver.cpp:15-33 | the parties' composite keys are shares of the in-memory composite key |
| WireJoin.ExtractJoins | volePSI/MpMpcWireOps.cpp:162-172 | the extracted id bits are shares of the id part |
| WireJoin.ExpandWindowMeets | volePSI/MpMpcWireOps.cpp:203-243 | one window: shares of all its combinations |
| WireJoin.ExpandMeets | volePSI/MpMpcWireOps.cpp:174-245 | shares of the in-memory expansion, exact triples |
| WireJoinDriver.FilterMeets | volePSI/MpMpcWireOps.cpp:256-299 | shares of the in-memory filter, exact triples |
| WireJoinDriver.WireJoinMeets | volePSI/MpMpcWireDriver.cpp:55-108 | the two programs take the declared triples and return shares of the in-memory result, or both throw |
| WireJoinDriver.EveryWireRunJoins | volePSI/MpMpcWireDriver.cpp:55-108 | over FIFO channels every run of the whole join finishes, and the XOR of the two outputs is the in-memory join, or both have thrown |
| PlainModel.UnpackTupleMeta | volePSI/MpJoinExpander.cpp:12-32 | unpacking inverts packing for 32-bit party and row numbers: the party in the low four bytes, the row in the next four, the real flag behind them |
| PlainTheorem.WindowsLaid | volePSI/MpJoinExpander.cpp:46-55 | on a sorted padded bag there is one window per id, holding exactly that id's tuples |
| PlainTheorem.BagHolds | volePSI/MpsaJoinDriver.cpp:34-102 | per id and party the bag has M places, and real tuples exactly as the table supplies them |
| PlainTheorem.PaddedWindowsOk | volePSI/MpJoinExpander.cpp:79-118 | the expander's window-size and party checks never fire on padded input |
| PlainTheorem.PlainRowPlaces | volePSI/MpJoinExpander.cpp:124-146 | any combination's row: block i of party p at place p W + i, an intersection row exactly when every tuple is flagged real |
| PlainTheorem.ExpandIsRelational | volePSI/MpJoinExpander.cpp:57-158 | each intersection row comes out as often as in the relational join |
| PlainTheorem.FilterSorts | volePSI/MpJoinFilter.cpp:54-84 | the filter permutes the rows and puts intersection rows first |
| PlainTheorem.FilterAndTruncateKeeps | volePSI/MpJoinFilter.cpp:98-104 | truncating to the count keeps exactly the intersection rows, with multiplicity |
| PlainJoin.Universe | volePSI/MpsaJoinDriver.cpp:38-42 | the ids of all tables, ascending, each once |
| PlainJoin.GroupRows | volePSI/MpsaJoinDriver.cpp:44-64 | rejects exactly rows of the wrong width and ids with more than M rows |
| PlainJoin.PadParty | volePSI/MpsaJoinDriver.cpp:70-98 | M tuples of one party for one id: its real rows, then zeros, each under its packed party, row and flag |
| PlainJoin.PadAndAggregate | volePSI/MpsaJoinDriver.cpp:34-102 | the padded bag; fails exactly when a table breaks its caps |
| PlainJoin.WindowStartIndices | volePSI/MpJoinExpander.cpp:46-55 | the positions where a new id starts |
| PlainJoin.GroupByParty | volePSI/MpJoinExpander.cpp:95-108 | the window's tuples by party, in order; fails exactly on a party out of range |
| PlainJoin.PickTuples | volePSI/MpJoinExpander.cpp:128-129 | the tuples the counter points at |
| PlainJoin.BuildRow | volePSI/MpJoinExpander.cpp:124-146 | one combination: the data concatenated, the flags ANDed; fails exactly on a short payload |
| PlainJoin.Combine | volePSI/MpJoinExpander.cpp:120-154 | the counter loop yields the rows of all choices, in order |
| PlainJoin.ExpandWindow | volePSI/MpJoinExpander.cpp:79-154 | one window; succeeds exactly when its size, parties and payloads pass the checks |
| PlainJoin.CrossProductExpand | volePSI/MpJoinExpander.cpp:57-158 | the whole expansion; succeeds exactly when every window passes its checks |
| PlainJoin.EncodeRows | volePSI/MpJoinFilter.cpp:22-38 | all rows encoded |
| PlainJoin.DecodeRows | volePSI/MpJoinFilter.cpp:40-52 | all rows decoded; the decoder's size check never fires on encoded rows |
| PlainJoin.RowVector.ObliviousFilterIntersection | volePSI/MpJoinFilter.cpp:54-84 | the rows become their filtered form, or stay when the shape check fails |
| PlainJoin.RowVector.TruncateToK | volePSI/MpJoinFilter.cpp:86-89 | keeps the first k rows |
| PlainJoin.RowVector.CountIntersection | volePSI/MpJoinFilter.cpp:91-96 | the number of intersection rows |
| PlainJoin.RowVector.FilterAndTruncate | volePSI/MpJoinFilter.cpp:98-104 | leaves exactly the intersection rows, each as often as before |
| PlainJoin.PlainJoinIsRelational | volePSI/MpsaJoinDriver.cpp:106-133 | without a misplaced sentinel the intersection rows of the expansion are the relational join |
| PlainJoin.ExecutePrivateJoinInMemory | volePSI/MpsaJoinDriver.cpp:106-133 | returns exactly the relational join's rows with multiplicity; succeeds exactly within the caps |
| Newton.GapIdentity | volePSI/MpsvsGoldschmidtWire.cpp:204-211 | the new gap is the square of the old one plus the two truncation terms, exactly |
| Newton.FirstGap | volePSI/MpsvsGoldschmidtWire.cpp:186-199 | the first guess 3 - 2x' is within one eighth |
| Newton.StepGap | volePSI/MpsvsGoldschmidtWire.cpp:204-211 | a step keeps the iterate non-negative and squares the gap up to one unit |
| Newton.IterateGap | volePSI/MpsvsGoldschmidtWire.cpp:175-223 | from the fourth step on the gap is one unit |
| Newton.ReducedRange | volePSI/MpsvsGoldschmidtWire.cpp:142-161 | the reduced input lies in [1/2, 1] |
| Newton.ReciprocalBound | volePSI/MpsvsGoldschmidtWire.cpp:175-223 | for every x of at most 2^63 and at least four steps: r x <= 2^40 + 1 and (r + 1) x >= 2^40 |
| Wide.BitAdd128 | volePSI/MpsvsGoldschmidtWire.cpp:44-64 | sum modulo 2^128, exact triples |
| Wide.FullAdder3 | volePSI/MpsvsGoldschmidtWire.cpp:51-61 | the three-triple full adder adds three bits |
| Wide.Ripple128 | volePSI/MpsvsGoldschmidtWire.cpp:44-64 | the 128-bit carry chain with any carry-in |
| Wide.PartialProduct | volePSI/MpsvsGoldschmidtWire.cpp:105-113 | x shifted by i when bit i of y is set, cut to 128 bits |
| Wide.BitSub128 | volePSI/MpsvsGoldschmidtWire.cpp:66-90 | difference modulo 2^128 |
| Wide.MulRound | volePSI/MpsvsGoldschmidtWire.cpp:99-118 | one round adds one bit of y to the product modulo 2^128, however much of the shifted x is cut |
| Wide.BitMul128 | volePSI/MpsvsGoldschmidtWire.cpp:99-118 | product modulo 2^128; exactly 57408 triples |
| Goldschmidt.FpMulShared | volePSI/MpsvsGoldschmidtWire.cpp:121-133 | the fixed-point product, when the full product fits 128 bits |
| Goldschmidt.ShareU128 | volePSI/MpsvsGoldschmidtWire.cpp:18-25 | whatever is drawn, the shares open to the value |
| Goldschmidt.ShiftRight | volePSI/MpsvsGoldschmidtWire.cpp:213-221 | the value divided by 2^p |
| Goldschmidt.Double | volePSI/MpsvsGoldschmidtWire.cpp:190-196 | twice the value, when it fits |
| Goldschmidt.Magnitude | volePSI/MpsvsGoldschmidtWire.cpp:150-151 | the least p with 2^p >= x; the loop ends for x up to 2^63 |
| Goldschmidt.RangeReduceReveal | volePSI/MpsvsGoldschmidtWire.cpp:142-161 | fails exactly on zero (or fewer than two parties); otherwise the magnitude and shares of the reduced value |
| Goldschmidt.RoundRange | volePSI/MpsvsGoldschmidtWire.cpp:204-211 | no product of a round wraps or goes negative in 128 bits |
| Goldschmidt.NewtonRound | volePSI/MpsvsGoldschmidtWire.cpp:204-211 | one round on shares is one step of the iteration |
| Goldschmidt.BudgetSuffices | volePSI/MpsvsGoldschmidtWire.cpp:167-173 | the triples spent never exceed the declared budget |
| Goldschmidt.GoldschmidtRecipWire | volePSI/MpsvsGoldschmidtWire.cpp:175-223 | the shared result is the iterated reciprocal for every number of iterations, and from four on within one unit of 2^40/x; exact triples |
| AuthShares.AddKeepsMac | volePSI/MpsvsAuthShare128.cpp:87-92 | sum of values, MAC valid in the full ring |
| AuthShares.SubKeepsMac | volePSI/MpsvsAuthShare128.cpp:94-99 | difference of values, MAC valid in the full ring |
| AuthShares.MulConstKeepsMac | volePSI/MpsvsAuthShare128.cpp:101-106 | public multiple, MAC valid in the full ring |
| AuthShares.AddConstKeepsMac | volePSI/MpsvsAuthShare.cpp:62-68 | public constant added, MAC valid |
| AuthShares.OpenWithMacCheckShared | volePSI/MpsvsAuthShare128.cpp:203-234 | returns the low value bits exactly when alpha x = mac in the full ring |
| AuthShares.AuthenticatedOpens | volePSI/MpsvsAuthShare128.cpp:203-234 | an authenticated share opens, to its value |
| AuthShares.BeaverKeepsMac | volePSI/MpsvsAuthShare128.cpp:312-355 | the MAC identity survives the Beaver combination whatever d and e are |
| AuthShares.CombinedIsProduct | volePSI/MpsvsAuthShare128.cpp:333-353 | the combination is x y on the value bits although d and e have been cut to them |
| AuthShares.ProductIsCorrect | volePSI/MpsvsAuthShare128.cpp:312-355 | honest inputs never fail; the product is authenticated in the full ring and correct on the value bits |
| AuthShares.AuthSecureMultiplyShared | volePSI/MpsvsAuthShare128.cpp:312-355 | the two-round method computes that product |
| AuthShares.CombineShares | volePSI/MpsvsAuthShare128.cpp:337-353 | the loop over the parties builds the Beaver combination of values and MACs |
| AuthShares.CircuitIsCorrect | volePSI/MpsvsAuthShare128.cpp:87-106 | at every node of every circuit of additions, subtractions, public and Beaver products the share carries the plain value and a valid MAC |
| AuthShares.CircuitOpens | volePSI/MpsvsAuthShare128.cpp:203-234 | opening the circuit's result gives the plain value modulo 2^64 |
| AuthShares.PlainKeyProductIsCorrect | volePSI/MpsvsAuthShare.cpp:91-134 | the same guarantee with the key in the clear, for any number of parties |
| AuthChecks.SacrificeCheckTripleShared | volePSI/MpsvsAuthShare128.cpp:383-409 | accepts only two-party shares; on those exactly when the MAC defects of its three openings cancel and r (w - u v) = w' - u' v' on the value bits; with valid MACs there are no defects |
| AuthChecks.BatchOpenWithMacCheckShared | volePSI/MpsvsAuthShare128.cpp:275-306 | opens every value, and accepts exactly when the challenge-weighted MAC defects cancel in the full ring |
| AuthChecks.AcceptingChallengesAgree | volePSI/MpsvsAuthShare128.cpp:245-306 | with the other challenges fixed, at most one residue of a challenge modulo 2^n is accepted when the defect behind it is odd, and one modulo 2^(n-j+1) when 2^j does not divide the defect |
| AuthChecks.HonestBatchAccepts | volePSI/MpsvsAuthShare128.cpp:275-306 | authenticated shares pass under every challenge |
| AuthChecks.TamperAccepted | volePSI/MpsvsAuthShare128.cpp:203-234 | adding d to the value and c to the MAC is accepted exactly when alpha d = c in the full ring |
| AuthChecks.AcceptingKeysAgree | volePSI/MpsvsAuthShare128.cpp:203-234 | after a change visible on the 64 value bits, all accepting keys agree modulo 2^65 |
| AuthChecks.ClassicalMissesTopBit | volePSI/MpsvsAuthShare.cpp:283-318 | in the 64-bit ring a flipped top bit is accepted exactly for the even keys |
| PrimeField.SameRoots | volePSI/MpShuffleNizkBg.cpp:45-58 | two products of n linear factors agreeing at n points have the same roots with multiplicity |
| ShuffleProof.PolyEvalAtX | volePSI/MpShuffleNizkBg.cpp:45-58 | the accumulator is the product of (x - (m + y)); modulo a prime it vanishes exactly when x is some m + y |
| ShuffleProof.ShuffleProveBg | volePSI/MpShuffleNizkBg.cpp:82-117 | fails exactly on mismatched sizes or an index out of range; otherwise reveals the routed messages under the challenges hashed from both commitment vectors, the original one first |
| ShuffleProof.ShuffleVerifyBg | volePSI/MpShuffleNizkBg.cpp:119-163 | accepts exactly when sizes, both recomputed challenges, openings and the product check all hold |
| ShuffleProof.PermutationAgrees | volePSI/MpShuffleNizkBg.cpp:119-163 | a permutation of the messages passes at every challenge |
| ShuffleProof.HonestRun | volePSI/MpShuffleNizkBg.cpp:82-163 | an honest proof is accepted whatever the hashes return |
| ShuffleProof.Soundness | volePSI/MpShuffleNizkBg.cpp:119-163 | vectors that are not rearrangements pass for at most n-1 challenges x; rearrangements pass for all |
| Alignment.StableSortedSorts | volePSI/MpsvsAlignment.cpp:101-124 | the within-bin order is ascending by key, then source, and a permutation |
| Alignment.StableSortedIsStable | volePSI/MpsvsAlignment.cpp:116-120 | rows with equal key and source keep their order |
| Alignment.DeadRowsLast | volePSI/MpsvsAlignment.cpp:101-124 | dead padding sorts to the tail, so cutting it removes nothing else |
| Alignment.LiveIffFirst | volePSI/MpsvsAlignment.cpp:130-219 | a row is live exactly when it is the real start of a run |
| Alignment.LivenessHolds | volePSI/MpsvsAlignment.cpp:130-219 | even with key collisions: live implies real, and every real key keeps a live row |
| Alignment.FirstIsIdeal | volePSI/MpsvsAlignment.cpp:130-208 | in a clean bin the start of a run carries each source's presence bit and payload |
| Alignment.LiveRows | volePSI/MpsvsAlignment.cpp:130-219 | in a clean bin the live rows are the ideal rows of its distinct keys, in order |
| AlignmentRun.AssertNoDuplicateEntityPeriod | volePSI/MpsvsAlignment.cpp:16-32 | accepts exactly inputs whose real rows have no repeated (key, period) |
| AlignmentRun.PackBins | volePSI/MpsvsAlignment.cpp:38-87 | each bin is the party's rows in order, then dummies up to the capacity with keys cut to tau bits; fails exactly on rejected input |
| AlignmentRun.PadBin | volePSI/MpsvsAlignment.cpp:70-85 | the bin's rows, then dummies up to the capacity, their keys cut to tau bits |
| AlignmentRun.WithinBinSort | volePSI/MpsvsAlignment.cpp:101-124 | pad, sort, cut back: the stable sort of the bin |
| AlignmentRun.PickSource | volePSI/MpsvsAlignment.cpp:165-176 | present exactly when one of the three rows from here on is a real row of that source and key, with the payload of the first such row |
| AlignmentRun.SawSectors | volePSI/MpsvsAlignment.cpp:186-202 | all real rows of the key in the window, source by source |
| AlignmentRun.WindowedMerge | volePSI/MpsvsAlignment.cpp:130-208 | one merged row per position, canonical exactly at the start of a run or at a dummy; a dummy leaves a blank row |
| AlignmentRun.MarkLive | volePSI/MpsvsAlignment.cpp:214-219 | every row marked live exactly when canonical and present somewhere, otherwise unchanged |
| AlignmentRun.ComposedShuffle | volePSI/MpsvsAlignment.cpp:225-241 | whatever is drawn, each row comes from its own place of a permutation |
| AlignmentRun.BinIsIdeal | volePSI/MpsvsAlignment.cpp:247-292 | the live rows of a merged bin are the ideal functionality's rows for that bin |
| AlignmentRun.IdealIsAligned | volePSI/MpsvsAlignment.cpp:163-206 | the row of a key says what the parties' rows for that key say: presence, payload, first period and sector, conflict |
| AlignmentRun.TableIsAligned | volePSI/MpsvsAlignment.cpp:247-292 | so do all live rows of a table of clean bins, one for each key of each bin and none missing |
| AlignmentRun.AlignedReorders | volePSI/MpsvsAlignment.cpp:225-241 | shuffling keeps that |
| AlignmentRun.RunFPsa | volePSI/MpsvsAlignment.cpp:247-292 | 3 cap_P 2^beta rows; only real rows are live and no real key is lost; without collisions the live rows are the ideal table and aligned: each stands for its own key of its bin, says of each source whether it has a row for the key and which payload, takes period and sector from the first source that has one, and flags a conflict exactly when two of them differ in sector; no key of any input row is missing |
| Permutations.RandomPermutation | volePSI/MpCgpShuffle.cpp:99-105 | Fisher-Yates yields a permutation whatever is drawn |
| Permutations.OriginsDiffer | volePSI/MpCgpShuffle.cpp:22-34 | after any permutations, different places come from different places |
| Blocks.GfMulCommutes | volePSI/MpMac.cpp:102-121 | multiplications by two field elements commute |
| Blocks.GfMulXor | volePSI/MpMac.cpp:9-37 | multiplication distributes over XOR |
| GfRing.DoubleBits | volePSI/MpMac.cpp:56-64 | multiplying by x shifts the coefficients up and adds the top one at 0, 1, 2 and 7 |
| GfRing.UnitTimes | volePSI/MpMac.cpp:56-64 | multiplying by x^i is multiplying i times by x |
| GfRing.OneTimes | volePSI/MpMac.cpp:56-64 | one is neutral on both sides |
| GfRing.Commutes | volePSI/MpMac.cpp:56-64 | the product commutes |
| GfRing.Associates | volePSI/MpMac.cpp:56-64 | the product is associative |
| GfRing.Distributes | volePSI/MpMac.cpp:56-64 | the product is additive in its first factor |
| GfField.FullCircle | volePSI/MpMac.cpp:56-64 | squaring 128 times changes no block |
| GfField.IdempotentIsTrivial | volePSI/MpMac.cpp:56-64 | only 0 and 1 are their own squares |
| GfField.InverseTimes | volePSI/MpMac.cpp:56-64 | every block but zero has an inverse |
| GfField.NoZeroDivisors | volePSI/MpMac.cpp:56-64 | a product is zero only when a factor is |
| GfField.MultipliersDiffer | volePSI/MpMac.cpp:56-64 | different multipliers give a nonzero block different products |
| Cascade.ColumnsRoundTrip | volePSI/MpShuffleDriver.cpp:64-91 | deserializing inverts serializing |
| Cascade.SerializedAt | volePSI/MpShuffleDriver.cpp:64-78 | block i of column c is block c C + i of the message |
| Cascade.ColumnCarries | volePSI/MpShuffleDriver.cpp:164-194 | one routed column: the two halves add up to the next composed routing, for every OSN share |
| Cascade.StepKeeps | volePSI/MpShuffleDriver.cpp:130-289 | every step of any party keeps the invariant (M + R is the composed routing of every column) and uses up one of the steps left |
| Cascade.OnlyOnePlace | volePSI/MpShuffleDriver.cpp:164-223 | R sits at one sender or in one message, never both |
| Cascade.Progresses | volePSI/MpShuffleDriver.cpp:130-289 | with steps left a step is possible; with none left the table is the composed routing of the input |
| Cascade.RoutedIsShuffled | volePSI/MpShuffleDriver.cpp:130-289 | the composed routing, place by place |
| Cascade.EveryCascadeRun | volePSI/MpShuffleDriver.cpp:130-289 | every interleaving takes the same number of steps, never stops short, and ends with block i of every column being the unmasked block at the place that i comes from through all senders |
| Cgp.CgpDealerGenerate | volePSI/MpCgpShuffle.cpp:81-116 | pi is a permutation and alpha = pi(a) + b, whatever is drawn |
| Cgp.RandomRows | volePSI/MpCgpShuffle.cpp:89-97 | an n by W matrix of the drawn blocks |
| Cgp.OnlineHalves | volePSI/MpCgpShuffle.cpp:118-160 | the two online halves succeed exactly on rectangular rows and a routing in range, and then give the round's output |
| Cgp.CgpCascadeRound | volePSI/MpCgpShuffle.cpp:174-206 | false on a size mismatch; malicious mode accepts exactly when alpha[i] = a[pi[i]] + b[i] everywhere; fails on ragged rows; the first new share is alpha, and row i of the second is row pi[i] of both old shares and a added up, plus row i of b |
| Cgp.CorrelationMatches | volePSI/MpCgpShuffle.cpp:191-203 | the entry-by-entry comparison decides whether alpha[i][j] = a[pi[i]][j] + b[i][j] everywhere |
| Cgp.RoundOffset | volePSI/MpCgpShuffle.cpp:118-160 | the secret is routed by pi, off by alpha + pi(a) + b |
| Cgp.RoundRoutesIff | volePSI/MpCgpShuffle.cpp:174-206 | a round routes the secret exactly when the correlation holds |
| Cgp.AcceptedRunReveals | volePSI/MpCgpShuffle.cpp:174-211 | any number of accepted rounds reveals the initial secret under the composed index map |
| Cgp.RevealedPlaces | volePSI/MpCgpShuffle.cpp:174-211 | place i of the reveal is the sum of the initial shares at the place that i comes from through all rounds |
| MacCascade.RandomSharesAuthentic | volePSI/MpMac.cpp:66-87 | fresh shares are authentic and reconstruct the plaintext |
| MacCascade.XorAuthKeeps | volePSI/MpMac.cpp:9-21 | adding shares keeps the tags valid |
| MacCascade.XorConstKeeps | volePSI/MpMac.cpp:23-37 | adding a constant on one side keeps the tags valid |
| MacCascade.PermuteKeeps | volePSI/MpMac.cpp:39-54 | routing data and tags together keeps the tags valid |
| MacCascade.PermuteAuth | volePSI/MpMac.cpp:39-54 | fails exactly on a size mismatch or a place out of range; otherwise the block and the tag at i are those at dest[i] |
| MacCascade.VerifyAuthShares | volePSI/MpMac.cpp:89-100 | accepts exactly when every joint tag is alpha times the joint data |
| MacCascade.VerifyAuthSharesBatched | volePSI/MpMac.cpp:102-121 | accepts exactly when the tag errors are orthogonal to the challenge |
| MacCascade.BatchedAcceptsHonest | volePSI/MpMac.cpp:102-121 | authentic shares pass under every challenge |
| MacCascade.TamperAcceptedIff | volePSI/MpMac.cpp:89-100 | changing data by d and tags by t goes unnoticed exactly when t = alpha d |
| MacCascade.AcceptingKeysAgree | volePSI/MpMac.cpp:89-100 | a change that touches some block, with one fixed change of the tags, is accepted under at most one key |
| MacCascade.AcceptingChallengesAgree | volePSI/MpMac.cpp:102-121 | with the other challenges fixed, a wrong tag is accepted by the batched check under at most one challenge for its place |
| MacCascade.CascadeRound | volePSI/MpAuthCascade.cpp:43-94 | accepts exactly when every column has the right size and valid tags; which columns are out on each outcome |
| MacCascade.RoundKeeps | volePSI/MpAuthCascade.cpp:64-91 | the new column is authentic under the new key and its plaintext is the old one routed |
| MacCascade.FinalVerify | volePSI/MpAuthCascade.cpp:96-117 | accepts exactly when every column is authentic, and returns the plaintexts |
| MacCascade.TagVector | volePSI/MpMac.cpp:56-64 | alpha times every block |
| MacCascade.HonestRun | volePSI/MpAuthCascade.cpp:43-117 | every honest run is accepted round by round and ends with the plaintext under the composed routing |
| MacCascade.HonestPlaces | volePSI/MpAuthCascade.cpp:43-117 | place by place: the plaintext at i is the initial one at the place that i comes from |
| KeyFormat.SerialiseRecords | volePSI/MpsvsKeyStore.cpp:64-81 | fails exactly on an id over 4096 bytes or a secret over 2^20; otherwise the body, byte by byte: the count, then per record id length, id, purpose, creation time, version, secret length and secret, the words with their lowest byte first |
| KeyFormat.DeserialiseRecords | volePSI/MpsvsKeyStore.cpp:83-111 | the parse of the bytes, which by ParsesTheFormat succeeds exactly on the byte layout |
| KeyFormat.BodyIsLaidOut | volePSI/MpsvsKeyStore.cpp:44-81 | every byte of the printed body is where the format puts it |
| KeyFormat.LayoutIsBody | volePSI/MpsvsKeyStore.cpp:64-81 | a byte string is laid out as a list says exactly when it is what the list prints to |
| KeyFormat.ParsesTheFormat | volePSI/MpsvsKeyStore.cpp:83-111 | the parser returns a list exactly on the byte strings laid out as the format says, within the limits and below 2^32 records |
| KeyFormat.RecordRoundTrip | volePSI/MpsvsKeyStore.cpp:64-111 | parsing a printed record returns it and what follows |
| KeyFormat.RecordCanonical | volePSI/MpsvsKeyStore.cpp:83-107 | a parsed record prints back to the bytes it was read from |
| KeyFormat.FormatIsBijection | volePSI/MpsvsKeyStore.cpp:64-111 | a byte string parses to a list exactly when the list is in limits, below 2^32 records, and prints to it |
| KeyFormat.ReadsBackIff | volePSI/MpsvsKeyStore.cpp:64-111 | a printed list reads back exactly below 2^32 records |
| KeyStore.PutIsMapUpdate | volePSI/MpsvsKeyStore.cpp:286-300 | replace-or-append updates one entry of the map, keeps ids unique and leaves every other record in its place |
| KeyStore.DeleteIsMapRemoval | volePSI/MpsvsKeyStore.cpp:324-333 | erasing removes one entry of the map |
| KeyStore.FileRoundTrip | volePSI/MpsvsKeyStore.cpp:252-278 | a written file reads back as salt and records exactly below 2^32 records |
| KeyStore.FileIsLaidOut | volePSI/MpsvsKeyStore.cpp:343-356 | the file starts with the eight magic bytes, version 1 in four and the salt, then the body |
| KeyStore.FileKeyStore.Open | volePSI/MpsvsKeyStore.cpp:218-278 | opens exactly a readable file, or creates an empty one; the image matches the records |
| KeyStore.FileKeyStore.PutKey | volePSI/MpsvsKeyStore.cpp:286-300 | the new record list and map; on success the file decodes to the records, on failure it is unchanged |
| KeyStore.FileKeyStore.GetKey | volePSI/MpsvsKeyStore.cpp:302-308 | the record of that id, or failure exactly when there is none |
| KeyStore.FileKeyStore.HasKey | volePSI/MpsvsKeyStore.cpp:310-314 | whether the map has the id |
| KeyStore.FileKeyStore.ListKeyIds | volePSI/MpsvsKeyStore.cpp:316-322 | the ids of the records, in order |
| KeyStore.FileKeyStore.ZeroiseMemory | volePSI/MpsvsKeyStore.cpp:335-341 | no records in memory; the file is untouched |
| KeyStore.FileKeyStore.DeleteKey | volePSI/MpsvsKeyStore.cpp:324-333 | the new record list and map; on success the file decodes to the records, on failure it is unchanged |
| KeyStore.FileKeyStore.FlushToDiskLocked | volePSI/MpsvsKeyStore.cpp:343-356 | writes the image, byte by byte, exactly when every record is in limits |
| Inclusion.IncludedIsInRange | volePSI/MpsvsInclusion.cpp:79-160 | an included ratio has its denominator in range; a vulnerable row is live with a core metric available |
| Inclusion.RangeTestExactIff | volePSI/MpsvsInclusionWire.cpp:60-75 | the shifted range test is the range test on all words exactly when min >= 1 and max < 2^64-1 |
| Inclusion.SpecsAgreeIff | volePSI/MpsvsInclusionWire.cpp:60-75 | circuit and plaintext agree on all rows exactly when all three ranges are of that kind |
| Inclusion.PlainMeans | volePSI/MpsvsInclusion.cpp:79-160 | the specification row has that meaning, source by source and place by place |
| Inclusion.ComputeEntityMetrics | volePSI/MpsvsInclusion.cpp:36-162 | one metric row per input row, each saying which two figures of which sources it divides, and included exactly when the row is live, both sources are there, both figures are valid and the denominator is in range; the count of included core metrics and the policy's verdict |
| InclusionWire.RangeCheckShared | volePSI/MpsvsInclusionWire.cpp:60-75 | opens to the shifted range test; 513 triples |
| InclusionWire.MakeIncl | volePSI/MpsvsInclusionWire.cpp:124-129 | opens to the AND of all bits; one triple fewer than bits |
| InclusionWire.Sor | volePSI/MpsvsInclusionWire.cpp:208-212 | opens to the OR; one triple |
| InclusionWire.FullAdd | volePSI/MpsvsInclusionWire.cpp:223-234 | sum and carry of three bits; three triples |
| InclusionWire.InclusionBits | volePSI/MpsvsInclusionWire.cpp:123-183 | the nine inclusion bits open to the specification's; 40 triples |
| InclusionWire.Vulnerable | volePSI/MpsvsInclusionWire.cpp:202-217 | opens to the coverage policy's verdict, under both policies; four triples |
| InclusionWire.CountFour | volePSI/MpsvsInclusionWire.cpp:219-259 | the adder's three bits are the number of available core metrics, 0 to 4; nine triples |
| InclusionWire.BudgetCoversRow | volePSI/MpsvsInclusionWire.cpp:17-25 | a row takes 1592 triples, within the declared 1693 |
| InclusionWire.ComputeEntityMetricsWire | volePSI/MpsvsInclusionWire.cpp:77-262 | the reconstructed row is the plaintext row but for the Gap numbers; every opened metric has the two figures and the inclusion condition stated by source and place, with the shifted range test, and with the plain one when the ranges are exact; exactly 1592 triples |
| InclusionWire.ComputeEntityMetricsWireBatch | volePSI/MpsvsInclusionWire.cpp:264-276 | every row of the batch has that meaning and is the specification row under the shifted range test with the growth figures in the Gap pair, for all ranges; the plaintext row when the ranges are exact; exact triples |

## Left out

* Sockets, coroutines, CSV and file I/O, command line and the drivers around
  them; only FIFO message order is kept.
* libsodium, libOTe and AEAD internals: decryption inverts encryption (the key
  store and the cascade's messages use the identity), an OSN call returns XOR
  shares of the routed column, hashes and commitments are functions.
* Privacy, simulation and probability; randomness is arbitrary input.
* Shares of a bit are booleans, where the program has bytes of value 0 or 1;
  shares modulo 2^64 and 2^128 are integers reduced after each operation.
* Sizes are unbounded naturals except where the code's 32- and 64-bit limits
  decide an outcome; the caps on the number of combinations use the exact power
  M^N where the program compares a floating-point logarithm.
* Vectors grown or sorted in place are sequence-valued fields; aliasing between
  vectors is not modelled. A wire message is a pair of bits, as in the
  program's AND; opening a single bit leaves the second half unused.
* Custom comparators of the plaintext sort: the model has the default order by
  key, which is what the join uses.
* The stable library sort of the bins is modelled by insertion.
* The field multiplication of the block library is not part of the repository's
  files; it is modelled modulo x^128 + x^7 + x^2 + x + 1, lowest coefficient
  first.
* Fisher-Yates on length 0, where the loop start underflows.
* `detectWindowEnds`, audits, aggregates, metric names, the HSM stub, the
  legacy OSN socket arguments, floating-point noise, configuration text,
  handshakes, identities and transcript signing would add only easy members.
- WireJoinDriver.InMemoryResult: the value of `Join` also when M^N exceeds 2^40, where the in-memory driver throws; the wire code has no such cap, so its result is compared with the join itself.
- WireSort.BitonicSortMeets: the padded length is the unbounded `NextPowerOfTwo`; above 2^63 elements the program's 64-bit doubling no longer reaches it.
- Goldschmidt.Magnitude: inputs above 2^63 are excluded, because the program's loop would shift a 64-bit word past its width there.
- Goldschmidt.RangeReduceReveal: the same bound.
- Goldschmidt.GoldschmidtRecipWire: the caller provides the triples, as in the program, whose subtraction takes them unchecked; inputs above 2^63 are excluded because the magnitude loop shifts past 64 bits there.
- Wide.BitSub128: requires its triples, which the program takes unchecked.
- Alignment.LivenessHolds: without the no-collision assumption it does not say that a key has only one live row, because then it may have several.
- Cascade.EveryCascadeRun: starts from the state in which the service provider holds the masked columns and the first sender their masks; how the masks were agreed is not part of this model.
- KeyStore.FileKeyStore.ZeroiseMemory: overwriting the secrets' memory before it is released is not expressible on values.
- WireJoinDriver.EveryWireRunJoins: at most 32 index bits; beyond them the in-memory driver throws, and the wire code, which has no check, shifts a 32-bit index out of its width.
- WireJoinDriver.WireJoinMeets: the same bound of 32 index bits.
