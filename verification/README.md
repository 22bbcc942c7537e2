# A verified model of the PSU protocol's core

The repository is a C++ implementation of a private set union protocol. Two parties hold sets; item
hashes are compared by evaluating encrypted polynomials, and an oblivious switching network hides
which position belongs to which item. This project models the parts whose correctness is hardest to
see from the code and proves what they are for.

1. **Oblivious switching.** `Benes*.dfy` model the generalised Benes network: routing of any
   permutation of any number of wires from two up, its evaluation on plain data and on masked data.
   `MaskedNetwork.dfy`, `CorrectionTables.dfy`, `OsnReceiver.dfy`, `OsnSender.dfy` and `Osn.dfy` add
   the other party's masks and correction blocks and join both parties: their shares of every
   position cancel to the permuted input. `Shuffles.dfy` is the draw of the permutation.
   `CorrectionThreads.dfy` shows that the threads of the
   mask computation give the same result under every schedule.
2. **Powers of the query.** `PowersPlan.dfy` and `PowersDags.dfy` model the construction of a
   depth-optimal plan; `PowersWorkers.dfy`, `PowersProgress.dfy` and `PowersFairness.dfy` are its
   lock-free execution by any number of workers, as a state machine over shared reads, stores and
   compare-and-swaps: safety, and termination under every fair schedule.
   `PowersValues.dfy`, `PlaintextPowers.dfy`, `PolynomialEval.dfy`, `BundleResult.dfy` and
   `QueryRun.dfy` follow the values: powers of the query, then plain and Paterson-Stockmeyer
   evaluation, in an abstract commutative ring with the NTT form and the level of every operand.
   `SlotVectors.dfy` makes that ring the vectors of slots modulo the plain modulus.
3. **Scalar multiplication.** `Words.dfy` is 64-bit arithmetic with its wrap-around.
   `FixedWindow.dfy`, `FixedBase.dfy`, `FixedBaseComb.dfy`, `Endomorphism.dfy`, `DoubleBase.dfy`,
   `TruncatedProduct.dfy` and `SlidingWindow.dfy` are the five recodings, the loops that use them, in
   an abstract abelian group (a commutative ring for the exponentiation), and the truncated product.
   `ScalarLattice.dfy` shows that the decomposition represents its scalar modulo the group order.
4. **Placement.** `Parameters.dfy`, `PreprocessedData.dfy`, `Placement.dfy`, `BundleChoice.dfy`,
   `BinBundles.dfy` and `InsertDispatch.dfy` model the derived sizes and the insertion of items into bin
   bundles: what is stored, and which bundle takes it.
5. **Matching.** `MatchingPolynomial.dfy` builds a bin's polynomial from its items, with `Primes.dfy`
   and `Residues.dfy` for the arithmetic modulo the plain modulus. `SourcePowers.dfy`,
   `BundleAnswer.dfy` and `QueryAnswer.dfy` join everything: from the powers that are sent, over any
   schedule of the workers, to the answers of the bundles, which match exactly what was inserted.

Blocks of 128 bits are sets of bit positions with symmetric difference as xor. Random draws, masks,
oblivious-transfer strings, choice bits and the block cipher are parameters of the methods, so every
result holds for all of them. The transfers themselves are ideal: the receiver learns the string its
choice bit names. Flat tables (`ot_output`, `correction_blocks`, the switch vector) are kept flat, with
the index arithmetic of the code, and viewed as levels of cells in contracts. The plain modulus and
the number of slots are constants without a value, so results hold for all of them; that the modulus
is prime, as batching demands, is a precondition where it matters.

Four things in the code turned out differently from what one would expect; each is stated exactly.

- `configure` accepts targets it has no way to reach; the plan can be run to the end if and only if
  every target that is not given is a sum of two targets (`PowersPlan.UsableIff`,
  `PowersPlan.UnreachableTargetAccepted`, `PowersValues.RunsToTheEndIff`). Every parameter set that
  `initialize` accepts meets this condition.
- `source_nodes` of a reconfigured object may report sources of an earlier plan, because `reset` keeps
  the nodes; it reports exactly the given powers if and only if no earlier source lies outside the new
  targets (`PowersDags.SourceNodesAreSources`, `PowersDags.StaleSourceReported`).
- With a Paterson-Stockmeyer low degree of 1 the forms of powers and coefficients do not match;
  evaluation succeeds if and only if the low degree is not 1 or the polynomial has degree at most 1
  (`BundleResult.ProcessBinBundleCache`).
- The first product that `mul_truncate` adds in its fourth column can overflow 128 bits, for example
  with all bits of both factors set (`TruncatedProduct.CarryLost`). For a given second factor no first
  factor makes it overflow if and only if the top word is not 2^64 - 1 or the other words carry at most
  2^65 - 2 into that column (`TruncatedProduct.AllFitIff`), which covers the four constants of the
  decomposition (`Endomorphism.CoordinatesFit`). What is lost otherwise is a multiple of 2^128, so the
  returned word is right for all factors (`TruncatedProduct.MulTruncate`).

## Model

| member | source | states |
|---|---|---|
| BenesNetwork.TopFits | common/apsu/permute/apsu_benes.cpp:63-72 | the top call's size fits the grid that is allocated: 2^(n-1) <= values <= 2^n |
| BenesNetwork.BoxesDisjoint | common/apsu/permute/apsu_benes.cpp:276-277 | the boxes of the two sub-networks are disjoint, inside the caller's box and strictly between its outer levels |
| BenesNetwork.UsedApart | common/apsu/permute/apsu_OSNReceiver.cpp:334-358 | no switch cell belongs to both halves, nor to a half and an outer level |
| BenesNetwork.ShuffleSide | common/apsu/permute/apsu_benes.cpp:109-109 | the bit formula of `shuffle` sends a wire to the lower half exactly when its parity equals its switch, and to which position |
| BenesNetwork.EvalLocal | common/apsu/permute/apsu_benes.cpp:280-376 | the network reads no switch outside its box |
| BenesNetwork.EvalMap | common/apsu/permute/apsu_benes.cpp:280-376 | where a wire goes depends on the switches alone: applying f before or after the network is the same, so a routed permutation moves any data |
| BenesColouring.Step | common/apsu/permute/apsu_benes.cpp:93-106 | one turn of the search: the popped wire has both partners inside the network, a wire popped again gets the colour it has and pushes nothing, a new one leaves fewer uncoloured wires |
| BenesColouring.ClosedIsProper | common/apsu/permute/apsu_benes.cpp:88-107 | when no coloured wire waits for a partner and all are coloured, input pairs and output pairs have different colours and an odd network's two ends have colour 1 |
| BenesColouring.ChainStart | common/apsu/permute/apsu_benes.cpp:196-205 | the search begun next to the unpaired last wire is in a consistent state |
| BenesColouring.FinishIsClosed | common/apsu/permute/apsu_benes.cpp:93-106 | an empty stack means a closed colouring; an open chain has met its far end with the right colour |
| BenesSplit.HalvesPermute | common/apsu/permute/apsu_benes.cpp:219-265 | the labels sent to each half and the labels expected from it are permutations of each other |
| BenesRouting.Benes.constructor | common/apsu/permute/apsu_benes.cpp:63-72 | sizes of the grid and of the working arrays |
| BenesRouting.Benes.Dfs | common/apsu/permute/apsu_benes.cpp:88-107 | the stack loop terminates, never leaves the network even for odd sizes, keeps every colour already given and leaves a closed colouring |
| BenesRouting.Benes.SetPermutation | common/apsu/permute/apsu_benes.cpp:181-188 | `perm` and `inv_perm` become the permutation from destination positions to source positions and its inverse |
| BenesRouting.Benes.Colour | common/apsu/permute/apsu_benes.cpp:194-211 | after the colouring stage `path` is a proper and complete two-colouring of all wires |
| BenesRouting.Benes.GenBenesRoute | common/apsu/permute/apsu_benes.cpp:112-278 | for every size and every permutation `dest` of distinct labels `src`, evaluating the network on the switches written sends `src` to `dest`; only cells of the call's box are written |
| BenesRouting.Benes.GenBenesEval | common/apsu/permute/apsu_benes.cpp:280-376 | the in-place evaluation computes the network's action `Eval`, for which routing, locality and naturality are proved |
| BenesRouting.Benes.RouteAndEval | common/apsu/permute/apsu_benes.cpp:112-376 | routing and then evaluating in place sends f(src) to f(dest), for every f |
| BenesRouting.Benes.GenBenesMaskedEvaluate | common/apsu/permute/apsu_benes.cpp:378-527 | the in-place masked evaluation computes `MaskedEval`, which `MaskedRefines` relates to plain evaluation |
| BenesRouting.Benes.ReturnGenBenesSwitches | common/apsu/permute/apsu_benes.cpp:529-542 | the flat switch vector holds every level in order: read back by rows it is the grid |
| MaskedNetwork.SwitchServed | common/apsu/permute/apsu_OSNReceiver.cpp:198-200 | one switch in either position turns masked inputs into outputs masked by message 0 applied to the input masks |
| MaskedNetwork.MaskedRefines | common/apsu/permute/apsu_benes.cpp:378-527 | refinement: on inputs xor masks, with the pair each switch bit calls for, masked evaluation is plain evaluation xor the output masks, whatever the switches are |
| MaskedNetwork.ServedCarries | common/apsu/permute/apsu_OSNSender.cpp:44-53 | a table holding message 1 everywhere serves any setting of the switches once straight ones take message 0 instead; only the call's own cells matter |
| CorrectionTables.FixCellFixes | common/apsu/permute/apsu_OSNReceiver.cpp:312-334 | the work on one switch keeps message 0, sets message 1 from the incoming masks and leaves the difference of the two messages 1 as correction |
| CorrectionTables.SwitchParts | common/apsu/permute/apsu_OSNReceiver.cpp:312-382 | the switches of a call are the disjoint union of its two levels and its two halves |
| CorrectionTables.StagesFinish | common/apsu/permute/apsu_OSNReceiver.cpp:312-392 | input level, upper half, lower half and output level compose to a finished call with the masks of `OutMasks` |
| CorrectionThreads.InvKept | common/apsu/permute/apsu_OSNReceiver.cpp:342-364 | a step of another thread keeps everything a call relies on |
| CorrectionThreads.StepKeeps | common/apsu/permute/apsu_OSNReceiver.cpp:312-392 | each step of a call under any schedule keeps the invariant, touches only the call's own switches and brings the end nearer |
| CorrectionThreads.RunKeeps | common/apsu/permute/apsu_OSNReceiver.cpp:342-364 | the same over whole runs; a schedule as long as the remaining work ends the call |
| CorrectionThreads.FinishedOnce | common/apsu/permute/apsu_OSNReceiver.cpp:194-393 | tables and masks of a finished call are determined by what it started from |
| CorrectionThreads.AnySchedule | common/apsu/permute/apsu_OSNReceiver.cpp:194-393 | every long enough schedule of the threads finishes with the same tables and masks as the single-threaded call |
| OsnReceiver.OSNReceiver.FixSwitch | common/apsu/permute/apsu_OSNReceiver.cpp:316-331 | the in-place work on one flat table entry is `FixCell` on that cell and changes no other |
| OsnReceiver.OSNReceiver.PrepareCorrection | common/apsu/permute/apsu_OSNReceiver.cpp:194-393 | for any size: message 0 of every switch kept, message 1 and correction of every switch set as its masks call for, other cells untouched, `src` left as the output masks |
| OsnReceiver.OSNReceiver.GenBenesClientOsn | common/apsu/permute/apsu_OSNReceiver.cpp:93-161 | input masks are the draws; tables and output masks are those of a finished top-level call on the expanded messages, in both transfer modes |
| OsnReceiver.OSNReceiver.RunOsn | common/apsu/permute/apsu_OSNReceiver.cpp:173-187 | what is sent is the inputs under their masks; the share is the output masks |
| OsnSender.OSNSender.constructor | common/apsu/permute/apsu_OSNSender.cpp:200-243 | the permutation is the one that the draws stand for, and the switches route it |
| Shuffles.EveryPermutation | common/apsu/permute/apsu_OSNSender.cpp:218-222 | every permutation is drawn by some draws with draws[i] <= i |
| Shuffles.OnlyOneWay | common/apsu/permute/apsu_OSNSender.cpp:218-222 | such draws give the same permutation only if they are the same |
| Shuffles.Settled | common/apsu/permute/apsu_OSNSender.cpp:218-222 | position i gets the label that stands at draws[i] mod i + 1 when its turn comes, and positions above are not touched again |
| Shuffles.DrawsName | common/apsu/permute/apsu_OSNSender.cpp:218-222 | the last position gets the label its draw names, and draws that name themselves give the identity |
| Shuffles.ShuffledPermutes | common/apsu/permute/apsu_OSNSender.cpp:218-222 | whatever the draws, the result is a permutation |
| OsnSender.OSNSender.GenBenesServerOsn | common/apsu/permute/apsu_OSNSender.cpp:13-55 | each switch's pair is the expanded block, corrected exactly where the switch is set |
| OsnSender.OSNSender.RunOsn | common/apsu/permute/apsu_OSNSender.cpp:57-79 | the share is the masked network on the received vector and the pairs laid out by level |
| Osn.ReceivedIsOwn | common/apsu/permute/apsu_OSNSender.cpp:20-42 | in both modes, with the bit-correction swap, the block received for a switch is the message its bit names |
| Osn.CorrectedServes | common/apsu/permute/apsu_OSNSender.cpp:44-53 | after correction a straight switch holds message 0 and a set one the required message 1 |
| Osn.SharesCancel | common/apsu/permute/apsu_OSNSender.cpp:77-78 | the two shares of position i cancel to the input at dest[i] |
| Osn.RunProtocol | common/apsu/permute/apsu_OSNSender.cpp:13-79 | end to end, for every size from two, permutation draw, inputs, masks, transfer strings and choice bits, in both modes: sender share xor receiver share = inputs[dest[i]], with dest the permutation drawn |
| PowersDags.PowersDag.Reset | common/apsu/powers.h:94-100 | everything but the nodes is cleared |
| PowersDags.PowersDag.Configure | common/apsu/powers.cpp:22-107 | true exactly for acceptable powers; then every node is the best choice among lower powers, the recorded depth is the largest, nodes outside the targets are as before; false changes nothing but the reset fields |
| PowersDags.PowersDag.OptimalNode | common/apsu/powers.cpp:62-95 | the inner loop finds a shallowest split, and the first guess survives only where it is sound |
| PowersDags.SeedSound | common/apsu/powers.cpp:62-66 | if a power has a split and none beats the unchecked first guess, the guess is such a split with that depth |
| PowersDags.PowersDag.SourceNodes | common/apsu/powers.cpp:133-147 | an error exactly on an unconfigured object, otherwise exactly the nodes without parents |
| PowersDags.SourceNodesAreSources | common/apsu/powers.cpp:133-147 | the reported powers are the given ones if and only if no earlier source lies outside the new targets |
| PowersDags.StaleSourceReported | common/apsu/powers.h:94-100 | a concrete reconfiguration after which a stale source is reported |
| PowersPlan.NoChoiceIsShallower | common/apsu/powers.cpp:52-106 | depth-optimality: no choice of parents for all powers gives any power a smaller depth than the recorded one |
| PowersPlan.RecordedDepth | common/apsu/powers.cpp:83-96 | the recorded parents are a choice, and the recorded depths are the depths it gives |
| PowersPlan.OnePlan | common/apsu/powers.cpp:62-95 | the plan is determined, ties included: of equally good splits the one kept is the first guess, else the one with the smallest first parent |
| PowersPlan.UsableIff | common/apsu/powers.cpp:52-100 | all recorded parents are targets that add up if and only if every power not given is a sum of two targets |
| PowersPlan.UnreachableTargetAccepted | common/apsu/powers.cpp:62-66 | source {1} with targets {1, 5} is accepted and leaves 5 with parents 4 and 1 |
| PowersDags.CreatePowersSet | common/apsu/util/utils.cpp:146-177 | errors on the two bad inputs; otherwise in ascending order exactly the low powers and the multiples of low + 1 up to the degree |
| PowersDags.ParametersPlan | common/apsu/psu_params.cpp:112-135 | accepted query powers are acceptable to `configure` and every target is reachable |
| PowersWorkers.StepKeeps | common/apsu/powers.h:159-267 | safety: every step of every worker keeps the invariant, and no computed node is undone |
| PowersWorkers.RunKeeps | common/apsu/powers.h:159-278 | the same over every schedule of any number of workers |
| PowersWorkers.OneOwner | common/apsu/powers.h:195-203 | a node being computed has exactly one owner |
| PowersWorkers.ParentsFirst | common/apsu/powers.h:242-259 | the node function of a non-source node starts only once both parents are computed and hold their values |
| PowersWorkers.RunOnce | common/apsu/powers.h:181-267 | the function never runs twice on a node; once a worker has returned it has run exactly once on each and all slots hold their values |
| PowersWorkers.ThrowsOrReturns | common/apsu/powers.h:226-233 | no worker throws on a usable plan, none returns on an unusable one |
| PowersProgress.AloneAdvances | common/apsu/powers.h:183-267 | a worker running alone gets nearer to the next node it will finish, publishes one, or returns |
| PowersProgress.CanFinish | common/apsu/powers.h:159-278 | from every reachable state of a usable plan some continuation lets every worker return |
| PowersFairness.StepLowers | common/apsu/powers.h:183-267 | what is left for a worker never grows, under any step of any worker, and shrinks when the holder of the first undone node moves, or the worker itself while that node is free |
| PowersFairness.FairEnds | common/apsu/powers.h:159-278 | from every reachable state of a usable plan with n nodes, every schedule that moves each worker in every m steps and has (n+1)((n+1)(n+11)+15) such windows lets all workers return |
| PowersValues.FairScheduleGivesPowers | common/apsu/powers.h:159-278 | every such schedule from the start ends with x^p in every slot p |
| PowersValues.RunsToTheEndIff | common/apsu/powers.h:159-278 | a configured plan has a run in which all workers return if and only if every target not given is a sum of two targets |
| PowersValues.ValueIsPower | receiver/apsu/receiver.cpp:474-494 | a usable plan on source powers gives every target p the value x^p |
| PowersValues.Apply | common/apsu/powers.h:143-152 | the sequential pass in ascending order computes the same values |
| PowersValues.EveryScheduleGivesPowers | receiver/apsu/receiver.cpp:471-494 | under every schedule, once a worker has returned every slot p holds x^p, as after the sequential pass |
| PlaintextPowers.ExponentiateArray | sender/apsu/plaintext_powers.cpp:67-84 | error exactly for exponent 0; otherwise every slot is its value to that power modulo the plain modulus |
| SlotVectors.SlotsLawful | sender/apsu/plaintext_powers.cpp:51-65 | vectors under slot-wise sums and products modulo the plain modulus are a commutative ring, so all results on encrypted values hold of them |
| SlotVectors.PowerOfEncoded | sender/apsu/plaintext_powers.cpp:67-84 | the encoded vector of powers is the power of the encoded vector |
| SourcePowers.ComputePowers | sender/apsu/plaintext_powers.cpp:86-93 | error exactly if some source is 0; otherwise exactly the sources are filled, each with the encoded values' power in the ring of slots |
| PolynomialEval.Eval | receiver/apsu/bin_bundle.cpp:106-164 | succeeds exactly when all operands match; then the result is the polynomial at x plus the random term, at the lowest level |
| PolynomialEval.EvalPatstock | receiver/apsu/bin_bundle.cpp:192-360 | the errors for too few powers and a bad low degree; otherwise, reading only low powers and multiples of low + 1, the same result as `eval` |
| PolynomialEval.PatstockTotal | receiver/apsu/bin_bundle.cpp:247-345 | the three groups of terms that are summed and the constant are the whole polynomial, for every coefficient vector |
| PolynomialEval.InnerPolynomial | receiver/apsu/bin_bundle.cpp:256-273 | the inner loop's value, and its success on operands in the right form |
| BundleResult.BatchCoefficients | receiver/apsu/bin_bundle.cpp:366-430 | one plaintext per degree up to the longest polynomial, of that coefficient over all bins, in the form its degree calls for |
| BundleResult.TransformPowers | receiver/apsu/receiver.cpp:495-542 | every target power ends in the form evaluation reads, no other slot is filled |
| BundleResult.PatstockIsGood | receiver/apsu/receiver.cpp:507-537 | prepared powers and batched coefficients fit Paterson-Stockmeyer in every operand |
| BundleResult.PlainReadyIff | receiver/apsu/receiver.cpp:576-587 | they fit plain evaluation if and only if not (low degree 1 and degree 2 or more) |
| BundleResult.ProcessBinBundleCache | receiver/apsu/receiver.cpp:576-588 | succeeds if and only if the low degree is not 1 or the degree is at most 1; then the value is the polynomial plus the random term; the two argument errors never occur |
| QueryRun.ComputePowers | receiver/apsu/receiver.cpp:454-543 | for accepted parameters and any schedule of the workers, the vector of powers is what evaluation needs |
| QueryRun.ValidParameters | common/apsu/psu_params.cpp:95-135 | what `initialize` accepts is what the plan needs |
| MatchingPolynomial.MulMonicMonomial | common/apsu/util/interpolate.cpp:27-56 | the right-to-left update in place multiplies by x - a: at every point the new value is congruent to the old one times x - a |
| MatchingPolynomial.PolynWithRoots | common/apsu/util/interpolate.cpp:63-80 | error exactly for modulus 0; otherwise one coefficient more than roots, reduced, with the value of the product of all x - a at every point |
| MatchingPolynomial.MatchIff | common/apsu/util/interpolate.cpp:58-62 | modulo a prime it is 0 exactly at the roots |
| BundleAnswer.TermsAtSlot | receiver/apsu/bin_bundle.cpp:393-418 | slot k of the polynomial over batched coefficients is bin k's own polynomial at slot k, whatever the other bins' lengths |
| BundleAnswer.RegenPolyns | receiver/apsu/bin_bundle.cpp:975-1003 | every bin gets the polynomial of its items |
| BundleAnswer.Answer | receiver/apsu/receiver.cpp:570-588 | for any bundle within the bin bound: fails if and only if the low degree is 1 and some bin holds two items; otherwise a slot of the result is the random value exactly where the bin holds the query's value; never for want of powers |
| QueryAnswer.AnswerQuery | receiver/apsu/receiver.cpp:454-588 | the same from the powers that were sent, under every schedule in which a worker returned |
| QueryAnswer.AllSourcesSent | sender/apsu/plaintext_powers.cpp:88-92 | every given power of the plan is among the sent ones |
| QueryAnswer.DatabaseStands | receiver/apsu/bin_bundle.cpp:116-118 | every bundle that insertion leaves meets what an answer needs, so the guard for too few powers is unreachable |
| QueryAnswer.SlotMatchedIff | receiver/apsu/receiver.cpp:576-588 | over all bundles of an index, some answer matches in slot k if and only if an inserted item put the query's value into bin k |
| QueryAnswer.InsertedItemMatches | receiver/apsu/receiver.cpp:576-588 | an inserted item that the query holds is matched whole by one bundle |
| FixedWindow.FixedWindowRecode | common/apsu/fourq/eccp2_no_endo.c:21-65 | for every odd scalar below 2^247: 63 table indices below 8 with signs, whose odd values to base 16 give the scalar; the residue ends at 1 |
| FixedWindow.SubtractDigit | common/apsu/fourq/eccp2_no_endo.c:45-54 | subtracting a window's digit over the four words never borrows or carries out of a word |
| FixedWindow.EccPrecomp | common/apsu/fourq/eccp2_no_endo.c:67-92 | the table is P, 3P, ..., 15P |
| FixedWindow.EccMul | common/apsu/fourq/eccp2_no_endo.c:139-156 | the loop computes k P |
| FixedBase.MLsbSetRecode | common/apsu/fourq/eccp2_core.c:455-513 | for every odd scalar below 2^247 the signed digits of the five rows add up to it, bits are 0 or 1, and the carry left is 0 |
| FixedBase.BoundNext | common/apsu/fourq/eccp2_core.c:488-511 | the scalar halves with every digit despite the carry, and the positive last column forces it to 0 |
| FixedBaseComb.ColumnsNumber | common/apsu/fourq/eccp2_core.c:455-513 | the sum over columns of sign times (1 + the four rows' bits at their weights) is the scalar |
| FixedBaseComb.StepIsNumber | common/apsu/fourq/eccp2_core.c:411-445 | the comb's order of doublings and lookups adds up to the columns' number |
| FixedBaseComb.EccMulFixed | common/apsu/fourq/eccp2_core.c:385-446 | with the table's meaning given, the nested loops compute k G |
| TruncatedProduct.MulTruncate | common/apsu/fourq/eccp2.c:256-280 | for all four-word factors the result is floor(s C / 2^256) mod 2^64; a carry is lost at line 271 exactly when the carry into the fourth column and the product do not fit 128 bits |
| TruncatedProduct.AccumulatorIsTwo | common/apsu/fourq/eccp2.c:258-270 | what the accumulator holds before line 271 is the carry of the first three columns, and it is at most 3 * 2^64 - 4 |
| TruncatedProduct.CarryLost | common/apsu/fourq/eccp2.c:271-271 | with all bits of both factors set the sum overflows 128 bits |
| TruncatedProduct.AllFitIff | common/apsu/fourq/eccp2.c:271-271 | the sum fits for every first factor if and only if the second factor's top word is not 2^64 - 1 or its other words carry at most 2^65 - 2 from the largest first factor |
| Endomorphism.CoordinatesFit | common/apsu/fourq/eccp2.c:60-63 | none of the four calls that `decompose` makes loses a carry, for any scalar |
| Endomorphism.Decompose | common/apsu/fourq/eccp2.c:290-341 | for every four-word scalar the four sub-scalars are words, the first one odd, and s0 + s1 LPHI + s2 LPSI + s3 LPHI LPSI is the scalar modulo the group order |
| Endomorphism.Reduces | common/apsu/fourq/eccp2.c:325-336 | the 64-bit arithmetic loses nothing: the sub-scalars are the exact combinations of the rounded coordinates |
| ScalarLattice.NearFits | common/apsu/fourq/eccp2.c:38-63 | with the offset vector, the rounding leaves all four combinations between 0 and 2^64, moved or not, for every scalar below 2^256 |
| ScalarLattice.NearStandsFor | common/apsu/fourq/eccp2.c:38-58 | whatever multiples of the basis vectors are taken off, the combinations with the offset stand for the scalar modulo the order |
| ScalarLattice.LatticeVectors | common/apsu/fourq/eccp2.c:38-58 | the eigenvalues send every basis vector and the offset to a multiple of the order |
| Endomorphism.Recode | common/apsu/fourq/eccp2.c:397-432 | for any four 64-bit sub-scalars, the first odd: 65 signed indices in [0,7] that give back all four at once |
| Endomorphism.EccPrecomp | common/apsu/fourq/eccp2.c:354-395 | entry d is P plus the images of P that the bits of d name |
| Endomorphism.EccMul | common/apsu/fourq/eccp2.c:434-478 | k P for every scalar, if P has the curve's order and phi and psi act by their eigenvalues; in any case the sum of the four sub-scalars times the images |
| DoubleBase.WNafRecode | common/apsu/fourq/eccp2_core.c:725-761 | for every 64-bit scalar and both widths: digits add up to it, are 0 or odd and below 2^(w-1), any w in a row hold at most one nonzero, and index 64 is never passed |
| DoubleBase.DigitOff | common/apsu/fourq/eccp2_core.c:740-751 | the digit taken off an odd number is odd and small, and a rest that is not 0 has w bits less, which bounds the index |
| DoubleBase.EccPrecompDouble | common/apsu/fourq/eccp2_core.c:702-723 | the table holds the odd multiples of the point |
| DoubleBase.Interleaved | common/apsu/fourq/eccp2_core.c:595-680 | one doubling and one digit per track and bit give the sum of all scalars times their points |
| DoubleBase.EccMulDouble | common/apsu/fourq/eccp2_core.c:538-680 | k G + l Q for all scalars under the same conditions; in any case the sum of the eight sub-scalars times the images |
| SlidingWindow.SlidingWindowPower | common/apsu/fourq/crypto_util.c:141-216 | for every exponent m that is not 0 the loop ends with a^m and no bit left |
| SlidingWindow.WindowFits | common/apsu/fourq/crypto_util.c:193-201 | a window never takes more bits than are left, even at the end |
| SlidingWindow.SkipZeros | common/apsu/fourq/crypto_util.c:169-177 | the first loop stops at the exponent's top bit |
| SlidingWindow.OddPowers | common/apsu/fourq/crypto_util.c:161-167 | the table holds a, a^3, ..., a^31 |
| Words.ShiftRight | common/apsu/fourq/eccp2_core.c:470-474 | the word-by-word shift with xor divides the four-word value |
| Words.AddBit | common/apsu/fourq/eccp2_core.c:501-510 | the carry chain adds one bit to the four-word value |
| Parameters.Initialize | common/apsu/psu_params.cpp:95-180 | accepts exactly the valid parameters and then derives the sizes with the divisibility that placement needs |
| Parameters.NoStraddle | receiver/apsu/receiver_db.cpp:79-92 | no item's field elements reach past the bundle where the item starts, and that bundle exists |
| Placement.InsertAllBounded | receiver/apsu/receiver_db.cpp:266-279 | every bin stays within max(1, max_bin_size - 1) through any number of insertions |
| Placement.InsertAllHeld | receiver/apsu/receiver_db.cpp:213-322 | conservation: the bundles of an index hold, bin by bin with multiplicity, what they held before and what was inserted there |
| Placement.InsertAllStores | receiver/apsu/receiver_db.cpp:232-318 | every inserted item is stored whole in one bundle at its index, element j in bin start + j |
| BinBundles.BinBundle.MultiInsert | receiver/apsu/bin_bundle.cpp:476-610 | -1 and no change exactly when the item may not be inserted, which for a labelled bundle with room and without repeats means that some bin would repeat an element; otherwise the largest bin size reached, and the insertion unless it is a dry run |
| BinBundles.InsertItem | receiver/apsu/receiver_db.cpp:248-317 | a bundle is added if and only if every bundle has no room at the bins, or (labelled) holds an element in its bin already, or has a touched bin of size maxBinSize - 1 or more; otherwise exactly one bundle changes, the last that does not refuse; the error needs an item without room even in a new bundle |
| BinBundles.InsertWorker | receiver/apsu/receiver_db.cpp:213-322 | the worker inserts the data of its index in order, fails exactly on an item that all bundles refuse and a new one has no room for, and never fails on placed data |
| BundleChoice.TakesIff | receiver/apsu/receiver_db.cpp:270-277 | the dry run comes out below the limit exactly when no reason to refuse applies |
| BundleChoice.Opener | receiver/apsu/receiver_db.cpp:232-318 | through any number of insertions, each added bundle was opened by an item that all earlier bundles refused |
| BundleChoice.InsertAllUnrepeated | receiver/apsu/bin_bundle.cpp:562-586 | labelled bundles in which no bin repeats an element stay so through any number of insertions |
| BundleChoice.ClashIff | receiver/apsu/bin_bundle.cpp:568-586 | the search for elements already present finds one exactly when appending would make a bin repeat an element |
| InsertDispatch.Preprocess | receiver/apsu/receiver_db.cpp:148-191 | as many entries as there are locations, and each entry as often as there are pairs of an item and a location that give it |
| PreprocessedData.CopiesInserted | receiver/apsu/receiver_db.cpp:176-184 | after insertion into an empty index a bin holds an element once for every item and location that put it there |
| InsertDispatch.PreprocessedPlaced | receiver/apsu/receiver_db.cpp:176-184 | preprocessed data have room in existing bundles |
| InsertDispatch.Dispatch | receiver/apsu/receiver_db.cpp:330-392 | every bundle index ends with what its worker makes of it, those without data unchanged |
| InsertDispatch.PassIsWorkers | receiver/apsu/receiver_db.cpp:366-389 | one sequential pass over all data leaves at every index what the worker of that index leaves |
| InsertDispatch.AnyInterleaving | receiver/apsu/receiver_db.cpp:366-389 | any interleaving of the workers, once all are through, leaves the result of one sequential pass |
| InsertDispatch.EnoughTurns | receiver/apsu/receiver_db.cpp:330-392 | from the start: every schedule that gives each worker with data as many turns as there are data leaves the result of one sequential pass |
| InsertDispatch.EnoughPowers | receiver/apsu/bin_bundle.cpp:116-118 | within the bin bound a batched polynomial is never longer than the vector of powers, so the guard is unreachable |

## Left out

- CorrectionThreads.StepKeeps: a thread's read and write of one switch's own table entry are one step, and the two- and three-wire calls are one step, because no other thread touches those cells; the `cpus` counter only selects among the schedules covered.
- BenesRouting.Benes.constructor: 1.27 * values is written 127 * values / 100, and ceil(log2(v)) is computed exactly instead of in floating point.
- OsnSender.OSNSender.RunOsn: the rows of the pair matrix are as wide as they are used, half of what the code allocates.
- PowersWorkers.StepKeeps: the loads inside `all_of` are separate steps; the thread pool and the futures are not part of this model.
- PowersDags.CreatePowersSet: powers are unbounded integers; the wrap-around of 32-bit counters near 2^32 is not modelled.
- PolynomialEval.EvalPatstock: relinearisation and modulus switching keep the value; ciphertext sizes, noise and the clearing of low bits of a result are not modelled.
- BundleResult.BatchCoefficients: encoding a column of coefficients as one plaintext is a parameter; compression and serialisation are not modelled.
- FixedWindow.EccMul: reduction modulo the order, conversion to odd and point validation come before the modelled loop; mask-and-select bit tricks are written as conditionals.
- FixedBaseComb.EccMulFixed: reduction modulo the order and conversion to odd come before the modelled loops; the meaning of the precomputed table is a precondition; the same holds for the table of DoubleBase.EccMulDouble.
- Endomorphism.EccMul: that phi and psi act on points of the curve's order by the eigenvalues is a condition; point formulas, validation and cofactor clearing are not part of this model.
- SlidingWindow.SlidingWindowPower: Montgomery multiplication is the ring's product, and the exponent is given as four words; that it is the order minus 2 is not used.
- BinBundles.BinBundle.MultiInsert: the cuckoo filter is taken to have no false negatives, so membership is that of the bin; label parts are not stored, only the rule that labelled bins hold no element twice; stripped bundles and mismatched label sizes are not modelled.
- Parameters.Initialize: the checks that SEAL makes on its own parameters are not modelled; products are unbounded integers.
- BinBundles.InsertItem: the overwrite mode, which first looks for the item in the bundles, is not modelled.
- BinBundles.InsertWorker: the overwrite mode and the labels it writes are not modelled.
- InsertDispatch.Dispatch: overwriting labels and removal are not modelled; hash functions are given as the locations of every item; the tasks run one after the other, and their interleavings are those of InsertDispatch.EnoughTurns.
- Label polynomials are computed next to the matching ones but never evaluated for a query; their interpolation is not part of this model.
- Networks of one wire, loading and dumping routed switches, and the power-of-two variant of the switch vector are not part of this model.
- Homomorphic encryption, oblivious transfer, hashing to the curve, point formulas, channels and message formats are represented by the algebra they implement or left out.
