# The folded-R1CS argument, its tables and its integers

A model of the transparent algebra under Jolt's prover, with proofs.

- **BlindFold.** A witness is laid out as a grid of committed rows, its product
  variables are solved, the satisfied instance is folded with a random relaxed
  one, an outer (cubic) and an inner (quadratic) sumcheck run over the fold, and
  committed rows are opened. `Prover.Prove` and `Verifier.Verify` are the two
  sides. Completeness holds for every challenge function when the outputs come
  first among the opened slots; with two or more final openings the two sides
  absorb the openings in different orders and an honest proof is rejected under
  some challenge function (`Rejection`). `Acceptance` gives the equations a proof
  that opens the folded grids is accepted on, `Tampering` what moving one part of
  an accepted proof does, `Absorption` what the transcript tells apart, and
  `Hiding` the draws that make one witness look like another.
- **Multilinear tables.** Every builder of an eq, eq-plus-one or less-than table
  is proved against one independent reference, binding against evaluation, and
  row folds of dense, one-hot and combined sources against evaluation.
- **The two-phase precommitted reduction**, over every schedule of active and
  inactive rounds and across the hand-over between the phases.
- **Multi-limb and sign-magnitude integers**, with their truncation.

## How things are modelled

A field element is an integer up to `Same`, equality of the canonical
reduction; a `Field` is a reduction and an inverse that satisfy the laws
`Fields.IsField`, and `PrimeFields.PrimeFieldIsField` proves those laws for the
integers modulo every prime. Group elements are treated alike, and a vector
commitment is any linear map of values and blinding. The transcript is a log of
absorbed items with an arbitrary function from logs to challenges; scalars and
commitments are absorbed by their canonical encoding. What the prover draws from
its generator is the parameter `Randomness`. `from_evals` is interpolation on the
nodes 0..d. Sumcheck interpolation needs the nodes distinct in the field
(`NodesDistinct`); the reduction needs two to be invertible.

Round commitments, output-claim commitments, coefficient rows and claim rows are
listed stage after stage. Rust's vectors that are resized or reassigned are
sequences in class fields; buffers of fixed size are arrays. Limbs are 64 bits
wide and every carry, borrow and truncation is written out; elsewhere integers
are unbounded.

The prover and the verifier each absorb the openings in the order its code has
(crates/jolt-blindfold/src/prove.rs:527-542 against
crates/jolt-blindfold/src/verify.rs:289-353), although the two are meant to agree.
The verifier also absorbs the opened witness row at the very end
(crates/jolt-blindfold/src/verify.rs:497-502), which the prover does not: the two
transcripts are equal up to the last challenge and end one opening apart.

## Model

| member | source | states |
|---|---|---|
| Prover.Prove | crates/jolt-blindfold/src/prove.rs:178-648 | for all randomness and every challenge function an honest witness on nondegenerate dimensions is proved, and, when the outputs come first among the slots, the proof is accepted and the verifier's transcript ends exactly the opened witness row after the prover's |
| Prover.Completeness | crates/jolt-blindfold/src/prove.rs:178-648 | every successful run from an honest witness meets everything the verifier checks, on the verifier's own transcript, when the outputs come first |
| Prover.HonestFolding | crates/jolt-blindfold/src/prove.rs:437-482 | for every folding challenge: the instance the verifier folds opens to the folded rows, errors and evaluations, every final opening stays alone in its row, and the folded error rows are the exact residuals |
| Prover.FoldedErrorsExact | crates/jolt-blindfold/src/prove.rs:1211-1340 | the residual of every constraint on the folded grid is its folded error entry, and the padding of the error grid is zero |
| Prover.PrepareMask | crates/jolt-blindfold/src/prove.rs:224-295 | the random grid is as drawn, but zero in padding rows and with each final opening's drawn scalar alone in its unblinded row |
| Prover.AbsorptionOrder | crates/jolt-blindfold/src/prove.rs:527-542 | the prover's grouped absorption of the openings equals the verifier's slot order if and only if no blinding slot comes before an output slot |
| Prover.ChallengesAgree | crates/jolt-blindfold/src/prove.rs:527-544 | after the openings both transcripts give the same next challenge for every challenge function if and only if the outputs come first |
| Rejection.HonestProofRejected | crates/jolt-blindfold/src/verify.rs:289-353 | when the outputs do not come first, and the first and last witness rows commit to different elements, an honest proof is not accepted under the challenge function that tells the two absorption orders apart |
| Rejection.AcceptedAlwaysIff | crates/jolt-blindfold/src/verify.rs:22-48 | for such a witness every run is accepted under every challenge function if and only if the outputs come first |
| Rejection.AtMostOneOpening | crates/jolt-blindfold/src/protocol.rs:182-201 | with both variables of every final opening allocated, the outputs come first if and only if there is at most one final opening |
| Rejection.TwoOpeningsRejected | crates/jolt-blindfold/src/prove.rs:498-542 | for every field, a concrete well-formed protocol with two final openings and an honest witness whose proof is made and rejected |
| Verifier.Verify | crates/jolt-blindfold/src/verify.rs:22-48 | no error is returned exactly when the folded evaluations, the slot openings, the outer and the inner check all hold on the challenges the log gives, and the log then ends with the opened witness row; a sumcheck error means that everything before that sumcheck is accepted |
| Verifier.VerifyOuter | crates/jolt-blindfold/src/verify.rs:129-218 | accepts exactly when the outer check holds; bad dimensions, bad rounds and a wrong final claim are each reported exactly on their own cause, the first that applies |
| Verifier.VerifyInner | crates/jolt-blindfold/src/verify.rs:419-511 | the same for the inner check, and leaves the log with the opened witness row at its end |
| Acceptance.AcceptsIff | crates/jolt-blindfold/src/verify.rs:22-511 | a proof that opens the folded grids as they are is accepted if and only if its scalars open the evaluation commitments, each scalar is in its variable and alone in its row, the outer replay ends on eq times (az bz - u cz - error) and the inner replay on the column form times the witness, all as extensions at the replayed points |
| Acceptance.BindingsAcceptedIff | crates/jolt-blindfold/src/verify.rs:249-358 | for the rows' own openings the bindings are accepted if and only if every final opening's evaluation and blinding variable holds its scalar and all other entries of its row are zero |
| Acceptance.SlotAcceptedIff | crates/jolt-blindfold/src/verify.rs:360-411 | whatever the opening, a slot is accepted if and only if the opening opens that row's own commitment, fits the setup, holds the expected scalar at the column and zero elsewhere |
| Tampering.InnerRoundMoved | crates/jolt-blindfold/src/verify.rs:419-511 | any coefficient of any inner round of an accepted proof moved by d, under a challenge constant from the sumchecks on: accepted if and only if d times the coefficient's weight times the later challenges is zero |
| Tampering.LastConstantMoved | crates/jolt-blindfold/src/verify.rs:488-495 | the last inner round's constant coefficient moved by anything nonzero is rejected unless the challenge is one half |
| Tampering.OuterRoundMoved | crates/jolt-blindfold/src/verify.rs:129-218 | the same if and only if for every coefficient of every outer round, the inner phase replayed after the moved round |
| Tampering.ProductsMoved | crates/jolt-blindfold/src/verify.rs:129-218 | for every challenge function, other claimed products are accepted only if the outer summand takes the same value on them |
| Tampering.BlindingMoved | crates/jolt-blindfold/src/verify.rs:480-486 | the opened witness row's blinding moved by d: accepted if and only if d times the blinding generator is zero |
| Tampering.ErrorBlindingMoved | crates/jolt-blindfold/src/verify.rs:129-218 | the opened error row's blinding moved by d: accepted, whatever answers afterwards, only if d times the blinding generator is zero |
| Tampering.AcceptedRounds | crates/jolt-blindfold/src/verify.rs:129-218 | acceptance forces one round per grid variable, at least one variable, and at most three stored coefficients in outer and two in inner rounds |
| Absorption.ScalarsTell | crates/jolt-blindfold/src/prove.rs:1126-1135 | whatever follows, two labelled lists are absorbed alike if and only if they are equal in the field, value by value |
| Absorption.FoldLogTells | crates/jolt-blindfold/src/prove.rs:408-435 | the transcripts the folding challenge is drawn from are equal if and only if every commitment of the two proofs is |
| Absorption.ChallengeTells | crates/jolt-blindfold/src/prove.rs:967-972 | a round's challenge is the same under every challenge function if and only if all rounds up to and including it are the same |
| Absorption.AcceptedLogTells | crates/jolt-blindfold/src/verify.rs:22-48 | two accepted proofs leave the same transcript if and only if they agree in every commitment, slot opening, round, claimed product and grid opening |
| Absorption.ChallengesFree | crates/jolt-blindfold/src/prove.rs:545-551 | challenges drawn in a row are independent: some challenge function gives any vector |
| Hiding.OtherWitness | crates/jolt-blindfold/src/prove.rs:224-482 | for two honest witnesses of the same row commitments, any draws for one and any nonzero folding challenge, the other has draws under which the commitments, the challenge and everything folded (rows, errors, scalars, blindings) are the same |
| Hiding.ZeroMasksNothing | crates/jolt-blindfold/src/prove.rs:437-482 | under a zero folding challenge two foldings agree only if the witness grids do |
| Verifier.VerifyBindings | crates/jolt-blindfold/src/verify.rs:249-358 | accepts exactly when every slot's opening verifies at the slot's vertex to the folded scalar with nothing else in its row; absorbs the openings in slot order; otherwise names a missing or extra opening or the first slot that is not accepted |
| BuiltRuns.SlotsHoldWhenBuilt | crates/jolt-blindfold/src/r1cs.rs:229-246 | for a built protocol and any assignment that keeps the padding, every final opening's slot holds its scalar alone in its row |
| BuiltRuns.BuiltCompleteness | crates/jolt-blindfold/src/protocol.rs:75-107 | completeness from the layout up: with at most one named final opening every run from a sliced satisfying assignment of a built protocol is accepted |
| BuiltRuns.NamedOrder | crates/jolt-blindfold/src/r1cs.rs:229-246 | the slots of a layout are in output-first order if and only if at most one final opening is named |
| Built.BuiltIsWellFormed | crates/jolt-blindfold/src/protocol.rs:75-107 | every protocol assembled from a layout meets what the prover asks of one: power-of-two grids that hold all variables and constraints, and final openings in distinct auxiliary rows |
| Built.DimensionsFit | crates/jolt-blindfold/src/protocol.rs:446-513 | the dimensions of every layout exist, are powers of two, and hold every variable and constraint |
| Built.RangesPartition | crates/jolt-blindfold/src/protocol.rs:530-557 | the four row ranges exist exactly when their rows fit, and then follow one another from row zero to the last row |
| Protocol.CoordinateExists | crates/jolt-blindfold/src/protocol.rs:203-234 | a variable has a coordinate exactly when it is one of the grid's entries |
| Protocol.CoordinateNamesEntry | crates/jolt-blindfold/src/protocol.rs:203-234 | a variable's coordinate is inside the grid and names its entry of the flattened grid |
| Protocol.FoldOpens | crates/jolt-blindfold/src/relaxed.rs:35-198 | folded commitments open to the folded rows and blindings |
| Protocol.FoldErrorOpens | crates/jolt-blindfold/src/relaxed.rs:35-198 | the three-term fold of error commitments opens to the folded error rows and blindings |
| R1cs.FoldSatisfiesIff | crates/jolt-blindfold/src/prove.rs:1276-1340 | with the computed error and cross vectors the fold satisfies the relaxed relation, for any one challenge, if and only if the first witness does |
| R1cs.FoldVectorsUnique | crates/jolt-blindfold/src/prove.rs:1276-1340 | error and cross vectors for which the fold satisfies the relation at three distinct challenges are exactly the computed ones |
| R1cs.ProjectMatrixColumns | crates/jolt-blindfold/src/prove.rs:1027-1050 | the in-place projection adds the weighted column form of the matrix, for rows with repeated columns and rows of zero weight alike |
| R1cs.InnerClaim | crates/jolt-blindfold/src/prove.rs:600-604 | the combination of the three products without their public column is the dot product of the projected column form with the witness |
| Sumcheck.ProveOuterRounds | crates/jolt-blindfold/src/prove.rs:805-911 | the outer rounds succeed exactly when the initial sum is zero, so only round zero can fail; the compressed rounds replay to the summand of the tables' extensions at the challenge point |
| Sumcheck.ProveInnerRounds | crates/jolt-blindfold/src/prove.rs:913-986 | the inner rounds succeed exactly when the claim is the dot product, and replay to the product of the two extensions at the challenge point |
| Sumcheck.OuterRound | crates/jolt-blindfold/src/prove.rs:840-890 | along the bound variable the sum over the remaining hypercube is a cubic whose ends add up to the whole sum |
| Sumcheck.RoundMovesClaim | crates/jolt-poly/src/compressed_univariate.rs:91-101 | replaying a compressed round from the claim it sums to gives the round polynomial's value at the challenge |
| Compressed.DecompressRoundTrip | crates/jolt-poly/src/compressed_univariate.rs:57-118 | decompressing with a hint and compressing is the identity, and the decompressed polynomial's ends add up to the hint |
| Compressed.HintEvalRecovers | crates/jolt-poly/src/compressed_univariate.rs:57-101 | with the sum of its ends as hint a compressed polynomial evaluates as the original everywhere |
| Compressed.EvalFromHint | crates/jolt-poly/src/compressed_univariate.rs:91-101 | the running powers add up to the decompressed polynomial's value |
| RowCommitment.OpenCommittedRows | crates/jolt-crypto/src/commitment.rs:66-109 | succeeds exactly on matching shapes; the value is the matrix's extension at the joined point, missing trailing entries read as zero |
| RowCommitment.OpeningVerifies | crates/jolt-crypto/src/commitment.rs:111-150 | the opening of a row-committed matrix verifies, and the verifier returns the matrix's extension at the joined point |
| RowCommitment.OpeningAtVertex | crates/jolt-crypto/src/commitment.rs:328-350 | at a Boolean row point the opening is that row and its blinding |
| RowCommitment.CombineRows | crates/jolt-crypto/src/commitment.rs:328-350 | the accumulated vector is the weighted combination of the rows cut from the flat entries |
| Matrices.MatrixMle | crates/jolt-crypto/src/commitment.rs:66-109 | combining rows by the row point and evaluating at the entry point is evaluating the flattened matrix at the joined point |
| Layouts.AllocateLayout | crates/jolt-blindfold/src/r1cs.rs:161-246 | succeeds exactly when every stage has its number of rounds within its degree bound, and then every coefficient row, claim row, claim chain and final opening is where the grid expects it |
| Layouts.Builder.AllocPrivateScalar | crates/jolt-blindfold/src/r1cs.rs:248-264 | the new variable is unknown, starts a row, and the rest of its row is zero |
| Layouts.NextPow2Least | crates/jolt-blindfold/src/r1cs.rs:266-289 | the row length is the least power of two that is long enough |
| Layouts.ValidateUniqueOpenings | crates/jolt-blindfold/src/protocol.rs:338-358 | accepts exactly when all opening and alias ids are distinct and every alias's source comes before it |
| Layouts.ValidateClaimRows | crates/jolt-blindfold/src/protocol.rs:360-418 | accepts exactly when the rows are as many as the ids need and hold them all |
| Layouts.TakenUnknown | crates/jolt-blindfold/src/r1cs.rs:291-320 | id p of a stage is at row p / len, column p % len of its claim rows, in an unknown slot, never padding |
| Layouts.ClaimSlotsAre | crates/jolt-blindfold/src/r1cs.rs:291-320 | in a finished layout the slot of place p of a stage's claim rows is unknown up to the stage's ids and zero after them |
| Layouts.WitnessRowLenLeast | crates/jolt-blindfold/src/r1cs.rs:266-289 | no power of two that holds every coefficient row and every claim row is shorter than the row length |
| Layouts.ClaimRowsExact | crates/jolt-blindfold/src/protocol.rs:360-418 | claim rows are accepted if and only if they hold all ids and one row fewer would not, or there is nothing to hold |
| Layouts.InsertSources | crates/jolt-blindfold/src/r1cs.rs:322-354 | for an accepted statement it never fails: opening p of stage i resolves to variable 1 + (coefficient rows + claim rows of earlier stages + p / len) * rowLen + p % len, an unknown slot, and every alias to its source's variable |
| Assignment.SolveProducts | crates/jolt-blindfold/src/assignment.rs:328-368 | fails exactly when some product's operand is not known before it, on such a product; no assigned slot changes; on success every slot that a row defines as a product is known, an unassigned one as the product of its first such row's two evaluated rows |
| Assignment.NothingUnknown | crates/jolt-blindfold/src/assignment.rs:308-368 | after a successful pass no slot is unknown if every slot that no product defines was given |
| Assignment.SolutionUnique | crates/jolt-blindfold/src/assignment.rs:328-368 | every full satisfying assignment that extends the input agrees with it on every filled slot |
| Assignment.EmissionOrderSolvable | crates/jolt-blindfold/src/assignment.rs:318-368 | in the builder's emission order no operand is missing |
| Assignment.SliceRows | crates/jolt-blindfold/src/assignment.rs:256-305 | the rows are the witness without its constant, cut at the row length and padded with zeros to the grid |
| Assignment.SlicesFlattenBack | crates/jolt-blindfold/src/assignment.rs:256-305 | flattening the grid gives the witness back, zeros after it |
| Interpolation.InterpolateToCoeffs | crates/jolt-poly/src/lagrange.rs:567-608 | for any start and any number of values the coefficients take value k at node k |
| Interpolation.InterpolateCoeffsCentered | crates/jolt-poly/src/lagrange.rs:394-453 | the fixed-size routine interpolates on the centred nodes, with one inversion for all denominators |
| Interpolation.InterpolantUnique | crates/jolt-poly/src/lagrange.rs:567-608 | two polynomials of one length that agree on as many distinct nodes agree everywhere |
| Lagrange.LagrangeEvals | crates/jolt-poly/src/lagrange.rs:20-64 | dotted with any values the weights give every interpolant of them at the point, at a node or off the nodes |
| Dense.Polynomial.BindWithOrder | crates/jolt-poly/src/dense.rs:191-274 | binding either end of the variable order fixes that coordinate of every evaluation |
| Dense.Polynomial.EvaluateAndConsume | crates/jolt-poly/src/dense.rs:383-394 | binding all variables first to last leaves the value of the extension |
| EqTables.Evaluations | crates/jolt-poly/src/eq.rs:50-98 | the doubling from the back builds the eq table |
| EqTables.EvalsSerial | crates/jolt-poly/src/eq.rs:299-314 | the serial in-place builder gives the scaled eq table |
| EqTables.EvalsFourWay | crates/jolt-poly/src/eq.rs:374-458 | the four-way builder gives the same scaled table, for an even or odd number of variables |
| EqTables.EvalsCached | crates/jolt-poly/src/eq.rs:322-340 | table j is the scaled eq table of the first j coordinates |
| EqTables.EvalsCachedRev | crates/jolt-poly/src/eq.rs:346-366 | table j is the scaled eq table of the last j coordinates |
| EqBlocks.EqIndexMsb | crates/jolt-poly/src/eq.rs:131-147 | the running product is the eq table's entry at the index, bits past the arity ignored |
| EqBlocks.AlignedBlock | crates/jolt-poly/src/eq.rs:238-262 | the block's table is the eq table's slice at the start |
| EqBlocks.MaxAlignedBlock | crates/jolt-poly/src/eq.rs:270-295 | the chosen size fits and divides the start, and the table is the eq table's slice there |
| EqBlocks.ShiftedEqSlice | crates/jolt-kernels/src/optimized/precommitted_reduction.rs:194-212 | walking maximal aligned blocks gives the eq table's entries in order from any start, around its end |
| EqBlocks.RangeMask | crates/jolt-poly/src/mle.rs:89-111 | fails exactly on an empty or out-of-domain range or too many variables; the value is the sum of the eq table over the range |
| EqBlocks.LessThanMle | crates/jolt-poly/src/mle.rs:113-128 | the two accumulators end at the sum of the eq table below the bound |
| EqBlocks.BlockSelector | crates/jolt-poly/src/mle.rs:45-87 | fails exactly on a block that is too large, unaligned or out of domain; the value is the sum of the eq table over the block |
| EqPlusOne.Evals | crates/jolt-poly/src/eq_plus_one.rs:71-119 | the strided in-place build gives the scaled eq table and, beside it, the scaled eq table moved up by one with zero in front |
| EqPlusOne.FillOdd | crates/jolt-poly/src/eq_plus_one.rs:96-101 | one bit's pass writes each odd multiple of the half step once and no other slot of the stride |
| EqPlusOne.EvaluateIsMle | crates/jolt-poly/src/eq_plus_one.rs:37-62 | the sum of products is the extension of that table at every field point |
| EqPlusOne.EvaluateSplit | crates/jolt-poly/src/eq_plus_one.rs:121-148 | for every split of the point: the low part moves and the high part stays, or the low part wraps and the high part moves |
| EqPlusOne.NewPrefixSuffix | crates/jolt-poly/src/eq_plus_one.rs:149-169 | the two rank-one terms add up to eq-plus-one at every field point |
| LessThan.LtEvals | crates/jolt-poly/src/lt.rs:144-157 | the in-place doubling builds the less-than table |
| LessThan.LtTableIs | crates/jolt-poly/src/lt.rs:144-157 | entry j of that table is the sum of the eq table over all greater indices |
| LessThan.Evaluate | crates/jolt-poly/src/lt.rs:125-134 | the two accumulators end at the recursive point formula |
| LessThan.LtAtIsMle | crates/jolt-poly/src/lt.rs:125-134 | the point formula is the table's extension at every field point |
| LessThan.LtPolynomial.constructor | crates/jolt-poly/src/lt.rs:50-62 | the three small tables stand for exactly the full table, for an even or odd number of variables |
| LessThan.LtPolynomial.Bind | crates/jolt-poly/src/lt.rs:100-109 | binding the split form binds the table it stands for, through both phases |
| LessThan.LtPolynomial.BindAll | crates/jolt-poly/src/lt.rs:100-134 | binding every variable leaves the value of the point formula at the challenges |
| Sources.FoldThenDot | crates/jolt-poly/src/multilinear.rs:107-117 | folding rows by eq weights and dotting with eq weights is evaluating at the joined point |
| Sources.FoldHot | crates/jolt-poly/src/one_hot.rs:185-195 | the sparse fold is the fold of the one-hot table, in both index orders |
| Sources.FoldHotByRows | crates/jolt-poly/src/one_hot.rs:159-181 | the default fold over the rows handed out gives the same |
| Sources.EvaluateHot | crates/jolt-poly/src/one_hot.rs:147-157 | the eq entries of the hot places add up to the one-hot table's extension |
| Sources.FlatIndexInjective | crates/jolt-poly/src/one_hot.rs:133-138 | in both orders distinct hot entries have distinct places inside the table |
| Sources.HotMeaning | crates/jolt-poly/src/one_hot.rs:133-157 | with its row variables first in row-major and its column variables first in column-major order, the one-hot table's extension is the sum over hot rows of the row's eq weight times the hot column's |
| Sources.FoldRlc | crates/jolt-poly/src/multilinear.rs:452-462 | folding source by source is folding the combined table, which is never built |
| Sources.EvaluateRlc | crates/jolt-poly/src/multilinear.rs:399-405 | the scaled values add up to the combined table's extension |
| Permutation.LsbPermutation | crates/jolt-kernels/src/precommitted_reduction.rs:491-509 | the relabelling ranks the variables by opening round, and is omitted exactly when it is the identity |
| Permutation.OldIndexBijective | crates/jolt-kernels/src/precommitted_reduction.rs:511-532 | the relabelling of table indices is a bijection |
| Permutation.PermuteCoefficients | crates/jolt-kernels/src/precommitted_reduction.rs:511-532 | the bit-gathering loop puts every entry where the relabelling sends it |
| Permutation.DotPermuted | crates/jolt-kernels/src/precommitted_reduction.rs:536-547 | the sum of the summand over the hypercube does not see the reordering |
| Permutation.PermutedThenBound | crates/jolt-kernels/src/precommitted_reduction.rs:491-532 | reordering and then binding low to high leaves the original table's extension with every variable at the challenge of its round rank |
| Precommitted.MessageSum | crates/jolt-kernels/src/precommitted_reduction.rs:98-140 | in active and inactive rounds a message's ends add up to the previous claim |
| Precommitted.MessageValues | crates/jolt-kernels/src/precommitted_reduction.rs:98-140 | whatever the previous claim, an active message takes the scaled sums of the bound tables at 0 and at 2 |
| Precommitted.FollowsOnlyFromTotal | crates/jolt-kernels/src/precommitted_reduction.rs:98-140 | an active round's message takes the bound total's value everywhere if and only if the previous claim was the scaled sum |
| Precommitted.HalvedScale | crates/jolt-kernels/src/precommitted_reduction.rs:162-176 | an inactive round keeps the scale and its inverse inverse to each other |
| Precommitted.PrecommittedTables.BindRound | crates/jolt-kernels/src/precommitted_reduction.rs:162-176 | an active round binds every table, an inactive one halves the scale, nothing else changes and the scale stays invertible |
| Precommitted.PrecommittedTables.IntermediateClaim | crates/jolt-kernels/src/precommitted_reduction.rs:178-194 | the staged claim is the scaled sum of the tables as they stand |
| Precommitted.RoundsTogether | crates/jolt-kernels/src/precommitted_reduction.rs:142-176 | after any rounds each table is bound by the active challenges in order and the scale halved once per inactive round |
| Precommitted.BoundDot | crates/jolt-kernels/src/precommitted_reduction.rs:178-194 | reordered tables bound part of the way hold the sum, over the variables still open, of the product of the original tables' extensions |
| Precommitted.PhasesTogether | crates/jolt-kernels/src/precommitted_reduction.rs:299-408 | the two phases one after the other are one run over all the rounds |
| Precommitted.RunReduction | crates/jolt-kernels/src/precommitted_reduction.rs:320-408 | over every schedule and for every claim, padded or not: the openings are the original tables at the opening point; every message sums to its claim and at 0 and 2 is the halved sum, over the variables still open, of the original tables' extensions; the staged claim is that halved sum at the hand-over. A claim that starts as the sum over the hypercube is the staged claim and ends as the scaled product of the openings |
| Limbs.Fmadd | crates/jolt-field/src/limbs.rs:151-171 | the accumulator ends at its old value plus the product modulo the weight of its width, for all three widths, every intermediate within 128 bits |
| Limbs.MulTrunc | crates/jolt-field/src/limbs.rs:91-95 | the product modulo the weight of the target width |
| Limbs.FmLimbsInto | crates/jolt-field/src/limbs.rs:267-291 | exact modulo the width when the limbs a row's carry spills into are zero at the start |
| Limbs.SpillNeedsZeroLimb | crates/jolt-field/src/limbs.rs:285-288 | an accumulator with a full spill limb on which the dropped carry loses value |
| Limbs.AddWithCarry | crates/jolt-field/src/limbs.rs:65-74 | the exact sum less the width's weight when it overflows, which the result reports |
| Limbs.SubWithBorrow | crates/jolt-field/src/limbs.rs:78-87 | the exact difference plus the width's weight when it underflows, which the result reports |
| Limbs.AddAssignTrunc | crates/jolt-field/src/limbs.rs:119-129 | the sum modulo the weight, for any operand width |
| Limbs.SubAssignTrunc | crates/jolt-field/src/limbs.rs:132-145 | the difference modulo the weight, for any operand width |
| Limbs.Cmp | crates/jolt-field/src/limbs.rs:213-223 | limbs from the top order as the integers they stand for |
| Signed.SignedBigInt.AddAssign | crates/jolt-field/src/signed.rs:78-88 | sign and magnitude of the integer sum, the magnitude cut to the width |
| Signed.SignedBigInt.MulAssign | crates/jolt-field/src/signed.rs:95-99 | sign and magnitude of the integer product, the magnitude cut to the width |
| Signed.SignedBigInt.Order | crates/jolt-field/src/signed.rs:146-163 | orders as the integers do, plus and minus zero equal |
| Signed.SignedBigInt.FmaddTrunc | crates/jolt-field/src/signed.rs:258-266 | adds the product, cut to the width first; exact whenever the product fits |
| Signed.SignedBigIntHi32.MulAssign | crates/jolt-field/src/signed.rs:389-412 | sign and magnitude of the integer product, the magnitude cut to 64 bits a limb and a 32-bit tail |
| Signed.MulTail | crates/jolt-field/src/signed.rs:389-412 | exact modulo the tailed width although every row drops its last carry |
| Signed.ExactIffFits | crates/jolt-field/src/signed.rs:76-118 | what an operation leaves equals the integer result if and only if its magnitude fits the width |
| Signed.TwoLimbsToI128 | crates/jolt-field/src/signed.rs:322-332 | a value exactly when the integer is in the range of i128, and then that integer |
| Signed.I128RoundTrip | crates/jolt-field/src/signed.rs:297-332 | converting from and back to i128 is the identity, the least value included |
| PrimeFields.PrimeFieldIsField | crates/jolt-field/src/algebra.rs:165-224 | the integers modulo any prime, with inverses by the extended Euclidean algorithm, satisfy the laws every theorem assumes of a field |

## Left out

- Prove: the four interpolation nodes are assumed distinct in the field, so that two and three are invertible.
- HonestProofRejected: rejection is shown for witnesses whose first and last row commit to different elements; the challenge function sees the whole log.
- Error values that only describe a failure are merged where the source has several for one cause, and their texts are not modelled.
- `assign_witness` and `assign_stage`: filling coefficients, claims and chains from the stage witnesses before the products are solved.
- The lowering of sumcheck and claim expressions to constraints (`append`), the source tables for public values and challenges, and the aliases of claims there.
- Deduplication of the dedicated rows before they are cleared: clearing a row twice changes nothing.
- Parallel branches, which do the same sums in another order; the serial bodies are modelled.
- Rows of a combined source handed out one by one; its fold and evaluation are modelled.
- `sparse_mle_msb` and its segments, centred Lagrange kernels and power sums, `bind_to_field`, operators on polynomials: sums and products of what is modelled.
- Elliptic curves, pairings, hashing, serialization, the random generator, the file lock and the backends' wiring.
- Probabilistic soundness and simulation: what acceptance asks, what each challenge depends on and what folding hides are stated exactly, without probabilities.
- OtherWitness: the two witnesses agree on the blindings of the final openings' rows and on the padding rows, where the prover draws no mask; the sumcheck messages, which are made from the folded grids alone, are not compared.
- InnerRoundMoved and OuterRoundMoved: stated for challenges that are constant once the sumchecks start, so that the moved round changes the claims and not the points.
- Width guards on dimensions and lengths; dimensions are natural numbers.
