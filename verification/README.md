# A verified model of the Tessera bulletin board

Tessera's server keeps, for each decision, an append-only log of ballots. The log is hashed into an RFC 6962 Merkle
tree whose root is signed and published, and an independent verifier recomputes every leaf, the root, the signature,
the tally and the verdict. This project models that core of `codes/server/src` and proves what it is for:

* **Merkle log** (`Int32`, `Merkle`, `MerkleLevels`, `Inclusion`, `MerkleBinding`). The bottom-up `fn`/`sn` loop of
  `verifyInclusion` decides exactly the top-down reading of a proof by the RFC 6962 split rule. Against a real root,
  an accepted proof is the right leaf hash with the right audit path exactly when its leaf hash is 32 bytes wide;
  equal roots mean equal leaf lists of equal length. The tree hash is also what pairing leaf hashes level by level
  gives. Where the 32-bit shifts stop being exact, and where the loops stop ending, is stated as an if-and-only-if.
* **Tally and verdict** (`Counting`, `Irv`, `IrvTheorems`, `Tally`, `TallyTheorems`, `Doubles`, `Verdict`). The loops
  of `runIrv`, `tally` and `verdict` are methods proved equal to specification functions, about which mutual majority,
  round monotonicity, the exact condition of the sole-survivor exit, order independence, the quadratic budget bounds
  and the exact condition of each outcome are proved. Supermajorities are compared in rounded doubles, as the code
  does.
* **Canonical JSON** (`Numbers`, `JsonText`, `Json`, `JsonDecode`, `JsonSame`, `JsonShortest`, `Wire`, `Spelling`,
  `SetupSpelling`). A decoder undoes the encoder, so two values have one canonical text exactly when they are the same
  JSON value up to key order; from that, every hashed, signed or compared object determines the record it was built
  from. No text that reads back as a value is shorter than its canonical text, and the texts hashed for leaves and
  commitments and those signed for roots, receipts and events are spelled out.
* **The board** (`Board`, `BoardSafety`, `BoardRuns`, `BoardMoves`, `BoardAccept`, `BoardRefusals`, `BoardFreeze`,
  `BoardLate`, `BoardReplay`, `BoardOpenRun`, `BoardSetup`, `BoardLifecycle`, `Repos`, `Pagination`). `Board` gives
  each request as a function of the tables. `Repos` is a class with one field per table whose methods carry the
  requests out statement by statement, rollback included, and are proved equal to those functions. A run is any
  sequence of requests; a secret-mode cast may pause at its credential check (`Begin`) and finish later (`Resume`),
  interleaved with anything.
* **The verifier** (`Verifier`, `VerifierBinding`, `VerifierTrust`, `HonestServer`). Two accepted bundles under one
  commitment and one root agree; the root of an accepted bundle was signed by the server; an honest server's bundle is
  accepted, and exactly when is stated.

**Which model a theorem uses.** Theorems over `Run(env, steps)` with no further condition hold in every interleaving.
Those that require `Atomic(steps)` are about runs in which no cast pauses, which is always so in open mode. Three
promises of the design fail once secret-mode casts pause, because the transaction re-checks the serial but neither
the state nor the cap: the freeze after voting, the participant cap, and the acceptance of the served bundle. Each has
its exact condition (`FrozenAfterVoting`, `CapKeptIff`, `ServedBundleVerifiesIff`), read off the tables before a step
(`WouldLand`), and a family of concrete runs in which it fails (`LateBallot`, `CrowdedOut`, `LateBundleFails`).

**Hashes and signatures.** SHA-256 is an arbitrary function to 32 bytes. Binding theorems assume it injective only on
the finite set of preimages that they list (`InjectiveOn`). Signing and credential checking are arbitrary functions;
what the server signs is assumed to verify under its key only by the honest-server theorems and by `EventsVerify`, and
that nothing else verifies (`OnlySigned`) only by those of `VerifierTrust`.

**Where code and comments differ.** The code is followed. A `random-seed` tie-break carries without any threshold test:
`CarriesIff` and `CarriedUnderTheBarIff` say exactly when, for every scoring method and threshold, and
`OneOfThreeCarries` shows one vote of three carrying a majority rule. A supermajority is not inclusive at its boundary
for fractional percents, because the product is a rounded double: `SupermajorityIff` gives the exact condition,
`WholePercentsAreExact` the safe case and `BoundaryMissed` an input. `verifyInclusion` checks its nodes only for hex,
not for width: `AcceptedProvesIff` says exactly when that matters and `WidthMatters` gives accepted texts that
prove no leaf. The comment on `verdict` about measuring against eligibility does not describe the code: the pass
base is always the non-abstaining cast.

All paths below are relative to the root of the Tessera repository.

## Model

| member | source | states |
|---|---|---|
| Int32.PowerLoopStopsIff | codes/server/src/merkle/merkle.ts:59-64 | the doubling loop ever finds its guard false exactly when n is at most 2^30; above that the shift wraps and it never ends |
| Int32.Shr1HalvesIff | codes/server/src/merkle/merkle.ts:161-170 | the 32-bit right shift of an index or size halves it exactly when it is below 2^31 |
| Int32.PromotionLoopStopsIff | codes/server/src/merkle/merkle.ts:161-164 | the inner promotion loop ever finds its guard false exactly when the position is not a multiple of 2^32, which no positive position in a tree of up to 2^31 leaves is |
| Merkle.LargestPowerOfTwoBelow | codes/server/src/merkle/merkle.ts:59-64 | for n up to 2^30 the shift loop terminates with the one power of two k such that k < n <= 2k |
| Merkle.PathHasPathLength | codes/server/src/merkle/merkle.ts:95-105 | the audit path has the length that index and tree size alone determine |
| Merkle.RootFromDefinedIff | codes/server/src/merkle/merkle.ts:154-174 | a proof reaches some root exactly when it has that length: too short and too long are both refused |
| Merkle.PathLengthLogarithmic | codes/server/src/merkle/merkle.ts:95-105 | a proof in a tree of at most 2^e leaves has at most e siblings |
| Merkle.PathReachesRoot | codes/server/src/merkle/merkle.ts:66-105 | climbing the audit path of any leaf from its leaf hash gives the tree's root |
| Merkle.Promote | codes/server/src/merkle/merkle.ts:160-164 | a lone last node of an odd level may move up a level unchanged without changing the root it proves |
| Merkle.ClimbOne | codes/server/src/merkle/merkle.ts:156-171 | consuming the first sibling and halving index and size leaves the root that a proof reaches unchanged, though the split rule consumes siblings from the other end |
| MerkleLevels.RootIsFold | codes/server/src/merkle/merkle.ts:54-73 | the recursive tree hash of any list is what remains when leaf hashes (after a 0 byte) are paired level by level (after a 1 byte), a lone last one moving up as it is |
| Inclusion.VerifyInclusion | codes/server/src/merkle/merkle.ts:134-180 | the two nested loops terminate and accept exactly the proofs whose top-down reading reaches the claimed root; malformed input of any kind yields false |
| MerkleBinding.RootInjective | codes/server/src/merkle/merkle.ts:60-73 | two leaf lists of any two lengths with equal roots are the same list, given no collision among the strings hashed for the two trees |
| MerkleBinding.PreimageShapes | codes/server/src/merkle/merkle.ts:50-57 | all that is hashed for a tree is nothing, a leaf after a 0 byte, or exactly 65 bytes of which the first is 1 |
| MerkleBinding.ClimbsToRootIff | codes/server/src/merkle/merkle.ts:66-105 | a 32-byte hash climbs through an audit of any widths to the root of a list exactly when it is that leaf's hash and the audit is that leaf's audit path |
| MerkleBinding.Complete | codes/server/src/merkle/merkle.ts:79-124 | every proof that inclusionProof builds is accepted against merkleRoot, and has the predicted length |
| MerkleBinding.SoundAndComplete | codes/server/src/merkle/merkle.ts:134-180 | verifyInclusion against the root of n leaves accepts a 64-digit leaf hash, with audit texts of any lengths, exactly when they are the leaf hash and the audit path of that leaf |
| MerkleBinding.AcceptedProvesIff | codes/server/src/merkle/merkle.ts:134-180 | an accepted proof is that of the leaf it names exactly when its leaf hash has 64 digits |
| MerkleBinding.WidthMatters | codes/server/src/merkle/merkle.ts:145 | for every two leaves, a leaf hash of 62 digits and a sibling of 66 are accepted against their root and prove neither leaf |
| Irv.FindChoice | codes/server/src/tally/methods.ts:49-57 | the scan of a ballot stops at its first in-range option that is still in the race, or finds none |
| Irv.CountRound | codes/server/src/tally/methods.ts:46-61 | each option's count is the number of ballots whose current choice it is, and the total is the number of ballots not exhausted |
| Irv.FindMajority | codes/server/src/tally/methods.ts:64-69 | the winner found is the lowest continuing option above half of the continuing ballots, if any |
| Irv.FindLoser | codes/server/src/tally/methods.ts:82-91 | the option dropped has the fewest votes among those continuing, ties going to the lowest index |
| Irv.RunRounds | codes/server/src/tally/methods.ts:30-96 | the unbounded loop terminates and returns exactly the winner and rounds of the recursive specification, for any ballots and any option count |
| Irv.WinnerInRace | codes/server/src/tally/methods.ts:64-77 | the winner is an in-range option that had not been eliminated |
| IrvTheorems.MutualMajority | codes/server/src/tally/methods.ts:44-95 | if more than half of all ballots rank every member of a nonempty option set ahead of every option outside it, the winner is in the set, whatever the other ballots hold |
| IrvTheorems.RoundsDevelop | codes/server/src/tally/methods.ts:44-95 | at most optionCount rounds run; from one to the next no option but the one dropped loses votes, and the continuing ballots never grow |
| IrvTheorems.SurvivalIff | codes/server/src/tally/methods.ts:71-77 | the sole-survivor exit fires exactly when no ballot ranks an in-range option, and then the last option wins with no votes |
| IrvTheorems.WinnerBeatsSurvivors | codes/server/src/tally/methods.ts:63-77 | when the last round has a continuing ballot, the winner is preferred to every other option still in it on strictly more ballots than the reverse |
| IrvTheorems.CleaningChangesNothing | codes/server/src/tally/methods.ts:49-57 | dropping out-of-range and repeated entries from every ballot first changes no round and no winner |
| IrvTheorems.OrderIrrelevant | codes/server/src/tally/methods.ts:30-96 | permuting the ballots changes no round and no winner |
| Tallies.AddChoices | codes/server/src/tally/methods.ts:155-166 | a multi-select ballot gives one point to each distinct in-range option it names and none to any other |
| Tallies.AddVotes | codes/server/src/tally/methods.ts:167-174 | a quadratic ballot adds its positive votes slot by slot, surplus slots ignored |
| Tallies.CollectRankings | codes/server/src/tally/methods.ts:125-145 | abstentions are counted, rankings kept in order, and each option's displayed score is its number of first in-range preferences |
| Tallies.AddScores | codes/server/src/tally/methods.ts:147-182 | each option's score is the sum over the ballots of the points each gives it, and mismatched kinds score nothing |
| Tallies.TallyBallots | codes/server/src/tally/methods.ts:115-183 | for all five methods the in-place accumulation yields the specified tally, runoff included |
| TallyTheorems.TallyHolds | codes/server/src/tally/methods.ts:115-183 | for every method and any ballots: the abstentions are the occurrences of the abstention among all ballots cast, a ranked score is the number of places whose ballot puts the option first, any other the single votes for it plus the places whose list names it plus its positive quadratic votes |
| TallyTheorems.ScoresByKind | codes/server/src/tally/methods.ts:147-182 | when all ballots are of the decision's kind or abstain: a single-choice score is the number of ballots with that choice, an approval or survey score the number of places whose ballot names it, a quadratic score its positive votes |
| TallyTheorems.TallyOrderIrrelevant | codes/server/src/verifier/verifyDecision.ts:329-337 | permuting the ballots leaves the whole tally unchanged for every method, as tallying in bundle order needs |
| TallyTheorems.TallyMutualMajority | codes/server/src/tally/methods.ts:125-145 | mutual majority for a whole ranked decision, abstentions and stray payloads not counted |
| TallyTheorems.SpendCredits | codes/server/src/tally/methods.ts:108-112 | the loop computes the sum of squares |
| TallyTheorems.CauchySchwarz | codes/server/src/tally/methods.ts:108-112 | the square of a sum is at most the count times the sum of squares |
| TallyTheorems.QuadraticBudgetBounds | codes/server/src/routes/participant.ts:410-422 | if m ballots each spend at most 100 credits over n options, no option scores above 10m and the square of the total is at most 100 n m^2 |
| Verdicts.TopOptions | codes/server/src/tally/verdict.ts:31-37 | the two loops find the highest score and exactly the options that hold it, ascending |
| Verdicts.Decide | codes/server/src/tally/verdict.ts:77-122 | the quorum, ranked, empty, tie and threshold branches yield the specified verdict |
| Verdicts.CarriesIff | codes/server/src/tally/verdict.ts:77-146 | outside ranked tallies and for every threshold: quorum-not-met, tie and carried each exactly when; a tie at the top carries exactly when the tie-break is the seed, anything else exactly when the top score is positive and passes the threshold |
| Verdicts.RankedCarriesIff | codes/server/src/tally/verdict.ts:152-161 | a ranked tally carries exactly when the quorum is met, someone did not abstain and the runoff's winner has a last count that passes the threshold |
| Verdicts.OutcomeMeans | codes/server/src/tally/verdict.ts:102-121 | a carried winner holds the top score and is strictly ahead of all others unless the seed broke a tie; with CarriesIff, what each outcome means |
| Verdicts.CarriedUnderTheBarIff | codes/server/src/tally/verdict.ts:53-68 | a carried winner misses the threshold exactly when the seed picked it from options tied at a top score that misses it |
| Verdicts.OneOfThreeCarries | codes/server/src/tally/verdict.ts:60-63 | whatever the seed, three single votes for three options carry one of them under the majority rule |
| Verdicts.RankedVerdictHolds | codes/server/src/tally/verdict.ts:152-161 | a ranked verdict that carries names the runoff's own winner, any other names none, and neither lists ties nor asks for a runoff or casting vote |
| Verdicts.CoalitionCarries | codes/server/src/tally/verdict.ts:152-161 | if more than half of the rankings put an option set above all others, then whatever else is cast a carried ranked verdict names a member of that set |
| Verdicts.LastCountDecides | codes/server/src/tally/verdict.ts:152-174 | with the quorum met, a ranked decision carries exactly when its winner's count in the last round of the runoff passes the threshold over the ballots that are not abstentions |
| Verdicts.QuorumOfBallots | codes/server/src/tally/verdict.ts:77-88 | a quorum of q is met exactly from q ballots on, abstentions included, for every method |
| Verdicts.QuorumMeans | codes/server/src/tally/verdict.ts:77-88 | with another denominator, turnout counts up to it and no further |
| Verdicts.TieBreaks | codes/server/src/tally/verdict.ts:53-68 | each tie-break sets its own flag and no other, keeps the tied options, and only the seed carries, naming one of them |
| Verdicts.VerdictHolds | codes/server/src/tally/verdict.ts:99-122 | outside ranked tallies, a tie at the top lists exactly the options that share the top score, ascending, with the flag of its tie-break; every other verdict lists none, and names a winner exactly when it carries |
| Verdicts.SeedHashOfA | codes/server/src/tally/verdict.ts:43-51 | the seed's hash starts at the FNV-1a offset basis and gives the published value for the text a |
| Verdicts.SeededPickOfA | codes/server/src/tally/verdict.ts:43-51 | whatever options are tied, the seed a picks the one at the place that its FNV-1a value leaves modulo their number |
| Verdicts.SupermajorityIff | codes/server/src/tally/verdict.ts:133-144 | a score passes exactly when a hundred times it reaches the product of base and percent double, or is what that product rounds down to |
| Verdicts.WholePercentsAreExact | codes/server/src/tally/verdict.ts:133-144 | for whole percents the comparison is exact and inclusive at the boundary |
| Verdicts.BoundaryMissed | codes/server/src/tally/verdict.ts:134 | for a fractional percent it is not: 7 of 10000 does not pass 0.07 percent |
| Doubles.IntegersAreExact | codes/server/src/tally/verdict.ts:143 | every integer up to 2^53 in size is its own double |
| Doubles.ToDoubleMonotone | codes/server/src/tally/verdict.ts:143 | rounding to the nearest double keeps the order of all real numbers |
| Verdicts.MajorityCarriesIff | codes/server/src/tally/verdict.ts:107-146 | with one choice per ballot, more than half of the non-abstaining ballots for an option carries it; without such an option something carries exactly when the seed breaks a tie at the top |
| Verdicts.RankedPluralityCarriesIff | codes/server/src/tally/verdict.ts:152-174 | a ranked plurality decision with its quorum met carries exactly when some ballot ranks an in-range option |
| JsonText.BeforeIsCodeUnitOrder | codes/server/src/crypto/canonicalize.ts:58 | the order keys are sorted in is exactly the lexicographic order of UTF-16 code units |
| Json.Canonicalize | codes/server/src/crypto/canonicalize.ts:21-75 | the recursive printer with its loop over sorted keys produces the specified text, or fails where that does |
| Json.EncodesIff | codes/server/src/crypto/canonicalize.ts:31-74 | the encoder throws exactly on values that hold something unrepresentable at some depth |
| JsonDecode.DecodeEncode | codes/server/src/crypto/canonicalize.ts:21-75 | a decoder reads every canonical text back, whatever follows it, as the same value with sorted keys |
| JsonSame.CanonicalTextIsFaithful | codes/server/src/crypto/canonicalize.ts:17-75 | two values have equal canonical texts exactly when they are the same JSON value up to key order at every depth |
| JsonSame.CanonicalRoundTrip | codes/server/src/crypto/canonicalize.ts:17-75 | decoding a canonical text consumes all of it and gives the same JSON value back |
| JsonShortest.CanonicalIsShortest | codes/server/src/crypto/canonicalize.ts:21-75 | no text from which an equal JSON value can be read, by a reader that takes any spelling of numbers and escapes but no raw control characters, is shorter than the canonical text |
| JsonShortest.IntegersArePlain | codes/server/src/crypto/canonicalize.ts:37 | a natural number is printed as digits that stand for it, without a leading zero, and a negative one as a minus sign before the text of its opposite |
| JsonText.EscapedIsShortest | codes/server/src/crypto/canonicalize.ts:69 | however a string's characters are escaped, its printed text is no longer |
| Numbers.PrintIsShortest | codes/server/src/crypto/canonicalize.ts:37 | however a number is spelled, its printed text takes no more characters |
| Hex.EncodedDigits | codes/server/src/merkle/merkle.ts:41-52 | hex text is two lower-case digits for each byte, the high one first |
| Spelling.PayloadSpelled | codes/server/src/domain/schemas.ts:122-176 | the text of each kind of ballot, member by member in key order |
| Spelling.LeafSpelled | codes/server/src/routes/participant.ts:67-77 | the text hashed for a leaf: the domain line, then decision, position, ballot and serial or null |
| Spelling.RootSpelled | codes/server/src/anchor/checkpoint.ts:54-64 | the text signed for a root, member by member in key order |
| Spelling.ReceiptSpelled | codes/server/src/routes/participant.ts:475-481 | the text signed for a receipt, member by member in key order |
| SetupSpelling.SetupSpelled | codes/server/src/crypto/setupCommitment.ts:36-48 | the commitment of every configuration is the hash of its eight parts in the order of the design, each spelled out, the eligibility as the hash of its own text |
| SetupSpelling.EventSpelled | codes/server/src/routes/convener.ts:33-67 | the text signed for a lifecycle event, member by member in key order, with two members more for an extension |
| Wire.LeafInjective | codes/server/src/routes/participant.ts:67-77 | equal leaf texts are leaves of the same ballot, serial and position in the same decision |
| Wire.PayloadInjective | codes/server/src/domain/schemas.ts:122-176 | payload objects that are the same JSON value are the same payload |
| Wire.RuleInjective | codes/server/src/crypto/setupCommitment.ts:17-26 | rule objects that are the same JSON value are the same rule, optional members and a percent that the threshold does not read included |
| Wire.SetupInjective | codes/server/src/crypto/setupCommitment.ts:36-48 | equal set-up texts bind the same options, method, rule, modes and issuer, and the same roster and schedule up to key order |
| Wire.RootTextIff | codes/server/src/anchor/checkpoint.ts:54-64 | a signed root text stands for exactly one root, size and decision |
| Wire.ReceiptTextIff | codes/server/src/routes/participant.ts:475-481 | a signed receipt text stands for exactly one leaf, position and running root |
| Wire.ReceiptsAreNotRoots | codes/server/src/routes/participant.ts:475-481 | no receipt text is a root text, so neither signature can stand in for the other |
| Wire.ResultTextsIff | codes/server/src/verifier/verifyDecision.ts:306-307 | tallies, and verdicts, have equal canonical texts exactly when they are equal |
| Board.LatestExtendIsInForce | codes/server/src/routes/effectiveClose.ts:19-26 | the amendment picked is later than every one before it in the log and no earlier than any after it, and none is picked only when there is none |
| Board.FindKey | codes/server/src/db/repos.ts:648-650 | the row found has the key, and none is found only when no row has it |
| Board.LatestCheckpoint | codes/server/src/db/repos.ts:847-850 | a checkpoint is found exactly when there is one, and none stored has a larger tree |
| BoardSafety.CommitKeeps | codes/server/src/routes/participant.ts:444-495 | from any tables in order with a head, whatever the state has become, the transaction keeps them in order, either changes nothing or adds exactly one row with its stored receipt, and head.set never refuses |
| BoardRuns.StepKeeps | codes/server/src/routes/participant.ts:250-549 | every request, and every end of a paused cast, keeps the invariant and only extends logs, receipts, checkpoints and events |
| BoardRuns.ReachableOk | codes/server/src/db/repos.ts:657-682 | in every interleaving: positions equal places, leaves recompute, previous heads and receipts hold the roots of the right prefixes, every receipt belongs to a stored ballot and every ballot has its receipt, the head is the root of the whole log, keys and serials are distinct, at most one opening and one checkpoint |
| BoardRuns.RunsOnlyExtend | codes/server/src/db/migrations.ts:58-82 | whatever happens later, every log, receipt and checkpoint of an earlier point stays as a prefix |
| BoardRuns.HeadRefusalUnreachable | codes/server/src/db/repos.ts:824-838 | in no reachable state does a cast, the end of a paused cast or an opening meet the refusal of head.set |
| BoardMoves.CreatedIff | codes/server/src/routes/convener.ts:95-192 | a decision is created exactly when its id is new and its configuration acceptable; it starts without a log as a draft in open mode and in registration in secret mode, and nothing else changes |
| BoardMoves.MovesIff | codes/server/src/routes/convener.ts:195-233 | in every reachable state the convener opens exactly a draft or a decision in registration, closes exactly an open one, and cancels exactly one that is neither published nor cancelled; all others are refused without a change, and an opening sets the head of the empty log |
| BoardMoves.PublishesIff | codes/server/src/routes/convener.ts:240-289 | publishing succeeds exactly from a closed or challenged decision and adds one checkpoint that counts the whole log |
| BoardMoves.ReconcileCloses | codes/server/src/routes/reconcile.ts:25-57 | exactly the open decisions past their effective close become closed, with log and head kept, and a second pass at the same time changes nothing |
| BoardMoves.CloseInForce | codes/server/src/routes/effectiveClose.ts:15-31 | the effective close is that of the latest amendment, the first of several at one time, and the scheduled close where there is none |
| BoardMoves.ExtensionTakesEffect | codes/server/src/routes/convener.ts:292-327 | after an extension later than all before it, the effective close is the new time, earlier or later than the old |
| BoardMoves.TurnedAwayIff | codes/server/src/routes/participant.ts:277-316 | a cast is refused as closed exactly when the decision is not open or has room and is past its effective close, and as full exactly when it is open and at its cap |
| BoardMoves.AdmittedIff | codes/server/src/routes/participant.ts:277-346 | a cast is admitted exactly while the decision is open, below its cap and not past its effective close, and in secret mode only with a serial, a credential and an issuer |
| BoardMoves.CastsAfterExtension | codes/server/src/routes/effectiveClose.ts:15-31 | after such an extension and below the cap, a cast is refused as closed exactly when it comes later than the new time |
| BoardMoves.ValidBallotIff | codes/server/src/domain/schemas.ts:122-176 | a ballot is valid exactly when it abstains, or is of the decision's kind and names options in range only, a quadratic one with one non-negative number of votes for each |
| BoardLifecycle.EventsTellTheState | codes/server/src/routes/convener.ts:33-67 | in every interleaving the events of a decision, read from its initial state, are lawful steps by its convener or closings by reconciliation, each signed over exactly its step, and lead to the stored state; no checkpoint names an earlier one |
| BoardLifecycle.EventsVerify | codes/server/src/routes/convener.ts:33-67 | each event's signature verifies over the step that the events before it leave room for |
| BoardSetup.StoredCommitmentIff | codes/server/src/crypto/setupCommitment.ts:36-48 | of any two decisions in any reachable states, and without a collision among their four texts, the stored commitments are equal exactly when options, method, rule, modes, eligibility, schedule and issuer hash are |
| BoardAccept.AcceptedIffLands | codes/server/src/routes/participant.ts:330-546 | from any tables in order, a cast past admission is accepted exactly when its credential or eligibility, serial, ballot, budget and key pass against those tables and no stored receipt has its leaf hash |
| BoardAccept.AcceptedIffFits | codes/server/src/routes/participant.ts:250-546 | in every reachable state, without a collision among the leaves, a cast is accepted exactly when it is admitted and fits, a paused one exactly when it fits: no honest ballot is ever lost to a clash of receipts |
| BoardRefusals.EveryAnswerFits | codes/server/src/routes/participant.ts:355-546 | in every reachable state each refusal of an admitted cast is given exactly for its own reason, in the order of the route; a stored key is answered exactly from its own row, and a clash of receipts is the only refusal of a request that fits |
| BoardFreeze.ThawsIff | codes/server/src/routes/participant.ts:355-495 | once voting is over, a step changes a log, and its head, exactly when it resumes a paused cast that the tables before it would take |
| BoardFreeze.FrozenAfterVoting | codes/server/src/domain/lifecycle.ts:31-43 | after any run, once voting is over, any further steps leave log and head as they are exactly when none of them resumes a paused cast for that decision that the tables would take |
| BoardFreeze.CapKeptIff | codes/server/src/routes/participant.ts:287-302 | in any interleaving, a decision stays within maxParticipants all along a run exactly when the run never resumes a paused cast that the tables would take while the log is at the cap |
| BoardFreeze.AtomicRuns | codes/server/src/routes/convener.ts:195-289 | without pauses: at most one opening, never above the cap, and once published exactly one checkpoint whose root, size and signature are those of the head |
| BoardLate.LateBallot | codes/server/src/routes/participant.ts:355-495 | for every secret decision and credentialed abstention, a run that ends published with a ballot its checkpoint does not count |
| BoardLate.CrowdedOut | codes/server/src/routes/participant.ts:287-302 | for every secret decision for one participant and two credentialed requests, a run that ends with two ballots |
| BoardReplay.PayloadTextIff | codes/server/src/routes/participant.ts:520-526 | the payload comparison of a duplicate succeeds exactly when the payloads are equal |
| BoardReplay.KeysAndSerialsUnique | codes/server/src/db/migrations.ts:58-82 | in every reachable state no two ballots of a decision share an idempotency key or a serial |
| BoardReplay.ReplayReturnsOriginal | codes/server/src/routes/participant.ts:520-546 | after an accepted cast and any further steps, a castable request with its key changes nothing and is answered with the original receipt exactly when the payload is the original one, else with a conflict |
| BoardOpenRun.OpenBallotCounts | codes/server/src/routes/participant.ts:250-549 | for every acceptable open-mode decision and every eligible, valid request by its close, create, open, cast, close and publish all succeed: the cast is accepted and the one checkpoint signs the root of exactly that one ballot |
| BoardOpenRun.OpenBallotReplays | codes/server/src/routes/participant.ts:497-546 | before that closing and below any cap, the same key again changes nothing and is answered with the first receipt for the same ballot and with a conflict for another |
| Repositories.Repos.constructor | codes/server/src/db/migrations.ts:38-90 | empty tables are the empty store |
| Repositories.Repos.InsertDecision | codes/server/src/routes/convener.ts:133-148 | a new decision without rows elsewhere appears, and no other decision changes |
| Repositories.Repos.SetState | codes/server/src/routes/convener.ts:219 | one decision's state changes and nothing else |
| Repositories.Repos.AppendEvent | codes/server/src/routes/convener.ts:33-67 | one event is added at the end of one decision's log and nothing else changes |
| Repositories.Repos.AppendCheckpoint | codes/server/src/db/repos.ts:853-861 | one checkpoint is added at the end and nothing else changes |
| Repositories.Repos.AppendBallot | codes/server/src/db/repos.ts:657-682 | a row with a used serial, then a used key, is refused with nothing changed; any other is added at the end of its log |
| Repositories.Repos.SetHead | codes/server/src/db/repos.ts:824-838 | the head is replaced unless that would lower its count, in which case nothing changes |
| Repositories.Repos.PutReceipt | codes/server/src/db/repos.ts:726-731 | a receipt for a new leaf is stored; one for a leaf already in the table is refused |
| Repositories.Repos.Create | codes/server/src/routes/convener.ts:95-192 | the table operations of this route together are its step of the board |
| Repositories.Repos.Move | codes/server/src/routes/convener.ts:195-233 | event, state and head written one after the other are the step of the board, refusals included |
| Repositories.Repos.PublishRoute | codes/server/src/routes/convener.ts:240-289 | event, state and final checkpoint written one after the other are the step of the board |
| Repositories.Repos.ExtendRoute | codes/server/src/routes/convener.ts:292-327 | an open decision of the caller gains one amendment; otherwise nothing changes |
| Repositories.Repos.ComputeEffectiveClose | codes/server/src/routes/effectiveClose.ts:15-31 | the one-pass loop finds the amendment in force, else the scheduled close |
| Repositories.Repos.CloseExpired | codes/server/src/routes/reconcile.ts:34-52 | one decision gains the closing event and becomes closed, and nothing else changes |
| Repositories.Repos.ReconcileExpired | codes/server/src/routes/reconcile.ts:25-57 | the loop over the open decisions, in whatever order they are listed, closes all and only those past their effective close, and returns the id of each once |
| Repositories.Repos.Admit | codes/server/src/routes/participant.ts:254-346 | the checks before the first pause refuse exactly as specified and change nothing |
| Repositories.Repos.CastStatements | codes/server/src/routes/participant.ts:444-495 | the statements of the transaction, run until one fails, give the specified reply and, unless it must roll back, the specified tables |
| Repositories.Repos.CommitCast | codes/server/src/routes/participant.ts:444-495 | all of the transaction or nothing: when a statement fails, the tables are those before it |
| Repositories.Repos.FinishCast | codes/server/src/routes/participant.ts:355-546 | everything after admission is the specified step, refusals in the order of the code |
| Repositories.Repos.CastRoute | codes/server/src/routes/participant.ts:250-549 | the whole route without a pause is the specified cast |
| Repositories.Repos.Serve | codes/server/src/routes/participant.ts:250-549 | any request of any kind, together with the paused casts, does to the tables what one step of a run does |
| Repositories.ServeAll | codes/server/src/routes/convener.ts:95-327 | a server started on empty tables that serves any requests in any interleaving ends in the state of the corresponding run, which satisfies the invariant |
| Verifier.CheckLeaves | codes/server/src/verifier/verifyDecision.ts:195-208 | the counting loop passes exactly when every ballot's leaf recomputes |
| Verifier.CheckContiguity | codes/server/src/verifier/verifyDecision.ts:243-257 | the set-building loop passes exactly when positions are in range and distinct and the tree size is the number of ballots |
| Verifier.CheckNoDoubleVote | codes/server/src/verifier/verifyDecision.ts:270-288 | the loop passes exactly when the decision is open or no two ballots share a serial |
| Verifier.Verify | codes/server/src/verifier/verifyDecision.ts:157-326 | the report holds the six specified checks and the verifier's own tally and verdict, whatever the bundle |
| Verifier.ResultHoldsIff | codes/server/src/verifier/verifyDecision.ts:298-320 | the result check passes exactly when nothing was published or what was published is the verifier's own tally and verdict |
| Verifier.ContiguousIffPositioned | codes/server/src/verifier/verifyDecision.ts:243-257 | in range and distinct means exactly that after sorting each ballot stands at its own position |
| VerifierBinding.AcceptedBundlesAgree | codes/server/src/verifier/verifyDecision.ts:157-326 | two accepted bundles with one set-up commitment and one root hold the same ballots in log order, the same set-up and the same result, published or recomputed, in whatever order they list the ballots, given no collision among the listed preimages |
| VerifierTrust.AcceptedAnchorWasSigned | codes/server/src/verifier/verifyDecision.ts:225-228 | if nothing verifies under a key but what its owner stated, the owner of an accepted bundle's key stated exactly that root, size and decision |
| VerifierTrust.VerifiedReceiptWasSigned | codes/server/src/routes/participant.ts:474-488 | under the same assumption, a receipt signature that verifies is over a leaf, position and root that were stated as a receipt, not as anything else |
| VerifierTrust.AcceptedIff | codes/server/src/verifier/verifyDecision.ts:157-326 | whatever order a bundle lists one ballot per position in, it is accepted exactly when its set-up hashes to the commitment, its leaves recompute and, each at its own position, have the anchored root, the anchor counts them all and is signed, no present serial of a secret decision recurs, and what was published is what tallying gives |
| VerifierTrust.AcceptedIsPlaced | codes/server/src/verifier/verifyDecision.ts:210-257 | every accepted bundle lists one ballot per position, so the former applies to it |
| VerifierTrust.AcceptedMeans | codes/server/src/verifier/verifyDecision.ts:157-326 | in an accepted bundle the anchor's signature verifies and counts all ballots, every leaf recomputes, no two ballots share a position and, in secret mode, no two share a present serial |
| HonestServer.ServedBundleVerifiesIff | codes/server/src/routes/public.ts:236-309 | in every reachable state of every interleaving, the served bundle passes all six checks exactly when no checkpoint is behind the log |
| HonestServer.LateBundleFails | codes/server/src/routes/public.ts:253-269 | after every late ballot of LateBallot's runs, the bundle the server serves is refused |
| HonestServer.HonestServerVerifies | codes/server/src/routes/public.ts:236-309 | in every run without pauses, before and after publication, the served bundle passes all six checks |
| HonestServer.ReceiptsProveInclusion | codes/server/src/routes/participant.ts:471-495 | in every interleaving, each ballot is provably included both under the root its receipt commits to and under the current head |
| HonestServer.ReceiptsAreSigned | codes/server/src/routes/participant.ts:474-488 | in every interleaving each stored receipt names the row of its leaf, the root just after that row, and verifies over leaf, position and root |
| HonestServer.AnswersAreSigned | codes/server/src/routes/participant.ts:474-546 | whatever receipt a cast is answered with, fresh or replayed, is stored and verifies over a row of the log |
| HonestServer.OpenBallotServed | codes/server/src/routes/public.ts:236-309 | after that open-mode run the served bundle is accepted and its tally is that of the one ballot |
| Pagination.AnyPageIsStretch | codes/server/src/routes/public.ts:124-153 | whatever integer cursor and limit are given or left out, a page is the next stretch of the log, its cursor is its last position, and complete means fewer rows than the limit were left |
| Pagination.DrainsTheLog | codes/server/src/routes/public.ts:117-154 | with any integer limit of at least 1, following the cursor returns the whole log once and in order, in floor(size / limit) + 1 requests |
| Pagination.CollectsAPrefix | codes/server/src/routes/public.ts:117-154 | if ballots arrive between pages, what has been collected is always a prefix of the current log, and complete came with a state it was all of |
| Pagination.RunsGrow | codes/server/src/db/repos.ts:685-695 | the states of one decision's log along any run are such a growing log |

## Left out

- Inclusion.VerifyInclusion: trees of more than 2^31 leaves, whose indices the 32-bit shifts no longer halve (Int32.Shr1HalvesIff) and for which the inner loop need not end (Int32.PromotionLoopStopsIff); non-integer index or size, which the code refuses at once.
- Merkle.LargestPowerOfTwoBelow: n above 2^30, where the loop does not end (Int32.PowerLoopStopsIff). The recursive tree hash and path use the mathematical split, so theorems about roots of larger trees say nothing about the code.
- Verifier.Verify: ill-typed bundles, for which the code's guards turn a thrown error into a failed check; ballots, set-up, tally and verdict are typed here, roster and schedule are any JSON. The decision's title, visibility and anchorMode are in the bundle but checked by nothing.
- Repositories.Repos.AppendBallot: row ids and creation times, which nothing modelled reads.
- Repositories.Repos.ReconcileExpired: the clock is read once, not twice per decision; the order of the query, so of the ids returned, is left open.
- Repositories.Repos.Create: titles, visibility and anchor mode, the eligibility table, and key generation; the id is a parameter, and the issuer key, a row of its own table in the source, is part of the configuration.
- Pagination.AnyPageIsStretch: fractional limits and cursors.
- Verdicts.Decide: counts are exact integers, and a percent or product whose double would overflow to infinity (from about 2^1024 on) is not modelled.
- SHA-256, Ed25519 and RSA blind signatures: functions given as parameters; the hash of a text stands for the hash of its UTF-8 form.
- Text: strings of Unicode scalar values; lone surrogates are not modelled.
- Numbers: JSON numbers are identified by their ECMAScript decimal text, and counts and scores are exact integers, without the rounding of doubles above 2^53; only the supermajority comparison is rounded.
- The eligibility gate of open mode is a boolean of the request; signed refusal bodies are reply values without their signatures.
- POST /register and the ledger of issued credentials: a credential is whatever the credential check accepts.
- The challenge state: in the transition table, but no route enters it.
- Pauses other than that of the credential check; several server processes on one database.
- SQLite itself: a table is a map or sequence, a transaction restores the saved tables; sorting and JSON parsing of the runtime are specified, not implemented.
- The statistics of the seeded pick: it is computed as in the code, its hash agrees with a published FNV-1a value, and it is known to name a tied option.
- The old hash chain, the anchor stub, the control plane, the sites and the client applications: they would add only easy members.
