# A verification of the post-quantum hash and proof-of-work verifier code

This project models, in Dafny, the parts of the repository that replace a simple definition by a
fast form, and the two protocols whose every run must be right, and proves that they agree. Each
module names the source file it follows. Everything is stated for general sizes (any depth, height,
message, program, stream or cutting of a stream); the repository's constants are instances.

## What is proved

**The batched product-tree GKR** (`Gkr`, `GkrLayers`, `GkrVerifier`, on `Kernels`, `Polynomials`,
`Transcripts`, `LayerSumcheck`). For trees of any depth that fits a point, the honest messages are
accepted, read to the last, and give the count product and the three leaf tables' multilinear
extensions. On any stream at all, an accepted run whose leaf values are true announced the true
products, unless some challenge was a root of an explicit nonzero polynomial. The honest prover is
accepted exactly when the depth fits a point. `Sumcheck` proves the same pair for the sumcheck without
equality factors, over any family of round polynomials. `TranscriptReads` shows that every scalar read
is in the sponge before the challenge that follows it, so that a history determines what was read.
`DuplexSponge` is the sponge itself on the interleaved Keccak state: its challenges are a function of
what was fed, and its state binds what was fed, unless the capacities collide at a named block.
`Polynomials.FewRoots` bounds the exceptional challenges: a nonzero polynomial has fewer roots than
coefficients.

**The proof-of-work guest** (`Guest`, `GuestField`, `GuestCells`, `GuestChunks`, `GuestBits`,
`GuestBlocks`, `GuestMain`, `GuestProgram`, `GuestExact`). Memory is write-once and chosen by the
prover, addresses are powers of the generator, and the digest is any function of the message. Under
any memory (the two public cells included), addresses, bits and flags, acceptance means that the public
cells hold some i below 2^24, and that i is the smallest hit; for such an i the advice is accepted and
consumed in order and in full. `GuestHits` says what a hit is on bytes: the digest's first bytes, as a
big-endian number, are small.

**The Thumb-2 generator** (`Scheduler`, `DWords`, `DRegisters`, `KeccakEmitted`). The list scheduler
terminates with a permutation that keeps every dependency and the final state, from every state, and
its conflict test asks for no order that is not needed. The
D-word plan evicts optimally among all plans. The register allocation overwrites nothing live and
leaves what the plan's rows need, and every access reads the D word it names.

**Keccak, interleaved and plain** (`Interleave`, `KeccakRounds`, `KeccakPermute`, `KeccakEmitted`,
`KeccakDevice`, `KeccakChain`, `KeccakState`, `KeccakLayer`, `KeccakStandard`, `KeccakInjective`,
`KeccakBytes`, `KeccakScheme`). The plain round is, bit by bit, the one of FIPS 202, and Keccak-f loses
nothing: it is a permutation. The one-block hash is the sponge on the block's bytes, and the fused chain
is the signature scheme's. The zip steps are inverse; one emitted
round on the interleaved state is the interleaving of one plain round; 24 rounds that exchange two
states end in the caller's; absorbing, padding, squeezing, the one-block hash and the fused chain on
the device compute what the portable code computes. A word is modelled as the sequence of its 32 bits.

**The verifier's Keccak weights** (`KeccakLinear`, `Correlations`, `KeccakWeights`, `KeccakSums`,
`KeccakLanes`). The carry-tracking walk gives the correlation of two eq kernels at every shift; the
factored sums equal the full sums over 1600 weights; and those weights are the transpose of theta, rho
and pi, which `KeccakLayer` ties to the rounds on bits.

**The pruned Merkle opening** (`MerklePaths`, `MerkleOpening`, `MerkleRows`). An accepted opening keeps
exactly the distinct queries, each with a full path to the root; the in-place fold reads before it
writes; true rows with exactly the missing siblings are accepted, unless nothing is opened; with
any hashes two accepted openings that disagree where they overlap show a collision on their paths; and
the later lookup finds each query's own value.

**The signer** (`SphincsTrees`, `SphincsCache`, `Codewords`, `Sphincs`, `SphincsSign`,
`SphincsScheme`, `SphincsBinding`). The streaming treehash is the recursive tree with its captures; the layer-0 cache
gives what the whole tree gives; the SWAR codeword test is the arithmetic one; and for every hash,
seed and message, once its searches end the signer returns true and the reference `verify` accepts. For
every hash, two accepted signatures of one index agree on all they share, or show two payloads with one
hash at a named place, or open one one-time key at two codewords. `KeccakScheme` gives the bytes hashed under each tweak.

**The weights of the polynomial opening** (`RingSwitch`, `QueryWeight`, `SparseTable`,
`SparseEvaluate`, `ClosedForms`, `StackRuns`, `StackLayout`, `Windows`, `Batching`, `BatchClaims`). The staged
linearised map is a sum of Frobenius powers and additive, its weight multilinear, its target the
weighted sum. The subspace polynomials are additive, vanish exactly on their spans, and give the
induced weight. The sparse table decodes to the dense one and evaluates to its extension. The stacked
layout is aligned, disjoint and gapless, and the batched target and weight are one weighted sum over
the stack and its extension, over every claim of the walk exactly once.

**The field** (`Carryless`, `MaskedMultiply`, `CarrylessMultiply`, `Squares`, `FieldBase`, `FieldRing`,
`FieldInverse`, `FieldBits`, `FieldUnits`, `FieldDomain`, `FieldGuest`). Masked integer multiplication is
exact carry-less multiplication, bit spreading is exact squaring, the reduction is the remainder,
Karatsuba is the schoolbook product, and the operations satisfy the ring laws every other module assumes
of an abstract ring (`EFieldLaws` discharges them). K and E are fields: squaring in K, bit by bit, is a
linear system that leaves 0 and 1 as the only elements equal to their squares, so everything nonzero has
an inverse; `K::inv` and `E::inv` are the powers 2^64 - 2 and 2^192 - 2 and invert, `frobenius` is the
power 2^64, and E is a field as the guest's proofs ask for one.

**Streams** (`HashStreams`, `HashStandards`, `KeccakStream`, `KeccakHasher`, `ProofStream`, `ProofBinding`). Hash contexts agree with the
one-shot hash for every cutting of the input, in exactly the definition's compressions; the verifier's
hasher does so on the interleaved state with the app's assembly. A proof recorded by an
accepted run is accepted from its bytes and on the device under every split into chunks, and is the
whole proof.

## Conditions found

Where a promised property does not hold of the code on all inputs, the code is kept and the exact
condition is proved:

- raw SHA-256 fed nothing compresses one zero block, which the definition does not
  (`HashStreams.HashPieces` says when the digests still agree);
- the product-tree verifier rejects honest provers exactly beyond 30 coordinates
  (`GkrVerifier.HonestAcceptedExactly`);
- an opening of no position is always rejected (`MerkleRows.OpenComplete`);
- a challenge leaves a trace in the duplex sponge unless a full block was waiting
  (`DuplexSponge.TraceOfDraw`), so a state binds a history given the order of reads and challenges, which
  `TranscriptReads` shows to be fixed;
- the assembly's one-block hash reads whole word pairs, so it absorbs the portable code's state exactly
  when the word completing the last pair is zero (`KeccakChain.SpareWord`); the header asks for
  zero-padded blocks, which have it so.

## Reading it

Field elements are three limbs with an addition and multiplication given by a `Ring`; sums are over
functions on indices, and a multilinear extension is defined once, in `Multilinear`, as the sum of a
table against eq weights. Methods follow the source's loops and mutable state and are proved against
functions of the inputs or the old state; the lemmas about those functions carry the theorems.
Nothing here was executed.

## Model

| member | source | states |
|---|---|---|
| Kernels.EqKernel | leanvm-pow/ledger/verifier/src/transcript.rs:190-200 | the in-place doubling leaves eq(i, point) at every index i and nothing else changed |
| Kernels.FoldEval | leanvm-pow/ledger/verifier/src/transcript.rs:203-216 | accepts exactly the sizes the code checks; the in-place folds then give the multilinear extension of the original values |
| Polynomials.EvalPoly | leanvm-pow/ledger/verifier/src/transcript.rs:264-266 | the fold from the top coefficient is the polynomial's value at the point |
| Polynomials.AgreeOnlyAtRoots | leanvm-pow/ledger/verifier/src/bus.rs:175-190 | two different coefficient vectors of one length agree at x exactly when x is a root of their nonzero difference |
| Polynomials.RootDivides | leanvm-pow/ledger/verifier/src/transcript.rs:264-266 | a root divides: synthetic division by it gives the polynomial back |
| Polynomials.FewRoots | leanvm-pow/ledger/verifier/src/bus.rs:175-190 | over a domain a nonzero polynomial has fewer roots than coefficients |
| Polynomials.FewAgreements | leanvm-pow/ledger/verifier/src/bus.rs:175-190 | two different messages of one length agree at fewer points than they have coefficients, which bounds the exceptional challenges the soundness theorems name |
| ClosedForms.IndexMle | leanvm-pow/ledger/verifier/src/transcript.rs:254-262 | the product of 1 + c(1 + g^(2^i)) is the multilinear extension of 1, g, g^2, .. |
| ClosedForms.PaddingWeight | leanvm-pow/ledger/verifier/src/transcript.rs:244-251 | the bit recursion is the multilinear extension of [z >= n], for every n up to 2^len |
| Sumcheck.PlainRoundClaim | leanvm-pow/ledger/verifier/src/transcript.rs:148-162 | without an equality factor: the recovered linear coefficient makes q(0) + q(1) the claim, whatever is sent |
| Sumcheck.SumcheckComplete | leanvm-pow/ledger/verifier/src/transcript.rs:175-184 | for any consistent family of round polynomials, from a true claim honest rounds are accepted, read to the last, and end in the true value at the point |
| Sumcheck.SumcheckSound | leanvm-pow/ledger/verifier/src/transcript.rs:175-184 | on any stream: a true final claim came from a true first claim, unless a challenge is a root of the nonzero difference between a message and the true round |
| Sumcheck.PlainRound | leanvm-pow/ledger/verifier/src/transcript.rs:152-162 | the round message read in the code's order, with its new state or error |
| Sumcheck.Sumcheck | leanvm-pow/ledger/verifier/src/transcript.rs:175-184 | the loop is the specified run |
| Transcripts.NextNext | leanvm-pow/ledger/verifier/src/transcript.rs:119-124 | reading n scalars and then m is reading n + m: same values, same failures, same sponge history |
| Transcripts.Transcript.NextScalars | leanvm-pow/ledger/verifier/src/transcript.rs:107-124 | the new cursor and sponge history after n reads, each absorbed, or the error |
| Transcripts.Transcript.Samples | leanvm-pow/ledger/verifier/src/transcript.rs:97-105 | challenges in a row, each depending on everything absorbed and drawn before it; the stream untouched |
| Transcripts.Transcript.RoundPoly | leanvm-pow/ledger/verifier/src/transcript.rs:163-170 | with an equality factor: the coefficients sent, the constant one recovered from the claim |
| TranscriptReads.NextFollows | leanvm-pow/ledger/verifier/src/transcript.rs:107-124 | what is read is absorbed: the scalars in the sponge since are those taken off the stream, in order |
| TranscriptReads.SumcheckFollows | leanvm-pow/ledger/verifier/src/transcript.rs:173-184 | a sumcheck: every message is in the sponge before the challenge that follows it, each challenge is the sponge's answer to all before it, and the point is the challenges |
| TranscriptReads.LayerFollows | leanvm-pow/ledger/verifier/src/bus.rs:167-204 | a layer draws its combiner, then takes each round's message and challenge, the children, and the fold's challenges, in that order |
| TranscriptReads.GkrFollows | leanvm-pow/ledger/verifier/src/bus.rs:162-205 | a whole run: the scalars read are the ones in the sponge, in the fixed order of reads and draws; the point is the last layer's challenges |
| TranscriptReads.GkrBinds | leanvm-pow/ledger/verifier/src/bus.rs:162-205 | two accepted runs from one history to one history read the same scalars |
| DuplexSponge.Sponge.constructor | leanvm-pow/ledger/verifier/src/transcript.rs:40-55 | the state is the permutation of the two digests' words over zeros, nothing fed |
| DuplexSponge.Sponge.Duplex | leanvm-pow/ledger/verifier/src/transcript.rs:58-68 | the waiting scalars and their tags over the rate with zeros after them, the capacity kept, one permutation, on the interleaved state |
| DuplexSponge.Sponge.Absorb | leanvm-pow/ledger/verifier/src/transcript.rs:70-76 | a scalar with its tag is fed; a full block goes into the state only then |
| DuplexSponge.Sponge.Sample | leanvm-pow/ledger/verifier/src/transcript.rs:78-81 | a challenge is a function of everything fed before it and is itself recorded |
| DuplexSponge.CutWhole | leanvm-pow/ledger/verifier/src/transcript.rs:58-81 | the blocks and the waiting scalars are the scalars fed, in order, none lost or doubled |
| DuplexSponge.SegmentCut | leanvm-pow/ledger/verifier/src/transcript.rs:58-81 | between two challenges any number of scalars goes in by fours, the last one to four waiting |
| DuplexSponge.TraceOfDraw | leanvm-pow/ledger/verifier/src/transcript.rs:70-81 | a challenge leaves no trace in the state exactly when a full block was waiting |
| DuplexSponge.KeccakFInjective | leanvm-pow/ledger/verifier/src/hash.rs:54-92 | Keccak-f on 64-bit lanes is injective, for any round constants |
| DuplexSponge.BlocksBind | leanvm-pow/ledger/verifier/src/transcript.rs:58-68 | as many blocks that lead to one state are the same blocks, or the capacities collide at a named block |
| DuplexSponge.HistoryBinds | leanvm-pow/ledger/verifier/src/transcript.rs:58-81 | inputs of one order of kinds that lead to one state are the same inputs, or the capacities collide at a named block |
| DuplexSponge.GkrStateBinds | leanvm-pow/ledger/verifier/src/bus.rs:162-205 | two accepted runs over Keccak from one history to one state of the sponge read the same scalars, or the capacities collide at a named block |
| LayerSumcheck.TrueRoundEval | leanvm-pow/ledger/verifier/src/bus.rs:172-179 | the honest round polynomial at x is the layer's sum with that variable fixed to x |
| LayerSumcheck.TrueRoundClaim | leanvm-pow/ledger/verifier/src/transcript.rs:163-170 | the recovered constant coefficient: (1 + r) q(0) + r q(1) is the claim the round starts from |
| Gkr.RoundHonest | leanvm-pow/ledger/verifier/src/bus.rs:175-179 | on an honest message the verifier rebuilds the true round polynomial and leaves the rest of the stream |
| Gkr.FalseClaimDiffers | leanvm-pow/ledger/verifier/src/bus.rs:175-190 | a false claim cannot be met by the true polynomial, whatever is sent |
| GkrLayers.NodeProduct | leanvm-pow/ledger/verifier/src/bus.rs:168-190 | a node of the product tree is the product of its descendants one or two levels down, for every tree, level and index |
| GkrLayers.BatchIsSum | leanvm-pow/ledger/verifier/src/bus.rs:170-179 | the batched true values of a level are the sum its rounds start from |
| GkrLayers.TrueFold | leanvm-pow/ledger/verifier/src/bus.rs:191-200 | the true children folded at y extend the level below to the point y followed by x |
| GkrLayers.LevelProduct | leanvm-pow/ledger/verifier/src/bus.rs:161-165 | a level's product is the leaves' product, at every level |
| GkrLayers.GkrComplete | leanvm-pow/ledger/verifier/src/bus.rs:161-205 | for trees of any depth that fits a point: honest messages are accepted, read to the last, and give the count product and the three leaf extensions |
| GkrLayers.TooDeep | leanvm-pow/ledger/verifier/src/bus.rs:196 | a tree deeper than a point is never accepted, whatever is sent |
| GkrLayers.LayersSound | leanvm-pow/ledger/verifier/src/bus.rs:168-203 | soundness of the layer loop from any layer, point and values |
| GkrLayers.GkrSound | leanvm-pow/ledger/verifier/src/bus.rs:161-205 | on any stream: if the run passes and the leaf values are true, the announced roots are the true products, unless a combiner, round or fold challenge is a root of an explicit nonzero polynomial |
| GkrVerifier.VerifyRounds | leanvm-pow/ledger/verifier/src/bus.rs:171-179 | the round loop on the mutable transcript is the specified run, in result, error and new state |
| GkrVerifier.VerifyLayer | leanvm-pow/ledger/verifier/src/bus.rs:168-203 | one layer's code against its specification |
| GkrVerifier.VerifyGkr | leanvm-pow/ledger/verifier/src/bus.rs:162-205 | the loop is the specified run; with the theorems above: an accepted run with true leaf values announced the true roots (exceptional challenges apart), and the honest stream is accepted to its end |
| GkrVerifier.VerifyGkrMeaning | leanvm-pow/ledger/verifier/src/bus.rs:162-205 | completeness and soundness of the whole run, for every oracle, depth, leaves and stream |
| GkrVerifier.HonestAcceptedExactly | leanvm-pow/ledger/verifier/src/bus.rs:196 | with equal shared products the honest prover is accepted exactly when the depth fits a point |
| GuestField.Field.PowInjective | leanvm-pow/pow/guest/pow.py:52-59 | exponents below the generator's order are determined by the power |
| GuestField.Field.EmbInjective | leanvm-pow/pow/guest/pow.py:177-178 | polynomials of degree below 64 are told apart by their field element |
| Guest.HitOnChunks | leanvm-pow/pow/src/main.rs:72-83 | the difficulty's leading zero bits are: the first chunk zero and every masked bit of the second zero |
| GuestHits.HitIsSmall | leanvm-pow/pow/src/main.rs:72-83 | a hit is a digest whose first eight bytes, as one big-endian number, are below 2^(64 - difficulty) |
| GuestHits.MessageWhole | leanvm-pow/pow/src/main.rs:61-66 | the message is the 32-byte big-endian word of j |
| GuestHits.LaneBytes | leanvm-pow/pow/src/main.rs:68-70 | each byte of a lane is the message byte of its place, little-endian |
| GuestCells.CellParts | leanvm-pow/pow/guest/pow.py:43-49 | the input cell of every j is the sum of the byte and nibble terms the loops add |
| GuestChunks.ExponentRange | leanvm-pow/pow/guest/pow.py:52-59 | a hinted address a with TOP / a also readable has an exponent at most TOP's |
| GuestChunks.Lookup | leanvm-pow/pow/guest/pow.py:52-59 | accepted: the value is that of the cell at an exponent in range; a table address is always accepted |
| GuestChunks.ChunkJoin | leanvm-pow/pow/guest/pow.py:86-92 | any four 16-bit chunks are the chunks of one 64-bit number |
| GuestChunks.HashChunks | leanvm-pow/pow/guest/pow.py:80-93 | hash, four lookups and the check against the written cell, for arbitrary hinted addresses: the digest's own chunks, once lane 1 lies in K |
| GuestChunks.DigestChunks | leanvm-pow/pow/guest/pow.py:80-93 | accepted: exactly the digest's own chunks, whatever addresses were hinted; one witness consumed; the honest witness is accepted |
| GuestBits.MaskedBits | leanvm-pow/pow/guest/pow.py:62-77 | accepted hints can only be the chunk's own bits, so the masked part is exact; the honest bits are accepted |
| GuestBits.JudgeChunks | leanvm-pow/pow/guest/pow.py:96-110 | r0 + x^16 m1 is zero exactly for a hit |
| GuestBlocks.SlowHash | leanvm-pow/pow/guest/pow.py:96-101 | accepted means j is no hit; honest hints for a non-hit are accepted |
| GuestBlocks.HitHash | leanvm-pow/pow/guest/pow.py:104-110 | accepted means j is a hit; honest hints for a hit are accepted |
| GuestBlocks.ProductNonzero | leanvm-pow/pow/guest/pow.py:134-135 | one product is nonzero exactly when every factor is |
| GuestBlocks.SlowRun | leanvm-pow/pow/guest/pow.py:139-142 | a run of single digests: none of its numbers is a hit |
| GuestBlocks.FastBlock | leanvm-pow/pow/guest/pow.py:113-136 | acceptance means none of the sixteen numbers is a hit; honest hints are accepted and used up exactly when no first chunk is zero, as the advice's flag says |
| GuestMain.OneBlock | leanvm-pow/pow/guest/pow.py:148-153 | either path, picked by an arbitrary flag, proves the block free of hits |
| GuestMain.BlocksLoop | leanvm-pow/pow/guest/pow.py:145-154 | the first n blocks of a byte run are free of hits, and the honest hints are consumed in order |
| GuestMain.BytesLoop | leanvm-pow/pow/guest/pow.py:157-161 | the first n byte runs are free of hits, and the honest hints are consumed in order |
| GuestProgram.BuildTable | leanvm-pow/pow/guest/pow.py:165-175 | the write loop accepts exactly the memories whose table holds T[e] = e everywhere |
| GuestProgram.Factor | leanvm-pow/pow/guest/pow.py:197-207 | the factor 1 + b(1 + g^(2^s)) multiplies an exponent up by 2^s b |
| GuestProgram.LowInput | leanvm-pow/pow/guest/pow.py:193-208 | whatever the cell and the hints, acceptance means the cell is a polynomial of degree below 16, its nibbles and byte in the exponents; such a cell's own bits are accepted |
| GuestProgram.HighInput | leanvm-pow/pow/guest/pow.py:203-209 | whatever the cell and the hints, acceptance means the cell is a polynomial of degree below 8, its number in the exponent; such a cell's own bits are accepted |
| GuestExact.Meets | leanvm-pow/pow/guest/pow.py:211-221 | the loops' runs cover [0, i) exactly: free of hits on each is free of hits on the whole |
| GuestExact.EveryBelow | leanvm-pow/pow/guest/pow.py:211-221 | everything after the decompositions: accepted means i is the smallest hit; the honest hints are consumed to the last |
| GuestExact.Run | leanvm-pow/pow/guest/pow.py:164-222 | the whole guest, for difficulties 16 to 32: acceptance under any memory and hints means the two public cells hold some i < 2^24 that is the smallest hit; for such an i the advice is accepted and consumed in full |
| GuestExact.InputUnique | leanvm-pow/pow/guest/pow.py:177-192 | the two public cells hold at most one number below 2^24 |
| GuestExact.AdviceParts | leanvm-pow/pow/src/main.rs:105-126 | the advice streams split where the guest's loops meet |
| Scheduler.PullFront | scripts/gen_asm.py:446-451 | an instruction in conflict with none before it may run first |
| Scheduler.EmitReady | scripts/gen_asm.py:455-459 | emitting a ready instruction next does not change the final state |
| Scheduler.ConflictExact | scripts/gen_asm.py:446-451 | the test is exact: two instructions that declare something they write conflict if and only if two honest instructions with their declarations exist whose order matters |
| Scheduler.Dependencies | scripts/gen_asm.py:444-452 | each instruction waits for exactly the earlier ones it conflicts with (RAW, WAR, WAW, stack) |
| Scheduler.Pick | scripts/gen_asm.py:455-457 | the first ready instruction that does not stall on the last load, or the first ready one when all stall; one always exists |
| Scheduler.Schedule | scripts/gen_asm.py:441-461 | terminates; the output is a permutation that keeps every conflict in order and runs to the same final state from every state |
| DWords.OneApart | scripts/gen_asm.py:492-508 | from caches that differ in one word the reload counts differ by at most one |
| DWords.SoonerIsBetter | scripts/gen_asm.py:492-508 | holding the word needed sooner is no worse |
| DWords.FarthestIsOptimal | scripts/gen_asm.py:492-508 | evicting the farthest next use gives the fewest reloads of any plan from the same words, for every access sequence |
| DWords.ReloadsCount | scripts/gen_asm.py:498-508 | the cost compared is the number of accesses that had to reload |
| DWords.FindVictim | scripts/gen_asm.py:504-505 | the victim is the first of the words needed last |
| DWords.MakePlan | scripts/gen_asm.py:498-508 | the emitted plan runs, always evicts the farthest, and lists exactly the words to store |
| DRegisters.PickRegister | scripts/gen_asm.py:530 | the register chosen is the first of least cost |
| DRegisters.DestinationSafe | scripts/gen_asm.py:524-541 | the register written holds no C word with uses left and no resident D word |
| DRegisters.Allocate | scripts/gen_asm.py:518-543 | for every order accepted: no live C word is overwritten, a register is always found, resident words end in high registers and the others in the table; an order is refused exactly when a word that stays comes when the words before it that stay hold every high register no longer needed |
| DRegisters.HighOpen | scripts/gen_asm.py:525-533 | a word that stays finds a high register exactly when fewer words stay before it than high registers are free of C words |
| DRegisters.AllPlaced | scripts/gen_asm.py:545-557 | after the order every D word is in its register or in the table, with its right value |
| DRegisters.LowRegistersFree | scripts/gen_asm.py:558-560 | with six words staying, exactly r2 to r7 are left for the rows |
| DRegisters.RunRows | scripts/gen_asm.py:562-572 | running the plan's loads, every access reads the D word it names |
| DRegisters.AllocationReady | scripts/gen_asm.py:518-572 | what allocation leaves is what the plan's rows need |
| Interleave.ZipUnzip | ledger-app/src/crypto/keccak.c:33-49 | unzip and zip are inverse, both ways, on every word |
| Interleave.UnzipBit | ledger-app/src/crypto/keccak.c:32-40 | the even bits go to the low half, the odd bits to the high half |
| Interleave.HalvesDetermine | scripts/gen_asm.py:405-409 | a lane's two interleaved words determine it |
| Interleave.HalfRotl | scripts/gen_asm.py:412-419 | a rotation by any n < 64 is a rotation of the half and by the amount the index rule names |
| KeccakRounds.RowWordIs | scripts/gen_asm.py:412-419 | the word loaded, combined with D and rotated is the half of the plain lane after theta, rho and pi |
| KeccakRounds.RoundAgrees | scripts/gen_asm.py:510-593 | one emitted round is the interleaving of one plain round, for every state and constant |
| KeccakLayer.LinearPartIsLayer | leanvm-pow/ledger/verifier/src/hash.rs:54-82 | theta, rho and pi on bits are the layer the verifier's weights transpose |
| KeccakLayer.RoundTransposes | leanvm-pow/ledger/verifier/src/keccak.rs:72-74 | weighing a state's bits after theta, rho and pi is weighing the state before them with the transposed weights |
| KeccakPermute.AddDiffusion | ledger-app/src/crypto/keccak.c:117-122 | the in-place theta loop adds to every lane its column's term of the old state |
| KeccakPermute.MoveLanes | ledger-app/src/crypto/keccak.c:123-128 | rho and pi: every lane lands, rotated, at its own place |
| KeccakPermute.PlainRound | ledger-app/src/crypto/keccak.c:114-135 | the portable round loop body is the specified round |
| KeccakPermute.PermutePlain | ledger-app/src/crypto/keccak.c:110-137 | the portable permutation, on the state's words, is the composition of the rounds |
| KeccakStandard.RhoRule | leanvm-pow/ledger/verifier/src/hash.rs:39-41 | the offsets are (t + 1)(t + 2)/2 mod 64 along the walk (x, y) to (y, 2x + 3y) from (1, 0), as in section 3.2.2 of FIPS 202; lane 0 stays |
| KeccakStandard.WalkVisits | leanvm-pow/ledger/verifier/src/hash.rs:39-51 | the walk meets all 24 other lanes |
| KeccakStandard.RoundIsStandard | ledger-app/src/crypto/keccak.c:110-137 | every bit after a round is section 3.2's: theta, rho, pi, chi and iota stated on bits |
| KeccakInjective.ThetaInjective | ledger-app/src/crypto/keccak.c:110-121 | theta loses nothing: no two states have one image |
| KeccakInjective.RoundInjective | ledger-app/src/crypto/keccak.c:110-137 | a round is injective, for any constant |
| KeccakInjective.RoundsInjective | ledger-app/src/crypto/keccak.c:110-137 | Keccak-f is a permutation: any number of rounds is injective |
| KeccakEmitted.ColumnParities | scripts/gen_asm.py:480-489 | the emitted row-by-row accumulation gives the ten column parities |
| KeccakEmitted.DTable | scripts/gen_asm.py:510-516 | the ten D words |
| KeccakEmitted.RowHalf | scripts/gen_asm.py:562-587 | one row half: five words loaded, turned, combined and stored, row 0 taking the next round constant; nothing else of the state is written |
| KeccakEmitted.EmittedRound | scripts/gen_asm.py:562-587 | after the ten row halves in the emitted order every word is the round's |
| KeccakEmitted.PermuteEmitted | scripts/gen_asm.py:464-600 | 24 rounds between two states that change places end in the caller's, and are the plain permutation of the lanes the words stand for |
| KeccakDevice.HalvesOfWords | ledger-app/src/crypto/keccak.c:51-58 | unzipped word pairs, halves exchanged, are the lane's two interleaved words |
| KeccakDevice.WordsOfHalves | ledger-app/src/crypto/keccak.c:66-71 | and back |
| KeccakDevice.AbsorbDevice | ledger-app/src/crypto/keccak.c:51-58 | absorbing any number of words into the interleaved state is absorbing them into the plain one |
| KeccakDevice.AbsorbPlain | ledger-app/src/crypto/keccak.c:139-143 | the portable absorb |
| KeccakDevice.PadDevice | ledger-app/src/crypto/keccak.c:60-64 | padding the interleaved state at any length below the rate is padding the plain one |
| KeccakDevice.PadPlain | ledger-app/src/crypto/keccak.c:145-148 | the portable padding, byte n and byte 135 |
| KeccakDevice.SqueezeDevice | ledger-app/src/crypto/keccak.c:66-71 | the words squeezed are the plain state's |
| KeccakChain.SpareWord | scripts/gen_asm.py:630-645 | reading whole word pairs absorbs the same state exactly when the word that only completes the last pair is zero |
| KeccakChain.OneBlockPlain | ledger-app/src/crypto/keccak.c:154-161 | the portable one-block hash |
| KeccakChain.OneBlockDevice | scripts/gen_asm.py:612-679 | the assembly's one-block hash; it is the portable one when no spare word is read or that word is zero, for every length up to 64 |
| KeccakBytes.PaddedIsAbsorbed | ledger-app/src/crypto/keccak.c:154-161 | the absorbed and padded words are the block's bytes with pad10*1, as 64-bit lanes |
| KeccakBytes.OneBlockIsSponge | ledger-app/src/crypto/keccak.c:154-161 | the one-block hash of a zero-padded block is the first two lanes of the sponge on its bytes |
| KeccakScheme.OneBlockIsHash | ledger-app/src/crypto/hash.c:17-26 | the one-block hash of a zero-padded block of n words is the scheme's hash over Keccak-256 of the words' bytes |
| KeccakScheme.ChainIsScheme | ledger-app/src/crypto/sphincs.c:78-83 | the fused chain, its counter and value put into one block, is the scheme's chain over Keccak-256, for every start and length |
| KeccakScheme.TweakBytes | host/sphincs_ref.py:94-96 | the tweak's words are the reference's bytes: 1, the kind, the layer, 0, and three little-endian numbers |
| KeccakScheme.KeyInputs | host/sphincs_ref.py:128-137 | the bytes hashed to a key's secrets, chain steps and leaf, for any hash: kinds 0, 1, 2 and their places |
| KeccakScheme.EncodeInput | host/sphincs_ref.py:139-140 | the bytes hashed to the digest whose codeword is signed: kind 4, the value and the counter |
| KeccakScheme.FewTimeInputs | host/sphincs_ref.py:184-197 | the bytes hashed to the few-time secrets, leaves and key: kinds 8, 9, 11 |
| KeccakScheme.NodeInputs | host/sphincs_ref.py:163-188 | the bytes hashed to a tree's node: kind 3 or 10, the level, the place, both children |
| KeccakScheme.MessageInputs | ledger-app/src/crypto/sphincs.c:298-320 | the bytes hashed to the message digest, a trial's randomizer and the public parameter: kinds 12, 7, 5 |
| KeccakChain.ChainPlain | ledger-app/src/crypto/keccak.c:163-171 | the portable chain |
| KeccakChain.ChainStep | scripts/gen_asm.py:697-735 | one pass of the assembly loop is one step of the plain chain |
| KeccakChain.ChainDevice | ledger-app/src/crypto/keccak.c:76-86 | the fused chain, its value interleaved throughout, is the portable chain for every value, block, counter and number of steps |
| KeccakState.State.XorLane | leanvm-pow/ledger/verifier/src/hash.rs:180-184 | one lane of the interleaved state changed, the others kept |
| KeccakState.State.SetLane | leanvm-pow/ledger/verifier/src/hash.rs:192-196 | one lane replaced, the others kept |
| KeccakState.State.Lane | leanvm-pow/ledger/verifier/src/hash.rs:166-171 | the lane read back |
| KeccakState.State.Permute | leanvm-pow/ledger/verifier/src/hash.rs:156-158 | the app's assembly on the words is the permutation of the lanes |
| Correlations.CarryStep | leanvm-pow/ledger/verifier/src/keccak.rs:94-106 | one bit of the walk: the longer carry sums from the shorter ones by four products |
| Correlations.Walk | leanvm-pow/ledger/verifier/src/keccak.rs:87-107 | the depth-first walk fills exactly the shifts with the given low bits |
| Correlations.AllCorrelations | leanvm-pow/ledger/verifier/src/keccak.rs:77-108 | every shift's correlation of the two eq kernels, wrap-around included, for any number of bits |
| KeccakLinear.PiBijective | leanvm-pow/ledger/verifier/src/hash.rs:43-51 | the lane permutation and its inverse |
| KeccakLinear.LayerTransposes | leanvm-pow/ledger/verifier/src/keccak.rs:72-74 | for all weights and states, <w, L(a)> = <L^T w, a> |
| KeccakWeights.LayerDot | leanvm-pow/ledger/verifier/src/keccak.rs:201-223 | the factored sum equals the full sum over the 1600 transposed weights |
| KeccakSums.DotEqLayer | leanvm-pow/ledger/verifier/src/keccak.rs:203-223 | the loops compute that full sum |
| KeccakLanes.LanesCombine | leanvm-pow/ledger/verifier/src/keccak.rs:163-182 | the lanes' contributions at each position are the combination of the transposed weights |
| KeccakLanes.LaneCombination | leanvm-pow/ledger/verifier/src/keccak.rs:156-185 | the loops compute it at all 64 positions |
| MerklePaths.ClimbBinds | leanvm-pow/ledger/verifier/src/whir.rs:211-239 | with an injective pair hash a root binds one digest to each position |
| MerklePaths.LevelsClimb | leanvm-pow/ledger/verifier/src/whir.rs:211-238 | every node kept has a full path to a node of the top level, whatever siblings were sent |
| MerklePaths.LevelsComplete | leanvm-pow/ledger/verifier/src/whir.rs:211-238 | the true nodes with exactly the missing siblings climb to the true nodes, and nothing more of the stream is read |
| MerklePaths.OneAncestor | leanvm-pow/ledger/verifier/src/whir.rs:239 | positions below 2^height have the root alone above them |
| MerkleOpening.DistinctPositions | leanvm-pow/ledger/verifier/src/whir.rs:162-172 | the positions kept are exactly the distinct queries, ascending |
| MerkleOpening.FindQuery | leanvm-pow/ledger/verifier/src/whir.rs:346-348 | the binary search returns each query's own place |
| MerkleOpening.FoldLevel | leanvm-pow/ledger/verifier/src/whir.rs:212-238 | one level folded in place is the level of the original digests: no unread digest is overwritten |
| MerkleOpening.Value | leanvm-pow/ledger/verifier/src/whir.rs:186-209 | a row's value against the lane weights; the skipped zero words do not change it |
| MerkleOpening.LevelZeroValue | leanvm-pow/ledger/verifier/src/whir.rs:196-203 | a level-0 row is worth its words, the last one first, against the first weights; the zero prefix takes no part |
| MerkleOpening.LimbsAreWords | leanvm-pow/ledger/verifier/src/whir.rs:204-207 | an upper row's lanes, limb after limb, are its words in order |
| MerkleRows.OpenSound | leanvm-pow/ledger/verifier/src/whir.rs:150-240 | each row of an accepted opening has a full authentication path to the root |
| MerkleRows.OpeningsAgree | leanvm-pow/ledger/verifier/src/whir.rs:150-240 | with injective hashes two accepted openings agree on every position they share |
| MerklePaths.ClimbCollides | leanvm-pow/ledger/verifier/src/whir.rs:218-238 | for any pair hash: two digests at one position with paths to one root show two different pairs with one hash, at one step |
| MerkleRows.OpeningsCollide | leanvm-pow/ledger/verifier/src/whir.rs:150-240 | for any hashes: two accepted openings that disagree on a shared position show a collision, of their rows or at one step of their paths |
| MerkleRows.OpenComplete | leanvm-pow/ledger/verifier/src/whir.rs:150-240 | the true rows and their minimal siblings are accepted and read exactly, unless no position is opened |
| MerkleRows.ReadRows | leanvm-pow/ledger/verifier/src/whir.rs:174-210 | the row loop: values, leaf digests and what is left of the stream |
| MerkleRows.FoldTree | leanvm-pow/ledger/verifier/src/whir.rs:211-239 | all levels, then the root comparison |
| MerkleRows.OpenRows | leanvm-pow/ledger/verifier/src/whir.rs:150-240 | the whole opening against its specification: a block length that is no power of two refused untouched; positions, values, errors and stream |
| MerkleRows.Enforce | leanvm-pow/ledger/verifier/src/whir.rs:344-350 | the enforced sum takes each query's own value, in query order |
| SphincsTrees.FoldPath | host/sphincs_ref.py:175-180 | a leaf with its path folds to the root of the recursive tree |
| SphincsTrees.TopPeak | ledger-app/src/crypto/sphincs.c:203-208 | the stack's top has height z exactly when the node just completed is a right child, and is then its sibling |
| SphincsTrees.Capture | ledger-app/src/crypto/sphincs.c:182-189 | what is captured so far, after one more node |
| SphincsTrees.AddLeaf | ledger-app/src/crypto/sphincs.c:197-213 | one leaf and its merges: the stack holds the peaks, heights strictly falling, within its bound |
| SphincsTrees.TreeHash | ledger-app/src/crypto/sphincs.c:191-215 | for every height and aligned first leaf: the recursive root, the target's siblings at every level below it and every node of the capture level |
| SphincsCache.RefoldLevel | ledger-app/src/crypto/sphincs.c:258-261 | one level refolded in place: a node is written only after both its children are read |
| SphincsCache.CachedPathAndRoot | ledger-app/src/crypto/sphincs.c:245-264 | from the cached level: the same path and root as the whole tree, for every e |
| Codewords.PairDigits | ledger-app/src/crypto/sphincs.c:108-109 | the pairs of fields never carry out of their six bits |
| Codewords.Sum10IsFields | ledger-app/src/crypto/sphincs.c:106-111 | the SWAR sum is the sum of the ten fields, for every word |
| Codewords.TopBits | ledger-app/src/crypto/sphincs.c:116-118 | one test covers both halves' top bits |
| Codewords.Codeword | ledger-app/src/crypto/sphincs.c:113-135 | accepts exactly the digests the reference accepts, with the same 42 positions |
| Codewords.WalksConstant | host/sphincs_ref.py:107-116 | whatever is signed, an accepted codeword has 42 positions up to 7 whose sum is 191, so the verifier walks 103 steps |
| Codewords.DigestBitsExact | ledger-app/src/crypto/sphincs.c:284-289 | the window holds exactly those bits of the whole number, words straddled or not |
| Codewords.ReferenceBits | host/sphincs_ref.py:220-222 | the reference reads the same bits off the truncated digest |
| Sphincs.ChainSplit | host/sphincs_ref.py:128-131 | walking a chain in two parts is walking it at once |
| Sphincs.OtsVerifies | host/sphincs_ref.py:149-154 | an opened key leads to its public leaf, whatever was signed |
| SphincsBinding.FoldBinds | host/sphincs_ref.py:175-180 | two leaves or paths that fold to one root differ in some pair with the same hash |
| SphincsBinding.ChainBinds | host/sphincs_ref.py:128-131 | two chain values that walk to one end clash at some step |
| SphincsBinding.CodewordBinds | host/sphincs_ref.py:107-115 | a codeword has one digest |
| SphincsBinding.LayerBinds | host/sphincs_ref.py:294-300 | two layer parts with one root are the same, or show a clash at a named node, leaf, chain step or encoding, or open one key at two codewords |
| SphincsBinding.Accepted | host/sphincs_ref.py:271-301 | an accepted signature: every layer leads to the next, the top one to the root, and the last of the fifteen indices is zero |
| SphincsBinding.AcceptedAgree | host/sphincs_ref.py:271-301 | for any hash, two accepted signatures of one index agree on every layer and on every few-time leaf both open, or show a clash or a key opened twice at a named place |
| SphincsBinding.PathBinds | host/sphincs_ref.py:271-301 | an accepted signature with words of layer 0's path changed is rejected or shows a clash at a level |
| SphincsBinding.TweaksDistinct | host/sphincs_ref.py:94-96 | a tweak determines its kind, layer, tree, position and index |
| SphincsBinding.KindsApart | host/sphincs_ref.py:42-43 | the twelve kinds of hash are distinct |
| SphincsBinding.PositionsDistinct | host/sphincs_ref.py:128-131 | within a key every chain step has its own position |
| SphincsSign.StreamLeaf | ledger-app/src/crypto/sphincs.c:85-104 | tips hashed as they are made give the reference's public leaf |
| SphincsSign.FindCounter | ledger-app/src/crypto/sphincs.c:150-156 | the least admissible counter, or none |
| SphincsSign.OtsSign | ledger-app/src/crypto/sphincs.c:137-164 | the counter and the opened chains, written in place, nothing else of the signature touched |
| SphincsSign.LayerVerifies | host/sphincs_ref.py:294-300 | a signed layer leads to its tree's root |
| SphincsSign.Key.Keygen | ledger-app/src/crypto/sphincs.c:268-282 | a valid key: its root and cached level are the recursive tree's |
| SphincsSign.LayerPath | ledger-app/src/crypto/sphincs.c:372-378 | cache or whole tree: the same path and root |
| SphincsSign.SignLayer | ledger-app/src/crypto/sphincs.c:368-379 | one layer written in place, or its counter search stuck |
| SphincsSign.OpeningVerifies | host/sphincs_ref.py:208-215 | a few-time opening leads to its tree's root |
| SphincsSign.FtsVerifies | host/sphincs_ref.py:208-216 | the openings written lead to the key over the trees' roots |
| SphincsSign.SignFts | ledger-app/src/crypto/sphincs.c:333-353 | every few-time tree opened at its index and the key over the roots |
| SphincsScheme.DeviceIndices | ledger-app/src/crypto/sphincs.c:327-330 | the device's index bits are the reference's |
| SphincsScheme.TauSplits | ledger-app/src/crypto/sphincs.c:362-367 | the device's split of the index is the reference's |
| SphincsScheme.FindRandomizer | ledger-app/src/crypto/sphincs.c:302-326 | the least trial whose digest's last index is zero, or none |
| SphincsScheme.LayerStep | ledger-app/src/crypto/sphincs.c:361-380 | writing a layer completes it and leaves every other part of the signature alone |
| SphincsScheme.TopReached | host/sphincs_ref.py:294-301 | with all layers done the reference climbs to the top root |
| SphincsScheme.SignLayers | ledger-app/src/crypto/sphincs.c:355-380 | layers 2, 1 and 0, each signing the value below it |
| SphincsScheme.Sign | ledger-app/src/crypto/sphincs.c:291-382 | for every hash, seed and message: once its searches end the signer returns true and the reference verify accepts what it wrote |
| RingSwitch.MapIsSum | leanvm-pow/ledger/verifier/src/ring_switch.rs:11-22 | the stages compose to sum_k c_k a^(2^k), with exactly the coefficients of the product form, for any number of stages |
| RingSwitch.MapAdd | leanvm-pow/ledger/verifier/src/ring_switch.rs:11-22 | the map is additive, whatever the challenges |
| RingSwitch.EqAtIsMle | leanvm-pow/ledger/verifier/src/transcript.rs:218-224 | the product of 1 + x + y is the multilinear extension of x's eq weights |
| RingSwitch.WeightAt | leanvm-pow/ledger/verifier/src/ring_switch.rs:54-69 | the closed form is the multilinear extension of u -> ring_map(eq(point, u)), so equals it on the cube |
| RingSwitch.TargetIsSum | leanvm-pow/ledger/verifier/src/ring_switch.rs:73-83 | with true slice claims the Horner target is sum_u W(u) q(u), q the word the bit slices make up |
| RingSwitch.RingMap | leanvm-pow/ledger/verifier/src/ring_switch.rs:11-22 | the squaring loops compute the staged map |
| RingSwitch.Coefficients | leanvm-pow/ledger/verifier/src/ring_switch.rs:31-45 | the table of coefficients |
| RingSwitch.At | leanvm-pow/ledger/verifier/src/ring_switch.rs:54-69 | the loops, squaring the point in place, compute the extension |
| RingSwitch.Switch | leanvm-pow/ledger/verifier/src/ring_switch.rs:73-83 | the challenges drawn and the Horner target |
| QueryWeight.SubspaceAdd | leanvm-pow/ledger/verifier/src/whir.rs:107-120 | subspace polynomials are additive |
| QueryWeight.SubspaceIsProduct | leanvm-pow/ledger/verifier/src/whir.rs:107-120 | W_n(z) is the product of z + a over the 2^n elements a of the span |
| QueryWeight.SubspaceVanishes | leanvm-pow/ledger/verifier/src/whir.rs:107-120 | W_n vanishes exactly on the span of 1, x, .., x^(n-1) |
| QueryWeight.InducedIsMle | leanvm-pow/ledger/verifier/src/whir.rs:104-138 | the batched products are the multilinear extension of the batched normalised basis values |
| QueryWeight.Roots | leanvm-pow/ledger/verifier/src/whir.rs:108-120 | the triangular in-place loop leaves W_i(x^i) at every i |
| QueryWeight.OneProduct | leanvm-pow/ledger/verifier/src/whir.rs:128-134 | one query's product, its basis value advanced in step |
| QueryWeight.InducedWeight | leanvm-pow/ledger/verifier/src/whir.rs:104-138 | the whole weight is that extension at the point |
| MaskedMultiply.AddDigits | leanvm-pow/ledger/verifier/src/field.rs:6-12 | adding a 0-1 number to digits with room carries nothing, and the parities add |
| MaskedMultiply.ProductDigits | leanvm-pow/ledger/verifier/src/field.rs:6-30 | no digit of the integer product of two classes exceeds the number of terms, and its parities are the carry-less product |
| MaskedMultiply.MaskedProduct | leanvm-pow/ledger/verifier/src/field.rs:12-30 | masked to its own class, the integer product of two classes is their carry-less product |
| CarrylessMultiply.Clmul32 | leanvm-pow/ledger/verifier/src/field.rs:6-30 | the masked integer multiplies give the carry-less product, for all inputs |
| CarrylessMultiply.Karatsuba | leanvm-pow/ledger/verifier/src/field.rs:127-135 | the middle coefficient from three products |
| CarrylessMultiply.Clmul64 | leanvm-pow/ledger/verifier/src/field.rs:127-135 | both words of the 128-bit carry-less product, for all inputs |
| FieldBase.ReduceIs | leanvm-pow/ledger/verifier/src/field.rs:153-160 | reduce subtracts a multiple of x^64 + x^4 + x^3 + x + 1 and leaves a word |
| FieldBase.Unique | leanvm-pow/ledger/verifier/src/field.rs:153-160 | words that differ by a multiple of the modulus are equal: the remainder is the only one |
| Squares.StepSpaced | leanvm-pow/ledger/verifier/src/field.rs:143-152 | one masked shift halves the chunks that stand apart, for every word and chunk size |
| Squares.SpreadSquares | leanvm-pow/ledger/verifier/src/field.rs:143-152 | the six masked shifts are the carry-less square, for every word |
| Squares.KSquare | leanvm-pow/ledger/verifier/src/field.rs:171-173 | squaring in K is multiplication by itself |
| FieldBase.KAssoc | leanvm-pow/ledger/verifier/src/field.rs:204-210 | multiplication in K is associative |
| FieldBase.KDist | leanvm-pow/ledger/verifier/src/field.rs:204-210 | and distributes over addition |
| FieldRing.MulIsSchoolbook | leanvm-pow/ledger/verifier/src/field.rs:303-314 | Karatsuba with one reduction per coefficient is the schoolbook product in K[y] / (y^3 + y + 1) |
| FieldRing.EMulAssoc | leanvm-pow/ledger/verifier/src/field.rs:303-314 | multiplication in E is associative |
| FieldRing.EFieldLaws | leanvm-pow/ledger/verifier/src/field.rs:289-314 | the operations satisfy every ring law the verifier's algebra uses |
| Squares.ESquare | leanvm-pow/ledger/verifier/src/field.rs:246-250 | three spread limbs, with y^4 = y^2 + y, are the product of an element with itself |
| FieldInverse.OnesAdd | leanvm-pow/ledger/verifier/src/field.rs:176-192 | one link of the addition chain: 2^m - 1 ones shifted up by n, and 2^n - 1 below |
| FieldInverse.Inverse | leanvm-pow/ledger/verifier/src/field.rs:176-192 | the addition chain is the power 2^64 - 2 |
| FieldInverse.PhiMul | leanvm-pow/ledger/verifier/src/field.rs:252-255 | frobenius is multiplicative |
| FieldInverse.NormInK | leanvm-pow/ledger/verifier/src/field.rs:269-275 | a frob(a) frob(frob(a)) always lies in K |
| FieldInverse.EInverseInverts | leanvm-pow/ledger/verifier/src/field.rs:269-275 | the inverse inverts whenever the base inverse inverts the norm |
| FieldBits.ReduceBit | leanvm-pow/ledger/verifier/src/field.rs:154-160 | every bit of a reduced product |
| FieldBits.SquareBit | leanvm-pow/ledger/verifier/src/field.rs:171-173 | every bit of a square in K |
| FieldBits.Idempotent | leanvm-pow/ledger/verifier/src/field.rs:168-173 | only 0 and 1 are their own squares in K |
| FieldBits.NoSquareZero | leanvm-pow/ledger/verifier/src/field.rs:168-173 | only 0 has square 0 |
| FieldUnits.HasInverse | leanvm-pow/ledger/verifier/src/field.rs:175-193 | every nonzero element of K has an inverse: the modulus is irreducible |
| FieldUnits.Fermat | leanvm-pow/ledger/verifier/src/field.rs:175-193 | c^(2^64 - 1) = 1 for every nonzero c in K |
| FieldUnits.InverseInverts | leanvm-pow/ledger/verifier/src/field.rs:175-193 | the power 2^64 - 2 inverts every nonzero element of K, and zero maps to zero |
| FieldDomain.PhiIsPower | leanvm-pow/ledger/verifier/src/field.rs:252-255 | frobenius is the power 2^64 |
| FieldDomain.OnlyIdempotents | leanvm-pow/ledger/verifier/src/field.rs:211-217 | only 0 and 1 are their own squares in E: y^3 + y + 1 has no root in K |
| FieldDomain.EFieldDomain | leanvm-pow/ledger/verifier/src/field.rs:211-217 | E has no zero divisors, which discharges that hypothesis of every result that divides |
| FieldDomain.Invert | leanvm-pow/ledger/verifier/src/field.rs:269-274 | E::inv is the power 2^192 - 2: it inverts every nonzero element, and zero maps to zero |
| FieldGuest.EmbIs | leanvm-pow/pow/guest/pow.py:193-196 | the polynomial in the generator with the bits of a 64-bit n is the word n |
| FieldGuest.OrderExists | leanvm-pow/ledger/verifier/src/field.rs:221 | the generator has an order above one: its powers agree only when their exponents do, modulo it |
| FieldGuest.EIsGuestField | leanvm-pow/ledger/verifier/src/field.rs:221 | with its generator, its y and its inverse, E is a field as the guest's proofs ask for one |
| FieldInverse.ScaleByK | leanvm-pow/ledger/verifier/src/field.rs:316-324 | multiplying by an element of K scales the limbs |
| FieldInverse.TimesMonomial | leanvm-pow/ledger/verifier/src/field.rs:276-280 | a shift and a reduction multiply a limb by x^k |
| HashStreams.AfterGrows | ledger-app/src/crypto/hash.c:73-92 | later input does not touch earlier blocks |
| HashStreams.Context.Update | ledger-app/src/crypto/hash.c:75-92 | any words in any number: the context stands for everything fed |
| HashStreams.Context.Flush | ledger-app/src/crypto/hash.c:78-82 | the held-back block compressed only once more input is there |
| HashStreams.Context.Final | ledger-app/src/crypto/hash.c:94-122 | the one-shot hash of everything fed, in exactly its compressions; the empty raw SHA-256 input apart |
| HashStreams.HashPieces | ledger-app/src/crypto/hash.c:45-122 | any cutting of the input gives the hash of the whole, for all three modes, exactly unless raw SHA-256 is fed nothing |
| HashStandards.OneShotBlake | ledger-app/src/crypto/hash.c:45-122 | BLAKE2s as section 3.3 of RFC 7693 has it: each zero-filled block with the bytes up to its end, the last one flagged |
| HashStandards.OneShotSha | ledger-app/src/crypto/hash.c:45-122 | the SHA-256 compressions over zero-filled blocks |
| HashStandards.OneShotKeccak | ledger-app/src/crypto/hash.c:45-122 | the whole blocks permuted in, then the rest padded |
| KeccakStream.LastBlock | leanvm-pow/ledger/verifier/src/hash.rs:265-275 | the padding's two ends added where finish adds them are the padded last block |
| KeccakHasher.Hasher.EndLane | leanvm-pow/ledger/verifier/src/hash.rs:222-231 | a lane ended, and the block when it is full, on the interleaved state and the app's permutation |
| KeccakHasher.Hasher.Update | leanvm-pow/ledger/verifier/src/hash.rs:233-251 | bytes and whole words in any mixture: the state stands for everything fed |
| KeccakHasher.Hasher.FeedZeros | leanvm-pow/ledger/verifier/src/hash.rs:253-263 | zero bytes skipped a lane at a time |
| KeccakHasher.Hasher.Finish | leanvm-pow/ledger/verifier/src/hash.rs:265-275 | the one-shot sponge, with Keccak-f on numbers, of everything fed |
| ProofStream.RecordedReplays | leanvm-pow/pow/src/ledger.rs:98-212 | for every deterministic verifier and fuel, an accepted recording is accepted from its own bytes |
| ProofBinding.RecordingBinds | leanvm-pow/pow/src/ledger.rs:98-178 | an accepted recording is the whole proof: two proofs with one accepted recording are the same proof |
| ProofStream.Recorder.Read | leanvm-pow/pow/src/ledger.rs:123-165 | one piece served and recorded, or the error, cursors exact |
| ProofStream.RunRecorder | leanvm-pow/pow/src/ledger.rs:205-210 | verifying while recording |
| ProofStream.Device.NextChunk | leanvm-pow/ledger/app/src/main.c:70-85 | the next chunk, or false when the host sends nothing |
| ProofStream.Device.Take | leanvm-pow/ledger/app/src/main.c:98-106 | as much of the chunk at hand as is wanted |
| ProofStream.Device.Read | leanvm-pow/ledger/app/src/main.c:87-109 | the next bytes whatever the chunks, or a failure that lasts |
| ProofStream.Device.Finish | leanvm-pow/ledger/app/src/main.c:111-114 | true exactly when all that was promised is taken and no byte of the chunk at hand is left; with a truthful host, when no byte is left at all |
| ProofStream.RunDevice | leanvm-pow/ledger/app/src/main.c:70-114 | the verdict is that of the bytes, however the host cut them |
| ProofStream.CutBySizes | leanvm-pow/ledger/app/src/main.c:70-84 | sizes that add up are those of a cut of the stream exactly when each is from 1 to 255 |
| ProofStream.RecordThenVerify | leanvm-pow/pow/src/ledger.rs:204-212 | what an accepted recording run sent is accepted on the device under every split into chunks of 1 to 255 bytes |
| SparseTable.TableDecodes | leanvm-pow/pow/src/ledger.rs:34-53 | dictionary, entries and starts decode back to every cell of the table |
| SparseTable.Encode | leanvm-pow/pow/src/ledger.rs:34-53 | the encoder, and when it refuses |
| SparseEvaluate.LowestBit | leanvm-pow/ledger/verifier/src/bytecode.rs:60-64 | w & (w - 1) clears the lowest set bit and no other |
| SparseEvaluate.MonomialAdded | leanvm-pow/ledger/verifier/src/bytecode.rs:19-28 | a word's bits added in are the weighted word added to the sum |
| SparseEvaluate.SumGroup | leanvm-pow/ledger/verifier/src/bytecode.rs:53-66 | one group: the cursor stops at the next group, the sum is the group's |
| SparseEvaluate.SumColumn | leanvm-pow/ledger/verifier/src/bytecode.rs:50-68 | one column, group by group |
| SparseEvaluate.ColumnIsWhole | leanvm-pow/ledger/verifier/src/bytecode.rs:1-6 | a column's nonzero entries sum to its whole column |
| SparseEvaluate.DenseByColumn | leanvm-pow/ledger/verifier/src/bytecode.rs:3-4 | the dense extension, column by column |
| SparseEvaluate.Evaluate | leanvm-pow/ledger/verifier/src/bytecode.rs:30-72 | on an encoded table the sparse evaluation is the dense multilinear extension at every point; other sizes are refused |
| StackRuns.SortRuns | leanvm-pow/ledger/verifier/src/transcript.rs:293-303 | a stable insertion sort: largest first, ties by index, a permutation |
| StackRuns.PrefixesStack | leanvm-pow/ledger/verifier/src/transcript.rs:304-310 | the running offsets give runs aligned to their length, pairwise disjoint, that fill [0, total) |
| StackRuns.RunsApart | leanvm-pow/ledger/verifier/src/transcript.rs:291 | two different runs share no word |
| StackRuns.LogCeilIs | leanvm-pow/ledger/verifier/src/transcript.rs:268-270 | the least power of two at or above a number |
| StackRuns.StackOffsets | leanvm-pow/ledger/verifier/src/transcript.rs:291-312 | the whole of it, for all sizes |
| StackLayout.SlotsDistinct | leanvm-pow/ledger/verifier/src/tables.rs:286-306 | no two columns share a slot of q_keccak, and all slots are among its 64 |
| StackLayout.SlotTable | leanvm-pow/ledger/verifier/src/tables.rs:289-312 | the slots column by column: the 25 input lanes, then thirteen columns and the first counter in the spare ones; the output lanes have none |
| StackLayout.HeightLeast | leanvm-pow/ledger/verifier/src/bus.rs:77-80 | a table's height is the least that holds its rows, at least 9 for KECCAK |
| StackLayout.StackLogLeast | leanvm-pow/ledger/verifier/src/bus.rs:109-118 | the stack's log is the least from 15 up that holds its words |
| StackLayout.VerdictIs | leanvm-pow/ledger/verifier/src/bus.rs:63-118 | a layout is built exactly for a bytecode of 2^4 to 2^36 words, memory of 2^16 to 2^32, tables of at most 2^32 rows, and at most 2^28 words in all |
| StackLayout.SlotsLayout | leanvm-pow/ledger/verifier/src/bus.rs:111-130 | own blocks disjoint; riders aligned, inside q_keccak's block and disjoint from one another |
| StackLayout.RiderApartFromOwn | leanvm-pow/ledger/verifier/src/bus.rs:116-121 | a rider meets no column's own block but q_keccak's |
| StackLayout.BuildLayout | leanvm-pow/ledger/verifier/src/bus.rs:63-141 | the layout with all of that, or the error for exactly the sizes the code refuses |
| Windows.PlacingMle | leanvm-pow/ledger/verifier/src/bus.rs:46-49 | a table in an aligned window extends to its own extension times the weight of the window's bits |
| Windows.PlacingSum | leanvm-pow/ledger/verifier/src/transcript.rs:277-289 | a sum against a placed table is the sum over its window |
| Windows.EqBits | leanvm-pow/ledger/verifier/src/transcript.rs:226-233 | the loop is the eq weight of the selector's bits |
| Batching.BasisIsMle | leanvm-pow/ledger/verifier/src/lib.rs:139-168 | the batched weight is the multilinear extension of the words' weights, at every point |
| Batching.TargetIsWeighted | leanvm-pow/ledger/verifier/src/lib.rs:253-274 | when every claim and the ring claim are true, the batched target is sum_u weight(u) stack(u) |
| Batching.PublicLine | leanvm-pow/ledger/verifier/src/lib.rs:234-241 | a memory limb holding the public input has the public line's value at the public point |
| Batching.PublicEq | leanvm-pow/ledger/verifier/src/lib.rs:128-135 | the short product is the eq weight of the point (challenge, 0, 0, ..) |
| Batching.RingClaimTrue | leanvm-pow/ledger/verifier/src/lib.rs:255-257 | true slice claims make the ring claim true on q_keccak's window |
| Batching.LayoutShapes | leanvm-pow/ledger/verifier/src/lib.rs:85-102 | after a built layout every claim's slot has its point's coordinates, so one cached product serves all claims at a point |
| Batching.Basis | leanvm-pow/ledger/verifier/src/lib.rs:139-168 | with its per-point cache the loop equals direct recomputation |
| Batching.BatchTarget | leanvm-pow/ledger/verifier/src/lib.rs:255-274 | the loop's target: the ring target and each committed claim by the powers of the scale |
| BatchClaims.TableIs | leanvm-pow/ledger/verifier/src/tables.rs:38-48 | a column's table is the one whose base and width it lies in |
| BatchClaims.EachOnce | leanvm-pow/ledger/verifier/src/lib.rs:83-99 | each column of the memory, the bytecode and the tables, each public limb and q_keccak is claimed exactly once at its point, and nothing else is |
| BatchClaims.ClaimNumber | leanvm-pow/ledger/verifier/src/lib.rs:83-99 | the order of the 166 claims |
| BatchClaims.TrueClaims | leanvm-pow/ledger/verifier/src/lib.rs:255-274 | the claims are true exactly when each walked value is its column's extension at its own point |
| BatchClaims.TargetShares | leanvm-pow/ledger/verifier/src/lib.rs:255-274 | the target is the sum of the committed claims' values, each by scale^(1 + committed claims before it) |
| BatchClaims.WeightShares | leanvm-pow/ledger/verifier/src/lib.rs:139-168 | the weight is the sum of the committed claims' weights by the same powers |
| BatchClaims.SlotOf | leanvm-pow/ledger/verifier/src/tables.rs:287-306 | q_keccak's slots: the 25 input lanes and the 14 spare columns, and no other column |

## Left out

- Probabilities: challenges are any function of everything absorbed and drawn (`DuplexSponge` has the function the code computes), and soundness names the exceptional challenges, fewer than the coefficients, instead.
- FieldGuest.OrderExists: the generator has an order above one; that it is 2^64 - 1 is not derived, so that the guest's memory fits below half of it stays a hypothesis (`Machine.Valid`).
- GkrLayers.GkrSound: the leaf values returned are assumed true, since the openings that check them come later in the protocol.
- The bus around the grand products (`block_form`, the count-root test, the table sumcheck) and the flush tuples: evaluation of fixed formulas, no fast form behind them.
- The KECCAK GKR around its weights (`verify_layer`, `open`, `open_inputs`, `open_outputs`), and the weights' easier members `lane0_sum` and `dot_eq_initial` (a product of two sums).
- The main loop of `verify_whir`, `sample_queries`, `derive_config` and the proof-of-work nonce: the level's opening, lookup and weight are modelled, not their sequencing.
- MerkleRows.OpenRows: the row and leaf hashes are any functions of the words.
- StackRuns.StackOffsets: offsets are unbounded integers; the at most 163 runs of at most 2^38 words stay below 64 bits.
- Windows.EqBits: the selector is unbounded, the source's is a 64-bit word.
- Guest: the permutation on the two message cells is any function to two 64-bit lanes, and `hint_decompose_bits` is a stream of bit hints in the order it is called; the language's own compiler is not part of this model.
- The hash and compression functions, the Keccak round constants and the concrete tables of the program are parameters.
- HashStreams.Context.Final: Keccak's absorb, pad and permutation are parameters of the hash; `KeccakDevice` relates the device's to the plain ones.
- The signer's statistics and its byte copies between word buffers.
- SphincsScheme.Sign: the two searches run over 32-bit counters and stop when they are exhausted, where the code would wrap and search on for ever; the outcome says which search is stuck.
- SphincsSign.SignFts: the opened secret is returned by value, not written through the leaf callback.
- Scheduler.Schedule: an instruction is any state change that honours its declared registers and memory region; encodings, flags and cycle counts are left out, and the BLAKE2s and SHA-256 generators' own schedules are not modelled.
- KeccakEmitted.EmittedRound: words are named, not allocated to registers; `DRegisters` has the registers, `Scheduler` the reordering.
- DRegisters.Allocate: proved for every order of the ten items; that some shuffle is accepted is a finite search.
- `E::pow`, `eq_eval` on points of different lengths, `K` multiplication by table: fixed small forms.
- ProofStream.RecordedReplays: a verifier is a deterministic function of the bytes read, with fuel for the number of reads; the accepted run's length bounds it.
- ProofStream.Device.NextChunk: the host is the sequence of chunks it sends; command parsing is left out, an empty or wrong command being the end of what it sends.
- SparseEvaluate.Evaluate: the table's words and size are arguments, where the source compiles them in.
- Command dispatch, USB framing, screens, flash, benchmarks and serial tests: input, output and measurement.
