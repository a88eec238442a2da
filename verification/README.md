# Chiral bridge: verified model

Chiral moves assets between Cardano and CKB. This project models the kernels its safety rests on and proves
their properties with Dafny 4.11. `dafny verify dfyconfig.toml` checks everything.

## What is modelled

**Nullifiers.** `SparseMerkle` and `NullifierRegistry` are the type script that stores one sparse Merkle root and
accepts one insertion per spend; `WitnessBuilder` is the relayer that rebuilds the tree, and its depth-128 relatives.
The refinement is from a root to the set of inserted keys.

**Certificates.** `ExpSeries` and `Lottery` relate the exact rational lottery to its fixed-point replacement, with the
error bounds that make the replacement sound; `LotteryOdds` gives the odds themselves. `BatchMerkle` is the heap-shaped
batch proof, and `Certificate` puts both checks together.

**CBOR walkers.** `Cbor` defines definite-length items and the strict walker; `CborSkippers` the lenient ones and the
relayer's; `SealWalk`, `MintField`, `EscrowWalk` and `BodyParse` (`BodyParseExact`) decide facts about Cardano bodies. Each
walker is a method with the source's loops, proved equal to a recursive specification on every byte string; the
specification is proved exact on every encoding of a body datatype that knows nothing of bytes.

**Scripts and runs.** `Scripts` holds the environment, `Ledger` the cells, transactions and scans, `BurnUnlock`,
`XadaMint`, `XadaOwner`, `BurnReceipt` and `BoundAsset` the exit codes of the scripts with exact conditions for acceptance,
`Membership` says what their proofs show, `Bridge` the runs in which every script of every transaction accepts.
`ReplayOnce`, `Conservation` and `BoundLineage` are theorems about all runs, each asking only the scripts it names to
accept (`Runs`, `RegistryRuns`), `SharedInsertion` says what one insertion can serve, with whole runs in
`SharedExamples` (on `SharedRun`), `OwnerTokens` what an owner lock sums, and `RegistryLiveness` that the registry never gets stuck; `ReceiptExamples` has a run with two receipts. `Legs` and
`SealOutputs` restate each leg in terms of what the Cardano transaction says.

**Encoders and the follower.** `WitnessLayout` (proof witness), `Molecule` (CKB transaction), `Bech32` (addresses), `Window`
(header window).

## Conventions

A hash is a function parameter about which nothing is assumed. Soundness statements end in "or a collision": two
different members of an explicit finite set of inputs, all hashed in the run at hand, have the same hash.
The Merkle mountain range check is a predicate of the environment. System calls are the fields of a resolved transaction.
A panic is `None`, or the exit code -1; both reject. A byte string is a sequence of integers 0 to 255; 64-bit
arithmetic is written out where it can wrap. Rational arithmetic of the exact lottery is over `real`.

Runs start from any ledger state without a registry cell (and, where stated, without supply or bound cells). An outpoint
is live at most once: this is the ledger's rule, not the scripts'.

## Where code and documentation differ

- `spike/burn-gated-unlock/src/bin/burn_gated_unlock_v2.rs:84` says the value for a malformed body never equals a valid
  burn. It does at the one amount 2^127 + 1.
- The comment at line 198 of that file says the bound amount must be burned. This holds exactly for amounts up to 2^127;
  above, the cast makes the required quantity positive.
- The comment at `spike/burn-gated-unlock/src/bin/xada_mint.rs:287-291` speaks of the escrow outpoint. The code nullifies
  the escrow transaction, so of several locks in one transaction only the first is ever minted (`EscrowWalk.OneLockPerBody`).
- Line 196 of that file says one lock gives at most one mint. This holds for each token; several tokens on one registry
  are minted against one lock by one transaction, each in full (`SharedInsertion`, `SharedExamples.TwoOwnersMint`).
- `spike/burn-gated-unlock/src/bin/xada_burn_receipt.rs:6-9` says that a receipt can never overstate the burn. Each one
  cannot; where receipt scripts of one policy run under different code, each states the whole burn of a transaction
  (`Conservation.ReceiptsOfOneBurn`, `ReceiptExamples.TwoReceipts`).
- `spike/light-client-cell/cert-verify/src/main.rs:3-4` lists the stake lottery, the Merkle batch and the quorum as checks of
  the signers. The batch check looks only at the signers with a batch index, while the lottery counts all of them
  (`Certificate.QuorumBeyondTheIndices`; the BLS check is not part of this model).
- `spike/burn-gated-unlock/src/bin/xada_mint_owner.rs:27-29` says that code hash and args identify the token. The code
  compares the first 32 bytes of the args, so tokens with longer args are summed with it (`OwnerTokens`).
- The comment at `spike/burn-gated-unlock/src/bin/xada_mint.rs:108` asks for an inline datum at the escrow output. The code gives up at any output
  before it whose datum is a hash (`EscrowWalk.HashHidesALaterLock`).
- `spike/phase4/difftest/src/verifier.rs:63` speaks of the unique count of indices. The code counts every entry of every
  list, repeated or not (`Lottery.CountIsUnique`, `Lottery.RepeatedIndexIsQuorum`). The script checks the order, so there an
  index counts once for each signer (`Lottery.CheckedCountIsUnique`).
- `spike/burn-gated-unlock/src/bin/bound_asset_v2.rs:59-81` takes field 2 of output 0 for an inline datum. A datum hash there
  is read as one too, from its own bytes (`BodyParseExact.HashReadAsDatum`).
- The branches at lines 273-276 and 328-334 of that file ask for the seal at the lock and for a datum. The code looks for the
  seal in every output and for the datum in output 0 (`SealOutputs.SealApartFromDatum`).

## Model

| member | source | states |
|---|---|---|
| SparseMerkle.Fold | spike/burn-gated-unlock/src/bin/burn_nullifier_registry.rs:50-60 | folding a leaf up through siblings equals the recursive definition of the path |
| SparseMerkle.SameLeafIsSameKey | spike/burn-gated-unlock/src/bin/burn_nullifier_registry.rs:49-55 | keys that agree on all 256 path bits are equal: the bit order reaches every bit of the key |
| SparseMerkle.BitIsBinary | spike/burn-gated-unlock/src/bin/burn_nullifier_registry.rs:55-55 | bit i of a key is the digit of 2^(255-i) in its big-endian number |
| SparseMerkle.FoldStep | spike/burn-gated-unlock/src/bin/burn_nullifier_registry.rs:50-60 | at height h the fold puts the sibling on the left exactly when the digit of 2^(h-1) in the key's number is 1 |
| SparseMerkle.RootStep | relayer/onchain/reg_nullifier_witness.py:35-47 | the root over h levels hashes the root of the keys with digit 0 at 2^(h-1), then that of the keys with digit 1 |
| SparseMerkle.AbsenceIsSound | spike/burn-gated-unlock/src/bin/burn_nullifier_registry.rs:101-102 | a path from the zero leaf to the root of a key set means the key is not in the set, or a collision among the listed node inputs |
| SparseMerkle.SiblingsAreForced | spike/burn-gated-unlock/src/bin/burn_nullifier_registry.rs:101-104 | whatever siblings are supplied, if they lead to the root they are the real ones, or a collision |
| SparseMerkle.InsertionExact | spike/burn-gated-unlock/src/bin/burn_nullifier_registry.rs:101-104 | for any height: siblings that open the old root at zero and the new root at PRESENT mean the key was absent and the new root is that of the set with it, or a collision |
| NullifierRegistry.EmptyRoot | spike/burn-gated-unlock/src/bin/burn_nullifier_registry.rs:46-46 | the loop computes the root of the empty tree |
| NullifierRegistry.EmptyLevelIsEmptyRoot | spike/burn-gated-unlock/src/bin/burn_nullifier_registry.rs:46-46 | the doubled hashes are the root of the empty key set, at every height |
| NullifierRegistry.ProgramEntry | spike/burn-gated-unlock/src/bin/burn_nullifier_registry.rs:62-106 | the imperative entry point, array fill and folds included, returns the exit code of the specification on every view |
| NullifierRegistry.GenesisExact | spike/burn-gated-unlock/src/bin/burn_nullifier_registry.rs:68-79 | both directions: a creation passes exactly when it makes one cell with the root of the empty set, named after the first input |
| NullifierRegistry.AcceptedUpdate | spike/burn-gated-unlock/src/bin/burn_nullifier_registry.rs:81-106 | an accepted spend of a cell holding the root of a set inserts one new key, whatever the witness, or a collision |
| NullifierRegistry.RegistryRefinesSet | spike/burn-gated-unlock/src/bin/burn_nullifier_registry.rs:62-106 | over every run: the stored root is the root of exactly the inserted keys, no key twice, or a collision |
| NullifierRegistry.OrderDoesNotMatter | relayer/onchain/reg_nullifier_witness.py:38-47 | two runs that inserted the same keys in any order store the same root, or a collision |
| WitnessBuilder.SubtreeIsRoot | relayer/onchain/reg_nullifier_witness.py:38-47 | the builder's subtree hash of a key list is the root of its set |
| WitnessBuilder.Partition | relayer/onchain/reg_nullifier_witness.py:54-59 | the split at one bit gives exactly the keys of the two sides |
| WitnessBuilder.Siblings | relayer/onchain/reg_nullifier_witness.py:49-60 | the loop produces the siblings of the key's path through the tree of the present keys |
| WitnessBuilder.BuildInsertion | relayer/onchain/reg_nullifier_witness.py:84-93 | refuses exactly a key already present; otherwise its self-checks hold and it returns the path witness with the roots before and after |
| WitnessBuilder.HonestWitnessAccepted | spike/burn-gated-unlock/src/bin/burn_nullifier_registry.rs:81-106 | the registry accepts the witness the builder made, for any key list and any key not in it |
| WitnessBuilder.EmptySiblings | spike/ckb-to-cardano/groth16/leap_mint.py:42-46 | the loop yields the empty-subtree hashes by height |
| WitnessBuilder.EmptyShortcutIsPath | spike/ckb-to-cardano/groth16/leap_mint.py:47-56 | the empty-tree shortcut equals the real path and roots when nothing is present |
| WitnessBuilder.FirstSeal | spike/ckb-to-cardano/groth16/leap_mint.py:47-56 | the mint script's first insertion gives the root of the empty tree and of the one-seal tree |
| WitnessBuilder.SealPathExact | spike/ckb-to-cardano/groth16/release_xada.py:47-65 | depth 128: with no present seal sharing the key's path, folding over the builder's siblings gives the old and the new root |
| ExpSeries.TermTiny | spike/light-client-cell/cert-verify/src/main.rs:71-71 | every term is below a quarter to the k: the series converges at the source's rate |
| Lottery.TaylorComparison | spike/phase2/host_difftest.rs:13-26 | true exactly when the first deciding partial sum within the bound says the comparison value is below |
| Lottery.IsLotteryWon | spike/phase2/host_difftest.rs:28-35 | the exact lottery over the rationals with 1000 terms |
| Lottery.ComputeTarget | spike/phase2/host_difftest.rs:49-68 | for every stake and total the loop's result equals the closed form over 401 terms; for a stake within the total it exits on the first zero term, at 385 at the latest |
| Lottery.VanishesBy385 | spike/light-client-cell/cert-verify/src/main.rs:71-71 | the fixed-point term is zero from 385 on, so the exit at 400 never fires |
| Lottery.TermError | spike/light-client-cell/cert-verify/src/main.rs:71-71 | every fixed-point term is within 2 of the exact term at scale 2^768 |
| Lottery.AccError | spike/light-client-cell/cert-verify/src/main.rs:70-72 | the accumulated sum is within 1024 of the exact partial sum at that scale |
| Lottery.TargetRange | spike/light-client-cell/cert-verify/src/main.rs:68-73 | the target of a positive stake lies between 1 and 2^510 |
| Lottery.WonAbove | spike/phase2/host_difftest.rs:28-68 | a value whose complement exceeds the fixed-point sum by the margin is won exactly |
| Lottery.LostBelow | spike/phase2/host_difftest.rs:28-68 | a value whose complement is below the sum by the margin is lost exactly, even after all 1000 terms |
| Lottery.FastRefinesExact | spike/phase2/host_difftest.rs:28-68 | every ev up to T-2 wins the exact comparison, every ev from T+1 on loses it |
| Lottery.FastIsExact | spike/phase2/host_difftest.rs:46-68 | fast and exact agree on every ev when the low 256 bits of the sum are not within 1024 of a carry |
| LotteryOdds.WholeStakeTarget | spike/phase2/host_difftest.rs:46-68 | for every stake that is the whole total, the target is one fifth of 2^512, up to 2^-50 of it in five targets: phi_f is 0.2 |
| LotteryOdds.WholeStakeWins | spike/phase2/host_difftest.rs:27-35 | and the exact lottery is won by the whole stake below that fifth and lost above it, up to the same margin |
| Lottery.CheckLottery | spike/light-client-cell/cert-verify/src/main.rs:90-108 | accepts exactly when k is the pinned one, every index is in range, increasing and below the target, and the count reaches the quorum; a zero total panics |
| Lottery.QuorumIsExact | spike/light-client-cell/cert-verify/src/main.rs:90-108 | the accepted count over the first signers, or all of them, is the number of their different (signer, index) pairs, and each pair of a signer whose stake is within the total wins the exact lottery, except possibly at the single value T-1 |
| Lottery.LotteryQuorum | spike/phase4/difftest/src/verifier.rs:64-76 | accepts exactly when every declared index is below its signer's target and the number of indices in the lists reaches k; no order or range is checked |
| Lottery.CheckedIsOrdered | spike/light-client-cell/cert-verify/src/main.rs:90-108 | the script's check is the one of verifier.rs at the fixed quorum together with strictly increasing indices in range |
| Lottery.CountIsUnique | spike/phase4/difftest/src/verifier.rs:63-76 | the count is the number of different indices exactly when no index occurs twice, within one list or across two |
| Lottery.RepeatedIndexIsQuorum | spike/phase4/difftest/src/verifier.rs:63-76 | one winning index written k times in one list is accepted for every k, although no two signers share an index |
| Lottery.CheckedCountIsUnique | spike/light-client-cell/cert-verify/src/main.rs:90-108 | where the order is checked, the count is the number of different indices exactly when no two signers share one |
| Lottery.SharedIndicesReachQuorum | spike/light-client-cell/cert-verify/src/main.rs:90-108 | two signers who win the same half of a quorum of indices reach the quorum, at any hash values, stakes and total |
| Lottery.HalfQuorumExists | spike/light-client-cell/cert-verify/src/main.rs:90-108 | there are two such signers: each with half of the stake, at the hash value 0 |
| Certificate.QuorumIsRegistered | spike/light-client-cell/cert-verify/src/main.rs:90-131 | both checks together, for every accepted certificate and claimed number of leaves: the signers with a batch index have as many different (leaf, lottery index) pairs as indices, at least STM_K when no signer is without a batch index, each pair winning with the stake registered in its leaf, if that is within the total, except possibly at T-1; or a collision |
| Certificate.QuorumBeyondTheIndices | spike/light-client-cell/cert-verify/src/main.rs:90-131 | in the tree of any two leaves, a certificate that lottery and batch check accept although the one signer with a batch index has no lottery index and the whole quorum is that of a key outside the tree |
| BatchMerkle.ComputeNextPow2 | spike/light-client-cell/cert-verify/src/main.rs:109-109 | the loop returns a power of two not below n, and every power of two not below n is at least as large |
| BatchMerkle.ComputeLevel | spike/light-client-cell/cert-verify/src/main.rs:117-129 | one pass of the in-place level rewrite equals one step of the recursive climb; running out of values is a panic |
| BatchMerkle.CheckMerkle | spike/light-client-cell/cert-verify/src/main.rs:110-131 | the whole check equals the recursive specification, panics included |
| BatchMerkle.BatchSound | spike/light-client-cell/cert-verify/src/main.rs:110-131 | for every claimed number of leaves, acceptance against the root of the heap-shaped tree means every signer with an index is the tree's leaf at that index's heap position, positions used once and in order, or a collision |
| BatchMerkle.BatchAtIndex | spike/light-client-cell/cert-verify/src/main.rs:110-131 | the heap position at which a signer is the tree's leaf is its own index exactly when the claimed number of leaves rounds up to the same power of two as the tree's, or a collision |
| BatchMerkle.ClaimedIndexMayDiffer | spike/light-client-cell/cert-verify/src/main.rs:112-114 | leaf 1 of every two-leaf tree is accepted at index 2 of one claimed leaf |
| BatchMerkle.BeyondIndicesIgnored | spike/light-client-cell/cert-verify/src/main.rs:113-130 | signers past the batch indices are not looked at: acceptance is the same with or without them |
| BatchMerkle.BatchComplete | spike/phase4/difftest/src/verifier.rs:80-102 | for strictly increasing indices the honest sibling list is accepted |
| Cbor.OSkip | spike/burn-gated-unlock/src/bin/bound_asset_v2.rs:106-117 | the recursive walker with its loops equals the specification on every byte string, within bounds |
| Cbor.SkipComplete | spike/burn-gated-unlock/src/bin/bound_asset_v2.rs:106-117 | every definite-length item (section 3 of RFC 8949) within the depth limit is stepped over exactly |
| Cbor.SkipSound | spike/burn-gated-unlock/src/bin/bound_asset_v2.rs:106-117 | whatever is stepped over is such an item |
| Cbor.SkipExact | spike/burn-gated-unlock/src/bin/bound_asset_v2.rs:95-117 | both directions: it returns an end exactly when an item of depth at most 64 stands there and ends there |
| CborSkippers.OSkipD | spike/burn-gated-unlock/src/bin/burn_gated_unlock_v2.rs:66-78 | the depth-capped walker equals its specification |
| CborSkippers.SkippersAgree | spike/burn-gated-unlock/src/bin/bound_asset_v2.rs:54-58 | where the strict walker succeeds, skip, skip_d and the relayer's length function give the same end |
| CborSkippers.SkipDTakesBreak | spike/burn-gated-unlock/src/bin/burn_gated_unlock_v2.rs:52-64 | a byte the strict walker refuses and the lenient ones accept |
| CborSkippers.ReservedHeads | spike/burn-gated-unlock/src/bin/burn_gated_unlock_v2.rs:52-78 | a reserved or indefinite head is stepped over as one byte, a tag together with what follows it |
| CborSkippers.ExtractsTheBody | relayer/transcode.py:39-45 | the relayer cuts exactly the encoded first element out of a transaction |
| SealWalk.ComputeValHasPolicy | spike/burn-gated-unlock/src/bin/bound_asset_v2.rs:118-135 | the loop equals its specification on every byte string |
| SealWalk.ComputeSealAtLock | spike/burn-gated-unlock/src/bin/bound_asset_v2.rs:136-174 | the nested loops equal their specification on every byte string |
| SealWalk.SealAtLockExact | spike/burn-gated-unlock/src/bin/bound_asset_v2.rs:136-174 | on every encoded body with outputs in array or map form: true exactly when some output at the lock address holds an asset under the policy |
| MintField.ComputeMintQty | spike/burn-gated-unlock/src/bin/burn_gated_unlock_v2.rs:85-118 | the nested loops equal their specification on every byte string |
| MintField.MintQtyExact | spike/burn-gated-unlock/src/bin/burn_gated_unlock_v2.rs:88-118 | for every encoded body below 2^62 bytes, with a mint field or without, the result is the mathematical sum of all matching quantities; no addition saturates |
| MintField.BodyPasses | spike/burn-gated-unlock/src/bin/burn_gated_unlock_v2.rs:196-198 | a body passes exactly when it mints minus the amount, up to 2^127, and exactly when it mints 2^128 less the amount above |
| MintField.NoMintPassesAtZero | spike/burn-gated-unlock/src/bin/burn_gated_unlock_v2.rs:117-117 | a body without a mint field passes exactly for the amount 0 |
| MintField.OtherQuantity | spike/burn-gated-unlock/src/bin/burn_gated_unlock_v2.rs:79-82 | a quantity that is no integer counts as nothing and is stepped over |
| MintField.LargestAmountTakesAMint | spike/burn-gated-unlock/src/bin/burn_gated_unlock_v2.rs:196-198 | a concrete body that mints one token passes at the largest amount |
| EscrowWalk.ComputeEscrowOutput | spike/burn-gated-unlock/src/bin/xada_mint.rs:109-164 | the nested loops equal their specification on every byte string |
| EscrowWalk.EscrowOutputExact | spike/burn-gated-unlock/src/bin/xada_mint.rs:109-164 | on every encoded body: coin and datum of the first complete map output at the escrow, and None exactly when there is none or a map output up to and including it names its datum by hash |
| EscrowWalk.OneLockPerBody | spike/burn-gated-unlock/src/bin/xada_mint.rs:152-158 | of the lovelace a body locks at an escrow exactly the stranded part is never returned: all locks when a hash stands before, else all but the first |
| EscrowWalk.HashHidesALaterLock | spike/burn-gated-unlock/src/bin/xada_mint.rs:145-145 | for every hash and datum a body whose lock at the second output is not found, because its first output has a datum hash |
| EscrowWalk.RecipientExact | spike/burn-gated-unlock/src/bin/xada_mint.rs:90-96 | the recipient is read exactly whatever follows it, also when nothing does |
| EscrowWalk.DatumReadersExact | spike/burn-gated-unlock/src/bin/xada_mint.rs:80-103 | recipient and amount are read exactly from definite and indefinite field arrays |
| BodyParse.ComputeParse | spike/burn-gated-unlock/src/bin/bound_asset_v2.rs:59-81 | the loops equal their specification; a read past the end is a panic |
| BodyParseExact.ParseExact | spike/burn-gated-unlock/src/bin/bound_asset_v2.rs:59-81 | on every encoded body, entries in any order: exactly the consumed outpoints, tag 258 or not, and the bytes read at field 2 of output 0, for an inline datum the datum, for a hash that begins with a head reaching to its end the bytes after that head |
| BodyParseExact.ParseIsDeclared | spike/burn-gated-unlock/src/bin/bound_asset_v2.rs:71-77 | those bytes are the inline datum, or nothing where there is none, exactly when output 0 names no hash |
| BodyParseExact.HashIsNeverEmpty | spike/burn-gated-unlock/src/bin/bound_asset_v2.rs:71-77 | a body whose output 0 has a 32-byte hash that begins with a positive argument is never read as one without a datum, whatever follows: the walk panics or returns bytes |
| BodyParseExact.HashReadAsDatum | spike/burn-gated-unlock/src/bin/bound_asset_v2.rs:73-74 | for every 30 bytes: after 58 1e in a hash they come out as the inline datum of an output that has none |
| BodyParseExact.ZeroHeadPasses | spike/burn-gated-unlock/src/bin/bound_asset_v2.rs:73-74 | a hash that begins with a zero reads as no datum when nothing is read after it |
| BodyParseExact.ZeroHeadPanics | spike/burn-gated-unlock/src/bin/bound_asset_v2.rs:73-74 | and may panic when something is: the walk goes on inside the hash |
| BodyParseExact.SealReadersExact | spike/burn-gated-unlock/src/bin/bound_asset_v2.rs:83-92 | commitment and recipient are read exactly from definite and indefinite field arrays |
| BodyParseExact.CommitmentExact | spike/burn-gated-unlock/src/bin/bound_asset_v2.rs:82-84 | the commitment is read exactly whatever follows it, also when nothing does |
| WitnessLayout.R.U32 | spike/burn-gated-unlock/src/bin/bound_asset_v2.rs:49-49 | the cursor read and its new position, also when too few bytes remain |
| WitnessLayout.R.U64 | spike/burn-gated-unlock/src/bin/bound_asset_v2.rs:50-50 | the same for eight bytes |
| WitnessLayout.R.Lp | spike/burn-gated-unlock/src/bin/bound_asset_v2.rs:51-51 | the length-prefixed read and its new position |
| WitnessLayout.R.Items | spike/burn-gated-unlock/src/bin/bound_asset_v2.rs:52-52 | the list read and its new position |
| WitnessLayout.ReadProof | spike/burn-gated-unlock/src/bin/bound_asset_v2.rs:360-365 | the reader's nine reads equal the specification; the cursor never passes the end |
| WitnessLayout.RoundTrip | relayer/transcode.py:47-77 | reading what the relayer wrote gives back every field, whatever follows |
| Ledger.RegistryInsertsKey | spike/burn-gated-unlock/src/bin/burn_gated_unlock_v2.rs:142-160 | true exactly when the first input of the registry's type reveals this key |
| Ledger.SumGroup | spike/burn-gated-unlock/src/bin/xada_mint.rs:217-226 | the checked sum of the group's amounts, None on short data or overflow |
| Ledger.OutputsAllAt | spike/burn-gated-unlock/src/bin/xada_mint.rs:228-237 | true exactly when every output of the group is at the recipient and none at the zero lock |
| Ledger.CheckpointRoot | spike/burn-gated-unlock/src/bin/bound_asset_v2.rs:181-209 | the scan of at most 65 dependencies, with the conflict exit |
| Ledger.CheckpointUnanimous | spike/burn-gated-unlock/src/bin/bound_asset_v2.rs:176-209 | a usable checkpoint means every trusted dependency scanned says the same root and height |
| Scripts.HexInjective | spike/burn-gated-unlock/src/bin/bound_asset_v2.rs:46-46 | different transaction hashes are different leaves |
| Scripts.HexDigits | spike/burn-gated-unlock/src/bin/bound_asset_v2.rs:46-46 | every byte of the hash is written as two lower-case hexadecimal digits, the high one first |
| Membership.ProofShowsRange | spike/burn-gated-unlock/src/bin/bound_asset_v2.rs:360-372 | for a verifier that accepts only the leaves of a tree, and a root over the hashes of range key and sub-root: the hash of the body shown is a leaf under the root of a range, that of the range key shown if the sub-root has 32 bytes, or two range hashes collide |
| Membership.RangeHasProof | spike/burn-gated-unlock/src/bin/bound_asset_v2.rs:360-372 | and every body of every range has a certified proof, whatever the range key |
| Membership.AnotherSplit | spike/burn-gated-unlock/src/bin/bound_asset_v2.rs:360-372 | a sub-root of 64 bytes can be certified under a key that is not that of the range |
| Membership.ReleaseInRange | spike/burn-gated-unlock/src/bin/burn_gated_unlock_v2.rs:186-196 | an accepted release shows a body of a range that the checkpoint's root commits to |
| Membership.MintInRange | spike/burn-gated-unlock/src/bin/xada_mint.rs:262-275 | so does an accepted mint |
| Membership.OwnerMintInRange | spike/burn-gated-unlock/src/bin/xada_mint_owner.rs:276-292 | and one by the owner lock |
| Membership.AssetInRange | spike/burn-gated-unlock/src/bin/bound_asset_v2.rs:360-389 | and every accepted shape of a bound asset |
| BurnUnlock.CertRootFromCheckpoint | spike/burn-gated-unlock/src/bin/burn_gated_unlock_v2.rs:120-136 | the root of the first dependency that is the checkpoint |
| BurnUnlock.ProgramEntry | spike/burn-gated-unlock/src/bin/burn_gated_unlock_v2.rs:162-206 | the entry point returns the exit code of the specification |
| BurnUnlock.ReleaseMeans | spike/burn-gated-unlock/src/bin/burn_gated_unlock_v2.rs:162-206 | acceptance means one cell under the lock, a certified body under the pinned checkpoint, the required quantity and the inserted nullifier |
| BurnUnlock.ReleaseExact | spike/burn-gated-unlock/src/bin/burn_gated_unlock_v2.rs:162-206 | with the relayer's witness in place the lock opens exactly on certified evidence of the required quantity whose nullifier is inserted |
| XadaMint.ProgramEntry | spike/burn-gated-unlock/src/bin/xada_mint.rs:239-297 | the entry point returns the exit code of the specification; a transaction that does not raise the supply always passes, one that raises it from a positive amount never does |
| XadaMint.MintMeans | spike/burn-gated-unlock/src/bin/xada_mint.rs:253-297 | an accepted mint creates exactly the lovelace locked by a certified transaction, all at the recipient its datum names, under an unambiguous checkpoint |
| XadaMint.MintExact | spike/burn-gated-unlock/src/bin/xada_mint.rs:253-297 | with the relayer's witness in place a mint passes exactly when escrow, datum, amount, recipient and nullifier agree |
| XadaOwner.SumXada | spike/burn-gated-unlock/src/bin/xada_mint_owner.rs:211-228 | the filtered sum over code and args equals the checked sum of the owner's tokens |
| XadaOwner.XadaOutputsAt | spike/burn-gated-unlock/src/bin/xada_mint_owner.rs:229-245 | true exactly when every output token of the owner is at the recipient and none at the zero lock |
| XadaOwner.ProgramEntry | spike/burn-gated-unlock/src/bin/xada_mint_owner.rs:247-308 | the entry point returns the exit code of the specification |
| XadaOwner.OwnerMeans | spike/burn-gated-unlock/src/bin/xada_mint_owner.rs:262-307 | the owner lock unlocks only strict burns and exact mints, both over the sum of its tokens: the lovelace locked by a certified transaction, all at its recipient, nullified |
| XadaOwner.OwnerExact | spike/burn-gated-unlock/src/bin/xada_mint_owner.rs:271-307 | with the relayer's witness in place the lock opens exactly for a strict burn and for an exact certified mint from nothing |
| OwnerTokens.BurnsAreSummed | spike/burn-gated-unlock/src/bin/xada_mint_owner.rs:202-273 | tokens whose args begin with the owner hash are summed together: with some of them consumed, the lock opens exactly when the other tokens lose more than a given one gains |
| OwnerTokens.OneRisesWhileAnotherBurns | spike/burn-gated-unlock/src/bin/xada_mint_owner.rs:202-268 | a transaction that burns 2 of one token and creates 1 of another opens the lock as a strict burn |
| BurnReceipt.SumPolicy | spike/burn-gated-unlock/src/bin/xada_burn_receipt.rs:27-44 | the filtered sum equals the sum of the token's group |
| BurnReceipt.ProgramEntry | spike/burn-gated-unlock/src/bin/xada_burn_receipt.rs:46-67 | the entry point returns the exit code of the specification |
| BoundAsset.CountInstances | spike/burn-gated-unlock/src/bin/bound_asset_v2.rs:225-235 | the number of cells of this program, whatever their args |
| BoundAsset.ProgramEntry | spike/burn-gated-unlock/src/bin/bound_asset_v2.rs:338-389 | the entry point, tag dispatch included, returns the exit code of the specification |
| BoundAsset.LeapToCkbExact | spike/burn-gated-unlock/src/bin/bound_asset_v2.rs:299-319 | S5 passes exactly when the certified transaction spends the stored seal and parks the next, the state stays, the datum binds state, seal and landing lock, and the seal is nullified |
| BoundAsset.DispatchExact | spike/burn-gated-unlock/src/bin/bound_asset_v2.rs:271-388 | both directions: branches and tag dispatch together accept exactly the five shapes, stated as one disjunction |
| BoundAsset.LeapCodes | spike/burn-gated-unlock/src/bin/bound_asset_v2.rs:299-319 | S5 ends with the exit code of its first failing check, in the source's order, on the bytes of the cells; `BranchCodes` says so of S1 to S4 |
| BoundAsset.AcceptedIsLegal | spike/burn-gated-unlock/src/bin/bound_asset_v2.rs:338-389 | an accepted group has one of the five shapes on a body certified by the checkpoint, and one cell a side |
| BoundAsset.LegalIsAccepted | spike/burn-gated-unlock/src/bin/bound_asset_v2.rs:338-389 | each of the five shapes is accepted when the witness is the relayer's transcoding of a certified body |
| BoundAsset.KeyIsOfTheSeal | spike/burn-gated-unlock/src/bin/bound_asset_v2.rs:247-252 | the nullifier is over the very 36 bytes stored in the cell |
| BoundAsset.CellParts | spike/burn-gated-unlock/src/bin/bound_asset_v2.rs:5-5 | every cell is version, tag, seal transaction, little-endian seal index, lock slot and state in a row: nothing else and nothing missing |
| RegistryRuns.RegistryIsSingleton | spike/burn-gated-unlock/src/bin/burn_nullifier_registry.rs:63-79 | in every run at most one registry cell is live, and its transactions form one lineage, or two outpoints collide under the type id |
| RegistryRuns.RevealedIsInserted | spike/burn-gated-unlock/src/bin/burn_gated_unlock_v2.rs:138-160 | the key a client sees in the witness is the key the registry inserts |
| RegistryRuns.KeyInsertedOnce | spike/burn-gated-unlock/src/bin/burn_gated_unlock_v2.rs:138-160 | no key is inserted by two transactions of a run, or a collision |
| ReplayOnce.UseInserts | spike/burn-gated-unlock/src/bin/bound_asset_v2.rs:244-268 | every mint (by the type script or the owner lock), release and leap goes through the registry with its own key |
| ReplayOnce.ClaimUsedOnce | spike/burn-gated-unlock/src/bin/burn_gated_unlock_v2.rs:200-204 | no two transactions of a run use the same escrow body, burn body or seal on a registry, or a collision |
| ReplayOnce.LegsAreDisjoint | spike/burn-gated-unlock/src/bin/xada_mint.rs:291-296 | equal keys come from the same leg and the same evidence, or two listed preimages collide |
| ReplayOnce.OneClaimPerTransaction | spike/burn-gated-unlock/src/bin/burn_gated_unlock_v2.rs:200-204 | a transaction uses at most one claim on a registry, or two listed preimages collide |
| ReplayOnce.ReleasedOnce | spike/burn-gated-unlock/src/bin/burn_gated_unlock_v2.rs:172-206 | over a whole run at most one cell is ever released by a lock against one burn |
| ReplayOnce.LeapedOnce | spike/burn-gated-unlock/src/bin/bound_asset_v2.rs:218-268 | over a whole run at most one cell of any instance leaps from one seal |
| ReplayOnce.OneLeapPerTransaction | spike/burn-gated-unlock/src/bin/bound_asset_v2.rs:218-235 | two instances in one transaction are the same instance |
| RegistryLiveness.RegistryCanBeCreated | spike/burn-gated-unlock/src/bin/burn_nullifier_registry.rs:68-79 | from any ledger state a plain cell can be spent to create the registry named after it, so the runs the theorems speak of exist |
| RegistryLiveness.NewKeyCanBeInserted | relayer/onchain/reg_nullifier_witness.py:84-93 | in every reachable state every key not inserted yet can be inserted next, by the relayer's transaction, accepted by ledger and scripts |
| Conservation.SupplyStep | spike/burn-gated-unlock/src/bin/xada_mint.rs:217-226 | one transaction moves the live supply by exactly what it creates and consumes |
| Conservation.ScriptSum | spike/burn-gated-unlock/src/bin/xada_mint.rs:217-226 | the script's checked sum is the sum of the cells' amounts |
| Conservation.AcceptedMoves | spike/burn-gated-unlock/src/bin/xada_mint.rs:239-297 | an accepted transaction creates exactly its consumed amount, plus the locked lovelace if it mints, minus its burn |
| Conservation.SupplyIsBacked | spike/burn-gated-unlock/src/bin/xada_mint.rs:246-297 | over every run: live supply plus total burned equals the starting supply plus the lovelace locked by the minted bodies |
| Conservation.MintBodiesDistinct | spike/burn-gated-unlock/src/bin/xada_mint.rs:287-296 | the escrow bodies of the mints of a run are pairwise different, or a collision |
| Conservation.XadaConservation | spike/burn-gated-unlock/src/bin/xada_mint.rs:239-297 | both together from a start without supply |
| Conservation.ReceiptsAreBurned | spike/burn-gated-unlock/src/bin/xada_burn_receipt.rs:46-67 | over every run, for any list of receipt scripts of a policy: where no transaction creates receipts under two of them, the receipts never state more than was burned |
| Conservation.ReceiptsOfOneBurn | spike/burn-gated-unlock/src/bin/xada_burn_receipt.rs:46-67 | every receipt script that creates a receipt states the whole burn of the transaction: together they state no more than it exactly when at most one creates one |
| ReceiptExamples.TwoReceipts | spike/burn-gated-unlock/src/bin/xada_burn_receipt.rs:46-67 | for all hash functions a run that ledger and every script accept in which 5 units burn and two receipt scripts of the token state 5 each |
| Conservation.ClaimsAreBacked | spike/burn-gated-unlock/src/bin/xada_burn_receipt.rs:5-9 | under the same condition live supply plus receipts never exceed the lovelace locked |
| Bridge.ValidMeans | spike/burn-gated-unlock/src/bin/bound_asset_v2.rs:195-389 | a run in which every script of every transaction accepts is a run for each theorem: each asks only its own scripts to accept |
| Bridge.BridgeInvariant | spike/burn-gated-unlock/src/bin/xada_mint.rs:239-297 | over every run in which all scripts accept, together: the registry of a token is unique and in step with the inserted keys, the token is backed by different locks, and every bound asset has its life in the run, or listed inputs collide |
| BoundLineage.LineageInvariant | spike/burn-gated-unlock/src/bin/bound_asset_v2.rs:236-389 | in every reachable state every live cell has a life in the run, from its S1 on, each transaction consuming the cell of the one before: the last one put it at its outpoint, the cell names the body that this transaction shows with its own proof, its state is the one the last S1 or S2 of that life committed to, and its slot is its lock or zero |
| BoundLineage.StateChangesOnlyOnCkb | spike/burn-gated-unlock/src/bin/bound_asset_v2.rs:280-336 | state bytes change only in S2, and then the datum of the body shown commits to the new ones |
| BoundLineage.RoundTripKeepsState | spike/burn-gated-unlock/src/bin/bound_asset_v2.rs:299-336 | a cell that left for Cardano can only come back by S5 from its parked seal, with the state it left with, on the lock that the datum of the body shown binds |
| SealOutputs.BothExact | spike/burn-gated-unlock/src/bin/bound_asset_v2.rs:59-174 | on one encoded body: the seal is found exactly when any output at the lock address holds the policy, the datum is that of output 0 |
| SealOutputs.SealAndDatum | spike/burn-gated-unlock/src/bin/bound_asset_v2.rs:271-336 | after S1 or S4 some output holds the seal and the inline datum of output 0 commits to the state; where no later output holds the seal, the holder is output 0 and so carries the commitment |
| SealOutputs.SealApartFromDatum | spike/burn-gated-unlock/src/bin/bound_asset_v2.rs:271-279 | for every state a body, with an input, that S1 takes although its one output with the seal carries no datum |
| SharedInsertion.ReleasedTogether | spike/burn-gated-unlock/src/bin/burn_gated_unlock_v2.rs:138-206 | over a run all cells released against one burn on a registry are released by one transaction, one for each lock hash: two are the same cell exactly when their lock hashes are |
| SharedInsertion.ReleasesShareTheInsertion | spike/burn-gated-unlock/src/bin/burn_gated_unlock_v2.rs:196-206 | beside one release another lock on the same checkpoint and registry that shows the same burn opens exactly when the quantity is its own |
| SharedInsertion.OwnersShareTheInsertion | spike/burn-gated-unlock/src/bin/xada_mint_owner.rs:247-308 | two owner locks with the same terms, whatever their salts, mint against one escrow transaction side by side: beside one mint the other passes exactly when it mints the whole lock to the recipient |
| SharedInsertion.MintsShareTheInsertion | spike/burn-gated-unlock/src/bin/xada_mint_owner.rs:247-308 | the same for the type script and an owner lock |
| SharedExamples.TwoLocksRelease | spike/burn-gated-unlock/src/bin/burn_gated_unlock_v2.rs:138-206 | for all hash functions a run that ledger and every script accept, the registry created and updated in it, whose last transaction inserts the key of one burn of two assets and releases the cells of two locks against it, which differ in the asset name |
| SharedExamples.TwoOwnersMint | spike/burn-gated-unlock/src/bin/xada_mint_owner.rs:202-308 | such a run whose last transaction inserts the key of one escrow transaction of 7 lovelace and in which two owner locks, which differ in the salt, each mint 7 of their own token against it |
| SharedExamples.TypeAndOwnerMint | spike/burn-gated-unlock/src/bin/xada_mint.rs:239-297 | such a run in which the type script and an owner lock each mint 7 of their own token against one escrow transaction of 7 lovelace |
| Legs.ReleaseShowsTheBurn | spike/burn-gated-unlock/src/bin/burn_gated_unlock_v2.rs:196-206 | for amounts up to 2^127, an accepted release of an encoded body, with a mint field or without, means it mints minus the amount |
| Legs.BurnIsReleased | spike/burn-gated-unlock/src/bin/burn_gated_unlock_v2.rs:162-206 | and every certified burn of exactly the amount that is nullified here opens the lock |
| Legs.NoBurnReleasesZero | spike/burn-gated-unlock/src/bin/burn_gated_unlock_v2.rs:162-206 | a certified, nullified transaction without a mint field opens exactly the locks of amount 0 |
| Legs.MalformedReleasesOneAmount | spike/burn-gated-unlock/src/bin/burn_gated_unlock_v2.rs:83-87 | a certified, nullified body that is malformed opens exactly the locks of amount 2^127 + 1 |
| Legs.MintMatchesTheLock | spike/burn-gated-unlock/src/bin/xada_mint.rs:253-297 | for an encoded escrow transaction both directions: the mint passes exactly when no datum hash blocks the first lock, it locks the minted amount under a datum that declares it and names every minted cell's lock, and transaction and nullifier are in order |
| Legs.OwnerMintMatchesTheLock | spike/burn-gated-unlock/src/bin/xada_mint_owner.rs:271-307 | the same for the owner lock |
| Legs.MintIsTheFirstLock | spike/burn-gated-unlock/src/bin/xada_mint.rs:272-283 | an accepted mint against an encoded body is exactly its first lock, to its recipient |
| Legs.OneMintPerBody | spike/burn-gated-unlock/src/bin/xada_mint.rs:287-296 | over every run at most one transaction mints a token against a body, so a second lock in it is stranded; or a collision |
| Legs.LeapShowsTheSeal | spike/burn-gated-unlock/src/bin/bound_asset_v2.rs:299-319 | an accepted leap of an encoded body means one of its inputs is the stored seal and the datum read commits to state, seal and lock; that is the inline datum when output 0 names no hash |
| Legs.NoHashCommits | spike/burn-gated-unlock/src/bin/bound_asset_v2.rs:271-336 | an accepted transaction that leaves a cell, whose output 0 has at most one datum option, inline or an aligned hash, has an inline datum |
| Molecule.Dynvec | spike/ckb-to-cardano/relayer/gen_bridge_body.py:41-46 | the offset loop and concatenation equal the layout's definition (Nervos RFC 0008) |
| Molecule.DynField | spike/ckb-to-cardano/relayer/gen_bridge_body.py:70-71 | entry k of the offset table points at item k |
| Molecule.OffsetWalk | spike/ckb-to-cardano/relayer/gen_bridge_body.py:70-75 | for every transaction below 2^32 bytes whose output 0 has a type script, the walk lands on its code hash and on the first output data |
| Molecule.DepsAt | spike/ckb-to-cardano/relayer/gen_bridge_body.py:48-66 | entries 0, 1 and 2 of the table point at the version, the cell dependencies with hash, index and type, and the header dependencies |
| Molecule.InputsAt | spike/ckb-to-cardano/relayer/gen_bridge_body.py:48-66 | entry 3 points at the count of the inputs and then, for each, since, hash and index |
| Molecule.OutputsAt | spike/ckb-to-cardano/relayer/gen_bridge_body.py:48-66 | entries 4 and 5 point at the outputs, each with capacity, lock and type by its own table, and at their data |
| Molecule.RawTxInjective | spike/ckb-to-cardano/relayer/gen_bridge_body.py:58-66 | different transactions serialize differently |
| Molecule.HashNamesTransaction | spike/ckb-to-cardano/relayer/gen_bridge_body.py:89-93 | a body that hashes to a transaction's id is that transaction's, or two bodies collide |
| Bech32.Bits | spike/ckb-to-cardano/relayer/genkeys.py:18-24 | the accumulator loop regroups the bit string, padded with zeros, for all widths |
| Bech32.Pm | spike/ckb-to-cardano/relayer/genkeys.py:8-13 | the loop equals the recursive polynomial |
| Bech32.PolymodBound | spike/ckb-to-cardano/relayer/genkeys.py:8-13 | the state stays below 2^30 |
| Bech32.PolymodLinear | spike/ckb-to-cardano/relayer/genkeys.py:8-13 | the polynomial is linear over exclusive or |
| Bech32.ChecksumValid | spike/ckb-to-cardano/relayer/genkeys.py:15-17 | prefix, data and checksum make the polynomial equal the constant (BIP-173 and BIP-350) |
| Bech32.KnownStrings | spike/ckb-to-cardano/relayer/genkeys.py:8-17 | the writer gives the shortest test strings of BIP-173 and BIP-350 for the prefix a; `GeneratorIs` says that its five constants are multiples of one generator polynomial over GF(32) |
| Bech32.Bech32Decode | cardano/binding/cardano_net.py:49-59 | the reader's loop equals its specification on every string in which lowering letters beyond ASCII changes nothing, unknown characters included |
| Bech32.RoundTrip | cardano/binding/cardano_net.py:49-59 | reading what was written returns the bytes, for every printable prefix, byte string and constant |
| Window.WindowRoot | spike/ckb-to-cardano/relayer/advance_relayer.py:53-58 | the level loop computes the root of the tree over the leaves |
| Window.RootInjective | spike/ckb-to-cardano/relayer/advance_relayer.py:53-58 | equal roots mean equal windows, or a collision among the listed node inputs |
| Window.TargetFromCompact | spike/ckb-to-cardano/relayer/advance_relayer.py:61-70 | the byte array the loop fills |
| Window.TargetIsShift | spike/ckb-to-cardano/relayer/advance_relayer.py:61-70 | that array is the mantissa shifted by the exponent, cut to 256 bits, for every compact value |
| Window.DifficultyIs | spike/ckb-to-cardano/relayer/advance_relayer.py:73-78 | a header's difficulty is the integer quotient of 2^256-1 by its target, and 0 for a zero target |
| Window.HarderCountsMore | spike/ckb-to-cardano/relayer/advance_relayer.py:73-78 | a smaller positive target never adds less work |
| Window.FetchWindow | spike/ckb-to-cardano/relayer/relayer_window.py:37-44 | the ring-buffer loop succeeds exactly from height W-1 on and holds the last W hashes |
| Window.Init | spike/ckb-to-cardano/relayer/advance_relayer.py:86-103 | the anchored state |
| Window.NativeNext | spike/ckb-to-cardano/relayer/advance_relayer.py:116-130 | the transition equals its specification; it fails exactly when the work passes 32 bytes |
| Window.AdvanceTracks | spike/ckb-to-cardano/relayer/advance_relayer.py:106-130 | one step succeeds exactly on a linked header whose work fits, and keeps everything |
| Window.FollowerInvariant | spike/ckb-to-cardano/relayer/advance_relayer.py:86-139 | n steps succeed exactly when the headers are linked and their work fits; then the buffer holds the last W hashes, the work is the sum since the anchor, the root is that of the buffer |
| Window.SameAsFetched | spike/ckb-to-cardano/relayer/relayer_window.py:37-46 | the follower's buffer and root are those fetched for the same tip |

## Left out

- BLS signatures, hash-to-curve, SHA-256 and the insides of blake2: parameters or outside the model.
- The Merkle mountain range library: the environment's predicate `mmr`, with nothing assumed about it. So the theorems say
  that a body passed the two-level check against the checkpoint root; `Membership` says what that shows for a verifier that
  accepts only leaves. That the transaction is on Cardano is not stated. The runs of
  `SharedExamples` take the verifier that accepts trees of one leaf.
- The script that publishes the checkpoint: the advance and deploy entry points of `cert-verify`, its unchecked cursor
  `Cur` and the AVK lineage. The certificate checks themselves are modelled.
- Script hashes: two scripts with one hash, and the hash type of a script, are not modelled. A script hash stands for its script.
- Virtual machine limits: cycles, memory, and allocation. The recursion depth of the unchecked `skip` is the
  environment's `stack`; passing it is a panic. Exactness of the readers that use it needs a stack deeper than 64.
- Witness files longer than the address space: lengths read by `R` are added without wrapping.
- `parent(0)` in the batch check underflows in the source; the model refuses there, as overflow checks do.
- The xUDT type script is not part of this model: for the owner lock (`XadaOwner`) what one transaction may mint and the
  replay theorem are proved, conservation over runs is not, because it also needs the xUDT's own amount check.
- Scripts that are not one of the six modelled programs: they accept, which only adds runs.
- Aiken validators, the dapp, the RPC and indexer clients, deployment and submission scripts, and the fixture prototypes
  whose constants are embedded.
- Lottery.LotteryQuorum: the two constants of the odds are the script's, not parameters.
- Bech32.Bech32Decode: lowering is for ASCII letters only, while Python lowers some others to ASCII (U+212A to `k`). The round
  trip is for printable ASCII prefixes.
- JSON and hexadecimal text around the relayer's bytes; the follower's headers come from a function of the height.
- Window.FollowerInvariant: the header of a height is fixed during a run; a chain that reorganises below the tip shows as a
  header that does not link.
- Lottery.FastRefinesExact: at T-1 and T agreement is not proved where the fixed-point sum lies within 1024 of a carry, which a
  caller can compute; elsewhere `Lottery.FastIsExact` has it there too. The source calls the target exact
  (`spike/phase2/host_difftest.rs:46-47`), and no value that refutes it is known.
- BodyParseExact.ParseExact: a hash in output 0 whose leading head does not end with it makes the walk go on elsewhere, with
  no result for what the rest of the body is then read as. `HashIsNeverEmpty` and the two examples with a zero head say what
  becomes of the datum.
- Certificate.QuorumIsRegistered: says nothing of the signers past the batch indices, which the batch check does not look at
  (`BatchMerkle.BeyondIndicesIgnored`). The BLS check is not part of this model.
