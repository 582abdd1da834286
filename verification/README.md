# Airdrop claimer: a Dafny model of its core

The program claims a token airdrop from a Merkle-distributor program for every
wallet whose private key is listed in a text file. At start-up it reads the key
file, drops blank lines and shuffles the keys (Fisher–Yates). Then, for one
wallet at a time, it:

- asks a proof service whether the wallet may claim;
- builds the claim instruction, with each Merkle proof node encoded as a 32-byte word;
- checks whether the wallet's associated token account already exists;
- if it does not exist, sends one transaction: compute-unit price, account creation, claim, compute-unit limit.

The model covers the pure logic of `index.ts`:

- `proof_encoding.dfy` (module `ProofEncoding`): `toBytes32Array` and the proof map of
  `createClaimInstruction`. `Buffer.from`, `Buffer.alloc` and `Buffer.copy` are modelled
  on byte sequences.
- `key_list.dfy` (module `KeyList`): `split('\n')`, `trim()` with the ECMAScript
  white-space and line-terminator set, and `filter(Boolean)`.
- `shuffle.dfy` (module `Shuffle`): `shuffleArray`, as the same swap loop over a sequence
  value that each swap replaces. A pure recursive definition of the shuffle is the loop's
  reference. `Math.random()` is an oracle: a sequence of reals in [0, 1), one per iteration.
- `claims.dfy` (module `Claims`): addresses, instructions, the claim instruction, the
  transaction, and the decision for one credential. The decision works on what the
  outside world answers (`Responses`).
- `batch.dfy` (module `Batch`): the loop of `processClaims` and the whole run
  (parse, shuffle, process).
- `wrappers.dfy` (module `Wrappers`): `Option` and `Result`.

Addresses are symbolic terms (`Claims.Address`). A derived address is the term of its
derivation, for example `ClaimStatusKey(claimant, distributor)`. This makes derivation
deterministic. It also makes distinct seeds give distinct addresses, by construction: this is
assumed, not proved. It is an idealisation of the hash-based program-address search, which
is not modelled. Instructions are opaque
tokens that carry their parameters.

How the code handles errors and pacing:

- A proof node longer than 32 bytes makes `toBytes32Array` throw. It throws inside the
  awaited `createClaimInstruction` (index.ts:123). Nothing catches it there, so `processClaims`
  rejects and the batch ends. It does not skip only that credential. The same holds for an
  invalid key (`getWallet`) and for a rejected proof-service request (`getClaimInfo`). The
  model's `Aborted` outcome stops the loop.
- The amount is passed to `new BN(claimInfo.amount)` (index.ts:83) before the proof is
  encoded. bn.js refuses a JavaScript number of 2^53 or more, so such an amount also ends
  the batch, whatever the proof holds.
- The claim instruction is built before the account lookup (index.ts:122-124). So a too-long
  proof node ends the batch even for a wallet that has already claimed.
- A rejected `getAccountInfo` request is caught (index.ts:157-159). The loop goes on; the
  outcome is `AccountCheckFailed`.
- The pacing delay sits inside the eligible branch (index.ts:160-161). Ineligible wallets are
  not delayed. Wallets whose instruction could not be built are not delayed either.

## Model

| member | source | states |
|---|---|---|
| ProofEncoding.BufferFrom | index.ts:85 | each number of a proof node becomes one byte, reduced modulo 256; numbers 0..255 are kept as they are |
| ProofEncoding.Alloc | index.ts:20 | a fresh buffer has the requested length and holds only zero bytes |
| ProofEncoding.CopyInto | index.ts:21 | `copy` keeps the target's length and every byte outside the copied window, and puts the source bytes that fit at the offset |
| ProofEncoding.ToBytes32Array | index.ts:18-24 | succeeds exactly for nodes of at most 32 bytes; the result has exactly 32 bytes, the first 32-n are zero and the last n are the node in order; longer nodes fail with their length |
| ProofEncoding.EncodingIsZerosThenNode | index.ts:20-23 | the encoding of a node that fits is 32-n zero bytes followed by the node |
| ProofEncoding.UnpadRoundTrip | index.ts:18-24 | dropping the first 32-n bytes of the encoding gives the node back |
| ProofEncoding.EmptyNodeIsZeroWord | index.ts:18-24 | the empty node encodes to 32 zero bytes |
| ProofEncoding.EncodingInjectiveAtFixedLength | index.ts:18-24 | two nodes of the same length with the same encoding are equal |
| ProofEncoding.EncodingPreservesValue | index.ts:20-21 | the encoding is the 256-bit big-endian word with the node's value (right-aligned, zero-filled) |
| ProofEncoding.LeadingZeroIsInvisible | index.ts:20-21 | a node with an extra leading zero byte encodes to the same word, so the encoding does not record the node's length |
| ProofEncoding.EncodeNode | index.ts:85 | one JSON node encodes exactly when it has at most 32 numbers; the word has 32 bytes and ends with the node's bytes; a longer node fails with its length |
| ProofEncoding.EncodeProof | index.ts:85 | the proof encodes exactly when every node fits; then one 32-byte word per node, in order; otherwise the error names the length of the first node that is too long |
| KeyList.Split | index.ts:101 | the file splits into one more piece than it has line feeds, and no piece holds a line feed |
| KeyList.JoinSplit | index.ts:101 | joining the pieces with line feeds gives the text back |
| KeyList.SplitJoin | index.ts:101 | splitting lines joined by line feeds gives the lines back, provided no line holds a line feed |
| KeyList.LeadingSpace | index.ts:101 | counts exactly the white-space prefix: all counted characters are white space and the next one is not |
| KeyList.TrailingSpace | index.ts:101 | counts exactly the white-space suffix: all counted characters are white space and the one before them is not |
| KeyList.Trim | index.ts:101 | the result is an infix of the input with no white space at either end; only white space is removed around it; it is empty exactly when the input is all white space |
| KeyList.TrimTrimmed | index.ts:101 | a string without white space at either end is left unchanged by trimming |
| KeyList.TrimIdempotent | index.ts:101 | trimming twice gives the same result as trimming once |
| KeyList.TrimInfix | index.ts:101 | every character of the trimmed string occurs in the original |
| KeyList.TrimAll | index.ts:101 | `map(key => key.trim())` gives one string per line, in line order, each the trimmed line and so without white space at either end |
| KeyList.DropEmpty | index.ts:101 | the filter keeps no more strings than it is given, and none of the kept strings is empty |
| KeyList.DropEmptySource | index.ts:101 | every kept string is one of the input strings |
| KeyList.DropEmptyKeeps | index.ts:101 | every non-empty input string is kept |
| KeyList.DropEmptyAppend | index.ts:101 | the filter judges strings one at a time and keeps their order: filtering two blocks is filtering each and concatenating |
| KeyList.NonBlank | index.ts:101 | the lines yield no more keys than there are lines, and every key is non-empty and trimmed |
| KeyList.NonBlankFromLines | index.ts:101 | each key is trimmed, and each of its characters occurs in some line of the file |
| KeyList.NonBlankAppend | index.ts:101 | lines are kept or dropped one by one and keep their order: the keys of two blocks of lines are the keys of the first block followed by those of the second |
| KeyList.NonBlankSingle | index.ts:101 | one line yields its trimmed form, or nothing when that is empty |
| KeyList.NonBlankMembership | index.ts:101 | a string is a key exactly when it is the non-empty trimmed form of some line; nothing else is dropped or invented |
| KeyList.ParseKeys | index.ts:101 | every key is non-empty, trimmed and free of line feeds |
| KeyList.ParseKeysOfLines | index.ts:101 | a file written line by line yields the trimmed non-blank lines, in file order |
| Shuffle.PickIndex | index.ts:105 | for a draw in [0, 1), the partner index of position i is between 0 and i |
| Shuffle.SwapPermutes | index.ts:106 | exchanging two positions keeps the length and the multiset of the elements |
| Shuffle.ShuffleFrom | index.ts:104-107 | the swaps from position i down to position 1 keep the length and never touch a position above i |
| Shuffle.ShuffleFromPermutes | index.ts:104-107 | the swaps from any position down to position 1 keep the length and the multiset, for every choice of draws |
| Shuffle.FisherYates | index.ts:103-109 | for every choice of draws the shuffle keeps the length and the multiset of the keys |
| Shuffle.ShuffleArray | index.ts:103-109 | the swap loop returns a permutation of its input, the one the pure recursive definition gives for the same draws |
| Claims.BuildClaimInstruction | index.ts:70-97 | built exactly when the amount is below 2^53 and every proof node fits. A larger amount fails first, with the amount; otherwise a too-long node fails with its length. The claim carries the service's amount, a secondary amount of 0, and per proof node the 32-byte word `toBytes32Array(Buffer.from(node))`, which has that node's value. Its accounts are the distributor, the claimant's claim-status account, the distributor's and claimant's token accounts, the claimant and the two program ids |
| Claims.ClaimTransaction | index.ts:124-147 | four instructions: the compute-unit price first and the limit last, the creation of the signer's own token account for the mint (paid by the signer) second, and the claim, unchanged, third; signed by the owner |
| Claims.ClaimTransactionShape | index.ts:122-144 | for a built claim, the account the transaction creates is the claim's destination, and the payer, the signer and the claimant are one address; the claim is the only claim instruction |
| Claims.ProcessCredential | index.ts:113-162 | each credential sends at most one transaction, and one exactly when the outcome is a submission's; an ineligible wallet or an error that ends the batch sends nothing and is not followed by a delay |
| Claims.CredentialDecision | index.ts:113-162 | only a bad key, a rejected proof lookup, an amount bn.js refuses or a too-long proof node abort; a refused amount aborts whatever the proof. A falsy claim answer, and only that, means ineligible. The delay follows exactly the wallets whose instruction was built. An existing account or a failed account check means nothing is sent. A missing account means exactly one transaction, the claim transaction, whose result gives Submitted or SubmitFailed |
| Claims.LongProofAbortsEvenWhenClaimed | index.ts:122-137 | a too-long proof node aborts even when the account exists, because the instruction is built before the lookup; with an amount below 2^53 the fault is the node's length |
| Batch.ProcessClaims | index.ts:112-164 | credentials are processed in order, each at most once, each with its own outcome. The loop stops early only right after an aborting credential |
| Batch.SentCount | index.ts:135-151 | one transaction is sent per processed credential that reached submission |
| Batch.SentInOrder | index.ts:140-147 | the transactions sent are those of the processed credentials, credential by credential in processing order |
| Batch.WaitCount | index.ts:160-161 | one delay is waited per processed credential whose step is followed by a delay |
| Batch.RunsToCompletion | index.ts:146-159 | when nothing aborts, every credential is processed, whatever became of the others |
| Batch.StopsAtFirstAbort | index.ts:113-123 | the first credential whose processing throws is the last one processed |
| Batch.OutcomesIndependent | index.ts:113-162 | changing one credential's answers changes no other processed credential's outcome |
| Batch.ProcessedPrefix | index.ts:113 | the processed keys are a prefix of the processing order |
| Batch.ProcessesEveryKey | index.ts:113 | when nothing aborts, the processed keys are exactly the keys, in processing order |
| Batch.Run | index.ts:100-113 | the whole program with the fixed mint: no key is processed more often than the file lists it, and each processed credential's outcome is decided by its own answers |
| Batch.RunProcessesEveryKey | index.ts:101-113 | when nothing aborts, the processed keys are a permutation of the keys parsed from the file |

## Left out

- Address derivation (`findDistributorKey`, `findClaimStatusKey`, `getATA`, `getAssociatedTokenAddress`): these are SHA-256 program-address searches in a library that is not part of this model. Addresses are free terms instead. The `allowOwnerOffCurve` flag and the off-curve error it avoids are not modelled.
- `findDistributorKey`: the program never calls it.
- Anchor instruction encoding, `ComputeBudgetProgram` and `createAssociatedTokenAccountInstruction` are foreign libraries. Their results are opaque `Instruction` values. The amount reaching them is below 2^53, so it always fits the program's 64-bit field.
- `getWallet` (base58 decoding, `Keypair.fromSecretKey`) is cryptography. It is a `Responses.wallet` answer: a public key or an error.
- `new PublicKey(claimInfo.merkle_tree)`: the service's distributor is taken as an already-parsed address.
- Proof nodes are JSON arrays of integers. `Buffer.from` on a string node, and its truncation of fractional numbers, are not modelled.
- The HTTP proof lookup, the RPC calls, reading the key file (including UTF-8 decoding) and console logging are I/O. Their results are `Responses` fields or the `content` string.
- `Math.random` is an oracle of reals. JavaScript floating-point rounding is not modelled.
- The `setTimeout` delay (index.ts:160-161): the model records only whether a delay follows a credential, not its random length of 3000 to 4999 milliseconds.
- The in-place mutation of `privateKeys` by `shuffleArray` (index.ts:110): the model returns the shuffled sequence as a new value; no other code reads the unshuffled array.
- Batch.ProcessClaims: in the code, the account check and the submission run in an unawaited promise chain (index.ts:135-159). That chain races the loop's delay, so one credential's submission may finish after the next credential has started. The model runs each credential's step to completion before the next one begins. While the loop keeps going, each outcome still depends only on that credential's answers, so the outcomes agree; the interleaving of side effects is not modelled. They disagree in one case. `processClaims()` is called without a `.catch` (index.ts:166). When credential k+1 throws (index.ts:114, 115 or 123), the rejection is unhandled, and current Node ends the process. Credential k's chain may still be waiting for `getAccountInfo` then, and it then never sends. The model still records k as `Submitted` or `SubmitFailed` and lists its transaction in `sent`. Whether the chain has finished depends on network timing, which the model does not have.
- constants.ts holds only fixed public keys and an RPC URL. The token mint is `Claims.TokenId`, which `Batch.Run` passes to every credential.
- A negative, fractional or string amount from the proof service is not modelled: the amount is a natural number. Of the amount's failures only bn.js's refusal of numbers of 2^53 or more is modelled.
