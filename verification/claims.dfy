/** One credential's claim: the claim instruction, the transaction around
    it, and the decision between ineligible, already claimed, submitted and
    failed, given what the outside world answers. */
module Claims {
  import opened Wrappers
  import opened ProofEncoding

  // ---------------------------------------------------------------------
  // addresses and instructions

  /** Ledger addresses as symbolic terms. A derived address is the term of
      its derivation, so derivation is deterministic and two different seed
      tuples give two different addresses (an idealisation of the hash-based
      program-address search, which is not modelled). */
  datatype Address =
    | Key(name: string)
    | ClaimStatusKey(claimant: Address, distributor: Address)
    | AssociatedToken(mint: Address, owner: Address)

  const TokenProgram: Address := Key("TokenkegQfeZyiNwAJbNbGKPFXCWuBvf9Ss623VQ5DA")
  const SystemProgram: Address := Key("11111111111111111111111111111111")
  /** The airdropped token's mint. */
  const TokenId: Address := Key("UPTx1d24aBWuRgwxVnFmX4gNraj3QGFzL3QqBgxtWQG")

  /** bn.js refuses a JavaScript number of 2^53 or more: above it the
      number is no longer an exact integer. */
  const MaxSafeAmount: nat := 0x20_0000_0000_0000

  const ComputeUnitLimit: nat := 150000
  const ComputeUnitPriceMicroLamports: nat := 140000

  /** What the proof service returns for an eligible wallet. */
  datatype ClaimInfo = ClaimInfo(merkleTree: Address, amount: nat, proof: seq<seq<int>>)

  /** Arguments of the distributor's `newClaim` call. */
  datatype ClaimArgs = ClaimArgs(amount: nat, secondaryAmount: nat, proof: seq<seq<byte>>)

  /** Accounts of the `newClaim` call, in the program's order. */
  datatype ClaimAccounts = ClaimAccounts(
    distributor: Address,
    claimStatus: Address,
    from: Address,
    to: Address,
    claimant: Address,
    tokenProgram: Address,
    systemProgram: Address)

  /** Instructions, as opaque tokens carrying their parameters. */
  datatype Instruction =
    | SetComputeUnitPrice(microLamports: nat)
    | SetComputeUnitLimit(units: nat)
    | CreateAssociatedAccount(payer: Address, ata: Address, owner: Address, mint: Address)
    | NewClaim(args: ClaimArgs, accounts: ClaimAccounts)

  datatype Transaction = Transaction(instructions: seq<Instruction>, signer: Address)

  /** `getATA` / `getAssociatedTokenAddress`. */
  function Ata(mint: Address, owner: Address): (ata: Address) {
    AssociatedToken(mint, owner)
  }

  /** `findClaimStatusKey(claimant, distributor)[0]`. */
  function ClaimStatus(claimant: Address, distributor: Address): (status: Address) {
    ClaimStatusKey(claimant, distributor)
  }

  /** Errors that escape `processClaims` and end the whole batch. */
  datatype Fault =
    | BadKey(message: string)
    | ClaimLookupFailed(message: string)
    | AmountTooLarge(amount: nat)
    | ProofNodeTooLong(length: nat)

  /** `createClaimInstruction`: the claim of `info.amount` tokens of `mint` for
      `claimant`, with the secondary amount fixed at zero and every proof node
      encoded as a 32-byte word. The arguments are evaluated in order:
      `new BN(amount)` throws first for an amount bn.js refuses, then the
      first proof node longer than 32 bytes throws. */
  function BuildClaimInstruction(mint: Address, claimant: Address, info: ClaimInfo)
    : (r: Result<Instruction, Fault>)
    ensures r.Success? <==>
      info.amount < MaxSafeAmount &&
      forall i :: 0 <= i < |info.proof| ==> |info.proof[i]| <= NodeSize
    ensures info.amount >= MaxSafeAmount ==> r == Failure(AmountTooLarge(info.amount))
    ensures r.Failure? && info.amount < MaxSafeAmount ==>
      exists i :: 0 <= i < |info.proof| &&
        r.error == ProofNodeTooLong(|info.proof[i]|) && |info.proof[i]| > NodeSize
    ensures r.Success? ==> r.value.NewClaim?
    ensures r.Success? ==> r.value.args.amount == info.amount && r.value.args.secondaryAmount == 0
    ensures r.Success? ==> |r.value.args.proof| == |info.proof|
    ensures r.Success? ==> forall i :: 0 <= i < |info.proof| ==>
      r.value.args.proof[i] == ToBytes32Array(BufferFrom(info.proof[i])).value &&
      |r.value.args.proof[i]| == NodeSize &&
      BigEndian(r.value.args.proof[i]) == BigEndian(BufferFrom(info.proof[i]))
    ensures r.Success? ==> r.value.accounts == ClaimAccounts(
      info.merkleTree, ClaimStatus(claimant, info.merkleTree),
      Ata(mint, info.merkleTree), Ata(mint, claimant), claimant,
      TokenProgram, SystemProgram)
  {
    var claimStatus := ClaimStatus(claimant, info.merkleTree);
    var destination := Ata(mint, claimant);
    var distributorFrom := Ata(mint, info.merkleTree);
    if info.amount >= MaxSafeAmount then
      Failure(AmountTooLarge(info.amount))
    else
      match EncodeProof(info.proof)
      case Failure(InvalidLength(n)) => Failure(ProofNodeTooLong(n))
      case Success(words) =>
        assert forall i :: 0 <= i < |info.proof| ==>
          BigEndian(words[i]) == BigEndian(BufferFrom(info.proof[i])) by {
          forall i | 0 <= i < |info.proof|
            ensures BigEndian(words[i]) == BigEndian(BufferFrom(info.proof[i]))
          {
            EncodingPreservesValue(BufferFrom(info.proof[i]));
          }
        }
        Success(NewClaim(
          ClaimArgs(info.amount, 0, words),
          ClaimAccounts(info.merkleTree, claimStatus, distributorFrom, destination,
                        claimant, TokenProgram, SystemProgram)))
  }

  /** The transaction built for an eligible wallet: compute-unit price, then
      creation of the wallet's token account, then the claim, then the
      compute-unit limit, signed by the wallet. */
  function ClaimTransaction(mint: Address, owner: Address, claim: Instruction): (tx: Transaction)
    ensures |tx.instructions| == 4 && tx.signer == owner
    // the compute-budget settings come first and last
    ensures tx.instructions[0] == SetComputeUnitPrice(ComputeUnitPriceMicroLamports)
    ensures tx.instructions[3] == SetComputeUnitLimit(ComputeUnitLimit)
    // the signer pays for and owns the one account created: its token account
    ensures tx.instructions[1] == CreateAssociatedAccount(tx.signer, Ata(mint, tx.signer), tx.signer, mint)
    // the claim is carried unchanged, after the account it may pay into
    ensures tx.instructions[2] == claim
  {
    var ata := Ata(mint, owner);
    Transaction(
      [ SetComputeUnitPrice(ComputeUnitPriceMicroLamports),
        CreateAssociatedAccount(owner, ata, owner, mint),
        claim,
        SetComputeUnitLimit(ComputeUnitLimit) ],
      owner)
  }

  /** A claim transaction pays and creates exactly the account the claim
      pays into, puts the budget price first and the budget limit last, and
      carries one claim, signed by its claimant. */
  lemma ClaimTransactionShape(mint: Address, owner: Address, info: ClaimInfo)
    requires BuildClaimInstruction(mint, owner, info).Success?
    ensures var tx := ClaimTransaction(mint, owner, BuildClaimInstruction(mint, owner, info).value);
      && |tx.instructions| == 4
      && tx.instructions[0] == SetComputeUnitPrice(ComputeUnitPriceMicroLamports)
      && tx.instructions[3] == SetComputeUnitLimit(ComputeUnitLimit)
      && (forall k :: 0 <= k < 4 ==> (tx.instructions[k].NewClaim? <==> k == 2))
      && tx.instructions[1].CreateAssociatedAccount?
      && tx.instructions[1].ata == tx.instructions[2].accounts.to
      && tx.instructions[1].payer == tx.signer == tx.instructions[2].accounts.claimant
      && tx.instructions[2].args.secondaryAmount == 0
  {
  }

  // ---------------------------------------------------------------------
  // one credential

  /** `getAccountInfo` on the wallet's token account: no account, an
      account, or a rejected request. */
  datatype AccountInfo = AccountMissing | AccountPresent | LookupFailed(message: string)

  /** What the outside world answers while one credential is processed. */
  datatype Responses = Responses(
    // `getWallet`: the public key, or the error decoding the key throws
    wallet: Result<Address, string>,
    // `getClaimInfo`: falsy data (None), the claim data, or a rejected request
    claimInfo: Result<Option<ClaimInfo>, string>,
    account: AccountInfo,
    // `sendTransaction`: the signature, or the error it throws
    submission: Result<string, string>)

  datatype Outcome =
    | Ineligible
    | AlreadyClaimed
    | Submitted(signature: string)
    | SubmitFailed(message: string)
    | AccountCheckFailed(message: string)
    | Aborted(fault: Fault)

  /** The effect of one credential: its outcome, the transactions handed to
      `sendTransaction`, and whether the pacing delay follows it. */
  datatype Step = Step(outcome: Outcome, sent: seq<Transaction>, paced: bool)

  predicate Attempted(o: Outcome) {
    o.Submitted? || o.SubmitFailed?
  }

  /** At most one transaction per credential, and one exactly when the outcome
      is a submission's; an ineligible wallet, or an error that ends the batch,
      leaves no transaction and no delay behind. */
  predicate WellFormedStep(s: Step) {
    && |s.sent| <= 1
    && (|s.sent| == 1 <==> Attempted(s.outcome))
    && (s.outcome.Aborted? || s.outcome == Ineligible ==> s.sent == [] && !s.paced)
  }

  predicate Eligible(r: Responses) {
    r.wallet.Success? && r.claimInfo.Success? && r.claimInfo.value.Some?
  }

  /** The eligible wallet's claim instruction can be built. */
  predicate Buildable(mint: Address, r: Responses) {
    Eligible(r) && BuildClaimInstruction(mint, r.wallet.value, r.claimInfo.value.value).Success?
  }

  /** One iteration of the loop in `processClaims`, with the account check and
      the submission run to completion before the iteration ends. */
  function ProcessCredential(mint: Address, r: Responses): (s: Step)
    ensures WellFormedStep(s)
  {
    match r.wallet
    case Failure(e) => Step(Aborted(BadKey(e)), [], false)
    case Success(owner) =>
      match r.claimInfo
      case Failure(e) => Step(Aborted(ClaimLookupFailed(e)), [], false)
      case Success(None) => Step(Ineligible, [], false)
      case Success(Some(info)) =>
        match BuildClaimInstruction(mint, owner, info)
        case Failure(f) => Step(Aborted(f), [], false)
        case Success(claim) =>
          var tx := ClaimTransaction(mint, owner, claim);
          match r.account
          case LookupFailed(m) => Step(AccountCheckFailed(m), [], true)
          case AccountPresent => Step(AlreadyClaimed, [], true)
          case AccountMissing =>
            match r.submission
            case Success(sig) => Step(Submitted(sig), [tx], true)
            case Failure(m) => Step(SubmitFailed(m), [tx], true)
  }

  /** How each answer of the outside world decides a credential's step. */
  lemma CredentialDecision(mint: Address, r: Responses)
    ensures var s := ProcessCredential(mint, r);
      // only the errors that are not caught end the batch
      && (s.outcome.Aborted? <==>
            !r.wallet.Success? || !r.claimInfo.Success? || (Eligible(r) && !Buildable(mint, r)))
      // an amount bn.js refuses ends the batch before the proof is looked at
      && (Eligible(r) && r.claimInfo.value.value.amount >= MaxSafeAmount ==>
            s.outcome == Aborted(AmountTooLarge(r.claimInfo.value.value.amount)))
      // a falsy claim-info answer, and only that, makes the wallet ineligible
      && (s.outcome == Ineligible <==> r.wallet.Success? && r.claimInfo == Success(None))
      // the delay follows exactly the wallets whose claim instruction was built
      && (s.paced <==> Buildable(mint, r))
      // an existing account, or a failed check, means no transaction
      && (s.outcome == AlreadyClaimed <==> Buildable(mint, r) && r.account == AccountPresent)
      && (s.outcome.AccountCheckFailed? <==> Buildable(mint, r) && r.account.LookupFailed?)
      // a missing account means exactly one transaction, whose result is the outcome
      && (|s.sent| == 1 <==> Buildable(mint, r) && r.account == AccountMissing)
      && (|s.sent| == 1 ==>
            (s.outcome.Submitted? <==> r.submission.Success?) &&
            s.sent[0] == ClaimTransaction(mint, r.wallet.value,
              BuildClaimInstruction(mint, r.wallet.value, r.claimInfo.value.value).value))
  {
  }

  /** The claim instruction is built before the account is looked up, so a
      proof node that is too long ends the batch even for a wallet that has
      already claimed. */
  lemma LongProofAbortsEvenWhenClaimed(mint: Address, owner: Address, info: ClaimInfo, r: Responses)
    requires r.wallet == Success(owner) && r.claimInfo == Success(Some(info))
    requires r.account == AccountPresent
    requires exists i :: 0 <= i < |info.proof| && |info.proof[i]| > NodeSize
    ensures ProcessCredential(mint, r).outcome.Aborted?
    ensures info.amount < MaxSafeAmount ==> ProcessCredential(mint, r).outcome.fault.ProofNodeTooLong?
  {
  }
}
