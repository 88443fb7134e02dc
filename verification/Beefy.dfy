/** The BEEFY light client: commitments signed by a quorum of the bridged chain's authorities. */
module Beefy {
  import opened Wrappers
  import opened RingBuffer

  type Hash(==, !new)
  type AuthorityId(==, !new)
  type Signature(==, !new)
  type Payload(==, !new)
  type MmrProof(==, !new)
  type LeafExtra(==, !new)
  type pos = n: nat | n > 0 witness 1

  // ---- Data ----------------------------------------------------------------------------------

  datatype Commitment = Commitment(payload: Payload, blockNumber: nat, validatorSetId: nat)

  datatype SignedCommitment = SignedCommitment(commitment: Commitment, signatures: seq<Option<Signature>>)

  datatype AuthoritySet = AuthoritySet(validators: seq<AuthorityId>, id: nat)

  datatype AuthoritySetInfo = AuthoritySetInfo(id: nat, len: nat, keysetCommitment: Hash)

  datatype ParentId = ParentId(number: nat, hash: Hash)

  datatype MmrLeaf = MmrLeaf(parent: ParentId, nextAuthoritySet: AuthoritySetInfo, extra: LeafExtra)

  datatype ImportedCommitment = ImportedCommitment(parent: ParentId, mmrRoot: Hash)

  datatype CommitmentsInfo = CommitmentsInfo(bestBlockNumber: nat, nextBlockNumberIndex: nat)

  /** Runtime constants, and the parts that are decided elsewhere: signatures, merkle roots, MMR proofs. */
  datatype Config = Config(
    maxRequests: nat,
    commitmentsToKeep: pos,
    verifies: (AuthorityId, Signature, Commitment) -> bool,
    merkleRoot: seq<AuthorityId> -> Hash,
    mmrRootOf: Payload -> Option<Hash>,
    leafProved: (MmrLeaf, MmrProof, Hash) -> bool)

  datatype Error =
    | Halted
    | NotInitialized
    | AlreadyInitialized
    | InvalidInitialAuthoritySet
    | TooManyRequests
    | OldCommitment
    | InvalidCommitmentValidatorSetId
    | InvalidValidatorSetId
    | InvalidCommitmentSignaturesLen
    | InvalidValidatorSetLen
    | NotEnoughCorrectSignatures
    | MmrRootMissingFromCommitment
    | MmrProofVerificationFailed
    | InvalidValidatorSetRoot

  datatype InitData = InitData(halted: bool, bestBlockNumber: nat, authoritySet: AuthoritySetInfo)

  datatype State = State(
    halted: bool,
    requestCount: nat,
    info: Option<CommitmentsInfo>,
    blockNumbers: map<nat, nat>,
    commitments: map<nat, ImportedCommitment>,
    authoritySet: AuthoritySetInfo)

  // ---- Signatures ----------------------------------------------------------------------------

  /** Two thirds of the validators plus one, rounded the conservative way. */
  function SignaturesRequired(validators: nat): nat { validators - (if validators == 0 then 0 else validators - 1) / 3 }

  predicate SignedAt(c: Config, s: SignedCommitment, validators: seq<AuthorityId>, i: nat)
    requires i < |validators| && i < |s.signatures|
  {
    s.signatures[i].Some? && c.verifies(validators[i], s.signatures[i].value, s.commitment)
  }

  /** The positions among the first n that carry a correct signature. */
  ghost function Signers(c: Config, s: SignedCommitment, validators: seq<AuthorityId>, n: nat): set<nat>
    requires n <= |validators| && n <= |s.signatures|
  {
    set i: nat | i < n && SignedAt(c, s, validators, i)
  }

  lemma SignersStep(c: Config, s: SignedCommitment, validators: seq<AuthorityId>, n: nat)
    requires n < |validators| && n < |s.signatures|
    ensures |Signers(c, s, validators, n + 1)| ==
            |Signers(c, s, validators, n)| + if SignedAt(c, s, validators, n) then 1 else 0
  {
    if SignedAt(c, s, validators, n) {
      assert Signers(c, s, validators, n + 1) == Signers(c, s, validators, n) + {n};
    } else {
      assert Signers(c, s, validators, n + 1) == Signers(c, s, validators, n);
    }
  }

  /** Fewer than a third of the validators are missing. */
  predicate Quorum(signed: nat, validators: nat) { validators == 0 || 3 * (validators - signed) < validators }

  lemma QuorumIsEnough(signed: nat, validators: nat)
    requires signed <= validators
    ensures Quorum(signed, validators) <==> signed >= SignaturesRequired(validators)
  {
  }

  lemma {:induction false} SignersBounded(c: Config, s: SignedCommitment, validators: seq<AuthorityId>, n: nat)
    requires n <= |validators| && n <= |s.signatures|
    ensures |Signers(c, s, validators, n)| <= n
  {
    if n == 0 {
      assert Signers(c, s, validators, 0) == {};
    } else {
      SignersBounded(c, s, validators, n - 1);
      SignersStep(c, s, validators, n - 1);
    }
  }

  /** The positions among the first n that carry no correct signature. */
  ghost function Missing(c: Config, s: SignedCommitment, validators: seq<AuthorityId>, n: nat): set<nat>
    requires n <= |validators| && n <= |s.signatures|
  {
    set i: nat | i < n && !SignedAt(c, s, validators, i)
  }

  lemma {:induction false} SignedOrMissing(c: Config, s: SignedCommitment, validators: seq<AuthorityId>, n: nat)
    requires n <= |validators| && n <= |s.signatures|
    ensures |Signers(c, s, validators, n)| + |Missing(c, s, validators, n)| == n
  {
    if n == 0 {
      assert Signers(c, s, validators, 0) == {} && Missing(c, s, validators, 0) == {};
    } else {
      SignedOrMissing(c, s, validators, n - 1);
      SignersStep(c, s, validators, n - 1);
      var before := Missing(c, s, validators, n - 1);
      assert Missing(c, s, validators, n) == if SignedAt(c, s, validators, n - 1) then before else before + {n - 1};
    }
  }

  /** Progress: up to (n - 1) / 3 missing signatures do not stop a commitment, one more does. */
  lemma ThirdMayBeMissing(c: Config, s: SignedCommitment, validators: seq<AuthorityId>)
    requires |s.signatures| == |validators| >= 1
    ensures var n := |validators|;
            Quorum(|Signers(c, s, validators, n)|, n) <==> |Missing(c, s, validators, n)| <= (n - 1) / 3
  {
    SignedOrMissing(c, s, validators, |validators|);
  }

  /** Count correct signatures until enough are found. */
  method VerifySignatures(c: Config, s: SignedCommitment, validators: seq<AuthorityId>) returns (problem: Option<Error>)
    ensures |s.signatures| != |validators| ==> problem == Some(InvalidCommitmentSignaturesLen)
    ensures |s.signatures| == |validators| ==>
              problem == if Quorum(|Signers(c, s, validators, |validators|)|, |validators|) then None
                         else Some(NotEnoughCorrectSignatures)
  {
    if |s.signatures| != |validators| { return Some(InvalidCommitmentSignaturesLen); }
    SignersBounded(c, s, validators, |validators|);
    QuorumIsEnough(|Signers(c, s, validators, |validators|)|, |validators|);
    var missing := SignaturesRequired(|validators|);
    for i := 0 to |validators|
      invariant |validators| > 0 ==> missing > 0
      invariant missing + |Signers(c, s, validators, i)| == SignaturesRequired(|validators|)
    {
      SignersStep(c, s, validators, i);
      if s.signatures[i].Some? {
        if c.verifies(validators[i], s.signatures[i].value, s.commitment) {
          missing := missing - 1;
          if missing == 0 {
            SignersGrow(c, s, validators, i + 1, |validators|);
            break;
          }
        }
      }
    }
    problem := if missing == 0 then None else Some(NotEnoughCorrectSignatures);
  }

  lemma SignersGrow(c: Config, s: SignedCommitment, validators: seq<AuthorityId>, m: nat, n: nat)
    requires m <= n <= |validators| && n <= |s.signatures|
    ensures |Signers(c, s, validators, m)| <= |Signers(c, s, validators, n)|
    decreases n - m
  {
    if m < n {
      SignersStep(c, s, validators, m);
      SignersGrow(c, s, validators, m + 1, n);
    }
  }

  // ---- What the operations compute -----------------------------------------------------------

  /** Why a signed commitment is not accepted for the given authority set info, if it is not. */
  function CommitmentProblem(c: Config, s: SignedCommitment, info: AuthoritySetInfo, set_: AuthoritySet)
    : Option<Error>
  {
    if s.commitment.validatorSetId != info.id then Some(InvalidCommitmentValidatorSetId)
    else if |s.signatures| != info.len then Some(InvalidCommitmentSignaturesLen)
    else if set_.id != info.id then Some(InvalidValidatorSetId)
    else if |set_.validators| != info.len then Some(InvalidValidatorSetLen)
    else if c.merkleRoot(set_.validators) != info.keysetCommitment then Some(InvalidValidatorSetRoot)
    else if CountSigned(c, s, set_.validators, info.len) < SignaturesRequired(info.len)
      then Some(NotEnoughCorrectSignatures)
    else if c.mmrRootOf(s.commitment.payload).None? then Some(MmrRootMissingFromCommitment)
    else None
  }

  function CountSigned(c: Config, s: SignedCommitment, validators: seq<AuthorityId>, n: nat): nat
    requires n <= |validators| && n <= |s.signatures|
  {
    if n == 0 then 0 else CountSigned(c, s, validators, n - 1) + if SignedAt(c, s, validators, n - 1) then 1 else 0
  }

  lemma {:induction false} CountSignedIsSigners(c: Config, s: SignedCommitment, validators: seq<AuthorityId>, n: nat)
    requires n <= |validators| && n <= |s.signatures|
    ensures CountSigned(c, s, validators, n) == |Signers(c, s, validators, n)|
  {
    if n > 0 {
      CountSignedIsSigners(c, s, validators, n - 1);
      SignersStep(c, s, validators, n - 1);
    }
  }

  /** The commitment is for the given authority set, the validators are that set, and a quorum of them signed. */
  ghost predicate Quorate(c: Config, s: SignedCommitment, info: AuthoritySetInfo, set_: AuthoritySet) {
    && s.commitment.validatorSetId == set_.id == info.id
    && c.merkleRoot(set_.validators) == info.keysetCommitment
    && |set_.validators| == |s.signatures| == info.len
    && Quorum(|Signers(c, s, set_.validators, info.len)|, info.len)
  }

  /** A commitment is accepted if and only if it is quorate and carries a root; an error names what is wrong. */
  lemma AcceptedIffQuorate(c: Config, s: SignedCommitment, info: AuthoritySetInfo, set_: AuthoritySet)
    ensures CommitmentProblem(c, s, info, set_).None? <==>
            Quorate(c, s, info, set_) && c.mmrRootOf(s.commitment.payload).Some?
    ensures match CommitmentProblem(c, s, info, set_)
            case None => true
            case Some(InvalidCommitmentValidatorSetId) => s.commitment.validatorSetId != info.id
            case Some(InvalidCommitmentSignaturesLen) => |s.signatures| != info.len
            case Some(InvalidValidatorSetId) => set_.id != info.id
            case Some(InvalidValidatorSetLen) => |set_.validators| != info.len
            case Some(InvalidValidatorSetRoot) => c.merkleRoot(set_.validators) != info.keysetCommitment
            case Some(NotEnoughCorrectSignatures) =>
              && |set_.validators| == |s.signatures| == info.len
              && !Quorum(|Signers(c, s, set_.validators, info.len)|, info.len)
            case Some(MmrRootMissingFromCommitment) => c.mmrRootOf(s.commitment.payload).None?
            case Some(_) => false
  {
    if |set_.validators| == |s.signatures| == info.len {
      CountSignedIsSigners(c, s, set_.validators, info.len);
      SignersBounded(c, s, set_.validators, info.len);
      QuorumIsEnough(|Signers(c, s, set_.validators, info.len)|, info.len);
    }
  }

  method VerifyCommitment(c: Config, s: SignedCommitment, info: AuthoritySetInfo, set_: AuthoritySet)
    returns (r: Result<Hash, Error>)
    ensures CommitmentProblem(c, s, info, set_) == if r.Ok? then None else Some(r.error)
    ensures r.Ok? ==> Some(r.value) == c.mmrRootOf(s.commitment.payload)
  {
    if s.commitment.validatorSetId != info.id { return Err(InvalidCommitmentValidatorSetId); }
    if |s.signatures| != info.len { return Err(InvalidCommitmentSignaturesLen); }
    if set_.id != info.id { return Err(InvalidValidatorSetId); }
    if |set_.validators| != info.len { return Err(InvalidValidatorSetLen); }
    if c.merkleRoot(set_.validators) != info.keysetCommitment { return Err(InvalidValidatorSetRoot); }
    CountSignedIsSigners(c, s, set_.validators, info.len);
    SignersBounded(c, s, set_.validators, info.len);
    QuorumIsEnough(|Signers(c, s, set_.validators, info.len)|, info.len);
    var problem := VerifySignatures(c, s, set_.validators);
    if problem.Some? { return Err(problem.value); }
    var root := c.mmrRootOf(s.commitment.payload);
    if root.None? { return Err(MmrRootMissingFromCommitment); }
    r := Ok(root.value);
  }

  function SubmitProblem(c: Config, s: State, signed: SignedCommitment, set_: AuthoritySet, leaf: MmrLeaf,
                         proof: MmrProof)
    : Option<Error>
  {
    if s.halted then Some(Halted)
    else if s.requestCount >= c.maxRequests then Some(TooManyRequests)
    else if s.info.None? then Some(NotInitialized)
    else if signed.commitment.blockNumber <= s.info.value.bestBlockNumber then Some(OldCommitment)
    else if CommitmentProblem(c, signed, s.authoritySet, set_).Some?
      then CommitmentProblem(c, signed, s.authoritySet, set_)
    else if !c.leafProved(leaf, proof, c.mmrRootOf(signed.commitment.payload).value)
      then Some(MmrProofVerificationFailed)
    else None
  }

  function Submitted(c: Config, s: State, signed: SignedCommitment, leaf: MmrLeaf): State
    requires s.info.Some? && c.mmrRootOf(signed.commitment.payload).Some?
  {
    var number, index := signed.commitment.blockNumber, s.info.value.nextBlockNumberIndex;
    var root := c.mmrRootOf(signed.commitment.payload).value;
    var stored := s.commitments[number := ImportedCommitment(leaf.parent, root)];
    s.(requestCount := s.requestCount + 1,
       authoritySet := HandedOver(s.authoritySet, leaf),
       blockNumbers := s.blockNumbers[index := number],
       commitments := if index in s.blockNumbers then stored - {s.blockNumbers[index]} else stored,
       info := Some(CommitmentsInfo(number, (index + 1) % c.commitmentsToKeep)))
  }

  function BlockBegun(s: State): State { s.(requestCount := if s.requestCount > 0 then s.requestCount - 1 else 0) }

  function InitProblem(s: State, init: InitData): Option<Error> {
    if s.info.Some? then Some(AlreadyInitialized)
    else if init.authoritySet.len == 0 then Some(InvalidInitialAuthoritySet)
    else None
  }

  function Initialized(s: State, init: InitData): State {
    s.(halted := init.halted, authoritySet := init.authoritySet, info := Some(CommitmentsInfo(init.bestBlockNumber, 0)))
  }

  /** The authority set in force after a commitment whose leaf announces the next one. */
  function HandedOver(current: AuthoritySetInfo, leaf: MmrLeaf): AuthoritySetInfo {
    if leaf.nextAuthoritySet.id > current.id then leaf.nextAuthoritySet else current
  }

  // ---- The pallet ----------------------------------------------------------------------------

  class BeefyPallet {
    const config: Config
    var halted: bool
    var requestCount: nat
    var info: Option<CommitmentsInfo>
    var blockNumbers: map<nat, nat>
    var commitments: map<nat, ImportedCommitment>
    var authoritySet: AuthoritySetInfo

    function Value(): State
      reads this
    {
      State(halted, requestCount, info, blockNumbers, commitments, authoritySet)
    }

    constructor (config: Config, halted: bool, authoritySet: AuthoritySetInfo)
      ensures this.config == config
      ensures Value() == State(halted, 0, None, map[], map[], authoritySet)
    {
      this.config, this.halted, this.authoritySet := config, halted, authoritySet;
      requestCount, info, blockNumbers, commitments := 0, None, map[], map[];
    }

    method OnInitialize()
      modifies this`requestCount
      ensures Value() == BlockBegun(old(Value()))
    {
      requestCount := if requestCount > 0 then requestCount - 1 else 0;
    }

    method Initialize(init: InitData) returns (r: Result<(), Error>)
      modifies this
      ensures InitProblem(old(Value()), init) == if r.Ok? then None else Some(r.error)
      ensures Value() == if r.Ok? then Initialized(old(Value()), init) else old(Value())
    {
      if info.Some? { return Err(AlreadyInitialized); }
      if init.authoritySet.len == 0 { return Err(InvalidInitialAuthoritySet); }
      authoritySet := init.authoritySet;
      halted := init.halted;
      info := Some(CommitmentsInfo(init.bestBlockNumber, 0));
      r := Ok(());
    }

    /** Import a commitment signed by a quorum of the current authority set. A failing call changes nothing. */
    method SubmitCommitment(signed: SignedCommitment, set_: AuthoritySet, leaf: MmrLeaf, proof: MmrProof)
      returns (r: Result<(), Error>)
      modifies this
      ensures SubmitProblem(config, old(Value()), signed, set_, leaf, proof) == if r.Ok? then None else Some(r.error)
      ensures r.Err? ==> Value() == old(Value())
      ensures r.Ok? ==> Value() == Submitted(config, old(Value()), signed, leaf)
      ensures r.Ok? ==>
                authoritySet == if leaf.nextAuthoritySet.id > old(authoritySet).id then leaf.nextAuthoritySet
                                else old(authoritySet)
    {
      if halted { return Err(Halted); }
      if requestCount >= config.maxRequests { return Err(TooManyRequests); }
      if info.None? { return Err(NotInitialized); }
      if signed.commitment.blockNumber <= info.value.bestBlockNumber { return Err(OldCommitment); }
      var root := VerifyCommitment(config, signed, authoritySet, set_);
      if root.Err? { return Err(root.error); }
      if !config.leafProved(leaf, proof, root.value) { return Err(MmrProofVerificationFailed); }

      requestCount := requestCount + 1;
      if leaf.nextAuthoritySet.id > authoritySet.id { authoritySet := leaf.nextAuthoritySet; }
      var number := signed.commitment.blockNumber;
      var index: nat := info.value.nextBlockNumberIndex;
      var toPrune := if index in blockNumbers then Some(blockNumbers[index]) else None;
      commitments := commitments[number := ImportedCommitment(leaf.parent, root.value)];
      blockNumbers := blockNumbers[index := number];
      info := Some(CommitmentsInfo(number, (index + 1) % config.commitmentsToKeep));
      if toPrune.Some? {
        commitments := commitments - {toPrune.value};
      }
      r := Ok(());
    }
  }

  // ---- Quorum intersection -------------------------------------------------------------------

  /** Two quorums of one authority set share more than a third of it. */
  lemma QuorumsIntersect(c: Config, a: SignedCommitment, b: SignedCommitment, validators: seq<AuthorityId>)
    requires |a.signatures| == |b.signatures| == |validators| >= 1
    requires Quorum(|Signers(c, a, validators, |validators|)|, |validators|)
    requires Quorum(|Signers(c, b, validators, |validators|)|, |validators|)
    ensures var n := |validators|;
            |Signers(c, a, validators, n) * Signers(c, b, validators, n)| >= (n - 1) / 3 + 1
  {
    var n := |validators|;
    var x, y := Signers(c, a, validators, n), Signers(c, b, validators, n);
    BoundedSize(x + y, n);
    UnionSize(x, y);
  }

  lemma UnionSize(x: set<nat>, y: set<nat>)
    ensures |x + y| + |x * y| == |x| + |y|
  {
    assert x + y == x + (y - x);
    assert y == (y - x) + x * y;
  }

  lemma {:induction false} BoundedSize(x: set<nat>, n: nat)
    requires forall i :: i in x ==> i < n
    ensures |x| <= n
  {
    if n > 0 {
      BoundedSize(x - {n - 1}, n - 1);
      if n - 1 in x { assert x == (x - {n - 1}) + {n - 1}; } else { assert x == x - {n - 1}; }
    } else {
      assert x == {};
    }
  }

  /** Who produced which signature of which commitment. */
  type Ledger = (AuthorityId, Signature, Commitment) -> bool

  /** Every correct signature in the commitment was produced by its validator: none is forged. */
  ghost predicate Unforged(c: Config, produced: Ledger, s: SignedCommitment, validators: seq<AuthorityId>) {
    forall i: nat :: i < |validators| && i < |s.signatures| && SignedAt(c, s, validators, i) ==>
      produced(validators[i], s.signatures[i].value, s.commitment)
  }

  /** The validator produced signatures of two different commitments for the block. */
  ghost predicate Equivocates(produced: Ledger, validator: AuthorityId, blockNumber: nat) {
    exists x, s, y, t ::
      produced(validator, s, x) && produced(validator, t, y) && x != y && x.blockNumber == y.blockNumber == blockNumber
  }

  ghost function Equivocators(produced: Ledger, validators: seq<AuthorityId>, blockNumber: nat): set<nat> {
    set i: nat | i < |validators| && Equivocates(produced, validators[i], blockNumber)
  }

  /**
    Agreement: as long as no signature is forged and at most a third of the positions of an authority set
    produce signatures of two commitments for one block, two light clients that know the same set cannot
    accept different commitments for that block.
   */
  lemma OneCommitmentPerBlock(c: Config, produced: Ledger, info: AuthoritySetInfo,
                              a: SignedCommitment, setA: AuthoritySet, b: SignedCommitment, setB: AuthoritySet)
    requires CommitmentProblem(c, a, info, setA).None? && CommitmentProblem(c, b, info, setB).None?
    requires info.len >= 1
    requires c.merkleRoot(setA.validators) == c.merkleRoot(setB.validators) ==> setA.validators == setB.validators
    requires Unforged(c, produced, a, setA.validators) && Unforged(c, produced, b, setB.validators)
    requires a.commitment.blockNumber == b.commitment.blockNumber
    requires |Equivocators(produced, setA.validators, a.commitment.blockNumber)| <= (info.len - 1) / 3
    ensures a.commitment == b.commitment
  {
    var validators, n := setA.validators, info.len;
    AcceptedIffQuorate(c, a, info, setA);
    AcceptedIffQuorate(c, b, info, setB);
    QuorumsIntersect(c, a, b, validators);
    if a.commitment != b.commitment {
      SharedSignersEquivocate(c, produced, a, b, validators);
    }
  }

  lemma SharedSignersEquivocate(c: Config, produced: Ledger, a: SignedCommitment, b: SignedCommitment,
                                validators: seq<AuthorityId>)
    requires |a.signatures| == |b.signatures| == |validators|
    requires Unforged(c, produced, a, validators) && Unforged(c, produced, b, validators)
    requires a.commitment != b.commitment && a.commitment.blockNumber == b.commitment.blockNumber
    ensures var n := |validators|;
            |Signers(c, a, validators, n) * Signers(c, b, validators, n)| <=
            |Equivocators(produced, validators, a.commitment.blockNumber)|
  {
    var n := |validators|;
    var shared := Signers(c, a, validators, n) * Signers(c, b, validators, n);
    var faulty := Equivocators(produced, validators, a.commitment.blockNumber);
    forall i | i in shared ensures i in faulty {
      assert produced(validators[i], a.signatures[i].value, a.commitment);
      assert produced(validators[i], b.signatures[i].value, b.commitment);
    }
    assert faulty == shared + (faulty - shared);
  }
}
