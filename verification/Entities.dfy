/** The subgraph's stored entities and the contract events its handlers receive. */
module Entities {
  import opened Options

  /** An address, by its hexadecimal text. */
  datatype Address = Address(hex: string)
  const ZERO_ADDRESS := Address("0x0000000000000000000000000000000000000000")

  /** Token and proposal ids; the store uses their decimal texts. */
  type TokenId = nat
  type ProposalId = nat

  datatype Account = Account(
    delegate: Option<Address>,
    tokenBalanceRaw: int,
    tokenBalance: int,
    totalTokensHeldRaw: int,
    totalTokensHeld: int,
    nouns: seq<TokenId>)

  datatype Delegate = Delegate(
    delegatedVotesRaw: int,
    delegatedVotes: int,
    tokenHoldersRepresentedAmount: int,
    nounsRepresented: seq<TokenId>)

  datatype Noun = Noun(seed: Option<TokenId>, owner: Address)

  datatype Governance = Governance(
    proposals: int,
    totalTokenHolders: int,
    currentTokenHolders: int,
    currentDelegates: int,
    totalDelegates: int,
    delegatedVotesRaw: int,
    delegatedVotes: int,
    proposalsQueued: int)

  datatype Status = PENDING | ACTIVE | CANCELLED | VETOED | QUEUED | EXECUTED

  datatype Proposal = Proposal(
    proposer: Address,
    createdBlock: nat,
    startBlock: nat,
    endBlock: nat,
    quorumVotes: nat,
    forVotes: nat,
    againstVotes: nat,
    abstainVotes: nat,
    status: Status,
    executionETA: Option<nat>,
    totalSupply: int,
    minQuorumVotesBPS: nat,
    maxQuorumVotesBPS: nat,
    quorumCoefficient: nat)

  /** Voter and proposal; the store joins their texts with a dash, which no address contains. */
  datatype VoteId = VoteId(voter: Address, proposal: ProposalId)

  datatype Vote = Vote(
    proposal: ProposalId,
    voter: Address,
    votesRaw: nat,
    votes: nat,
    support: bool,
    supportDetailed: nat,
    nouns: seq<TokenId>,
    reason: Option<string>,
    blockNumber: nat)

  datatype DynamicQuorumParams = DynamicQuorumParams(
    minQuorumVotesBPS: nat,
    maxQuorumVotesBPS: nat,
    quorumCoefficient: nat,
    dynamicQuorumStartBlock: Option<nat>)

  /** Everything in the store. `load` copies an entity out of it, `save` writes a whole entity back. */
  datatype State = State(
    accounts: map<Address, Account>,
    delegates: map<Address, Delegate>,
    nouns: map<TokenId, Noun>,
    seeds: set<TokenId>,
    governance: Option<Governance>,
    proposals: map<ProposalId, Proposal>,
    votes: map<VoteId, Vote>,
    dqParams: Option<DynamicQuorumParams>)

  const EMPTY_STORE := State(map[], map[], map[], {}, None, map[], map[], None)

  // ----- entities as they are when first created -----

  const NEW_ACCOUNT := Account(None, 0, 0, 0, 0, [])
  const NEW_DELEGATE := Delegate(0, 0, 0, [])
  const NEW_GOVERNANCE := Governance(0, 0, 0, 0, 0, 0, 0, 0)

  function AccountOf(s: State, a: Address): Account {
    if a in s.accounts then s.accounts[a] else NEW_ACCOUNT
  }

  function DelegateOf(s: State, d: Address): Delegate {
    if d in s.delegates then s.delegates[d] else NEW_DELEGATE
  }

  function GovernanceOf(s: State): Governance {
    if s.governance.Some? then s.governance.value else NEW_GOVERNANCE
  }

  // ----- load-or-create -----

  function CreateAccount(s: State, a: Address): State {
    s.(accounts := s.accounts[a := AccountOf(s, a)])
  }

  /** A delegate other than the zero address is counted when it is created. */
  function CreateDelegate(s: State, d: Address): State {
    var g := GovernanceOf(s);
    s.(delegates := s.delegates[d := DelegateOf(s, d)],
       governance := if d in s.delegates || d == ZERO_ADDRESS then s.governance
                     else Some(g.(totalDelegates := g.totalDelegates + 1)))
  }

  // ----- events -----

  datatype Event =
    | Transfer(from: Address, to: Address, tokenId: TokenId)
    | DelegateChanged(delegator: Address, fromDelegate: Address, toDelegate: Address)
    | DelegateVotesChanged(delegate: Address, previousBalance: nat, newBalance: nat)
    | NounCreated(noun: TokenId)
    | ProposalCreated(id: ProposalId, proposer: Address, block: nat, startBlock: nat, endBlock: nat, quorumVotes: nat)
    | ProposalCanceled(id: ProposalId)
    | ProposalVetoed(id: ProposalId)
    | ProposalQueued(id: ProposalId, eta: nat)
    | ProposalExecuted(id: ProposalId)
    | VoteCast(voter: Address, id: ProposalId, support: nat, votes: nat, reason: string, block: nat)
    | MinQuorumVotesBPSSet(block: nat, newMin: nat)
    | MaxQuorumVotesBPSSet(block: nat, newMax: nat)
    | QuorumCoefficientSet(block: nat, newCoefficient: nat)
}
