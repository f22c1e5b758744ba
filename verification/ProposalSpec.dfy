/** What the DAO handlers make of the store, as functions. */
module ProposalSpec {
  import opened Options
  import opened Entities
  import opened LedgerSpec
  import D = DynamicQuorum

  const NEW_PARAMS := DynamicQuorumParams(0, 0, 0, None)

  function ParamsOf(s: State): DynamicQuorumParams {
    if s.dqParams.Some? then s.dqParams.value else NEW_PARAMS
  }

  /** Dynamic quorum applies to proposals created after the block at which it was first configured. */
  predicate UsesDynamicQuorum(params: DynamicQuorumParams, p: Proposal) {
    params.dynamicQuorumStartBlock.Some? && params.dynamicQuorumStartBlock.value < p.createdBlock
  }

  /** The quorum for the snapshot taken at creation and the votes against so far. */
  function SnapshotQuorum(p: Proposal, againstVotes: nat): nat
    requires p.totalSupply > 0
  {
    D.DynamicQuorumVotes(againstVotes, p.totalSupply, p.minQuorumVotesBPS, p.maxQuorumVotesBPS, p.quorumCoefficient)
  }

  function NewProposal(s: State, id: ProposalId, proposer: Address, block: nat, startBlock: nat, endBlock: nat,
                       quorumVotes: nat): Proposal {
    var params := ParamsOf(s);
    Proposal(proposer, block, startBlock, endBlock, quorumVotes, 0, 0, 0,
             if block >= startBlock then ACTIVE else PENDING,
             if id in s.proposals then s.proposals[id].executionETA else None,
             GovernanceOf(s).totalTokenHolders,
             params.minQuorumVotesBPS, params.maxQuorumVotesBPS, params.quorumCoefficient)
  }

  function AfterProposalCreated(s: State, id: ProposalId, proposer: Address, block: nat, startBlock: nat, endBlock: nat,
                                quorumVotes: nat): State {
    var g := GovernanceOf(s);
    var counted := if id in s.proposals then s else SaveGovernance(s, g.(proposals := g.proposals + 1));
    CreateDelegate(counted, proposer).(
      dqParams := Some(ParamsOf(s)),
      proposals := s.proposals[id := NewProposal(s, id, proposer, block, startBlock, endBlock, quorumVotes)])
  }

  function AfterStatusSet(s: State, id: ProposalId, status: Status): State
    requires id in s.proposals
  {
    s.(proposals := s.proposals[id := s.proposals[id].(status := status)])
  }

  function AfterQueued(s: State, id: ProposalId, eta: nat): State
    requires id in s.proposals
  {
    var g := GovernanceOf(s);
    SaveGovernance(s, g.(proposalsQueued := g.proposalsQueued + 1)).(
      proposals := s.proposals[id := s.proposals[id].(status := QUEUED, executionETA := Some(eta))])
  }

  function AfterExecuted(s: State, id: ProposalId): State
    requires id in s.proposals
  {
    var g := GovernanceOf(s);
    SaveGovernance(s, g.(proposalsQueued := g.proposalsQueued - 1)).(
      proposals := s.proposals[id := s.proposals[id].(status := EXECUTED, executionETA := None)])
  }

  function Counted(p: Proposal, support: nat, votes: nat): Proposal {
    match support
    case 0 => p.(againstVotes := p.againstVotes + votes)
    case 1 => p.(forVotes := p.forVotes + votes)
    case 2 => p.(abstainVotes := p.abstainVotes + votes)
    case _ => p
  }

  /** A vote can be processed if its proposal exists, and with a positive supply where it is divided by. */
  predicate CanVote(s: State, id: ProposalId) {
    && id in s.proposals
    && (UsesDynamicQuorum(ParamsOf(s), s.proposals[id]) ==> s.proposals[id].totalSupply > 0)
  }

  function VotedProposal(s: State, id: ProposalId, support: nat, votes: nat): Proposal
    requires CanVote(s, id)
  {
    var p := Counted(s.proposals[id], support, votes);
    var q := if UsesDynamicQuorum(ParamsOf(s), p) then p.(quorumVotes := SnapshotQuorum(p, p.againstVotes)) else p;
    if q.status == PENDING then q.(status := ACTIVE) else q
  }

  function CastVote(s: State, voter: Address, id: ProposalId, support: nat, votes: nat, reason: string, block: nat): Vote {
    var vid := VoteId(voter, id);
    var oldReason := if vid in s.votes then s.votes[vid].reason else None;
    Vote(id, voter, votes, votes, support == 1, support, DelegateOf(s, voter).nounsRepresented,
         if reason != "" then Some(reason) else oldReason, block)
  }

  function AfterVoteCast(s: State, voter: Address, id: ProposalId, support: nat, votes: nat, reason: string, block: nat): State
    requires CanVote(s, id)
  {
    CreateDelegate(s, voter).(
      dqParams := Some(ParamsOf(s)),
      votes := s.votes[VoteId(voter, id) := CastVote(s, voter, id, support, votes, reason, block)],
      proposals := s.proposals[id := VotedProposal(s, id, support, votes)])
  }

  /** The parameters as the three setters load them: the start block is set once. */
  function ParamsAt(s: State, block: nat): DynamicQuorumParams {
    var p := ParamsOf(s);
    if p.dynamicQuorumStartBlock == None then p.(dynamicQuorumStartBlock := Some(block)) else p
  }

  function AfterMinSet(s: State, block: nat, newMin: nat): State {
    s.(dqParams := Some(ParamsAt(s, block).(minQuorumVotesBPS := newMin)))
  }

  function AfterMaxSet(s: State, block: nat, newMax: nat): State {
    s.(dqParams := Some(ParamsAt(s, block).(maxQuorumVotesBPS := newMax)))
  }

  function AfterCoefficientSet(s: State, block: nat, newCoefficient: nat): State {
    s.(dqParams := Some(ParamsAt(s, block).(quorumCoefficient := newCoefficient)))
  }
}
