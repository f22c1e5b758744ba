/** The state the web app shows for a proposal, and how further votes can change the outcome. */
module ProposalStates {
  import opened Options
  import E = Entities
  import opened ProposalSpec
  import opened Proposals
  import D = DynamicQuorum

  datatype ProposalState =
    UNDETERMINED | PENDING | ACTIVE | CANCELLED | DEFEATED | SUCCEEDED | QUEUED | EXPIRED | EXECUTED | VETOED

  const GRACE_PERIOD := 14 * 60 * 60 * 24

  /** A missing block number and block number 0 are treated alike. The time stamp is in seconds. */
  function GetProposalState(blockNumber: Option<nat>, blockTimestamp: Option<int>, p: E.Proposal): ProposalState {
    match p.status
    case PENDING =>
      if blockNumber == None || blockNumber == Some(0) then UNDETERMINED
      else if blockNumber.value <= p.startBlock then PENDING
      else ACTIVE
    case ACTIVE =>
      if blockNumber == None || blockNumber == Some(0) then UNDETERMINED
      else if blockNumber.value > p.endBlock then
        if p.forVotes <= p.againstVotes || p.forVotes < p.quorumVotes then DEFEATED
        else if p.executionETA == None then SUCCEEDED
        else ACTIVE
      else ACTIVE
    case QUEUED =>
      if blockTimestamp == None || p.executionETA == None then UNDETERMINED
      else if blockTimestamp.value >= p.executionETA.value + GRACE_PERIOD then EXPIRED
      else QUEUED
    case CANCELLED => CANCELLED
    case EXECUTED => EXECUTED
    case VETOED => VETOED
  }

  /** The stored numbers are what the handlers keep: tallies are sums of votes, quorums follow the snapshot. */
  ghost predicate Consistent(s: E.State, id: E.ProposalId) {
    && id in s.proposals && TalliesOk(s) && QuorumOk(s, id)
  }

  /** Without votes nobody is in favour. */
  lemma NoVotesNoFor(s: E.State, id: E.ProposalId)
    requires Consistent(s, id) && !HasVotes(s, id)
    ensures s.proposals[id].forVotes == 0
  {
    assert TallyOk(s, id, 1);
    assert VotesFor(s, id, 1) == map[];
  }

  /**
   * A vote's effect on the numbers compared. If anybody is in favour already, the quorum moves with the votes
   * against: up for a vote against, and not at all otherwise.
   */
  lemma QuorumMovesWithAgainst(s: E.State, id: E.ProposalId, support: nat, votes: nat)
    requires Consistent(s, id) && CanVote(s, id) && s.proposals[id].forVotes > 0
    ensures var p, q := s.proposals[id], VotedProposal(s, id, support, votes);
      && p.quorumVotes <= q.quorumVotes
      && (support != 0 ==> q.quorumVotes == p.quorumVotes)
  {
    var p, q := s.proposals[id], VotedProposal(s, id, support, votes);
    if !HasVotes(s, id) {
      NoVotesNoFor(s, id);
    }
    VotedTally(s, id, support, votes, 0);
    VotedSnapshot(s, id, support, votes);
    hide VotedProposal;
    if UsesDynamicQuorum(ParamsOf(s), p) {
      D.Monotone(p.againstVotes, q.againstVotes, p.totalSupply, p.minQuorumVotesBPS, p.maxQuorumVotesBPS, p.quorumCoefficient);
    }
  }

  ghost predicate Voted(p: E.Proposal, q: E.Proposal, support: nat, votes: nat) {
    && q.endBlock == p.endBlock && q.executionETA == p.executionETA
    && (p.status == E.ACTIVE ==> q.status == E.ACTIVE)
    && q.againstVotes == p.againstVotes + (if support == 0 then votes else 0)
    && q.forVotes == p.forVotes + (if support == 1 then votes else 0)
  }

  lemma VotedNumbers(s: E.State, id: E.ProposalId, support: nat, votes: nat)
    requires CanVote(s, id)
    ensures Voted(s.proposals[id], VotedProposal(s, id, support, votes), support, votes)
  {
    VotedTally(s, id, support, votes, 0);
    VotedTally(s, id, support, votes, 1);
    VotedSnapshot(s, id, support, votes);
    hide SnapshotQuorum;
  }

  /**
   * Once voting has ended, one more vote against never turns a defeated proposal into a successful one, whenever one
   * looks again.
   */
  lemma AgainstVoteNeverRescues(s: E.State, voter: E.Address, id: E.ProposalId, votes: nat, reason: string, at: nat,
                                block: nat, time: Option<int>, later: nat, laterTime: Option<int>)
    requires Consistent(s, id) && CanVote(s, id) && block <= later && GoesOn(time, laterTime)
    requires GetProposalState(Some(block), time, s.proposals[id]) == DEFEATED
    ensures var s' := AfterVoteCast(s, voter, id, 0, votes, reason, at);
      GetProposalState(Some(later), laterTime, s'.proposals[id]) == DEFEATED
  {
    VotedNumbers(s, id, 0, votes);
    if s.proposals[id].forVotes > 0 {
      QuorumMovesWithAgainst(s, id, 0, votes);
    }
    StateNeverGoesBack(VotedProposal(s, id, 0, votes), block, later, time, laterTime);
    hide VotedProposal;
  }

  /** One more vote in favour never turns a successful proposal into a defeated one. */
  lemma ForVoteNeverSinks(s: E.State, voter: E.Address, id: E.ProposalId, votes: nat, reason: string, at: nat,
                          block: nat, time: Option<int>, later: nat, laterTime: Option<int>)
    requires Consistent(s, id) && CanVote(s, id) && block <= later && GoesOn(time, laterTime)
    requires GetProposalState(Some(block), time, s.proposals[id]) == SUCCEEDED
    ensures var s' := AfterVoteCast(s, voter, id, 1, votes, reason, at);
      GetProposalState(Some(later), laterTime, s'.proposals[id]) == SUCCEEDED
  {
    VotedNumbers(s, id, 1, votes);
    QuorumMovesWithAgainst(s, id, 1, votes);
    StateNeverGoesBack(VotedProposal(s, id, 1, votes), block, later, time, laterTime);
    hide VotedProposal;
  }

  lemma ActiveStaysAsShown(s: E.State, voter: E.Address, id: E.ProposalId, support: nat, votes: nat, reason: string,
                           at: nat, block: Option<nat>, time: Option<int>)
    requires Consistent(s, id) && CanVote(s, id) && support >= 2
    requires s.proposals[id].status == E.ACTIVE
    ensures GetProposalState(block, time, AfterVoteCast(s, voter, id, support, votes, reason, at).proposals[id])
         == GetProposalState(block, time, s.proposals[id])
  {
    VotedNumbers(s, id, support, votes);
    if s.proposals[id].forVotes > 0 {
      QuorumMovesWithAgainst(s, id, support, votes);
    }
    hide VotedProposal;
  }

  /** The first vote on a pending proposal makes it active, even one that counts for neither side. */
  lemma FirstVoteActivates(s: E.State, voter: E.Address, id: E.ProposalId, support: nat, votes: nat, reason: string,
                           at: nat, block: Option<nat>, time: Option<int>)
    requires Consistent(s, id) && CanVote(s, id) && StatusOk(s, id) && support >= 2
    requires s.proposals[id].status == E.PENDING
    ensures GetProposalState(block, time, AfterVoteCast(s, voter, id, support, votes, reason, at).proposals[id])
         == if block == None || block == Some(0) then UNDETERMINED
            else if block.value > s.proposals[id].endBlock then DEFEATED
            else ACTIVE
  {
    NoVotesNoFor(s, id);
    VotedNumbers(s, id, support, votes);
    VotedStatus(s, id, support, votes);
    hide VotedProposal;
  }

  /**
   * Abstaining, or voting with an unknown kind of support, leaves the state shown as it is if and only if the proposal
   * is not pending, or no block is known, or the block is within the voting period.
   */
  lemma AbstainingKeepsStateIff(s: E.State, voter: E.Address, id: E.ProposalId, support: nat, votes: nat, reason: string,
                                at: nat, block: Option<nat>, time: Option<int>)
    requires Consistent(s, id) && CanVote(s, id) && StatusOk(s, id) && support >= 2
    ensures var p := s.proposals[id];
      GetProposalState(block, time, AfterVoteCast(s, voter, id, support, votes, reason, at).proposals[id])
      == GetProposalState(block, time, p)
      <==> p.status != E.PENDING || block == None || block == Some(0) || p.startBlock < block.value <= p.endBlock
  {
    match s.proposals[id].status
    case ACTIVE => ActiveStaysAsShown(s, voter, id, support, votes, reason, at, block, time);
    case PENDING =>
      FirstVoteActivates(s, voter, id, support, votes, reason, at, block, time);
      hide AfterVoteCast;
    case _ =>
      VotedStatus(s, id, support, votes);
      hide VotedProposal;
  }

  /**
   * A proposal is shown with an outcome if and only if voting is over, it was not cancelled, vetoed, queued or
   * executed, and it was created in its voting period or somebody voted. Without a vote, a proposal created before its
   * start block is shown as ACTIVE for ever.
   */
  lemma OutcomeIsShownIff(s: E.State, id: E.ProposalId, block: nat, time: Option<int>)
    requires id in s.proposals && StatusOk(s, id)
    ensures var p := s.proposals[id];
      && (GetProposalState(Some(block), time, p) in {DEFEATED, SUCCEEDED}
          <==> block > p.endBlock && p.status in {E.PENDING, E.ACTIVE}
               && (HasVotes(s, id) || p.createdBlock >= p.startBlock))
      && (p.status in {E.PENDING, E.ACTIVE} && !HasVotes(s, id) && p.createdBlock < p.startBlock < block
          ==> GetProposalState(Some(block), time, p) == ACTIVE)
  {
  }

  // ----- the passing of blocks and time -----

  /** How far along a proposal is: before voting, during it, and after it. */
  function Phase(state: ProposalState): nat {
    match state
    case UNDETERMINED => 0
    case PENDING => 0
    case ACTIVE => 1
    case _ => 2
  }

  /** Time does not go back, and stays known. */
  predicate GoesOn(time: Option<int>, later: Option<int>) {
    time.Some? ==> later.Some? && time.value <= later.value
  }

  /**
   * For an unchanged proposal, later blocks and times never lead back: an outcome stays as it is, except that a queued
   * proposal expires, once and for all.
   */
  lemma StateNeverGoesBack(p: E.Proposal, block: nat, later: nat, time: Option<int>, laterTime: Option<int>)
    requires 0 < block <= later && GoesOn(time, laterTime)
    ensures var now, then' := GetProposalState(Some(block), time, p), GetProposalState(Some(later), laterTime, p);
      && Phase(now) <= Phase(then')
      && (Phase(now) == 2 ==> then' == now || (now == QUEUED && then' == EXPIRED))
      && (now == EXPIRED ==> then' == EXPIRED)
      && (then' == UNDETERMINED ==> now == UNDETERMINED)
  {
  }
}
