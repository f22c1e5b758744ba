/** The proposal ledger: tallies, counters, snapshots and quorums against the stored votes. */
module Proposals {
  import opened Options
  import opened Sums
  import opened Entities
  import opened ProposalSpec
  import D = DynamicQuorum

  // ----- tallies -----

  /** The votes stored for a proposal with one kind of support; votes of weight 0 are left out. */
  ghost function VotesFor(s: State, p: ProposalId, k: nat): map<VoteId, int> {
    map v | v in s.votes && s.votes[v].proposal == p && s.votes[v].supportDetailed == k && s.votes[v].votesRaw != 0
      :: s.votes[v].votesRaw
  }

  function Tally(p: Proposal, k: nat): nat {
    match k
    case 0 => p.againstVotes
    case 1 => p.forVotes
    case _ => p.abstainVotes
  }

  ghost predicate TallyOk(s: State, p: ProposalId, k: nat)
    requires p in s.proposals
  {
    Tally(s.proposals[p], k) == Sum(VotesFor(s, p, k))
  }

  /** Votes are stored under their voter and proposal, and only for known proposals. */
  ghost predicate VoteKeysOk(s: State) {
    forall v :: v in s.votes ==> s.votes[v].proposal == v.proposal && v.proposal in s.proposals
  }

  ghost predicate TalliesOk(s: State) {
    VoteKeysOk(s) && forall p, k {:trigger TallyOk(s, p, k)} :: p in s.proposals && k < 3 ==> TallyOk(s, p, k)
  }

  /** What a stored vote adds to one tally. */
  function Contribution(s: State, v: VoteId, k: nat): nat {
    if v in s.votes && s.votes[v].supportDetailed == k then s.votes[v].votesRaw else 0
  }

  lemma VotesForAfterCast(s: State, voter: Address, id: ProposalId, support: nat, votes: nat, reason: string, block: nat,
                          s': State, p: ProposalId, k: nat)
    requires CanVote(s, id) && s' == AfterVoteCast(s, voter, id, support, votes, reason, block) && VoteKeysOk(s)
    ensures VotesFor(s', p, k) ==
      var m, vid, c := VotesFor(s, p, k), VoteId(voter, id), if support == k then votes else 0;
      if p != id then m else if c == 0 then m - {vid} else m[vid := c]
  {
    hide CreateDelegate, VotedProposal;
    var vid := VoteId(voter, id);
    assert s'.votes == s.votes[vid := CastVote(s, voter, id, support, votes, reason, block)];
  }

  lemma CountedTally(p: Proposal, support: nat, votes: nat, k: nat)
    requires k < 3
    ensures Tally(Counted(p, support, votes), k) == Tally(p, k) + if support == k then votes else 0
  {
  }

  lemma VotedTally(s: State, id: ProposalId, support: nat, votes: nat, k: nat)
    requires CanVote(s, id) && k < 3
    ensures Tally(VotedProposal(s, id, support, votes), k) == Tally(s.proposals[id], k) + if support == k then votes else 0
  {
    CountedTally(s.proposals[id], support, votes, k);
    hide SnapshotQuorum, Counted;
  }

  /** After a vote, a tally of the proposal exceeds its votes by what an overwritten vote had added. */
  lemma TallyAfterCast(s: State, voter: Address, id: ProposalId, support: nat, votes: nat, reason: string, block: nat,
                       s': State, k: nat)
    requires CanVote(s, id) && s' == AfterVoteCast(s, voter, id, support, votes, reason, block)
    requires VoteKeysOk(s) && k < 3 && TallyOk(s, id, k)
    ensures Tally(s'.proposals[id], k) == Sum(VotesFor(s', id, k)) + Contribution(s, VoteId(voter, id), k)
  {
    var vid := VoteId(voter, id);
    var m := VotesFor(s, id, k);
    VotesForAfterCast(s, voter, id, support, votes, reason, block, s', id, k);
    SumAfter(m, vid, if support == k then votes else 0);
    VotedTally(s, id, support, votes, k);
    assert s'.proposals[id] == VotedProposal(s, id, support, votes);
    assert vid in s.votes ==> s.votes[vid].proposal == id;
    hide VotedProposal, AfterVoteCast;
  }

  /** The voter has no stored vote on the proposal that counted for anything. */
  predicate FirstVote(s: State, voter: Address, id: ProposalId) {
    var vid := VoteId(voter, id);
    vid in s.votes ==> s.votes[vid].votesRaw == 0 || s.votes[vid].supportDetailed > 2
  }

  /** A vote keeps all tallies equal to the sums over the stored votes if and only if it is the voter's first. */
  lemma VoteKeepsTalliesIffFirst(s: State, voter: Address, id: ProposalId, support: nat, votes: nat, reason: string, block: nat)
    requires CanVote(s, id) && TalliesOk(s)
    ensures TalliesOk(AfterVoteCast(s, voter, id, support, votes, reason, block)) <==> FirstVote(s, voter, id)
  {
    var s' := AfterVoteCast(s, voter, id, support, votes, reason, block);
    var vid := VoteId(voter, id);
    assert VoteKeysOk(s');
    forall p, k | p in s'.proposals && k < 3
      ensures TallyOk(s', p, k) <==> (p == id ==> Contribution(s, vid, k) == 0)
    {
      assert TallyOk(s, p, k);
      if p == id {
        TallyAfterCast(s, voter, id, support, votes, reason, block, s', k);
      } else {
        VotesForAfterCast(s, voter, id, support, votes, reason, block, s', p, k);
      }
    }
    hide AfterVoteCast, VotesFor, TallyOk;
    if !FirstVote(s, voter, id) {
      assert !TallyOk(s', id, s.votes[vid].supportDetailed);
    }
  }

  /** Creating a proposal keeps the tallies right if and only if no counted votes are stored for its id. */
  lemma CreationKeepsTalliesIffFresh(s: State, id: ProposalId, proposer: Address, block: nat, startBlock: nat, endBlock: nat,
                                     quorumVotes: nat)
    requires TalliesOk(s)
    ensures TalliesOk(AfterProposalCreated(s, id, proposer, block, startBlock, endBlock, quorumVotes))
       <==> (id in s.proposals ==> forall k :: 0 <= k < 3 ==> Tally(s.proposals[id], k) == 0)
  {
    var s' := AfterProposalCreated(s, id, proposer, block, startBlock, endBlock, quorumVotes);
    assert s'.votes == s.votes && s'.proposals.Keys == s.proposals.Keys + {id};
    forall p, k | p in s'.proposals && k < 3
      ensures TallyOk(s', p, k) <==> (p == id && id in s.proposals ==> Tally(s.proposals[id], k) == 0)
    {
      assert VotesFor(s', p, k) == VotesFor(s, p, k);
      if p in s.proposals {
        assert TallyOk(s, p, k);
      } else {
        assert VotesFor(s, p, k) == map[];
      }
    }
    hide AfterProposalCreated, VotesFor, TallyOk;
    if id in s.proposals && exists k :: 0 <= k < 3 && Tally(s.proposals[id], k) != 0 {
      var k :| 0 <= k < 3 && Tally(s.proposals[id], k) != 0;
      assert !TallyOk(s', id, k);
    }
  }

  /** Handlers that keep the votes and every proposal's tallies keep them in agreement. */
  lemma SameTalliesAreOk(s: State, s': State)
    requires TalliesOk(s) && s'.votes == s.votes && s'.proposals.Keys == s.proposals.Keys
    requires forall p :: p in s.proposals ==>
      && s'.proposals[p].forVotes == s.proposals[p].forVotes
      && s'.proposals[p].againstVotes == s.proposals[p].againstVotes
      && s'.proposals[p].abstainVotes == s.proposals[p].abstainVotes
    ensures TalliesOk(s')
  {
    forall p, k | p in s'.proposals && k < 3 ensures TallyOk(s', p, k) {
      assert TallyOk(s, p, k);
      assert VotesFor(s', p, k) == VotesFor(s, p, k);
    }
  }

  // ----- counters -----

  ghost function Queued(s: State): set<ProposalId> {
    set p | p in s.proposals && s.proposals[p].executionETA.Some?
  }

  /** All proposals are counted, and `proposalsQueued` counts those with an execution time. */
  ghost predicate CountersOk(s: State) {
    && GovernanceOf(s).proposals == |s.proposals|
    && GovernanceOf(s).proposalsQueued == |Queued(s)|
  }

  /** Queueing keeps the counters right if and only if the proposal had no execution time yet. */
  lemma QueueingKeepsCountersIff(s: State, id: ProposalId, eta: nat)
    requires CountersOk(s) && id in s.proposals
    ensures CountersOk(AfterQueued(s, id, eta)) <==> s.proposals[id].executionETA == None
  {
    var s' := AfterQueued(s, id, eta);
    assert Queued(s') == Queued(s) + {id};
    assert s'.proposals.Keys == s.proposals.Keys && |s'.proposals.Keys| == |s'.proposals|;
    assert |s.proposals.Keys| == |s.proposals|;
  }

  /** Executing keeps the counters right if and only if the proposal had an execution time. */
  lemma ExecutingKeepsCountersIff(s: State, id: ProposalId)
    requires CountersOk(s) && id in s.proposals
    ensures CountersOk(AfterExecuted(s, id)) <==> s.proposals[id].executionETA.Some?
  {
    var s' := AfterExecuted(s, id);
    assert Queued(s') == Queued(s) - {id};
    assert s'.proposals.Keys == s.proposals.Keys && |s'.proposals.Keys| == |s'.proposals|;
    assert |s.proposals.Keys| == |s.proposals|;
  }

  lemma CreationKeepsCounters(s: State, id: ProposalId, proposer: Address, block: nat, startBlock: nat, endBlock: nat,
                              quorumVotes: nat)
    requires CountersOk(s)
    ensures CountersOk(AfterProposalCreated(s, id, proposer, block, startBlock, endBlock, quorumVotes))
  {
    var s' := AfterProposalCreated(s, id, proposer, block, startBlock, endBlock, quorumVotes);
    assert Queued(s') == Queued(s);
    assert s'.proposals.Keys == s.proposals.Keys + {id} && |s'.proposals.Keys| == |s'.proposals|;
    assert |s.proposals.Keys| == |s.proposals|;
  }

  lemma SameCountersAreOk(s: State, s': State)
    requires CountersOk(s) && s'.proposals.Keys == s.proposals.Keys
    requires GovernanceOf(s').proposals == GovernanceOf(s).proposals
    requires GovernanceOf(s').proposalsQueued == GovernanceOf(s).proposalsQueued
    requires forall p :: p in s.proposals ==> s'.proposals[p].executionETA == s.proposals[p].executionETA
    ensures CountersOk(s')
  {
    assert Queued(s') == Queued(s);
    assert |s'.proposals.Keys| == |s'.proposals| && |s.proposals.Keys| == |s.proposals|;
  }

  // ----- the queue counter against the statuses -----

  ghost function StatusQueued(s: State): set<ProposalId> {
    set p | p in s.proposals && s.proposals[p].status == QUEUED
  }

  /** `proposalsQueued` is the number of proposals with status QUEUED, as its name says. */
  ghost predicate QueuedStatusOk(s: State) {
    GovernanceOf(s).proposalsQueued == |StatusQueued(s)|
  }

  lemma OneProposalChanges(s: State, s': State, id: ProposalId)
    requires s'.proposals.Keys == s.proposals.Keys + {id}
    requires forall p :: p in s.proposals && p != id ==> s'.proposals[p] == s.proposals[p]
    ensures |StatusQueued(s')|
         == |StatusQueued(s)| - (if id in s.proposals && s.proposals[id].status == QUEUED then 1 else 0)
            + (if s'.proposals[id].status == QUEUED then 1 else 0)
  {
    var before, after := StatusQueued(s), StatusQueued(s');
    assert forall p :: p != id ==> (p in after <==> p in before);
    assert id in after <==> s'.proposals[id].status == QUEUED;
    assert id in before <==> id in s.proposals && s.proposals[id].status == QUEUED;
    hide StatusQueued;
    OneIdChanges(before, after, id);
  }

  lemma OneIdChanges(before: set<ProposalId>, after: set<ProposalId>, id: ProposalId)
    requires forall p :: p != id ==> (p in after <==> p in before)
    ensures |after| == |before| - (if id in before then 1 else 0) + (if id in after then 1 else 0)
  {
    assert after - {id} == before - {id};
    assert |after - {id}| == |after| - (if id in after then 1 else 0);
    assert |before - {id}| == |before| - (if id in before then 1 else 0);
  }

  /** Cancelling and vetoing leave the counter alone: it stays right if and only if the proposal was not queued. */
  lemma EndingKeepsQueuedStatusIff(s: State, id: ProposalId, status: Status)
    requires QueuedStatusOk(s) && id in s.proposals && status in {CANCELLED, VETOED}
    ensures QueuedStatusOk(AfterStatusSet(s, id, status)) <==> s.proposals[id].status != QUEUED
  {
    OneProposalChanges(s, AfterStatusSet(s, id, status), id);
    hide StatusQueued;
  }

  lemma QueueingKeepsQueuedStatusIff(s: State, id: ProposalId, eta: nat)
    requires QueuedStatusOk(s) && id in s.proposals
    ensures QueuedStatusOk(AfterQueued(s, id, eta)) <==> s.proposals[id].status != QUEUED
  {
    OneProposalChanges(s, AfterQueued(s, id, eta), id);
    hide StatusQueued;
  }

  lemma ExecutingKeepsQueuedStatusIff(s: State, id: ProposalId)
    requires QueuedStatusOk(s) && id in s.proposals
    ensures QueuedStatusOk(AfterExecuted(s, id)) <==> s.proposals[id].status == QUEUED
  {
    OneProposalChanges(s, AfterExecuted(s, id), id);
    hide StatusQueued;
  }

  lemma VoteKeepsQueuedStatus(s: State, voter: Address, id: ProposalId, support: nat, votes: nat, reason: string, block: nat)
    requires QueuedStatusOk(s) && CanVote(s, id)
    ensures QueuedStatusOk(AfterVoteCast(s, voter, id, support, votes, reason, block))
  {
    var s' := AfterVoteCast(s, voter, id, support, votes, reason, block);
    VotedStatus(s, id, support, votes);
    assert s'.proposals == s.proposals[id := VotedProposal(s, id, support, votes)];
    OneProposalChanges(s, s', id);
    hide StatusQueued, VotedProposal;
  }

  lemma VotedStatus(s: State, id: ProposalId, support: nat, votes: nat)
    requires CanVote(s, id)
    ensures var p, q := s.proposals[id], VotedProposal(s, id, support, votes);
      q.status == (if p.status == PENDING then ACTIVE else p.status) && q.executionETA == p.executionETA
  {
    hide SnapshotQuorum;
  }

  lemma CreationKeepsQueuedStatusIff(s: State, id: ProposalId, proposer: Address, block: nat, startBlock: nat,
                                     endBlock: nat, quorumVotes: nat)
    requires QueuedStatusOk(s)
    ensures QueuedStatusOk(AfterProposalCreated(s, id, proposer, block, startBlock, endBlock, quorumVotes))
       <==> (id in s.proposals ==> s.proposals[id].status != QUEUED)
  {
    OneProposalChanges(s, AfterProposalCreated(s, id, proposer, block, startBlock, endBlock, quorumVotes), id);
    hide StatusQueued;
  }

  lemma SameQueuedStatusIsOk(s: State, s': State)
    requires QueuedStatusOk(s) && s'.proposals == s.proposals
    requires GovernanceOf(s').proposalsQueued == GovernanceOf(s).proposalsQueued
    ensures QueuedStatusOk(s')
  {
  }

  // ----- statuses -----

  /**
   * What a proposal's status says about it. One created before its start block is PENDING until somebody votes,
   * whatever the block; a queued one has an execution time, and an open or executed one has none.
   */
  ghost predicate StatusOk(s: State, p: ProposalId)
    requires p in s.proposals
  {
    var q := s.proposals[p];
    && (q.status == PENDING ==> !HasVotes(s, p) && q.createdBlock < q.startBlock)
    && (q.status == ACTIVE ==> HasVotes(s, p) || q.createdBlock >= q.startBlock)
    && (q.status == QUEUED ==> q.executionETA.Some?)
    && (q.status in {PENDING, ACTIVE, EXECUTED} ==> q.executionETA == None)
  }

  ghost predicate StatusesOk(s: State) {
    forall p :: p in s.proposals ==> StatusOk(s, p)
  }

  /** A handler that changes one proposal, and votes of that proposal at most, keeps the other statuses. */
  lemma OneChangeKeepsStatuses(s: State, s': State, id: ProposalId)
    requires StatusesOk(s) && s'.proposals.Keys == s.proposals.Keys + {id} && StatusOk(s', id)
    requires forall p :: p in s.proposals && p != id ==> s'.proposals[p] == s.proposals[p]
    requires forall p :: p != id ==> (HasVotes(s', p) <==> HasVotes(s, p))
    ensures StatusesOk(s')
  {
    hide HasVotes;
    forall p | p in s'.proposals ensures StatusOk(s', p) {
      assert p != id ==> StatusOk(s, p);
    }
  }

  lemma VotesAfterCast(s: State, voter: Address, id: ProposalId, support: nat, votes: nat, reason: string, block: nat,
                       p: ProposalId)
    requires CanVote(s, id) && VoteKeysOk(s)
    ensures HasVotes(AfterVoteCast(s, voter, id, support, votes, reason, block), p) <==> p == id || HasVotes(s, p)
  {
    var s' := AfterVoteCast(s, voter, id, support, votes, reason, block);
    var vid := VoteId(voter, id);
    hide CreateDelegate, VotedProposal;
    assert s'.votes == s.votes[vid := CastVote(s, voter, id, support, votes, reason, block)];
    assert vid in s'.votes && s'.votes[vid].proposal == id;
    if HasVotes(s, p) {
      var v :| v in s.votes && s.votes[v].proposal == p;
      assert v in s'.votes && s'.votes[v].proposal == p;
    }
  }

  lemma VoteKeepsStatuses(s: State, voter: Address, id: ProposalId, support: nat, votes: nat, reason: string, block: nat)
    requires CanVote(s, id) && VoteKeysOk(s) && StatusesOk(s)
    ensures StatusesOk(AfterVoteCast(s, voter, id, support, votes, reason, block))
  {
    var s' := AfterVoteCast(s, voter, id, support, votes, reason, block);
    assert s'.proposals == s.proposals[id := VotedProposal(s, id, support, votes)];
    VotedStatus(s, id, support, votes);
    assert StatusOk(s, id);
    forall p ensures HasVotes(s', p) <==> p == id || HasVotes(s, p) {
      VotesAfterCast(s, voter, id, support, votes, reason, block, p);
    }
    hide HasVotes, VotedProposal, AfterVoteCast, VoteKeysOk, StatusesOk;
    OneChangeKeepsStatuses(s, s', id);
  }

  lemma CreationKeepsStatuses(s: State, id: ProposalId, proposer: Address, block: nat, startBlock: nat, endBlock: nat,
                              quorumVotes: nat)
    requires StatusesOk(s) && VoteKeysOk(s) && id !in s.proposals
    ensures StatusesOk(AfterProposalCreated(s, id, proposer, block, startBlock, endBlock, quorumVotes))
  {
    var s' := AfterProposalCreated(s, id, proposer, block, startBlock, endBlock, quorumVotes);
    assert s'.votes == s.votes;
    assert s'.proposals == s.proposals[id := NewProposal(s, id, proposer, block, startBlock, endBlock, quorumVotes)];
    assert forall p :: HasVotes(s', p) <==> HasVotes(s, p);
    assert !HasVotes(s', id);
    hide AfterProposalCreated;
    OneChangeKeepsStatuses(s, s', id);
  }

  /** Cancelling, vetoing, queueing and executing. */
  lemma NextStatusIsOk(s: State, s': State, id: ProposalId)
    requires StatusesOk(s) && id in s.proposals && id in s'.proposals && s'.votes == s.votes
    requires s'.proposals == s.proposals[id := s.proposals[id].(status := s'.proposals[id].status,
                                                                executionETA := s'.proposals[id].executionETA)]
    requires match s'.proposals[id].status
             case CANCELLED => true
             case VETOED => true
             case QUEUED => s'.proposals[id].executionETA.Some?
             case EXECUTED => s'.proposals[id].executionETA == None
             case _ => false
    ensures StatusesOk(s')
  {
    assert forall p :: HasVotes(s', p) <==> HasVotes(s, p);
    OneChangeKeepsStatuses(s, s', id);
  }

  lemma SameStatusesAreOk(s: State, s': State)
    requires StatusesOk(s) && s'.proposals == s.proposals && s'.votes == s.votes
    ensures StatusesOk(s')
  {
    forall p | p in s'.proposals ensures StatusOk(s', p) {
      assert StatusOk(s, p);
      assert HasVotes(s', p) <==> HasVotes(s, p);
    }
  }

  /** Where the counters and statuses are as kept, the queue counter counts QUEUED unless one with a time was ended. */
  lemma QueuedStatusOkIff(s: State)
    requires CountersOk(s) && StatusesOk(s)
    ensures QueuedStatusOk(s)
       <==> forall p :: p in s.proposals && s.proposals[p].executionETA.Some? ==> s.proposals[p].status == QUEUED
  {
    forall p | p in StatusQueued(s) ensures p in Queued(s) {
      assert StatusOk(s, p);
    }
    if QueuedStatusOk(s) {
      SubsetOfSameSize(StatusQueued(s), Queued(s));
      forall p | p in s.proposals && s.proposals[p].executionETA.Some? ensures s.proposals[p].status == QUEUED {
        assert p in Queued(s) && p in StatusQueued(s);
      }
    }
    if forall p :: p in s.proposals && s.proposals[p].executionETA.Some? ==> s.proposals[p].status == QUEUED {
      assert Queued(s) == StatusQueued(s);
    }
  }

  lemma SubsetOfSameSize(a: set<ProposalId>, b: set<ProposalId>)
    requires a <= b && |a| == |b|
    ensures a == b
  {
    assert b == a + (b - a);
    assert |b - a| == 0;
  }

  // ----- snapshots and quorums -----

  /** What a proposal keeps from its creation on. */
  ghost predicate SameSnapshot(p: Proposal, q: Proposal) {
    && q.createdBlock == p.createdBlock && q.totalSupply == p.totalSupply
    && q.startBlock == p.startBlock && q.endBlock == p.endBlock
    && q.minQuorumVotesBPS == p.minQuorumVotesBPS && q.maxQuorumVotesBPS == p.maxQuorumVotesBPS
    && q.quorumCoefficient == p.quorumCoefficient
  }

  /** No proposal was created, and no start block set, later than `now`. */
  ghost predicate BlocksOk(s: State, now: nat) {
    && (forall p :: p in s.proposals ==> s.proposals[p].createdBlock <= now)
    && (ParamsOf(s).dynamicQuorumStartBlock.Some? ==> ParamsOf(s).dynamicQuorumStartBlock.value <= now)
  }

  /** Setting the first parameter turns exactly the younger proposals dynamic. */
  lemma ParamsChangeKindIff(s: State, block: nat, p: ProposalId)
    requires p in s.proposals
    ensures (UsesDynamicQuorum(ParamsAt(s, block), s.proposals[p]) <==> UsesDynamicQuorum(ParamsOf(s), s.proposals[p]))
       <==> ParamsOf(s).dynamicQuorumStartBlock.Some? || s.proposals[p].createdBlock <= block
  {
  }

  /** Configuring dynamic quorum never changes which existing proposals use it, as long as blocks do not go back. */
  lemma ParamsKeepKind(s: State, now: nat, block: nat, p: ProposalId)
    requires BlocksOk(s, now) && now <= block && p in s.proposals
    ensures UsesDynamicQuorum(ParamsAt(s, block), s.proposals[p]) <==> UsesDynamicQuorum(ParamsOf(s), s.proposals[p])
  {
    ParamsChangeKindIff(s, block, p);
  }

  ghost predicate HasVotes(s: State, p: ProposalId) {
    exists v :: v in s.votes && s.votes[v].proposal == p
  }

  /** A dynamic proposal that was voted on has the quorum of its own snapshot and its votes against. */
  ghost predicate QuorumOk(s: State, p: ProposalId)
    requires p in s.proposals
  {
    var q := s.proposals[p];
    UsesDynamicQuorum(ParamsOf(s), q) && HasVotes(s, p) ==>
      q.totalSupply > 0 && q.quorumVotes == SnapshotQuorum(q, q.againstVotes)
  }

  ghost predicate QuorumsOk(s: State) {
    forall p :: p in s.proposals ==> QuorumOk(s, p)
  }

  lemma VotedSnapshot(s: State, id: ProposalId, support: nat, votes: nat)
    requires CanVote(s, id)
    ensures var p := VotedProposal(s, id, support, votes);
      && SameSnapshot(s.proposals[id], p)
      && p.executionETA == s.proposals[id].executionETA
      && (UsesDynamicQuorum(ParamsOf(s), p) ==> p.quorumVotes == SnapshotQuorum(p, p.againstVotes))
      && (!UsesDynamicQuorum(ParamsOf(s), p) ==> p.quorumVotes == s.proposals[id].quorumVotes)
  {
    hide D.DynamicQuorumVotes;
  }

  lemma VoteKeepsQuorums(s: State, voter: Address, id: ProposalId, support: nat, votes: nat, reason: string, block: nat)
    requires CanVote(s, id) && QuorumsOk(s)
    ensures QuorumsOk(AfterVoteCast(s, voter, id, support, votes, reason, block))
  {
    var s' := AfterVoteCast(s, voter, id, support, votes, reason, block);
    VotedSnapshot(s, id, support, votes);
    assert ParamsOf(s') == ParamsOf(s);
    assert s'.proposals == s.proposals[id := VotedProposal(s, id, support, votes)];
    hide SnapshotQuorum, VotedProposal;
    forall p | p in s'.proposals ensures QuorumOk(s', p) {
      if p != id {
        assert QuorumOk(s, p);
        if HasVotes(s', p) {
          var v :| v in s'.votes && s'.votes[v].proposal == p;
          assert v in s.votes && s.votes[v].proposal == p;
        }
      }
    }
  }

  lemma CreationKeepsQuorums(s: State, id: ProposalId, proposer: Address, block: nat, startBlock: nat, endBlock: nat,
                             quorumVotes: nat)
    requires QuorumsOk(s) && VoteKeysOk(s) && id !in s.proposals
    ensures QuorumsOk(AfterProposalCreated(s, id, proposer, block, startBlock, endBlock, quorumVotes))
  {
    var s' := AfterProposalCreated(s, id, proposer, block, startBlock, endBlock, quorumVotes);
    assert ParamsOf(s') == ParamsOf(s) && s'.votes == s.votes;
    hide SnapshotQuorum;
    forall p | p in s'.proposals ensures QuorumOk(s', p) {
      if p != id {
        assert QuorumOk(s, p);
      }
      assert HasVotes(s', p) <==> HasVotes(s, p);
    }
  }

  /** Handlers that keep votes, tallies and snapshots, and the kind of each proposal, keep the quorums. */
  lemma SameQuorumsAreOk(s: State, s': State)
    requires QuorumsOk(s) && s'.votes == s.votes && s'.proposals.Keys == s.proposals.Keys
    requires forall p :: p in s.proposals ==>
      && SameSnapshot(s.proposals[p], s'.proposals[p])
      && s'.proposals[p].againstVotes == s.proposals[p].againstVotes
      && s'.proposals[p].quorumVotes == s.proposals[p].quorumVotes
      && (UsesDynamicQuorum(ParamsOf(s'), s'.proposals[p]) <==> UsesDynamicQuorum(ParamsOf(s), s.proposals[p]))
    ensures QuorumsOk(s')
  {
    hide D.DynamicQuorumVotes;
    forall p | p in s'.proposals ensures QuorumOk(s', p) {
      assert QuorumOk(s, p);
      assert HasVotes(s', p) <==> HasVotes(s, p);
    }
  }
}
