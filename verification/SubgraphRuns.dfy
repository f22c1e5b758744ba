/** Whole runs of the subgraph: any sequence of fitting events keeps every redundant view in agreement. */
module SubgraphRuns {
  import opened Options
  import opened Entities
  import opened LedgerSpec
  import opened Ledger
  import opened DelegatedVotes
  import opened ProposalSpec
  import opened Proposals

  // ----- one event -----

  /** Events about proposals come after their creation, and quorums are computed with a positive supply. */
  predicate CanApply(s: State, e: Event) {
    match e
    case ProposalCanceled(id) => id in s.proposals
    case ProposalVetoed(id) => id in s.proposals
    case ProposalQueued(id, _) => id in s.proposals
    case ProposalExecuted(id) => id in s.proposals
    case VoteCast(_, id, _, _, _, _) => CanVote(s, id)
    case _ => true
  }

  function Apply(s: State, e: Event): State
    requires CanApply(s, e)
  {
    match e
    case Transfer(from, to, tokenId) => AfterTransfer(s, from, to, tokenId)
    case DelegateChanged(delegator, from, to) => AfterDelegateChanged(s, delegator, from, to)
    case DelegateVotesChanged(d, previous, next) => AfterVotesChanged(s, d, previous, next)
    case NounCreated(noun) => AfterNounCreated(s, noun)
    case ProposalCreated(id, proposer, block, start, end, quorum) =>
      AfterProposalCreated(s, id, proposer, block, start, end, quorum)
    case ProposalCanceled(id) => AfterStatusSet(s, id, CANCELLED)
    case ProposalVetoed(id) => AfterStatusSet(s, id, VETOED)
    case ProposalQueued(id, eta) => AfterQueued(s, id, eta)
    case ProposalExecuted(id) => AfterExecuted(s, id)
    case VoteCast(voter, id, support, votes, reason, block) => AfterVoteCast(s, voter, id, support, votes, reason, block)
    case MinQuorumVotesBPSSet(block, v) => AfterMinSet(s, block, v)
    case MaxQuorumVotesBPSSet(block, v) => AfterMaxSet(s, block, v)
    case QuorumCoefficientSet(block, v) => AfterCoefficientSet(s, block, v)
  }

  /** The block after the event, for the events whose block matters. */
  function BlockAfter(now: nat, e: Event): nat {
    match e
    case ProposalCreated(_, _, block, _, _, _) => block
    case MinQuorumVotesBPSSet(block, _) => block
    case MaxQuorumVotesBPSSet(block, _) => block
    case QuorumCoefficientSet(block, _) => block
    case _ => now
  }

  /** What the contracts promise about the next event. */
  predicate Fits(s: State, now: nat, e: Event) {
    && now <= BlockAfter(now, e)
    && CanApply(s, e)
    && match e
       case Transfer(from, to, tokenId) => TransferFits(s, from, to, tokenId)
       case DelegateChanged(delegator, from, to) => DelegationFits(s, delegator, from, to)
       case DelegateVotesChanged(d, previous, next) => VotesChangeFits(s, d, previous, next)
       case ProposalCreated(id, _, _, _, _, _) => id !in s.proposals
       case ProposalQueued(id, _) => s.proposals[id].executionETA == None
       case ProposalExecuted(id) => s.proposals[id].executionETA.Some?
       case VoteCast(voter, id, _, _, _, _) => FirstVote(s, voter, id)
       case _ => true
  }

  ghost predicate DaoOk(s: State, now: nat) {
    TalliesOk(s) && CountersOk(s) && QuorumsOk(s) && StatusesOk(s) && BlocksOk(s, now)
  }

  ghost predicate AllOk(s: State, now: nat) {
    LedgerOk(s) && VotesOk(s) && DaoOk(s, now)
  }

  // ----- token events -----

  lemma DaoUntouched(s: State, s': State, now: nat)
    requires DaoOk(s, now) && ProposalsUnchanged(s, s')
    requires GovernanceOf(s').proposals == GovernanceOf(s).proposals
    requires GovernanceOf(s').proposalsQueued == GovernanceOf(s).proposalsQueued
    ensures DaoOk(s', now)
  {
    SameTalliesAreOk(s, s');
    SameCountersAreOk(s, s');
    assert ParamsOf(s') == ParamsOf(s);
    SameQuorumsAreOk(s, s');
    SameStatusesAreOk(s, s');
    hide TalliesOk, CountersOk, QuorumsOk, StatusesOk;
  }

  lemma TransferStep(s: State, now: nat, from: Address, to: Address, id: TokenId, s': State)
    requires AllOk(s, now) && TransferFits(s, from, to, id) && s' == AfterTransfer(s, from, to, id)
    ensures AllOk(s', now)
  {
    hide AfterTransfer, LedgerOk, DaoOk, VotesOk, TransferFits;
    TransferKeepsLedgerIffFits(s, from, to, id);
    TransferRest(s, from, to, id);
    CoreOfAfter(s, from, to, s');
    forall d ensures DelegateOf(s', d).delegatedVotesRaw == DelegateOf(s, d).delegatedVotesRaw {
      TransferDelegate(s, from, to, id, d);
    }
    hide DelegateOf, GovernanceAfter, Core;
    SameVotesIsOk(s, s');
    DaoUntouched(s, s', now);
  }

  lemma CoreOfAfter(s: State, from: Address, to: Address, s': State)
    requires Core(GovernanceOf(s')) == GovernanceAfter(s, from, to)
    ensures var g, g' := GovernanceOf(s), GovernanceOf(s');
      && g'.proposals == g.proposals && g'.proposalsQueued == g.proposalsQueued
      && g'.delegatedVotesRaw == g.delegatedVotesRaw && g'.currentDelegates == g.currentDelegates
  {
    hide GovernanceOf, AccountOf;
  }

  lemma DelegationStep(s: State, now: nat, delegator: Address, from: Address, to: Address, s': State)
    requires AllOk(s, now) && DelegationFits(s, delegator, from, to) && s' == AfterDelegateChanged(s, delegator, from, to)
    ensures AllOk(s', now)
  {
    hide AfterDelegateChanged, LedgerOk, DaoOk, VotesOk, DelegationFits;
    DelegationKeepsLedgerIffFits(s, delegator, from, to);
    DelegationRest(s, delegator, from, to, delegator);
    SameCore(GovernanceOf(s), GovernanceOf(s'));
    forall d ensures DelegateOf(s', d).delegatedVotesRaw == DelegateOf(s, d).delegatedVotesRaw {
      DelegationDelegate(s, delegator, from, to, d);
    }
    hide DelegateOf, Core;
    SameVotesIsOk(s, s');
    DaoUntouched(s, s', now);
  }

  lemma SameCore(g: Governance, g': Governance)
    requires Core(g') == Core(g)
    ensures g'.proposals == g.proposals && g'.proposalsQueued == g.proposalsQueued
    ensures g'.delegatedVotesRaw == g.delegatedVotesRaw && g'.currentDelegates == g.currentDelegates
    ensures g'.totalTokenHolders == g.totalTokenHolders && g'.currentTokenHolders == g.currentTokenHolders
  {
  }

  lemma VotesChangedStep(s: State, now: nat, d: Address, previous: nat, next: nat, s': State)
    requires AllOk(s, now) && VotesChangeFits(s, d, previous, next) && s' == AfterVotesChanged(s, d, previous, next)
    ensures AllOk(s', now)
  {
    VotesChangeKeepsTotalsIffFits(s, d, previous, next);
    hide LedgerOk, DaoOk, VotesOk;
    assert SameLedger(s, s');
    SameLedgerIsOk(s, s');
    DaoUntouched(s, s', now);
  }

  lemma NounCreatedStep(s: State, now: nat, noun: TokenId, s': State)
    requires AllOk(s, now) && s' == AfterNounCreated(s, noun)
    ensures AllOk(s', now)
  {
    hide LedgerOk, DaoOk, VotesOk;
    assert SameLedger(s, s');
    SameLedgerIsOk(s, s');
    SameVotesIsOk(s, s');
    DaoUntouched(s, s', now);
  }

  // ----- proposal events -----

  /** Proposal events at most create a delegate, and touch no token counter. */
  ghost predicate TokensUntouched(s: State, s': State) {
    && s'.accounts == s.accounts && s'.nouns == s.nouns
    && (forall d :: DelegateOf(s', d) == DelegateOf(s, d))
    && Core(GovernanceOf(s')).(proposals := 0, proposalsQueued := 0)
       == Core(GovernanceOf(s)).(proposals := 0, proposalsQueued := 0)
  }

  lemma NoDelegateTouched(s: State, s': State)
    requires s'.accounts == s.accounts && s'.nouns == s.nouns && s'.delegates == s.delegates
    requires Core(GovernanceOf(s')).(proposals := 0, proposalsQueued := 0)
          == Core(GovernanceOf(s)).(proposals := 0, proposalsQueued := 0)
    ensures TokensUntouched(s, s')
  {
    hide Core, GovernanceOf;
  }

  lemma TokensUntouchedIsOk(s: State, s': State)
    requires TokensUntouched(s, s') && LedgerOk(s) && VotesOk(s)
    ensures LedgerOk(s') && VotesOk(s')
  {
    hide LedgerOk, VotesOk, DelegateOf, GovernanceOf;
    SameLedgerIsOk(s, s');
    SameVotesIsOk(s, s');
  }

  lemma CreationTouchesNoTokens(s: State, e: Event, s': State)
    requires e.ProposalCreated? && s' == Apply(s, e)
    ensures TokensUntouched(s, s')
    ensures s'.dqParams == Some(ParamsOf(s))
    ensures s'.proposals == s.proposals[e.id := NewProposal(s, e.id, e.proposer, e.block, e.startBlock, e.endBlock, e.quorumVotes)]
  {
  }

  lemma CreatedStep(s: State, now: nat, e: Event, s': State)
    requires e.ProposalCreated? && AllOk(s, now) && Fits(s, now, e) && s' == Apply(s, e)
    ensures AllOk(s', e.block)
  {
    CreationTouchesNoTokens(s, e, s');
    hide LedgerOk, VotesOk, TokensUntouched;
    TokensUntouchedIsOk(s, s');
    CreationKeepsTalliesIffFresh(s, e.id, e.proposer, e.block, e.startBlock, e.endBlock, e.quorumVotes);
    CreationKeepsCounters(s, e.id, e.proposer, e.block, e.startBlock, e.endBlock, e.quorumVotes);
    assert VoteKeysOk(s);
    CreationKeepsQuorums(s, e.id, e.proposer, e.block, e.startBlock, e.endBlock, e.quorumVotes);
    CreationKeepsStatuses(s, e.id, e.proposer, e.block, e.startBlock, e.endBlock, e.quorumVotes);
    hide TalliesOk, CountersOk, QuorumsOk, StatusesOk, AfterProposalCreated;
  }

  lemma StatusStep(s: State, now: nat, id: ProposalId, status: Status, s': State)
    requires AllOk(s, now) && id in s.proposals && s' == AfterStatusSet(s, id, status) && status in {CANCELLED, VETOED}
    ensures AllOk(s', now)
  {
    NoDelegateTouched(s, s');
    hide TokensUntouched, LedgerOk, VotesOk, TalliesOk, CountersOk, QuorumsOk, StatusesOk;
    NextStatusIsOk(s, s', id);
    TokensUntouchedIsOk(s, s');
    SameTalliesAreOk(s, s');
    SameCountersAreOk(s, s');
    SameQuorumsAreOk(s, s');
  }

  lemma QueuedStep(s: State, now: nat, id: ProposalId, eta: nat, s': State)
    requires AllOk(s, now) && id in s.proposals && s.proposals[id].executionETA == None && s' == AfterQueued(s, id, eta)
    ensures AllOk(s', now)
  {
    NoDelegateTouched(s, s');
    QueueingKeepsCountersIff(s, id, eta);
    hide TokensUntouched, LedgerOk, VotesOk, TalliesOk, CountersOk, QuorumsOk, StatusesOk;
    NextStatusIsOk(s, s', id);
    TokensUntouchedIsOk(s, s');
    SameTalliesAreOk(s, s');
    SameQuorumsAreOk(s, s');
  }

  lemma ExecutedStep(s: State, now: nat, id: ProposalId, s': State)
    requires AllOk(s, now) && id in s.proposals && s.proposals[id].executionETA.Some? && s' == AfterExecuted(s, id)
    ensures AllOk(s', now)
  {
    NoDelegateTouched(s, s');
    ExecutingKeepsCountersIff(s, id);
    hide TokensUntouched, LedgerOk, VotesOk, TalliesOk, CountersOk, QuorumsOk, StatusesOk;
    NextStatusIsOk(s, s', id);
    TokensUntouchedIsOk(s, s');
    SameTalliesAreOk(s, s');
    SameQuorumsAreOk(s, s');
  }

  lemma VoteTouchesNoTokens(s: State, voter: Address, id: ProposalId, support: nat, votes: nat, reason: string, block: nat,
                            s': State)
    requires CanVote(s, id) && s' == AfterVoteCast(s, voter, id, support, votes, reason, block)
    ensures TokensUntouched(s, s')
    ensures s'.dqParams == Some(ParamsOf(s)) && GovernanceOf(s').proposals == GovernanceOf(s).proposals
    ensures GovernanceOf(s').proposalsQueued == GovernanceOf(s).proposalsQueued
    ensures s'.proposals == s.proposals[id := VotedProposal(s, id, support, votes)]
  {
    CreateDelegateKeeps(s, voter);
    SameCore(GovernanceOf(s), GovernanceOf(CreateDelegate(s, voter)));
    hide VotedProposal, CreateDelegate, CastVote;
  }

  lemma VoteKeepsDao(s: State, now: nat, voter: Address, id: ProposalId, support: nat, votes: nat, reason: string,
                     block: nat, s': State)
    requires CanVote(s, id) && FirstVote(s, voter, id) && DaoOk(s, now)
    requires s' == AfterVoteCast(s, voter, id, support, votes, reason, block)
    ensures DaoOk(s', now)
  {
    assert VoteKeysOk(s);
    hide TokensUntouched, TalliesOk, CountersOk, QuorumsOk, StatusesOk, FirstVote, VoteKeysOk;
    hide VotedProposal, AfterVoteCast, GovernanceOf, UsesDynamicQuorum, SnapshotQuorum, ParamsOf;
    VoteTouchesNoTokens(s, voter, id, support, votes, reason, block, s');
    VoteKeepsTalliesIffFirst(s, voter, id, support, votes, reason, block);
    VoteKeepsQuorums(s, voter, id, support, votes, reason, block);
    VoteKeepsStatuses(s, voter, id, support, votes, reason, block);
    VotedSnapshot(s, id, support, votes);
    SameCountersAreOk(s, s');
    VoteKeepsBlocks(s, now, id, support, votes, s');
  }

  lemma VoteKeepsBlocks(s: State, now: nat, id: ProposalId, support: nat, votes: nat, s': State)
    requires CanVote(s, id) && BlocksOk(s, now) && s'.dqParams == Some(ParamsOf(s))
    requires s'.proposals == s.proposals[id := VotedProposal(s, id, support, votes)]
    ensures BlocksOk(s', now)
  {
    VotedSnapshot(s, id, support, votes);
    hide VotedProposal, UsesDynamicQuorum, SnapshotQuorum;
  }

  lemma VoteCastStep(s: State, now: nat, voter: Address, id: ProposalId, support: nat, votes: nat, reason: string,
                     block: nat, s': State)
    requires CanVote(s, id) && FirstVote(s, voter, id) && AllOk(s, now)
    requires s' == AfterVoteCast(s, voter, id, support, votes, reason, block)
    ensures AllOk(s', now)
  {
    hide AfterVoteCast, TokensUntouched, DaoOk, LedgerOk, VotesOk, FirstVote, CanVote, VotedProposal, GovernanceOf;
    VoteTouchesNoTokens(s, voter, id, support, votes, reason, block, s');
    TokensUntouchedIsOk(s, s');
    VoteKeepsDao(s, now, voter, id, support, votes, reason, block, s');
  }

  lemma ParamsStep(s: State, now: nat, block: nat, s': State)
    requires AllOk(s, now) && now <= block
    requires s'.dqParams.Some?
    requires s' == s.(dqParams := s'.dqParams)
    requires s'.dqParams.value.dynamicQuorumStartBlock == ParamsAt(s, block).dynamicQuorumStartBlock
    ensures AllOk(s', block)
  {
    NoDelegateTouched(s, s');
    hide TokensUntouched, LedgerOk, VotesOk, TalliesOk, CountersOk, QuorumsOk, StatusesOk;
    TokensUntouchedIsOk(s, s');
    SameTalliesAreOk(s, s');
    SameCountersAreOk(s, s');
    SameStatusesAreOk(s, s');
    forall p | p in s.proposals
      ensures UsesDynamicQuorum(ParamsOf(s'), s'.proposals[p]) <==> UsesDynamicQuorum(ParamsOf(s), s.proposals[p])
    {
      ParamsKeepKind(s, now, block, p);
    }
    SameQuorumsAreOk(s, s');
  }

  // ----- runs -----

  /** A fitting event keeps the token ledger, the delegated votes and the proposal ledger all in agreement. */
  lemma EventKeepsAll(s: State, now: nat, e: Event)
    requires AllOk(s, now) && Fits(s, now, e)
    ensures AllOk(Apply(s, e), BlockAfter(now, e))
  {
    hide AllOk, TransferFits, DelegationFits, VotesChangeFits, FirstVote;
    var s' := Apply(s, e);
    match e
    case Transfer(from, to, tokenId) => TransferStep(s, now, from, to, tokenId, s');
    case DelegateChanged(delegator, from, to) => DelegationStep(s, now, delegator, from, to, s');
    case DelegateVotesChanged(d, previous, next) => VotesChangedStep(s, now, d, previous, next, s');
    case NounCreated(noun) => NounCreatedStep(s, now, noun, s');
    case ProposalCreated(_, _, _, _, _, _) => CreatedStep(s, now, e, s');
    case ProposalCanceled(id) => StatusStep(s, now, id, CANCELLED, s');
    case ProposalVetoed(id) => StatusStep(s, now, id, VETOED, s');
    case ProposalQueued(id, eta) => QueuedStep(s, now, id, eta, s');
    case ProposalExecuted(id) => ExecutedStep(s, now, id, s');
    case VoteCast(voter, id, support, votes, reason, block) =>
      VoteCastStep(s, now, voter, id, support, votes, reason, block, s');
    case MinQuorumVotesBPSSet(block, v) => ParamsStep(s, now, block, s');
    case MaxQuorumVotesBPSSet(block, v) => ParamsStep(s, now, block, s');
    case QuorumCoefficientSet(block, v) => ParamsStep(s, now, block, s');
  }

  /** Every event fits the state in which it arrives. */
  predicate RunFits(s: State, now: nat, events: seq<Event>)
    decreases events
  {
    events == [] || (Fits(s, now, events[0]) && RunFits(Apply(s, events[0]), BlockAfter(now, events[0]), events[1..]))
  }

  function Run(s: State, now: nat, events: seq<Event>): (State, nat)
    requires RunFits(s, now, events)
    decreases events
  {
    if events == [] then (s, now)
    else Run(Apply(s, events[0]), BlockAfter(now, events[0]), events[1..])
  }

  /** Every state reached by fitting events, from one in agreement, is in agreement. */
  lemma {:induction false} RunKeepsAll(s: State, now: nat, events: seq<Event>)
    requires AllOk(s, now) && RunFits(s, now, events)
    ensures AllOk(Run(s, now, events).0, Run(s, now, events).1)
    decreases events
  {
    hide AllOk, Apply, BlockAfter, CanApply;
    hide TransferFits, DelegationFits, VotesChangeFits, FirstVote;
    if events != [] {
      EventKeepsAll(s, now, events[0]);
      RunKeepsAll(Apply(s, events[0]), BlockAfter(now, events[0]), events[1..]);
    }
  }

  lemma EmptyStoreOk()
    ensures AllOk(EMPTY_STORE, 0)
  {
    EmptyLedgerOk();
    assert VotesOf(EMPTY_STORE) == map[];
    assert Queued(EMPTY_STORE) == {};
  }

  // ----- the queue counter -----

  /** The event keeps the queue counter equal to the number of proposals with status QUEUED. */
  predicate KeepsQueueCount(s: State, e: Event)
    requires CanApply(s, e)
  {
    match e
    case ProposalCreated(id, _, _, _, _, _) => id in s.proposals ==> s.proposals[id].status != QUEUED
    case ProposalCanceled(id) => s.proposals[id].status != QUEUED
    case ProposalVetoed(id) => s.proposals[id].status != QUEUED
    case ProposalQueued(id, _) => s.proposals[id].status != QUEUED
    case ProposalExecuted(id) => s.proposals[id].status == QUEUED
    case _ => true
  }

  lemma OtherEventsKeepQueue(s: State, e: Event)
    requires CanApply(s, e)
    requires e.Transfer? || e.DelegateChanged? || e.DelegateVotesChanged? || e.NounCreated?
      || e.MinQuorumVotesBPSSet? || e.MaxQuorumVotesBPSSet? || e.QuorumCoefficientSet?
    ensures var s' := Apply(s, e);
      && s'.proposals == s.proposals && GovernanceOf(s').proposalsQueued == GovernanceOf(s).proposalsQueued
  {
    if e.Transfer? {
      TransferRest(s, e.from, e.to, e.tokenId);
      CoreOfAfter(s, e.from, e.to, Apply(s, e));
      hide AfterTransfer;
    } else if e.DelegateChanged? {
      DelegationRest(s, e.delegator, e.fromDelegate, e.toDelegate, e.delegator);
      hide AfterDelegateChanged;
    }
  }

  /** For every event: whether the queue counter stays the number of proposals with status QUEUED. */
  lemma EventKeepsQueuedStatusIff(s: State, e: Event)
    requires QueuedStatusOk(s) && CanApply(s, e)
    ensures QueuedStatusOk(Apply(s, e)) <==> KeepsQueueCount(s, e)
  {
    match e
    case ProposalCreated(id, proposer, block, start, end, quorum) =>
      CreationKeepsQueuedStatusIff(s, id, proposer, block, start, end, quorum);
    case ProposalCanceled(id) => EndingKeepsQueuedStatusIff(s, id, CANCELLED);
    case ProposalVetoed(id) => EndingKeepsQueuedStatusIff(s, id, VETOED);
    case ProposalQueued(id, eta) => QueueingKeepsQueuedStatusIff(s, id, eta);
    case ProposalExecuted(id) => ExecutingKeepsQueuedStatusIff(s, id);
    case VoteCast(voter, id, support, votes, reason, block) =>
      VoteKeepsQueuedStatus(s, voter, id, support, votes, reason, block);
    case _ =>
      OtherEventsKeepQueue(s, e);
      SameQueuedStatusIsOk(s, Apply(s, e));
  }

  /**
   * After any run of fitting events the queue counter is the number of proposals with status QUEUED if and only if
   * every proposal that still has an execution time is QUEUED, that is, none of them was cancelled or vetoed since.
   */
  lemma RunCountsQueuedIff(events: seq<Event>)
    requires RunFits(EMPTY_STORE, 0, events)
    ensures var s := Run(EMPTY_STORE, 0, events).0;
      QueuedStatusOk(s)
      <==> forall p :: p in s.proposals && s.proposals[p].executionETA.Some? ==> s.proposals[p].status == QUEUED
  {
    EmptyStoreOk();
    RunKeepsAll(EMPTY_STORE, 0, events);
    QueuedStatusOkIff(Run(EMPTY_STORE, 0, events).0);
    hide Run, RunFits;
  }

  // ----- what proposals keep over whole runs -----

  /** The event keeps the proposal's snapshot, and whether it uses dynamic quorum. */
  ghost predicate KeepsProposal(s: State, s': State, p: ProposalId) {
    && p in s.proposals && p in s'.proposals
    && SameSnapshot(s.proposals[p], s'.proposals[p])
    && (UsesDynamicQuorum(ParamsOf(s'), s'.proposals[p]) <==> UsesDynamicQuorum(ParamsOf(s), s.proposals[p]))
  }

  lemma TokenEventKeepsProposal(s: State, s': State, p: ProposalId)
    requires p in s.proposals && ProposalsUnchanged(s, s')
    ensures KeepsProposal(s, s', p)
  {
  }

  lemma EventKeepsProposal(s: State, now: nat, e: Event, p: ProposalId)
    requires BlocksOk(s, now) && Fits(s, now, e) && p in s.proposals
    ensures KeepsProposal(s, Apply(s, e), p)
  {
    hide TransferFits, DelegationFits, VotesChangeFits, FirstVote;
    var s' := Apply(s, e);
    if e.Transfer? {
      TransferRest(s, e.from, e.to, e.tokenId);
      hide AfterTransfer;
      TokenEventKeepsProposal(s, s', p);
    } else if e.VoteCast? {
      VotedSnapshot(s, e.id, e.support, e.votes);
      hide VotedProposal;
    }
  }

  /**
   * Over a whole run, what a proposal was created with stays: its snapshot, and whether it uses dynamic quorum,
   * whatever the parameters become.
   */
  lemma {:induction false} RunKeepsProposal(s: State, now: nat, events: seq<Event>, p: ProposalId)
    requires AllOk(s, now) && RunFits(s, now, events) && p in s.proposals
    ensures KeepsProposal(s, Run(s, now, events).0, p)
    decreases events
  {
    hide LedgerOk, VotesOk, TalliesOk, CountersOk, QuorumsOk, StatusesOk, BlocksOk, CanApply, Apply, BlockAfter;
    hide TransferFits, DelegationFits, VotesChangeFits, FirstVote;
    if events != [] {
      var s1 := Apply(s, events[0]);
      EventKeepsAll(s, now, events[0]);
      EventKeepsProposal(s, now, events[0], p);
      RunKeepsProposal(s1, BlockAfter(now, events[0]), events[1..], p);
    }
  }

  /** A new proposal's supply snapshot is the number of tokens minted and not burned. */
  lemma SnapshotIsSupply(s: State, now: nat, e: Event)
    requires AllOk(s, now) && e.ProposalCreated?
    ensures Apply(s, e).proposals[e.id].totalSupply == |s.nouns| - AccountOf(s, ZERO_ADDRESS).tokenBalanceRaw
  {
  }
}
