/** What is stored and shown of a proposal after a run of the subgraph, in terms of the events alone. */
module ProposalHistory {
  import opened Options
  import opened Sums
  import opened Entities
  import opened LedgerSpec
  import opened ProposalSpec
  import opened Proposals
  import opened SubgraphRuns
  import opened SubgraphHistory
  import D = DynamicQuorum
  import W = ProposalStates

  // ----- the events of one proposal -----

  /** The place of the proposal's last creation; a second one replaces all but the execution time. */
  function CreatedAt(events: seq<Event>, p: ProposalId): Option<nat> {
    if events == [] then None
    else
      var e := Last(events);
      if e.ProposalCreated? && e.id == p then Some(|events| - 1) else CreatedAt(Front(events), p)
  }

  /** The votes with one kind of support since the creation, together. */
  function VotesSince(events: seq<Event>, p: ProposalId, k: nat): nat {
    if events == [] then 0
    else
      var e := Last(events);
      if e.ProposalCreated? && e.id == p then 0
      else VotesSince(Front(events), p, k) + if e.VoteCast? && e.id == p && e.support == k then e.votes else 0
  }

  /** Somebody has voted since the creation. */
  function VotedSince(events: seq<Event>, p: ProposalId): bool {
    events != []
    && var e := Last(events);
       !(e.ProposalCreated? && e.id == p) && ((e.VoteCast? && e.id == p) || VotedSince(Front(events), p))
  }

  /** How the proposal was last cancelled, vetoed, queued or executed since its creation, if it was. */
  function EndedAs(events: seq<Event>, p: ProposalId): Option<Status> {
    if events == [] then None
    else
      var before := EndedAs(Front(events), p);
      match Last(events)
      case ProposalCreated(id, _, _, _, _, _) => if id == p then None else before
      case ProposalCanceled(id) => if id == p then Some(CANCELLED) else before
      case ProposalVetoed(id) => if id == p then Some(VETOED) else before
      case ProposalQueued(id, _) => if id == p then Some(QUEUED) else before
      case ProposalExecuted(id) => if id == p then Some(EXECUTED) else before
      case _ => before
  }

  /** The time for which the proposal was last queued, unless it was executed afterwards. */
  function QueuedFor(events: seq<Event>, p: ProposalId): Option<nat> {
    if events == [] then None
    else
      var e := Last(events);
      if e.ProposalQueued? && e.id == p then Some(e.eta)
      else if e.ProposalExecuted? && e.id == p then None
      else QueuedFor(Front(events), p)
  }

  lemma {:induction false} CreationPlace(events: seq<Event>, p: ProposalId)
    ensures CreatedAt(events, p).Some? ==>
              var i := CreatedAt(events, p).value; i < |events| && events[i].ProposalCreated? && events[i].id == p
    decreases |events|
  {
    if events != [] {
      CreationPlace(Front(events), p);
    }
  }

  // ----- what is stored -----

  /** The parts of a proposal that its events determine in any run: `e` created it when `before` had happened. */
  ghost predicate Recorded(q: Proposal, events: seq<Event>, p: ProposalId, before: seq<Event>, e: Event)
    requires e.ProposalCreated?
  {
    && q.proposer == e.proposer && q.createdBlock == e.block && q.startBlock == e.startBlock && q.endBlock == e.endBlock
    && q.totalSupply == Supply(before)
    && q.minQuorumVotesBPS == LastMin(before) && q.maxQuorumVotesBPS == LastMax(before)
    && q.quorumCoefficient == LastCoefficient(before)
    && q.againstVotes == VotesSince(events, p, 0) && q.forVotes == VotesSince(events, p, 1)
    && q.abstainVotes == VotesSince(events, p, 2)
    && q.executionETA == QueuedFor(events, p)
    && q.status == (if EndedAs(events, p).Some? then EndedAs(events, p).value
                    else if VotedSince(events, p) || e.block >= e.startBlock then ACTIVE else PENDING)
  }

  predicate About(e: Event, p: ProposalId) {
    match e
    case ProposalCreated(id, _, _, _, _, _) => id == p
    case ProposalCanceled(id) => id == p
    case ProposalVetoed(id) => id == p
    case ProposalQueued(id, _) => id == p
    case ProposalExecuted(id) => id == p
    case VoteCast(_, id, _, _, _, _) => id == p
    case _ => false
  }

  lemma OtherEventsKeepProposal(s: State, e: Event, p: ProposalId)
    requires CanApply(s, e) && !About(e, p)
    ensures p in Apply(s, e).proposals <==> p in s.proposals
    ensures p in s.proposals ==> Apply(s, e).proposals[p] == s.proposals[p]
  {
    if e.Transfer? {
      TransferRest(s, e.from, e.to, e.tokenId);
      hide AfterTransfer;
    } else if e.DelegateChanged? {
      DelegationRest(s, e.delegator, e.fromDelegate, e.toDelegate, e.delegator);
      hide AfterDelegateChanged;
    } else if e.VoteCast? {
      hide VotedProposal, CastVote, CreateDelegate;
    } else if e.ProposalCreated? {
      hide NewProposal, CreateDelegate;
    }
  }

  lemma OtherEventsAddNothing(events: seq<Event>, p: ProposalId)
    requires events != [] && !About(Last(events), p)
    ensures CreatedAt(events, p) == CreatedAt(Front(events), p) && EndedAs(events, p) == EndedAs(Front(events), p)
    ensures forall k :: VotesSince(events, p, k) == VotesSince(Front(events), p, k)
    ensures VotedSince(events, p) == VotedSince(Front(events), p)
    ensures QueuedFor(events, p) == QueuedFor(Front(events), p)
  {
  }

  lemma CreationIsRecorded(events: seq<Event>, p: ProposalId)
    requires Applies(events) && events != [] && Last(events).ProposalCreated? && Last(events).id == p
    requires var s := After(Front(events));
      && (p in s.proposals ==> s.proposals[p].executionETA == QueuedFor(Front(events), p))
      && (p !in s.proposals ==> QueuedFor(Front(events), p) == None)
    ensures p in After(events).proposals
    ensures Recorded(After(events).proposals[p], events, p, Front(events), Last(events))
    ensures After(events).proposals[p].quorumVotes == Last(events).quorumVotes
  {
    var s, e := After(Front(events)), Last(events);
    ParamsByEvents(Front(events));
    TotalsByEvents(Front(events));
    assert Apply(s, e).proposals
      == s.proposals[p := NewProposal(s, p, e.proposer, e.block, e.startBlock, e.endBlock, e.quorumVotes)];
    hide Apply, ParamsOf, GovernanceOf, CanApply, LastMin, LastMax, LastCoefficient, Supply;
  }

  lemma {:induction false} EndedIsClosed(events: seq<Event>, p: ProposalId)
    ensures EndedAs(events, p).Some? ==> EndedAs(events, p).value in {CANCELLED, VETOED, QUEUED, EXECUTED}
    decreases |events|
  {
    if events != [] {
      EndedIsClosed(Front(events), p);
    }
  }

  predicate Ends(e: Event) {
    e.ProposalCanceled? || e.ProposalVetoed? || e.ProposalQueued? || e.ProposalExecuted?
  }

  function EndStatus(e: Event): Status
    requires Ends(e)
  {
    match e
    case ProposalCanceled(_) => CANCELLED
    case ProposalVetoed(_) => VETOED
    case ProposalQueued(_, _) => QUEUED
    case ProposalExecuted(_) => EXECUTED
  }

  function EndTime(e: Event, before: Option<nat>): Option<nat> {
    match e
    case ProposalQueued(_, eta) => Some(eta)
    case ProposalExecuted(_) => None
    case _ => before
  }

  lemma EndingChanges(s: State, e: Event, p: ProposalId)
    requires CanApply(s, e) && Ends(e) && About(e, p)
    ensures p in s.proposals && p in Apply(s, e).proposals
    ensures var q := s.proposals[p];
      Apply(s, e).proposals[p] == q.(status := EndStatus(e), executionETA := EndTime(e, q.executionETA))
  {
  }

  lemma EndingIsRecorded(events: seq<Event>, p: ProposalId, before: seq<Event>, c: Event, q: Proposal)
    requires events != [] && About(Last(events), p) && Ends(Last(events)) && c.ProposalCreated?
    requires Recorded(q, Front(events), p, before, c)
    ensures var e := Last(events);
      Recorded(q.(status := EndStatus(e), executionETA := EndTime(e, q.executionETA)), events, p, before, c)
  {
    hide LastMin, LastMax, LastCoefficient, Supply;
  }

  /** What a vote does to the recorded parts. */
  ghost predicate VoteCounted(q: Proposal, q': Proposal, support: nat, votes: nat) {
    && SameSnapshot(q, q') && q'.proposer == q.proposer && q'.executionETA == q.executionETA
    && q'.againstVotes == q.againstVotes + (if support == 0 then votes else 0)
    && q'.forVotes == q.forVotes + (if support == 1 then votes else 0)
    && q'.abstainVotes == q.abstainVotes + (if support == 2 then votes else 0)
    && q'.status == (if q.status == PENDING then ACTIVE else q.status)
  }

  lemma VoteChanges(s: State, e: Event, p: ProposalId)
    requires CanApply(s, e) && e.VoteCast? && e.id == p
    ensures p in s.proposals && p in Apply(s, e).proposals
    ensures VoteCounted(s.proposals[p], Apply(s, e).proposals[p], e.support, e.votes)
    ensures Apply(s, e).proposals[p] == VotedProposal(s, p, e.support, e.votes)
  {
    assert CanVote(s, p);
    VotedTally(s, p, e.support, e.votes, 0);
    VotedTally(s, p, e.support, e.votes, 1);
    VotedTally(s, p, e.support, e.votes, 2);
    VotedSnapshot(s, p, e.support, e.votes);
    VotedStatus(s, p, e.support, e.votes);
    VotedProposer(s, p, e.support, e.votes);
    hide VotedProposal, CreateDelegate, CastVote, UsesDynamicQuorum, SnapshotQuorum;
  }

  lemma VoteIsRecorded(events: seq<Event>, p: ProposalId, before: seq<Event>, c: Event, q: Proposal, q': Proposal)
    requires events != [] && About(Last(events), p) && Last(events).VoteCast? && c.ProposalCreated?
    requires Recorded(q, Front(events), p, before, c) && VoteCounted(q, q', Last(events).support, Last(events).votes)
    ensures Recorded(q', events, p, before, c)
  {
    EndedIsClosed(Front(events), p);
    hide LastMin, LastMax, LastCoefficient, Supply;
  }

  lemma VotedProposer(s: State, id: ProposalId, support: nat, votes: nat)
    requires CanVote(s, id)
    ensures VotedProposal(s, id, support, votes).proposer == s.proposals[id].proposer
  {
    hide SnapshotQuorum;
  }

  /** After any run, a proposal is stored if it was created, and its parts are those its events determine. */
  lemma {:induction false} ProposalByEvents(events: seq<Event>, p: ProposalId)
    requires Applies(events)
    ensures var s, at := After(events), CreatedAt(events, p);
      && (p in s.proposals <==> at.Some?)
      && (at == None ==> QueuedFor(events, p) == None)
      && (at.Some? ==>
            && at.value < |events| && events[at.value].ProposalCreated?
            && Recorded(s.proposals[p], events, p, events[..at.value], events[at.value]))
    decreases |events|
  {
    if events != [] {
      var front, e := Front(events), Last(events);
      ProposalByEvents(front, p);
      CreationPlace(front, p);
      hide Apply, Recorded;
      if CreatedAt(front, p).Some? {
        var i := CreatedAt(front, p).value;
        assert events[..i] == front[..i] && events[i] == front[i];
      }
      if !About(e, p) {
        OtherEventsKeepProposal(After(front), e, p);
        OtherEventsAddNothing(events, p);
        if CreatedAt(front, p).Some? {
          var i := CreatedAt(front, p).value;
          KeepsRecord(After(front).proposals[p], events, p, front[..i], front[i]);
        }
      } else if e.ProposalCreated? {
        if CreatedAt(front, p).Some? {
          var i := CreatedAt(front, p).value;
          RecordedTime(After(front).proposals[p], front, p, front[..i], front[i]);
        }
        CreationIsRecorded(events, p);
      } else {
        var q := After(front).proposals;
        AboutIsKnown(After(front), e, p);
        var i := CreatedAt(front, p).value;
        if e.VoteCast? {
          VoteChanges(After(front), e, p);
          VoteIsRecorded(events, p, front[..i], front[i], q[p], After(events).proposals[p]);
        } else {
          EndingChanges(After(front), e, p);
          EndingIsRecorded(events, p, front[..i], front[i], q[p]);
        }
      }
    }
  }

  lemma AboutIsKnown(s: State, e: Event, p: ProposalId)
    requires CanApply(s, e) && About(e, p) && !e.ProposalCreated?
    ensures p in s.proposals
  {
  }

  lemma RecordedTime(q: Proposal, events: seq<Event>, p: ProposalId, before: seq<Event>, e: Event)
    requires e.ProposalCreated? && Recorded(q, events, p, before, e)
    ensures q.executionETA == QueuedFor(events, p)
  {
  }

  lemma KeepsRecord(q: Proposal, events: seq<Event>, p: ProposalId, before: seq<Event>, e: Event)
    requires events != [] && !About(Last(events), p)
    requires e.ProposalCreated? && Recorded(q, Front(events), p, before, e)
    ensures Recorded(q, events, p, before, e)
  {
    OtherEventsAddNothing(events, p);
  }

  // ----- quorums after runs of fitting events -----

  /** The proposal was created after the block of the first parameter set. */
  function IsDynamic(events: seq<Event>, p: ProposalId): bool
    requires CreatedAt(events, p).Some?
  {
    CreationPlace(events, p);
    StartBlock(events).Some? && StartBlock(events).value < events[CreatedAt(events, p).value].block
  }

  /**
   * The quorum by the events: once a dynamic proposal is voted on, the formula on supply and parameters as they were
   * when it was created and on the votes against since; else what its creation says.
   */
  function QuorumBy(events: seq<Event>, p: ProposalId): nat
    requires CreatedAt(events, p).Some?
  {
    CreationPlace(events, p);
    var i := CreatedAt(events, p).value;
    var before := events[..i];
    if IsDynamic(events, p) && VotedSince(events, p) && Supply(before) > 0 then
      D.DynamicQuorumVotes(VotesSince(events, p, 0), Supply(before), LastMin(before), LastMax(before),
                           LastCoefficient(before))
    else events[i].quorumVotes
  }

  lemma DynamicByEvents(events: seq<Event>, p: ProposalId)
    requires Applies(events) && CreatedAt(events, p).Some?
    ensures p in After(events).proposals
    ensures UsesDynamicQuorum(ParamsOf(After(events)), After(events).proposals[p]) <==> IsDynamic(events, p)
  {
    ParamsByEvents(events);
    ProposalByEvents(events, p);
    CreationPlace(events, p);
    hide ParamsOf;
  }

  lemma {:induction false} VotedByEvents(events: seq<Event>, p: ProposalId)
    requires RunFits(EMPTY_STORE, 0, events)
    ensures Applies(events) && (HasVotes(After(events), p) <==> VotedSince(events, p))
    decreases |events|
  {
    FittingFront(events);
    if events != [] {
      var s, e := After(Front(events)), Last(events);
      VotedByEvents(Front(events), p);
      if e.VoteCast? {
        assert VoteKeysOk(s) && CanVote(s, e.id);
        VotesAfterCast(s, e.voter, e.id, e.support, e.votes, e.reason, e.block, p);
        hide AfterVoteCast, AllOk;
      } else {
        OtherEventsKeepVotes(s, e);
        SameVotesStored(s, After(events), p);
        if e.ProposalCreated? && e.id == p {
          assert VoteKeysOk(s) && p !in s.proposals;
        }
        hide Apply, AllOk;
      }
    }
  }

  lemma SameVotesStored(s: State, s': State, p: ProposalId)
    requires s'.votes == s.votes
    ensures HasVotes(s', p) <==> HasVotes(s, p)
  {
  }

  /** An event does not change whether a proposal is dynamic. */
  lemma KindIsKept(events: seq<Event>, p: ProposalId)
    requires RunFits(EMPTY_STORE, 0, events) && events != [] && CreatedAt(Front(events), p).Some?
    ensures CreatedAt(events, p).Some? && IsDynamic(events, p) == IsDynamic(Front(events), p)
  {
    FittingFront(events);
    var (s, now) := Run(EMPTY_STORE, 0, Front(events));
    DynamicByEvents(Front(events), p);
    assert BlocksOk(s, now);
    EventKeepsProposal(s, now, Last(events), p);
    ProposalByEvents(events, p);
    DynamicByEvents(events, p);
    hide Apply, AllOk, Fits, IsDynamic, UsesDynamicQuorum, Run, Recorded;
  }

  lemma VoteKeepsFixedQuorum(s: State, e: Event, p: ProposalId)
    requires CanApply(s, e) && e.VoteCast? && e.id == p && !UsesDynamicQuorum(ParamsOf(s), s.proposals[p])
    ensures p in Apply(s, e).proposals && Apply(s, e).proposals[p].quorumVotes == s.proposals[p].quorumVotes
  {
    VoteChanges(s, e, p);
    VotedSnapshot(s, p, e.support, e.votes);
    hide Apply, VotedProposal, SnapshotQuorum;
  }

  lemma NewQuorum(events: seq<Event>, p: ProposalId)
    requires Applies(events) && events != [] && Last(events).ProposalCreated? && Last(events).id == p
    ensures p in After(events).proposals && After(events).proposals[p].quorumVotes == Last(events).quorumVotes
  {
    var front := Front(events);
    hide Recorded, Apply;
    ProposalByEvents(front, p);
    if CreatedAt(front, p).Some? {
      var i := CreatedAt(front, p).value;
      RecordedTime(After(front).proposals[p], front, p, front[..i], front[i]);
    }
    CreationIsRecorded(events, p);
  }

  lemma {:induction false} QuorumUntilVote(events: seq<Event>, p: ProposalId)
    requires RunFits(EMPTY_STORE, 0, events) && CreatedAt(events, p).Some?
    requires !(IsDynamic(events, p) && VotedSince(events, p))
    ensures Applies(events) && p in After(events).proposals
    ensures CreatedAt(events, p).value < |events| && events[CreatedAt(events, p).value].ProposalCreated?
    ensures After(events).proposals[p].quorumVotes == events[CreatedAt(events, p).value].quorumVotes
    decreases |events|
  {
    CreationPlace(events, p);
    FittingFront(events);
    hide IsDynamic, Fits, AllOk, RunFits, Run, Apply;
    var front, e := Front(events), Last(events);
    if e.ProposalCreated? && e.id == p {
      NewQuorum(events, p);
    } else {
      CreationPlace(front, p);
      KindIsKept(events, p);
      QuorumUntilVote(front, p);
      QuorumStep(After(front), e, p, front);
    }
  }

  lemma QuorumStep(s: State, e: Event, p: ProposalId, front: seq<Event>)
    requires Applies(front) && s == After(front) && CanApply(s, e) && CreatedAt(front, p).Some?
    requires !(e.ProposalCreated? && e.id == p) && (e.VoteCast? && e.id == p ==> !IsDynamic(front, p))
    ensures p in s.proposals && p in Apply(s, e).proposals
    ensures Apply(s, e).proposals[p].quorumVotes == s.proposals[p].quorumVotes
  {
    DynamicByEvents(front, p);
    hide IsDynamic;
    if !About(e, p) {
      OtherEventsKeepProposal(s, e, p);
      hide Apply;
    } else if e.VoteCast? {
      VoteKeepsFixedQuorum(s, e, p);
      hide Apply;
    } else {
      EndingChanges(s, e, p);
      hide Apply;
    }
  }

  /** After any fitting run, the quorum stored is the one the events determine. */
  lemma QuorumByEvents(events: seq<Event>, p: ProposalId)
    requires RunFits(EMPTY_STORE, 0, events) && CreatedAt(events, p).Some?
    ensures Applies(events) && p in After(events).proposals
    ensures After(events).proposals[p].quorumVotes == QuorumBy(events, p)
    ensures CreatedAt(events, p).value < |events|
    ensures IsDynamic(events, p) && VotedSince(events, p) ==> Supply(events[..CreatedAt(events, p).value]) > 0
  {
    FittingFront(events);
    ProposalByEvents(events, p);
    CreationPlace(events, p);
    if IsDynamic(events, p) && VotedSince(events, p) {
      DynamicByEvents(events, p);
      VotedByEvents(events, p);
      assert QuorumOk(After(events), p);
      hide IsDynamic, D.DynamicQuorumVotes, UsesDynamicQuorum, HasVotes, AllOk, RunFits;
    } else {
      QuorumUntilVote(events, p);
      hide IsDynamic, AllOk, RunFits, Recorded;
    }
  }

  // ----- what is shown -----

  /** The votes stored with one kind of support, together. */
  ghost function StoredVotes(s: State, p: ProposalId, k: nat): int {
    Sum(VotesFor(s, p, k))
  }

  lemma TallyByEvents(events: seq<Event>, p: ProposalId)
    requires RunFits(EMPTY_STORE, 0, events) && CreatedAt(events, p).Some?
    ensures Applies(events)
    ensures StoredVotes(After(events), p, 0) == VotesSince(events, p, 0)
    ensures StoredVotes(After(events), p, 1) == VotesSince(events, p, 1)
  {
    FittingFront(events);
    ProposalByEvents(events, p);
    assert TallyOk(After(events), p, 0) && TallyOk(After(events), p, 1);
    hide VotesFor, AllOk, RunFits;
  }

  lemma {:induction false} QueuedHasTime(events: seq<Event>, p: ProposalId)
    ensures EndedAs(events, p) == Some(QUEUED) ==> QueuedFor(events, p).Some?
    decreases |events|
  {
    if events != [] {
      QueuedHasTime(Front(events), p);
    }
  }

  /** Voting was possible: somebody voted, or the proposal was created within its voting period. */
  predicate Opened(events: seq<Event>, p: ProposalId)
    requires CreatedAt(events, p).Some?
  {
    CreationPlace(events, p);
    var e := events[CreatedAt(events, p).value];
    VotedSince(events, p) || e.block >= e.startBlock
  }

  /** More votes are stored in favour than against, and as many as the quorum demands. */
  ghost predicate Wins(events: seq<Event>, p: ProposalId)
    requires Applies(events) && CreatedAt(events, p).Some?
  {
    var s := After(events);
    StoredVotes(s, p, 1) > StoredVotes(s, p, 0) && StoredVotes(s, p, 1) >= QuorumBy(events, p)
  }

  lemma OpenShown(q: Proposal, block: Option<nat>, time: Option<int>, voting: bool, wins: bool)
    requires q.status == (if voting then ACTIVE else PENDING) && q.executionETA == None
    requires wins <==> q.forVotes > q.againstVotes && q.forVotes >= q.quorumVotes
    ensures W.GetProposalState(block, time, q)
         == if block == None || block == Some(0) then W.UNDETERMINED
            else if !voting then (if block.value <= q.startBlock then W.PENDING else W.ACTIVE)
            else if block.value <= q.endBlock then W.ACTIVE
            else if wins then W.SUCCEEDED
            else W.DEFEATED
  {
  }

  lemma OpenHasNoTime(s: State, now: nat, p: ProposalId)
    requires AllOk(s, now) && p in s.proposals && s.proposals[p].status in {PENDING, ACTIVE}
    ensures s.proposals[p].executionETA == None
  {
    assert StatusOk(s, p);
  }

  /**
   * After any fitting run, the state shown of a proposal nobody ended: SUCCEEDED or DEFEATED when voting is over, by
   * the stored votes and the quorum of the events.
   */
  lemma OpenShownByEvents(events: seq<Event>, p: ProposalId, block: Option<nat>, time: Option<int>)
    requires RunFits(EMPTY_STORE, 0, events) && CreatedAt(events, p).Some? && EndedAs(events, p) == None
    ensures CreatedAt(events, p).value < |events| && events[CreatedAt(events, p).value].ProposalCreated?
    ensures Applies(events) && p in After(events).proposals
    ensures W.GetProposalState(block, time, After(events).proposals[p])
         == var e := events[CreatedAt(events, p).value];
            if block == None || block == Some(0) then W.UNDETERMINED
            else if !Opened(events, p) then (if block.value <= e.startBlock then W.PENDING else W.ACTIVE)
            else if block.value <= e.endBlock then W.ACTIVE
            else if Wins(events, p) then W.SUCCEEDED
            else W.DEFEATED
  {
    ProposalParts(events, p);
    QuorumByEvents(events, p);
    TallyByEvents(events, p);
    hide QuorumBy, StoredVotes, RunFits, Opened, After;
    OpenShown(After(events).proposals[p], block, time, Opened(events, p), Wins(events, p));
  }

  lemma ProposalParts(events: seq<Event>, p: ProposalId)
    requires RunFits(EMPTY_STORE, 0, events) && CreatedAt(events, p).Some? && EndedAs(events, p) == None
    ensures CreatedAt(events, p).value < |events| && events[CreatedAt(events, p).value].ProposalCreated?
    ensures Applies(events) && p in After(events).proposals
    ensures var q, e := After(events).proposals[p], events[CreatedAt(events, p).value];
      && q.startBlock == e.startBlock && q.endBlock == e.endBlock && q.executionETA == None
      && q.status == (if Opened(events, p) then ACTIVE else PENDING)
      && q.againstVotes == VotesSince(events, p, 0) && q.forVotes == VotesSince(events, p, 1)
  {
    FittingFront(events);
    CreationPlace(events, p);
    ProposalByEvents(events, p);
    hide AllOk, RunFits, Run, Fits, LastMin, LastMax, LastCoefficient, Supply, After;
    OpenHasNoTime(After(events), Run(EMPTY_STORE, 0, events).1, p);
  }

  /**
   * After any fitting run, the state shown of a proposal that was ended: how it was ended last, except that a queued
   * one is EXPIRED from 14 days after its time on, and undetermined where the time is not known.
   */
  lemma EndedShownByEvents(events: seq<Event>, p: ProposalId, block: Option<nat>, time: Option<int>)
    requires RunFits(EMPTY_STORE, 0, events) && CreatedAt(events, p).Some? && EndedAs(events, p).Some?
    ensures Applies(events) && p in After(events).proposals
    ensures W.GetProposalState(block, time, After(events).proposals[p])
         == match EndedAs(events, p).value
            case CANCELLED => W.CANCELLED
            case VETOED => W.VETOED
            case EXECUTED => W.EXECUTED
            case _ =>
              if time == None then W.UNDETERMINED
              else if QueuedFor(events, p).Some? && time.value < QueuedFor(events, p).value + 1209600 then W.QUEUED
              else W.EXPIRED
    ensures EndedAs(events, p) == Some(QUEUED) ==> QueuedFor(events, p).Some?
  {
    FittingRun(events);
    ProposalByEvents(events, p);
    EndedIsClosed(events, p);
    QueuedHasTime(events, p);
    hide RunFits, LastMin, LastMax, LastCoefficient, Supply;
  }
}
