/**
 * The store as a record of the events: what each field is after a run from the empty store, in terms of the events
 * alone. Unlike agreement between the views, this holds of every run whose events can be processed at all.
 */
module SubgraphHistory {
  import opened Options
  import opened Sums
  import opened Entities
  import opened LedgerSpec
  import opened Ledger
  import opened ProposalSpec
  import opened SubgraphRuns

  function Front(events: seq<Event>): seq<Event>
    requires events != []
  {
    events[..|events| - 1]
  }

  function Last(events: seq<Event>): Event
    requires events != []
  {
    events[|events| - 1]
  }

  /** Every event can be processed when it arrives. */
  predicate Applies(events: seq<Event>)
    decreases |events|, 0
  {
    events == [] || (Applies(Front(events)) && CanApply(After(Front(events)), Last(events)))
  }

  /** The store after the events. */
  function After(events: seq<Event>): State
    requires Applies(events)
    decreases |events|, 1
  {
    if events == [] then EMPTY_STORE else Apply(After(Front(events)), Last(events))
  }

  // ----- the runs of fitting events are such runs -----

  lemma {:induction false} FitsOneMore(s: State, now: nat, front: seq<Event>, e: Event)
    requires RunFits(s, now, front + [e])
    ensures RunFits(s, now, front)
    ensures var (t, at) := Run(s, now, front);
      Fits(t, at, e) && Run(s, now, front + [e]) == (Apply(t, e), BlockAfter(at, e))
    decreases front
  {
    var events := front + [e];
    if front == [] {
      assert events == [e] && [e][1..] == [];
      hide Apply, CanApply, BlockAfter;
      assert Run(Apply(s, e), BlockAfter(now, e), []) == (Apply(s, e), BlockAfter(now, e));
    } else {
      assert events[0] == front[0] && events[1..] == front[1..] + [e];
      hide Fits, Apply, CanApply, BlockAfter;
      assert CanApply(s, front[0]) by { FitsCanApply(s, now, front[0]); }
      FitsOneMore(Apply(s, front[0]), BlockAfter(now, front[0]), front[1..], e);
    }
  }

  lemma FitsCanApply(s: State, now: nat, e: Event)
    requires Fits(s, now, e)
    ensures CanApply(s, e)
  {
    hide CanApply;
  }

  /** A run of fitting events can be processed, and so can every shorter one. */
  lemma {:induction false} FittingRun(events: seq<Event>)
    requires RunFits(EMPTY_STORE, 0, events)
    ensures Applies(events) && After(events) == Run(EMPTY_STORE, 0, events).0
    decreases |events|
  {
    if events != [] {
      var front, e := Front(events), Last(events);
      assert events == front + [e];
      FitsOneMore(EMPTY_STORE, 0, front, e);
      FittingRun(front);
      FitsCanApply(Run(EMPTY_STORE, 0, front).0, Run(EMPTY_STORE, 0, front).1, e);
      hide Apply, CanApply, Fits, Run, RunFits;
    }
  }

  /** Without its last event, a fitting run is fitting, reaches a state in agreement, and the event fits there. */
  lemma FittingFront(events: seq<Event>)
    requires RunFits(EMPTY_STORE, 0, events)
    ensures Applies(events) && AllOk(After(events), Run(EMPTY_STORE, 0, events).1)
    ensures events != [] ==>
              && RunFits(EMPTY_STORE, 0, Front(events)) && Applies(Front(events))
              && var (s, now) := Run(EMPTY_STORE, 0, Front(events));
                 s == After(Front(events)) && AllOk(s, now) && Fits(s, now, Last(events))
  {
    hide AllOk, Fits, Apply, CanApply, Run, RunFits;
    EmptyStoreOk();
    FittingRun(events);
    RunKeepsAll(EMPTY_STORE, 0, events);
    if events != [] {
      assert events == Front(events) + [Last(events)];
      FitsOneMore(EMPTY_STORE, 0, Front(events), Last(events));
      FittingRun(Front(events));
      RunKeepsAll(EMPTY_STORE, 0, Front(events));
    }
  }

  // ----- accounts and tokens -----

  /** How often the account was the receiver of a transfer. */
  function TimesReceived(events: seq<Event>, a: Address): nat {
    if events == [] then 0
    else
      var e := Last(events);
      TimesReceived(Front(events), a) + if e.Transfer? && e.to == a then 1 else 0
  }

  /** What comes in and what goes out. A transfer to oneself is counted as coming in. */
  function Balance(events: seq<Event>, a: Address): int {
    if events == [] then 0
    else
      var e := Last(events);
      Balance(Front(events), a)
      + (if e.Transfer? && e.to == a then 1 else 0)
      - (if e.Transfer? && e.from == a && e.to != a && a != ZERO_ADDRESS then 1 else 0)
  }

  /**
   * The account's last choice of delegate. With its first token it becomes its own delegate, and when it has given the
   * last away it has none.
   */
  function DelegateBy(events: seq<Event>, a: Address): Option<Address> {
    if events == [] then None
    else
      var e, before := Last(events), DelegateBy(Front(events), a);
      match e
      case DelegateChanged(delegator, _, to) => if delegator == a then Some(to) else before
      case Transfer(from, to, _) =>
        if to == a then (if Balance(Front(events), a) == 0 then Some(a) else before)
        else if from == a && a != ZERO_ADDRESS then (if Balance(events, a) == 0 then None else before)
        else before
      case _ => before
  }

  /** The receiver of the token's last transfer. */
  function LastReceiver(events: seq<Event>, id: TokenId): Option<Address> {
    if events == [] then None
    else
      var e := Last(events);
      if e.Transfer? && e.tokenId == id then Some(e.to) else LastReceiver(Front(events), id)
  }

  predicate SeedCreated(events: seq<Event>, id: TokenId) {
    exists i :: 0 <= i < |events| && events[i] == NounCreated(id)
  }

  /** The seed was created when the token had been transferred. */
  function SeedLinked(events: seq<Event>, id: TokenId): bool {
    events != []
    && (SeedLinked(Front(events), id) || (Last(events) == NounCreated(id) && LastReceiver(Front(events), id).Some?))
  }

  lemma OtherEventsKeepAccounts(s: State, e: Event)
    requires CanApply(s, e) && !e.Transfer? && !e.DelegateChanged?
    ensures Apply(s, e).accounts == s.accounts
    ensures !e.NounCreated? ==> Apply(s, e).nouns == s.nouns && Apply(s, e).seeds == s.seeds
  {
    hide DelegateOf, GovernanceOf, VotedProposal, NewProposal, CastVote;
  }

  /** What one event does to an account. */
  ghost predicate AccountStep(h: Account, h': Account, e: Event, a: Address) {
    if e.Transfer? && e.to == a then
      && h'.tokenBalanceRaw == h'.tokenBalance == h.tokenBalanceRaw + 1
      && h'.totalTokensHeldRaw == h'.totalTokensHeld == h.totalTokensHeldRaw + 1
      && h'.delegate == if h.tokenBalanceRaw == 0 then Some(a) else h.delegate
    else if e.Transfer? && e.from == a && a != ZERO_ADDRESS then
      && h'.tokenBalanceRaw == h'.tokenBalance == h.tokenBalanceRaw - 1
      && h'.totalTokensHeldRaw == h.totalTokensHeldRaw && h'.totalTokensHeld == h.totalTokensHeld
      && h'.delegate == if h.tokenBalanceRaw == 1 then None else h.delegate
    else if e.DelegateChanged? && e.delegator == a then h' == h.(delegate := Some(e.toDelegate))
    else h' == h
  }

  lemma EventOnAccount(s: State, e: Event, a: Address)
    requires CanApply(s, e)
    ensures AccountStep(AccountOf(s, a), AccountOf(Apply(s, e), a), e, a)
  {
    if e.Transfer? {
      TransferAccount(s, e.from, e.to, e.tokenId, a);
      hide AfterTransfer, AccountOf;
    } else if e.DelegateChanged? {
      DelegationRest(s, e.delegator, e.fromDelegate, e.toDelegate, a);
      hide AfterDelegateChanged;
    } else {
      OtherEventsKeepAccounts(s, e);
      hide Apply;
    }
  }

  /** After any run: what an account holds, has ever received, and whom it has chosen. */
  lemma {:induction false} AccountByEvents(events: seq<Event>, a: Address)
    requires Applies(events)
    ensures var h := AccountOf(After(events), a);
      && h.totalTokensHeldRaw == h.totalTokensHeld == TimesReceived(events, a)
      && h.tokenBalanceRaw == h.tokenBalance == Balance(events, a)
      && h.delegate == DelegateBy(events, a)
    decreases |events|
  {
    hide Apply, CanApply, AccountOf;
    if events == [] {
      NothingStored(a);
    } else {
      AccountByEvents(Front(events), a);
      EventOnAccount(After(Front(events)), Last(events), a);
    }
  }

  lemma NothingStored(a: Address)
    ensures AccountOf(EMPTY_STORE, a) == NEW_ACCOUNT && DelegateOf(EMPTY_STORE, a) == NEW_DELEGATE
    ensures GovernanceOf(EMPTY_STORE) == NEW_GOVERNANCE && ParamsOf(EMPTY_STORE) == NEW_PARAMS
  {
  }

  lemma EventOnTokens(s: State, e: Event, id: TokenId)
    requires CanApply(s, e)
    ensures var s' := Apply(s, e);
      && (id in s'.seeds <==> id in s.seeds || e == NounCreated(id))
      && (id in s'.nouns <==> id in s.nouns || (e.Transfer? && e.tokenId == id))
      && (id in s'.nouns ==>
            && s'.nouns[id].owner == (if e.Transfer? && e.tokenId == id then e.to else s.nouns[id].owner)
            && s'.nouns[id].seed == (if id !in s.nouns then None
                                     else if e == NounCreated(id) then Some(id) else s.nouns[id].seed))
  {
    if e.Transfer? {
      TransferRest(s, e.from, e.to, e.tokenId);
      hide AfterTransfer, Core, GovernanceAfter;
    } else if e.DelegateChanged? {
      DelegationRest(s, e.delegator, e.fromDelegate, e.toDelegate, e.delegator);
      hide AfterDelegateChanged, Core;
    } else if !e.NounCreated? {
      OtherEventsKeepAccounts(s, e);
      hide Apply;
    }
  }

  /** After any run: which tokens and seeds are stored, who owns each token, and which has its seed. */
  lemma {:induction false} TokenByEvents(events: seq<Event>, id: TokenId)
    requires Applies(events)
    ensures var s := After(events);
      && (id in s.seeds <==> SeedCreated(events, id))
      && (id in s.nouns <==> LastReceiver(events, id).Some?)
      && (id in s.nouns ==>
            && Some(s.nouns[id].owner) == LastReceiver(events, id)
            && s.nouns[id].seed == if SeedLinked(events, id) then Some(id) else None)
      && (SeedLinked(events, id) ==> LastReceiver(events, id).Some?)
    decreases |events|
  {
    hide Apply, CanApply;
    if events != [] {
      TokenByEvents(Front(events), id);
      EventOnTokens(After(Front(events)), Last(events), id);
      SeedCreatedStep(events, id);
      hide SeedCreated;
    }
  }

  lemma SeedCreatedStep(events: seq<Event>, id: TokenId)
    requires events != []
    ensures SeedCreated(events, id) <==> SeedCreated(Front(events), id) || Last(events) == NounCreated(id)
  {
    if SeedCreated(Front(events), id) {
      var i :| 0 <= i < |Front(events)| && Front(events)[i] == NounCreated(id);
      assert events[i] == NounCreated(id);
    }
    if Last(events) == NounCreated(id) {
      assert events[|events| - 1] == NounCreated(id);
    }
  }

  /** The place of the token's last transfer. */
  function LastMoved(events: seq<Event>, id: TokenId): int {
    if events == [] then -1
    else
      var e := Last(events);
      if e.Transfer? && e.tokenId == id then |events| - 1 else LastMoved(Front(events), id)
  }

  lemma {:induction false} MovedBefore(events: seq<Event>, id: TokenId)
    ensures LastMoved(events, id) < |events|
    decreases |events|
  {
    if events != [] {
      MovedBefore(Front(events), id);
    }
  }

  ghost predicate InReceiptOrder(list: seq<TokenId>, events: seq<Event>) {
    forall i, j :: 0 <= i < j < |list| ==> LastMoved(events, list[i]) < LastMoved(events, list[j])
  }

  lemma EventOnList(s: State, e: Event, a: Address)
    requires CanApply(s, e)
    ensures AccountOf(Apply(s, e), a).nouns ==
      var list := AccountOf(s, a).nouns;
      if e.Transfer? && e.to == a then list + [e.tokenId]
      else if e.Transfer? && e.from == a && a != ZERO_ADDRESS then FilterOut(list, [e.tokenId])
      else list
  {
    if e.Transfer? {
      TransferAccount(s, e.from, e.to, e.tokenId, a);
      hide AfterTransfer, AccountOf, FilterOut;
    } else if e.DelegateChanged? {
      DelegationRest(s, e.delegator, e.fromDelegate, e.toDelegate, a);
      hide AfterDelegateChanged, FilterOut;
    } else {
      OtherEventsKeepAccounts(s, e);
      hide Apply;
    }
  }

  lemma ReceivedLast(list: seq<TokenId>, events: seq<Event>)
    requires events != [] && Last(events).Transfer? && InReceiptOrder(list, Front(events))
    requires Last(events).tokenId !in list
    ensures InReceiptOrder(list + [Last(events).tokenId], events)
  {
    forall i | 0 <= i < |list| ensures LastMoved(events, list[i]) == LastMoved(Front(events), list[i]) < |events| - 1 {
      assert list[i] in list;
      MovedBefore(Front(events), list[i]);
    }
  }

  lemma OthersKeepOrder(list: seq<TokenId>, events: seq<Event>)
    requires events != [] && InReceiptOrder(list, Front(events))
    requires Last(events).Transfer? ==> Last(events).tokenId !in list
    ensures InReceiptOrder(list, events)
  {
    assert forall i :: 0 <= i < |list| ==> list[i] in list;
  }

  lemma FilteredOrder(list: seq<TokenId>, events: seq<Event>, id: TokenId)
    requires InReceiptOrder(list, events)
    ensures InReceiptOrder(FilterOut(list, [id]), events) && id !in FilterOut(list, [id])
  {
    var left := FilterOut(list, [id]);
    forall i, j | 0 <= i < j < |left| ensures LastMoved(events, left[i]) < LastMoved(events, left[j]) {
      FilterKeepsOrder(list, [id], i, j);
    }
    forall i | 0 <= i < |left| ensures left[i] != id {
      FilterMembers(list, [id], i);
    }
  }

  /** In a fitting run, a transfer changes no other list, and the receiver does not have the token yet. */
  lemma TransferFitsLists(s: State, now: nat, e: Event, a: Address)
    requires AllOk(s, now) && Fits(s, now, e) && e.Transfer? && !(e.from == a && a != ZERO_ADDRESS)
    ensures e.tokenId !in AccountOf(s, a).nouns
  {
    assert OwnsOk(s, a, e.tokenId);
    OccursIn(AccountOf(s, a).nouns, e.tokenId);
    hide AccountOf;
  }

  /** After any fitting run, an account's tokens are listed in the order in which it received them. */
  lemma {:induction false} TokensInReceiptOrder(events: seq<Event>, a: Address)
    requires RunFits(EMPTY_STORE, 0, events)
    ensures Applies(events) && InReceiptOrder(AccountOf(After(events), a).nouns, events)
    decreases |events|
  {
    FittingFront(events);
    hide RunFits, AllOk, Apply, AccountOf, InReceiptOrder, FilterOut;
    if events == [] {
      NothingStored(a);
      NothingInOrder();
    } else {
      var (s, now) := Run(EMPTY_STORE, 0, Front(events));
      var e := Last(events);
      TokensInReceiptOrder(Front(events), a);
      FitsCanApply(s, now, e);
      EventOnList(s, e, a);
      var list := AccountOf(s, a).nouns;
      if e.Transfer? && e.from == a && a != ZERO_ADDRESS {
        assert e.to != a;
        FilteredOrder(list, Front(events), e.tokenId);
        OthersKeepOrder(FilterOut(list, [e.tokenId]), events);
      } else {
        if e.Transfer? {
          TransferFitsLists(s, now, e, a);
        }
        if e.Transfer? && e.to == a {
          ReceivedLast(list, events);
        } else {
          OthersKeepOrder(list, events);
        }
      }
    }
  }

  lemma NothingInOrder()
    ensures InReceiptOrder([], [])
  {
  }

  // ----- delegates and totals -----

  /** The number of votes last reported for the delegate. */
  function LastVotes(events: seq<Event>, d: Address): nat {
    if events == [] then 0
    else
      var e := Last(events);
      if e.DelegateVotesChanged? && e.delegate == d then e.newBalance else LastVotes(Front(events), d)
  }

  /** Delegations to the delegate less those away from it. A delegation from it to itself counts as one to it. */
  function Represented(events: seq<Event>, d: Address): int {
    if events == [] then 0
    else
      var e := Last(events);
      Represented(Front(events), d)
      + (if e.DelegateChanged? && e.toDelegate == d then 1
         else if e.DelegateChanged? && e.fromDelegate == d then -1 else 0)
  }

  /** Tokens minted less tokens burned. */
  function Supply(events: seq<Event>): int {
    if events == [] then 0
    else
      var e := Last(events);
      Supply(Front(events))
      + (if e.Transfer? && e.from == ZERO_ADDRESS then 1 else 0) - (if e.Transfer? && e.to == ZERO_ADDRESS then 1 else 0)
  }

  ghost predicate SameAmounts(d: Delegate, d': Delegate) {
    && d'.delegatedVotesRaw == d.delegatedVotesRaw && d'.delegatedVotes == d.delegatedVotes
    && d'.tokenHoldersRepresentedAmount == d.tokenHoldersRepresentedAmount
  }

  lemma DelegationAmounts(s: State, e: Event, d: Address)
    requires e.DelegateChanged?
    ensures var was, now := DelegateOf(s, d), DelegateOf(Apply(s, e), d);
      && now.delegatedVotesRaw == was.delegatedVotesRaw && now.delegatedVotes == was.delegatedVotes
      && now.tokenHoldersRepresentedAmount == was.tokenHoldersRepresentedAmount
           + (if e.toDelegate == d then 1 else if e.fromDelegate == d then -1 else 0)
  {
    hide FilterOut;
  }

  lemma OtherEventsKeepAmounts(s: State, e: Event, d: Address)
    requires CanApply(s, e) && !e.DelegateChanged? && !(e.DelegateVotesChanged? && e.delegate == d)
    ensures SameAmounts(DelegateOf(s, d), DelegateOf(Apply(s, e), d))
  {
    if e.Transfer? {
      TransferDelegate(s, e.from, e.to, e.tokenId, d);
      hide AfterTransfer, RepresentedAfter;
    } else if e.ProposalCreated? {
      CreateDelegateKeeps(s, e.proposer);
      hide NewProposal;
    } else if e.VoteCast? {
      hide VotedProposal, CastVote;
    }
  }

  /** After any run: the votes last reported for a delegate, and the holders it is said to represent. */
  lemma {:induction false} DelegateByEvents(events: seq<Event>, d: Address)
    requires Applies(events)
    ensures var delegate := DelegateOf(After(events), d);
      && delegate.delegatedVotesRaw == delegate.delegatedVotes == LastVotes(events, d)
      && delegate.tokenHoldersRepresentedAmount == Represented(events, d)
    decreases |events|
  {
    hide CanApply;
    if events == [] {
      NothingStored(d);
    } else {
      var s, e := After(Front(events)), Last(events);
      DelegateByEvents(Front(events), d);
      if e.DelegateChanged? {
        DelegationAmounts(s, e, d);
        hide Apply;
      } else if !(e.DelegateVotesChanged? && e.delegate == d) {
        OtherEventsKeepAmounts(s, e, d);
        hide Apply;
      }
    }
  }

  lemma EventOnTotals(s: State, e: Event)
    requires CanApply(s, e)
    ensures var g, g' := GovernanceOf(s), GovernanceOf(Apply(s, e));
      && g'.totalTokenHolders == g.totalTokenHolders
           + (if e.Transfer? && e.from == ZERO_ADDRESS then 1 else 0)
           - (if e.Transfer? && e.to == ZERO_ADDRESS then 1 else 0)
      && (g.delegatedVotes == g.delegatedVotesRaw ==> g'.delegatedVotes == g'.delegatedVotesRaw)
  {
    if e.Transfer? {
      TransferRest(s, e.from, e.to, e.tokenId);
      hide AfterTransfer, AccountOf, GovernanceOf;
    } else if e.DelegateChanged? {
      DelegationRest(s, e.delegator, e.fromDelegate, e.toDelegate, e.delegator);
      hide AfterDelegateChanged, GovernanceOf;
    } else if e.ProposalCreated? {
      hide NewProposal, DelegateOf;
    } else if e.VoteCast? {
      hide VotedProposal, CastVote, DelegateOf;
    }
  }

  /** After any run: the supply, and both forms of the delegated votes. */
  lemma {:induction false} TotalsByEvents(events: seq<Event>)
    requires Applies(events)
    ensures var g := GovernanceOf(After(events));
      g.totalTokenHolders == Supply(events) && g.delegatedVotes == g.delegatedVotesRaw
    decreases |events|
  {
    hide Apply, CanApply, GovernanceOf;
    if events == [] {
      NothingStored(ZERO_ADDRESS);
    } else {
      TotalsByEvents(Front(events));
      EventOnTotals(After(Front(events)), Last(events));
    }
  }

  // ----- quorum parameters -----

  /** The parameters last set, 0 where none was. */
  function LastMin(events: seq<Event>): nat {
    if events == [] then 0 else if Last(events).MinQuorumVotesBPSSet? then Last(events).newMin else LastMin(Front(events))
  }

  function LastMax(events: seq<Event>): nat {
    if events == [] then 0 else if Last(events).MaxQuorumVotesBPSSet? then Last(events).newMax else LastMax(Front(events))
  }

  function LastCoefficient(events: seq<Event>): nat {
    if events == [] then 0
    else if Last(events).QuorumCoefficientSet? then Last(events).newCoefficient else LastCoefficient(Front(events))
  }

  /** The block of the first event that set a parameter. */
  function StartBlock(events: seq<Event>): Option<nat> {
    if events == [] then None
    else if StartBlock(Front(events)).Some? then StartBlock(Front(events))
    else
      match Last(events)
      case MinQuorumVotesBPSSet(block, _) => Some(block)
      case MaxQuorumVotesBPSSet(block, _) => Some(block)
      case QuorumCoefficientSet(block, _) => Some(block)
      case _ => None
  }

  predicate SetsParameter(e: Event) {
    e.MinQuorumVotesBPSSet? || e.MaxQuorumVotesBPSSet? || e.QuorumCoefficientSet?
  }

  lemma OtherEventsKeepParams(s: State, e: Event)
    requires CanApply(s, e) && !SetsParameter(e)
    ensures ParamsOf(Apply(s, e)) == ParamsOf(s)
  {
    if e.Transfer? {
      TransferRest(s, e.from, e.to, e.tokenId);
      hide AfterTransfer;
    } else if e.DelegateChanged? {
      DelegationRest(s, e.delegator, e.fromDelegate, e.toDelegate, e.delegator);
      hide AfterDelegateChanged;
    } else if e.VoteCast? {
      hide VotedProposal, CastVote, CreateDelegate;
    }
  }

  lemma SettingParams(s: State, e: Event)
    requires SetsParameter(e)
    ensures var was, now := ParamsOf(s), ParamsOf(Apply(s, e));
      && now.minQuorumVotesBPS == (if e.MinQuorumVotesBPSSet? then e.newMin else was.minQuorumVotesBPS)
      && now.maxQuorumVotesBPS == (if e.MaxQuorumVotesBPSSet? then e.newMax else was.maxQuorumVotesBPS)
      && now.quorumCoefficient == (if e.QuorumCoefficientSet? then e.newCoefficient else was.quorumCoefficient)
      && now.dynamicQuorumStartBlock
         == if was.dynamicQuorumStartBlock.Some? then was.dynamicQuorumStartBlock else Some(e.block)
  {
  }

  /** After any run: the parameters are those last set, and the start block is that of the first setting. */
  lemma {:induction false} ParamsByEvents(events: seq<Event>)
    requires Applies(events)
    ensures var params := ParamsOf(After(events));
      && params.minQuorumVotesBPS == LastMin(events) && params.maxQuorumVotesBPS == LastMax(events)
      && params.quorumCoefficient == LastCoefficient(events)
      && params.dynamicQuorumStartBlock == StartBlock(events)
    decreases |events|
  {
    hide CanApply, Apply, ParamsOf;
    if events == [] {
      NothingStored(ZERO_ADDRESS);
    } else {
      var s, e := After(Front(events)), Last(events);
      ParamsByEvents(Front(events));
      if SetsParameter(e) {
        SettingParams(s, e);
      } else {
        OtherEventsKeepParams(s, e);
      }
    }
  }

  // ----- votes -----

  /** The place of the voter's last vote on the proposal. */
  function LastCast(events: seq<Event>, v: VoteId): Option<nat> {
    if events == [] then None
    else
      var e := Last(events);
      if e.VoteCast? && VoteId(e.voter, e.id) == v then Some(|events| - 1) else LastCast(Front(events), v)
  }

  /** The last reason that the voter gave. */
  function LastReason(events: seq<Event>, v: VoteId): Option<string> {
    if events == [] then None
    else
      var e := Last(events);
      if e.VoteCast? && VoteId(e.voter, e.id) == v && e.reason != "" then Some(e.reason)
      else LastReason(Front(events), v)
  }

  lemma OtherEventsKeepVotes(s: State, e: Event)
    requires CanApply(s, e) && !e.VoteCast?
    ensures Apply(s, e).votes == s.votes
  {
    if e.Transfer? {
      TransferRest(s, e.from, e.to, e.tokenId);
      hide AfterTransfer;
    } else if e.DelegateChanged? {
      DelegationRest(s, e.delegator, e.fromDelegate, e.toDelegate, e.delegator);
      hide AfterDelegateChanged;
    }
  }

  lemma CastKeepsOtherVotes(s: State, e: Event)
    requires e.VoteCast? && CanApply(s, e)
    ensures var v := VoteId(e.voter, e.id);
      Apply(s, e).votes == s.votes[v := CastVote(s, e.voter, e.id, e.support, e.votes, e.reason, e.block)]
  {
    hide CreateDelegate, VotedProposal, CastVote;
  }

  /**
   * After any run: exactly the votes cast are stored, each as last cast, with the last reason given and the tokens that
   * the voter represented at that moment.
   */
  lemma {:induction false} VoteByEvents(events: seq<Event>, v: VoteId)
    requires Applies(events)
    ensures var s, cast := After(events), LastCast(events, v);
      && (v in s.votes <==> cast.Some?)
      && (cast == None ==> LastReason(events, v) == None)
      && (cast.Some? ==>
            && cast.value < |events| && events[cast.value].VoteCast?
            && Applies(events[..cast.value])
            && var e, vote := events[cast.value], s.votes[v];
               && vote.proposal == v.proposal && vote.voter == v.voter
               && vote.votesRaw == vote.votes == e.votes && vote.supportDetailed == e.support && vote.support == (e.support == 1)
               && vote.reason == LastReason(events, v) && vote.blockNumber == e.block
               && vote.nouns == DelegateOf(After(events[..cast.value]), v.voter).nounsRepresented)
    decreases |events|
  {
    hide Apply, CanApply, DelegateOf;
    if events != [] {
      var front, e := Front(events), Last(events);
      VoteByEvents(front, v);
      if e.VoteCast? {
        CastKeepsOtherVotes(After(front), e);
      } else {
        OtherEventsKeepVotes(After(front), e);
      }
      var cast := LastCast(front, v);
      if cast.Some? {
        assert front[..cast.value] == events[..cast.value] && front[cast.value] == events[cast.value];
      }
    }
  }
}
