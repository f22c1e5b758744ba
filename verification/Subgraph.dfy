/**
 * The subgraph's event handlers over The Graph's store. Entities are loaded as copies and saved as wholes, so a copy
 * saved late overwrites what was saved in between.
 */
module Subgraph {
  import opened Options
  import opened Sums
  import opened Entities
  import opened LedgerSpec
  import opened ProposalSpec
  import D = DynamicQuorum

  class Store {
    var accounts: map<Address, Account>
    var delegates: map<Address, Delegate>
    var nouns: map<TokenId, Noun>
    var seeds: set<TokenId>
    var governance: Option<Governance>
    var proposals: map<ProposalId, Proposal>
    var votes: map<VoteId, Vote>
    var dqParams: Option<DynamicQuorumParams>

    constructor ()
      ensures View() == EMPTY_STORE
    {
      accounts, delegates, nouns, seeds := map[], map[], map[], {};
      governance, proposals, votes, dqParams := None, map[], map[], None;
    }

    ghost function View(): State
      reads this
    {
      State(accounts, delegates, nouns, seeds, governance, proposals, votes, dqParams)
    }

    // ----- helpers.ts -----

    method GetOrCreateAccount(id: Address) returns (tokenHolder: Account)
      modifies this
      ensures View() == CreateAccount(old(View()), id)
      ensures tokenHolder == AccountOf(old(View()), id)
    {
      if id in accounts {
        tokenHolder := accounts[id];
        assert accounts[id := tokenHolder] == accounts;
      } else {
        tokenHolder := NEW_ACCOUNT;
        accounts := accounts[id := tokenHolder];
      }
    }

    method GetOrCreateDelegate(id: Address) returns (delegate: Delegate)
      modifies this
      ensures View() == CreateDelegate(old(View()), id)
      ensures delegate == DelegateOf(old(View()), id)
    {
      if id in delegates {
        delegate := delegates[id];
        assert delegates[id := delegate] == delegates;
      } else {
        delegate := NEW_DELEGATE;
        if id != ZERO_ADDRESS {
          var g := GetGovernanceEntity();
          governance := Some(g.(totalDelegates := g.totalDelegates + 1));
        }
        delegates := delegates[id := delegate];
      }
    }

    /** Not saved when it does not exist yet. */
    method GetGovernanceEntity() returns (g: Governance)
      ensures g == GovernanceOf(View())
    {
      g := if governance.Some? then governance.value else NEW_GOVERNANCE;
    }

    method GetOrCreateDynamicQuorumParams(block: Option<nat>) returns (params: DynamicQuorumParams)
      modifies `dqParams
      ensures params == if block.Some? then ParamsAt(old(View()), block.value) else ParamsOf(old(View()))
      ensures dqParams == Some(params)
    {
      if dqParams == None {
        params := NEW_PARAMS.(dynamicQuorumStartBlock := block);
        dqParams := Some(params);
      } else {
        params := dqParams.value;
      }
      if params.dynamicQuorumStartBlock == None && block != None {
        params := params.(dynamicQuorumStartBlock := block);
        dqParams := Some(params);
      }
    }

    // ----- nouns-erc-721.ts -----

    method HandleNounCreated(tokenId: TokenId)
      modifies this
      ensures View() == AfterNounCreated(old(View()), tokenId)
    {
      seeds := seeds + {tokenId};
      if tokenId !in nouns {
        // Only an error is logged
        return;
      }
      var noun := nouns[tokenId];
      noun := noun.(seed := Some(tokenId));
      nouns := nouns[tokenId := noun];
    }

    method HandleDelegateChanged(delegator: Address, fromDelegate: Address, toDelegate: Address)
      modifies this
      ensures View() == AfterDelegateChanged(old(View()), delegator, fromDelegate, toDelegate)
    {
      hide FilterOut, CreateAccount, CreateDelegate, AccountOf, DelegateOf;
      var tokenHolder, previousDelegate, newDelegate := GetOrCreateParties(delegator, fromDelegate, toDelegate);
      var accountNouns := tokenHolder.nouns;

      tokenHolder := tokenHolder.(delegate := Some(toDelegate));
      accounts := accounts[delegator := tokenHolder];

      previousDelegate := previousDelegate.(
        tokenHoldersRepresentedAmount := previousDelegate.tokenHoldersRepresentedAmount - 1);
      previousDelegate := previousDelegate.(nounsRepresented := FilterOut(previousDelegate.nounsRepresented, accountNouns));
      newDelegate := newDelegate.(tokenHoldersRepresentedAmount := newDelegate.tokenHoldersRepresentedAmount + 1);
      var newNounsRepresented := PushAll(newDelegate.nounsRepresented, accountNouns);
      newDelegate := newDelegate.(nounsRepresented := newNounsRepresented);
      delegates := delegates[fromDelegate := previousDelegate];
      delegates := delegates[toDelegate := newDelegate];
    }

    /** The three copies with which `handleDelegateChanged` starts. */
    method GetOrCreateParties(delegator: Address, fromDelegate: Address, toDelegate: Address)
      returns (tokenHolder: Account, previousDelegate: Delegate, newDelegate: Delegate)
      modifies this
      ensures View() == CreateDelegate(CreateDelegate(CreateAccount(old(View()), delegator), fromDelegate), toDelegate)
      ensures tokenHolder == AccountOf(old(View()), delegator)
      ensures previousDelegate == DelegateOf(old(View()), fromDelegate)
      ensures newDelegate == DelegateOf(old(View()), toDelegate)
    {
      ghost var s1 := CreateAccount(View(), delegator);
      CreateAccountKeeps(View(), delegator);
      CreateDelegateKeeps(s1, fromDelegate);
      assert forall d :: DelegateOf(s1, d) == DelegateOf(View(), d);
      hide CreateAccount, CreateDelegate, AccountOf, DelegateOf;
      tokenHolder := GetOrCreateAccount(delegator);
      previousDelegate := GetOrCreateDelegate(fromDelegate);
      newDelegate := GetOrCreateDelegate(toDelegate);
    }

    /** The loop that pushes the delegator's tokens onto the new delegate's list. */
    method PushAll(list: seq<TokenId>, accountNouns: seq<TokenId>) returns (pushed: seq<TokenId>)
      ensures pushed == list + accountNouns
    {
      pushed := list;
      for i := 0 to |accountNouns|
        invariant pushed == list + accountNouns[..i]
      {
        pushed := pushed + [accountNouns[i]];
      }
      assert accountNouns[..|accountNouns|] == accountNouns;
    }

    method HandleDelegateVotesChanged(delegateId: Address, previousBalance: nat, newBalance: nat)
      modifies this
      ensures View() == AfterVotesChanged(old(View()), delegateId, previousBalance, newBalance)
    {
      var g := GetGovernanceEntity();
      var delegate := GetOrCreateDelegate(delegateId);
      var votesDifference := newBalance - previousBalance;

      delegate := delegate.(delegatedVotesRaw := newBalance, delegatedVotes := newBalance);
      delegates := delegates[delegateId := delegate];

      if previousBalance == 0 && newBalance > 0 {
        g := g.(currentDelegates := g.currentDelegates + 1);
      }
      if newBalance == 0 {
        g := g.(currentDelegates := g.currentDelegates - 1);
      }
      g := g.(delegatedVotesRaw := g.delegatedVotesRaw + votesDifference);
      g := g.(delegatedVotes := g.delegatedVotesRaw);
      governance := Some(g);
    }

    method HandleTransfer(from: Address, to: Address, tokenId: TokenId)
      modifies this
      ensures View() == AfterTransfer(old(View()), from, to, tokenId)
    {
      ghost var s := View();
      var fromHolder, toHolder := GetOrCreateHolders(from, to);
      var g := GetGovernanceEntity();
      hide AccountOf, GovernanceOf, FromSide, ToSide, CreateAccount;

      if from == ZERO_ADDRESS {
        g := g.(totalTokenHolders := g.totalTokenHolders + 1);
        governance := Some(g);
      } else {
        g := SendFrom(from, fromHolder, g, tokenId);
      }
      if to == ZERO_ADDRESS {
        g := g.(totalTokenHolders := g.totalTokenHolders - 1);
        governance := Some(g);
      }
      assert (View(), g) == BeforeReceipt(s, from, to, tokenId);
      hide BeforeReceipt;
      ReceiveAt(to, toHolder, g, tokenId);
    }

    /** The two copies with which `handleTransfer` starts. */
    method GetOrCreateHolders(from: Address, to: Address) returns (fromHolder: Account, toHolder: Account)
      modifies this
      ensures View() == CreateAccount(CreateAccount(old(View()), from), to)
      ensures fromHolder == AccountOf(old(View()), from) && toHolder == AccountOf(old(View()), to)
      ensures GovernanceOf(View()) == GovernanceOf(old(View()))
    {
      CreateAccountKeeps(View(), from);
      CreateAccountKeeps(CreateAccount(View(), from), to);
      hide CreateAccount, AccountOf;
      fromHolder := GetOrCreateAccount(from);
      toHolder := GetOrCreateAccount(to);
    }

    /** The sender's block of `handleTransfer`, working on the copies loaded at its start. */
    method SendFrom(from: Address, holder: Account, governanceCopy: Governance, tokenId: TokenId) returns (g: Governance)
      modifies this
      ensures (View(), g) == FromSide(old(View()), from, holder, governanceCopy, tokenId)
    {
      hide SetRepresented, FilterOut;
      g := governanceCopy;
      var fromHolder := holder;
      var fromHolderPreviousBalance := fromHolder.tokenBalanceRaw;
      fromHolder := fromHolder.(tokenBalanceRaw := fromHolder.tokenBalanceRaw - 1);
      fromHolder := fromHolder.(tokenBalance := fromHolder.tokenBalanceRaw);
      fromHolder := fromHolder.(nouns := FilterOut(fromHolder.nouns, [tokenId]));

      if fromHolder.delegate.Some? {
        RemoveRepresented(fromHolder.delegate.value, tokenId);
      }

      if fromHolder.tokenBalanceRaw == 0 && fromHolderPreviousBalance > 0 {
        g := g.(currentTokenHolders := g.currentTokenHolders - 1);
        governance := Some(g);

        fromHolder := fromHolder.(delegate := None);
      }
      // The branch for a balance that became positive here is never taken: one token has just been subtracted.
      accounts := accounts[from := fromHolder];
    }

    method RemoveRepresented(id: Address, tokenId: TokenId)
      modifies this
      ensures View() == SetRepresented(old(View()), id, FilterOut(DelegateOf(old(View()), id).nounsRepresented, [tokenId]))
    {
      ghost var before := delegates;
      var delegate := GetOrCreateDelegate(id);
      delegate := delegate.(nounsRepresented := FilterOut(delegate.nounsRepresented, [tokenId]));
      delegates := delegates[id := delegate];
      assert delegates == before[id := delegate];
      hide FilterOut;
    }

    method AddRepresented(id: Address, tokenId: TokenId)
      modifies this
      ensures View() == SetRepresented(old(View()), id, DelegateOf(old(View()), id).nounsRepresented + [tokenId])
    {
      ghost var before := delegates;
      var delegate := GetOrCreateDelegate(id);
      delegate := delegate.(nounsRepresented := delegate.nounsRepresented + [tokenId]);
      delegates := delegates[id := delegate];
      assert delegates == before[id := delegate];
    }

    /** The receiver's block of `handleTransfer`, and the token itself. */
    method ReceiveAt(to: Address, holder: Account, governanceCopy: Governance, tokenId: TokenId)
      modifies this
      ensures View() == ToSide(old(View()), to, holder, governanceCopy, tokenId)
    {
      hide SetRepresented;
      var g := governanceCopy;
      var toHolder := holder;
      var toHolderDelegateId := if toHolder.delegate.Some? then toHolder.delegate.value else to;
      AddRepresented(toHolderDelegateId, tokenId);

      var toHolderPreviousBalance := toHolder.tokenBalanceRaw;
      toHolder := toHolder.(tokenBalanceRaw := toHolder.tokenBalanceRaw + 1);
      toHolder := toHolder.(tokenBalance := toHolder.tokenBalanceRaw);
      toHolder := toHolder.(totalTokensHeldRaw := toHolder.totalTokensHeldRaw + 1);
      toHolder := toHolder.(totalTokensHeld := toHolder.totalTokensHeldRaw);
      toHolder := toHolder.(nouns := toHolder.nouns + [tokenId]);

      // The branch for a balance that became zero here is never taken: one token has just been added.
      if toHolder.tokenBalanceRaw > 0 && toHolderPreviousBalance == 0 {
        g := g.(currentTokenHolders := g.currentTokenHolders + 1);
        governance := Some(g);

        toHolder := toHolder.(delegate := Some(to));
      }

      var noun := if tokenId in nouns then nouns[tokenId] else Noun(None, to);
      noun := noun.(owner := to);
      nouns := nouns[tokenId := noun];

      accounts := accounts[to := toHolder];
    }

    // ----- nouns-dao.ts -----

    method HandleProposalCreated(id: ProposalId, proposer: Address, block: nat, startBlock: nat, endBlock: nat, quorumVotes: nat)
      modifies this
      ensures View() == AfterProposalCreated(old(View()), id, proposer, block, startBlock, endBlock, quorumVotes)
    {
      var executionETA := None;
      if id in proposals {
        executionETA := proposals[id].executionETA;
      } else {
        var g := GetGovernanceEntity();
        governance := Some(g.(proposals := g.proposals + 1));
      }
      var delegate := GetOrCreateDelegate(proposer);
      var status := if block >= startBlock then ACTIVE else PENDING;
      var g := GetGovernanceEntity();
      var dynamicQuorum := GetOrCreateDynamicQuorumParams(None);
      proposals := proposals[id := Proposal(
        proposer, block, startBlock, endBlock, quorumVotes, 0, 0, 0, status, executionETA, g.totalTokenHolders,
        dynamicQuorum.minQuorumVotesBPS, dynamicQuorum.maxQuorumVotesBPS, dynamicQuorum.quorumCoefficient)];
    }

    method HandleProposalCanceled(id: ProposalId)
      requires id in proposals
      modifies this
      ensures View() == AfterStatusSet(old(View()), id, CANCELLED)
    {
      var proposal := proposals[id];
      proposals := proposals[id := proposal.(status := CANCELLED)];
    }

    method HandleProposalVetoed(id: ProposalId)
      requires id in proposals
      modifies this
      ensures View() == AfterStatusSet(old(View()), id, VETOED)
    {
      var proposal := proposals[id];
      proposals := proposals[id := proposal.(status := VETOED)];
    }

    method HandleProposalQueued(id: ProposalId, eta: nat)
      requires id in proposals
      modifies this
      ensures View() == AfterQueued(old(View()), id, eta)
    {
      var g := GetGovernanceEntity();
      var proposal := proposals[id];
      proposal := proposal.(status := QUEUED, executionETA := Some(eta));
      proposals := proposals[id := proposal];
      governance := Some(g.(proposalsQueued := g.proposalsQueued + 1));
    }

    method HandleProposalExecuted(id: ProposalId)
      requires id in proposals
      modifies this
      ensures View() == AfterExecuted(old(View()), id)
    {
      var g := GetGovernanceEntity();
      var proposal := proposals[id];
      proposal := proposal.(status := EXECUTED, executionETA := None);
      proposals := proposals[id := proposal];
      governance := Some(g.(proposalsQueued := g.proposalsQueued - 1));
    }

    method HandleVoteCast(voterId: Address, id: ProposalId, support: nat, votesCast: nat, reason: string, block: nat)
      requires CanVote(View(), id)
      modifies this
      ensures View() == AfterVoteCast(old(View()), voterId, id, support, votesCast, reason, block)
    {
      hide D.DynamicQuorumVotes;
      var proposal := proposals[id];
      var voteId := VoteId(voterId, id);
      var voteReason := if voteId in votes then votes[voteId].reason else None;
      var voter := GetOrCreateDelegate(voterId);
      if reason != "" {
        voteReason := Some(reason);
      }
      votes := votes[voteId := Vote(
        id, voterId, votesCast, votesCast, support == 1, support, voter.nounsRepresented, voteReason, block)];

      proposal := CountVote(proposal, support, votesCast);

      var dqParams := GetOrCreateDynamicQuorumParams(None);
      var usingDynamicQuorum :=
        dqParams.dynamicQuorumStartBlock != None && dqParams.dynamicQuorumStartBlock.value < proposal.createdBlock;
      if usingDynamicQuorum {
        proposal := proposal.(quorumVotes := D.DynamicQuorumVotes(
          proposal.againstVotes, proposal.totalSupply, proposal.minQuorumVotesBPS, proposal.maxQuorumVotesBPS,
          proposal.quorumCoefficient));
      }
      if proposal.status == PENDING {
        proposal := proposal.(status := ACTIVE);
      }
      proposals := proposals[id := proposal];
    }

    /** The tallying branches of `handleVoteCast`. */
    method CountVote(before: Proposal, support: nat, votesCast: nat) returns (proposal: Proposal)
      ensures proposal == Counted(before, support, votesCast)
    {
      proposal := before;
      if support == 0 {
        proposal := proposal.(againstVotes := proposal.againstVotes + votesCast);
      } else if support == 1 {
        proposal := proposal.(forVotes := proposal.forVotes + votesCast);
      } else if support == 2 {
        proposal := proposal.(abstainVotes := proposal.abstainVotes + votesCast);
      }
    }

    method HandleMinQuorumVotesBPSSet(block: nat, newMin: nat)
      modifies this
      ensures View() == AfterMinSet(old(View()), block, newMin)
    {
      var params := GetOrCreateDynamicQuorumParams(Some(block));
      dqParams := Some(params.(minQuorumVotesBPS := newMin));
    }

    method HandleMaxQuorumVotesBPSSet(block: nat, newMax: nat)
      modifies this
      ensures View() == AfterMaxSet(old(View()), block, newMax)
    {
      var params := GetOrCreateDynamicQuorumParams(Some(block));
      dqParams := Some(params.(maxQuorumVotesBPS := newMax));
    }

    method HandleQuorumCoefficientSet(block: nat, newCoefficient: nat)
      modifies this
      ensures View() == AfterCoefficientSet(old(View()), block, newCoefficient)
    {
      var params := GetOrCreateDynamicQuorumParams(Some(block));
      dqParams := Some(params.(quorumCoefficient := newCoefficient));
    }
  }
}
