/** What the token handlers make of the store, as functions, and their effect field by field. */
module LedgerSpec {
  import opened Options
  import opened Sums
  import opened Entities

  function SaveGovernance(s: State, g: Governance): State {
    s.(governance := Some(g))
  }

  // ----- handleTransfer -----

  function FromHolderAfter(holder: Account, id: TokenId): Account {
    var balance := holder.tokenBalanceRaw - 1;
    holder.(tokenBalanceRaw := balance, tokenBalance := balance,
            nouns := FilterOut(holder.nouns, [id]),
            delegate := if balance == 0 then None else holder.delegate)
  }

  function ToHolderAfter(holder: Account, to: Address, id: TokenId): Account {
    var balance, total := holder.tokenBalanceRaw + 1, holder.totalTokensHeldRaw + 1;
    holder.(tokenBalanceRaw := balance, tokenBalance := balance,
            totalTokensHeldRaw := total, totalTokensHeld := total,
            nouns := holder.nouns + [id],
            delegate := if holder.tokenBalanceRaw == 0 then Some(to) else holder.delegate)
  }

  function SetRepresented(s: State, d: Address, list: seq<TokenId>): State {
    CreateDelegate(s, d).(delegates := s.delegates[d := DelegateOf(s, d).(nounsRepresented := list)])
  }

  /** The sender's side. `holder` and `g` are the copies loaded when the handler started. */
  function FromSide(s: State, from: Address, holder: Account, g: Governance, id: TokenId): (State, Governance) {
    var s1 :=
      if holder.delegate.Some? then
        var d := holder.delegate.value;
        SetRepresented(s, d, FilterOut(DelegateOf(s, d).nounsRepresented, [id]))
      else s;
    var (s2, g2) :=
      if holder.tokenBalanceRaw == 1 then
        var g' := g.(currentTokenHolders := g.currentTokenHolders - 1);
        (SaveGovernance(s1, g'), g')
      else (s1, g);
    (s2.(accounts := s2.accounts[from := FromHolderAfter(holder, id)]), g2)
  }

  /** The receiver's side, with the receiver's copy from the handler's start. */
  function ToSide(s: State, to: Address, holder: Account, g: Governance, id: TokenId): State {
    var d := if holder.delegate.Some? then holder.delegate.value else to;
    var s1 := SetRepresented(s, d, DelegateOf(s, d).nounsRepresented + [id]);
    var s2 :=
      if holder.tokenBalanceRaw == 0 then SaveGovernance(s1, g.(currentTokenHolders := g.currentTokenHolders + 1))
      else s1;
    s2.(nouns := s2.nouns[id := Noun(if id in s2.nouns then s2.nouns[id].seed else None, to)],
        accounts := s2.accounts[to := ToHolderAfter(holder, to, id)])
  }

  /** The store, and the governance copy, when the sender's side is done and supply is counted. */
  function BeforeReceipt(s: State, from: Address, to: Address, id: TokenId): (State, Governance) {
    var s0 := CreateAccount(CreateAccount(s, from), to);
    var g := GovernanceOf(s);
    var (s1, g1) :=
      if from == ZERO_ADDRESS then
        var g' := g.(totalTokenHolders := g.totalTokenHolders + 1);
        (SaveGovernance(s0, g'), g')
      else FromSide(s0, from, AccountOf(s, from), g, id);
    if to == ZERO_ADDRESS then
      var g' := g1.(totalTokenHolders := g1.totalTokenHolders - 1);
      (SaveGovernance(s1, g'), g')
    else (s1, g1)
  }

  /** The receiver's copy was loaded at the start too. */
  function AfterTransfer(s: State, from: Address, to: Address, id: TokenId): State {
    var (s1, g1) := BeforeReceipt(s, from, to, id);
    ToSide(s1, to, AccountOf(s, to), g1, id)
  }

  // ----- handleDelegateChanged -----

  function AfterDelegateChanged(s: State, delegator: Address, fromDelegate: Address, toDelegate: Address): State {
    var s1 := CreateDelegate(CreateDelegate(CreateAccount(s, delegator), fromDelegate), toDelegate);
    var holder := AccountOf(s, delegator);
    var previous, next := DelegateOf(s, fromDelegate), DelegateOf(s, toDelegate);
    s1.(accounts := s1.accounts[delegator := holder.(delegate := Some(toDelegate))],
        delegates := s1.delegates
          [fromDelegate := previous.(
             tokenHoldersRepresentedAmount := previous.tokenHoldersRepresentedAmount - 1,
             nounsRepresented := FilterOut(previous.nounsRepresented, holder.nouns))]
          [toDelegate := next.(
             tokenHoldersRepresentedAmount := next.tokenHoldersRepresentedAmount + 1,
             nounsRepresented := next.nounsRepresented + holder.nouns)])
  }

  // ----- handleDelegateVotesChanged -----

  /** The governance copy is loaded before the delegate is created and saved after it. */
  function AfterVotesChanged(s: State, d: Address, previousBalance: nat, newBalance: nat): State {
    var g := GovernanceOf(s);
    var delegates := g.currentDelegates
      + (if previousBalance == 0 && newBalance > 0 then 1 else 0)
      - (if newBalance == 0 then 1 else 0);
    var votes := g.delegatedVotesRaw + newBalance - previousBalance;
    s.(delegates := s.delegates[d := DelegateOf(s, d).(delegatedVotesRaw := newBalance, delegatedVotes := newBalance)],
       governance := Some(g.(currentDelegates := delegates, delegatedVotesRaw := votes, delegatedVotes := votes)))
  }

  // ----- handleNounCreated -----

  function AfterNounCreated(s: State, id: TokenId): State {
    s.(seeds := s.seeds + {id},
       nouns := if id in s.nouns then s.nouns[id := s.nouns[id].(seed := Some(id))] else s.nouns)
  }

  // ----- effects, field by field -----

  /** Everything in the governance entity but the number of delegates ever created. */
  function Core(g: Governance): Governance {
    g.(totalDelegates := 0)
  }

  /** A handler of token events leaves proposals, votes and quorum parameters alone. */
  ghost predicate ProposalsUnchanged(s: State, s': State) {
    s'.proposals == s.proposals && s'.votes == s.votes && s'.dqParams == s.dqParams
  }

  function ReceivingDelegate(s: State, to: Address): Address {
    if AccountOf(s, to).delegate.Some? then AccountOf(s, to).delegate.value else to
  }

  function HolderAfter(s: State, from: Address, to: Address, id: TokenId, a: Address): Account {
    if a == to then ToHolderAfter(AccountOf(s, to), to, id)
    else if a == from && from != ZERO_ADDRESS then FromHolderAfter(AccountOf(s, from), id)
    else AccountOf(s, a)
  }

  /** The delegate's list once the sender's side is done. */
  function KeptList(s: State, from: Address, id: TokenId, d: Address): seq<TokenId> {
    var list := DelegateOf(s, d).nounsRepresented;
    if from != ZERO_ADDRESS && AccountOf(s, from).delegate == Some(d) then FilterOut(list, [id]) else list
  }

  function RepresentedAfter(s: State, from: Address, to: Address, id: TokenId, d: Address): seq<TokenId> {
    if d == ReceivingDelegate(s, to) then KeptList(s, from, id, d) + [id] else KeptList(s, from, id, d)
  }

  function GovernanceAfter(s: State, from: Address, to: Address): Governance {
    var g := GovernanceOf(s);
    Core(g).(
      totalTokenHolders := g.totalTokenHolders
        + (if from == ZERO_ADDRESS then 1 else 0) - (if to == ZERO_ADDRESS then 1 else 0),
      currentTokenHolders := g.currentTokenHolders
        - (if from != ZERO_ADDRESS && AccountOf(s, from).tokenBalanceRaw == 1 then 1 else 0)
        + (if AccountOf(s, to).tokenBalanceRaw == 0 then 1 else 0))
  }

  lemma FromSideEffect(s: State, from: Address, holder: Account, g: Governance, id: TokenId)
    requires Core(GovernanceOf(s)) == Core(g)
    ensures var (s', g') := FromSide(s, from, holder, g, id);
      && s'.accounts == s.accounts[from := FromHolderAfter(holder, id)]
      && s'.nouns == s.nouns && s'.seeds == s.seeds && ProposalsUnchanged(s, s')
      && Core(GovernanceOf(s')) == Core(g')
      && g' == g.(currentTokenHolders := g.currentTokenHolders - if holder.tokenBalanceRaw == 1 then 1 else 0)
  {
    hide FilterOut, FromHolderAfter;
  }

  lemma FromSideDelegate(s: State, from: Address, holder: Account, g: Governance, id: TokenId, d: Address)
    ensures DelegateOf(FromSide(s, from, holder, g, id).0, d)
         == if holder.delegate == Some(d)
            then DelegateOf(s, d).(nounsRepresented := FilterOut(DelegateOf(s, d).nounsRepresented, [id]))
            else DelegateOf(s, d)
  {
    hide FilterOut, FromHolderAfter;
  }

  lemma BeforeReceiptDelegate(s: State, from: Address, to: Address, id: TokenId, d: Address)
    ensures DelegateOf(BeforeReceipt(s, from, to, id).0, d) == DelegateOf(s, d).(nounsRepresented := KeptList(s, from, id, d))
  {
    var s0 := CreateAccount(CreateAccount(s, from), to);
    CreateAccountKeeps(s, from);
    CreateAccountKeeps(CreateAccount(s, from), to);
    assert s0.delegates == s.delegates;
    hide FilterOut, FromSide, CreateAccount, AccountOf, GovernanceOf;
    FromSideDelegate(s0, from, AccountOf(s, from), GovernanceOf(s), id, d);
  }

  lemma BeforeReceiptRest(s: State, from: Address, to: Address, id: TokenId)
    ensures var (s', g') := BeforeReceipt(s, from, to, id);
      && s'.accounts == (
           var created := CreateAccount(CreateAccount(s, from), to).accounts;
           if from == ZERO_ADDRESS then created else created[from := FromHolderAfter(AccountOf(s, from), id)])
      && s'.nouns == s.nouns && s'.seeds == s.seeds && ProposalsUnchanged(s, s')
      && Core(GovernanceOf(s')) == Core(g')
      && Core(g').(currentTokenHolders := 0) == GovernanceAfter(s, from, to).(currentTokenHolders := 0)
      && g'.currentTokenHolders == GovernanceOf(s).currentTokenHolders
           - (if from != ZERO_ADDRESS && AccountOf(s, from).tokenBalanceRaw == 1 then 1 else 0)
  {
    var s0 := CreateAccount(CreateAccount(s, from), to);
    CreateAccountKeeps(s, from);
    CreateAccountKeeps(CreateAccount(s, from), to);
    hide FromSide, FromHolderAfter, CreateAccount, AccountOf;
    if from != ZERO_ADDRESS {
      FromSideEffect(s0, from, AccountOf(s, from), GovernanceOf(s), id);
    }
  }

  lemma ToSideAccounts(s: State, to: Address, holder: Account, g: Governance, id: TokenId)
    ensures ToSide(s, to, holder, g, id).accounts == s.accounts[to := ToHolderAfter(holder, to, id)]
  {
    hide ToHolderAfter;
  }

  lemma CreateDelegateKeeps(s: State, d: Address)
    ensures var s' := CreateDelegate(s, d);
      && s'.accounts == s.accounts && s'.nouns == s.nouns && s'.seeds == s.seeds && ProposalsUnchanged(s, s')
      && Core(GovernanceOf(s')) == Core(GovernanceOf(s))
    ensures forall e :: DelegateOf(CreateDelegate(s, d), e) == DelegateOf(s, e)
  {
  }

  lemma CreateAccountKeeps(s: State, a: Address)
    ensures var s' := CreateAccount(s, a);
      && s'.delegates == s.delegates && s'.governance == s.governance
      && s'.nouns == s.nouns && s'.seeds == s.seeds && ProposalsUnchanged(s, s')
    ensures forall b :: AccountOf(CreateAccount(s, a), b) == AccountOf(s, b)
  {
  }

  lemma ToSideRest(s: State, to: Address, holder: Account, g: Governance, id: TokenId)
    ensures var s' := ToSide(s, to, holder, g, id);
      && s'.nouns == s.nouns[id := Noun(if id in s.nouns then s.nouns[id].seed else None, to)]
      && s'.seeds == s.seeds && ProposalsUnchanged(s, s')
      && Core(GovernanceOf(s')) ==
           if holder.tokenBalanceRaw == 0 then Core(g.(currentTokenHolders := g.currentTokenHolders + 1))
           else Core(GovernanceOf(s))
  {
    hide ToHolderAfter, CreateDelegate, DelegateOf;
    CreateDelegateKeeps(s, if holder.delegate.Some? then holder.delegate.value else to);
  }

  lemma TransferAccount(s: State, from: Address, to: Address, id: TokenId, a: Address)
    ensures AccountOf(AfterTransfer(s, from, to, id), a) == HolderAfter(s, from, to, id, a)
    ensures AfterTransfer(s, from, to, id).accounts.Keys == s.accounts.Keys + {from, to}
  {
    hide BeforeReceipt, ToSide, FromHolderAfter, ToHolderAfter, GovernanceAfter, Core;
    BeforeReceiptRest(s, from, to, id);
    var (s1, g1) := BeforeReceipt(s, from, to, id);
    ToSideAccounts(s1, to, AccountOf(s, to), g1, id);
  }

  lemma TransferDelegate(s: State, from: Address, to: Address, id: TokenId, d: Address)
    ensures DelegateOf(AfterTransfer(s, from, to, id), d)
         == DelegateOf(s, d).(nounsRepresented := RepresentedAfter(s, from, to, id, d))
  {
    hide BeforeReceipt, FilterOut, ToHolderAfter, KeptList;
    BeforeReceiptDelegate(s, from, to, id, d);
  }

  lemma TransferRest(s: State, from: Address, to: Address, id: TokenId)
    ensures var s' := AfterTransfer(s, from, to, id);
      && s'.nouns == s.nouns[id := Noun(if id in s.nouns then s.nouns[id].seed else None, to)]
      && s'.seeds == s.seeds && ProposalsUnchanged(s, s')
      && Core(GovernanceOf(s')) == GovernanceAfter(s, from, to)
  {
    hide BeforeReceipt, ToSide, AccountOf, GovernanceOf;
    BeforeReceiptRest(s, from, to, id);
    var (s1, g1) := BeforeReceipt(s, from, to, id);
    ToSideRest(s1, to, AccountOf(s, to), g1, id);
  }

  /** The delegate's list after a change of delegate. If both delegates are the same, the second save wins. */
  function RedelegatedList(s: State, delegator: Address, fromDelegate: Address, toDelegate: Address, d: Address): seq<TokenId> {
    var list, moved := DelegateOf(s, d).nounsRepresented, AccountOf(s, delegator).nouns;
    if d == toDelegate then list + moved
    else if d == fromDelegate then FilterOut(list, moved)
    else list
  }

  lemma DelegationDelegate(s: State, delegator: Address, fromDelegate: Address, toDelegate: Address, d: Address)
    ensures var s' := AfterDelegateChanged(s, delegator, fromDelegate, toDelegate);
      && DelegateOf(s', d).nounsRepresented == RedelegatedList(s, delegator, fromDelegate, toDelegate, d)
      && DelegateOf(s', d).delegatedVotesRaw == DelegateOf(s, d).delegatedVotesRaw
  {
    hide FilterOut;
  }

  lemma DelegationRest(s: State, delegator: Address, fromDelegate: Address, toDelegate: Address, a: Address)
    ensures var s' := AfterDelegateChanged(s, delegator, fromDelegate, toDelegate);
      && AccountOf(s', a) == (if a == delegator then AccountOf(s, a).(delegate := Some(toDelegate)) else AccountOf(s, a))
      && s'.accounts.Keys == s.accounts.Keys + {delegator}
      && s'.nouns == s.nouns && s'.seeds == s.seeds && ProposalsUnchanged(s, s')
      && Core(GovernanceOf(s')) == Core(GovernanceOf(s))
  {
    hide FilterOut;
  }
}
