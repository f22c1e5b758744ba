/**
 * The token ledger: ownership, representation and the governance counters are redundant views of the same tokens.
 * For each handler, the exact events that keep them in agreement.
 */
module Ledger {
  import opened Options
  import opened Sums
  import opened Entities
  import opened LedgerSpec

  // ----- the ledger invariant -----

  /** An account's list has as many tokens as its balance says, and a holder has a delegate. */
  ghost predicate AccountOk(s: State, a: Address) {
    var h := AccountOf(s, a);
    && h.tokenBalanceRaw == h.tokenBalance == |h.nouns|
    && (h.nouns != [] ==> h.delegate.Some?)
  }

  /** Token t is in the list of its owner once, and in no other list. */
  ghost predicate OwnsOk(s: State, a: Address, t: TokenId) {
    Occurs(AccountOf(s, a).nouns, t) == if t in s.nouns && s.nouns[t].owner == a then 1 else 0
  }

  /** Token t is represented once by the current delegate of its owner, and by nobody else. */
  ghost predicate RepresentsOk(s: State, d: Address, t: TokenId) {
    Occurs(DelegateOf(s, d).nounsRepresented, t)
    == if t in s.nouns && AccountOf(s, s.nouns[t].owner).delegate == Some(d) then 1 else 0
  }

  /** Tokens minted and not burned; burned tokens are held by the zero address. */
  ghost predicate SupplyOk(s: State) {
    GovernanceOf(s).totalTokenHolders == |s.nouns| - AccountOf(s, ZERO_ADDRESS).tokenBalanceRaw
  }

  ghost function Holders(s: State): set<Address> {
    set a | a in s.accounts && AccountOf(s, a).tokenBalanceRaw > 0
  }

  ghost predicate HoldersOk(s: State) {
    GovernanceOf(s).currentTokenHolders == |Holders(s)|
  }

  ghost predicate LedgerOk(s: State) {
    && (forall a :: AccountOk(s, a))
    && (forall a, t :: OwnsOk(s, a, t))
    && (forall d, t :: RepresentsOk(s, d, t))
    && SupplyOk(s) && HoldersOk(s)
  }

  lemma EmptyLedgerOk()
    ensures LedgerOk(EMPTY_STORE)
  {
    assert Holders(EMPTY_STORE) == {};
  }

  // ----- transfers -----

  /** The sender owns the token, or it is new. A sender does not send to itself. */
  predicate OwnershipFits(s: State, from: Address, to: Address, id: TokenId) {
    if from == ZERO_ADDRESS then id !in s.nouns
    else id in s.nouns && s.nouns[id].owner == from && from != to
  }

  /** A receiver without tokens has not delegated to somebody else beforehand. */
  predicate ReceiverFits(s: State, to: Address) {
    var h := AccountOf(s, to);
    h.nouns == [] ==> h.delegate == None || h.delegate == Some(to)
  }

  predicate TransferFits(s: State, from: Address, to: Address, id: TokenId) {
    OwnershipFits(s, from, to, id) && ReceiverFits(s, to)
  }

  lemma TransferOwns(s: State, from: Address, to: Address, id: TokenId, s': State, a: Address, t: TokenId)
    requires s' == AfterTransfer(s, from, to, id)
    requires OwnershipFits(s, from, to, id) && OwnsOk(s, a, t)
    ensures OwnsOk(s', a, t)
  {
    hide AfterTransfer, ReceiverFits;
    TransferAccount(s, from, to, id, a);
    TransferRest(s, from, to, id);
    hide GovernanceAfter, Core, AccountOf, FilterOut, Occurs;
    var list := AccountOf(s, a).nouns;
    OccursAppend(list, [id], t);
    OccursSingle(id, t);
    OccursFilterOut(list, [id], t);
  }

  lemma HoldsTwo(list: seq<nat>, t: nat, u: nat)
    requires t != u && Occurs(list, t) >= 1 && Occurs(list, u) >= 1
    ensures |list| >= 2
  {
    OccursIn(list, t);
    OccursIn(list, u);
  }

  /** A token other than the one transferred: its owner's delegate stays the same. */
  lemma OtherOwnersDelegate(s: State, from: Address, to: Address, id: TokenId, s': State, t: TokenId)
    requires s' == AfterTransfer(s, from, to, id) && OwnershipFits(s, from, to, id)
    requires t != id && t in s.nouns
    requires var o := s.nouns[t].owner; AccountOk(s, o) && OwnsOk(s, o, t) && OwnsOk(s, from, id)
    ensures AccountOf(s', s.nouns[t].owner).delegate == AccountOf(s, s.nouns[t].owner).delegate
  {
    hide AfterTransfer, ReceiverFits;
    var o := s.nouns[t].owner;
    TransferAccount(s, from, to, id, o);
    hide AccountOf, FilterOut;
    OccursIn(AccountOf(s, o).nouns, t);
    if o == from && from != ZERO_ADDRESS {
      HoldsTwo(AccountOf(s, o).nouns, t, id);
    }
  }

  lemma OtherTokensStayListed(s: State, from: Address, to: Address, id: TokenId, s': State, d: Address, t: TokenId)
    requires s' == AfterTransfer(s, from, to, id) && t != id
    ensures Occurs(DelegateOf(s', d).nounsRepresented, t) == Occurs(DelegateOf(s, d).nounsRepresented, t)
  {
    hide AfterTransfer;
    TransferDelegate(s, from, to, id, d);
    hide AccountOf, FilterOut, Occurs;
    var list := DelegateOf(s, d).nounsRepresented;
    OccursFilterOut(list, [id], t);
    OccursSingle(id, t);
    OccursAppend(KeptList(s, from, id, d), [id], t);
  }

  lemma TransferRepresentsOther(s: State, from: Address, to: Address, id: TokenId, s': State, d: Address, t: TokenId)
    requires s' == AfterTransfer(s, from, to, id) && OwnershipFits(s, from, to, id) && t != id
    requires RepresentsOk(s, d, t) && OwnsOk(s, from, id)
    requires t in s.nouns ==> AccountOk(s, s.nouns[t].owner) && OwnsOk(s, s.nouns[t].owner, t)
    ensures RepresentsOk(s', d, t)
  {
    hide AfterTransfer;
    OtherTokensStayListed(s, from, to, id, s', d, t);
    TransferRest(s, from, to, id);
    if t in s.nouns {
      OtherOwnersDelegate(s, from, to, id, s', t);
    }
    hide GovernanceAfter, Core, AccountOf, DelegateOf, Occurs, OwnershipFits, OwnsOk, AccountOk;
  }

  /** The transferred token: taken off the sender's delegate, given to the receiver's. */
  lemma TransferRepresentsMoved(s: State, from: Address, to: Address, id: TokenId, s': State, d: Address)
    requires s' == AfterTransfer(s, from, to, id) && TransferFits(s, from, to, id)
    requires RepresentsOk(s, d, id) && AccountOk(s, to)
    ensures RepresentsOk(s', d, id)
  {
    hide AfterTransfer;
    TransferDelegate(s, from, to, id, d);
    TransferAccount(s, from, to, id, to);
    TransferRest(s, from, to, id);
    hide GovernanceAfter, Core, AccountOf, FilterOut, Occurs;
    var list := DelegateOf(s, d).nounsRepresented;
    OccursFilterOut(list, [id], id);
    OccursSingle(id, id);
    OccursAppend(KeptList(s, from, id, d), [id], id);
  }

  lemma TransferAccountOk(s: State, from: Address, to: Address, id: TokenId, s': State, a: Address)
    requires s' == AfterTransfer(s, from, to, id) && OwnershipFits(s, from, to, id)
    requires AccountOk(s, a) && OwnsOk(s, from, id)
    ensures AccountOk(s', a)
  {
    hide AfterTransfer;
    TransferAccount(s, from, to, id, a);
    FilterOneLength(AccountOf(s, from).nouns, id);
    hide AccountOf, FilterOut;
  }

  lemma MintedCount(s: State, from: Address, to: Address, id: TokenId, s': State)
    requires s' == AfterTransfer(s, from, to, id)
    ensures |s'.nouns| == |s.nouns| + if id in s.nouns then 0 else 1
  {
    hide AfterTransfer;
    TransferRest(s, from, to, id);
    hide GovernanceAfter, Core, GovernanceOf;
    assert |s'.nouns.Keys| == |s'.nouns| && |s.nouns.Keys| == |s.nouns|;
    assert s'.nouns.Keys == s.nouns.Keys + {id};
  }

  lemma TransferSupply(s: State, from: Address, to: Address, id: TokenId, s': State)
    requires s' == AfterTransfer(s, from, to, id) && SupplyOk(s)
    ensures from == ZERO_ADDRESS || from != to ==> (SupplyOk(s') <==> (from == ZERO_ADDRESS <==> id !in s.nouns))
    ensures from == to != ZERO_ADDRESS ==> (SupplyOk(s') <==> id in s.nouns)
  {
    hide AfterTransfer;
    MintedCount(s, from, to, id, s');
    TransferAccount(s, from, to, id, ZERO_ADDRESS);
    TransferRest(s, from, to, id);
    hide AccountOf, FilterOut;
  }

  lemma FitsMintsNew(s: State, from: Address, to: Address, id: TokenId)
    requires OwnershipFits(s, from, to, id)
    ensures from == ZERO_ADDRESS <==> id !in s.nouns
    ensures from == ZERO_ADDRESS || from != to
  {
  }

  lemma HoldersAfter(s: State, from: Address, to: Address, id: TokenId, s': State)
    requires s' == AfterTransfer(s, from, to, id) && OwnershipFits(s, from, to, id)
    requires AccountOk(s, from) && AccountOk(s, to) && OwnsOk(s, from, id)
    ensures Holders(s') == (if from != ZERO_ADDRESS && AccountOf(s, from).tokenBalanceRaw == 1 then Holders(s) - {from} else Holders(s)) + {to}
    ensures from != ZERO_ADDRESS ==> from in Holders(s)
    ensures to in Holders(s) <==> AccountOf(s, to).tokenBalanceRaw != 0
  {
    hide AfterTransfer;
    TransferAccount(s, from, to, id, from);
    forall a ensures AccountOf(s', a).tokenBalanceRaw == HolderAfter(s, from, to, id, a).tokenBalanceRaw {
      TransferAccount(s, from, to, id, a);
    }
    OccursIn(AccountOf(s, from).nouns, id);
    hide FilterOut;
  }

  lemma TransferHolders(s: State, from: Address, to: Address, id: TokenId, s': State)
    requires s' == AfterTransfer(s, from, to, id) && OwnershipFits(s, from, to, id)
    requires AccountOk(s, from) && AccountOk(s, to) && OwnsOk(s, from, id) && HoldersOk(s)
    ensures HoldersOk(s')
  {
    hide AfterTransfer;
    HoldersAfter(s, from, to, id, s');
    TransferRest(s, from, to, id);
    assert from != ZERO_ADDRESS ==> from != to;
    hide Holders, AccountOf, OwnershipFits, AccountOk, OwnsOk;
    HoldersCount(Holders(s), from, to, from != ZERO_ADDRESS && AccountOf(s, from).tokenBalanceRaw == 1);
  }

  lemma HoldersCount(holders: set<Address>, from: Address, to: Address, lost: bool)
    requires lost ==> from in holders && from != to
    ensures |(if lost then holders - {from} else holders) + {to}|
         == |holders| - (if lost then 1 else 0) + (if to in holders then 0 else 1)
  {
    var kept := if lost then holders - {from} else holders;
    assert to in kept <==> to in holders;
    assert kept + {to} == if to in kept then kept else kept + {to};
  }

  lemma TransferKeepsLedger(s: State, from: Address, to: Address, id: TokenId, s': State)
    requires s' == AfterTransfer(s, from, to, id)
    requires LedgerOk(s) && TransferFits(s, from, to, id)
    ensures LedgerOk(s')
  {
    hide AfterTransfer, AccountOk, OwnsOk, RepresentsOk, SupplyOk, HoldersOk, OwnershipFits, ReceiverFits;
    forall a ensures AccountOk(s', a) { TransferAccountOk(s, from, to, id, s', a); }
    forall a, t ensures OwnsOk(s', a, t) { TransferOwns(s, from, to, id, s', a, t); }
    forall d, t ensures RepresentsOk(s', d, t) {
      if t == id { TransferRepresentsMoved(s, from, to, id, s', d); }
      else { TransferRepresentsOther(s, from, to, id, s', d, t); }
    }
    TransferHolders(s, from, to, id, s');
    FitsMintsNew(s, from, to, id);
    TransferSupply(s, from, to, id, s');
  }

  /** Where each list must show the damage of an event that does not fit. */
  lemma MisfitTransferBreaks(s: State, from: Address, to: Address, id: TokenId, s': State)
    requires s' == AfterTransfer(s, from, to, id)
    requires LedgerOk(s) && !OwnershipFits(s, from, to, id)
    ensures !LedgerOk(s')
  {
    hide AfterTransfer;
    assert OwnsOk(s, to, id) && OwnsOk(s, from, id) && AccountOk(s, from) && AccountOk(s, to) && SupplyOk(s);
    TransferAccount(s, from, to, id, to);
    TransferRest(s, from, to, id);
    OccursAppend(AccountOf(s, to).nouns, [id], id);
    OccursSingle(id, id);
    if id in s.nouns && (from == ZERO_ADDRESS || s.nouns[id].owner != from || from == to) {
      // The receiver's list now shows the token twice, or the owner's list still shows it.
      var o := s.nouns[id].owner;
      OwnedElsewhere(s, from, to, id, s', o);
    } else {
      // The token was never minted: a sender other than zero gives what it does not have.
      NeverMinted(s, from, to, id, s');
    }
  }

  lemma OwnedElsewhere(s: State, from: Address, to: Address, id: TokenId, s': State, o: Address)
    requires s' == AfterTransfer(s, from, to, id) && LedgerOk(s)
    requires id in s.nouns && s.nouns[id].owner == o && (from == ZERO_ADDRESS || o != from || from == to)
    ensures !LedgerOk(s')
  {
    hide AfterTransfer;
    assert OwnsOk(s, o, id);
    TransferAccount(s, from, to, id, o);
    TransferRest(s, from, to, id);
    OccursAppend(AccountOf(s, to).nouns, [id], id);
    OccursSingle(id, id);
    assert !OwnsOk(s', o, id);
  }

  lemma NeverMinted(s: State, from: Address, to: Address, id: TokenId, s': State)
    requires s' == AfterTransfer(s, from, to, id) && LedgerOk(s)
    requires id !in s.nouns && from != ZERO_ADDRESS
    ensures !LedgerOk(s')
  {
    TransferSupply(s, from, to, id, s');
    assert !SupplyOk(s');
  }

  lemma MisfitReceiverBreaks(s: State, from: Address, to: Address, id: TokenId, s': State)
    requires s' == AfterTransfer(s, from, to, id)
    requires LedgerOk(s) && OwnershipFits(s, from, to, id) && !ReceiverFits(s, to)
    ensures !LedgerOk(s')
  {
    hide AfterTransfer;
    var d := AccountOf(s, to).delegate.value;
    assert AccountOk(s, to);
    TransferDelegate(s, from, to, id, d);
    TransferAccount(s, from, to, id, to);
    TransferRest(s, from, to, id);
    OccursSingle(id, id);
    OccursAppend(KeptList(s, from, id, d), [id], id);
    assert !RepresentsOk(s', d, id);
  }

  /** A transfer keeps the ledger in agreement if and only if the event fits. */
  lemma TransferKeepsLedgerIffFits(s: State, from: Address, to: Address, id: TokenId)
    requires LedgerOk(s)
    ensures LedgerOk(AfterTransfer(s, from, to, id)) <==> TransferFits(s, from, to, id)
  {
    hide AfterTransfer, LedgerOk;
    var s' := AfterTransfer(s, from, to, id);
    if TransferFits(s, from, to, id) {
      TransferKeepsLedger(s, from, to, id, s');
    } else if !OwnershipFits(s, from, to, id) {
      MisfitTransferBreaks(s, from, to, id, s');
    } else {
      MisfitReceiverBreaks(s, from, to, id, s');
    }
  }

  // ----- changes of delegate -----

  /** The event names the delegator's current delegate, and a different new one; nothing matters without tokens. */
  predicate DelegationFits(s: State, delegator: Address, fromDelegate: Address, toDelegate: Address) {
    var h := AccountOf(s, delegator);
    h.nouns == [] || (h.delegate == Some(fromDelegate) && fromDelegate != toDelegate)
  }

  lemma DelegationOccurs(s: State, delegator: Address, fromDelegate: Address, toDelegate: Address, s': State,
                         d: Address, t: TokenId)
    requires s' == AfterDelegateChanged(s, delegator, fromDelegate, toDelegate)
    ensures Occurs(DelegateOf(s', d).nounsRepresented, t)
         == var n, moved := Occurs(DelegateOf(s, d).nounsRepresented, t), Occurs(AccountOf(s, delegator).nouns, t);
            if d == toDelegate then n + moved else if d == fromDelegate && moved > 0 then 0 else n
  {
    hide AfterDelegateChanged;
    DelegationDelegate(s, delegator, fromDelegate, toDelegate, d);
    var list, moved := DelegateOf(s, d).nounsRepresented, AccountOf(s, delegator).nouns;
    OccursAppend(list, moved, t);
    OccursFilterOut(list, moved, t);
    OccursIn(moved, t);
    hide AccountOf, DelegateOf, FilterOut, Occurs;
  }

  lemma DelegationRepresents(s: State, delegator: Address, fromDelegate: Address, toDelegate: Address, s': State,
                             d: Address, t: TokenId)
    requires s' == AfterDelegateChanged(s, delegator, fromDelegate, toDelegate)
    requires DelegationFits(s, delegator, fromDelegate, toDelegate)
    requires RepresentsOk(s, d, t) && OwnsOk(s, delegator, t)
    ensures RepresentsOk(s', d, t)
  {
    hide AfterDelegateChanged;
    DelegationOccurs(s, delegator, fromDelegate, toDelegate, s', d, t);
    DelegationRest(s, delegator, fromDelegate, toDelegate, delegator);
    OccursIn(AccountOf(s, delegator).nouns, t);
    hide AccountOf, DelegateOf, Occurs, Core;
    if t in s.nouns {
      DelegationRest(s, delegator, fromDelegate, toDelegate, s.nouns[t].owner);
    }
  }

  lemma DelegationKeepsRest(s: State, delegator: Address, fromDelegate: Address, toDelegate: Address, s': State)
    requires s' == AfterDelegateChanged(s, delegator, fromDelegate, toDelegate) && LedgerOk(s)
    ensures forall a :: AccountOk(s', a)
    ensures forall a, t :: OwnsOk(s', a, t)
    ensures SupplyOk(s') && HoldersOk(s')
  {
    hide AfterDelegateChanged, Core;
    forall a
      ensures AccountOf(s', a) == (if a == delegator then AccountOf(s, a).(delegate := Some(toDelegate)) else AccountOf(s, a))
    {
      DelegationRest(s, delegator, fromDelegate, toDelegate, a);
    }
    DelegationCounts(s, delegator, fromDelegate, toDelegate, s');
    hide AccountOf, Occurs, RepresentsOk, SupplyOk, HoldersOk;
    forall a ensures AccountOk(s', a) { assert AccountOk(s, a); }
    forall a, t ensures OwnsOk(s', a, t) {
      assert OwnsOk(s, a, t);
      DelegationRest(s, delegator, fromDelegate, toDelegate, a);
    }
  }

  lemma DelegationCounts(s: State, delegator: Address, fromDelegate: Address, toDelegate: Address, s': State)
    requires s' == AfterDelegateChanged(s, delegator, fromDelegate, toDelegate)
    ensures SupplyOk(s') == SupplyOk(s) && HoldersOk(s') == HoldersOk(s)
  {
    hide AfterDelegateChanged;
    forall a ensures AccountOf(s', a).tokenBalanceRaw == AccountOf(s, a).tokenBalanceRaw {
      DelegationRest(s, delegator, fromDelegate, toDelegate, a);
    }
    DelegationRest(s, delegator, fromDelegate, toDelegate, delegator);
    assert Holders(s') == Holders(s);
    hide Holders;
  }

  lemma MisfitDelegationBreaks(s: State, delegator: Address, fromDelegate: Address, toDelegate: Address, s': State)
    requires s' == AfterDelegateChanged(s, delegator, fromDelegate, toDelegate)
    requires LedgerOk(s) && !DelegationFits(s, delegator, fromDelegate, toDelegate)
    ensures !LedgerOk(s')
  {
    hide AfterDelegateChanged;
    var moved := AccountOf(s, delegator).nouns;
    var t := moved[0];
    assert AccountOk(s, delegator) && OwnsOk(s, delegator, t);
    OccursIn(moved, t);
    var d := AccountOf(s, delegator).delegate.value;
    assert RepresentsOk(s, d, t) && RepresentsOk(s, toDelegate, t);
    DelegationRest(s, delegator, fromDelegate, toDelegate, delegator);
    DelegationDelegate(s, delegator, fromDelegate, toDelegate, d);
    DelegationDelegate(s, delegator, fromDelegate, toDelegate, toDelegate);
    OccursAppend(DelegateOf(s, toDelegate).nounsRepresented, moved, t);
    hide AccountOf, DelegateOf, FilterOut, Occurs, Core;
    if d == toDelegate {
      assert !RepresentsOk(s', toDelegate, t);
    } else {
      assert !RepresentsOk(s', d, t);
    }
  }

  /** A change of delegate keeps the ledger in agreement if and only if the event fits. */
  lemma DelegationKeepsLedgerIffFits(s: State, delegator: Address, fromDelegate: Address, toDelegate: Address)
    requires LedgerOk(s)
    ensures LedgerOk(AfterDelegateChanged(s, delegator, fromDelegate, toDelegate))
       <==> DelegationFits(s, delegator, fromDelegate, toDelegate)
  {
    var s' := AfterDelegateChanged(s, delegator, fromDelegate, toDelegate);
    hide AfterDelegateChanged, DelegationFits, AccountOk, OwnsOk, RepresentsOk, SupplyOk, HoldersOk;
    if DelegationFits(s, delegator, fromDelegate, toDelegate) {
      DelegationKeepsRest(s, delegator, fromDelegate, toDelegate, s');
      forall d, t ensures RepresentsOk(s', d, t) {
        DelegationRepresents(s, delegator, fromDelegate, toDelegate, s', d, t);
      }
    } else {
      MisfitDelegationBreaks(s, delegator, fromDelegate, toDelegate, s');
    }
  }

  // ----- events that leave the ledger alone -----

  /** Owners, accounts and represented tokens are as before, and so are the token counters. */
  ghost predicate SameLedger(s: State, s': State) {
    && s'.accounts == s.accounts
    && s'.nouns.Keys == s.nouns.Keys && (forall t :: t in s.nouns ==> s'.nouns[t].owner == s.nouns[t].owner)
    && (forall d :: DelegateOf(s', d).nounsRepresented == DelegateOf(s, d).nounsRepresented)
    && GovernanceOf(s').totalTokenHolders == GovernanceOf(s).totalTokenHolders
    && GovernanceOf(s').currentTokenHolders == GovernanceOf(s).currentTokenHolders
  }

  lemma SameLedgerIsOk(s: State, s': State)
    requires SameLedger(s, s') && LedgerOk(s)
    ensures LedgerOk(s')
  {
    assert |s'.nouns| == |s'.nouns.Keys| == |s.nouns|;
    assert Holders(s') == Holders(s);
    forall a, t ensures OwnsOk(s', a, t) { assert OwnsOk(s, a, t); }
    forall d, t ensures RepresentsOk(s', d, t) { assert RepresentsOk(s, d, t); }
    forall a ensures AccountOk(s', a) { assert AccountOk(s, a); }
  }

  // ----- what the agreement says -----

  /** Every minted token is represented exactly once, by the delegate of its owner, and nothing else is represented. */
  lemma RepresentationIsPartition(s: State, t: TokenId)
    requires LedgerOk(s)
    ensures t in s.nouns ==>
      var o := s.nouns[t].owner;
      && AccountOf(s, o).delegate.Some?
      && AccountOf(s, o).delegate.value in s.delegates
      && Occurs(s.delegates[AccountOf(s, o).delegate.value].nounsRepresented, t) == 1
      && forall d :: d in s.delegates && d != AccountOf(s, o).delegate.value ==> t !in s.delegates[d].nounsRepresented
    ensures t !in s.nouns ==> forall d :: d in s.delegates ==> t !in s.delegates[d].nounsRepresented
  {
    forall d | d in s.delegates
      ensures t in s.delegates[d].nounsRepresented
         <==> t in s.nouns && AccountOf(s, s.nouns[t].owner).delegate == Some(d)
    {
      assert RepresentsOk(s, d, t);
      OccursIn(s.delegates[d].nounsRepresented, t);
    }
    if t in s.nouns {
      var o := s.nouns[t].owner;
      assert OwnsOk(s, o, t) && AccountOk(s, o);
      OccursIn(AccountOf(s, o).nouns, t);
      assert RepresentsOk(s, AccountOf(s, o).delegate.value, t);
    }
  }

  ghost function Balances(s: State): map<Address, int> {
    map a | a in s.accounts :: s.accounts[a].tokenBalanceRaw
  }

  ghost function Elements(list: seq<TokenId>): set<TokenId> {
    set t | t in list
  }

  lemma {:induction false} DistinctCount(list: seq<TokenId>)
    requires forall t :: Occurs(list, t) <= 1
    ensures |Elements(list)| == |list|
    decreases |list|
  {
    if list == [] {
      assert Elements(list) == {};
    } else {
      var front, last := list[..|list| - 1], list[|list| - 1];
      assert list == front + [last];
      forall t ensures Occurs(front, t) <= 1 && (t == last ==> Occurs(front, t) == 0) {
        OccursAppend(front, [last], t);
        OccursSingle(last, t);
        assert Occurs(list, t) <= 1;
      }
      OccursIn(front, last);
      DistinctCount(front);
      assert Elements(list) == Elements(front) + {last} && last !in Elements(front);
    }
  }

  ghost function OwnedBy(s: State, owners: set<Address>): set<TokenId> {
    set t | t in s.nouns && s.nouns[t].owner in owners
  }

  lemma OwnedByOne(s: State, a: Address)
    requires LedgerOk(s)
    ensures |OwnedBy(s, {a})| == AccountOf(s, a).tokenBalanceRaw
  {
    var list := AccountOf(s, a).nouns;
    assert AccountOk(s, a);
    forall t ensures Occurs(list, t) <= 1 && (t in list <==> t in OwnedBy(s, {a})) {
      assert OwnsOk(s, a, t);
      OccursIn(list, t);
    }
    DistinctCount(list);
    assert OwnedBy(s, {a}) == Elements(list);
  }

  lemma OwnedBySplits(s: State, owners: set<Address>, a: Address)
    requires a !in owners
    ensures |OwnedBy(s, owners + {a})| == |OwnedBy(s, owners)| + |OwnedBy(s, {a})|
  {
    assert OwnedBy(s, owners + {a}) == OwnedBy(s, owners) + OwnedBy(s, {a});
    assert OwnedBy(s, owners) * OwnedBy(s, {a}) == {};
  }

  lemma {:induction false} BalancesCountTokens(s: State, balances: map<Address, int>)
    requires LedgerOk(s)
    requires forall a :: a in balances ==> balances[a] == AccountOf(s, a).tokenBalanceRaw
    ensures Sum(balances) == |OwnedBy(s, balances.Keys)|
    decreases |balances|
  {
    hide LedgerOk, AccountOf;
    if balances == map[] {
      assert OwnedBy(s, balances.Keys) == {};
    } else {
      var a :| a in balances && Sum(balances) == balances[a] + Sum(balances - {a});
      var rest := balances - {a};
      BalancesCountTokens(s, rest);
      OwnedByOne(s, a);
      OwnedBySplits(s, rest.Keys, a);
      assert balances.Keys == rest.Keys + {a};
    }
  }

  /** Conservation: all balances together are the number of tokens ever minted. */
  lemma BalancesSumToTokens(s: State)
    requires LedgerOk(s)
    ensures Sum(Balances(s)) == |s.nouns|
  {
    BalancesCountTokens(s, Balances(s));
    forall t | t in s.nouns ensures s.nouns[t].owner in s.accounts {
      var o := s.nouns[t].owner;
      assert OwnsOk(s, o, t);
      OccursIn(AccountOf(s, o).nouns, t);
    }
    assert OwnedBy(s, Balances(s).Keys) == s.nouns.Keys;
  }
}
