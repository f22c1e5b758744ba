/** When the count of delegates ever created is right: late saves of an early governance copy undo increments. */
module DelegateCount {
  import opened Entities
  import opened LedgerSpec
  import opened Ledger
  import Sums

  ghost function NonZero(ids: set<Address>): set<Address> {
    ids - {ZERO_ADDRESS}
  }

  ghost predicate DelegatesCounted(s: State) {
    GovernanceOf(s).totalDelegates == |NonZero(s.delegates.Keys)|
  }

  /** The event creates no delegate other than the zero address. */
  predicate Known(s: State, d: Address) {
    d in s.delegates || d == ZERO_ADDRESS
  }

  lemma OneMoreId(ids: set<Address>, d: Address)
    ensures |NonZero(ids + {d})| == |NonZero(ids)| + if d in ids || d == ZERO_ADDRESS then 0 else 1
  {
    if d in ids || d == ZERO_ADDRESS {
      assert NonZero(ids + {d}) == NonZero(ids);
    } else {
      assert NonZero(ids + {d}) == NonZero(ids) + {d};
    }
  }

  lemma OneMoreDelegate(s: State, s': State, d: Address)
    requires s'.delegates.Keys == s.delegates.Keys + {d}
    ensures |NonZero(s'.delegates.Keys)| == |NonZero(s.delegates.Keys)| + if Known(s, d) then 0 else 1
  {
    OneMoreId(s.delegates.Keys, d);
    hide NonZero;
  }

  lemma CreationIsCounted(s: State, d: Address, s': State)
    requires DelegatesCounted(s) && s' == CreateDelegate(s, d)
    ensures DelegatesCounted(s')
  {
    hide NonZero;
    assert s'.delegates.Keys == s.delegates.Keys + {d};
    OneMoreDelegate(s, s', d);
  }

  /** A change of delegate counts every delegate it creates. */
  lemma DelegationIsCounted(s: State, delegator: Address, fromDelegate: Address, toDelegate: Address)
    requires DelegatesCounted(s)
    ensures DelegatesCounted(AfterDelegateChanged(s, delegator, fromDelegate, toDelegate))
  {
    hide NonZero, Sums.FilterOut;
    var s0 := CreateAccount(s, delegator);
    var s1 := CreateDelegate(s0, fromDelegate);
    var s2 := CreateDelegate(s1, toDelegate);
    CreationIsCounted(s0, fromDelegate, s1);
    CreationIsCounted(s1, toDelegate, s2);
    var s' := AfterDelegateChanged(s, delegator, fromDelegate, toDelegate);
    SameKeys(s, delegator, fromDelegate, toDelegate, s2, s');
    hide AfterDelegateChanged, CreateDelegate;
  }

  lemma SameKeys(s: State, delegator: Address, fromDelegate: Address, toDelegate: Address, s2: State, s': State)
    requires s2 == CreateDelegate(CreateDelegate(CreateAccount(s, delegator), fromDelegate), toDelegate)
    requires s' == AfterDelegateChanged(s, delegator, fromDelegate, toDelegate)
    ensures s'.delegates.Keys == s2.delegates.Keys && s'.governance == s2.governance
  {
    hide Sums.FilterOut, DelegateOf, AccountOf, GovernanceOf;
  }

  /** A change of votes loses the count exactly when it creates the delegate. */
  lemma VotesChangeIsCountedIffKnown(s: State, d: Address, previousBalance: nat, newBalance: nat)
    requires DelegatesCounted(s)
    ensures DelegatesCounted(AfterVotesChanged(s, d, previousBalance, newBalance)) <==> Known(s, d)
  {
    OneMoreDelegate(s, AfterVotesChanged(s, d, previousBalance, newBalance), d);
  }

  lemma HoldersDelegateExists(s: State, a: Address)
    requires LedgerOk(s) && AccountOf(s, a).nouns != []
    ensures AccountOf(s, a).delegate.Some? && AccountOf(s, a).delegate.value in s.delegates
    ensures AccountOf(s, a).tokenBalanceRaw > 0
  {
    var t := AccountOf(s, a).nouns[0];
    assert AccountOk(s, a) && OwnsOk(s, a, t);
    Sums.OccursIn(AccountOf(s, a).nouns, t);
    assert RepresentsOk(s, AccountOf(s, a).delegate.value, t);
  }

  lemma BeforeReceiptDelegates(s: State, from: Address, to: Address, id: TokenId)
    requires from != ZERO_ADDRESS && AccountOf(s, from).delegate.Some? ==> AccountOf(s, from).delegate.value in s.delegates
    ensures var (s', g') := BeforeReceipt(s, from, to, id);
      && s'.delegates.Keys == s.delegates.Keys
      && GovernanceOf(s').totalDelegates == g'.totalDelegates == GovernanceOf(s).totalDelegates
  {
    hide Sums.FilterOut, FromHolderAfter;
  }

  lemma ToSideDelegates(s: State, to: Address, holder: Account, g: Governance, id: TokenId)
    requires GovernanceOf(s).totalDelegates == g.totalDelegates
    requires holder.tokenBalanceRaw == 0 || (holder.delegate.Some? && holder.delegate.value in s.delegates)
    ensures var s' := ToSide(s, to, holder, g, id);
      && s'.delegates.Keys == s.delegates.Keys + {if holder.delegate.Some? then holder.delegate.value else to}
      && GovernanceOf(s').totalDelegates == g.totalDelegates
  {
    hide ToHolderAfter;
  }

  /** A transfer that fits never changes the count, so it loses it exactly when the receiver's delegate is new. */
  lemma TransferIsCountedIffKnown(s: State, from: Address, to: Address, id: TokenId)
    requires DelegatesCounted(s) && LedgerOk(s) && TransferFits(s, from, to, id)
    ensures DelegatesCounted(AfterTransfer(s, from, to, id)) <==> Known(s, ReceivingDelegate(s, to))
  {
    if from != ZERO_ADDRESS {
      assert OwnsOk(s, from, id);
      Sums.OccursIn(AccountOf(s, from).nouns, id);
      HoldersDelegateExists(s, from);
    }
    if AccountOf(s, to).nouns != [] {
      HoldersDelegateExists(s, to);
    }
    assert AccountOk(s, to);
    hide LedgerOk, TransferFits, BeforeReceipt, ToSide;
    var (s1, g1) := BeforeReceipt(s, from, to, id);
    BeforeReceiptDelegates(s, from, to, id);
    ToSideDelegates(s1, to, AccountOf(s, to), g1, id);
    OneMoreDelegate(s, AfterTransfer(s, from, to, id), ReceivingDelegate(s, to));
  }
}
