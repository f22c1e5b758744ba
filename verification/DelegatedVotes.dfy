/** The ledger of delegated votes: the governance totals against the delegates' own numbers. */
module DelegatedVotes {
  import opened Sums
  import opened Entities
  import opened LedgerSpec

  /** The delegates with votes. */
  ghost function VotesOf(s: State): map<Address, int> {
    map d | d in s.delegates && DelegateOf(s, d).delegatedVotesRaw != 0 :: DelegateOf(s, d).delegatedVotesRaw
  }

  /** The global sum is the sum over all delegates, and `currentDelegates` counts those with votes. */
  ghost predicate VotesOk(s: State) {
    && (forall d :: DelegateOf(s, d).delegatedVotesRaw >= 0)
    && GovernanceOf(s).delegatedVotesRaw == Sum(VotesOf(s))
    && GovernanceOf(s).currentDelegates == |VotesOf(s)|
  }

  ghost predicate SameVotes(s: State, s': State) {
    && (forall d :: DelegateOf(s', d).delegatedVotesRaw == DelegateOf(s, d).delegatedVotesRaw)
    && GovernanceOf(s').delegatedVotesRaw == GovernanceOf(s).delegatedVotesRaw
    && GovernanceOf(s').currentDelegates == GovernanceOf(s).currentDelegates
  }

  /** Creating delegates, or writing back a governance copy read earlier, does not disturb the votes. */
  lemma SameVotesIsOk(s: State, s': State)
    requires SameVotes(s, s') && VotesOk(s)
    ensures VotesOk(s')
  {
    VotesOfLookup(s);
    VotesOfLookup(s');
    assert VotesOf(s') == VotesOf(s);
  }

  lemma VotesOfLookup(s: State)
    ensures forall d :: d in VotesOf(s) <==> DelegateOf(s, d).delegatedVotesRaw != 0
    ensures forall d :: d in VotesOf(s) ==> VotesOf(s)[d] == DelegateOf(s, d).delegatedVotesRaw
  {
  }

  /** The event reports the stored number as the previous one, and is not a change from zero to zero. */
  predicate VotesChangeFits(s: State, d: Address, previousBalance: nat, newBalance: nat) {
    && DelegateOf(s, d).delegatedVotesRaw == previousBalance
    && !(previousBalance == 0 && newBalance == 0)
  }

  lemma VotesOfAfter(s: State, d: Address, previousBalance: nat, newBalance: nat)
    ensures VotesOf(AfterVotesChanged(s, d, previousBalance, newBalance))
         == if newBalance == 0 then VotesOf(s) - {d} else VotesOf(s)[d := newBalance]
  {
    VotesOfLookup(s);
    var s' := AfterVotesChanged(s, d, previousBalance, newBalance);
    VotesOfLookup(s');
    assert forall e :: e != d ==> DelegateOf(s', e) == DelegateOf(s, e);
    assert DelegateOf(s', d).delegatedVotesRaw == newBalance;
    hide AfterVotesChanged, DelegateOf, VotesOf;
  }

  /** A change of votes keeps the totals right if and only if the event fits the stored number. */
  lemma VotesChangeKeepsTotalsIffFits(s: State, d: Address, previousBalance: nat, newBalance: nat)
    requires VotesOk(s)
    ensures VotesOk(AfterVotesChanged(s, d, previousBalance, newBalance)) <==> VotesChangeFits(s, d, previousBalance, newBalance)
  {
    var s' := AfterVotesChanged(s, d, previousBalance, newBalance);
    VotesOfLookup(s);
    VotesOfAfter(s, d, previousBalance, newBalance);
    SumAfter(VotesOf(s), d, newBalance);
    assert forall e :: e != d ==> DelegateOf(s', e) == DelegateOf(s, e);
    hide VotesOf;
  }
}
