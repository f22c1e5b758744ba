/** The web app's current auction, fed by websocket events that may come in any order and more than once. */
module AuctionSlice {
  import opened Options

  datatype Auction = Auction(amount: nat, bidder: string, startTime: nat, endTime: nat, unounId: nat, settled: bool)
  datatype BidEvent = BidEvent(unounId: nat, sender: string, value: nat, extended: bool, transactionHash: string, timestamp: nat)
  datatype AuctionState = AuctionState(activeAuction: Option<Auction>, bids: seq<BidEvent>)

  /** `bids.reduce(...)`: of equal bids the one further back is kept. */
  function MaxBid(bids: seq<BidEvent>): BidEvent
    requires bids != []
  {
    if |bids| == 1 then bids[0]
    else
      var prev, current := MaxBid(bids[..|bids| - 1]), bids[|bids| - 1];
      if prev.value > current.value then prev else current
  }

  predicate ContainsBid(bids: seq<BidEvent>, bid: BidEvent) {
    exists i :: 0 <= i < |bids| && bids[i].transactionHash == bid.transactionHash
  }

  function ReduxSafeNewAuction(id: nat, startTime: nat, endTime: nat): Auction {
    Auction(0, "", startTime, endTime, id, false)
  }

  function SetActive(id: nat, startTime: nat, endTime: nat): AuctionState {
    AuctionState(Some(ReduxSafeNewAuction(id, startTime, endTime)), [])
  }

  function Append(state: AuctionState, bid: BidEvent): AuctionState {
    if state.activeAuction == None || state.activeAuction.value.unounId != bid.unounId then state
    else if ContainsBid(state.bids, bid) then state
    else
      var bids := [bid] + state.bids;
      var max := MaxBid(bids);
      AuctionState(Some(state.activeAuction.value.(amount := max.value, bidder := max.sender)), bids)
  }

  function AppendAll(state: AuctionState, events: seq<BidEvent>): AuctionState {
    if events == [] then state else Append(AppendAll(state, events[..|events| - 1]), events[|events| - 1])
  }

  class Slice {
    var activeAuction: Option<Auction>
    var bids: seq<BidEvent>

    constructor ()
      ensures activeAuction == None && bids == []
    {
      activeAuction, bids := None, [];
    }

    ghost function View(): AuctionState
      reads this
    {
      AuctionState(activeAuction, bids)
    }

    method SetActiveAuction(id: nat, startTime: nat, endTime: nat)
      modifies this
      ensures View() == SetActive(id, startTime, endTime)
    {
      activeAuction := Some(ReduxSafeNewAuction(id, startTime, endTime));
      bids := [];
    }

    method AppendBid(bid: BidEvent)
      modifies this
      ensures View() == Append(old(View()), bid)
    {
      if !(activeAuction.Some? && activeAuction.value.unounId == bid.unounId) {
        return;
      }
      if ContainsBid(bids, bid) {
        return;
      }
      bids := [bid] + bids;
      var max := FindMaxBid(bids);
      activeAuction := Some(activeAuction.value.(amount := max.value, bidder := max.sender));
    }

    method FindMaxBid(bids: seq<BidEvent>) returns (max: BidEvent)
      requires bids != []
      ensures max == MaxBid(bids)
    {
      max := bids[0];
      for i := 1 to |bids|
        invariant max == MaxBid(bids[..i])
      {
        assert bids[..i + 1][..i] == bids[..i];
        max := if max.value > bids[i].value then max else bids[i];
      }
      assert bids[..|bids|] == bids;
    }
  }

  // ----- what any sequence of bid events leaves behind -----

  /** One transaction makes one bid. */
  ghost predicate OneBidPerHash(events: set<BidEvent>) {
    forall a, b :: a in events && b in events && a.transactionHash == b.transactionHash ==> a == b
  }

  /** The bids of auction `id` among the events. */
  ghost function BidsOf(events: seq<BidEvent>, id: nat): set<BidEvent> {
    set b | b in events && b.unounId == id
  }

  ghost function BidSet(bids: seq<BidEvent>): set<BidEvent> {
    set b | b in bids
  }

  lemma {:induction false} MaxBidIsLast(bids: seq<BidEvent>)
    requires bids != []
    ensures MaxBid(bids) in bids
    ensures forall b :: b in bids ==> b.value <= MaxBid(bids).value
    decreases |bids|
  {
    if |bids| > 1 {
      var front := bids[..|bids| - 1];
      MaxBidIsLast(front);
      assert bids == front + [bids[|bids| - 1]];
    }
  }

  /** Of the bids of greatest value, the one at the back of the list (the earliest) is the maximum. */
  lemma {:induction false} BackBidWins(bids: seq<BidEvent>)
    requires bids != [] && forall b :: b in bids ==> b.value <= bids[|bids| - 1].value
    ensures MaxBid(bids) == bids[|bids| - 1]
    decreases |bids|
  {
    if |bids| > 1 {
      MaxBidIsLast(bids[..|bids| - 1]);
    }
  }

  /** The amount and bidder shown are those of the greatest bid stored, or of nobody before the first. */
  ghost predicate Shows(state: AuctionState, id: nat, startTime: nat, endTime: nat) {
    state.activeAuction == Some(
      if state.bids == [] then ReduxSafeNewAuction(id, startTime, endTime)
      else ReduxSafeNewAuction(id, startTime, endTime).(amount := MaxBid(state.bids).value, bidder := MaxBid(state.bids).sender))
  }

  /** The state holds exactly the given bids, each once, and shows their maximum. */
  ghost predicate Stored(state: AuctionState, id: nat, startTime: nat, endTime: nat, bids: set<BidEvent>) {
    BidSet(state.bids) == bids && |state.bids| == |bids| && Shows(state, id, startTime, endTime)
  }

  lemma OneMoreEvent(state: AuctionState, id: nat, startTime: nat, endTime: nat, bids: set<BidEvent>, bid: BidEvent)
    requires Stored(state, id, startTime, endTime, bids) && OneBidPerHash(bids + {bid})
    requires forall b :: b in bids ==> b.unounId == id
    ensures Stored(Append(state, bid), id, startTime, endTime, if bid.unounId == id then bids + {bid} else bids)
  {
    hide MaxBid;
    assert forall b :: b in state.bids <==> b in BidSet(state.bids);
    assert ContainsBid(state.bids, bid) <==> exists b :: b in bids && b.transactionHash == bid.transactionHash;
    if bid.unounId == id {
      if ContainsBid(state.bids, bid) {
        assert bids + {bid} == bids;
      } else {
        assert BidSet([bid] + state.bids) == BidSet(state.bids) + {bid};
      }
    }
  }

  /** Whatever bids arrive, the auction stays the one that was set, with its times, and shows the greatest bid stored. */
  lemma {:induction false} AuctionKeepsTimes(id: nat, startTime: nat, endTime: nat, events: seq<BidEvent>)
    ensures var state := AppendAll(SetActive(id, startTime, endTime), events);
      && state.activeAuction.Some?
      && var a := state.activeAuction.value;
         && a.unounId == id && a.startTime == startTime && a.endTime == endTime && !a.settled
         && (if state.bids == [] then a.amount == 0 && a.bidder == ""
             else a.amount == MaxBid(state.bids).value && a.bidder == MaxBid(state.bids).sender)
    decreases |events|
  {
    hide MaxBid, ContainsBid;
    if events != [] {
      AuctionKeepsTimes(id, startTime, endTime, events[..|events| - 1]);
    }
  }

  /** Whatever events arrived, in whatever order and however often: the auction's own bids are stored, each once. */
  lemma {:induction false} BidsAreStoredOnce(id: nat, startTime: nat, endTime: nat, events: seq<BidEvent>)
    requires OneBidPerHash(BidsOf(events, id))
    ensures Stored(AppendAll(SetActive(id, startTime, endTime), events), id, startTime, endTime, BidsOf(events, id))
    decreases |events|
  {
    if events == [] {
      assert BidsOf(events, id) == {} && BidSet([]) == {};
    } else {
      var front, bid := events[..|events| - 1], events[|events| - 1];
      assert events == front + [bid];
      var before := BidsOf(front, id);
      assert BidsOf(events, id) == if bid.unounId == id then before + {bid} else before;
      BidsAreStoredOnce(id, startTime, endTime, front);
      var state := AppendAll(SetActive(id, startTime, endTime), front);
      hide Stored, BidSet;
      if bid.unounId == id {
        OneMoreEvent(state, id, startTime, endTime, before, bid);
      } else {
        OtherAuction(state, id, startTime, endTime, before, bid);
      }
    }
  }

  lemma OtherAuction(state: AuctionState, id: nat, startTime: nat, endTime: nat, bids: set<BidEvent>, bid: BidEvent)
    requires Stored(state, id, startTime, endTime, bids) && bid.unounId != id
    ensures Append(state, bid) == state
  {
  }

  ghost predicate IsTop(b: BidEvent, bids: set<BidEvent>) {
    b in bids && forall c :: c in bids ==> c.value <= b.value
  }

  /** All greatest bids come from the same sender; true in particular if all values differ. */
  ghost predicate TopSendersAgree(bids: set<BidEvent>) {
    forall a, b :: IsTop(a, bids) && IsTop(b, bids) ==> a.sender == b.sender
  }

  lemma ShownIsTop(id: nat, startTime: nat, endTime: nat, events: seq<BidEvent>)
    requires OneBidPerHash(BidsOf(events, id)) && BidsOf(events, id) != {}
    ensures var state := AppendAll(SetActive(id, startTime, endTime), events);
      && state.bids != [] && IsTop(MaxBid(state.bids), BidsOf(events, id))
      && Shows(state, id, startTime, endTime)
  {
    BidsAreStoredOnce(id, startTime, endTime, events);
    var state := AppendAll(SetActive(id, startTime, endTime), events);
    assert forall b :: b in state.bids <==> b in BidSet(state.bids);
    MaxBidIsLast(state.bids);
  }

  /**
   * Confluence: two sequences with the same bids for the auction, in any order, with any repetition and mixed with
   * bids for other auctions, end with the same set of bids and, if the top senders agree, the same amount and bidder.
   */
  lemma BidOrderDoesNotMatter(id: nat, startTime: nat, endTime: nat, events: seq<BidEvent>, others: seq<BidEvent>)
    requires BidsOf(events, id) == BidsOf(others, id) && OneBidPerHash(BidsOf(events, id))
    requires TopSendersAgree(BidsOf(events, id))
    ensures var s, t := AppendAll(SetActive(id, startTime, endTime), events), AppendAll(SetActive(id, startTime, endTime), others);
      BidSet(s.bids) == BidSet(t.bids) && |s.bids| == |t.bids| && s.activeAuction == t.activeAuction
  {
    BidsAreStoredOnce(id, startTime, endTime, events);
    BidsAreStoredOnce(id, startTime, endTime, others);
    if BidsOf(events, id) != {} {
      ShownIsTop(id, startTime, endTime, events);
      ShownIsTop(id, startTime, endTime, others);
      var s, t := AppendAll(SetActive(id, startTime, endTime), events), AppendAll(SetActive(id, startTime, endTime), others);
      var a, b := MaxBid(s.bids), MaxBid(t.bids);
      assert a.value == b.value && a.sender == b.sender;
    } else {
      assert BidSet([]) == {};
    }
  }

  /** The first event's bid stays at the back of the list. */
  lemma {:induction false} FirstStaysBack(id: nat, startTime: nat, endTime: nat, events: seq<BidEvent>)
    requires events != [] && events[0].unounId == id
    ensures var state := AppendAll(SetActive(id, startTime, endTime), events);
      && state.bids != [] && state.bids[|state.bids| - 1] == events[0]
      && state.activeAuction.Some? && state.activeAuction.value.unounId == id
    decreases |events|
  {
    var front := events[..|events| - 1];
    if front == [] {
      assert AppendAll(SetActive(id, startTime, endTime), front) == SetActive(id, startTime, endTime);
    } else {
      FirstStaysBack(id, startTime, endTime, front);
    }
  }

  lemma FirstTopWins(id: nat, startTime: nat, endTime: nat, events: seq<BidEvent>, a: BidEvent)
    requires OneBidPerHash(BidsOf(events, id)) && IsTop(a, BidsOf(events, id))
    ensures BidsOf([a] + events, id) == BidsOf(events, id)
    ensures AppendAll(SetActive(id, startTime, endTime), [a] + events).activeAuction.Some?
    ensures AppendAll(SetActive(id, startTime, endTime), [a] + events).activeAuction.value.bidder == a.sender
  {
    var all := [a] + events;
    assert BidsOf(all, id) == BidsOf(events, id);
    BidsAreStoredOnce(id, startTime, endTime, all);
    FirstStaysBack(id, startTime, endTime, all);
    var state := AppendAll(SetActive(id, startTime, endTime), all);
    assert forall b :: b in state.bids <==> b in BidSet(state.bids);
    BackBidWins(state.bids);
  }

  /** Some other sequence with the same bids for the auction shows a different bidder. */
  ghost predicate OrderMatters(id: nat, startTime: nat, endTime: nat, events: seq<BidEvent>) {
    exists others :: BidsOf(others, id) == BidsOf(events, id)
      && AppendAll(SetActive(id, startTime, endTime), others).activeAuction
         != AppendAll(SetActive(id, startTime, endTime), events).activeAuction
  }

  /** The order of arrival matters if and only if two greatest bids come from different senders. */
  lemma OrderMattersIffTopSendersDiffer(id: nat, startTime: nat, endTime: nat, events: seq<BidEvent>)
    requires OneBidPerHash(BidsOf(events, id))
    ensures OrderMatters(id, startTime, endTime, events) <==> !TopSendersAgree(BidsOf(events, id))
  {
    var start := SetActive(id, startTime, endTime);
    if TopSendersAgree(BidsOf(events, id)) {
      forall others | BidsOf(others, id) == BidsOf(events, id)
        ensures AppendAll(start, others).activeAuction == AppendAll(start, events).activeAuction
      {
        BidOrderDoesNotMatter(id, startTime, endTime, events, others);
      }
    } else {
      var a, b :| IsTop(a, BidsOf(events, id)) && IsTop(b, BidsOf(events, id)) && a.sender != b.sender;
      FirstTopWins(id, startTime, endTime, events, a);
      FirstTopWins(id, startTime, endTime, events, b);
      assert AppendAll(start, [a] + events).activeAuction != AppendAll(start, [b] + events).activeAuction;
    }
  }
}
