/** The bot's auction ticks: caches are written before the notices they guard, and the process may stop in between. */
module AuctionBot {

  datatype Notice = NewAuction(id: nat) | NewBid(id: nat, bid: string) | EndingSoon(id: nat)

  /** What a tick sees of the last auction: its id, the ids of its bids, and when it ends. */
  datatype Observation = Observation(id: nat, bids: seq<string>, endTime: int, now: int)

  /** The caches, with the values an empty cache reads as, and every notice sent so far. */
  datatype BotState = BotState(auction: nat, bid: string, endingSoon: nat, sent: seq<Notice>)

  const START := BotState(0, "", 0, [])

  predicate SoonOver(o: Observation) {
    o.endTime - o.now < 20 * 60
  }

  /**
   * Write a cache, then send the notice it guards, if that is due. The process stops when `budget` operations are
   * done, possibly between the two. The second result is the budget left.
   */
  function Announce(s: BotState, due: bool, cached: BotState, notice: Notice, budget: nat): (BotState, nat) {
    if !due || budget == 0 then (s, budget)
    else if budget == 1 then (cached, 0)
    else (cached.(sent := cached.sent + [notice]), budget - 2)
  }

  function NewAuctionPhase(s: BotState, o: Observation, budget: nat): (BotState, nat) {
    Announce(s, s.auction < o.id, s.(auction := o.id), NewAuction(o.id), budget)
  }

  function NewBidPhase(s: BotState, o: Observation, budget: nat): (BotState, nat) {
    if |o.bids| == 0 then (s, budget)
    else Announce(s, s.bid != o.bids[0], s.(bid := o.bids[0]), NewBid(o.id, o.bids[0]), budget)
  }

  function EndingPhase(s: BotState, o: Observation, budget: nat): (BotState, nat) {
    Announce(s, SoonOver(o) && s.endingSoon < o.id, s.(endingSoon := o.id), EndingSoon(o.id), budget)
  }

  /** A tick that stops after `crashAfter` operations; with six or more it is complete. */
  function Tick(s: BotState, o: Observation, crashAfter: nat): BotState {
    var (s1, b1) := NewAuctionPhase(s, o, crashAfter);
    var (s2, b2) := NewBidPhase(s1, o, b1);
    EndingPhase(s2, o, b2).0
  }

  class Bot {
    var auctionCache: nat
    var bidCache: string
    var endingSoonCache: nat
    ghost var sent: seq<Notice>

    constructor ()
      ensures View() == START
    {
      auctionCache, bidCache, endingSoonCache, sent := 0, "", 0, [];
    }

    ghost function View(): BotState
      reads this
    {
      BotState(auctionCache, bidCache, endingSoonCache, sent)
    }

    method SetupAuction(lastAuctionId: nat)
      modifies this
      ensures View() == old(View()).(auction := lastAuctionId)
    {
      auctionCache := lastAuctionId;
    }

    method ProcessAuctionTick(o: Observation, crashAfter: nat)
      modifies this
      ensures View() == Tick(old(View()), o, crashAfter)
    {
      var cachedAuctionId, cachedBidId, cachedAuctionEndingSoon := auctionCache, bidCache, endingSoonCache;
      var lastAuctionId, budget := o.id, crashAfter;

      if cachedAuctionId < lastAuctionId {
        if budget == 0 { return; }
        auctionCache := lastAuctionId;
        if budget == 1 { return; }
        sent := sent + [NewAuction(lastAuctionId)];
        budget := budget - 2;
      }

      if |o.bids| > 0 && cachedBidId != o.bids[0] {
        var bid := o.bids[0];
        if budget == 0 { return; }
        bidCache := bid;
        if budget == 1 { return; }
        sent := sent + [NewBid(lastAuctionId, bid)];
        budget := budget - 2;
      }

      var secondsUntilAuctionEnds := o.endTime - o.now;
      if secondsUntilAuctionEnds < 20 * 60 && cachedAuctionEndingSoon < lastAuctionId {
        if budget == 0 { return; }
        endingSoonCache := lastAuctionId;
        if budget == 1 { return; }
        sent := sent + [EndingSoon(lastAuctionId)];
      }
    }
  }

  // ----- notices over whole runs -----

  /** A run: the process starts (again) and reads the last auction, or a tick runs and may be cut short. */
  datatype Step = Setup(id: nat) | AuctionTick(o: Observation, crashAfter: nat)

  function StepId(step: Step): nat {
    match step
    case Setup(id) => id
    case AuctionTick(o, _) => o.id
  }

  function Take(s: BotState, step: Step): BotState {
    match step
    case Setup(id) => s.(auction := id)
    case AuctionTick(o, crashAfter) => Tick(s, o, crashAfter)
  }

  function Run(s: BotState, steps: seq<Step>): BotState {
    if steps == [] then s else Take(Run(s, steps[..|steps| - 1]), steps[|steps| - 1])
  }

  /** The auction ids never go back. */
  ghost predicate NonDecreasing(steps: seq<Step>) {
    forall i, j :: 0 <= i < j < |steps| ==> StepId(steps[i]) <= StepId(steps[j])
  }

  ghost function NewIds(sent: seq<Notice>): seq<nat> {
    if sent == [] then []
    else NewIds(sent[..|sent| - 1]) + if sent[|sent| - 1].NewAuction? then [sent[|sent| - 1].id] else []
  }

  ghost function EndingIds(sent: seq<Notice>): seq<nat> {
    if sent == [] then []
    else EndingIds(sent[..|sent| - 1]) + if sent[|sent| - 1].EndingSoon? then [sent[|sent| - 1].id] else []
  }

  ghost predicate Increasing(ids: seq<nat>) {
    forall i, j :: 0 <= i < j < |ids| ==> ids[i] < ids[j]
  }

  ghost predicate UpTo(ids: seq<nat>, bound: nat) {
    forall i :: 0 <= i < |ids| ==> ids[i] <= bound
  }

  /** Announced ids increase, and a cache is at least at the last one announced. */
  ghost predicate Ok(s: BotState) {
    && Increasing(NewIds(s.sent)) && UpTo(NewIds(s.sent), s.auction)
    && Increasing(EndingIds(s.sent)) && UpTo(EndingIds(s.sent), s.endingSoon)
  }

  lemma SentOneMore(sent: seq<Notice>, n: Notice)
    ensures NewIds(sent + [n]) == NewIds(sent) + if n.NewAuction? then [n.id] else []
    ensures EndingIds(sent + [n]) == EndingIds(sent) + if n.EndingSoon? then [n.id] else []
  {
    assert (sent + [n])[..|sent|] == sent;
  }

  lemma IncreasingAppend(ids: seq<nat>, id: nat, bound: nat)
    requires Increasing(ids) && UpTo(ids, bound) && bound < id
    ensures Increasing(ids + [id]) && UpTo(ids + [id], id)
  {
  }

  lemma NewAuctionPhaseKeepsOk(s: BotState, o: Observation, budget: nat)
    requires Ok(s)
    ensures var t := NewAuctionPhase(s, o, budget).0;
      Ok(t) && t.auction <= if s.auction <= o.id then o.id else s.auction
  {
    SentOneMore(s.sent, NewAuction(o.id));
    if s.auction < o.id {
      IncreasingAppend(NewIds(s.sent), o.id, s.auction);
    }
    hide NewIds, EndingIds;
    assert EndingIds(s.sent) + [] == EndingIds(s.sent);
  }

  lemma NewBidPhaseKeepsOk(s: BotState, o: Observation, budget: nat)
    requires Ok(s)
    ensures var t := NewBidPhase(s, o, budget).0; Ok(t) && t.auction == s.auction
  {
    if |o.bids| > 0 {
      SentOneMore(s.sent, NewBid(o.id, o.bids[0]));
    }
    hide NewIds, EndingIds;
    assert EndingIds(s.sent) + [] == EndingIds(s.sent) && NewIds(s.sent) + [] == NewIds(s.sent);
  }

  lemma EndingPhaseKeepsOk(s: BotState, o: Observation, budget: nat)
    requires Ok(s)
    ensures var t := EndingPhase(s, o, budget).0; Ok(t) && t.auction == s.auction
  {
    SentOneMore(s.sent, EndingSoon(o.id));
    if s.endingSoon < o.id {
      IncreasingAppend(EndingIds(s.sent), o.id, s.endingSoon);
    }
    hide NewIds, EndingIds;
    assert NewIds(s.sent) + [] == NewIds(s.sent);
  }

  /** A tick keeps the announced ids increasing wherever it stops. */
  lemma TickKeepsOk(s: BotState, o: Observation, crashAfter: nat)
    requires Ok(s)
    ensures Ok(Tick(s, o, crashAfter))
    ensures Tick(s, o, crashAfter).auction <= if s.auction <= o.id then o.id else s.auction
  {
    hide Ok, NewAuctionPhase, NewBidPhase, EndingPhase;
    var (s1, b1) := NewAuctionPhase(s, o, crashAfter);
    var (s2, b2) := NewBidPhase(s1, o, b1);
    NewAuctionPhaseKeepsOk(s, o, crashAfter);
    NewBidPhaseKeepsOk(s1, o, b1);
    EndingPhaseKeepsOk(s2, o, b2);
  }

  /** In a run whose auction ids never go back, the auction cache is at most the last id seen. */
  lemma {:induction false} RunKeepsOk(steps: seq<Step>)
    requires NonDecreasing(steps)
    ensures var s := Run(START, steps);
      Ok(s) && s.auction <= if steps == [] then 0 else StepId(steps[|steps| - 1])
    decreases |steps|
  {
    if steps != [] {
      var front, step := steps[..|steps| - 1], steps[|steps| - 1];
      RunKeepsOk(front);
      if step.AuctionTick? {
        TickKeepsOk(Run(START, front), step.o, step.crashAfter);
      }
      hide Tick, NewIds, EndingIds;
    }
  }

  /**
   * Over any run with restarts and crashes at any point, as long as the auction ids seen never go back, new auctions
   * and auctions ending soon are announced for strictly increasing ids, so at most once each.
   */
  lemma NoticesIncrease(steps: seq<Step>)
    requires NonDecreasing(steps)
    ensures Increasing(NewIds(Run(START, steps).sent)) && Increasing(EndingIds(Run(START, steps).sent))
  {
    RunKeepsOk(steps);
  }

  ghost predicate NoRestart(steps: seq<Step>) {
    forall i :: 0 <= i < |steps| ==> steps[i].AuctionTick?
  }

  lemma {:induction false} TicksKeepOk(s: BotState, steps: seq<Step>)
    requires Ok(s) && NoRestart(steps)
    ensures Ok(Run(s, steps))
    decreases |steps|
  {
    hide Ok, Tick;
    if steps != [] {
      var front, step := steps[..|steps| - 1], steps[|steps| - 1];
      TicksKeepOk(s, front);
      TickKeepsOk(Run(s, front), step.o, step.crashAfter);
    }
  }

  lemma RepeatedAnnouncement(s: BotState, id: nat, again: nat) returns (steps: seq<Step>)
    requires id < again && again in NewIds(s.sent)
    ensures NoRestart(steps) && !Increasing(NewIds(Run(Take(s, Setup(id)), steps).sent))
  {
    var t := Take(s, Setup(id));
    var o := Observation(again, [], 20 * 60, 0);
    steps := [AuctionTick(o, 2)];
    assert steps[..0] == [];
    assert Run(t, steps) == Tick(t, o, 2);
    var after := Tick(t, o, 2);
    assert after.sent == s.sent + [NewAuction(again)];
    SentOneMore(s.sent, NewAuction(again));
    var i :| 0 <= i < |NewIds(s.sent)| && NewIds(s.sent)[i] == again;
    assert NewIds(after.sent)[|NewIds(s.sent)|] == again && NewIds(after.sent)[i] == again;
  }

  /**
   * A restart is harmless if and only if it does not set the cache back behind an announced auction: then no ticks
   * after it, whatever they see and wherever they stop, announce an auction again or out of order, and otherwise some
   * do.
   */
  lemma RestartIsHarmlessIff(s: BotState, id: nat)
    requires Ok(s)
    ensures (forall steps :: NoRestart(steps) ==> Increasing(NewIds(Run(Take(s, Setup(id)), steps).sent)))
       <==> UpTo(NewIds(s.sent), id)
  {
    var t := Take(s, Setup(id));
    if UpTo(NewIds(s.sent), id) {
      forall steps | NoRestart(steps) ensures Increasing(NewIds(Run(t, steps).sent)) {
        TicksKeepOk(t, steps);
      }
    } else {
      var i :| 0 <= i < |NewIds(s.sent)| && NewIds(s.sent)[i] > id;
      var steps := RepeatedAnnouncement(s, id, NewIds(s.sent)[i]);
    }
  }

  // ----- without crashes, everything new is announced -----

  /** Ticks only, none of which is cut short. */
  ghost predicate Complete(steps: seq<Step>) {
    forall i :: 0 <= i < |steps| ==> steps[i].AuctionTick? && steps[i].crashAfter >= 6
  }

  /** The auction was seen. */
  ghost predicate Seen(steps: seq<Step>, id: nat) {
    exists i :: 0 <= i < |steps| && StepId(steps[i]) == id
  }

  /** The auction was seen when it had less than 20 minutes to go, or was over. */
  ghost predicate SeenEnding(steps: seq<Step>, id: nat) {
    exists i :: 0 <= i < |steps| && steps[i].AuctionTick? && steps[i].o.id == id
             && steps[i].o.now > steps[i].o.endTime - 1200
  }

  datatype TopBid = TopBid(id: nat, bid: string)

  /** The greatest bids seen, with their auctions, tick by tick. */
  function TopBids(steps: seq<Step>): seq<TopBid> {
    if steps == [] then []
    else
      var step := steps[|steps| - 1];
      TopBids(steps[..|steps| - 1])
      + if step.AuctionTick? && |step.o.bids| > 0 then [TopBid(step.o.id, step.o.bids[0])] else []
  }

  /** Those that differ from the one seen before; the first one differs if it is not the empty text. */
  function Changes(tops: seq<TopBid>): seq<TopBid> {
    if tops == [] then []
    else
      var front, last := tops[..|tops| - 1], tops[|tops| - 1];
      Changes(front) + if last.bid != (if front == [] then "" else front[|front| - 1].bid) then [last] else []
  }

  ghost function BidNotices(sent: seq<Notice>): seq<TopBid> {
    if sent == [] then []
    else
      var last := sent[|sent| - 1];
      BidNotices(sent[..|sent| - 1]) + if last.NewBid? then [TopBid(last.id, last.bid)] else []
  }

  lemma BidsOneMore(sent: seq<Notice>, n: Notice)
    ensures BidNotices(sent + [n]) == BidNotices(sent) + if n.NewBid? then [TopBid(n.id, n.bid)] else []
  {
    assert (sent + [n])[..|sent|] == sent;
  }

  /** The notices of each kind, and one more if it is due. */
  ghost predicate Noticed(sent: seq<Notice>, sent': seq<Notice>, due: bool, n: Notice) {
    && NewIds(sent') == NewIds(sent) + (if due && n.NewAuction? then [n.id] else [])
    && BidNotices(sent') == BidNotices(sent) + (if due && n.NewBid? then [TopBid(n.id, n.bid)] else [])
    && EndingIds(sent') == EndingIds(sent) + (if due && n.EndingSoon? then [n.id] else [])
  }

  lemma AnnouncedFully(s: BotState, due: bool, cached: BotState, notice: Notice, budget: nat)
    requires budget >= 2 && cached.sent == s.sent
    ensures var (t, left) := Announce(s, due, cached, notice, budget);
      && left >= budget - 2
      && t == (if due then cached.(sent := t.sent) else s)
      && Noticed(s.sent, t.sent, due, notice)
  {
    SentOneMore(s.sent, notice);
    BidsOneMore(s.sent, notice);
    hide NewIds, BidNotices, EndingIds;
    assert NewIds(s.sent) + [] == NewIds(s.sent) && EndingIds(s.sent) + [] == EndingIds(s.sent);
    assert BidNotices(s.sent) + [] == BidNotices(s.sent);
  }

  /** A complete tick: the caches afterwards, and which notices have been added. */
  ghost predicate TickedFully(s: BotState, t: BotState, o: Observation) {
    && t.auction == (if s.auction < o.id then o.id else s.auction)
    && t.bid == (if |o.bids| > 0 then o.bids[0] else s.bid)
    && t.endingSoon == (if o.now > o.endTime - 1200 && s.endingSoon < o.id then o.id else s.endingSoon)
    && NewIds(t.sent) == NewIds(s.sent) + (if s.auction < o.id then [o.id] else [])
    && BidNotices(t.sent)
       == BidNotices(s.sent) + (if |o.bids| > 0 && s.bid != o.bids[0] then [TopBid(o.id, o.bids[0])] else [])
    && EndingIds(t.sent)
       == EndingIds(s.sent) + (if o.now > o.endTime - 1200 && s.endingSoon < o.id then [o.id] else [])
  }

  lemma CompleteTick(s: BotState, o: Observation, crashAfter: nat)
    requires crashAfter >= 6
    ensures TickedFully(s, Tick(s, o, crashAfter), o)
  {
    hide NewIds, BidNotices, EndingIds, Announce;
    var (s1, b1) := NewAuctionPhase(s, o, crashAfter);
    AnnouncedFully(s, s.auction < o.id, s.(auction := o.id), NewAuction(o.id), crashAfter);
    var (s2, b2) := NewBidPhase(s1, o, b1);
    if |o.bids| > 0 {
      AnnouncedFully(s1, s1.bid != o.bids[0], s1.(bid := o.bids[0]), NewBid(o.id, o.bids[0]), b1);
    }
    AnnouncedFully(s2, SoonOver(o) && s2.endingSoon < o.id, s2.(endingSoon := o.id), EndingSoon(o.id), b2);
  }

  function LastBid(tops: seq<TopBid>): string {
    if tops == [] then "" else tops[|tops| - 1].bid
  }

  ghost predicate BidsAnnounced(s: BotState, tops: seq<TopBid>) {
    BidNotices(s.sent) == Changes(tops) && s.bid == LastBid(tops)
  }

  lemma TickAnnouncesBid(s: BotState, t: BotState, o: Observation, tops: seq<TopBid>, top: TopBid)
    requires BidsAnnounced(s, tops) && TickedFully(s, t, o)
    requires |o.bids| > 0 ==> top == TopBid(o.id, o.bids[0])
    ensures BidsAnnounced(t, if |o.bids| > 0 then tops + [top] else tops)
  {
    assert (tops + [top])[..|tops|] == tops;
    assert Changes(tops + [top]) == Changes(tops) + if top.bid != LastBid(tops) then [top] else [];
    hide BidNotices, NewIds, EndingIds, Changes;
    assert BidNotices(s.sent) + [] == BidNotices(s.sent);
  }

  /** Without crashes, exactly the changes of the greatest bid are announced, in their order. */
  lemma {:induction false} BidChangesAreAnnounced(steps: seq<Step>)
    requires Complete(steps)
    ensures BidsAnnounced(Run(START, steps), TopBids(steps))
    decreases |steps|
  {
    hide BidsAnnounced, TickedFully, Tick;
    if steps == [] {
      NoBids();
    } else {
      var front, step := steps[..|steps| - 1], steps[|steps| - 1];
      BidChangesAreAnnounced(front);
      CompleteTick(Run(START, front), step.o, step.crashAfter);
      var bids, tops := step.o.bids, TopBids(front);
      var top := TopBid(step.o.id, if |bids| > 0 then bids[0] else "");
      TickAnnouncesBid(Run(START, front), Run(START, steps), step.o, tops, top);
      assert tops + [] == tops;
    }
  }

  lemma NoBids()
    ensures BidsAnnounced(START, [])
  {
  }

  lemma SeenStep(steps: seq<Step>, id: nat)
    requires steps != []
    ensures var front, step := steps[..|steps| - 1], steps[|steps| - 1];
      && (Seen(steps, id) <==> Seen(front, id) || StepId(step) == id)
      && (SeenEnding(steps, id) <==>
            SeenEnding(front, id) || (step.AuctionTick? && step.o.id == id && step.o.now > step.o.endTime - 1200))
  {
    var front := steps[..|steps| - 1];
    if i :| 0 <= i < |front| && StepId(front[i]) == id {
      assert StepId(steps[i]) == id;
    }
    if i :| 0 <= i < |front| && front[i].AuctionTick? && front[i].o.id == id && front[i].o.now > front[i].o.endTime - 1200 {
      assert steps[i].AuctionTick? && steps[i].o.id == id;
    }
  }

  /**
   * Without crashes, and with auction ids that never go back: a new auction is announced if and only if it was seen and
   * is later than the one seeded at start-up, and one ending soon if and only if it was seen then.
   */
  lemma {:induction false} EveryAuctionIsAnnounced(seeded: nat, steps: seq<Step>, id: nat)
    requires Complete(steps) && NonDecreasing(steps)
    ensures var s := Run(START.(auction := seeded), steps);
      && (id in NewIds(s.sent) <==> id > seeded && Seen(steps, id))
      && (id in EndingIds(s.sent) <==> id > 0 && SeenEnding(steps, id))
      && s.auction == (if steps == [] || StepId(steps[|steps| - 1]) < seeded then seeded else StepId(steps[|steps| - 1]))
      && (s.endingSoon == 0 || (SeenEnding(steps, s.endingSoon) && s.endingSoon in EndingIds(s.sent)))
      && (SeenEnding(steps, id) ==> id <= s.endingSoon)
      && (steps != [] ==> s.endingSoon <= StepId(steps[|steps| - 1]))
      && (steps == [] ==> s.endingSoon == 0)
    decreases |steps|
  {
    if steps != [] {
      var front, step := steps[..|steps| - 1], steps[|steps| - 1];
      EveryAuctionIsAnnounced(seeded, front, id);
      var s := Run(START.(auction := seeded), front);
      CompleteTick(s, step.o, step.crashAfter);
      SeenStep(steps, id);
      EveryAuctionIsAnnounced(seeded, front, step.o.id);
      SeenStep(steps, s.endingSoon);
      SeenStep(steps, step.o.id);
      if Seen(front, step.o.id) {
        var i :| 0 <= i < |front| && StepId(front[i]) == step.o.id;
        assert StepId(front[i]) <= StepId(front[|front| - 1]) by { assert steps[i] == front[i]; }
      }
      hide Tick, NewIds, EndingIds, Seen, SeenEnding;
    }
  }
}
