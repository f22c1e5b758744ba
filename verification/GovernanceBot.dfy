/** The bot's governance ticks: each proposal is compared with its cached copy, and news is announced. */
module GovernanceBot {
  import opened Options

  datatype Vote = Vote(id: string, votes: nat)
  datatype Proposal = Proposal(id: nat, status: string, executionETA: int, votes: seq<Vote>)

  datatype Notice =
    | NewProposal(id: nat)
    | UpdatedStatus(id: nat, status: string)
    | GovernanceVote(id: nat, vote: Vote)
    | AtRiskOfExpiry(id: nat)

  datatype BotState = BotState(cache: map<nat, Proposal>, warned: set<nat>, sent: seq<Notice>)

  const SECONDS_IN_DAY := 60 * 60 * 24

  // ----- utils/proposals.ts -----

  predicate HasVote(votes: seq<Vote>, id: string) {
    exists i :: 0 <= i < |votes| && votes[i].id == id
  }

  function NewVotesAmong(before: seq<Vote>, votes: seq<Vote>): seq<Vote> {
    if votes == [] then []
    else
      var last := votes[|votes| - 1];
      NewVotesAmong(before, votes[..|votes| - 1]) + if !HasVote(before, last.id) && last.votes > 0 then [last] else []
  }

  function ExtractNewVotes(proposalBefore: Proposal, proposalAfter: Proposal): seq<Vote> {
    NewVotesAmong(proposalBefore.votes, proposalAfter.votes)
  }

  predicate IsAtRiskOfExpiry(p: Proposal, now: int) {
    var secondsUntilExpiry := p.executionETA + SECONDS_IN_DAY * 14 - now;
    p.status == "QUEUED" && 0 < secondsUntilExpiry <= SECONDS_IN_DAY * 2
  }

  // ----- one proposal of a tick -----

  function VoteNotices(id: nat, votes: seq<Vote>): seq<Notice> {
    seq(|votes|, i requires 0 <= i < |votes| => GovernanceVote(id, votes[i]))
  }

  function News(s: BotState, p: Proposal, now: int): seq<Notice> {
    if p.id !in s.cache then [NewProposal(p.id)]
    else
      (if s.cache[p.id].status != p.status then [UpdatedStatus(p.id, p.status)] else [])
      + VoteNotices(p.id, ExtractNewVotes(s.cache[p.id], p))
      + (if IsAtRiskOfExpiry(p, now) && p.id !in s.warned then [AtRiskOfExpiry(p.id)] else [])
  }

  function Process(s: BotState, p: Proposal, now: int): BotState {
    BotState(s.cache[p.id := p],
             if p.id in s.cache && IsAtRiskOfExpiry(p, now) then s.warned + {p.id} else s.warned,
             s.sent + News(s, p, now))
  }

  function ProcessAll(s: BotState, proposals: seq<Proposal>, now: int): BotState {
    if proposals == [] then s
    else Process(ProcessAll(s, proposals[..|proposals| - 1], now), proposals[|proposals| - 1], now)
  }

  class Bot {
    var cache: map<nat, Proposal>
    var warned: set<nat>
    ghost var sent: seq<Notice>

    constructor ()
      ensures View() == START
    {
      cache, warned, sent := map[], {}, [];
    }

    ghost function View(): BotState
      reads this
    {
      BotState(cache, warned, sent)
    }

    method SetupGovernance(proposals: seq<Proposal>)
      modifies this
      ensures View() == Seeded(old(View()), proposals)
    {
      for i := 0 to |proposals|
        invariant View() == Seeded(old(View()), proposals[..i])
      {
        assert proposals[..i + 1][..i] == proposals[..i];
        cache := cache[proposals[i].id := proposals[i]];
      }
      assert proposals[..|proposals|] == proposals;
    }

    method ProcessGovernanceTick(proposals: seq<Proposal>, now: int)
      modifies this
      ensures View() == ProcessAll(old(View()), proposals, now)
    {
      for i := 0 to |proposals|
        invariant View() == ProcessAll(old(View()), proposals[..i], now)
      {
        assert proposals[..i + 1][..i] == proposals[..i];
        ProcessProposal(proposals[i], now);
      }
      assert proposals[..|proposals|] == proposals;
    }

    method ProcessProposal(p: Proposal, now: int)
      modifies this
      ensures View() == Process(old(View()), p, now)
    {
      if p.id !in cache {
        sent := sent + [NewProposal(p.id)];
      } else {
        var cachedProposal := cache[p.id];
        ghost var news: seq<Notice> := [];
        if cachedProposal.status != p.status {
          news := news + [UpdatedStatus(p.id, p.status)];
        }
        var newVotes := FindNewVotes(cachedProposal, p);
        news := news + VoteNotices(p.id, newVotes);
        if IsAtRiskOfExpiry(p, now) {
          if p.id !in warned {
            news := news + [AtRiskOfExpiry(p.id)];
          }
          warned := warned + {p.id};
        }
        sent := sent + news;
      }
      cache := cache[p.id := p];
    }

    method FindNewVotes(proposalBefore: Proposal, proposalAfter: Proposal) returns (votes: seq<Vote>)
      ensures votes == ExtractNewVotes(proposalBefore, proposalAfter)
    {
      votes := [];
      var all := proposalAfter.votes;
      for i := 0 to |all|
        invariant votes == NewVotesAmong(proposalBefore.votes, all[..i])
      {
        assert all[..i + 1][..i] == all[..i];
        if !HasVote(proposalBefore.votes, all[i].id) && all[i].votes > 0 {
          votes := votes + [all[i]];
        }
      }
      assert all[..|all|] == all;
    }
  }

  function Seeded(s: BotState, proposals: seq<Proposal>): BotState {
    if proposals == [] then s
    else
      var last := proposals[|proposals| - 1];
      var before := Seeded(s, proposals[..|proposals| - 1]);
      before.(cache := before.cache[last.id := last])
  }

  // ----- announced votes, proposal by proposal -----

  /** How often the vote was announced for the proposal. */
  ghost function Announced(sent: seq<Notice>, id: nat, v: Vote): nat {
    multiset(sent)[GovernanceVote(id, v)]
  }

  ghost function Among(votes: seq<Vote>, v: Vote): nat {
    multiset(votes)[v]
  }

  lemma {:induction false} VoteNoticesCount(id: nat, votes: seq<Vote>, id': nat, v: Vote)
    ensures Announced(VoteNotices(id, votes), id', v) == if id' == id then Among(votes, v) else 0
    decreases |votes|
  {
    if votes == [] {
      assert VoteNotices(id, votes) == [];
    } else {
      var front, last := votes[..|votes| - 1], votes[|votes| - 1];
      VoteNoticesCount(id, front, id', v);
      assert votes == front + [last];
      assert VoteNotices(id, votes) == VoteNotices(id, front) + [GovernanceVote(id, last)];
    }
  }

  /** Votes announced while the observations `obs` of one proposal come in after `cached`. */
  ghost function VotesAnnounced(cached: Option<Proposal>, obs: seq<Proposal>, v: Vote): nat
    decreases obs
  {
    if obs == [] then 0
    else
      (if cached.Some? then Among(ExtractNewVotes(cached.value, obs[0]), v) else 0)
      + VotesAnnounced(Some(obs[0]), obs[1..], v)
  }

  /** The observations of proposal `id`, in order. */
  ghost function ObservationsOf(proposals: seq<Proposal>, id: nat): seq<Proposal> {
    if proposals == [] then []
    else
      var last := proposals[|proposals| - 1];
      ObservationsOf(proposals[..|proposals| - 1], id) + if last.id == id then [last] else []
  }

  function CachedOf(s: BotState, id: nat): Option<Proposal> {
    if id in s.cache then Some(s.cache[id]) else None
  }

  ghost function LastOf(cached: Option<Proposal>, obs: seq<Proposal>): Option<Proposal> {
    if obs == [] then cached else Some(obs[|obs| - 1])
  }

  lemma {:induction false} AnnouncedOneMore(cached: Option<Proposal>, obs: seq<Proposal>, p: Proposal, v: Vote)
    ensures VotesAnnounced(cached, obs + [p], v)
         == VotesAnnounced(cached, obs, v)
            + (var last := LastOf(cached, obs); if last.Some? then Among(ExtractNewVotes(last.value, p), v) else 0)
    decreases obs
  {
    if obs == [] {
      assert obs + [p] == [p] && [p][1..] == [];
    } else {
      assert (obs + [p])[1..] == obs[1..] + [p];
      AnnouncedOneMore(Some(obs[0]), obs[1..], p, v);
    }
  }

  lemma NewsVotes(s: BotState, p: Proposal, now: int, id: nat, v: Vote)
    ensures Announced(News(s, p, now), id, v)
         == if p.id == id && id in s.cache then Among(ExtractNewVotes(s.cache[id], p), v) else 0
  {
    if p.id in s.cache {
      VoteNoticesCount(p.id, ExtractNewVotes(s.cache[p.id], p), id, v);
      hide VoteNotices, ExtractNewVotes;
    }
  }

  lemma ProcessAnnounces(s: BotState, p: Proposal, now: int, id: nat, v: Vote)
    ensures var t := Process(s, p, now);
      && Announced(t.sent, id, v)
         == Announced(s.sent, id, v)
            + (if p.id == id && id in s.cache then Among(ExtractNewVotes(s.cache[id], p), v) else 0)
      && CachedOf(t, id) == if p.id == id then Some(p) else CachedOf(s, id)
  {
    NewsVotes(s, p, now, id, v);
    hide News, ExtractNewVotes;
  }

  /** A tick announces for each proposal exactly the votes its own observations bring. */
  lemma {:induction false} TickAnnounces(s: BotState, proposals: seq<Proposal>, now: int, id: nat, v: Vote)
    ensures var t := ProcessAll(s, proposals, now);
      && Announced(t.sent, id, v)
         == Announced(s.sent, id, v) + VotesAnnounced(CachedOf(s, id), ObservationsOf(proposals, id), v)
      && CachedOf(t, id) == LastOf(CachedOf(s, id), ObservationsOf(proposals, id))
    decreases |proposals|
  {
    if proposals != [] {
      var front, p := proposals[..|proposals| - 1], proposals[|proposals| - 1];
      TickAnnounces(s, front, now, id, v);
      var obs := ObservationsOf(front, id);
      ProcessAnnounces(ProcessAll(s, front, now), p, now, id, v);
      AnnouncedOneMore(CachedOf(s, id), obs, p, v);
      assert ObservationsOf(proposals, id) == obs + if p.id == id then [p] else [];
      assert obs + [] == obs;
      hide Process, VotesAnnounced, ExtractNewVotes, Announced, Among;
    }
  }

  datatype Observed = Observed(proposals: seq<Proposal>, now: int)

  function RunTicks(s: BotState, ticks: seq<Observed>): BotState {
    if ticks == [] then s
    else ProcessAll(RunTicks(s, ticks[..|ticks| - 1]), ticks[|ticks| - 1].proposals, ticks[|ticks| - 1].now)
  }

  ghost function AllObservations(ticks: seq<Observed>, id: nat): seq<Proposal> {
    if ticks == [] then []
    else AllObservations(ticks[..|ticks| - 1], id) + ObservationsOf(ticks[|ticks| - 1].proposals, id)
  }

  lemma {:induction false} AnnouncedConcat(cached: Option<Proposal>, a: seq<Proposal>, b: seq<Proposal>, v: Vote)
    ensures VotesAnnounced(cached, a + b, v) == VotesAnnounced(cached, a, v) + VotesAnnounced(LastOf(cached, a), b, v)
    decreases a
  {
    hide ExtractNewVotes, Among;
    if a == [] {
      assert a + b == b;
    } else {
      assert (a + b)[1..] == a[1..] + b;
      AnnouncedConcat(Some(a[0]), a[1..], b, v);
    }
  }

  lemma {:induction false} RunAnnounces(s: BotState, ticks: seq<Observed>, id: nat, v: Vote)
    ensures var t := RunTicks(s, ticks);
      && Announced(t.sent, id, v)
         == Announced(s.sent, id, v) + VotesAnnounced(CachedOf(s, id), AllObservations(ticks, id), v)
      && CachedOf(t, id) == LastOf(CachedOf(s, id), AllObservations(ticks, id))
    decreases |ticks|
  {
    if ticks != [] {
      var front, tick := ticks[..|ticks| - 1], ticks[|ticks| - 1];
      RunAnnounces(s, front, id, v);
      TickAnnounces(RunTicks(s, front), tick.proposals, tick.now, id, v);
      AnnouncedConcat(CachedOf(s, id), AllObservations(front, id), ObservationsOf(tick.proposals, id), v);
      hide VotesAnnounced, ProcessAll, Announced;
    }
  }

  // ----- every later vote is announced exactly once -----

  ghost predicate UniqueIds(votes: seq<Vote>) {
    forall i, j :: 0 <= i < j < |votes| ==> votes[i].id != votes[j].id
  }

  /** Votes are distinct and never disappear or change between observations. */
  ghost predicate Growing(first: Proposal, obs: seq<Proposal>)
    decreases obs
  {
    && UniqueIds(first.votes)
    && (obs != [] ==> (forall v :: v in first.votes ==> v in obs[0].votes) && Growing(obs[0], obs[1..]))
  }

  ghost function LastVotes(first: Proposal, obs: seq<Proposal>): seq<Vote> {
    if obs == [] then first.votes else obs[|obs| - 1].votes
  }

  lemma {:induction false} ExtractedCount(before: seq<Vote>, votes: seq<Vote>, v: Vote)
    requires UniqueIds(votes)
    ensures Among(NewVotesAmong(before, votes), v) == if v in votes && !HasVote(before, v.id) && v.votes > 0 then 1 else 0
    decreases |votes|
  {
    if votes != [] {
      var front, last := votes[..|votes| - 1], votes[|votes| - 1];
      ExtractedCount(before, front, v);
      assert votes == front + [last];
      assert last !in front;
    }
  }

  lemma {:induction false} GrowingKeepsVotes(first: Proposal, obs: seq<Proposal>, v: Vote)
    requires Growing(first, obs) && v in first.votes
    ensures v in LastVotes(first, obs) && UniqueIds(LastVotes(first, obs))
    decreases obs
  {
    if obs != [] {
      GrowingKeepsVotes(obs[0], obs[1..], v);
    }
  }

  lemma {:induction false} GrowingAnnouncesOnce(first: Proposal, obs: seq<Proposal>, v: Vote)
    requires Growing(first, obs)
    ensures VotesAnnounced(Some(first), obs, v)
         == if v in LastVotes(first, obs) && !HasVote(first.votes, v.id) && v.votes > 0 then 1 else 0
    decreases obs
  {
    if obs != [] {
      ExtractedCount(first.votes, obs[0].votes, v);
      GrowingAnnouncesOnce(obs[0], obs[1..], v);
      SameIdSameVote(obs[0], obs[1..], v);
      if HasVote(first.votes, v.id) {
        var i :| 0 <= i < |first.votes| && first.votes[i].id == v.id;
        assert first.votes[i] in obs[0].votes;
        assert HasVote(obs[0].votes, v.id);
      }
    } else if v in first.votes {
      assert HasVote(first.votes, v.id);
    }
  }

  /** A vote whose id is known and that is there in the end was there from the start. */
  lemma SameIdSameVote(first: Proposal, obs: seq<Proposal>, v: Vote)
    requires Growing(first, obs)
    ensures v in LastVotes(first, obs) && HasVote(first.votes, v.id) <==> v in first.votes
  {
    if HasVote(first.votes, v.id) {
      var i :| 0 <= i < |first.votes| && first.votes[i].id == v.id;
      var w := first.votes[i];
      GrowingKeepsVotes(first, obs, w);
      if v in LastVotes(first, obs) {
        var j :| 0 <= j < |LastVotes(first, obs)| && LastVotes(first, obs)[j] == v;
        var k :| 0 <= k < |LastVotes(first, obs)| && LastVotes(first, obs)[k] == w;
        assert j == k;
      }
    }
    if v in first.votes {
      GrowingKeepsVotes(first, obs, v);
      assert HasVote(first.votes, v.id);
    }
  }

  /**
   * Over any run of ticks without crashes, starting when a proposal is already cached: each vote of positive weight
   * that the last observation has and the cached copy did not is announced exactly once, and no other.
   */
  lemma LaterVotesAreAnnouncedOnce(s: BotState, ticks: seq<Observed>, id: nat, v: Vote)
    requires id in s.cache && Growing(s.cache[id], AllObservations(ticks, id))
    ensures Announced(RunTicks(s, ticks).sent, id, v) - Announced(s.sent, id, v)
         == if v in LastVotes(s.cache[id], AllObservations(ticks, id)) && !HasVote(s.cache[id].votes, v.id) && v.votes > 0
            then 1 else 0
  {
    RunAnnounces(s, ticks, id, v);
    GrowingAnnouncesOnce(s.cache[id], AllObservations(ticks, id), v);
  }

  // ----- proposals and warnings are announced once -----

  const START := BotState(map[], {}, [])

  predicate IsListed(proposals: seq<Proposal>, id: nat) {
    exists i :: 0 <= i < |proposals| && proposals[i].id == id
  }

  datatype Sighting = Sighting(p: Proposal, now: int)

  /** A proposal as one tick sees it, and as all ticks see it, with the time of the tick. */
  ghost function SightingsIn(proposals: seq<Proposal>, now: int, id: nat): seq<Sighting> {
    if proposals == [] then []
    else
      var last := proposals[|proposals| - 1];
      SightingsIn(proposals[..|proposals| - 1], now, id) + if last.id == id then [Sighting(last, now)] else []
  }

  ghost function Sightings(ticks: seq<Observed>, id: nat): seq<Sighting> {
    if ticks == [] then []
    else
      var last := ticks[|ticks| - 1];
      Sightings(ticks[..|ticks| - 1], id) + SightingsIn(last.proposals, last.now, id)
  }

  /** The proposal is queued, its time is 12 days past, and it has not expired, which it does after 14 days. */
  predicate AtRisk(s: Sighting) {
    s.p.status == "QUEUED" && s.p.executionETA + 1036800 <= s.now < s.p.executionETA + 1209600
  }

  /** The proposal was at risk in some sighting when the bot already knew it, from start-up or an earlier sighting. */
  ghost predicate WarningDue(listed: bool, seen: seq<Sighting>) {
    exists k :: 0 <= k < |seen| && (listed || k > 0) && AtRisk(seen[k])
  }

  /** What caches and notices say about a proposal listed at start-up, or not, and seen as `seen` since. */
  ghost predicate Tracks(s: BotState, id: nat, listed: bool, seen: seq<Sighting>) {
    && (id in s.cache <==> listed || seen != [])
    && (id in s.warned <==> WarningDue(listed, seen))
    && multiset(s.sent)[NewProposal(id)] == (if listed || seen == [] then 0 else 1)
    && multiset(s.sent)[AtRiskOfExpiry(id)] == (if id in s.warned then 1 else 0)
  }

  lemma NewsOnce(s: BotState, p: Proposal, now: int, id: nat)
    ensures multiset(News(s, p, now))[NewProposal(id)] == if p.id == id && id !in s.cache then 1 else 0
    ensures multiset(News(s, p, now))[AtRiskOfExpiry(id)]
         == if p.id == id && id in s.cache && IsAtRiskOfExpiry(p, now) && id !in s.warned then 1 else 0
  {
    if p.id in s.cache {
      var votes := VoteNotices(p.id, ExtractNewVotes(s.cache[p.id], p));
      assert NewProposal(id) !in votes && AtRiskOfExpiry(id) !in votes;
      assert multiset(votes)[NewProposal(id)] == 0 && multiset(votes)[AtRiskOfExpiry(id)] == 0;
      hide VoteNotices, IsAtRiskOfExpiry;
    }
  }

  lemma WarningDueAppend(listed: bool, seen: seq<Sighting>, s: Sighting)
    ensures WarningDue(listed, seen + [s]) <==> WarningDue(listed, seen) || ((listed || seen != []) && AtRisk(s))
  {
    var all := seen + [s];
    hide AtRisk;
    if WarningDue(listed, seen) {
      var k :| 0 <= k < |seen| && (listed || k > 0) && AtRisk(seen[k]);
      assert AtRisk(all[k]);
    }
    if (listed || seen != []) && AtRisk(s) {
      assert AtRisk(all[|seen|]);
    }
  }

  lemma ProcessTracks(s: BotState, p: Proposal, now: int, id: nat, listed: bool, seen: seq<Sighting>)
    requires Tracks(s, id, listed, seen)
    ensures Tracks(Process(s, p, now), id, listed, seen + if p.id == id then [Sighting(p, now)] else [])
  {
    AtRiskIff(p, now);
    hide News, IsAtRiskOfExpiry, WarningDue, AtRisk;
    NewsOnce(s, p, now, id);
    WarningDueAppend(listed, seen, Sighting(p, now));
    assert seen + [] == seen;
  }

  lemma AtRiskIff(p: Proposal, now: int)
    ensures IsAtRiskOfExpiry(p, now) <==> AtRisk(Sighting(p, now))
  {
  }

  lemma {:induction false} TickTracks(s: BotState, proposals: seq<Proposal>, now: int, id: nat, listed: bool,
                                      seen: seq<Sighting>)
    requires Tracks(s, id, listed, seen)
    ensures Tracks(ProcessAll(s, proposals, now), id, listed, seen + SightingsIn(proposals, now, id))
    decreases |proposals|
  {
    hide Tracks, Process;
    if proposals == [] {
      assert seen + [] == seen;
    } else {
      var front, p := proposals[..|proposals| - 1], proposals[|proposals| - 1];
      TickTracks(s, front, now, id, listed, seen);
      var before, one := SightingsIn(front, now, id), if p.id == id then [Sighting(p, now)] else [];
      ProcessTracks(ProcessAll(s, front, now), p, now, id, listed, seen + before);
      assert (seen + before) + one == seen + (before + one);
    }
  }

  lemma {:induction false} RunTracks(s: BotState, ticks: seq<Observed>, id: nat, listed: bool)
    requires Tracks(s, id, listed, [])
    ensures Tracks(RunTicks(s, ticks), id, listed, Sightings(ticks, id))
    decreases |ticks|
  {
    hide Tracks, ProcessAll;
    if ticks != [] {
      var front, last := ticks[..|ticks| - 1], ticks[|ticks| - 1];
      RunTracks(s, front, id, listed);
      TickTracks(RunTicks(s, front), last.proposals, last.now, id, listed, Sightings(front, id));
    }
  }

  /** Start-up caches exactly what it is given, and sends nothing. */
  lemma {:induction false} StartUpCaches(proposals: seq<Proposal>, id: nat)
    ensures var s := Seeded(START, proposals);
      s.sent == [] && s.warned == {} && (id in s.cache <==> IsListed(proposals, id))
    decreases |proposals|
  {
    if proposals != [] {
      var front, last := proposals[..|proposals| - 1], proposals[|proposals| - 1];
      StartUpCaches(front, id);
      if IsListed(front, id) {
        var i :| 0 <= i < |front| && front[i].id == id;
        assert proposals[i].id == id;
      }
    }
  }

  /**
   * From start-up on, over any ticks: a proposal is announced as new exactly once if it was not listed at start-up and
   * is ever seen, and never otherwise. A warning is sent exactly once if the proposal was ever seen at risk of expiry
   * after the bot knew it, and never otherwise.
   */
  lemma AnnouncedOnceFromStartUp(listed: seq<Proposal>, ticks: seq<Observed>, id: nat)
    ensures var sent, seen := RunTicks(Seeded(START, listed), ticks).sent, Sightings(ticks, id);
      && multiset(sent)[NewProposal(id)] == (if IsListed(listed, id) || seen == [] then 0 else 1)
      && multiset(sent)[AtRiskOfExpiry(id)] == (if WarningDue(IsListed(listed, id), seen) then 1 else 0)
  {
    StartUpCaches(listed, id);
    hide Seeded, IsListed, RunTicks, Sightings;
    RunTracks(Seeded(START, listed), ticks, id, IsListed(listed, id));
  }

  // ----- changes of status are announced -----

  /** The last entry for the proposal in a list. */
  function LastListed(proposals: seq<Proposal>, id: nat): Option<Proposal> {
    if proposals == [] then None
    else
      var last := proposals[|proposals| - 1];
      if last.id == id then Some(last) else LastListed(proposals[..|proposals| - 1], id)
  }

  function LastSeen(listed: Option<Proposal>, seen: seq<Sighting>): Option<Proposal> {
    if seen == [] then listed else Some(seen[|seen| - 1].p)
  }

  /** How often the proposal was seen with the given status when it had another one before. */
  function ChangesTo(listed: Option<Proposal>, seen: seq<Sighting>, status: string): nat {
    if seen == [] then 0
    else
      var front, last := seen[..|seen| - 1], seen[|seen| - 1].p;
      var before := LastSeen(listed, front);
      ChangesTo(listed, front, status)
      + if last.status == status && before.Some? && before.value.status != status then 1 else 0
  }

  ghost predicate TracksStatus(s: BotState, id: nat, listed: Option<Proposal>, seen: seq<Sighting>, status: string) {
    && CachedOf(s, id) == LastSeen(listed, seen)
    && multiset(s.sent)[UpdatedStatus(id, status)] == ChangesTo(listed, seen, status)
  }

  lemma NewsOfStatus(s: BotState, p: Proposal, now: int, id: nat, status: string)
    ensures multiset(News(s, p, now))[UpdatedStatus(id, status)]
         == if p.id == id && id in s.cache && s.cache[id].status != p.status && p.status == status then 1 else 0
  {
    if p.id in s.cache {
      var votes := VoteNotices(p.id, ExtractNewVotes(s.cache[p.id], p));
      assert UpdatedStatus(id, status) !in votes;
      assert multiset(votes)[UpdatedStatus(id, status)] == 0;
      hide VoteNotices, IsAtRiskOfExpiry;
    }
  }

  lemma ProcessTracksStatus(s: BotState, p: Proposal, now: int, id: nat, listed: Option<Proposal>, seen: seq<Sighting>,
                            status: string)
    requires TracksStatus(s, id, listed, seen, status)
    ensures TracksStatus(Process(s, p, now), id, listed, seen + if p.id == id then [Sighting(p, now)] else [], status)
  {
    hide News, ChangesTo, LastSeen;
    NewsOfStatus(s, p, now, id, status);
    ChangesOneMore(listed, seen, Sighting(p, now), status);
    assert seen + [] == seen;
  }

  lemma ChangesOneMore(listed: Option<Proposal>, seen: seq<Sighting>, s: Sighting, status: string)
    ensures LastSeen(listed, seen + [s]) == Some(s.p)
    ensures var before := LastSeen(listed, seen);
      ChangesTo(listed, seen + [s], status)
      == ChangesTo(listed, seen, status)
         + if s.p.status == status && before.Some? && before.value.status != status then 1 else 0
  {
    assert (seen + [s])[..|seen|] == seen;
  }

  lemma {:induction false} TickTracksStatus(s: BotState, proposals: seq<Proposal>, now: int, id: nat,
                                            listed: Option<Proposal>, seen: seq<Sighting>, status: string)
    requires TracksStatus(s, id, listed, seen, status)
    ensures TracksStatus(ProcessAll(s, proposals, now), id, listed, seen + SightingsIn(proposals, now, id), status)
    decreases |proposals|
  {
    hide TracksStatus, Process;
    if proposals == [] {
      assert seen + [] == seen;
    } else {
      var front, p := proposals[..|proposals| - 1], proposals[|proposals| - 1];
      TickTracksStatus(s, front, now, id, listed, seen, status);
      var before, one := SightingsIn(front, now, id), if p.id == id then [Sighting(p, now)] else [];
      ProcessTracksStatus(ProcessAll(s, front, now), p, now, id, listed, seen + before, status);
      assert (seen + before) + one == seen + (before + one);
    }
  }

  lemma {:induction false} RunTracksStatus(s: BotState, ticks: seq<Observed>, id: nat, listed: Option<Proposal>,
                                           status: string)
    requires TracksStatus(s, id, listed, [], status)
    ensures TracksStatus(RunTicks(s, ticks), id, listed, Sightings(ticks, id), status)
    decreases |ticks|
  {
    hide TracksStatus, ProcessAll;
    if ticks != [] {
      var front, last := ticks[..|ticks| - 1], ticks[|ticks| - 1];
      RunTracksStatus(s, front, id, listed, status);
      TickTracksStatus(RunTicks(s, front), last.proposals, last.now, id, listed, Sightings(front, id), status);
    }
  }

  lemma {:induction false} StartUpCachesLast(proposals: seq<Proposal>, id: nat)
    ensures CachedOf(Seeded(START, proposals), id) == LastListed(proposals, id) && Seeded(START, proposals).sent == []
    decreases |proposals|
  {
    if proposals != [] {
      StartUpCachesLast(proposals[..|proposals| - 1], id);
    }
  }

  /** From start-up on, over any ticks: a status is announced each time the proposal is seen with it and had another. */
  lemma StatusChangesAreAnnounced(listed: seq<Proposal>, ticks: seq<Observed>, id: nat, status: string)
    ensures multiset(RunTicks(Seeded(START, listed), ticks).sent)[UpdatedStatus(id, status)]
         == ChangesTo(LastListed(listed, id), Sightings(ticks, id), status)
  {
    StartUpCachesLast(listed, id);
    hide Seeded, LastListed, RunTicks, Sightings;
    RunTracksStatus(Seeded(START, listed), ticks, id, LastListed(listed, id), status);
  }
}
