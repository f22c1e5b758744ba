/** The web app's cache of event logs: its reducers, what needs fetching, and the block ranges fetched. */
module Logs {
  import opened Options
  import opened LogKeys

  datatype Log = Log(topics: seq<string>, transactionHash: string, data: string)

  /** Logs up to a block, or the failure to get them (None). */
  datatype Results = Results(blockNumber: nat, logs: Option<seq<Log>>)
  datatype Entry = Entry(listeners: int, fetchingBlockNumber: Option<nat>, results: Option<Results>)

  datatype Action =
    | AddListener(filter: EventFilter)
    | FetchingLogs(filters: seq<EventFilter>, blockNumber: nat)
    | FetchedLogs(filter: EventFilter, results: Results)
    | FetchedLogsError(filter: EventFilter, block: nat)
    | RemoveListener(filter: EventFilter)

  type Entries = map<string, Entry>

  // ----- the reducers as functions -----

  function MarkFetching(state: Entries, filters: seq<EventFilter>, blockNumber: nat): Entries {
    if filters == [] then state
    else
      var before := MarkFetching(state, filters[..|filters| - 1], blockNumber);
      var key := FilterToKey(filters[|filters| - 1]);
      if key in before then before[key := before[key].(fetchingBlockNumber := Some(blockNumber))] else before
  }

  /** Results are stored unless newer ones are there already, or nobody ever asked. */
  function StoreResults(state: Entries, key: string, results: Results): Entries {
    if key !in state
       || (state[key].results.Some? && state[key].results.value.blockNumber > results.blockNumber)
    then state
    else state[key := state[key].(results := Some(results))]
  }

  function Reduce(state: Entries, action: Action): Entries {
    match action
    case AddListener(filter) =>
      var key := FilterToKey(filter);
      if key in state then state[key := state[key].(listeners := state[key].listeners + 1)]
      else state[key := Entry(1, None, None)]
    case FetchingLogs(filters, blockNumber) => MarkFetching(state, filters, blockNumber)
    case FetchedLogs(filter, results) => StoreResults(state, FilterToKey(filter), results)
    case FetchedLogsError(filter, block) => StoreResults(state, FilterToKey(filter), Results(block, None))
    case RemoveListener(filter) =>
      var key := FilterToKey(filter);
      if key in state then state[key := state[key].(listeners := state[key].listeners - 1)] else state
  }

  function ReduceAll(state: Entries, actions: seq<Action>): Entries
    decreases actions
  {
    if actions == [] then state else ReduceAll(Reduce(state, actions[0]), actions[1..])
  }

  // ----- the slice -----

  class LogsSlice {
    var state: Entries

    constructor ()
      ensures state == map[]
    {
      state := map[];
    }

    method AddListener(filter: EventFilter)
      modifies this
      ensures state == Reduce(old(state), Action.AddListener(filter))
    {
      var key := FilterToKey(filter);
      if key !in state {
        state := state[key := Entry(1, None, None)];
      } else {
        state := state[key := state[key].(listeners := state[key].listeners + 1)];
      }
    }

    method FetchingLogs(filters: seq<EventFilter>, blockNumber: nat)
      modifies this
      ensures state == Reduce(old(state), Action.FetchingLogs(filters, blockNumber))
    {
      for i := 0 to |filters|
        invariant state == MarkFetching(old(state), filters[..i], blockNumber)
      {
        assert filters[..i + 1][..i] == filters[..i];
        var key := FilterToKey(filters[i]);
        if key in state {
          state := state[key := state[key].(fetchingBlockNumber := Some(blockNumber))];
        }
      }
      assert filters[..|filters|] == filters;
    }

    method FetchedLogs(filter: EventFilter, results: Results)
      modifies this
      ensures state == Reduce(old(state), Action.FetchedLogs(filter, results))
    {
      var key := FilterToKey(filter);
      if key !in state
        || (state[key].results.Some? && state[key].results.value.blockNumber > results.blockNumber) {
        return;
      }
      state := state[key := state[key].(results := Some(results))];
    }

    method FetchedLogsError(filter: EventFilter, block: nat)
      modifies this
      ensures state == Reduce(old(state), Action.FetchedLogsError(filter, block))
    {
      var key := FilterToKey(filter);
      if key !in state
        || (state[key].results.Some? && state[key].results.value.blockNumber > block) {
        return;
      }
      state := state[key := state[key].(results := Some(Results(block, None)))];
    }

    method RemoveListener(filter: EventFilter)
      modifies this
      ensures state == Reduce(old(state), Action.RemoveListener(filter))
    {
      var key := FilterToKey(filter);
      if key in state {
        state := state[key := state[key].(listeners := state[key].listeners - 1)];
      }
    }
  }

  // ----- stored results only get newer -----

  /** The entry is still there, with results at least as new. */
  ghost predicate NotOlder(state: Entries, later: Entries, key: string) {
    && key in state && key in later
    && (state[key].results.Some? ==>
          later[key].results.Some?
          && state[key].results.value.blockNumber <= later[key].results.value.blockNumber)
  }

  lemma {:induction false} MarkingKeepsResults(state: Entries, filters: seq<EventFilter>, blockNumber: nat, key: string)
    requires key in state
    ensures var later := MarkFetching(state, filters, blockNumber);
      key in later && later[key].results == state[key].results
    decreases |filters|
  {
    hide FilterToKey;
    if filters != [] {
      MarkingKeepsResults(state, filters[..|filters| - 1], blockNumber, key);
    }
  }

  lemma ActionKeepsResults(state: Entries, action: Action, key: string)
    requires key in state
    ensures NotOlder(state, Reduce(state, action), key)
  {
    hide FilterToKey;
    if action.FetchingLogs? {
      MarkingKeepsResults(state, action.filters, action.blockNumber, key);
    }
  }

  /** Whatever actions come in whatever order, an entry never goes back to older results. */
  lemma {:induction false} ResultsNeverGoBack(state: Entries, actions: seq<Action>, key: string)
    requires key in state
    ensures NotOlder(state, ReduceAll(state, actions), key)
    decreases actions
  {
    hide Reduce;
    if actions != [] {
      ActionKeepsResults(state, actions[0], key);
      ResultsNeverGoBack(Reduce(state, actions[0]), actions[1..], key);
    }
  }

  // ----- fetching -----

  /** Whether the updater fetches logs for an entry. */
  predicate NeedsFetch(entry: Entry, blockNumber: nat) {
    && entry.listeners != 0
    && !(entry.fetchingBlockNumber.Some? && entry.fetchingBlockNumber.value >= blockNumber)
    && !(entry.results.Some? && entry.results.value.blockNumber >= blockNumber)
  }

  /**
   * The updater reads a filter from each key and hands back results for that filter. They reach the entry that asked
   * if and only if its key is read back as itself; then the entry is not fetched again for that block.
   */
  lemma ResultsReachAskerIff(state: Entries, key: string, results: Results)
    requires key in state && NeedsFetch(state[key], results.blockNumber) && KeyToFilter(key).Some?
    ensures var later := Reduce(state, Action.FetchedLogs(KeyToFilter(key).value, results));
      && (later[key].results == Some(results) <==> RoundTrips(key))
      && (RoundTrips(key) ==> !NeedsFetch(later[key], results.blockNumber))
      && (!RoundTrips(key) ==> later[key] == state[key])
  {
    hide FilterToKey, KeyToFilter;
  }

  // ----- an entry by the actions -----

  /** Somebody has asked for the key. */
  function Asked(actions: seq<Action>, key: string): bool {
    actions != []
    && var last := actions[|actions| - 1];
       Asked(actions[..|actions| - 1], key) || (last.AddListener? && FilterToKey(last.filter) == key)
  }

  /** Listeners added less listeners removed, from the first one on. */
  function Listeners(actions: seq<Action>, key: string): int {
    if actions == [] then 0
    else
      var last, before := actions[|actions| - 1], actions[..|actions| - 1];
      Listeners(before, key)
      + (if last.AddListener? && FilterToKey(last.filter) == key then 1 else 0)
      - (if last.RemoveListener? && FilterToKey(last.filter) == key && Asked(before, key) then 1 else 0)
  }

  predicate Concerns(filters: seq<EventFilter>, key: string) {
    exists i :: 0 <= i < |filters| && FilterToKey(filters[i]) == key
  }

  /** The block for which the key was last said to be fetched, after somebody had asked. */
  function LastFetching(actions: seq<Action>, key: string): Option<nat> {
    if actions == [] then None
    else
      var last, before := actions[|actions| - 1], actions[..|actions| - 1];
      if last.FetchingLogs? && Concerns(last.filters, key) && Asked(before, key) then Some(last.blockNumber)
      else LastFetching(before, key)
  }

  /** What an action brings for the key: logs, or the failure to get them. */
  function Brings(action: Action, key: string): Option<Results> {
    match action
    case FetchedLogs(filter, results) => if FilterToKey(filter) == key then Some(results) else None
    case FetchedLogsError(filter, block) => if FilterToKey(filter) == key then Some(Results(block, None)) else None
    case _ => None
  }

  /** The results for the latest block brought after somebody had asked; of several for one block the last. */
  function Newest(actions: seq<Action>, key: string): Option<Results> {
    if actions == [] then None
    else
      var before := actions[..|actions| - 1];
      var brought, newest := Brings(actions[|actions| - 1], key), Newest(before, key);
      if brought.Some? && Asked(before, key)
         && (newest == None || newest.value.blockNumber <= brought.value.blockNumber) then brought
      else newest
  }

  function StateAfter(actions: seq<Action>): Entries {
    if actions == [] then map[] else Reduce(StateAfter(actions[..|actions| - 1]), actions[|actions| - 1])
  }

  lemma {:induction false} MarkedEntry(state: Entries, filters: seq<EventFilter>, blockNumber: nat, key: string)
    ensures var later := MarkFetching(state, filters, blockNumber);
      && (key in later <==> key in state)
      && (key in state ==>
            later[key] == if Concerns(filters, key) then state[key].(fetchingBlockNumber := Some(blockNumber)) else state[key])
    decreases |filters|
  {
    hide FilterToKey;
    if filters != [] {
      var front := filters[..|filters| - 1];
      MarkedEntry(state, front, blockNumber, key);
      if Concerns(front, key) {
        var i :| 0 <= i < |front| && FilterToKey(front[i]) == key;
        assert FilterToKey(filters[i]) == key;
      }
    }
  }

  lemma EntryStep(state: Entries, action: Action, key: string)
    ensures var later := Reduce(state, action);
      && (key in later <==> key in state || (action.AddListener? && FilterToKey(action.filter) == key))
      && (key in later ==>
            var was, now := if key in state then state[key] else Entry(0, None, None), later[key];
            && now.listeners == was.listeners
                 + (if action.AddListener? && FilterToKey(action.filter) == key then 1 else 0)
                 - (if action.RemoveListener? && FilterToKey(action.filter) == key then 1 else 0)
            && now.fetchingBlockNumber
               == (if action.FetchingLogs? && Concerns(action.filters, key) then Some(action.blockNumber)
                   else was.fetchingBlockNumber)
            && now.results
               == (var brought := Brings(action, key);
                   if brought.Some? && (was.results == None || was.results.value.blockNumber <= brought.value.blockNumber)
                   then brought else was.results))
  {
    hide FilterToKey, Concerns;
    if action.FetchingLogs? {
      MarkedEntry(state, action.filters, action.blockNumber, key);
    }
  }

  /** After any actions, each entry is what the actions say. */
  lemma {:induction false} EntryByActions(actions: seq<Action>, key: string)
    ensures var state := StateAfter(actions);
      && (key in state <==> Asked(actions, key))
      && (key in state ==>
            state[key] == Entry(Listeners(actions, key), LastFetching(actions, key), Newest(actions, key)))
      && (!Asked(actions, key) ==>
            Listeners(actions, key) == 0 && LastFetching(actions, key) == None && Newest(actions, key) == None)
    decreases |actions|
  {
    hide Reduce, FilterToKey, Concerns;
    if actions != [] {
      EntryByActions(actions[..|actions| - 1], key);
      EntryStep(StateAfter(actions[..|actions| - 1]), actions[|actions| - 1], key);
    }
  }

  /**
   * After any actions, logs are fetched for an entry and a block if and only if it has listeners (or was left by more
   * than came), nobody fetches for that block or a later one, and no results or failure are there for one.
   */
  lemma FetchedIff(actions: seq<Action>, key: string, block: nat)
    requires key in StateAfter(actions)
    ensures NeedsFetch(StateAfter(actions)[key], block)
       <==> && Listeners(actions, key) != 0
            && (LastFetching(actions, key).Some? ==> LastFetching(actions, key).value < block)
            && (Newest(actions, key).Some? ==> Newest(actions, key).value.blockNumber < block)
  {
    EntryByActions(actions, key);
    hide Reduce, FilterToKey;
  }

  // ----- block ranges -----

  const MAX_BLOCKS_PER_CALL := 1000000

  datatype Range = Range(fromBlock: nat, toBlock: nat)

  function Ranges(fromBlock: nat, blockNumber: nat): seq<Range>
    decreases blockNumber + 1 - fromBlock
  {
    if fromBlock > blockNumber then []
    else
      var end := fromBlock + MAX_BLOCKS_PER_CALL;
      [Range(fromBlock, if end <= blockNumber then end else blockNumber)] + Ranges(end, blockNumber)
  }

  method BlockRanges(filterFromBlock: Option<nat>, blockNumber: nat) returns (ranges: seq<Range>)
    ensures ranges == Ranges(if filterFromBlock.Some? then filterFromBlock.value else 0, blockNumber)
  {
    ranges := [];
    var fromBlock := if filterFromBlock.Some? then filterFromBlock.value else 0;
    ghost var all := Ranges(fromBlock, blockNumber);
    while fromBlock <= blockNumber
      invariant ranges + Ranges(fromBlock, blockNumber) == all
    {
      var end := fromBlock + MAX_BLOCKS_PER_CALL;
      ranges := ranges + [Range(fromBlock, if end <= blockNumber then end else blockNumber)];
      fromBlock := end;
    }
  }

  /** In how many ranges a block is. */
  ghost function Fetched(ranges: seq<Range>, block: nat): nat {
    if ranges == [] then 0
    else (if ranges[0].fromBlock <= block <= ranges[0].toBlock then 1 else 0) + Fetched(ranges[1..], block)
  }

  /**
   * Every block from the start to the head is fetched once, except that blocks a positive multiple of the range size
   * after the start end one range and begin the next. No other block is fetched.
   */
  lemma {:induction false} RangesCover(fromBlock: nat, blockNumber: nat, block: nat)
    ensures Fetched(Ranges(fromBlock, blockNumber), block)
         == if fromBlock <= block <= blockNumber
            then (if block > fromBlock && (block - fromBlock) % MAX_BLOCKS_PER_CALL == 0 then 2 else 1)
            else 0
    decreases blockNumber + 1 - fromBlock
  {
    if fromBlock <= blockNumber {
      var end := fromBlock + MAX_BLOCKS_PER_CALL;
      RangesCover(end, blockNumber, block);
      var ranges := Ranges(fromBlock, blockNumber);
      assert ranges[1..] == Ranges(end, blockNumber);
      if block >= end {
        assert (block - end) % MAX_BLOCKS_PER_CALL == (block - fromBlock) % MAX_BLOCKS_PER_CALL;
      }
    }
  }
}
